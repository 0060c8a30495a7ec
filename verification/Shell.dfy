/** The shell's parser (user/bin/hello.c).  A command line is its characters without the terminator, and a
    pointer into it is an index; the end `es` is the length.  Where the code panics, parsing fails. */
module Shell {
  const NUL: char := '\0'
  const MAXARGS: nat := 10
  const WHITESPACE: string := [' ', '\t', '\r', '\n', 11 as char]
  const SYMBOLS: string := "<|>&;()"

  /** A counted string: where it starts and where it ends. */
  type Range = (nat, nat)

  datatype Mode = ReadOnly | WriteCreate

  datatype Redir = Redir(file: Range, mode: Mode, fd: nat)

  datatype Cmd =
    | Exec(args: seq<Range>)
    | Redirect(cmd: Cmd, redir: Redir)
    | Pipe(left: Cmd, right: Cmd)
    | List(left: Cmd, right: Cmd)
    | Back(cmd: Cmd)

  datatype Result = Parsed(cmd: Cmd) | Panic

  predicate Space(c: char): (yes: bool)
    ensures yes <==> c == ' ' || c == '\t' || c == '\r' || c == '\n' || c as int == 11
  {
    c in WHITESPACE
  }

  predicate Delim(c: char): (yes: bool)
    ensures yes <==> Space(c) || c == '<' || c == '|' || c == '>' || c == '&' || c == ';' || c == '(' || c == ')'
  {
    c in WHITESPACE || c in SYMBOLS
  }

  function At(line: string, s: nat): char {
    if s < |line| then line[s] else NUL
  }

  // ---- words ----

  /** A word of the line: a longest stretch without white space and symbols. */
  predicate IsWord(line: string, q: nat, e: nat) {
    && q < e <= |line| && (forall i :: q <= i < e ==> !Delim(line[i]))
    && (q == 0 || Delim(line[q - 1])) && (e == |line| || Delim(line[e]))
  }

  /** s is not inside a word. */
  predicate Boundary(line: string, s: nat) {
    s <= |line| && (s == 0 || s == |line| || Delim(line[s - 1]) || Delim(line[s]))
  }

  /** `ws` holds every word that starts in [lo, hi), once, and nothing else. */
  ghost predicate Covers(line: string, lo: nat, hi: nat, ws: multiset<Range>) {
    forall q: nat, e: nat :: ws[(q, e)] == if lo <= q < hi && IsWord(line, q, e) then 1 else 0
  }

  lemma CoversJoin(line: string, lo: nat, mid: nat, hi: nat, a: multiset<Range>, b: multiset<Range>)
    requires lo <= mid <= hi && Covers(line, lo, mid, a) && Covers(line, mid, hi, b)
    ensures Covers(line, lo, hi, a + b)
  {
  }

  /** Delimiters hold no word. */
  lemma CoversDelims(line: string, lo: nat, hi: nat)
    requires lo <= hi <= |line| && forall i :: lo <= i < hi ==> Delim(line[i])
    ensures Covers(line, lo, hi, multiset{})
  {
    forall q: nat, e: nat ensures !(lo <= q < hi && IsWord(line, q, e)) {
      assert lo <= q < hi ==> Delim(line[q]);
    }
  }

  lemma CoversBlank(line: string, lo: nat, hi: nat)
    requires Blank(line, lo, hi)
    ensures Covers(line, lo, hi, multiset{})
  {
    forall i | lo <= i < hi ensures Delim(line[i]) {
      assert SpaceAt(line, i);
    }
    CoversDelims(line, lo, hi);
  }

  /** Two words that overlap are the same. */
  lemma SameWord(line: string, q: nat, e: nat, p: nat, f: nat)
    requires IsWord(line, q, e) && IsWord(line, p, f) && q <= p < e
    ensures p == q && f == e
  {
  }

  lemma CoversWord(line: string, q: nat, e: nat)
    requires IsWord(line, q, e)
    ensures Covers(line, q, e, multiset{(q, e)})
  {
    forall p: nat, f: nat ensures multiset{(q, e)}[(p, f)] == if q <= p < e && IsWord(line, p, f) then 1 else 0 {
      if q <= p < e && IsWord(line, p, f) {
        SameWord(line, q, e, p, f);
      }
    }
  }

  // ---- tokens ----

  /** A word, of kind 'a', one of the symbols, or '+' for ">>"; its text is [q, e). */
  datatype Token = Token(kind: char, q: nat, e: nat)

  /** The text [q, e) is a token of kind `tok`, or the end of the line. */
  predicate TokenAt(line: string, tok: char, q: nat, e: nat) {
    match tok
    case '\0' => q == e == |line|
    case 'a' => IsWord(line, q, e)
    case '+' => q + 2 == e <= |line| && line[q] == line[q + 1] == '>'
    case _ => q + 1 == e <= |line| && line[q] == tok && tok in SYMBOLS && !(tok == '>' && At(line, e) == '>')
  }

  predicate SpaceAt(line: string, i: nat) {
    i < |line| && Space(line[i])
  }

  /** [lo, hi) is white space. */
  predicate Blank(line: string, lo: nat, hi: nat) {
    lo <= hi <= |line| && forall i: nat :: lo <= i < hi ==> SpaceAt(line, i)
  }

  /** At a character that is not white space, or at the end. */
  predicate Settled(line: string, t: nat) {
    t <= |line| && (t < |line| ==> !Space(line[t]))
  }

  function SkipTo(line: string, s: nat): (t: nat)
    requires s <= |line|
    ensures s <= t <= |line| && Settled(line, t)
    decreases |line| - s
  {
    if s < |line| && Space(line[s]) then SkipTo(line, s + 1) else s
  }

  lemma {:induction false} SkipBlank(line: string, s: nat)
    requires s <= |line|
    ensures Blank(line, s, SkipTo(line, s))
    decreases |line| - s
  {
    if s < |line| && Space(line[s]) {
      SkipBlank(line, s + 1);
      assert forall i: nat :: s <= i < SkipTo(line, s) ==> i == s || SpaceAt(line, i);
    }
  }

  function WordEnd(line: string, q: nat): (e: nat)
    requires q <= |line|
    ensures q <= e <= |line| && (q < |line| && !Delim(line[q]) ==> q < e)
    decreases |line| - q
  {
    if q < |line| && !Delim(line[q]) then WordEnd(line, q + 1) else q
  }

  lemma {:induction false} WordEndIs(line: string, q: nat)
    requires q <= |line|
    ensures var e := WordEnd(line, q); (forall i :: q <= i < e ==> !Delim(line[i])) && (e == |line| || Delim(line[e]))
    decreases |line| - q
  {
    if q < |line| && !Delim(line[q]) {
      WordEndIs(line, q + 1);
    }
  }

  function TokenFrom(line: string, q: nat): (tok: Token)
    requires q < |line| && !Space(line[q])
    ensures tok.q == q < tok.e <= |line|
  {
    if line[q] !in SYMBOLS then Token('a', q, WordEnd(line, q))
    else if line[q] == '>' && At(line, q + 1) == '>' then Token('+', q, q + 2)
    else Token(line[q], q, q + 1)
  }

  lemma TokenFromIs(line: string, q: nat)
    requires q < |line| && !Space(line[q]) && Boundary(line, q)
    ensures TokenAt(line, TokenFrom(line, q).kind, q, TokenFrom(line, q).e) && Boundary(line, TokenFrom(line, q).e)
  {
    WordEndIs(line, q);
  }

  /** The tokens of the line from s on. */
  function Tokens(line: string, s: nat): seq<Token>
    requires s <= |line|
    decreases |line| - s
  {
    var q := SkipTo(line, s);
    if q == |line| then [] else [TokenFrom(line, q)] + Tokens(line, TokenFrom(line, q).e)
  }

  lemma {:induction false} TokensSkip(line: string, s: nat, t: nat)
    requires Blank(line, s, t)
    ensures SkipTo(line, s) == SkipTo(line, t) && Tokens(line, s) == Tokens(line, t)
    ensures Boundary(line, s) ==> Boundary(line, t)
    decreases t - s
  {
    if s < t {
      assert SpaceAt(line, s);
      TokensSkip(line, s + 1, t);
    }
  }

  /** The end of token i - 1, or s. */
  function Left(s: nat, ts: seq<Token>, i: nat): nat
    requires i <= |ts|
  {
    if i == 0 then s else ts[i - 1].e
  }

  predicate TokenIn(line: string, s: nat, ts: seq<Token>, i: nat)
    requires i < |ts|
  {
    Blank(line, Left(s, ts, i), ts[i].q) && ts[i].kind != NUL && TokenAt(line, ts[i].kind, ts[i].q, ts[i].e)
  }

  /** The tokens divide the line from s on, with white space between them: words are longest stretches without
      delimiters, ">>" is one token, and any other symbol stands for itself. */
  predicate Divides(line: string, s: nat, ts: seq<Token>) {
    (forall i: nat :: i < |ts| ==> TokenIn(line, s, ts, i)) && Blank(line, Left(s, ts, |ts|), |line|)
  }

  lemma DividesMore(line: string, s: nat, tok: Token, ts: seq<Token>)
    requires TokenIn(line, s, [tok] + ts, 0)
    ensures Divides(line, s, [tok] + ts) <==> Divides(line, tok.e, ts)
  {
    var all := [tok] + ts;
    forall i: nat | i < |ts| ensures TokenIn(line, s, all, i + 1) <==> TokenIn(line, tok.e, ts, i) {
      assert Left(s, all, i + 1) == Left(tok.e, ts, i);
    }
    forall i: nat | 0 < i < |all| ensures TokenIn(line, s, all, i) <==> TokenIn(line, tok.e, ts, i - 1) {
      assert Left(s, all, i) == Left(tok.e, ts, i - 1);
    }
    assert Left(s, all, |all|) == Left(tok.e, ts, |ts|);
  }

  lemma {:induction false} TokensDivide(line: string, s: nat)
    requires Boundary(line, s) && NUL !in line
    ensures Divides(line, s, Tokens(line, s))
    decreases |line| - s
  {
    var q := SkipTo(line, s);
    SkipBlank(line, s);
    TokensSkip(line, s, q);
    if q < |line| {
      var tok := TokenFrom(line, q);
      TokenFromIs(line, q);
      assert line[q] in line;
      TokensDivide(line, tok.e);
      DividesMore(line, s, tok, Tokens(line, tok.e));
    }
  }

  /** Only one token can start at a place. */
  lemma OneToken(line: string, tok: Token)
    requires tok.kind != NUL && TokenAt(line, tok.kind, tok.q, tok.e)
    ensures tok.q < |line| && !Space(line[tok.q]) && TokenFrom(line, tok.q) == tok
  {
    if tok.kind == 'a' {
      WordEndIs(line, tok.q);
    }
  }

  lemma {:induction false} OneDivision(line: string, s: nat, ts: seq<Token>)
    requires s <= |line| && Divides(line, s, ts)
    ensures ts == Tokens(line, s)
    decreases |ts|
  {
    if ts == [] {
      TokensSkip(line, s, |line|);
    } else {
      var tok := ts[0];
      assert TokenIn(line, s, ts, 0) && [tok] + ts[1..] == ts;
      OneToken(line, tok);
      TokensSkip(line, s, tok.q);
      DividesMore(line, s, tok, ts[1..]);
      OneDivision(line, tok.e, ts[1..]);
    }
  }

  /** A line divides into tokens in one way. */
  lemma TokensIff(line: string, ts: seq<Token>)
    requires NUL !in line
    ensures Divides(line, 0, ts) <==> ts == Tokens(line, 0)
  {
    TokensDivide(line, 0);
    if Divides(line, 0, ts) {
      OneDivision(line, 0, ts);
    }
  }

  method SkipSpace(line: string, s: nat) returns (t: nat)
    requires s <= |line|
    ensures Blank(line, s, t) && Settled(line, t)
  {
    t := s;
    while t < |line| && Space(line[t])
      invariant Blank(line, s, t)
    {
      t := t + 1;
    }
  }

  /** gettoken's scan of a word from q on. */
  method ScanWord(line: string, q: nat) returns (e: nat)
    requires q < |line| && !Delim(line[q]) && Boundary(line, q)
    ensures IsWord(line, q, e) && e == WordEnd(line, q)
  {
    e := q;
    while e < |line| && !Delim(line[e])
      invariant q <= e <= |line| && (e == q ==> !Delim(line[q])) && forall i :: q <= i < e ==> !Delim(line[i])
      invariant WordEnd(line, e) == WordEnd(line, q)
    {
      e := e + 1;
    }
  }

  /** gettoken's token at q, which is not white space: its kind and its end. */
  method ScanToken(line: string, q: nat) returns (tok: char, e: nat)
    requires Boundary(line, q) && NUL !in line && (q < |line| ==> !Space(line[q]))
    ensures q <= e <= |line| && TokenAt(line, tok, q, e)
    ensures q < |line| ==> Token(tok, q, e) == TokenFrom(line, q)
  {
    assert q < |line| ==> line[q] in line;
    tok, e := At(line, q), q;
    if tok == NUL {
    } else if tok == '|' || tok == '(' || tok == ')' || tok == ';' || tok == '&' || tok == '<' {
      e := q + 1;
    } else if tok == '>' {
      e := q + 1;
      if At(line, e) == '>' {
        tok := '+';
        e := e + 1;
      }
    } else {
      tok := 'a';
      e := ScanWord(line, q);
    }
  }

  /** gettoken */
  method GetToken(line: string, s: nat) returns (tok: char, q: nat, eq: nat, t: nat)
    requires Boundary(line, s) && NUL !in line
    ensures Blank(line, s, q) && q <= eq && Blank(line, eq, t) && Boundary(line, t)
    ensures Settled(line, t) && TokenAt(line, tok, q, eq)
    ensures Settled(line, s) ==> q == s
    ensures if Tokens(line, s) == [] then tok == NUL && t == |line|
            else Tokens(line, s) == [Token(tok, q, eq)] + Tokens(line, t)
  {
    q := SkipSpace(line, s);
    TokensSkip(line, s, q);
    tok, eq := ScanToken(line, q);
    t := SkipSpace(line, eq);
    TokensSkip(line, eq, t);
  }

  /** The first character of a symbol. */
  function Lead(tok: Token): char {
    if tok.kind == '+' then '>' else tok.kind
  }

  /** peek: skips white space and tells whether the next character is one of `toks`. */
  method Peek(line: string, s: nat, toks: string) returns (found: bool, t: nat)
    requires Boundary(line, s) && NUL !in line && forall c :: c in toks ==> c in SYMBOLS
    ensures Blank(line, s, t) && Boundary(line, t) && Settled(line, t)
    ensures found <==> t < |line| && line[t] in toks
    ensures Settled(line, s) ==> t == s
    ensures Tokens(line, t) == Tokens(line, s) && (found <==> Tokens(line, s) != [] && Lead(Tokens(line, s)[0]) in toks)
  {
    t := SkipSpace(line, s);
    TokensSkip(line, s, t);
    found := t < |line| && line[t] in toks;
  }

  // ---- commands ----

  function Files(rs: seq<Redir>): multiset<Range> {
    if rs == [] then multiset{} else Files(rs[..|rs| - 1]) + multiset{rs[|rs| - 1].file}
  }

  /** redircmd around redircmd: the first redirection is the innermost. */
  function Wrap(cmd: Cmd, rs: seq<Redir>): Cmd {
    if rs == [] then cmd else Redirect(Wrap(cmd, rs[..|rs| - 1]), rs[|rs| - 1])
  }

  /** The words a command refers to: arguments and file names. */
  function Words(cmd: Cmd): multiset<Range> {
    match cmd
    case Exec(args) => multiset(args)
    case Redirect(c, r) => Words(c) + multiset{r.file}
    case Pipe(l, r) => Words(l) + Words(r)
    case List(l, r) => Words(l) + Words(r)
    case Back(c) => Words(c)
  }

  lemma {:induction false} WrapWords(cmd: Cmd, rs: seq<Redir>)
    ensures Words(Wrap(cmd, rs)) == Words(cmd) + Files(rs)
  {
    if rs != [] {
      WrapWords(cmd, rs[..|rs| - 1]);
    }
  }

  lemma {:induction false} FilesJoin(a: seq<Redir>, b: seq<Redir>)
    ensures Files(a + b) == Files(a) + Files(b)
    decreases |b|
  {
    if b == [] {
      assert a + b == a;
    } else {
      assert (a + b)[..|a + b| - 1] == a + b[..|b| - 1];
      FilesJoin(a, b[..|b| - 1]);
    }
  }

  // ---- the grammar: which tokens a command stands for ----

  predicate IsRedir(tok: Token) {
    tok.kind in "<>+"
  }

  function RangeOf(tok: Token): Range {
    (tok.q, tok.e)
  }

  /** '<' reads file 0, '>' and '>>' write file 1. */
  function RedirFor(sym: Token, file: Token): Redir {
    if sym.kind == '<' then Redir(RangeOf(file), ReadOnly, 0) else Redir(RangeOf(file), WriteCreate, 1)
  }

  /** Arguments and redirections in any order; every redirection symbol has a file of its own after it. */
  predicate SimpleOf(ts: seq<Token>, args: seq<Range>, rs: seq<Redir>)
    decreases |ts|
  {
    if ts == [] then args == [] && rs == []
    else if ts[0].kind == 'a' then args != [] && args[0] == RangeOf(ts[0]) && SimpleOf(ts[1..], args[1..], rs)
    else
      && IsRedir(ts[0]) && |ts| > 1 && ts[1].kind == 'a'
      && rs != [] && rs[0] == RedirFor(ts[0], ts[1]) && SimpleOf(ts[2..], args, rs[1..])
  }

  /** A simple command: nine arguments at most, and the redirections around it. */
  ghost predicate ExecOk(ts: seq<Token>, cmd: Cmd) {
    exists args, rs :: SimpleOf(ts, args, rs) && |args| <= 9 && cmd == Wrap(Exec(args), rs)
  }

  /** A block: '(', a line up to ')' at k, and redirections. */
  ghost predicate BlockOf(ts: seq<Token>, cmd: Cmd, k: nat, inner: Cmd, rs: seq<Redir>)
    decreases |ts|, 0
  {
    && 0 < k < |ts| && ts[0].kind == '(' && ts[k].kind == ')' && LineOk(ts[1..k], inner)
    && SimpleOf(ts[k + 1..], [], rs) && cmd == Wrap(inner, rs)
  }

  ghost predicate UnitOk(ts: seq<Token>, cmd: Cmd)
    decreases |ts|, 1
  {
    ExecOk(ts, cmd) || exists k: nat, inner: Cmd, rs: seq<Redir> :: BlockOf(ts, cmd, k, inner, rs)
  }

  ghost predicate PipeOf(ts: seq<Token>, cmd: Cmd, k: nat)
    decreases |ts|, 2
  {
    k < |ts| && ts[k].kind == '|' && cmd.Pipe? && UnitOk(ts[..k], cmd.left) && PipeOk(ts[k + 1..], cmd.right)
  }

  ghost predicate PipeOk(ts: seq<Token>, cmd: Cmd)
    decreases |ts|, 3
  {
    UnitOk(ts, cmd) || exists k: nat :: PipeOf(ts, cmd, k)
  }

  ghost predicate BackOk(ts: seq<Token>, cmd: Cmd)
    decreases |ts|, 4
  {
    || PipeOk(ts, cmd)
    || (ts != [] && ts[|ts| - 1].kind == '&' && cmd.Back? && BackOk(ts[..|ts| - 1], cmd.cmd))
  }

  ghost predicate ListOf(ts: seq<Token>, cmd: Cmd, k: nat)
    decreases |ts|, 5
  {
    k < |ts| && ts[k].kind == ';' && cmd.List? && BackOk(ts[..k], cmd.left) && LineOk(ts[k + 1..], cmd.right)
  }

  ghost predicate LineOk(ts: seq<Token>, cmd: Cmd)
    decreases |ts|, 6
  {
    BackOk(ts, cmd) || exists k: nat :: ListOf(ts, cmd, k)
  }

  // ---- the parser over tokens ----

  /** A command and the tokens after it, or a panic. */
  datatype Outcome = Done(cmd: Cmd, rest: seq<Token>) | Stuck

  datatype RedirOutcome = Redirs(rs: seq<Redir>, rest: seq<Token>) | NoFile

  predicate StartsWith(ts: seq<Token>, kinds: string) {
    ts != [] && ts[0].kind in kinds
  }

  function TakeRedirs(ts: seq<Token>, rs: seq<Redir>): (o: RedirOutcome)
    ensures o.Redirs? ==> |o.rest| <= |ts| && !StartsWith(o.rest, "<>+")
    decreases |ts|
  {
    if !StartsWith(ts, "<>+") then Redirs(rs, ts)
    else if |ts| == 1 || ts[1].kind != 'a' then NoFile
    else TakeRedirs(ts[2..], rs + [RedirFor(ts[0], ts[1])])
  }

  /** Nothing, or a token that ends a simple command. */
  predicate Ends(ts: seq<Token>) {
    ts == [] || ts[0].kind in "|)&;"
  }

  function TakeArgs(ts: seq<Token>, args: seq<Range>, rs: seq<Redir>): (o: Outcome)
    ensures o.Done? ==> |o.rest| <= |ts|
    decreases |ts|
  {
    match TakeRedirs(ts, rs)
    case NoFile => Stuck
    case Redirs(rs1, ts1) =>
      if Ends(ts1) then Done(Wrap(Exec(args), rs1), ts1)
      else if ts1[0].kind != 'a' || |args| + 1 >= MAXARGS then Stuck
      else TakeArgs(ts1[1..], args + [RangeOf(ts1[0])], rs1)
  }

  lemma AfterRedirs(ts: seq<Token>, args: seq<Range>, rs: seq<Redir>)
    requires TakeRedirs(ts, rs).Redirs?
    ensures TakeArgs(ts, args, rs) == TakeArgs(TakeRedirs(ts, rs).rest, args, TakeRedirs(ts, rs).rs)
  {
  }

  lemma AfterArg(ts: seq<Token>, args: seq<Range>, rs: seq<Redir>)
    requires StartsWith(ts, "a")
    ensures TakeArgs(ts, args, rs) ==
            if |args| + 1 >= MAXARGS then Stuck else TakeArgs(ts[1..], args + [RangeOf(ts[0])], rs)
  {
  }

  function TakeExec(ts: seq<Token>): (o: Outcome)
    ensures o.Done? ==> |o.rest| <= |ts|
    decreases |ts|, 1
  {
    if StartsWith(ts, "(") then TakeBlock(ts) else TakeArgs(ts, [], [])
  }

  function TakeBlock(ts: seq<Token>): (o: Outcome)
    requires StartsWith(ts, "(")
    ensures o.Done? ==> |o.rest| <= |ts|
    decreases |ts|, 0
  {
    match TakeLine(ts[1..])
    case Stuck => Stuck
    case Done(inner, ts1) =>
      if !StartsWith(ts1, ")") then Stuck
      else
        match TakeRedirs(ts1[1..], [])
        case NoFile => Stuck
        case Redirs(rs, ts2) => Done(Wrap(inner, rs), ts2)
  }

  function TakePipe(ts: seq<Token>): (o: Outcome)
    ensures o.Done? ==> |o.rest| <= |ts|
    decreases |ts|, 2
  {
    match TakeExec(ts)
    case Stuck => Stuck
    case Done(left, ts1) =>
      if !StartsWith(ts1, "|") then Done(left, ts1)
      else
        match TakePipe(ts1[1..])
        case Stuck => Stuck
        case Done(right, ts2) => Done(Pipe(left, right), ts2)
  }

  function TakeBacks(cmd: Cmd, ts: seq<Token>): (o: Outcome)
    ensures o.Done? && |o.rest| <= |ts| && !StartsWith(o.rest, "&")
    decreases |ts|
  {
    if StartsWith(ts, "&") then TakeBacks(Back(cmd), ts[1..]) else Done(cmd, ts)
  }

  function TakeLine(ts: seq<Token>): (o: Outcome)
    ensures o.Done? ==> |o.rest| <= |ts|
    decreases |ts|, 3
  {
    match TakePipe(ts)
    case Stuck => Stuck
    case Done(first, ts1) =>
      var left := TakeBacks(first, ts1);
      if !StartsWith(left.rest, ";") then left
      else
        match TakeLine(left.rest[1..])
        case Stuck => Stuck
        case Done(right, ts2) => Done(List(left.cmd, right), ts2)
  }

  function ParseTokens(ts: seq<Token>): Result {
    match TakeLine(ts)
    case Stuck => Panic
    case Done(cmd, rest) => if rest == [] then Parsed(cmd) else Panic
  }

  // ---- what the parser accepts is derived ----

  lemma {:induction false} SimpleJoin(a: seq<Token>, args: seq<Range>, qs: seq<Redir>,
                                      b: seq<Token>, more: seq<Range>, rs: seq<Redir>)
    requires SimpleOf(a, args, qs) && SimpleOf(b, more, rs)
    ensures SimpleOf(a + b, args + more, qs + rs)
    decreases |a|
  {
    if a == [] {
      assert a + b == b && args + more == more && qs + rs == rs;
    } else if a[0].kind == 'a' {
      SimpleJoin(a[1..], args[1..], qs, b, more, rs);
      assert (a + b)[1..] == a[1..] + b && (args + more)[1..] == args[1..] + more;
    } else {
      SimpleJoin(a[2..], args, qs[1..], b, more, rs);
      assert (a + b)[2..] == a[2..] + b && (qs + rs)[1..] == qs[1..] + rs;
    }
  }

  lemma {:induction false} RedirsSound(ts: seq<Token>, rs: seq<Redir>) returns (us: seq<Token>, qs: seq<Redir>)
    requires TakeRedirs(ts, rs).Redirs?
    ensures ts == us + TakeRedirs(ts, rs).rest && TakeRedirs(ts, rs).rs == rs + qs && SimpleOf(us, [], qs)
    decreases |ts|
  {
    if !StartsWith(ts, "<>+") {
      us, qs := [], [];
      assert [] + ts == ts && rs + [] == rs;
    } else {
      var r := RedirFor(ts[0], ts[1]);
      us, qs := RedirsSound(ts[2..], rs + [r]);
      RedirMore(ts[0], ts[1], us, qs);
      TwoMore(ts, us, TakeRedirs(ts, rs).rest);
      assert rs + [r] + qs == rs + ([r] + qs);
      us, qs := [ts[0], ts[1]] + us, [r] + qs;
    }
  }

  lemma RedirMore(sym: Token, file: Token, us: seq<Token>, qs: seq<Redir>)
    requires IsRedir(sym) && file.kind == 'a' && SimpleOf(us, [], qs)
    ensures SimpleOf([sym, file] + us, [], [RedirFor(sym, file)] + qs)
  {
    assert ([sym, file] + us)[2..] == us && ([RedirFor(sym, file)] + qs)[1..] == qs;
  }

  lemma TwoMore(ts: seq<Token>, us: seq<Token>, rest: seq<Token>)
    requires |ts| > 1 && ts[2..] == us + rest
    ensures ts == [ts[0], ts[1]] + us + rest
  {
    assert ts == [ts[0], ts[1]] + ts[2..];
  }

  /** Redirections, a word, and another simple command. */
  lemma SimpleMore(us: seq<Token>, qs: seq<Redir>, w: Token, vs: seq<Token>, more: seq<Range>, rs: seq<Redir>)
    requires SimpleOf(us, [], qs) && w.kind == 'a' && SimpleOf(vs, more, rs)
    ensures SimpleOf(us + ([w] + vs), [RangeOf(w)] + more, qs + rs)
  {
    assert ([w] + vs)[1..] == vs && ([RangeOf(w)] + more)[1..] == more;
    SimpleJoin(us, [], qs, [w] + vs, [RangeOf(w)] + more, rs);
    assert [] + ([RangeOf(w)] + more) == [RangeOf(w)] + more;
  }

  lemma {:induction false} ArgsSound(ts: seq<Token>, args: seq<Range>, rs: seq<Redir>)
    returns (us: seq<Token>, more: seq<Range>, qs: seq<Redir>)
    requires |args| < MAXARGS && TakeArgs(ts, args, rs).Done?
    ensures ts == us + TakeArgs(ts, args, rs).rest && SimpleOf(us, more, qs)
    ensures |args + more| < MAXARGS && TakeArgs(ts, args, rs).cmd == Wrap(Exec(args + more), rs + qs)
    decreases |ts|
  {
    us, qs := RedirsSound(ts, rs);
    more := [];
    var ts1 := TakeRedirs(ts, rs).rest;
    if Ends(ts1) {
      assert args + more == args;
    } else {
      var w := ts1[0];
      var vs, more2, qs2 := ArgsSound(ts1[1..], args + [RangeOf(w)], rs + qs);
      SimpleMore(us, qs, w, vs, more2, qs2);
      Regroup(us, w, ts1, vs, TakeArgs(ts, args, rs).rest);
      assert args + [RangeOf(w)] + more2 == args + ([RangeOf(w)] + more2) && rs + qs + qs2 == rs + (qs + qs2);
      us, more, qs := us + ([w] + vs), [RangeOf(w)] + more2, qs + qs2;
    }
  }

  lemma Regroup(us: seq<Token>, w: Token, ts1: seq<Token>, vs: seq<Token>, rest: seq<Token>)
    requires ts1 != [] && ts1[0] == w && ts1[1..] == vs + rest
    ensures us + ts1 == us + ([w] + vs) + rest
  {
    assert ts1 == [w] + (vs + rest);
  }

  lemma {:induction false} ExecSound(ts: seq<Token>) returns (us: seq<Token>)
    requires TakeExec(ts).Done?
    ensures ts == us + TakeExec(ts).rest && UnitOk(us, TakeExec(ts).cmd)
    decreases |ts|, 1
  {
    if StartsWith(ts, "(") {
      us := BlockSound(ts);
    } else {
      var more, qs;
      us, more, qs := ArgsSound(ts, [], []);
      assert [] + more == more && [] + qs == qs;
      assert ExecOk(us, TakeExec(ts).cmd);
    }
  }

  lemma {:induction false} BlockSound(ts: seq<Token>) returns (us: seq<Token>)
    requires StartsWith(ts, "(") && TakeBlock(ts).Done?
    ensures ts == us + TakeBlock(ts).rest && UnitOk(us, TakeBlock(ts).cmd)
    decreases |ts|, 0
  {
    var vs := LineSound(ts[1..]);
    us := CloseSound(ts, vs, TakeLine(ts[1..]).cmd, TakeLine(ts[1..]).rest);
  }

  /** The end of a block whose inner line is `vs`. */
  lemma CloseSound(ts: seq<Token>, vs: seq<Token>, inner: Cmd, ts1: seq<Token>) returns (us: seq<Token>)
    requires StartsWith(ts, "(") && ts[1..] == vs + ts1 && LineOk(vs, inner) && StartsWith(ts1, ")")
    requires TakeRedirs(ts1[1..], []).Redirs?
    ensures ts == us + TakeRedirs(ts1[1..], []).rest && UnitOk(us, Wrap(inner, TakeRedirs(ts1[1..], []).rs))
  {
    var ws, rs := RedirsSound(ts1[1..], []);
    assert [] + rs == rs;
    Bracketed(ts[0], vs, inner, ts1[0], ws, rs);
    us := [ts[0]] + vs + [ts1[0]] + ws;
    Enclosed(ts, vs, ts1, ws, TakeRedirs(ts1[1..], []).rest);
  }

  lemma Enclosed(ts: seq<Token>, vs: seq<Token>, ts1: seq<Token>, ws: seq<Token>, rest: seq<Token>)
    requires ts != [] && ts1 != [] && ts[1..] == vs + ts1 && ts1[1..] == ws + rest
    ensures ts == [ts[0]] + vs + [ts1[0]] + ws + rest
  {
    assert ts == [ts[0]] + ts[1..] && ts1 == [ts1[0]] + ts1[1..];
  }

  lemma Bracketed(open: Token, vs: seq<Token>, inner: Cmd, close: Token, ws: seq<Token>, rs: seq<Redir>)
    requires open.kind == '(' && LineOk(vs, inner) && close.kind == ')' && SimpleOf(ws, [], rs)
    ensures UnitOk([open] + vs + [close] + ws, Wrap(inner, rs))
  {
    var us, k := [open] + vs + [close] + ws, |vs| + 1;
    assert us[1..k] == vs && us[k + 1..] == ws;
    assert BlockOf(us, Wrap(inner, rs), k, inner, rs);
  }

  lemma {:induction false} PipeSound(ts: seq<Token>) returns (us: seq<Token>)
    requires TakePipe(ts).Done?
    ensures ts == us + TakePipe(ts).rest && PipeOk(us, TakePipe(ts).cmd)
    decreases |ts|, 2
  {
    us := ExecSound(ts);
    var ts1 := TakeExec(ts).rest;
    if StartsWith(ts1, "|") {
      var vs := PipeSound(ts1[1..]);
      var all := us + ([ts1[0]] + vs);
      assert all[..|us|] == us && all[|us| + 1..] == vs;
      assert PipeOf(all, TakePipe(ts).cmd, |us|);
      Regroup(us, ts1[0], ts1, vs, TakePipe(ts).rest);
      us := all;
    }
  }

  lemma {:induction false} BacksSound(us: seq<Token>, cmd: Cmd, ts: seq<Token>) returns (vs: seq<Token>)
    requires BackOk(us, cmd)
    ensures ts == vs + TakeBacks(cmd, ts).rest && BackOk(us + vs, TakeBacks(cmd, ts).cmd)
    decreases |ts|
  {
    if StartsWith(ts, "&") {
      var longer := us + [ts[0]];
      assert longer[..|longer| - 1] == us && BackOk(longer, Back(cmd));
      vs := BacksSound(longer, Back(cmd), ts[1..]);
      assert longer + vs == us + ([ts[0]] + vs) && ts == [ts[0]] + ts[1..];
      vs := [ts[0]] + vs;
    } else {
      vs := [];
      assert us + vs == us && vs + ts == ts;
    }
  }

  lemma {:induction false} BackSound(ts: seq<Token>, first: Cmd, ts1: seq<Token>) returns (us: seq<Token>)
    requires TakePipe(ts) == Done(first, ts1)
    ensures ts == us + TakeBacks(first, ts1).rest && BackOk(us, TakeBacks(first, ts1).cmd)
    decreases |ts|, 3
  {
    var vs := PipeSound(ts);
    var ws := BacksSound(vs, first, ts1);
    Assoc(vs, ws, TakeBacks(first, ts1).rest);
    us := vs + ws;
  }

  lemma Assoc(a: seq<Token>, b: seq<Token>, c: seq<Token>)
    ensures a + (b + c) == a + b + c
  {
  }

  lemma {:induction false} LineSound(ts: seq<Token>) returns (us: seq<Token>)
    requires TakeLine(ts).Done?
    ensures ts == us + TakeLine(ts).rest && LineOk(us, TakeLine(ts).cmd)
    decreases |ts|, 4
  {
    us := BackSound(ts, TakePipe(ts).cmd, TakePipe(ts).rest);
    var ts1 := TakeBacks(TakePipe(ts).cmd, TakePipe(ts).rest).rest;
    if StartsWith(ts1, ";") {
      var vs := LineSound(ts1[1..]);
      var all := us + ([ts1[0]] + vs);
      assert all[..|us|] == us && all[|us| + 1..] == vs;
      assert ListOf(all, TakeLine(ts).cmd, |us|);
      Regroup(us, ts1[0], ts1, vs, TakeLine(ts).rest);
      us := all;
    }
  }

  // ---- what is derived the parser accepts ----

  lemma {:induction false} RedirsAll(us: seq<Token>, qs: seq<Redir>, vs: seq<Token>, rs: seq<Redir>)
    requires SimpleOf(us, [], qs) && !StartsWith(vs, "<>+")
    ensures TakeRedirs(us + vs, rs) == Redirs(rs + qs, vs)
    decreases |us|
  {
    if us == [] {
      assert us + vs == vs && rs + qs == rs;
    } else {
      var r := RedirFor(us[0], us[1]);
      assert (us + vs)[2..] == us[2..] + vs && rs + [r] + qs[1..] == rs + qs;
      RedirsAll(us[2..], qs[1..], vs, rs + [r]);
    }
  }

  lemma {:induction false} ArgsAll(us: seq<Token>, more: seq<Range>, qs: seq<Redir>, vs: seq<Token>,
                                   args: seq<Range>, rs: seq<Redir>)
    requires SimpleOf(us, more, qs) && |args| + |more| < MAXARGS && Ends(vs)
    ensures TakeArgs(us + vs, args, rs) == Done(Wrap(Exec(args + more), rs + qs), vs)
    decreases |us|
  {
    if us == [] {
      assert us + vs == vs && args + more == args && rs + qs == rs;
    } else if us[0].kind == 'a' {
      var w := RangeOf(us[0]);
      assert (us + vs)[1..] == us[1..] + vs && args + [w] + more[1..] == args + more;
      ArgsAll(us[1..], more[1..], qs, vs, args + [w], rs);
    } else {
      var r := RedirFor(us[0], us[1]);
      assert (us + vs)[2..] == us[2..] + vs && rs + [r] + qs[1..] == rs + qs;
      ArgsAll(us[2..], more, qs[1..], vs, args, rs + [r]);
    }
  }

  lemma {:induction false} UnitAll(us: seq<Token>, cmd: Cmd, vs: seq<Token>)
    requires UnitOk(us, cmd) && Ends(vs)
    ensures TakeExec(us + vs) == Done(cmd, vs)
    decreases |us|, 1
  {
    if ExecOk(us, cmd) {
      var args, rs :| SimpleOf(us, args, rs) && |args| < MAXARGS && cmd == Wrap(Exec(args), rs);
      ArgsAll(us, args, rs, vs, [], []);
      assert [] + args == args && [] + rs == rs;
    } else {
      var k: nat, inner: Cmd, rs: seq<Redir> :| BlockOf(us, cmd, k, inner, rs);
      BlockAll(us, cmd, vs, k, inner, rs);
    }
  }

  lemma {:induction false} BlockAll(us: seq<Token>, cmd: Cmd, vs: seq<Token>, k: nat, inner: Cmd, rs: seq<Redir>)
    requires BlockOf(us, cmd, k, inner, rs) && Ends(vs)
    ensures TakeExec(us + vs) == Done(cmd, vs)
    decreases |us|, 0
  {
    CutAt(us, k, vs);
    LineAll(us[1..k], inner, us[k..] + vs);
    RedirsAll(us[k + 1..], rs, vs, []);
    assert [] + rs == rs;
    WholeBlock(us + vs, inner, us[k..] + vs, rs, vs);
  }

  lemma CutAt(us: seq<Token>, k: nat, vs: seq<Token>)
    requires k < |us|
    ensures us + vs == us[..k] + (us[k..] + vs) && (us[k..] + vs)[0] == us[k]
    ensures (us[k..] + vs)[1..] == us[k + 1..] + vs
    ensures k > 0 ==> (us + vs)[0] == us[0] && (us + vs)[1..] == us[1..k] + (us[k..] + vs)
  {
  }

  lemma WholeBlock(ts: seq<Token>, inner: Cmd, ts1: seq<Token>, rs: seq<Redir>, rest: seq<Token>)
    requires StartsWith(ts, "(") && TakeLine(ts[1..]) == Done(inner, ts1) && StartsWith(ts1, ")")
    requires TakeRedirs(ts1[1..], []) == Redirs(rs, rest)
    ensures TakeExec(ts) == Done(Wrap(inner, rs), rest)
  {
  }

  lemma {:induction false} PipeAll(us: seq<Token>, cmd: Cmd, vs: seq<Token>)
    requires PipeOk(us, cmd) && Ends(vs) && !StartsWith(vs, "|")
    ensures TakePipe(us + vs) == Done(cmd, vs)
    decreases |us|, 2
  {
    if UnitOk(us, cmd) {
      UnitAll(us, cmd, vs);
    } else {
      var k: nat :| PipeOf(us, cmd, k);
      CutAt(us, k, vs);
      UnitAll(us[..k], cmd.left, us[k..] + vs);
      PipeAll(us[k + 1..], cmd.right, vs);
    }
  }

  lemma {:induction false} BackAll(us: seq<Token>, cmd: Cmd, vs: seq<Token>)
    requires BackOk(us, cmd) && Ends(vs) && !StartsWith(vs, "|")
    ensures TakePipe(us + vs).Done?
    ensures TakeBacks(TakePipe(us + vs).cmd, TakePipe(us + vs).rest) == TakeBacks(cmd, vs)
    decreases |us|, 3
  {
    if PipeOk(us, cmd) {
      PipeAll(us, cmd, vs);
    } else {
      var n := |us| - 1;
      var rest := [us[n]] + vs;
      assert us + vs == us[..n] + rest && rest[1..] == vs;
      BackAll(us[..n], cmd.cmd, rest);
    }
  }

  lemma {:induction false} LineAll(us: seq<Token>, cmd: Cmd, vs: seq<Token>)
    requires LineOk(us, cmd) && (vs == [] || StartsWith(vs, ")"))
    ensures TakeLine(us + vs) == Done(cmd, vs)
    decreases |us|, 4
  {
    if BackOk(us, cmd) {
      BackAll(us, cmd, vs);
    } else {
      var k: nat :| ListOf(us, cmd, k);
      CutAt(us, k, vs);
      BackAll(us[..k], cmd.left, us[k..] + vs);
      LineAll(us[k + 1..], cmd.right, vs);
    }
  }

  /** The parser accepts exactly what the grammar derives, and so the grammar derives at most one command. */
  lemma ParseExact(ts: seq<Token>, cmd: Cmd)
    ensures ParseTokens(ts) == Parsed(cmd) <==> LineOk(ts, cmd)
  {
    if ParseTokens(ts) == Parsed(cmd) {
      var us := LineSound(ts);
      assert us + [] == us;
    }
    if LineOk(ts, cmd) {
      LineAll(ts, cmd, []);
      assert ts + [] == ts;
    }
  }

  // ---- the parser over text ----

  /** What a parsing method returns at text position t is the outcome over tokens. */
  ghost predicate Agrees(line: string, o: Outcome, r: Result, s: nat, t: nat) {
    match o
    case Stuck => r == Panic
    case Done(cmd, rest) => r == Parsed(cmd) && s <= t && Boundary(line, t) && Tokens(line, t) == rest
  }

  /** One round of parseredirs' loop, at a '<' or a '>'. */
  method ParseRedir(line: string, s: nat, before: seq<Redir>) returns (ok: bool, rs: seq<Redir>, t: nat)
    requires NUL !in line && Boundary(line, s) && StartsWith(Tokens(line, s), "<>+")
    ensures ok <==> |Tokens(line, s)| > 1 && Tokens(line, s)[1].kind == 'a'
    ensures ok ==> s < t && Boundary(line, t) && Tokens(line, t) == Tokens(line, s)[2..]
    ensures ok ==> rs == before + [RedirFor(Tokens(line, s)[0], Tokens(line, s)[1])]
  {
    rs := before;
    var tok, _, _, t1 := GetToken(line, s);
    var tok2, q, eq, t2 := GetToken(line, t1);
    t := t2;
    if tok2 != 'a' {
      return false, rs, t;
    }
    rs := rs + [if tok == '<' then Redir((q, eq), ReadOnly, 0) else Redir((q, eq), WriteCreate, 1)];
    ok := true;
  }

  /** parseredirs, in the middle of a simple command or after a block. */
  method ParseRedirs(line: string, s: nat, before: seq<Redir>) returns (ok: bool, rs: seq<Redir>, t: nat)
    requires NUL !in line && Boundary(line, s)
    ensures s <= t && Boundary(line, t)
    ensures match TakeRedirs(Tokens(line, s), before)
            case NoFile => !ok
            case Redirs(all, rest) => ok && rs == all && Tokens(line, t) == rest
  {
    ok, rs := true, before;
    var more;
    more, t := Peek(line, s, "<>");
    while more
      invariant s <= t && Boundary(line, t) && TakeRedirs(Tokens(line, t), rs) == TakeRedirs(Tokens(line, s), before)
      invariant ok && (more <==> StartsWith(Tokens(line, t), "<>+"))
      decreases |line| - t, more
    {
      var t1;
      ok, rs, t1 := ParseRedir(line, t, rs);
      if !ok {
        return;
      }
      more, t := Peek(line, t1, "<>");
    }
  }

  /** parseexec for anything but a block: the code fills the argv of an execcmd that is already inside the
      redirections read so far, which the model puts together at the end. */
  method ParseSimple(line: string, s: nat) returns (r: Result, t: nat)
    requires NUL !in line && Boundary(line, s)
    ensures Agrees(line, TakeArgs(Tokens(line, s), [], []), r, s, t)
  {
    var args: seq<Range> := [];
    var ok, rs, stop;
    ok, rs, t := ParseRedirs(line, s, []);
    if !ok {
      return Panic, t;
    }
    AfterRedirs(Tokens(line, s), [], []);
    stop, t := Peek(line, t, "|)&;");
    while !stop
      invariant s <= t && Boundary(line, t) && !StartsWith(Tokens(line, t), "<>+")
      invariant TakeArgs(Tokens(line, s), [], []) == TakeArgs(Tokens(line, t), args, rs)
      invariant stop <==> StartsWith(Tokens(line, t), "|)&;")
      decreases |line| - t, !stop
    {
      var tok, q, eq, t1 := GetToken(line, t);
      if tok == NUL {
        break;
      }
      if tok != 'a' {
        return Panic, t1;
      }
      AfterArg(Tokens(line, t), args, rs);
      assert Tokens(line, t)[1..] == Tokens(line, t1);
      args := args + [(q, eq)];
      if |args| >= MAXARGS {
        return Panic, t1;
      }
      ghost var was := rs;
      ok, rs, t := ParseRedirs(line, t1, rs);
      if !ok {
        return Panic, t;
      }
      AfterRedirs(Tokens(line, t1), args, was);
      stop, t := Peek(line, t, "|)&;");
    }
    r := Parsed(Wrap(Exec(args), rs));
  }

  /** parseexec */
  method ParseExec(line: string, s: nat) returns (r: Result, t: nat)
    requires NUL !in line && Boundary(line, s)
    ensures Agrees(line, TakeExec(Tokens(line, s)), r, s, t)
    decreases |line| - s, 1
  {
    var block, at := Peek(line, s, "(");
    if block {
      r, t := ParseBlock(line, at);
    } else {
      r, t := ParseSimple(line, at);
    }
  }

  /** parseblock at a '(' */
  method ParseBlock(line: string, s: nat) returns (r: Result, t: nat)
    requires NUL !in line && Boundary(line, s) && StartsWith(Tokens(line, s), "(")
    ensures Agrees(line, TakeBlock(Tokens(line, s)), r, s, t)
    decreases |line| - s, 0
  {
    var _, _, _, a := GetToken(line, s);
    assert Tokens(line, s)[1..] == Tokens(line, a);
    r, t := ParseLine(line, a);
    if r.Panic? {
      return;
    }
    var closed, b := Peek(line, t, ")");
    if !closed {
      return Panic, b;
    }
    var _, _, _, c := GetToken(line, b);
    assert Tokens(line, b)[1..] == Tokens(line, c);
    var ok, rs;
    ok, rs, t := ParseRedirs(line, c, []);
    if !ok {
      return Panic, t;
    }
    r := Parsed(Wrap(r.cmd, rs));
  }

  /** parsepipe */
  method ParsePipe(line: string, s: nat) returns (r: Result, t: nat)
    requires NUL !in line && Boundary(line, s)
    ensures Agrees(line, TakePipe(Tokens(line, s)), r, s, t)
    decreases |line| - s, 2
  {
    r, t := ParseExec(line, s);
    if r.Panic? {
      return;
    }
    var more, a := Peek(line, t, "|");
    if more {
      var left := r.cmd;
      var _, _, _, b := GetToken(line, a);
      assert Tokens(line, a)[1..] == Tokens(line, b);
      r, t := ParsePipe(line, b);
      if r.Parsed? {
        r := Parsed(Pipe(left, r.cmd));
      }
    }
  }

  /** parseline */
  method ParseLine(line: string, s: nat) returns (r: Result, t: nat)
    requires NUL !in line && Boundary(line, s)
    ensures Agrees(line, TakeLine(Tokens(line, s)), r, s, t)
    decreases |line| - s, 3
  {
    r, t := ParsePipe(line, s);
    if r.Panic? {
      return;
    }
    ghost var first, ts := r.cmd, Tokens(line, t);
    var back, list;
    back, t := Peek(line, t, "&");
    while back
      invariant s <= t && Boundary(line, t) && r.Parsed?
      invariant TakeBacks(r.cmd, Tokens(line, t)) == TakeBacks(first, ts)
      invariant back <==> StartsWith(Tokens(line, t), "&")
      decreases |line| - t, back
    {
      var _, _, _, b := GetToken(line, t);
      assert Tokens(line, t)[1..] == Tokens(line, b);
      r := Parsed(Back(r.cmd));
      back, t := Peek(line, b, "&");
    }
    list, t := Peek(line, t, ";");
    if list {
      var left := r.cmd;
      var _, _, _, b := GetToken(line, t);
      assert Tokens(line, t)[1..] == Tokens(line, b);
      r, t := ParseLine(line, b);
      if r.Parsed? {
        r := Parsed(List(left, r.cmd));
      }
    }
  }

  /** parsecmd, up to the point where the line is changed: it yields a command exactly if the line's tokens are
      derived from that command, and panics if they are derived from none. */
  method ParseText(line: string) returns (r: Result)
    requires NUL !in line
    ensures forall cmd :: r == Parsed(cmd) <==> LineOk(Tokens(line, 0), cmd)
  {
    var t;
    r, t := ParseLine(line, 0);
    if r.Parsed? {
      var _, end := Peek(line, t, "");
      if end != |line| {
        r := Panic;
      }
    }
    forall cmd ensures r == Parsed(cmd) <==> LineOk(Tokens(line, 0), cmd) {
      ParseExact(Tokens(line, 0), cmd);
    }
  }

  // ---- no word is lost and none is made up ----

  function WordsOf(ts: seq<Token>): multiset<Range> {
    if ts == [] then multiset{} else WordOf(ts[0]) + WordsOf(ts[1..])
  }

  function WordOf(tok: Token): multiset<Range> {
    if tok.kind == 'a' then multiset{RangeOf(tok)} else multiset{}
  }

  lemma {:induction false} WordsJoin(a: seq<Token>, b: seq<Token>)
    ensures WordsOf(a + b) == WordsOf(a) + WordsOf(b)
    decreases |a|
  {
    if a == [] {
      assert a + b == b;
    } else {
      assert (a + b)[1..] == a[1..] + b;
      WordsJoin(a[1..], b);
    }
  }

  /** A token that is no word between two others. */
  lemma WordsAround(ts: seq<Token>, k: nat)
    requires k < |ts| && ts[k].kind != 'a'
    ensures WordsOf(ts) == WordsOf(ts[..k]) + WordsOf(ts[k + 1..])
  {
    assert ts == ts[..k] + ts[k..] && ts[k..][1..] == ts[k + 1..];
    WordsJoin(ts[..k], ts[k..]);
  }

  lemma {:induction false} SimpleWords(ts: seq<Token>, args: seq<Range>, rs: seq<Redir>)
    requires SimpleOf(ts, args, rs)
    ensures WordsOf(ts) == multiset(args) + Files(rs)
    decreases |ts|
  {
    if ts == [] {
      assert multiset(args) + Files(rs) == multiset{};
    } else if ts[0].kind == 'a' {
      SimpleWords(ts[1..], args[1..], rs);
      FirstArg(args, Files(rs));
    } else {
      SimpleWords(ts[2..], args, rs[1..]);
      FileWords(ts, args, rs);
    }
  }

  lemma {:induction false} FileWords(ts: seq<Token>, args: seq<Range>, rs: seq<Redir>)
    requires |ts| > 1 && ts[0].kind != 'a' && ts[1].kind == 'a' && rs != [] && rs[0].file == RangeOf(ts[1])
    requires WordsOf(ts[2..]) == multiset(args) + Files(rs[1..])
    ensures WordsOf(ts) == multiset(args) + Files(rs)
  {
    FirstFile(rs);
    assert ts[1..][1..] == ts[2..];
    assert WordsOf(ts[1..]) == multiset{rs[0].file} + WordsOf(ts[2..]);
  }

  lemma FirstArg(args: seq<Range>, files: multiset<Range>)
    requires args != []
    ensures multiset(args) + files == multiset{args[0]} + (multiset(args[1..]) + files)
  {
    assert args == [args[0]] + args[1..];
  }

  lemma FirstFile(rs: seq<Redir>)
    requires rs != []
    ensures Files(rs) == multiset{rs[0].file} + Files(rs[1..])
  {
    assert rs == [rs[0]] + rs[1..];
    FilesJoin([rs[0]], rs[1..]);
    assert Files([rs[0]]) == multiset{rs[0].file};
  }

  lemma {:induction false} UnitWords(ts: seq<Token>, cmd: Cmd)
    requires UnitOk(ts, cmd)
    ensures Words(cmd) == WordsOf(ts)
    decreases |ts|, 1
  {
    if ExecOk(ts, cmd) {
      var args, rs :| SimpleOf(ts, args, rs) && |args| < MAXARGS && cmd == Wrap(Exec(args), rs);
      SimpleWords(ts, args, rs);
      WrapWords(Exec(args), rs);
    } else {
      var k: nat, inner: Cmd, rs: seq<Redir> :| BlockOf(ts, cmd, k, inner, rs);
      LineWords(ts[1..k], inner);
      SimpleWords(ts[k + 1..], [], rs);
      WrapWords(inner, rs);
      WordsAround(ts, k);
      WordsAround(ts[..k], 0);
      assert ts[..k][1..] == ts[1..k] && ts[..k][..0] == [];
    }
  }

  lemma {:induction false} PipeWords(ts: seq<Token>, cmd: Cmd)
    requires PipeOk(ts, cmd)
    ensures Words(cmd) == WordsOf(ts)
    decreases |ts|, 2
  {
    if UnitOk(ts, cmd) {
      UnitWords(ts, cmd);
    } else {
      var k: nat :| PipeOf(ts, cmd, k);
      UnitWords(ts[..k], cmd.left);
      PipeWords(ts[k + 1..], cmd.right);
      WordsAround(ts, k);
    }
  }

  lemma {:induction false} BackWords(ts: seq<Token>, cmd: Cmd)
    requires BackOk(ts, cmd)
    ensures Words(cmd) == WordsOf(ts)
    decreases |ts|, 3
  {
    if PipeOk(ts, cmd) {
      PipeWords(ts, cmd);
    } else {
      var n := |ts| - 1;
      BackWords(ts[..n], cmd.cmd);
      WordsAround(ts, n);
      assert ts[n + 1..] == [];
    }
  }

  /** A command refers to every word of its tokens, once each, and to nothing else. */
  lemma {:induction false} LineWords(ts: seq<Token>, cmd: Cmd)
    requires LineOk(ts, cmd)
    ensures Words(cmd) == WordsOf(ts)
    decreases |ts|, 4
  {
    if BackOk(ts, cmd) {
      BackWords(ts, cmd);
    } else {
      var k: nat :| ListOf(ts, cmd, k);
      BackWords(ts[..k], cmd.left);
      LineWords(ts[k + 1..], cmd.right);
      WordsAround(ts, k);
    }
  }

  // ---- redirections ----

  function Redirections(cmd: Cmd): set<Redir> {
    match cmd
    case Exec(_) => {}
    case Redirect(c, r) => Redirections(c) + {r}
    case Pipe(left, right) => Redirections(left) + Redirections(right)
    case List(left, right) => Redirections(left) + Redirections(right)
    case Back(c) => Redirections(c)
  }

  /** Token i is the symbol of the redirection and the next token its file: '<' opens it for reading as descriptor 0,
      '>' and '>>' create it for writing as descriptor 1. */
  predicate SymbolAt(ts: seq<Token>, i: nat, r: Redir) {
    && i + 1 < |ts| && ts[i + 1].kind == 'a' && r.file == (ts[i + 1].q, ts[i + 1].e)
    && (ts[i].kind == '<' || ts[i].kind == '>' || ts[i].kind == '+')
    && r.mode == (if ts[i].kind == '<' then ReadOnly else WriteCreate) && r.fd == if ts[i].kind == '<' then 0 else 1
  }

  ghost predicate HasSymbol(ts: seq<Token>, r: Redir) {
    exists i: nat :: SymbolAt(ts, i, r)
  }

  lemma SymbolWithin(ts: seq<Token>, lo: nat, hi: nat, r: Redir)
    requires lo <= hi <= |ts| && HasSymbol(ts[lo..hi], r)
    ensures HasSymbol(ts, r)
  {
    var i: nat :| SymbolAt(ts[lo..hi], i, r);
    assert SymbolAt(ts, lo + i, r);
  }

  ghost predicate AllWritten(ts: seq<Token>, rs: set<Redir>) {
    forall r :: r in rs ==> HasSymbol(ts, r)
  }

  lemma WrittenWithin(ts: seq<Token>, lo: nat, hi: nat, rs: set<Redir>)
    requires lo <= hi <= |ts| && AllWritten(ts[lo..hi], rs)
    ensures AllWritten(ts, rs)
  {
    forall r | r in rs ensures HasSymbol(ts, r) {
      SymbolWithin(ts, lo, hi, r);
    }
  }

  lemma {:induction false} SimpleRedirs(ts: seq<Token>, args: seq<Range>, rs: seq<Redir>)
    requires SimpleOf(ts, args, rs)
    ensures AllWritten(ts, set r | r in rs)
    decreases |ts|
  {
    if ts == [] {
    } else if ts[0].kind == 'a' {
      SimpleRedirs(ts[1..], args[1..], rs);
      assert ts[1..|ts|] == ts[1..];
      WrittenWithin(ts, 1, |ts|, set r | r in rs);
    } else {
      SimpleRedirs(ts[2..], args, rs[1..]);
      assert ts[2..|ts|] == ts[2..];
      WrittenWithin(ts, 2, |ts|, set r | r in rs[1..]);
      assert SymbolAt(ts, 0, rs[0]);
      forall r | r in rs ensures HasSymbol(ts, r) {
        assert rs == [rs[0]] + rs[1..];
      }
    }
  }

  lemma {:induction false} WrapRedirs(cmd: Cmd, rs: seq<Redir>)
    ensures Redirections(Wrap(cmd, rs)) == Redirections(cmd) + set r | r in rs
    decreases |rs|
  {
    if rs != [] {
      WrapRedirs(cmd, rs[..|rs| - 1]);
      assert rs == rs[..|rs| - 1] + [rs[|rs| - 1]];
    }
  }

  lemma {:induction false} UnitRedirs(ts: seq<Token>, cmd: Cmd)
    requires UnitOk(ts, cmd)
    ensures AllWritten(ts, Redirections(cmd))
    decreases |ts|, 1
  {
    if ExecOk(ts, cmd) {
      var args, rs :| SimpleOf(ts, args, rs) && |args| < MAXARGS && cmd == Wrap(Exec(args), rs);
      SimpleRedirs(ts, args, rs);
      WrapRedirs(Exec(args), rs);
    } else {
      var k: nat, inner: Cmd, rs: seq<Redir> :| BlockOf(ts, cmd, k, inner, rs);
      LineRedirs(ts[1..k], inner);
      WrittenWithin(ts, 1, k, Redirections(inner));
      SimpleRedirs(ts[k + 1..], [], rs);
      assert ts[k + 1..|ts|] == ts[k + 1..];
      WrittenWithin(ts, k + 1, |ts|, set r | r in rs);
      WrapRedirs(inner, rs);
    }
  }

  lemma {:induction false} PipeRedirs(ts: seq<Token>, cmd: Cmd)
    requires PipeOk(ts, cmd)
    ensures AllWritten(ts, Redirections(cmd))
    decreases |ts|, 2
  {
    if UnitOk(ts, cmd) {
      UnitRedirs(ts, cmd);
    } else {
      var k: nat :| PipeOf(ts, cmd, k);
      UnitRedirs(ts[..k], cmd.left);
      PipeRedirs(ts[k + 1..], cmd.right);
      BothWritten(ts, k, Redirections(cmd.left), Redirections(cmd.right));
    }
  }

  lemma BothWritten(ts: seq<Token>, k: nat, left: set<Redir>, right: set<Redir>)
    requires k < |ts| && AllWritten(ts[..k], left) && AllWritten(ts[k + 1..], right)
    ensures AllWritten(ts, left + right)
  {
    assert ts[0..k] == ts[..k] && ts[k + 1..|ts|] == ts[k + 1..];
    WrittenWithin(ts, 0, k, left);
    WrittenWithin(ts, k + 1, |ts|, right);
  }

  lemma {:induction false} BackRedirs(ts: seq<Token>, cmd: Cmd)
    requires BackOk(ts, cmd)
    ensures AllWritten(ts, Redirections(cmd))
    decreases |ts|, 3
  {
    if PipeOk(ts, cmd) {
      PipeRedirs(ts, cmd);
    } else {
      var n := |ts| - 1;
      BackRedirs(ts[..n], cmd.cmd);
      assert ts[0..n] == ts[..n];
      WrittenWithin(ts, 0, n, Redirections(cmd.cmd));
    }
  }

  /** Every redirection of a command is one that was written. */
  lemma {:induction false} LineRedirs(ts: seq<Token>, cmd: Cmd)
    requires LineOk(ts, cmd)
    ensures AllWritten(ts, Redirections(cmd))
    decreases |ts|, 4
  {
    if BackOk(ts, cmd) {
      BackRedirs(ts, cmd);
    } else {
      var k: nat :| ListOf(ts, cmd, k);
      BackRedirs(ts[..k], cmd.left);
      LineRedirs(ts[k + 1..], cmd.right);
      BothWritten(ts, k, Redirections(cmd.left), Redirections(cmd.right));
    }
  }

  /** The files that runcmd has opened as descriptors once it gets to the command itself: it works inwards, and each
      redirection closes its descriptor first. */
  function Opened(cmd: Cmd, files: map<nat, Range>): map<nat, Range> {
    match cmd
    case Redirect(c, r) => Opened(c, files[r.fd := r.file])
    case _ => files
  }

  /** So of several redirections of a descriptor the one written first takes effect. */
  lemma {:induction false} FirstRedirWins(args: seq<Range>, rs: seq<Redir>, files: map<nat, Range>, i: nat)
    requires i < |rs| && forall j :: 0 <= j < i ==> rs[j].fd != rs[i].fd
    ensures var open := Opened(Wrap(Exec(args), rs), files);
            rs[i].fd in open && open[rs[i].fd] == rs[i].file
    decreases |rs|
  {
    var last := |rs| - 1;
    if i < last {
      FirstRedirWins(args, rs[..last], files[rs[last].fd := rs[last].file], i);
    } else {
      OpenedFrame(args, rs[..last], files[rs[last].fd := rs[last].file], rs[i].fd);
    }
  }

  lemma {:induction false} OpenedFrame(args: seq<Range>, rs: seq<Redir>, files: map<nat, Range>, fd: nat)
    requires fd in files && forall j :: 0 <= j < |rs| ==> rs[j].fd != fd
    ensures var open := Opened(Wrap(Exec(args), rs), files); fd in open && open[fd] == files[fd]
    decreases |rs|
  {
    if rs != [] {
      OpenedFrame(args, rs[..|rs| - 1], files[rs[|rs| - 1].fd := rs[|rs| - 1].file], fd);
    }
  }

  /** The words among the tokens are the words of the line. */
  lemma {:induction false} TokensCover(line: string, s: nat)
    requires Boundary(line, s)
    ensures Covers(line, s, |line|, WordsOf(Tokens(line, s)))
    decreases |line| - s
  {
    var q := SkipTo(line, s);
    SkipBlank(line, s);
    CoversBlank(line, s, q);
    if q < |line| {
      assert q > s ==> SpaceAt(line, q - 1);
      var tok := TokenFrom(line, q);
      TokenCovers(line, q);
      TokensCover(line, tok.e);
      CoversJoin(line, s, q, tok.e, multiset{}, WordOf(tok));
      CoversJoin(line, s, tok.e, |line|, multiset{} + WordOf(tok), WordsOf(Tokens(line, tok.e)));
      assert Tokens(line, s)[0] == tok && Tokens(line, s)[1..] == Tokens(line, tok.e);
      assert multiset{} + WordOf(tok) == WordOf(tok);
    }
  }

  lemma TokenCovers(line: string, q: nat)
    requires q < |line| && !Space(line[q]) && Boundary(line, q)
    ensures Boundary(line, TokenFrom(line, q).e) && Covers(line, q, TokenFrom(line, q).e, WordOf(TokenFrom(line, q)))
  {
    var tok := TokenFrom(line, q);
    TokenFromIs(line, q);
    if tok.kind == 'a' {
      CoversWord(line, q, tok.e);
    } else {
      CoversDelims(line, q, tok.e);
    }
  }

  // ---- nulterminate ----

  /** The characters of the line with a terminator at the end of every word in `ends`. */
  predicate Terminated(b: string, b': string, ws: multiset<Range>) {
    && |b'| == |b|
    && forall i :: 0 <= i < |b| ==> b'[i] == if EndsAt(ws, i) then NUL else b[i]
  }

  predicate EndsAt(ws: multiset<Range>, i: int) {
    exists w :: w in ws && w.1 == i
  }

  lemma TerminatedMore(b: string, b1: string, b2: string, one: multiset<Range>, two: multiset<Range>)
    requires Terminated(b, b1, one) && Terminated(b1, b2, two)
    ensures Terminated(b, b2, one + two)
  {
    forall i | 0 <= i < |b| ensures b2[i] == if EndsAt(one + two, i) then NUL else b[i] {
      assert EndsAt(one + two, i) <==> EndsAt(one, i) || EndsAt(two, i);
    }
  }

  lemma TerminatedOne(b: string, q: nat, e: nat)
    requires e < |b|
    ensures Terminated(b, b[e := NUL], multiset{(q, e)})
  {
    assert (q, e) in multiset{(q, e)};
  }

  /** nulterminate */
  method NulTerminate(buf: array<char>, cmd: Cmd)
    requires forall w :: w in Words(cmd) ==> w.1 < buf.Length
    modifies buf
    ensures Terminated(old(buf[..]), buf[..], Words(cmd))
    decreases cmd
  {
    match cmd {
      case Exec(args) =>
        TerminateArgs(buf, args);
      case Redirect(c, r) =>
        NulTerminate(buf, c);
        ghost var b1 := buf[..];
        buf[r.file.1] := NUL;
        TerminatedOne(b1, r.file.0, r.file.1);
        TerminatedMore(old(buf[..]), b1, buf[..], Words(c), multiset{r.file});
      case Pipe(l, r) =>
        NulTerminate(buf, l);
        ghost var b1 := buf[..];
        NulTerminate(buf, r);
        TerminatedMore(old(buf[..]), b1, buf[..], Words(l), Words(r));
      case List(l, r) =>
        NulTerminate(buf, l);
        ghost var b1 := buf[..];
        NulTerminate(buf, r);
        TerminatedMore(old(buf[..]), b1, buf[..], Words(l), Words(r));
      case Back(c) =>
        NulTerminate(buf, c);
    }
  }

  /** nulterminate's loop over argv */
  method TerminateArgs(buf: array<char>, args: seq<Range>)
    requires forall w :: w in args ==> w.1 < buf.Length
    modifies buf
    ensures Terminated(old(buf[..]), buf[..], multiset(args))
  {
    for i := 0 to |args|
      invariant Terminated(old(buf[..]), buf[..], multiset(args[..i]))
    {
      ghost var b1 := buf[..];
      buf[args[i].1] := NUL;
      TerminatedOne(b1, args[i].0, args[i].1);
      TerminatedMore(old(buf[..]), b1, buf[..], multiset(args[..i]), multiset{args[i]});
      assert args[..i + 1] == args[..i] + [args[i]];
    }
    assert args[..|args|] == args;
  }

  /** The C string at q is s. */
  predicate StringAt(b: string, q: nat, s: string) {
    q + |s| < |b| && b[q..q + |s|] == s && NUL !in s && b[q + |s|] == NUL
  }

  /** Every word of ws can be read as a string of its own. */
  ghost predicate Readable(line: string, b: string, ws: multiset<Range>) {
    forall w :: w in ws ==> IsWord(line, w.0, w.1) && StringAt(b, w.0, line[w.0..w.1])
  }

  /** Terminators go only where a delimiter or the end of the line was, so every word is left whole and ends
      where it should. */
  lemma WordsReadable(line: string, b: string, ws: multiset<Range>)
    requires NUL !in line && Covers(line, 0, |line|, ws) && Terminated(line + [NUL], b, ws)
    ensures Readable(line, b, ws)
    ensures forall i :: 0 <= i < |line| && !Delim(line[i]) ==> b[i] == line[i]
  {
    forall i | 0 <= i < |line| && !Delim(line[i]) ensures b[i] == line[i] {
      if EndsAt(ws, i) {
        OnlyDelimiters(line, ws, i);
      }
    }
    forall w | w in ws ensures IsWord(line, w.0, w.1) && StringAt(b, w.0, line[w.0..w.1]) {
      assert ws[(w.0, w.1)] >= 1;
      assert EndsAt(ws, w.1) && b[w.1] == NUL;
      assert b[w.0..w.1] == line[w.0..w.1];
      assert forall c :: c in line[w.0..w.1] ==> c in line;
    }
  }

  /** Nothing but delimiters and the terminator is overwritten. */
  lemma OnlyDelimiters(line: string, ws: multiset<Range>, i: nat)
    requires Covers(line, 0, |line|, ws) && i < |line| && EndsAt(ws, i)
    ensures Delim(line[i])
  {
    var w :| w in ws && w.1 == i;
    assert ws[(w.0, w.1)] >= 1;
  }

  /** parsecmd: the line in buf, of n characters, is parsed and the words of the command are terminated in place.
      Every argument and every file name then reads as exactly its own word. */
  method ParseCmd(buf: array<char>, n: nat) returns (r: Result)
    requires n + 1 == buf.Length && buf[n] == NUL && NUL !in buf[..n]
    modifies buf
    ensures r.Panic? ==> buf[..] == old(buf[..])
    ensures forall cmd :: r == Parsed(cmd) <==> LineOk(Tokens(old(buf[..n]), 0), cmd)
    ensures r.Parsed? ==> Covers(old(buf[..n]), 0, n, Words(r.cmd))
    ensures r.Parsed? ==> Readable(old(buf[..n]), buf[..], Words(r.cmd))
    ensures forall i :: 0 <= i < n && !Delim(old(buf[i])) ==> buf[..][i] == old(buf[..n])[i]
  {
    ghost var line := buf[..n];
    r := ParseText(buf[..n]);
    if r.Panic? {
      return;
    }
    LineWords(Tokens(line, 0), r.cmd);
    TokensCover(line, 0);
    EndsInLine(line, Words(r.cmd));
    assert buf[..] == line + [NUL];
    NulTerminate(buf, r.cmd);
    WordsReadable(line, buf[..], Words(r.cmd));
  }

  lemma EndsInLine(line: string, ws: multiset<Range>)
    requires Covers(line, 0, |line|, ws)
    ensures forall w :: w in ws ==> w.1 <= |line|
  {
    forall w | w in ws ensures w.1 <= |line| {
      assert ws[(w.0, w.1)] >= 1;
    }
  }
}
