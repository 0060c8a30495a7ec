/** grep's pattern matcher (user/bin/grep.c) against a declarative meaning of patterns.  A C string is the
    sequence of its characters without the terminator, so `*text == 0` reads `at == |text|`. */
module Regex {
  /** What a pattern is made of: a character, any number of a character, the end of the text. */
  datatype Atom = One(c: char) | Many(c: char) | End

  function Parse(re: string): seq<Atom> {
    if re == [] then []
    else if |re| >= 2 && re[1] == '*' then [Many(re[0])] + Parse(re[2..])
    else if re == "$" then [End]
    else [One(re[0])] + Parse(re[1..])
  }

  function Render(atoms: seq<Atom>): string {
    if atoms == [] then ""
    else Spelled(atoms[0]) + Render(atoms[1..])
  }

  function Spelled(a: Atom): string {
    match a
    case One(c) => [c]
    case Many(c) => [c, '*']
    case End => "$"
  }

  lemma RenderMore(a: Atom, atoms: seq<Atom>)
    ensures Render([a] + atoms) == Spelled(a) + Render(atoms)
  {
    assert ([a] + atoms)[1..] == atoms;
  }

  /** A pattern's atoms spell the pattern. */
  lemma {:induction false} RenderParse(re: string)
    ensures Render(Parse(re)) == re
  {
    if re == [] {
    } else if |re| >= 2 && re[1] == '*' {
      RenderParse(re[2..]);
      RenderMore(Many(re[0]), Parse(re[2..]));
      assert re == [re[0], '*'] + re[2..];
    } else if re == "$" {
      RenderMore(End, []);
      assert [End] + [] == [End];
    } else {
      RenderParse(re[1..]);
      RenderMore(One(re[0]), Parse(re[1..]));
      assert re == [re[0]] + re[1..];
    }
  }

  /** Atom i is what the characters at its place have to be read as: a '*' belongs to the character before it, and a
      '$' at the end of the pattern, and only there, stands for the end of the text. */
  predicate ReadAt(atoms: seq<Atom>, i: nat)
    requires i < |atoms|
  {
    match atoms[i]
    case One(c) => if i + 1 < |atoms| then Spelled(atoms[i + 1])[0] != '*' else c != '$'
    case Many(_) => true
    case End => i + 1 == |atoms|
  }

  predicate IsReading(re: string, atoms: seq<Atom>) {
    Render(atoms) == re && forall i: nat :: i < |atoms| ==> ReadAt(atoms, i)
  }

  lemma ReadingMore(a: Atom, atoms: seq<Atom>)
    requires ReadAt([a] + atoms, 0)
    ensures (forall i: nat :: i < |atoms| ==> ReadAt(atoms, i)) <==>
            forall i: nat :: i < |[a] + atoms| ==> ReadAt([a] + atoms, i)
  {
    var all := [a] + atoms;
    forall i: nat | i < |atoms| ensures ReadAt(all, i + 1) <==> ReadAt(atoms, i) {
    }
    forall i: nat | 0 < i < |all| ensures ReadAt(all, i) <==> ReadAt(atoms, i - 1) {
    }
  }

  lemma RenderStarts(atoms: seq<Atom>)
    ensures if atoms == [] then Render(atoms) == [] else Render(atoms) != [] && Render(atoms)[0] == Spelled(atoms[0])[0]
  {
  }

  lemma {:induction false} ParseReads(re: string)
    ensures IsReading(re, Parse(re))
  {
    RenderParse(re);
    if re == [] || re == "$" {
    } else if |re| >= 2 && re[1] == '*' {
      ParseReads(re[2..]);
      ReadingMore(Many(re[0]), Parse(re[2..]));
    } else {
      ParseReads(re[1..]);
      RenderStarts(Parse(re[1..]));
      ReadingMore(One(re[0]), Parse(re[1..]));
    }
  }

  lemma {:induction false} OneReading(re: string, atoms: seq<Atom>)
    requires IsReading(re, atoms)
    ensures atoms == Parse(re)
    decreases |atoms|
  {
    if atoms != [] {
      var a, rest := atoms[0], atoms[1..];
      assert [a] + rest == atoms && ReadAt(atoms, 0);
      RenderMore(a, rest);
      RenderStarts(rest);
      ReadingMore(a, rest);
      assert re[|Spelled(a)|..] == Render(rest);
      OneReading(Render(rest), rest);
    }
  }

  /** A pattern has one reading, and that is how the matcher reads it. */
  lemma ReadingIff(re: string, atoms: seq<Atom>)
    ensures IsReading(re, atoms) <==> atoms == Parse(re)
  {
    ParseReads(re);
    if IsReading(re, atoms) {
      OneReading(re, atoms);
    }
  }

  // ---- the meaning ----

  predicate Accepts(c: char, x: char) {
    c == '.' || c == x
  }

  predicate AllAccepted(c: char, text: string, lo: nat, hi: nat) {
    lo <= hi <= |text| && forall k :: lo <= k < hi ==> Accepts(c, text[k])
  }

  /** The atom matches text[lo..hi]. */
  predicate Fits(a: Atom, text: string, lo: nat, hi: nat) {
    match a
    case One(c) => lo < |text| && hi == lo + 1 && Accepts(c, text[lo])
    case Many(c) => AllAccepted(c, text, lo, hi)
    case End => lo == hi == |text|
  }

  /** `cuts` divides a stretch of text that starts at `at` into one piece for every atom. */
  predicate Division(atoms: seq<Atom>, text: string, at: nat, cuts: seq<nat>) {
    && |cuts| == |atoms| + 1 && cuts[0] == at
    && forall i :: 0 <= i < |atoms| ==> Fits(atoms[i], text, cuts[i], cuts[i + 1])
  }

  /** Some stretch of text from `at` on is in the language of the atoms. */
  ghost predicate MatchesAt(atoms: seq<Atom>, text: string, at: nat) {
    exists cuts :: Division(atoms, text, at, cuts)
  }

  /** A pattern matches a text: anywhere in it, or at its beginning when the pattern starts with '^'. */
  ghost predicate Matches(re: string, text: string) {
    if re != [] && re[0] == '^' then MatchesAt(Parse(re[1..]), text, 0)
    else exists at: nat :: at <= |text| && MatchesAt(Parse(re), text, at)
  }

  lemma MatchesNothing(text: string, at: nat)
    ensures MatchesAt([], text, at)
  {
    assert Division([], text, at, [at]);
  }

  /** The first atom takes a piece and the others match from there. */
  lemma MatchesFirst(a: Atom, rest: seq<Atom>, text: string, at: nat, mid: nat)
    requires Fits(a, text, at, mid) && MatchesAt(rest, text, mid)
    ensures MatchesAt([a] + rest, text, at)
  {
    var cuts :| Division(rest, text, mid, cuts);
    var all, atoms := [at] + cuts, [a] + rest;
    forall i | 0 <= i < |atoms| ensures Fits(atoms[i], text, all[i], all[i + 1]) {
      assert i > 0 ==> Fits(rest[i - 1], text, cuts[i - 1], cuts[i]);
    }
    assert Division(atoms, text, at, all);
  }

  lemma FirstMatches(a: Atom, rest: seq<Atom>, text: string, at: nat) returns (mid: nat)
    requires MatchesAt([a] + rest, text, at)
    ensures Fits(a, text, at, mid) && MatchesAt(rest, text, mid)
  {
    var cuts :| Division([a] + rest, text, at, cuts);
    mid := cuts[1];
    assert Fits(([a] + rest)[0], text, cuts[0], cuts[1]);
    forall i | 0 <= i < |rest| ensures Fits(rest[i], text, cuts[1..][i], cuts[1..][i + 1]) {
      assert Fits(([a] + rest)[i + 1], text, cuts[i + 1], cuts[i + 2]);
    }
    assert Division(rest, text, mid, cuts[1..]);
  }

  /** Without '*', '$' and '^' a pattern is a stretch of characters, in which '.' stands for any. */
  lemma {:induction false} PlainHere(re: string, text: string, at: nat)
    requires forall i :: 0 <= i < |re| ==> re[i] != '*' && re[i] != '$'
    ensures MatchesAt(Parse(re), text, at) <==> Occurs(re, text, at)
    decreases |re|
  {
    if re == [] {
      MatchesNothing(text, at);
    } else {
      PlainHere(re[1..], text, at + 1);
      OneMatches(re[0], Parse(re[1..]), text, at);
      OccursMore(re, text, at);
    }
  }

  predicate Occurs(re: string, text: string, at: nat) {
    re != [] ==> at + |re| <= |text| && forall i :: 0 <= i < |re| ==> re[i] == '.' || re[i] == text[at + i]
  }

  lemma OccursMore(re: string, text: string, at: nat)
    requires re != []
    ensures Occurs(re, text, at) <==>
              at < |text| && (re[0] == '.' || re[0] == text[at]) && Occurs(re[1..], text, at + 1)
  {
    var rest := re[1..];
    if at < |text| && (re[0] == '.' || re[0] == text[at]) && Occurs(rest, text, at + 1) {
      forall i | 0 <= i < |re| ensures at + i < |text| && (re[i] == '.' || re[i] == text[at + i]) {
        assert i > 0 ==> re[i] == rest[i - 1];
      }
    }
    if Occurs(re, text, at) {
      forall i | 0 <= i < |rest| ensures rest[i] == '.' || rest[i] == text[at + 1 + i] {
        assert rest[i] == re[i + 1] && text[at + (i + 1)] == text[at + 1 + i];
      }
    }
  }

  lemma PlainMatches(re: string, text: string)
    requires forall i :: 0 <= i < |re| ==> re[i] != '*' && re[i] != '$' && re[i] != '^'
    ensures Matches(re, text) <==> exists at: nat :: at <= |text| && Occurs(re, text, at)
  {
    forall at: nat ensures MatchesAt(Parse(re), text, at) <==> Occurs(re, text, at) {
      PlainHere(re, text, at);
    }
  }

  // ---- the matcher ----

  /** matchhere */
  method MatchHere(re: string, text: string, at: nat) returns (r: bool)
    requires at <= |text|
    ensures r <==> MatchesAt(Parse(re), text, at)
    decreases |re|, 0
  {
    if re == [] {
      MatchesNothing(text, at);
      return true;
    }
    if |re| >= 2 && re[1] == '*' {
      r := MatchStar(re[0], re[2..], text, at);
      return;
    }
    if re == "$" {
      EndMatches(text, at);
      return at == |text|;
    }
    if at < |text| && (re[0] == '.' || re[0] == text[at]) {
      r := MatchHere(re[1..], text, at + 1);
      OneMatches(re[0], Parse(re[1..]), text, at);
      return;
    }
    OneMatches(re[0], Parse(re[1..]), text, at);
    return false;
  }

  lemma OneMatches(c: char, rest: seq<Atom>, text: string, at: nat)
    ensures MatchesAt([One(c)] + rest, text, at) <==>
              at < |text| && Accepts(c, text[at]) && MatchesAt(rest, text, at + 1)
  {
    if MatchesAt([One(c)] + rest, text, at) {
      var mid := FirstMatches(One(c), rest, text, at);
    }
    if at < |text| && Accepts(c, text[at]) && MatchesAt(rest, text, at + 1) {
      MatchesFirst(One(c), rest, text, at, at + 1);
    }
  }

  lemma EndMatches(text: string, at: nat)
    ensures MatchesAt([End], text, at) <==> at == |text|
  {
    assert [End] + [] == [End];
    if MatchesAt([End], text, at) {
      var mid := FirstMatches(End, [], text, at);
    }
    if at == |text| {
      MatchesNothing(text, at);
      MatchesFirst(End, [], text, at, at);
    }
  }

  /** A run of c's cannot go past t, and the rest matches nowhere up to there. */
  lemma NoMany(c: char, rest: seq<Atom>, text: string, at: nat, t: nat)
    requires at <= t <= |text| && (t < |text| ==> !Accepts(c, text[t]))
    requires forall k: nat :: at <= k <= t ==> !MatchesAt(rest, text, k)
    ensures !MatchesAt([Many(c)] + rest, text, at)
  {
    if MatchesAt([Many(c)] + rest, text, at) {
      var mid := FirstMatches(Many(c), rest, text, at);
    }
  }

  /** matchstar: try the rest of the pattern after no c, one c, two c's, ... */
  method MatchStar(c: char, re: string, text: string, at: nat) returns (r: bool)
    requires at <= |text|
    ensures r <==> MatchesAt([Many(c)] + Parse(re), text, at)
    decreases |re|, 1
  {
    var t := at;
    r := MatchHere(re, text, t);
    while !r && t < |text| && (text[t] == c || c == '.')
      invariant at <= t <= |text| && AllAccepted(c, text, at, t)
      invariant forall k: nat :: at <= k < t ==> !MatchesAt(Parse(re), text, k)
      invariant r <==> MatchesAt(Parse(re), text, t)
      decreases |text| - t
    {
      t := t + 1;
      r := MatchHere(re, text, t);
    }
    if r {
      MatchesFirst(Many(c), Parse(re), text, at, t);
    } else {
      NoMany(c, Parse(re), text, at, t);
    }
  }

  /** match */
  method Match(re: string, text: string) returns (r: bool)
    ensures r <==> Matches(re, text)
  {
    if re != [] && re[0] == '^' {
      r := MatchHere(re[1..], text, 0);
      return;
    }
    var t := 0;
    r := MatchHere(re, text, 0);
    while !r && t < |text|
      invariant t <= |text| && (r <==> MatchesAt(Parse(re), text, t))
      invariant forall k: nat :: k < t ==> !MatchesAt(Parse(re), text, k)
    {
      t := t + 1;
      r := MatchHere(re, text, t);
    }
  }
}
