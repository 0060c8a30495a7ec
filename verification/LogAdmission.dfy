/** Admission to the log: every interleaving of begin_op, log_write and end_op by any number of
    processes (system/storage/log.c).  Each step is one critical section under the log's lock, and
    log_write's tests, which it makes before it takes the lock, are a step of their own. */
module LogAdmission {
  import opened Params
  import opened Bytes

  /** What one process is doing with the log.  `added` counts the list entries this operation made. */
  datatype Op =
    | Outside
    | Asleep                 // in begin_op, sleeping on &log
    | Active(added: nat)     // between begin_op and end_op
    | Passed(added: nat, b: word) // in log_write of block b, past the tests and not yet at the list
    | Committer              // in end_op, running commit
    | Cleared                // in end_op, commit has set lh.n to 0
  {
    predicate Inside() {
      Active? || Passed?
    }
  }

  datatype State = State(outstanding: int, committing: bool, list: seq<word>, ops: seq<Op>, panicked: bool)

  datatype Action =
    | BeginOp(p: nat)
    | LogTest(p: nat, b: word)
    | LogAppend(p: nat)
    | EndOp(p: nat)
    | ClearList(p: nat)
    | EndCommit(p: nat)

  /** The block list after log_write: absorbed when already there, appended otherwise. */
  function Absorb(list: seq<word>, b: word): seq<word> {
    if b in list then list else list + [b]
  }

  /** begin_op's test. */
  predicate Admits(s: State) {
    !s.committing && |s.list| + (s.outstanding + 1) * MAXOPBLOCKS <= LOGSIZE
  }

  /** log_write's test for its first panic, with `size` blocks of log on the disk. */
  predicate TooBig(list: seq<word>, size: int) {
    |list| >= LOGSIZE || |list| >= size - 1
  }

  /** wakeup(&log). */
  function WakeAll(ops: seq<Op>): (r: seq<Op>) {
    seq(|ops|, i requires 0 <= i < |ops| => if ops[i] == Asleep then Outside else ops[i])
  }

  /** An operation adds at most MAXOPBLOCKS blocks to the list; absorbed writes are free. */
  predicate Enabled(s: State, a: Action) {
    && !s.panicked && a.p < |s.ops|
    && match a
       case BeginOp(p) => s.ops[p] == Outside
       case LogTest(p, b) => s.ops[p].Active? && (b in s.list || s.ops[p].added < MAXOPBLOCKS)
       case LogAppend(p) => s.ops[p].Passed?
       case EndOp(p) => s.ops[p].Active?
       case ClearList(p) => s.ops[p] == Committer
       case EndCommit(p) => s.ops[p] == Cleared
  }

  function Step(s: State, a: Action, size: int): State
    requires Enabled(s, a)
  {
    match a
    case BeginOp(p) =>
      if Admits(s) then s.(outstanding := s.outstanding + 1, ops := s.ops[p := Active(0)])
      else s.(ops := s.ops[p := Asleep])
    case LogTest(p, b) =>
      if TooBig(s.list, size) || s.outstanding < 1 then s.(panicked := true)
      else s.(ops := s.ops[p := Passed(s.ops[p].added, b)])
    case LogAppend(p) =>
      var b := s.ops[p].b;
      s.(list := Absorb(s.list, b),
         ops := s.ops[p := Active(s.ops[p].added + (if b in s.list then 0 else 1))])
    case EndOp(p) =>
      var left := s.outstanding - 1;
      if s.committing then s.(outstanding := left, panicked := true)
      else if left == 0 then s.(outstanding := left, committing := true, ops := s.ops[p := Committer])
      else s.(outstanding := left, ops := WakeAll(s.ops[p := Outside]))
    case ClearList(p) => s.(list := [], ops := s.ops[p := Cleared])
    case EndCommit(p) => s.(committing := false, ops := WakeAll(s.ops[p := Outside]))
  }

  // ---- runs ----

  ghost predicate IsRun(s: State, acts: seq<Action>, size: int)
    decreases |acts|
  {
    acts == [] || (Enabled(s, acts[0]) && IsRun(Step(s, acts[0], size), acts[1..], size))
  }

  function Run(s: State, acts: seq<Action>, size: int): State
    requires IsRun(s, acts, size)
    decreases |acts|
  {
    if acts == [] then s else Run(Step(s, acts[0], size), acts[1..], size)
  }

  function Init(n: nat): State {
    State(0, false, [], seq(n, _ => Outside), false)
  }

  // ---- the invariant ----

  function Actives(ops: seq<Op>): nat {
    if ops == [] then 0 else Actives(ops[..|ops| - 1]) + (if ops[|ops| - 1].Inside() then 1 else 0)
  }

  /** What one process may still add to the list. */
  function Budget(op: Op): int {
    if op.Inside() then MAXOPBLOCKS - op.added else 0
  }

  function Reserved(ops: seq<Op>): int {
    if ops == [] then 0 else Reserved(ops[..|ops| - 1]) + Budget(ops[|ops| - 1])
  }

  ghost predicate Committing(op: Op) {
    op == Committer || op == Cleared
  }

  /** The counts: the list has no duplicates, and what it holds plus what is reserved fits. */
  ghost predicate Counts(s: State) {
    && s.outstanding == Actives(s.ops)
    && (forall i, j :: 0 <= i < j < |s.list| ==> s.list[i] != s.list[j])
    && |s.list| + Reserved(s.ops) <= LOGSIZE
    && (forall p :: 0 <= p < |s.ops| && s.ops[p].Inside() ==> s.ops[p].added <= MAXOPBLOCKS)
    && (forall p :: 0 <= p < |s.ops| && s.ops[p].Passed? ==> s.ops[p].b in s.list || s.ops[p].added < MAXOPBLOCKS)
  }

  /** The roles: a commit runs alone, exactly one process runs it, the list is empty when nobody is
      in the log, and a process sleeps in begin_op only while it could not be admitted. */
  ghost predicate Roles(s: State) {
    && (s.committing ==> s.outstanding == 0)
    && (s.committing ==> exists p :: 0 <= p < |s.ops| && Committing(s.ops[p]))
    && (forall p :: 0 <= p < |s.ops| && Committing(s.ops[p]) ==>
          s.committing && forall q :: 0 <= q < |s.ops| && q != p ==> !Committing(s.ops[q]))
    && (forall p :: 0 <= p < |s.ops| && s.ops[p] == Cleared ==> s.list == [])
    && (!s.committing && s.outstanding == 0 ==> s.list == [])
    && (forall p :: 0 <= p < |s.ops| && s.ops[p] == Asleep ==> !Admits(s))
  }

  ghost predicate Inv(s: State) {
    Counts(s) && Roles(s)
  }

  lemma {:induction false} SumUpdate(ops: seq<Op>, p: nat, op: Op)
    requires p < |ops|
    ensures Reserved(ops[p := op]) == Reserved(ops) - Budget(ops[p]) + Budget(op)
    ensures Actives(ops[p := op]) ==
            Actives(ops) - (if ops[p].Inside() then 1 else 0) + (if op.Inside() then 1 else 0)
    decreases |ops|
  {
    var k := |ops| - 1;
    if p < k {
      SumUpdate(ops[..k], p, op);
      assert ops[p := op][..k] == ops[..k][p := op];
    } else {
      assert ops[p := op][..k] == ops[..k];
    }
  }

  lemma {:induction false} WakeSums(ops: seq<Op>)
    ensures Reserved(WakeAll(ops)) == Reserved(ops) && Actives(WakeAll(ops)) == Actives(ops)
    decreases |ops|
  {
    if ops != [] {
      WakeSums(ops[..|ops| - 1]);
      assert WakeAll(ops)[..|ops| - 1] == WakeAll(ops[..|ops| - 1]);
    }
  }

  /** The reservations cover each active operation's own budget. */
  lemma {:induction false} BudgetCovered(ops: seq<Op>, p: nat)
    requires p < |ops| && forall q :: 0 <= q < |ops| && ops[q].Inside() ==> ops[q].added <= MAXOPBLOCKS
    ensures 0 <= Budget(ops[p]) <= Reserved(ops)
    ensures ops[p].Inside() ==> Actives(ops) >= 1
    decreases |ops|
  {
    var k := |ops| - 1;
    ReservedNat(ops[..k]);
    if p < k {
      BudgetCovered(ops[..k], p);
    }
  }

  lemma {:induction false} ReservedNat(ops: seq<Op>)
    requires forall q :: 0 <= q < |ops| && ops[q].Inside() ==> ops[q].added <= MAXOPBLOCKS
    ensures 0 <= Reserved(ops) <= Actives(ops) * MAXOPBLOCKS
    ensures Actives(ops) == 0 ==> forall q :: 0 <= q < |ops| ==> !ops[q].Inside()
    decreases |ops|
  {
    if ops != [] {
      ReservedNat(ops[..|ops| - 1]);
    }
  }

  lemma BeginInv(s: State, p: nat, size: int)
    requires Inv(s) && Enabled(s, BeginOp(p))
    ensures Inv(Step(s, BeginOp(p), size))
  {
    ReservedNat(s.ops);
    var op := if Admits(s) then Active(0) else Asleep;
    SumUpdate(s.ops, p, op);
    if s.committing {
      var q :| 0 <= q < |s.ops| && Committing(s.ops[q]);
      assert Committing(s.ops[p := op][q]);
    }
  }

  lemma TestInv(s: State, p: nat, b: word, size: int)
    requires Inv(s) && Enabled(s, LogTest(p, b)) && size > LOGSIZE
    ensures var s' := Step(s, LogTest(p, b), size);
            && (s'.panicked <==> |s.list| == LOGSIZE)
            && (s'.panicked ==> s.ops[p].added == MAXOPBLOCKS)
            && (!s'.panicked ==> Inv(s'))
  {
    BudgetCovered(s.ops, p);
    SumUpdate(s.ops, p, Passed(s.ops[p].added, b));
  }

  /** The append is safe although other operations may have appended since the test. */
  lemma AppendInv(s: State, p: nat, size: int)
    requires Inv(s) && Enabled(s, LogAppend(p))
    ensures Inv(Step(s, LogAppend(p), size))
    ensures s.ops[p].b in s.list || |s.list| < LOGSIZE
  {
    BudgetCovered(s.ops, p);
    SumUpdate(s.ops, p, Active(s.ops[p].added + (if s.ops[p].b in s.list then 0 else 1)));
  }

  lemma EndInv(s: State, p: nat, size: int)
    requires Inv(s) && Enabled(s, EndOp(p))
    ensures !Step(s, EndOp(p), size).panicked && Inv(Step(s, EndOp(p), size))
  {
    EndCounts(s, p, size);
    EndRoles(s, p, size);
  }

  lemma EndCounts(s: State, p: nat, size: int)
    requires Inv(s) && Enabled(s, EndOp(p))
    ensures !Step(s, EndOp(p), size).panicked && Counts(Step(s, EndOp(p), size))
  {
    BudgetCovered(s.ops, p);
    var op := if s.outstanding == 1 then Committer else Outside;
    SumUpdate(s.ops, p, op);
    WakeSums(s.ops[p := op]);
  }

  lemma EndRoles(s: State, p: nat, size: int)
    requires Inv(s) && Enabled(s, EndOp(p)) && Counts(Step(s, EndOp(p), size))
    ensures Roles(Step(s, EndOp(p), size))
  {
    assert s.outstanding == 1 ==> Committing(s.ops[p := Committer][p]);
  }

  lemma CommitInv(s: State, a: Action, size: int)
    requires Inv(s) && Enabled(s, a) && (a.ClearList? || a.EndCommit?)
    ensures Inv(Step(s, a, size))
  {
    assert Committing(s.ops[a.p]);
    ReservedNat(s.ops);
    var op := if a.ClearList? then Cleared else Outside;
    var ops := s.ops[a.p := op];
    SumUpdate(s.ops, a.p, op);
    WakeSums(ops);
    assert a.ClearList? ==> Committing(ops[a.p]);
  }

  /** Every step keeps the invariant, except that log_write's test panics exactly when the list is full;
      then the operation has used its whole budget.  The append finds the block or room in the list. */
  lemma StepInv(s: State, a: Action, size: int)
    requires Inv(s) && Enabled(s, a) && size > LOGSIZE
    ensures var s' := Step(s, a, size);
            && (s'.panicked <==> a.LogTest? && |s.list| == LOGSIZE)
            && (s'.panicked ==> s.ops[a.p].added == MAXOPBLOCKS)
            && (a.LogAppend? ==> s.ops[a.p].b in s.list || |s.list| < LOGSIZE)
            && (a.LogAppend? ==> s.ops[a.p].b in s'.list && s.list <= s'.list)
            && (a.LogAppend? ==> s'.ops[a.p] == Active(s.ops[a.p].added + |s'.list| - |s.list|))
            && (!s'.panicked ==> Inv(s'))
  {
    match a
    case BeginOp(p) => BeginInv(s, p, size);
    case LogTest(p, b) => TestInv(s, p, b, size);
    case LogAppend(p) => AppendInv(s, p, size);
    case EndOp(p) => EndInv(s, p, size);
    case ClearList(p) => CommitInv(s, a, size);
    case EndCommit(p) => CommitInv(s, a, size);
  }

  lemma {:induction false} InitInv(n: nat)
    ensures Inv(Init(n))
  {
    if n > 0 {
      InitInv(n - 1);
      assert Init(n).ops[..n - 1] == Init(n - 1).ops;
    }
  }

  /** Every reachable state that has not panicked satisfies the invariant. */
  lemma {:induction false} RunInv(s: State, acts: seq<Action>, size: int)
    requires Inv(s) && !s.panicked && IsRun(s, acts, size) && size > LOGSIZE
    ensures !Run(s, acts, size).panicked ==> Inv(Run(s, acts, size))
    decreases |acts|
  {
    if acts != [] {
      StepInv(s, acts[0], size);
      if !Step(s, acts[0], size).panicked {
        RunInv(Step(s, acts[0], size), acts[1..], size);
      }
    }
  }

  /** What the log promises the file system, in every reachable state: commit runs only while no
      operation is outstanding, so end_op never finds a commit in progress; the list has no block
      twice and fits the log; an operation with budget left is never refused by log_write; one past
      log_write's tests finds its block in the list or a free place, whatever was appended since; and
      a process sleeps in begin_op only while some operation or commit is still to end, and only while the log
      might not hold what one more operation could add. */
  lemma Admission(n: nat, acts: seq<Action>, size: int, p: nat)
    requires IsRun(Init(n), acts, size) && size > LOGSIZE && p < n
    requires !Run(Init(n), acts, size).panicked
    ensures var s := Run(Init(n), acts, size);
            && |s.ops| == n
            && (s.committing ==> s.outstanding == 0)
            && (forall i, j :: 0 <= i < j < |s.list| ==> s.list[i] != s.list[j])
            && |s.list| <= 30
            && (s.ops[p].Inside() ==> !s.committing && 1 <= s.outstanding)
            && (s.ops[p].Inside() && s.ops[p].added < 10 ==> !TooBig(s.list, size))
            && (s.ops[p].Passed? ==> s.ops[p].b in s.list || |s.list| < 30)
            && (s.ops[p] == Asleep ==> s.committing || s.outstanding >= 1)
            && (s.ops[p] == Asleep ==> s.committing || |s.list| + (s.outstanding + 1) * 10 > 30)
  {
    InitInv(n);
    RunInv(Init(n), acts, size);
    RunOps(Init(n), acts, size);
    var s := Run(Init(n), acts, size);
    ReservedNat(s.ops);
    BudgetCovered(s.ops, p);
  }

  lemma {:induction false} RunOps(s: State, acts: seq<Action>, size: int)
    requires IsRun(s, acts, size)
    ensures |Run(s, acts, size).ops| == |s.ops|
    decreases |acts|
  {
    if acts != [] {
      RunOps(Step(s, acts[0], size), acts[1..], size);
    }
  }

  // ---- absorption does not save a full list ----

  function Upto(n: nat): seq<word>
    requires n <= UINT
  {
    seq(n, i requires 0 <= i < n => i)
  }

  /** Three operations that have together logged blocks 0..n-1, each filling its budget in turn. */
  function Filled(n: nat): State
    requires n <= LOGSIZE
  {
    State(3, false, Upto(n), seq(3, i => Active(Clamp(n - i * MAXOPBLOCKS))), false)
  }

  function Clamp(x: int): nat {
    if x < 0 then 0 else if x > MAXOPBLOCKS then MAXOPBLOCKS else x
  }

  /** The operation that logs block n. */
  function Turn(n: nat): nat {
    n / MAXOPBLOCKS
  }

  lemma FillStep(n: nat, size: int)
    requires n < LOGSIZE && size > LOGSIZE
    ensures Enabled(Filled(n), LogTest(Turn(n), n))
    ensures var s := Step(Filled(n), LogTest(Turn(n), n), size);
            Enabled(s, LogAppend(Turn(n))) && Step(s, LogAppend(Turn(n)), size) == Filled(n + 1)
  {
    assert Upto(n + 1) == Upto(n) + [n];
  }

  /** Log the remaining fresh blocks, then block 0 once more. */
  function FillThenRepeat(n: nat): seq<Action>
    requires n <= LOGSIZE
    decreases LOGSIZE - n
  {
    if n == LOGSIZE then [LogTest(0, 0)]
    else [LogTest(Turn(n), n)] + ([LogAppend(Turn(n))] + FillThenRepeat(n + 1))
  }

  lemma {:induction false} FillRun(n: nat, size: int)
    requires n <= LOGSIZE && size > LOGSIZE
    ensures IsRun(Filled(n), FillThenRepeat(n), size) && Run(Filled(n), FillThenRepeat(n), size).panicked
    decreases LOGSIZE - n
  {
    if n == LOGSIZE {
      assert Upto(n)[0] == 0;
      assert FillThenRepeat(n)[1..] == [];
    } else {
      FillStep(n, size);
      FillRun(n + 1, size);
      var s, rest := Step(Filled(n), LogTest(Turn(n), n), size), FillThenRepeat(n + 1);
      Prepend(s, LogAppend(Turn(n)), rest, size);
      Prepend(Filled(n), LogTest(Turn(n), n), [LogAppend(Turn(n))] + rest, size);
    }
  }

  /** The first k of three operations have begun. */
  function Begun(k: nat): State
    requires k <= 3
  {
    State(k, false, [], seq(3, i => if i < k then Active(0) else Outside), false)
  }

  lemma BeginStep(k: nat, size: int)
    requires k < 3
    ensures Enabled(Begun(k), BeginOp(k)) && Step(Begun(k), BeginOp(k), size) == Begun(k + 1)
  {
    assert Begun(k).ops[k := Active(0)] == Begun(k + 1).ops;
  }

  /** log_write tests for a full list before it looks for the block there, so three operations that
      each stay within MAXOPBLOCKS blocks can still stop the machine by logging a block again. */
  lemma AbsorbedWriteCanPanic(size: int)
    requires size > LOGSIZE
    ensures exists acts :: IsRun(Init(3), acts, size) && Run(Init(3), acts, size).panicked
  {
    FillRun(0, size);
    AllBegun();
    var acts := FillThenRepeat(0);
    for k := 3 downto 0
      invariant Panics(Begun(k), acts, size)
    {
      BeginStep(k, size);
      Prepend(Begun(k), BeginOp(k), acts, size);
      acts := [BeginOp(k)] + acts;
    }
    assert Panics(Init(3), acts, size);
  }

  ghost predicate Panics(s: State, acts: seq<Action>, size: int) {
    IsRun(s, acts, size) && Run(s, acts, size).panicked
  }

  lemma AllBegun()
    ensures Begun(0) == Init(3) && Begun(3) == Filled(0)
  {
    assert Begun(0).ops == Init(3).ops && Begun(3).ops == Filled(0).ops;
  }

  lemma Prepend(s: State, a: Action, acts: seq<Action>, size: int)
    requires Enabled(s, a) && IsRun(Step(s, a, size), acts, size)
    ensures IsRun(s, [a] + acts, size) && Run(s, [a] + acts, size) == Run(Step(s, a, size), acts, size)
  {
    assert ([a] + acts)[1..] == acts;
  }
}
