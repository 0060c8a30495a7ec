/** Sleeping locks (system/sync/sleeplock.c) over the sleep/wakeup steps of any number of processes.  One
    sleep lock is followed; its channel `c` is the lock's address and lockOf(c) its inner spin lock.  What
    the processes do with other locks and channels, also while they hold this one, is left arbitrary. */
module SleepLock {
  import opened SleepWakeup

  /** Where a process is with respect to this sleep lock. */
  datatype Stage =
    | Outside
    | Acquiring             // in acquiresleep's loop
    | Taken                 // acquiresleep has set locked, holds the spin lock
    | Holding               // acquiresleep has returned
    | Releasing             // releasesleep holds the spin lock, locked is still set
    | Cleared(woken: bool)  // releasesleep has cleared locked; has it called wakeup?

  datatype LockState = LockState(k: State, locked: bool, pid: nat, stage: seq<Stage>)

  datatype LockAction =
    | Enter(p: nat)         // acquiresleep: acquire(&lk->lk)
    | Wait(p: nat)          // the lock is taken: sleep
    | Take(p: nat)          // the lock is free: take it
    | Leave(p: nat)         // acquiresleep: release(&lk->lk)
    | Return(p: nat)        // releasesleep: acquire(&lk->lk)
    | Clear(p: nat)
    | Wake(p: nat)
    | Done(p: nat)          // releasesleep: release(&lk->lk)
    | Kernel(a: Action)     // a step inside sleep or wakeup, or one that has nothing to do with this lock

  function Of(a: LockAction): nat {
    if a.Kernel? then a.a.p else a.p
  }

  /** The kernel step that goes with each step. */
  function Under(s: LockState, a: LockAction, c: nat, lockOf: nat -> nat): Action {
    match a
    case Enter(p) => Acquire(p, lockOf(c))
    case Wait(p) => Sleep(p, c)
    case Take(p) => Change(p, s.k.ready - {c})
    case Leave(p) => Release(p, lockOf(c))
    case Return(p) => Acquire(p, lockOf(c))
    case Clear(p) => Change(p, s.k.ready + {c})
    case Wake(p) => Wakeup(p, c)
    case Done(p) => Release(p, lockOf(c))
    case Kernel(k) => k
  }

  predicate Allowed(s: LockState, a: LockAction, c: nat, lockOf: nat -> nat)
    requires Of(a) < |s.stage| == |s.k.at|
  {
    var p, here := Of(a), s.stage[Of(a)];
    var running := s.k.at[p].Running?;
    match a
    case Enter(_) => here.Outside? && running
    case Wait(_) => here.Acquiring? && s.locked
    case Take(_) => here.Acquiring? && running && !s.locked
    case Leave(_) => here.Taken?
    case Return(_) => here.Holding? && running
    case Clear(_) => here.Releasing?
    case Wake(_) => here == Cleared(false)
    case Done(_) => here == Cleared(true)
    case Kernel(k) =>
      if here.Outside? || here.Holding? then
        !(k.Acquire? && k.l == lockOf(c))
      else
        (here.Acquiring? || here == Cleared(true)) && !running
  }

  predicate LockEnabled(s: LockState, a: LockAction, c: nat, lockOf: nat -> nat) {
    |s.stage| == |s.k.at| && Enabled(s.k, Under(s, a, c, lockOf), lockOf) && Allowed(s, a, c, lockOf)
  }

  function LockStep(s: LockState, a: LockAction, c: nat, lockOf: nat -> nat): LockState
    requires LockEnabled(s, a, c, lockOf)
  {
    var t := s.(k := Step(s.k, Under(s, a, c, lockOf), lockOf));
    match a
    case Enter(p) => t.(stage := s.stage[p := Acquiring])
    case Wait(p) => t
    case Take(p) => t.(stage := s.stage[p := Taken], locked := true, pid := p)
    case Leave(p) => t.(stage := s.stage[p := Holding])
    case Return(p) => t.(stage := s.stage[p := Releasing])
    case Clear(p) => t.(stage := s.stage[p := Cleared(false)], locked := false, pid := 0)
    case Wake(p) => t.(stage := s.stage[p := Cleared(true)])
    case Done(p) => t.(stage := s.stage[p := Outside])
    case Kernel(_) => t
  }

  // ---- the invariant ----

  /** The stages at which a process owns the sleep lock. */
  predicate Owns(h: Stage) {
    h.Taken? || h.Holding? || h.Releasing?
  }

  predicate StageOk(s: LockState, p: nat, c: nat, lockOf: nat -> nat)
    requires |s.stage| == |s.k.at| == |s.k.owed| && p < |s.stage|
  {
    var here, w, has := s.stage[p], s.k.at[p], Has(s.k, p, lockOf(c));
    && (Owns(here) ==> s.locked && s.pid == p)
    && match here {
      case Outside => !has && (Sleeps(w) ==> w.c != c) && c !in s.k.owed[p]
      case Holding => !has && (Sleeps(w) ==> w.c != c) && c !in s.k.owed[p]
      case Acquiring => (if w.Running? then has else Sleeps(w) && w.c == c) && c !in s.k.owed[p]
      case Taken => has && w.Running? && c !in s.k.owed[p]
      case Releasing => has && w.Running? && c !in s.k.owed[p]
      case Cleared(woken) =>
        has && if woken && !w.Running? then (w.WakeWants? || w.WakeScans?) && w.c == c
               else w.Running? && (woken ==> c !in s.k.owed[p])
    }
  }

  ghost predicate LockInv(s: LockState, c: nat, lockOf: nat -> nat) {
    && Inv(s.k, lockOf) && |s.stage| == |s.k.at|
    && (c in s.k.ready <==> !s.locked)
    && (s.locked ==> s.pid < |s.stage| && Owns(s.stage[s.pid]))
    && forall p: nat :: p < |s.stage| ==> StageOk(s, p, c, lockOf)
  }

  /** The inner spin lock guards this channel and no other. */
  ghost predicate OwnLock(c: nat, lockOf: nat -> nat) {
    forall d: nat :: d != c ==> lockOf(d) != lockOf(c)
  }

  /** The stage of a process that does not move. */
  lemma OtherKept(s: LockState, a: LockAction, c: nat, lockOf: nat -> nat, q: nat)
    requires LockInv(s, c, lockOf) && LockEnabled(s, a, c, lockOf) && q < |s.stage| && q != Of(a)
    ensures StageOk(LockStep(s, a, c, lockOf), q, c, lockOf)
  {
    assert StageOk(s, q, c, lockOf) && StageOk(s, Of(a), c, lockOf);
    var k := Under(s, a, c, lockOf);
    StepFrame(s.k, k, lockOf, q, lockOf(c));
    var s' := s.(k := Step(s.k, k, lockOf));
    assert StageOk(s', q, c, lockOf);
  }

  /** The stage of the process that moves. */
  lemma MoverKept(s: LockState, a: LockAction, c: nat, lockOf: nat -> nat)
    requires OwnLock(c, lockOf) && LockInv(s, c, lockOf) && LockEnabled(s, a, c, lockOf)
    ensures StageOk(LockStep(s, a, c, lockOf), Of(a), c, lockOf)
  {
    assert StageOk(s, Of(a), c, lockOf) && ProcOk(s.k, Of(a), lockOf);
  }

  lemma LockStepInv(s: LockState, a: LockAction, c: nat, lockOf: nat -> nat)
    requires OwnLock(c, lockOf) && LockInv(s, c, lockOf) && LockEnabled(s, a, c, lockOf)
    ensures LockInv(LockStep(s, a, c, lockOf), c, lockOf)
  {
    var s' := LockStep(s, a, c, lockOf);
    StepInv(s.k, Under(s, a, c, lockOf), lockOf);
    assert StageOk(s, Of(a), c, lockOf);
    forall q: nat | q < |s'.stage| ensures StageOk(s', q, c, lockOf) {
      if q == Of(a) { MoverKept(s, a, c, lockOf); } else { OtherKept(s, a, c, lockOf, q); }
    }
  }

  // ---- whole runs ----

  predicate IsLockRun(s: LockState, run: seq<LockAction>, c: nat, lockOf: nat -> nat)
    decreases |run|
  {
    run == [] || (LockEnabled(s, run[0], c, lockOf) && IsLockRun(LockStep(s, run[0], c, lockOf), run[1..], c, lockOf))
  }

  function LockRun(s: LockState, run: seq<LockAction>, c: nat, lockOf: nat -> nat): LockState
    requires IsLockRun(s, run, c, lockOf)
    decreases |run|
  {
    if run == [] then s else LockRun(LockStep(s, run[0], c, lockOf), run[1..], c, lockOf)
  }

  /** initsleeplock, before any process uses the lock. */
  predicate Init(s: LockState, c: nat) {
    && Initial(s.k) && |s.stage| == |s.k.at| && !s.locked && c in s.k.ready
    && forall p :: 0 <= p < |s.stage| ==> s.stage[p].Outside? && c !in s.k.owed[p]
  }

  lemma {:induction false} LockRunInv(s: LockState, run: seq<LockAction>, c: nat, lockOf: nat -> nat)
    requires OwnLock(c, lockOf) && LockInv(s, c, lockOf) && IsLockRun(s, run, c, lockOf)
    ensures LockInv(LockRun(s, run, c, lockOf), c, lockOf)
    decreases |run|
  {
    if run != [] {
      LockStepInv(s, run[0], c, lockOf);
      LockRunInv(LockStep(s, run[0], c, lockOf), run[1..], c, lockOf);
    }
  }

  /** acquiresleep gives mutual exclusion: in every reachable state at most one process is between the
      return of acquiresleep and the clearing of the lock in releasesleep, and `pid` names it. */
  lemma MutualExclusion(s: LockState, run: seq<LockAction>, c: nat, lockOf: nat -> nat, p: nat, q: nat)
    requires OwnLock(c, lockOf) && Init(s, c) && IsLockRun(s, run, c, lockOf)
    ensures var t := LockRun(s, run, c, lockOf);
      p < |t.stage| && q < |t.stage| && Owns(t.stage[p]) && Owns(t.stage[q]) ==> p == q == t.pid && t.locked
  {
    LockRunInv(s, run, c, lockOf);
    var t := LockRun(s, run, c, lockOf);
    assert p < |t.stage| && q < |t.stage| ==> StageOk(t, p, c, lockOf) && StageOk(t, q, c, lockOf);
  }

  /** No waiter is stranded: in every reachable state in which the inner spin lock is free, a process asleep
      in acquiresleep implies that some process still owns the sleep lock, and so has its releasesleep, with
      the wakeup in it, ahead of it. */
  lemma NoStrandedWaiter(s: LockState, run: seq<LockAction>, c: nat, lockOf: nat -> nat, p: nat)
    requires OwnLock(c, lockOf) && Init(s, c) && IsLockRun(s, run, c, lockOf)
    ensures var t := LockRun(s, run, c, lockOf);
      p < |t.k.at| && t.k.at[p] == Asleep(c) && lockOf(c) !in t.k.held ==>
        t.locked && t.pid < |t.stage| && t.stage[t.pid].Holding? && t.pid != p
  {
    LockRunInv(s, run, c, lockOf);
    var t := LockRun(s, run, c, lockOf);
    if p < |t.k.at| && t.k.at[p] == Asleep(c) && lockOf(c) !in t.k.held {
      assert ProcOk(t.k, p, lockOf) && StageOk(t, p, c, lockOf);
      forall q | 0 <= q < |t.k.owed| ensures c !in t.k.owed[q] {
        assert StageOk(t, q, c, lockOf);
      }
      assert StageOk(t, t.pid, c, lockOf);
    }
  }
}
