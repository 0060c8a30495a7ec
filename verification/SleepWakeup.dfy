/** sleep and wakeup as interleaved steps of any number of processes (system/core/proc.c).  The condition a
    channel stands for is tested and changed only under the spin lock that goes with the channel; sleep
    takes ptable.lock before it lets that lock go, and wakeup scans the process table under ptable.lock. */
module SleepWakeup {
  /** Where a process is; locks and channels are numbers, `c` is the channel concerned. */
  datatype Where =
    | Running
    | SleepWants(c: nat)      // sleep: holds the channel's lock, wants ptable.lock
    | SleepHasBoth(c: nat)    // sleep: holds both
    | SleepHasTable(c: nat)   // sleep: has released the channel's lock
    | Asleep(c: nat)          // state SLEEPING
    | Runnable(c: nat)        // woken, not yet scheduled
    | Resumed(c: nat)         // scheduled, holding ptable.lock from the scheduler
    | WantsBack(c: nat)       // sleep: wants the channel's lock again
    | WakeWants(c: nat)       // wakeup: wants ptable.lock
    | WakeScans(c: nat)       // wakeup: holds ptable.lock

  datatype Holder = Nobody | Proc(p: nat)

  /** `held` gives the holder of each spin lock that is not free; `ready` are the channels whose condition
      holds; `owed[p]` those whose condition p has made true without completing a wakeup on them since. */
  datatype State = State(at: seq<Where>, table: Holder, held: map<nat, nat>, ready: set<nat>, owed: seq<set<nat>>)

  datatype Action =
    | Acquire(p: nat, l: nat)
    | Release(p: nat, l: nat)
    | Change(p: nat, ready: set<nat>)   // the conditions under locks that p holds become what they become
    | Sleep(p: nat, c: nat)             // the condition was tested and found false
    | TakeTable(p: nat)                 // sleep or wakeup acquires ptable.lock
    | LetGo(p: nat)                     // sleep releases the channel's lock
    | Doze(p: nat)                      // sleep sets SLEEPING and enters the scheduler
    | Schedule(p: nat)
    | Tidy(p: nat)                      // sleep releases ptable.lock
    | Wakeup(p: nat, c: nat)
    | Scan(p: nat)                      // wakeup1, then ptable.lock is released
    | Kill(p: nat)                      // kill makes p runnable

  predicate Has(s: State, p: nat, l: nat) {
    l in s.held && s.held[l] == p
  }

  predicate Enabled(s: State, a: Action, lockOf: nat -> nat) {
    && |s.owed| == |s.at| && a.p < |s.at|
    && var w := s.at[a.p];
       match a
       case Acquire(p, l) => l !in s.held && (w.Running? || (w.WantsBack? && l == lockOf(w.c)))
       case Release(p, l) => w.Running? && Has(s, p, l)
       case Change(p, ready) => w.Running? && forall c | c in s.ready + ready ::
         Has(s, p, lockOf(c)) || (c in s.ready && c in ready)
       case Sleep(p, c) => w.Running? && c !in s.ready && Has(s, p, lockOf(c)) && forall l | l in s.held ::
         s.held[l] == p ==> l == lockOf(c)
       case TakeTable(_) => s.table == Nobody && (w.SleepWants? || w.WakeWants?)
       case LetGo(_) => w.SleepHasBoth?
       case Doze(_) => w.SleepHasTable?
       case Schedule(_) => s.table == Nobody && w.Runnable?
       case Tidy(_) => w.Resumed?
       case Wakeup(_, c) => w.Running?
       case Scan(_) => w.WakeScans?
       case Kill(_) => s.table == Nobody && w.Asleep?
  }

  /** wakeup1: every process asleep on the channel becomes runnable. */
  function WakeAll(at: seq<Where>, c: nat): (r: seq<Where>)
    ensures |r| == |at|
    ensures forall q :: 0 <= q < |at| ==> r[q] == if at[q] == Asleep(c) then Runnable(c) else at[q]
  {
    seq(|at|, q requires 0 <= q < |at| => if at[q] == Asleep(c) then Runnable(c) else at[q])
  }

  function Step(s: State, a: Action, lockOf: nat -> nat): State
    requires Enabled(s, a, lockOf)
  {
    var p, w := a.p, s.at[a.p];
    match a
    case Acquire(_, l) => s.(at := s.at[p := Running], held := s.held[l := p])
    case Release(_, l) => s.(held := s.held - {l})
    case Change(_, ready) => s.(ready := ready, owed := s.owed[p := s.owed[p] + (ready - s.ready)])
    case Sleep(_, c) => s.(at := s.at[p := SleepWants(c)])
    case TakeTable(_) => s.(at := s.at[p := if w.SleepWants? then SleepHasBoth(w.c) else WakeScans(w.c)],
      table := Proc(p))
    case LetGo(_) => s.(at := s.at[p := SleepHasTable(w.c)], held := s.held - {lockOf(w.c)})
    case Doze(_) => s.(at := s.at[p := Asleep(w.c)], table := Nobody)
    case Schedule(_) => s.(at := s.at[p := Resumed(w.c)], table := Proc(p))
    case Tidy(_) => s.(at := s.at[p := WantsBack(w.c)], table := Nobody)
    case Wakeup(_, c) => s.(at := s.at[p := WakeWants(c)])
    case Scan(_) => s.(at := WakeAll(s.at, w.c)[p := Running], table := Nobody, owed := s.owed[p := s.owed[p] - {w.c}])
    case Kill(_) => s.(at := s.at[p := Runnable(w.c)])
  }

  /** A sleeper stays asleep until a wakeup on its own channel or a kill; then it has still to take its lock again. */
  lemma WokenWithCause(s: State, a: Action, lockOf: nat -> nat, q: nat)
    requires Enabled(s, a, lockOf) && q < |s.at| && s.at[q].Asleep?
    ensures var t := Step(s, a, lockOf);
            && (t.at[q] == s.at[q] || t.at[q] == Runnable(s.at[q].c))
            && (t.at[q] != s.at[q] <==> (a.Scan? && s.at[a.p] == WakeScans(s.at[q].c)) || a == Kill(q))
  {
  }

  // ---- the invariant ----

  predicate HasTable(w: Where) {
    w.SleepHasBoth? || w.SleepHasTable? || w.Resumed? || w.WakeScans?
  }

  /** Somewhere inside sleep. */
  predicate Sleeps(w: Where) {
    !w.Running? && !w.WakeWants? && !w.WakeScans?
  }

  /** Somebody has yet to complete a wakeup on c. */
  ghost predicate Owed(s: State, c: nat) {
    exists q :: 0 <= q < |s.owed| && c in s.owed[q]
  }

  ghost predicate ProcOk(s: State, p: nat, lockOf: nat -> nat)
    requires p < |s.at|
  {
    var w := s.at[p];
    && (HasTable(w) ==> s.table == Proc(p))
    && (w.SleepWants? || w.SleepHasBoth? ==> w.c !in s.ready && Has(s, p, lockOf(w.c)))
    && ((w.SleepHasTable? || w.Asleep?) && w.c in s.ready ==> Owed(s, w.c))
  }

  ghost predicate Inv(s: State, lockOf: nat -> nat) {
    |s.owed| == |s.at| && forall p: nat :: p < |s.at| ==> ProcOk(s, p, lockOf)
  }

  lemma OwedKept(s: State, s': State, c: nat)
    requires |s'.owed| == |s.owed| && forall q :: 0 <= q < |s.owed| && c in s.owed[q] ==> c in s'.owed[q]
    ensures Owed(s, c) ==> Owed(s', c)
  {
  }

  lemma StepInv(s: State, a: Action, lockOf: nat -> nat)
    requires Inv(s, lockOf) && Enabled(s, a, lockOf)
    ensures Inv(Step(s, a, lockOf), lockOf)
  {
    var s' := Step(s, a, lockOf);
    assert ProcOk(s, a.p, lockOf);
    forall p: nat | p < |s'.at| ensures ProcOk(s', p, lockOf) {
      assert ProcOk(s, p, lockOf);
      var w' := s'.at[p];
      if (w'.SleepHasTable? || w'.Asleep?) && w'.c in s'.ready {
        assert a.Change? && w'.c !in s.ready ==> w'.c in s'.owed[a.p];
        OwedKept(s, s', w'.c);
      }
    }
  }

  /** What a step of one process leaves of another's state. */
  lemma StepFrame(s: State, a: Action, lockOf: nat -> nat, q: nat, l: nat)
    requires Inv(s, lockOf) && Enabled(s, a, lockOf) && q < |s.at| && q != a.p
    ensures var s' := Step(s, a, lockOf);
      && |s'.at| == |s.at| && |s'.owed| == |s.owed| && s'.owed[q] == s.owed[q]
      && (s'.at[q] == s.at[q] || (a.Scan? && s.at[q] == Asleep(s.at[a.p].c) && s'.at[q] == Runnable(s.at[a.p].c)))
      && (Has(s', q, l) <==> Has(s, q, l))
  {
    assert ProcOk(s, a.p, lockOf);
  }

  // ---- whole runs ----

  predicate IsRun(s: State, run: seq<Action>, lockOf: nat -> nat)
    decreases |run|
  {
    run == [] || (Enabled(s, run[0], lockOf) && IsRun(Step(s, run[0], lockOf), run[1..], lockOf))
  }

  function Run(s: State, run: seq<Action>, lockOf: nat -> nat): State
    requires IsRun(s, run, lockOf)
    decreases |run|
  {
    if run == [] then s else Run(Step(s, run[0], lockOf), run[1..], lockOf)
  }

  predicate Initial(s: State) {
    |s.owed| == |s.at| && s.table == Nobody && s.held == map[] && forall p :: 0 <= p < |s.at| ==> s.at[p] == Running
  }

  lemma {:induction false} RunInv(s: State, run: seq<Action>, lockOf: nat -> nat)
    requires Inv(s, lockOf) && IsRun(s, run, lockOf)
    ensures Inv(Run(s, run, lockOf), lockOf)
    decreases |run|
  {
    if run != [] {
      StepInv(s, run[0], lockOf);
      RunInv(Step(s, run[0], lockOf), run[1..], lockOf);
    }
  }

  /** Over every run of any number of processes: nobody is left asleep on a channel whose condition holds
      unless a process that made it true has still to finish its wakeup on that channel. */
  lemma NoLostWakeup(s: State, run: seq<Action>, lockOf: nat -> nat, p: nat)
    requires Initial(s) && IsRun(s, run, lockOf)
    ensures var t := Run(s, run, lockOf);
      p < |t.at| && t.at[p].Asleep? && t.at[p].c in t.ready ==> exists q :: 0 <= q < |t.owed| && t.at[p].c in t.owed[q]
  {
    RunInv(s, run, lockOf);
    var t := Run(s, run, lockOf);
    if p < |t.at| {
      assert ProcOk(t, p, lockOf);
    }
  }
}
