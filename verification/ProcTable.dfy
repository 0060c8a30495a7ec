/** The process table's life cycle (system/core/proc.c): fork, exit and wait as interleaved steps of any
    number of processes.  A step is what happens under one hold of ptable.lock, or what fork does to the
    EMBRYO slot it owns.  Kernel stacks and page directories are numbered; `used` says what each is for. */
module ProcTable {
  datatype Option<T> = None | Some(value: T)

  datatype Life = Unused | Embryo | Sleeping | Runnable | Running | Zombie

  datatype Chan = NoChan | OnSelf(p: nat) | OnOther(c: nat)

  datatype Proc = Proc(life: Life, chan: Chan, parent: Option<nat>, kstack: nat, pgdir: nat, killed: bool)

  /** What a process is in the middle of; a slot that fork is filling records by whom. */
  datatype Doing = Idle | Forking(child: nat, stage: nat) | Waiting | Born(maker: nat)

  datatype Purpose = Stack(p: nat) | Dir(p: nat)

  datatype Sys = Sys(ps: seq<Proc>, doing: seq<Doing>, used: map<nat, Purpose>, init: nat)

  datatype Action =
    | Alloc(p: nat)               // allocproc takes the first UNUSED slot
    | StackFails(p: nat)
    | GetStack(p: nat, f: nat)
    | CopyFails(p: nat)
    | Copy(p: nat, f: nat)        // copyuvm; the child gets its directory and its parent
    | Birth(p: nat)               // the child becomes RUNNABLE
    | Exit(p: nat)
    | Wait(p: nat)                // one scan of wait's loop
    | Exec(p: nat, f: nat)        // a new directory replaces the old one, which is freed
    | Schedule(p: nat)
    | Yield(p: nat)
    | SleepOn(p: nat, c: nat)     // sleep on something other than the process itself
    | WakeOther(p: nat, c: nat)
    | Kill(p: nat, victim: nat)

  predicate Alive(l: Life) {
    l.Sleeping? || l.Runnable? || l.Running?
  }

  // ---- scans of the table ----

  /** wakeup1 */
  function Woken(x: Proc, c: Chan): Proc {
    if x.life.Sleeping? && x.chan == c then x.(life := Runnable) else x
  }

  function WakeAll(ps: seq<Proc>, c: Chan): (r: seq<Proc>)
    ensures |r| == |ps| && forall i :: 0 <= i < |ps| ==> r[i] == Woken(ps[i], c)
  {
    seq(|ps|, i requires 0 <= i < |ps| => Woken(ps[i], c))
  }

  predicate ChildOf(x: Proc, p: nat) {
    x.parent == Some(p)
  }

  /** The first slot from i on that is UNUSED, or |ps|. */
  function FirstUnused(ps: seq<Proc>, i: nat): (r: nat)
    requires i <= |ps|
    ensures i <= r <= |ps| && (r < |ps| ==> ps[r].life.Unused?)
    ensures forall k :: i <= k < r ==> !ps[k].life.Unused?
    decreases |ps| - i
  {
    if i == |ps| || ps[i].life.Unused? then i else FirstUnused(ps, i + 1)
  }

  /** The first ZOMBIE child of p from slot i on, or |ps|. */
  function FirstZombie(ps: seq<Proc>, p: nat, i: nat): (r: nat)
    requires i <= |ps|
    ensures i <= r <= |ps| && (r < |ps| ==> ChildOf(ps[r], p) && ps[r].life.Zombie?)
    ensures forall k :: i <= k < r ==> !(ChildOf(ps[k], p) && ps[k].life.Zombie?)
    decreases |ps| - i
  {
    if i == |ps| || (ChildOf(ps[i], p) && ps[i].life.Zombie?) then i else FirstZombie(ps, p, i + 1)
  }

  predicate HasKids(ps: seq<Proc>, p: nat) {
    exists k :: 0 <= k < |ps| && ChildOf(ps[k], p)
  }

  /** What exit's loop makes of a slot: children go to init; and in the end p is a ZOMBIE. */
  function PassedOn(x: Proc, p: nat, init: nat): Proc {
    if ChildOf(x, p) then x.(parent := Some(init)) else x
  }

  /** The table after exit by p: the parent is woken, and so is init if it has been given a zombie. */
  function Exited(ps: seq<Proc>, p: nat, init: nat): (r: seq<Proc>)
    requires p < |ps| && ps[p].parent.Some?
    ensures |r| == |ps|
  {
    var woken := WakeAll(ps, OnSelf(ps[p].parent.value));
    var all := if FirstZombie(ps, p, 0) < |ps| then WakeAll(woken, OnSelf(init)) else woken;
    seq(|ps|, i requires 0 <= i < |ps| => PassedOn(all[i], p, init))[p := PassedOn(all[p], p, init).(life := Zombie)]
  }

  /** wait's clearing of a zombie's slot; the directory's number stays behind. */
  function Reaped(x: Proc): Proc {
    x.(life := Unused, parent := None, kstack := 0, killed := false)
  }

  // ---- the steps ----

  predicate Enabled(s: Sys, a: Action) {
    && |s.doing| == |s.ps| && a.p < |s.ps|
    && var x, d := s.ps[a.p], s.doing[a.p];
       match a
       case Alloc(p) => x.life.Running? && d.Idle? && FirstUnused(s.ps, 0) < |s.ps|
       case StackFails(p) => x.life.Running? && d.Forking? && d.stage == 1 && d.child < |s.ps|
       case GetStack(p, f) => x.life.Running? && d.Forking? && d.stage == 1 && d.child < |s.ps| && f !in s.used &&
         f != 0
       case CopyFails(p) => x.life.Running? && d.Forking? && d.stage == 2 && d.child < |s.ps|
       case Copy(p, f) => x.life.Running? && d.Forking? && d.stage == 2 && d.child < |s.ps| && f !in s.used && f != 0
       case Birth(p) => x.life.Running? && d.Forking? && d.stage == 3 && d.child < |s.ps|
       case Exit(p) => x.life.Running? && d.Idle? && p != s.init && x.parent.Some?
       case Wait(p) => x.life.Running? && (d.Idle? || d.Waiting?)
       case Exec(p, f) => x.life.Running? && d.Idle? && f !in s.used && f != 0
       case Schedule(p) => x.life.Runnable?
       case Yield(p) => x.life.Running?
       case SleepOn(p, c) => x.life.Running? && !d.Waiting?
       case WakeOther(p, c) => x.life.Running?
       case Kill(p, v) => x.life.Running? && v < |s.ps|
  }

  function Scan(s: Sys, p: nat): Sys
    requires |s.doing| == |s.ps| && p < |s.ps|
  {
    var z := FirstZombie(s.ps, p, 0);
    if z < |s.ps| then
      s.(ps := s.ps[z := Reaped(s.ps[z])], doing := s.doing[p := Idle],
         used := s.used - {s.ps[z].kstack, s.ps[z].pgdir})
    else if !HasKids(s.ps, p) || s.ps[p].killed then
      s.(doing := s.doing[p := Idle])
    else
      s.(ps := s.ps[p := s.ps[p].(life := Sleeping, chan := OnSelf(p))], doing := s.doing[p := Waiting])
  }

  function Step(s: Sys, a: Action): Sys
    requires Enabled(s, a)
  {
    var p, x, d := a.p, s.ps[a.p], s.doing[a.p];
    match a
    case Alloc(_) =>
      var i := FirstUnused(s.ps, 0);
      s.(ps := s.ps[i := s.ps[i].(life := Embryo)], doing := s.doing[p := Forking(i, 1)][i := Born(p)])
    case StackFails(_) =>
      s.(ps := s.ps[d.child := s.ps[d.child].(life := Unused, kstack := 0)],
         doing := s.doing[p := Idle][d.child := Idle])
    case GetStack(_, f) =>
      s.(ps := s.ps[d.child := s.ps[d.child].(kstack := f)], doing := s.doing[p := Forking(d.child, 2)],
         used := s.used[f := Stack(d.child)])
    case CopyFails(_) =>
      s.(ps := s.ps[d.child := s.ps[d.child].(life := Unused, kstack := 0)],
         doing := s.doing[p := Idle][d.child := Idle],
         used := s.used - {s.ps[d.child].kstack})
    case Copy(_, f) =>
      s.(ps := s.ps[d.child := s.ps[d.child].(pgdir := f, parent := Some(p))],
         doing := s.doing[p := Forking(d.child, 3)], used := s.used[f := Dir(d.child)])
    case Birth(_) =>
      s.(ps := s.ps[d.child := s.ps[d.child].(life := Runnable)], doing := s.doing[p := Idle][d.child := Idle])
    case Exit(_) => s.(ps := Exited(s.ps, p, s.init))
    case Wait(_) => Scan(s, p)
    case Exec(_, f) => s.(ps := s.ps[p := x.(pgdir := f)], used := (s.used - {x.pgdir})[f := Dir(p)])
    case Schedule(_) => s.(ps := s.ps[p := x.(life := Running, chan := NoChan)])
    case Yield(_) => s.(ps := s.ps[p := x.(life := Runnable)])
    case SleepOn(_, c) => s.(ps := s.ps[p := x.(life := Sleeping, chan := OnOther(c))])
    case WakeOther(_, c) => s.(ps := WakeAll(s.ps, OnOther(c)))
    case Kill(_, v) =>
      s.(ps := s.ps[v := s.ps[v].(killed := true, life := if s.ps[v].life.Sleeping? then Runnable else s.ps[v].life)])
  }

  lemma ExitWakes(ps: seq<Proc>, p: nat, init: nat, i: nat)
    requires p < |ps| && i < |ps| && ps[p].parent.Some? && i != p && ps[i].life.Sleeping?
    ensures var x, y := ps[i], Exited(ps, p, init)[i];
            && y == x.(life := y.life, parent := y.parent) && (y.life.Sleeping? || y.life.Runnable?)
            && (y.life.Runnable? <==>
                  x.chan == OnSelf(ps[p].parent.value) || (x.chan == OnSelf(init) && !NoZombieKid(ps, p)))
  {
    var woken := WakeAll(ps, OnSelf(ps[p].parent.value));
    assert woken[i] == Woken(ps[i], OnSelf(ps[p].parent.value));
    var all := if FirstZombie(ps, p, 0) < |ps| then WakeAll(woken, OnSelf(init)) else woken;
    assert all[i] == if FirstZombie(ps, p, 0) < |ps| then Woken(woken[i], OnSelf(init)) else woken[i];
    assert Exited(ps, p, init)[i] == PassedOn(all[i], p, init);
  }

  /** A process becomes marked as killed by kill, which names it, and the mark goes with its slot. */
  lemma KillMarks(s: Sys, a: Action, i: nat)
    requires Enabled(s, a) && i < |s.ps|
    ensures var x, y := s.ps[i], Step(s, a).ps[i];
            && (y.killed && !x.killed ==> a.Kill? && a.victim == i)
            && (x.killed && !y.killed ==> a.Wait? && x.life.Zombie? && ChildOf(x, a.p) && y.life.Unused?)
            && (a.Kill? && a.victim == i ==> y.killed && !y.life.Sleeping?)
  {
    if a.Exit? {
      ExitedAt(s.ps, a.p, s.init, i);
    } else if a.WakeOther? {
      assert Step(s, a).ps[i] == Woken(s.ps[i], OnOther(a.c));
    }
  }

  /** wait: a zombie child, the lowest, is cleared; otherwise a process that has children and is not killed goes to
      sleep on itself, and any other returns.  No other slot changes. */
  lemma WaitOutcome(s: Sys, p: nat)
    requires Enabled(s, Wait(p))
    ensures var t := Step(s, Wait(p));
            && |t.ps| == |s.ps| && |t.doing| == |s.doing|
            && (NoZombieKid(s.ps, p) ==>
                  && t.used == s.used && (forall i :: 0 <= i < |s.ps| && i != p ==> t.ps[i] == s.ps[i])
                  && if HasKids(s.ps, p) && !s.ps[p].killed
                     then t.ps[p] == s.ps[p].(life := Sleeping, chan := OnSelf(p)) && t.doing[p] == Waiting
                     else t.ps[p] == s.ps[p] && t.doing[p] == Idle)
            && (!NoZombieKid(s.ps, p) ==> t.doing[p] == Idle && exists z :: 0 <= z < |s.ps| && Reaps(s, t, p, z))
  {
    var z := FirstZombie(s.ps, p, 0);
    if z < |s.ps| {
      assert Reaps(s, Step(s, Wait(p)), p, z);
    }
  }

  /** Slot z was the first zombie child of p, and is UNUSED now, without parent, stack and kill mark. */
  ghost predicate Reaps(s: Sys, t: Sys, p: nat, z: nat)
    requires z < |s.ps| == |t.ps|
  {
    && ChildOf(s.ps[z], p) && s.ps[z].life.Zombie?
    && (forall k :: 0 <= k < z && ChildOf(s.ps[k], p) ==> !s.ps[k].life.Zombie?)
    && t.ps[z].life.Unused? && t.ps[z].parent == None && t.ps[z].kstack == 0 && !t.ps[z].killed
    && (forall i :: 0 <= i < |s.ps| && i != z ==> t.ps[i] == s.ps[i])
    && t.used == s.used - {s.ps[z].kstack, s.ps[z].pgdir}
  }

  // ---- the invariant ----

  predicate NoZombieKid(ps: seq<Proc>, p: nat) {
    forall k :: 0 <= k < |ps| && ChildOf(ps[k], p) ==> !ps[k].life.Zombie?
  }

  predicate HasDir(x: Proc) {
    Alive(x.life) || x.life.Zombie? || (x.life.Embryo? && x.parent.Some?)
  }

  ghost predicate ParentOk(s: Sys, i: nat)
    requires i < |s.ps|
  {
    var x := s.ps[i];
    if i == s.init then x.parent == None && Alive(x.life)
    else if Alive(x.life) || x.life.Zombie? then x.parent.Some? && x.parent.value < |s.ps| && x.parent.value != i &&
        Alive(s.ps[x.parent.value].life)
    else x.life.Unused? ==> x.parent == None
  }

  /** What the slot is in the middle of fits its state. */
  ghost predicate DoingOk(s: Sys, i: nat)
    requires |s.doing| == |s.ps| && i < |s.ps|
  {
    var x := s.ps[i];
    match s.doing[i]
    case Idle => !x.life.Embryo? && (x.life.Sleeping? ==> !x.chan.OnSelf?)
    case Waiting => Alive(x.life) &&
      (x.life.Sleeping? ==> x.chan == OnSelf(i) && NoZombieKid(s.ps, i) && HasKids(s.ps, i))
    case Forking(k, stage) =>
      && Alive(x.life) && (x.life.Sleeping? ==> !x.chan.OnSelf?) && k < |s.ps| && s.ps[k].life.Embryo? &&
           s.doing[k] == Born(i)
      && 1 <= stage <= 3 && (stage == 1 <==> s.ps[k].kstack == 0) &&
           s.ps[k].parent == (if stage == 3 then Some(i) else None)
    case Born(p) => x.life.Embryo? && p < |s.ps| && s.doing[p].Forking? && s.doing[p].child == i
  }

  ghost predicate UseOk(s: Sys, i: nat)
    requires i < |s.ps|
  {
    var x := s.ps[i];
    && (x.kstack != 0 ==> x.kstack in s.used && s.used[x.kstack] == Stack(i))
    && (HasDir(x) ==> x.kstack != 0 && x.pgdir in s.used && s.used[x.pgdir] == Dir(i))
    && (x.life.Unused? ==> x.kstack == 0)
  }

  /** Whatever is in use is somebody's stack or directory. */
  ghost predicate OwnerOk(s: Sys, f: nat)
    requires f in s.used
  {
    match s.used[f]
    case Stack(i) => f != 0 && i < |s.ps| && s.ps[i].kstack == f
    case Dir(i) => f != 0 && i < |s.ps| && HasDir(s.ps[i]) && s.ps[i].pgdir == f
  }

  ghost predicate Inv(s: Sys) {
    && |s.doing| == |s.ps| && s.init < |s.ps|
    && (forall i: nat :: i < |s.ps| ==> ParentOk(s, i))
    && (forall i: nat :: i < |s.ps| ==> DoingOk(s, i))
    && (forall i: nat :: i < |s.ps| ==> UseOk(s, i))
    && forall f: nat {:trigger OwnerOk(s, f)} :: f in s.used ==> OwnerOk(s, f)
  }

  // ---- every step keeps it ----

  predicate ByForker(a: Action) {
    a.Alloc? || a.StackFails? || a.GetStack? || a.CopyFails? || a.Copy? || a.Birth?
  }

  predicate Local(a: Action) {
    a.Schedule? || a.Yield? || a.SleepOn? || a.WakeOther? || a.Kill?
  }

  lemma ForkParent(s: Sys, a: Action, i: nat)
    requires Inv(s) && Enabled(s, a) && ByForker(a) && i < |s.ps|
    ensures ParentOk(Step(s, a), i)
  {
    assert ParentOk(s, i) && DoingOk(s, a.p) && ParentOk(s, a.p);
  }

  /** A waiter's children stay its children, and none of them turns into a zombie. */
  lemma KidsKept(ps: seq<Proc>, ps': seq<Proc>, i: nat)
    requires |ps'| == |ps|
    requires forall k :: 0 <= k < |ps| ==>
               (ChildOf(ps[k], i) ==> ChildOf(ps'[k], i)) && (ps'[k].life.Zombie? ==> ps[k].life.Zombie?)
    requires forall k :: 0 <= k < |ps| ==> ChildOf(ps'[k], i) ==> ChildOf(ps[k], i) || !ps'[k].life.Zombie?
    ensures HasKids(ps, i) ==> HasKids(ps', i)
    ensures NoZombieKid(ps, i) ==> NoZombieKid(ps', i)
  {
  }

  lemma ForkDoing(s: Sys, a: Action, i: nat)
    requires Inv(s) && Enabled(s, a) && ByForker(a) && i < |s.ps| && !s.doing[i].Waiting?
    ensures DoingOk(Step(s, a), i)
  {
    assert DoingOk(s, i) && DoingOk(s, a.p);
    if a.Alloc? {
      var k := FirstUnused(s.ps, 0);
      assert UseOk(s, k) && ParentOk(s, k) && DoingOk(s, k);
    }
  }

  lemma ForkWaiting(s: Sys, a: Action, i: nat)
    requires Inv(s) && Enabled(s, a) && ByForker(a) && i < |s.ps| && s.doing[i].Waiting?
    ensures DoingOk(Step(s, a), i)
  {
    assert DoingOk(s, i) && DoingOk(s, a.p);
    KidsKept(s.ps, Step(s, a).ps, i);
  }

  lemma ForkUse(s: Sys, a: Action, i: nat)
    requires Inv(s) && Enabled(s, a) && ByForker(a) && i < |s.ps|
    ensures UseOk(Step(s, a), i)
  {
    assert UseOk(s, i) && DoingOk(s, a.p) && ParentOk(s, i);
    assert s.doing[a.p].Forking? ==> UseOk(s, s.doing[a.p].child);
  }

  lemma ForkOwner(s: Sys, a: Action, f: nat)
    requires Inv(s) && Enabled(s, a) && ByForker(a) && f in Step(s, a).used
    ensures OwnerOk(Step(s, a), f)
  {
    assert f in s.used ==> OwnerOk(s, f);
    assert DoingOk(s, a.p);
  }

  lemma LocalDoing(s: Sys, a: Action, i: nat)
    requires Inv(s) && Enabled(s, a) && Local(a) && i < |s.ps|
    ensures DoingOk(Step(s, a), i)
  {
    assert DoingOk(s, i);
    KidsKept(s.ps, Step(s, a).ps, i);
  }

  lemma LocalRest(s: Sys, a: Action, i: nat)
    requires Inv(s) && Enabled(s, a) && Local(a) && i < |s.ps|
    ensures ParentOk(Step(s, a), i) && UseOk(Step(s, a), i)
  {
    assert ParentOk(s, i) && UseOk(s, i);
  }

  lemma LocalOwner(s: Sys, a: Action, f: nat)
    requires Inv(s) && Enabled(s, a) && Local(a) && f in s.used
    ensures OwnerOk(Step(s, a), f)
  {
    assert OwnerOk(s, f);
  }

  /** exit, slot by slot. */
  lemma ExitedAt(ps: seq<Proc>, p: nat, init: nat, i: nat)
    requires p < |ps| && i < |ps| && ps[p].parent.Some?
    ensures var x, y := ps[i], Exited(ps, p, init)[i];
      && y == x.(life := y.life, parent := if x.parent == Some(p) then Some(init) else x.parent)
      && (if i == p then y.life.Zombie? else y.life == x.life || (x.life.Sleeping? && y.life.Runnable?))
      && (i != p && y.life.Sleeping? ==>
           x.chan != OnSelf(ps[p].parent.value) && (x.chan == OnSelf(init) ==> NoZombieKid(ps, p)))
  {
    var woken := WakeAll(ps, OnSelf(ps[p].parent.value));
    assert woken[i] == Woken(ps[i], OnSelf(ps[p].parent.value));
    var all := if FirstZombie(ps, p, 0) < |ps| then WakeAll(woken, OnSelf(init)) else woken;
    assert all[i] == if FirstZombie(ps, p, 0) < |ps| then Woken(woken[i], OnSelf(init)) else woken[i];
    assert i != p ==> Exited(ps, p, init)[i] == PassedOn(all[i], p, init);
  }

  lemma ExitRest(s: Sys, a: Action, i: nat)
    requires Inv(s) && Enabled(s, a) && a.Exit? && i < |s.ps|
    ensures ParentOk(Step(s, a), i) && UseOk(Step(s, a), i)
  {
    assert ParentOk(s, i) && UseOk(s, i) && ParentOk(s, a.p) && ParentOk(s, s.init) && UseOk(s, a.p);
    ExitedAt(s.ps, a.p, s.init, i);
    ExitedAt(s.ps, a.p, s.init, s.init);
    if s.ps[i].parent.Some? && s.ps[i].parent.value < |s.ps| {
      ExitedAt(s.ps, a.p, s.init, s.ps[i].parent.value);
    }
  }

  lemma ExitDoing(s: Sys, a: Action, i: nat)
    requires Inv(s) && Enabled(s, a) && a.Exit? && i < |s.ps|
    ensures DoingOk(Step(s, a), i)
  {
    assert DoingOk(s, i) && DoingOk(s, a.p);
    ExitedAt(s.ps, a.p, s.init, i);
    match s.doing[i] {
      case Forking(k, _) =>
        assert DoingOk(s, k);
        ExitedAt(s.ps, a.p, s.init, k);
      case Waiting => ExitWaiting(s, a.p, i);
      case _ =>
    }
  }

  /** A process still asleep in wait after p's exit is neither p's parent nor an init that got a zombie. */
  lemma ExitWaiting(s: Sys, p: nat, i: nat)
    requires Inv(s) && Enabled(s, Exit(p)) && i < |s.ps| && s.doing[i].Waiting? && i != p
    ensures var ps' := Exited(s.ps, p, s.init); ps'[i].life.Sleeping? ==> NoZombieKid(ps', i) && HasKids(ps', i)
  {
    assert DoingOk(s, i) && ParentOk(s, p);
    var ps' := Exited(s.ps, p, s.init);
    ExitedAt(s.ps, p, s.init, i);
    if ps'[i].life.Sleeping? {
      forall k | 0 <= k < |ps'| && ChildOf(ps'[k], i) ensures !ps'[k].life.Zombie? {
        ExitedAt(s.ps, p, s.init, k);
      }
      var k :| 0 <= k < |s.ps| && ChildOf(s.ps[k], i);
      ExitedAt(s.ps, p, s.init, k);
      assert ChildOf(ps'[k], i);
    }
  }

  lemma ExitOwner(s: Sys, a: Action, f: nat)
    requires Inv(s) && Enabled(s, a) && a.Exit? && f in s.used
    ensures OwnerOk(Step(s, a), f)
  {
    assert OwnerOk(s, f);
    ExitedAt(s.ps, a.p, s.init, s.used[f].p);
  }

  lemma ExecKept(s: Sys, a: Action, i: nat)
    requires Inv(s) && Enabled(s, a) && a.Exec? && i < |s.ps|
    ensures ParentOk(Step(s, a), i) && UseOk(Step(s, a), i) && DoingOk(Step(s, a), i)
  {
    assert ParentOk(s, i) && UseOk(s, i) && UseOk(s, a.p) && DoingOk(s, i);
    KidsKept(s.ps, Step(s, a).ps, i);
  }

  lemma WaitParent(s: Sys, a: Action, i: nat)
    requires Inv(s) && Enabled(s, a) && a.Wait? && i < |s.ps|
    ensures ParentOk(Step(s, a), i)
  {
    assert ParentOk(s, i);
    var z := FirstZombie(s.ps, a.p, 0);
    assert z < |s.ps| ==> ParentOk(s, z);
  }

  lemma WaitUse(s: Sys, a: Action, i: nat)
    requires Inv(s) && Enabled(s, a) && a.Wait? && i < |s.ps|
    ensures UseOk(Step(s, a), i)
  {
    assert UseOk(s, i);
    var z := FirstZombie(s.ps, a.p, 0);
    assert z < |s.ps| ==> UseOk(s, z);
  }

  lemma ReapDoing(s: Sys, a: Action, i: nat)
    requires Inv(s) && Enabled(s, a) && a.Wait? && i < |s.ps| && FirstZombie(s.ps, a.p, 0) < |s.ps|
    ensures DoingOk(Step(s, a), i)
  {
    assert DoingOk(s, i) && DoingOk(s, a.p) && DoingOk(s, FirstZombie(s.ps, a.p, 0));
    if i != a.p {
      KidsKept(s.ps, Step(s, a).ps, i);
    }
  }

  lemma NoReapOther(s: Sys, a: Action, i: nat)
    requires Inv(s) && Enabled(s, a) && a.Wait? && i < |s.ps| && i != a.p && FirstZombie(s.ps, a.p, 0) == |s.ps|
    ensures DoingOk(Step(s, a), i)
  {
    ScanOther(s, a.p, i);
  }

  lemma ScanOther(s: Sys, p: nat, i: nat)
    requires |s.doing| == |s.ps| && p < |s.ps| && i < |s.ps| && i != p && DoingOk(s, i) && DoingOk(s, p)
    requires s.ps[p].life.Running? && (s.doing[p].Idle? || s.doing[p].Waiting?) && FirstZombie(s.ps, p, 0) == |s.ps|
    ensures DoingOk(Scan(s, p), i)
  {
    DozesKids(s.ps, p, i);
  }

  lemma DozesKids(ps: seq<Proc>, p: nat, i: nat)
    requires p < |ps|
    ensures var ps' := ps[p := ps[p].(life := Sleeping, chan := OnSelf(p))];
            (HasKids(ps, i) ==> HasKids(ps', i)) && (NoZombieKid(ps, i) ==> NoZombieKid(ps', i))
  {
    KidsKept(ps, ps[p := ps[p].(life := Sleeping, chan := OnSelf(p))], i);
  }

  lemma NoReapSelf(s: Sys, a: Action)
    requires Inv(s) && Enabled(s, a) && a.Wait? && FirstZombie(s.ps, a.p, 0) == |s.ps|
    ensures DoingOk(Step(s, a), a.p)
  {
    assert DoingOk(s, a.p);
    KidsKept(s.ps, Step(s, a).ps, a.p);
  }

  lemma WaitOwner(s: Sys, a: Action, f: nat)
    requires Inv(s) && Enabled(s, a) && (a.Wait? || a.Exec?) && f in Step(s, a).used
    ensures OwnerOk(Step(s, a), f)
  {
    assert f in s.used ==> OwnerOk(s, f);
    var z := FirstZombie(s.ps, a.p, 0);
    assert z < |s.ps| ==> UseOk(s, z);
    assert UseOk(s, a.p);
  }

  lemma SlotKept(s: Sys, a: Action, i: nat)
    requires Inv(s) && Enabled(s, a) && i < |s.ps|
    ensures ParentOk(Step(s, a), i) && DoingOk(Step(s, a), i) && UseOk(Step(s, a), i)
  {
    if ByForker(a) {
      ForkParent(s, a, i);
      if s.doing[i].Waiting? { ForkWaiting(s, a, i); } else { ForkDoing(s, a, i); }
      ForkUse(s, a, i);
    } else if Local(a) {
      LocalRest(s, a, i);
      LocalDoing(s, a, i);
    } else if a.Exit? {
      ExitRest(s, a, i);
      ExitDoing(s, a, i);
    } else if a.Exec? {
      ExecKept(s, a, i);
    } else {
      WaitParent(s, a, i);
      if FirstZombie(s.ps, a.p, 0) < |s.ps| {
        ReapDoing(s, a, i);
      } else if i != a.p {
        NoReapOther(s, a, i);
      } else {
        NoReapSelf(s, a);
      }
      WaitUse(s, a, i);
    }
  }

  lemma OwnerKept(s: Sys, a: Action, f: nat)
    requires Inv(s) && Enabled(s, a) && f in Step(s, a).used
    ensures OwnerOk(Step(s, a), f)
  {
    if ByForker(a) {
      ForkOwner(s, a, f);
    } else if Local(a) {
      LocalOwner(s, a, f);
    } else if a.Exit? {
      ExitOwner(s, a, f);
    } else {
      WaitOwner(s, a, f);
    }
  }

  lemma StepInv(s: Sys, a: Action)
    requires Inv(s) && Enabled(s, a)
    ensures Inv(Step(s, a))
  {
    var t := Step(s, a);
    forall i: nat | i < |t.ps| ensures ParentOk(t, i) && DoingOk(t, i) && UseOk(t, i) {
      SlotKept(s, a, i);
    }
    forall f: nat | f in t.used ensures OwnerOk(t, f) {
      OwnerKept(s, a, f);
    }
  }

  // ---- whole runs ----

  predicate IsRun(s: Sys, run: seq<Action>)
    decreases |run|
  {
    run == [] || (Enabled(s, run[0]) && IsRun(Step(s, run[0]), run[1..]))
  }

  function Run(s: Sys, run: seq<Action>): Sys
    requires IsRun(s, run)
    decreases |run|
  {
    if run == [] then s else Run(Step(s, run[0]), run[1..])
  }

  /** After userinit: init alone, ready to run. */
  predicate Start(s: Sys) {
    && |s.doing| == |s.ps| && s.init < |s.ps|
    && s.ps[s.init].life.Runnable? && s.ps[s.init].parent == None && s.ps[s.init].kstack != 0
    && s.ps[s.init].pgdir != 0 && s.ps[s.init].kstack != s.ps[s.init].pgdir
    && s.used == map[s.ps[s.init].kstack := Stack(s.init), s.ps[s.init].pgdir := Dir(s.init)]
    && forall i :: 0 <= i < |s.ps| ==>
         s.doing[i].Idle? && (i == s.init || (s.ps[i].life.Unused? && s.ps[i].parent == None && s.ps[i].kstack == 0))
  }

  lemma {:induction false} RunInv(s: Sys, run: seq<Action>)
    requires Inv(s) && IsRun(s, run)
    ensures Inv(Run(s, run))
    decreases |run|
  {
    if run != [] {
      StepInv(s, run[0]);
      RunInv(Step(s, run[0]), run[1..]);
    }
  }

  /** In every reachable state a process past EMBRYO, other than init, has a living parent: never an UNUSED,
      EMBRYO or ZOMBIE one, so every zombie has somebody to reap it; and init is alive. */
  lemma EveryoneHasAParent(s: Sys, run: seq<Action>, i: nat)
    requires Start(s) && IsRun(s, run)
    ensures var t := Run(s, run);
      && t.init < |t.ps| && Alive(t.ps[t.init].life)
      && (i < |t.ps| && i != t.init && (Alive(t.ps[i].life) || t.ps[i].life.Zombie?) ==>
          t.ps[i].parent.Some? && t.ps[i].parent.value < |t.ps| && Alive(t.ps[t.ps[i].parent.value].life))
  {
    RunInv(s, run);
    var t := Run(s, run);
    assert ParentOk(t, t.init);
    assert i < |t.ps| ==> ParentOk(t, i);
  }

  /** In every reachable state a process asleep in wait has a child and no zombie child. */
  lemma NobodySleepsOnAZombie(s: Sys, run: seq<Action>, i: nat, k: nat)
    requires Start(s) && IsRun(s, run)
    ensures var t := Run(s, run);
      i < |t.ps| && t.ps[i].life.Sleeping? && t.ps[i].chan == OnSelf(i) ==>
        HasKids(t.ps, i) && (k < |t.ps| && ChildOf(t.ps[k], i) ==> !t.ps[k].life.Zombie?)
  {
    RunInv(s, run);
    var t := Run(s, run);
    assert i < |t.ps| ==> DoingOk(t, i);
  }

  /** The kernel stacks and page directories that a step gives back. */
  function Freed(s: Sys, a: Action): seq<nat>
    requires Enabled(s, a)
  {
    match a
    case CopyFails(p) => [s.ps[s.doing[p].child].kstack]
    case Exec(p, _) => [s.ps[p].pgdir]
    case Wait(p) =>
      var z := FirstZombie(s.ps, p, 0);
      if z < |s.ps| then [s.ps[z].kstack, s.ps[z].pgdir] else []
    case _ => []
  }

  lemma FreedInUse(t: Sys, a: Action)
    requires Inv(t) && Enabled(t, a)
    ensures var fs := Freed(t, a);
      && (forall f :: f in fs ==> f in t.used && f !in Step(t, a).used)
      && (|fs| == 2 ==> fs[0] != fs[1])
      && (forall f :: f in t.used && f !in fs ==> f in Step(t, a).used)
  {
    assert DoingOk(t, a.p) && UseOk(t, a.p);
    if a.CopyFails? {
      assert UseOk(t, t.doing[a.p].child);
    } else if a.Wait? && FirstZombie(t.ps, a.p, 0) < |t.ps| {
      assert UseOk(t, FirstZombie(t.ps, a.p, 0));
    }
  }

  /** Whatever a step of a reachable state frees is in use, is freed once, is nobody's afterwards, and is
      exactly what leaves use: nothing is freed twice and nothing leaks. */
  lemma FreedOnce(s: Sys, run: seq<Action>, a: Action)
    requires Start(s) && IsRun(s, run) && Enabled(Run(s, run), a)
    ensures var t := Run(s, run); var fs := Freed(t, a);
      && (forall f :: f in fs ==> f in t.used && f !in Step(t, a).used)
      && (|fs| == 2 ==> fs[0] != fs[1])
      && (forall f :: f in t.used && f !in fs ==> f in Step(t, a).used)
    ensures var t := Run(s, run);
      forall f, i: nat :: f in Freed(t, a) && i < |Step(t, a).ps| ==> !Refers(Step(t, a).ps[i], f)
  {
    RunInv(s, run);
    FreedInUse(Run(s, run), a);
    FreedIsNobodys(Run(s, run), a);
  }

  lemma FreedIsNobodys(t: Sys, a: Action)
    requires Inv(t) && Enabled(t, a)
    ensures forall f, i: nat :: f in Freed(t, a) && i < |Step(t, a).ps| ==> !Refers(Step(t, a).ps[i], f)
  {
    FreedInUse(t, a);
    StepInv(t, a);
    var t' := Step(t, a);
    forall f, i: nat | f in Freed(t, a) && i < |t'.ps| ensures !Refers(t'.ps[i], f) {
      assert UseOk(t', i);
      NotRefers(t', f, i);
    }
  }

  /** A sleeper is woken by a wakeup on its own channel, by the exit of a child, by the exit of a process that leaves
      init a zombie, or by a kill, and by nothing else. */
  lemma WokenWithCause(s: Sys, a: Action, i: nat)
    requires Inv(s) && Enabled(s, a) && i < |s.ps| && s.ps[i].life.Sleeping?
    ensures var x, y := s.ps[i], Step(s, a).ps[i];
            && (y.life.Sleeping? || y.life.Runnable?) && (y.life.Sleeping? ==> y.chan == x.chan)
            && (y.life.Runnable? <==>
                  || (a.WakeOther? && x.chan == OnOther(a.c))
                  || (a.Kill? && a.victim == i)
                  || (a.Exit? && x.chan == OnSelf(s.ps[a.p].parent.value))
                  || (a.Exit? && x.chan == OnSelf(s.init) && !NoZombieKid(s.ps, a.p)))
  {
    assert DoingOk(s, a.p);
    if a.Exit? {
      ExitWakes(s.ps, a.p, s.init, i);
    }
  }

  /** fork, once nothing can fail any more: the child is RUNNABLE, its parent is the process that forked, its stack
      and its directory are its own, and no other process has changed. */
  lemma ForkedChild(s: Sys, p: nat)
    requires Inv(s) && Enabled(s, Birth(p))
    ensures var t, k := Step(s, Birth(p)), s.doing[p].child;
            && k < |s.ps| && k != p && s.ps[k].life.Embryo? && t.ps[k] == s.ps[k].(life := Runnable)
            && t.ps[k].parent == Some(p) && t.doing[p] == Idle && t.used == s.used
            && t.ps[k].kstack in t.used && t.used[t.ps[k].kstack] == Stack(k)
            && t.ps[k].pgdir in t.used && t.used[t.ps[k].pgdir] == Dir(k)
            && (forall i :: 0 <= i < |s.ps| && i != k ==> t.ps[i] == s.ps[i])
  {
    var k := s.doing[p].child;
    assert DoingOk(s, p) && UseOk(s, k);
    StepInv(s, Birth(p));
    assert UseOk(Step(s, Birth(p)), k);
  }

  /** The slot holds f as a stack or as a directory that is in force. */
  predicate Refers(x: Proc, f: nat) {
    (x.kstack != 0 && x.kstack == f) || (HasDir(x) && x.pgdir == f)
  }

  lemma NotRefers(t: Sys, f: nat, i: nat)
    requires i < |t.ps| && UseOk(t, i) && f !in t.used
    ensures !Refers(t.ps[i], f)
  {
  }

  // ---- the code's loops over the table ----

  /** ptable.proc, used with ptable.lock held. */
  class Table {
    const procs: array<Proc>

    constructor (n: nat)
      ensures fresh(procs) && procs.Length == n
      ensures forall i :: 0 <= i < n ==> procs[i].life.Unused? && procs[i].parent == None && procs[i].kstack == 0
    {
      procs := new Proc[n](_ => Proc(Unused, NoChan, None, 0, 0, false));
    }

    /** wakeup1 */
    method Wakeup1(c: Chan)
      modifies procs
      ensures procs[..] == WakeAll(old(procs[..]), c)
    {
      for i := 0 to procs.Length
        invariant forall k :: 0 <= k < i ==> procs[k] == Woken(old(procs[k]), c)
        invariant forall k :: i <= k < procs.Length ==> procs[k] == old(procs[k])
      {
        if procs[i].life.Sleeping? && procs[i].chan == c {
          procs[i] := procs[i].(life := Runnable);
        }
      }
    }

    /** allocproc's search; the slot found is made an EMBRYO. */
    method TakeSlot() returns (i: nat)
      modifies procs
      ensures i == FirstUnused(old(procs[..]), 0)
      ensures procs[..] == if i < procs.Length then old(procs[..])[i := old(procs[..])[i].(life := Embryo)]
                else old(procs[..])
    {
      i := 0;
      while i < procs.Length && !procs[i].life.Unused?
        invariant i <= procs.Length && FirstUnused(procs[..], 0) == FirstUnused(procs[..], i)
        invariant procs[..] == old(procs[..])
      {
        i := i + 1;
      }
      if i < procs.Length {
        procs[i] := procs[i].(life := Embryo);
      }
    }

    /** exit, from the acquisition of ptable.lock to the call of sched. */
    method ExitProc(p: nat, init: nat)
      requires p < procs.Length && procs[p].life.Running? && procs[p].parent.Some?
      modifies procs
      ensures procs[..] == Exited(old(procs[..]), p, init)
    {
      ghost var ps := procs[..];
      Wakeup1(OnSelf(procs[p].parent.value));
      ghost var woken := procs[..];
      for i := 0 to procs.Length
        invariant 0 <= i <= procs.Length == |ps| && p < |ps| && ps[p].parent.Some?
        invariant woken == WakeAll(ps, OnSelf(ps[p].parent.value))
        invariant procs[..] == Passing(ps, woken, p, init, i)
      {
        PassingNext(ps, woken, p, init, i);
        if procs[i].parent == Some(p) {
          procs[i] := procs[i].(parent := Some(init));
          if procs[i].life.Zombie? {
            Wakeup1(OnSelf(init));
          }
        }
      }
      PassingDone(ps, woken, p, init);
      procs[p] := procs[p].(life := Zombie);
    }

    /** One pass of wait's loop: the first zombie child is reaped; otherwise tell whether p has children. */
    method ReapOne(p: nat) returns (z: nat, kids: bool)
      modifies procs
      ensures z == FirstZombie(old(procs[..]), p, 0)
      ensures z == procs.Length ==> procs[..] == old(procs[..]) && (kids <==> HasKids(procs[..], p))
      ensures z < procs.Length ==> procs[..] == old(procs[..])[z := Reaped(old(procs[..])[z])]
    {
      kids := false;
      z := 0;
      while z < procs.Length
        invariant z <= procs.Length && procs[..] == old(procs[..])
        invariant FirstZombie(procs[..], p, 0) == FirstZombie(procs[..], p, z)
        invariant kids <==> exists k :: 0 <= k < z && ChildOf(procs[..][k], p)
      {
        if procs[z].parent == Some(p) {
          kids := true;
          if procs[z].life.Zombie? {
            procs[z] := procs[z].(kstack := 0, parent := None, killed := false, life := Unused);
            return;
          }
        }
        z := z + 1;
      }
    }
  }

  /** exit's table after the parent has been woken and the first i slots passed on, slot by slot. */
  ghost function PassingAt(ps: seq<Proc>, woken: seq<Proc>, p: nat, init: nat, i: nat, k: nat): Proc
    requires i <= |ps| == |woken| && k < |ps|
  {
    var x := if FirstZombie(ps, p, 0) < i then Woken(woken[k], OnSelf(init)) else woken[k];
    if k < i then PassedOn(x, p, init) else x
  }

  ghost function Passing(ps: seq<Proc>, woken: seq<Proc>, p: nat, init: nat, i: nat): (r: seq<Proc>)
    requires i <= |ps| == |woken|
    ensures |r| == |ps| && forall k :: 0 <= k < |ps| ==> r[k] == PassingAt(ps, woken, p, init, i, k)
  {
    seq(|ps|, k requires 0 <= k < |ps| => PassingAt(ps, woken, p, init, i, k))
  }

  /** One round of exit's loop. */
  function Pass(now: seq<Proc>, p: nat, init: nat, i: nat): (r: seq<Proc>)
    requires i < |now|
    ensures |r| == |now|
  {
    if !ChildOf(now[i], p) then now
    else if !now[i].life.Zombie? then now[i := now[i].(parent := Some(init))]
    else WakeAll(now[i := now[i].(parent := Some(init))], OnSelf(init))
  }

  lemma PassingNext(ps: seq<Proc>, woken: seq<Proc>, p: nat, init: nat, i: nat)
    requires i < |ps| == |woken| && p < |ps| && ps[p].parent.Some? && woken == WakeAll(ps, OnSelf(ps[p].parent.value))
    ensures Passing(ps, woken, p, init, i + 1) == Pass(Passing(ps, woken, p, init, i), p, init, i)
  {
    var now, next := Passing(ps, woken, p, init, i), Passing(ps, woken, p, init, i + 1);
    var all := WakeAll(woken, OnSelf(init));
    FirstZombieStep(ps, p, i);
    assert woken[i] == Woken(ps[i], OnSelf(ps[p].parent.value)) && all[i] == Woken(woken[i], OnSelf(init));
    forall k | 0 <= k < |ps| ensures next[k] == Pass(now, p, init, i)[k] {
      assert next[k] == PassingAt(ps, woken, p, init, i + 1, k);
    }
  }

  lemma FirstZombieStep(ps: seq<Proc>, p: nat, i: nat)
    requires i < |ps|
    ensures FirstZombie(ps, p, 0) < i + 1 <==> FirstZombie(ps, p, 0) < i || (ChildOf(ps[i], p) && ps[i].life.Zombie?)
  {
  }

  lemma PassingDone(ps: seq<Proc>, woken: seq<Proc>, p: nat, init: nat)
    requires p < |ps| == |woken| && ps[p].parent.Some? && woken == WakeAll(ps, OnSelf(ps[p].parent.value))
    ensures var now := Passing(ps, woken, p, init, |ps|); now[p := now[p].(life := Zombie)] == Exited(ps, p, init)
  {
  }
}
