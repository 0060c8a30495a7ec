/** Pipes (system/core/pipe.c) as interleaved steps of any number of readers, writers and closers over the
    sleep/wakeup steps.  One pipe is followed.  `c.r` is the channel &p->nread, on which readers sleep, and
    `c.w` is &p->nwrite, on which writers sleep; both go with the pipe's spin lock and no other channel does. */
module Pipe {
  import opened Bytes
  import opened Params
  import opened PipeRing
  import opened SleepWakeup

  datatype Chans = Chans(r: nat, w: nat)

  datatype Stage =
    | Outside
    | WriteLoop(src: seq<byte>, i: nat)  // pipewrite: at the loop, or asleep in it
    | WriteTell(src: seq<byte>, i: nat)  // pipewrite: full, waking readers before it sleeps
    | WriteEnd                           // pipewrite: the last wakeup
    | ReadLoop(n: nat)                   // piperead: at the waiting loop, or asleep in it
    | ReadCopy(n: nat)                   // piperead: the copying loop, n bytes still asked for
    | ReadEnd                            // piperead: the wakeup
    | CloseSet(writer: bool)             // pipeclose: has the lock
    | CloseTell(writer: bool)            // pipeclose: the end is marked closed
    | CloseEnd(writer: bool)             // pipeclose: the wakeup

  /** `wrote` and `got` record all that was ever written and read.  `rfile` and `wfile` tell whether the open
      files of the two ends still have references (system/core/file.c:56-81). */
  datatype PipeState = PipeState(k: State, ring: Ring, wrote: seq<byte>, got: seq<byte>,
                                 readopen: bool, writeopen: bool, rfile: bool, wfile: bool,
                                 killed: set<nat>, stage: seq<Stage>)

  datatype PipeAction =
    | StartWrite(p: nat, src: seq<byte>)
    | PutByte(p: nat)
    | Tell(p: nat)        // full: wakeup(&p->nread)
    | WriteWait(p: nat)   // sleep(&p->nwrite, &p->lock)
    | WriteFail(p: nat)   // full, and the read end is closed or the process killed: return -1
    | WriteDone(p: nat)   // all copied: wakeup(&p->nread)
    | StartRead(p: nat, n: nat)
    | ReadWait(p: nat)    // sleep(&p->nread, &p->lock)
    | ReadFail(p: nat)    // empty, and the process killed: return -1
    | ReadGo(p: nat)      // leave the waiting loop
    | GetByte(p: nat)
    | ReadDone(p: nat)    // wakeup(&p->nwrite)
    | StartClose(p: nat, writer: bool)
    | Close(p: nat)
    | CloseWake(p: nat)
    | Finish(p: nat)      // release the lock and return
    | Killed(p: nat)      // kill, of a process that is not asleep
    | Kernel(a: Action)   // a step inside sleep or wakeup, or one that has nothing to do with this pipe

  function Of(a: PipeAction): nat {
    if a.Kernel? then a.a.p else a.p
  }

  // ---- the conditions of the two channels ----

  predicate CanRead(s: PipeState) {
    !Empty(s.ring) || !s.writeopen
  }

  predicate CanWrite(s: PipeState) {
    !Full(s.ring) || !s.readopen
  }

  function Ready(s: PipeState, c: Chans): set<nat> {
    s.k.ready - {c.r, c.w} + (if CanRead(s) then {c.r} else {}) + (if CanWrite(s) then {c.w} else {})
  }

  // ---- the steps ----

  predicate Fits(s: PipeState, a: PipeAction) {
    Of(a) < |s.stage| == |s.k.at| && |s.ring.data| == PIPESIZE
  }

  predicate WriterIn(h: Stage) {
    h.WriteLoop? || h.WriteTell? || h.WriteEnd?
  }

  predicate ReaderIn(h: Stage) {
    h.ReadLoop? || h.ReadCopy? || h.ReadEnd?
  }

  /** When the code at a process's stage takes this step.  An end is closed when its file has lost the last
      reference, so no process is inside a call on that end and none will start one. */
  predicate Allowed(s: PipeState, a: PipeAction, lock: nat)
    requires Fits(s, a)
  {
    var p, here := Of(a), s.stage[Of(a)];
    var running := s.k.at[p].Running?;
    match a
    case StartWrite(_, _) => here.Outside? && running && s.wfile
    case PutByte(_) => here.WriteLoop? && running && here.i < |here.src| && !Full(s.ring)
    case Tell(_) => here.WriteLoop? && here.i < |here.src| && Full(s.ring) && s.readopen && p !in s.killed
    case WriteWait(_) => here.WriteTell?
    case WriteFail(_) => here.WriteLoop? && here.i < |here.src| && Full(s.ring) && (!s.readopen || p in s.killed)
    case WriteDone(_) => here.WriteLoop? && here.i >= |here.src|
    case StartRead(_, _) => here.Outside? && running && s.rfile
    case ReadWait(_) => here.ReadLoop? && !CanRead(s) && p !in s.killed
    case ReadFail(_) => here.ReadLoop? && !CanRead(s) && p in s.killed
    case ReadGo(_) => here.ReadLoop? && running && CanRead(s)
    case GetByte(_) => here.ReadCopy? && here.n > 0 && !Empty(s.ring)
    case ReadDone(_) => here.ReadCopy? && (here.n == 0 || Empty(s.ring))
    case StartClose(_, writer) =>
      && here.Outside? && running && (if writer then s.wfile else s.rfile)
      && forall q :: 0 <= q < |s.stage| ==> if writer then !WriterIn(s.stage[q]) else !ReaderIn(s.stage[q])
    case Close(_) => here.CloseSet?
    case CloseWake(_) => here.CloseTell?
    case Finish(_) => here.WriteEnd? || here.ReadEnd? || here.CloseEnd?
    case Killed(_) => !s.k.at[p].Asleep?
    case Kernel(k) => if here.Outside? then !(k.Acquire? && k.l == lock) else !running
  }

  /** What each step does to the pipe itself and to the process's place in the code. */
  function Move(s: PipeState, a: PipeAction, lock: nat): PipeState
    requires Fits(s, a) && Allowed(s, a, lock)
  {
    var p, here := Of(a), s.stage[Of(a)];
    match a
    case StartWrite(_, src) => s.(stage := s.stage[p := WriteLoop(src, 0)])
    case PutByte(_) =>
      var b := here.src[here.i];
      s.(ring := Put(s.ring, b), wrote := s.wrote + [b], stage := s.stage[p := WriteLoop(here.src, here.i + 1)])
    case Tell(_) => s.(stage := s.stage[p := WriteTell(here.src, here.i)])
    case WriteWait(_) => s.(stage := s.stage[p := WriteLoop(here.src, here.i)])
    case WriteFail(_) => s.(stage := s.stage[p := Outside])
    case WriteDone(_) => s.(stage := s.stage[p := WriteEnd])
    case StartRead(_, n) => s.(stage := s.stage[p := ReadLoop(n)])
    case ReadWait(_) => s
    case ReadFail(_) => s.(stage := s.stage[p := Outside])
    case ReadGo(_) => s.(stage := s.stage[p := ReadCopy(here.n)])
    case GetByte(_) =>
      var b := s.ring.data[s.ring.nread % PIPESIZE];
      s.(ring := s.ring.(nread := (s.ring.nread + 1) % UINT), got := s.got + [b],
         stage := s.stage[p := ReadCopy(here.n - 1)])
    case ReadDone(_) => s.(stage := s.stage[p := ReadEnd])
    case StartClose(_, writer) =>
      s.(stage := s.stage[p := CloseSet(writer)], wfile := s.wfile && !writer, rfile := s.rfile && writer)
    case Close(_) =>
      s.(stage := s.stage[p := CloseTell(here.writer)], writeopen := s.writeopen && !here.writer,
         readopen := s.readopen && here.writer)
    case CloseWake(_) => s.(stage := s.stage[p := CloseEnd(here.writer)])
    case Finish(_) => s.(stage := s.stage[p := Outside])
    case Killed(_) => s.(killed := s.killed + {p})
    case Kernel(k) => if k.Kill? then s.(killed := s.killed + {p}) else s
  }

  /** Steps that are not a kernel step of their own are the conditions changing under the lock. */
  function Under(s: PipeState, a: PipeAction, c: Chans, lock: nat): Action
    requires Fits(s, a) && Allowed(s, a, lock)
  {
    match a
    case StartWrite(p, _) => Acquire(p, lock)
    case StartRead(p, _) => Acquire(p, lock)
    case StartClose(p, _) => Acquire(p, lock)
    case Tell(p) => Wakeup(p, c.r)
    case WriteDone(p) => Wakeup(p, c.r)
    case ReadDone(p) => Wakeup(p, c.w)
    case CloseWake(p) => Wakeup(p, if s.stage[p] == CloseTell(true) then c.r else c.w)
    case WriteWait(p) => Sleep(p, c.w)
    case ReadWait(p) => Sleep(p, c.r)
    case WriteFail(p) => Release(p, lock)
    case ReadFail(p) => Release(p, lock)
    case Finish(p) => Release(p, lock)
    case Kernel(k) => k
    case _ => Change(a.p, Ready(Move(s, a, lock), c))
  }

  predicate PipeEnabled(s: PipeState, a: PipeAction, c: Chans, lock: nat, lockOf: nat -> nat) {
    && Fits(s, a) && Allowed(s, a, lock)
    && (a.Killed? || Enabled(s.k, Under(s, a, c, lock), lockOf))
  }

  function PipeStep(s: PipeState, a: PipeAction, c: Chans, lock: nat, lockOf: nat -> nat): PipeState
    requires PipeEnabled(s, a, c, lock, lockOf)
  {
    Move(s, a, lock).(k := if a.Killed? then s.k else Step(s.k, Under(s, a, c, lock), lockOf))
  }

  // ---- the invariant ----

  /** A wakeup on d that is under way or has returned. */
  predicate Waking(w: Where, d: nat) {
    w.Running? || ((w.WakeWants? || w.WakeScans?) && w.c == d)
  }

  predicate StageOk(s: PipeState, p: nat, c: Chans, lock: nat)
    requires |s.stage| == |s.k.at| == |s.k.owed| && p < |s.stage|
  {
    var here, w, has := s.stage[p], s.k.at[p], Has(s.k, p, lock);
    var paid := c.w !in s.k.owed[p];
    match here
    case Outside => !has && (Sleeps(w) ==> w.c != c.r && w.c != c.w) && paid
    case WriteLoop(src, i) => s.wfile && i <= |src| && paid && if w.Running? then has else Sleeps(w) && w.c == c.w
    case WriteTell(src, i) => s.wfile && i < |src| && has && paid && !CanWrite(s) && Waking(w, c.r)
    case WriteEnd => s.wfile && has && paid && Waking(w, c.r)
    case ReadLoop(_) => s.rfile && paid && if w.Running? then has else Sleeps(w) && w.c == c.r
    case ReadCopy(_) => s.rfile && has && w.Running?
    case ReadEnd => s.rfile && has && Waking(w, c.w) && (w.Running? ==> paid)
    case CloseSet(writer) => has && w.Running? && paid && (if writer then !s.wfile else !s.rfile)
    case CloseTell(writer) => has && w.Running? && (writer ==> paid)
    case CloseEnd(writer) => has && Waking(w, if writer then c.r else c.w) && (writer || w.Running? ==> paid)
  }

  /** The channels' conditions are what they stand for, and an end with references is open. */
  ghost predicate FlagsOk(s: PipeState, c: Chans) {
    && (c.r in s.k.ready <==> CanRead(s)) && (c.w in s.k.ready <==> CanWrite(s))
    && (s.rfile ==> s.readopen) && (s.wfile ==> s.writeopen)
  }

  ghost predicate DataOk(s: PipeState) {
    Holds(s.ring, s.wrote, |s.got|) && s.got == s.wrote[..|s.got|]
  }

  ghost predicate PipeInv(s: PipeState, c: Chans, lock: nat, lockOf: nat -> nat) {
    && Inv(s.k, lockOf) && |s.stage| == |s.k.at| && FlagsOk(s, c) && DataOk(s)
    && forall p: nat :: p < |s.stage| ==> StageOk(s, p, c, lock)
  }

  /** The pipe's lock goes with its two channels and no other. */
  ghost predicate OwnLock(c: Chans, lock: nat, lockOf: nat -> nat) {
    c.r != c.w && forall d: nat :: lockOf(d) == lock <==> d == c.r || d == c.w
  }

  lemma DataKept(s: PipeState, a: PipeAction, lock: nat)
    requires Fits(s, a) && Allowed(s, a, lock) && DataOk(s)
    ensures DataOk(Move(s, a, lock))
  {
    if a.PutByte? {
      PutHolds(s.ring, s.wrote, |s.got|, s.stage[a.p].src[s.stage[a.p].i]);
    } else if a.GetByte? {
      GetHolds(s.ring, s.wrote, |s.got|);
    }
  }

  /** What a step leaves of the view of another process q: its place, its locks and its debts, */
  ghost predicate SamePlace(s: State, t: State, q: nat, lock: nat)
    requires q < |s.at| == |s.owed|
  {
    && q < |t.at| == |t.owed| && t.owed[q] == s.owed[q] && (Has(t, q, lock) <==> Has(s, q, lock))
    && (t.at[q] == s.at[q] || (s.at[q].Asleep? && t.at[q] == Runnable(s.at[q].c)))
  }

  /** and what it relies on of the pipe. */
  ghost predicate SamePipe(s: PipeState, t: PipeState, h: Stage, has: bool) {
    && (has ==> CanWrite(t) == CanWrite(s))
    && (t.rfile ==> s.rfile) && (s.rfile && ReaderIn(h) ==> t.rfile)
    && (t.wfile ==> s.wfile) && (s.wfile && WriterIn(h) ==> t.wfile)
  }

  lemma FrameKeeps(s: PipeState, t: PipeState, c: Chans, lock: nat, q: nat)
    requires |s.stage| == |s.k.at| == |s.k.owed| && q < |s.stage| && StageOk(s, q, c, lock)
    requires |t.stage| == |s.stage| == |t.k.at| && t.stage[q] == s.stage[q]
    requires SamePlace(s.k, t.k, q, lock) && SamePipe(s, t, s.stage[q], Has(s.k, q, lock))
    ensures StageOk(t, q, c, lock)
  {
  }

  /** The buffer and the open flags change only under the lock. */
  lemma NeedsLock(s: PipeState, a: PipeAction, c: Chans, lock: nat)
    requires Fits(s, a) && Allowed(s, a, lock) && |s.k.owed| == |s.k.at| && StageOk(s, Of(a), c, lock)
    ensures a.PutByte? || a.GetByte? || a.Close? ==> Has(s.k, Of(a), lock)
  {
  }

  lemma WriterFrame(s: PipeState, a: PipeAction, lock: nat, q: nat, has: bool)
    requires Fits(s, a) && Allowed(s, a, lock) && q < |s.stage| && q != Of(a) && ByWriter(a) && (has ==> !a.PutByte?)
    ensures var t := Move(s, a, lock);
            |t.stage| == |s.stage| && t.stage[q] == s.stage[q] && SamePipe(s, t, s.stage[q], has)
  {
  }

  lemma OtherFrame(s: PipeState, a: PipeAction, lock: nat, q: nat, has: bool)
    requires Fits(s, a) && Allowed(s, a, lock) && q < |s.stage| && q != Of(a)
    requires !ByWriter(a) && (has ==> !a.GetByte? && !a.Close?)
    ensures var t := Move(s, a, lock);
            |t.stage| == |s.stage| && t.stage[q] == s.stage[q] && SamePipe(s, t, s.stage[q], has)
  {
  }

  lemma MoveFrame(s: PipeState, a: PipeAction, lock: nat, q: nat, has: bool)
    requires Fits(s, a) && Allowed(s, a, lock) && q < |s.stage| && q != Of(a)
    requires has ==> !a.PutByte? && !a.GetByte? && !a.Close?
    ensures var t := Move(s, a, lock);
            |t.stage| == |s.stage| && t.stage[q] == s.stage[q] && SamePipe(s, t, s.stage[q], has)
  {
    if ByWriter(a) {
      WriterFrame(s, a, lock, q, has);
    } else {
      OtherFrame(s, a, lock, q, has);
    }
  }

  lemma KernelFrame(s: PipeState, a: PipeAction, c: Chans, lock: nat, lockOf: nat -> nat, q: nat)
    requires Inv(s.k, lockOf) && PipeEnabled(s, a, c, lock, lockOf) && q < |s.stage| && q != Of(a)
    ensures var t := PipeStep(s, a, c, lock, lockOf).k; |t.at| == |s.k.at| && SamePlace(s.k, t, q, lock)
  {
    if !a.Killed? {
      StepFrame(s.k, Under(s, a, c, lock), lockOf, q, lock);
    }
  }

  lemma OtherKept(s: PipeState, a: PipeAction, c: Chans, lock: nat, lockOf: nat -> nat, q: nat)
    requires Inv(s.k, lockOf) && PipeEnabled(s, a, c, lock, lockOf) && q < |s.stage| && q != Of(a)
    requires StageOk(s, q, c, lock) && StageOk(s, Of(a), c, lock)
    ensures var t := PipeStep(s, a, c, lock, lockOf);
            |t.stage| == |s.stage| == |t.k.at| == |t.k.owed| && StageOk(t, q, c, lock)
  {
    var t := PipeStep(s, a, c, lock, lockOf);
    NeedsLock(s, a, c, lock);
    MoveFrame(s, a, lock, q, Has(s.k, q, lock));
    KernelFrame(s, a, c, lock, lockOf, q);
    FrameKeeps(s, t, c, lock, q);
  }

  predicate ByWriter(a: PipeAction) {
    a.StartWrite? || a.PutByte? || a.Tell? || a.WriteWait? || a.WriteFail? || a.WriteDone?
  }

  ghost predicate Stepping(s: PipeState, a: PipeAction, c: Chans, lock: nat, lockOf: nat -> nat) {
    && OwnLock(c, lock, lockOf) && PipeEnabled(s, a, c, lock, lockOf) && Inv(s.k, lockOf) && FlagsOk(s, c)
    && StageOk(s, Of(a), c, lock)
  }

  /** What a step of process p establishes for the pipe's flags and for p itself. */
  ghost predicate Moved(s: PipeState, p: nat, c: Chans, lock: nat) {
    FlagsOk(s, c) && |s.stage| == |s.k.at| == |s.k.owed| && p < |s.stage| && StageOk(s, p, c, lock)
  }

  lemma WriterMoved(s: PipeState, a: PipeAction, c: Chans, lock: nat, lockOf: nat -> nat)
    requires Stepping(s, a, c, lock, lockOf) && ByWriter(a)
    ensures Moved(PipeStep(s, a, c, lock, lockOf), Of(a), c, lock)
  {
  }

  lemma CopierMoved(s: PipeState, a: PipeAction, c: Chans, lock: nat, lockOf: nat -> nat)
    requires Stepping(s, a, c, lock, lockOf) && (a.ReadGo? || a.GetByte? || a.ReadDone?)
    ensures Moved(PipeStep(s, a, c, lock, lockOf), Of(a), c, lock)
  {
  }

  lemma ReaderMoved(s: PipeState, a: PipeAction, c: Chans, lock: nat, lockOf: nat -> nat)
    requires Stepping(s, a, c, lock, lockOf) && (a.StartRead? || a.ReadWait? || a.ReadFail?)
    ensures Moved(PipeStep(s, a, c, lock, lockOf), Of(a), c, lock)
  {
  }

  lemma ClosingMoved(s: PipeState, a: PipeAction, c: Chans, lock: nat, lockOf: nat -> nat)
    requires Stepping(s, a, c, lock, lockOf) && (a.StartClose? || a.CloseWake?)
    ensures Moved(PipeStep(s, a, c, lock, lockOf), Of(a), c, lock)
  {
  }

  lemma CloserMoved(s: PipeState, a: PipeAction, c: Chans, lock: nat, lockOf: nat -> nat)
    requires Stepping(s, a, c, lock, lockOf) && a.Close?
    ensures Moved(PipeStep(s, a, c, lock, lockOf), Of(a), c, lock)
  {
  }

  lemma LeaverMoved(s: PipeState, a: PipeAction, c: Chans, lock: nat, lockOf: nat -> nat)
    requires Stepping(s, a, c, lock, lockOf) && (a.Finish? || a.Killed?)
    ensures Moved(PipeStep(s, a, c, lock, lockOf), Of(a), c, lock)
  {
  }

  lemma OutsiderMoved(s: PipeState, a: PipeAction, c: Chans, lock: nat, lockOf: nat -> nat)
    requires Stepping(s, a, c, lock, lockOf) && a.Kernel? && s.stage[Of(a)].Outside?
    ensures Moved(PipeStep(s, a, c, lock, lockOf), Of(a), c, lock)
  {
    assert ProcOk(s.k, Of(a), lockOf);
  }

  lemma SleeperMoved(s: PipeState, a: PipeAction, c: Chans, lock: nat, lockOf: nat -> nat)
    requires Stepping(s, a, c, lock, lockOf) && a.Kernel? && !s.stage[Of(a)].Outside? && Sleeps(s.k.at[Of(a)])
    ensures Moved(PipeStep(s, a, c, lock, lockOf), Of(a), c, lock)
  {
    assert ProcOk(s.k, Of(a), lockOf);
  }

  lemma WakerMoved(s: PipeState, a: PipeAction, c: Chans, lock: nat, lockOf: nat -> nat)
    requires Stepping(s, a, c, lock, lockOf) && a.Kernel? && !s.stage[Of(a)].Outside? && !Sleeps(s.k.at[Of(a)])
    ensures Moved(PipeStep(s, a, c, lock, lockOf), Of(a), c, lock)
  {
  }

  lemma MoverKept(s: PipeState, a: PipeAction, c: Chans, lock: nat, lockOf: nat -> nat)
    requires Stepping(s, a, c, lock, lockOf)
    ensures Moved(PipeStep(s, a, c, lock, lockOf), Of(a), c, lock)
  {
    if ByWriter(a) {
      WriterMoved(s, a, c, lock, lockOf);
    } else if a.StartRead? || a.ReadWait? || a.ReadFail? {
      ReaderMoved(s, a, c, lock, lockOf);
    } else if a.ReadGo? || a.GetByte? || a.ReadDone? {
      CopierMoved(s, a, c, lock, lockOf);
    } else if a.Finish? || a.Killed? {
      LeaverMoved(s, a, c, lock, lockOf);
    } else if a.Close? {
      CloserMoved(s, a, c, lock, lockOf);
    } else if !a.Kernel? {
      ClosingMoved(s, a, c, lock, lockOf);
    } else if s.stage[Of(a)].Outside? {
      OutsiderMoved(s, a, c, lock, lockOf);
    } else if Sleeps(s.k.at[Of(a)]) {
      SleeperMoved(s, a, c, lock, lockOf);
    } else {
      WakerMoved(s, a, c, lock, lockOf);
    }
  }

  lemma PipeStepInv(s: PipeState, a: PipeAction, c: Chans, lock: nat, lockOf: nat -> nat)
    requires OwnLock(c, lock, lockOf) && PipeInv(s, c, lock, lockOf) && PipeEnabled(s, a, c, lock, lockOf)
    ensures PipeInv(PipeStep(s, a, c, lock, lockOf), c, lock, lockOf)
  {
    var t := PipeStep(s, a, c, lock, lockOf);
    assert StageOk(s, Of(a), c, lock);
    MoverKept(s, a, c, lock, lockOf);
    DataKept(s, a, lock);
    if !a.Killed? {
      StepInv(s.k, Under(s, a, c, lock), lockOf);
    }
    forall q: nat | q < |t.stage| ensures StageOk(t, q, c, lock) {
      if q != Of(a) {
        assert StageOk(s, q, c, lock);
        OtherKept(s, a, c, lock, lockOf, q);
      }
    }
  }

  // ---- whole runs ----

  predicate IsPipeRun(s: PipeState, run: seq<PipeAction>, c: Chans, lock: nat, lockOf: nat -> nat)
    decreases |run|
  {
    run == [] || (PipeEnabled(s, run[0], c, lock, lockOf) &&
        IsPipeRun(PipeStep(s, run[0], c, lock, lockOf), run[1..], c, lock, lockOf))
  }

  function PipeRun(s: PipeState, run: seq<PipeAction>, c: Chans, lock: nat, lockOf: nat -> nat): PipeState
    requires IsPipeRun(s, run, c, lock, lockOf)
    decreases |run|
  {
    if run == [] then s else PipeRun(PipeStep(s, run[0], c, lock, lockOf), run[1..], c, lock, lockOf)
  }

  /** pipealloc, before any process uses the pipe. */
  ghost predicate Init(s: PipeState, c: Chans) {
    && Initial(s.k) && |s.stage| == |s.k.at| && s.wrote == s.got == [] && |s.ring.data| == PIPESIZE
    && s.ring.nread == s.ring.nwrite == 0 && s.readopen && s.writeopen && s.rfile && s.wfile
    && c.r !in s.k.ready && c.w in s.k.ready
    && forall p :: 0 <= p < |s.stage| ==> s.stage[p].Outside? && c.r !in s.k.owed[p] && c.w !in s.k.owed[p]
  }

  lemma InitInv(s: PipeState, c: Chans, lock: nat, lockOf: nat -> nat)
    requires Init(s, c)
    ensures PipeInv(s, c, lock, lockOf)
  {
    assert s.wrote == s.got == [];
    Counters(s.ring, s.wrote, 0);
  }

  lemma {:induction false} PipeRunInv(s: PipeState, run: seq<PipeAction>, c: Chans, lock: nat, lockOf: nat -> nat)
    requires OwnLock(c, lock, lockOf) && PipeInv(s, c, lock, lockOf) && IsPipeRun(s, run, c, lock, lockOf)
    ensures PipeInv(PipeRun(s, run, c, lock, lockOf), c, lock, lockOf)
    decreases |run|
  {
    if run != [] {
      PipeStepInv(s, run[0], c, lock, lockOf);
      PipeRunInv(PipeStep(s, run[0], c, lock, lockOf), run[1..], c, lock, lockOf);
    }
  }

  /** In every interleaving, kills included: what has been read is a prefix of what has been written, the
      rest fits the buffer, and the 32-bit counters differ by its length even after they have wrapped. */
  lemma Fifo(s: PipeState, run: seq<PipeAction>, c: Chans, lock: nat, lockOf: nat -> nat)
    requires OwnLock(c, lock, lockOf) && Init(s, c) && IsPipeRun(s, run, c, lock, lockOf)
    ensures var t := PipeRun(s, run, c, lock, lockOf);
      && t.got <= t.wrote && |t.wrote| - |t.got| <= 512
      && (t.ring.nwrite - t.ring.nread) % UINT == |t.wrote| - |t.got|
  {
    InitInv(s, c, lock, lockOf);
    PipeRunInv(s, run, c, lock, lockOf);
    InOrder(PipeRun(s, run, c, lock, lockOf));
  }

  lemma InOrder(t: PipeState)
    requires DataOk(t)
    ensures t.got <= t.wrote && |t.wrote| - |t.got| <= PIPESIZE
    ensures (t.ring.nwrite - t.ring.nread) % UINT == |t.wrote| - |t.got|
  {
    WrapDifference(|t.wrote|, |t.got|);
  }

  lemma WrapDifference(x: nat, y: nat)
    requires y <= x < y + UINT
    ensures (x % UINT - y % UINT) % UINT == x - y
  {
  }

  // ---- calls copy what they are given ----

  /** A process's latest calls of pipewrite and piperead, as seen from outside: what each was asked for, and what
      the process's steps have since added to the bytes written and to the bytes read. */
  datatype Call = Call(src: seq<byte>, sent: seq<byte>, n: nat, received: seq<byte>)

  /** What b has beyond a. */
  function Beyond(a: seq<byte>, b: seq<byte>): seq<byte> {
    if |a| <= |b| then b[|a|..] else []
  }

  function Follow(s: PipeState, a: PipeAction, t: PipeState, p: nat, k: Call): Call {
    if Of(a) != p then k
    else if a.StartWrite? then k.(src := a.src, sent := [])
    else if a.StartRead? then k.(n := a.n, received := [])
    else k.(sent := k.sent + Beyond(s.wrote, t.wrote), received := k.received + Beyond(s.got, t.got))
  }

  function CallAfter(s: PipeState, run: seq<PipeAction>, c: Chans, lock: nat, lockOf: nat -> nat, p: nat, k: Call): Call
    requires IsPipeRun(s, run, c, lock, lockOf)
    decreases |run|
  {
    if run == [] then k
    else
      var t := PipeStep(s, run[0], c, lock, lockOf);
      CallAfter(t, run[1..], c, lock, lockOf, p, Follow(s, run[0], t, p, k))
  }

  /** The last bytes of `all` are `part`. */
  ghost predicate EndsWith(all: seq<byte>, part: seq<byte>) {
    |part| <= |all| && all[|all| - |part|..] == part
  }

  /** A writer has sent exactly the first i of its bytes, in order, and all of them once it is done.  A reader has
      received the bytes read last, together with those still wanted as many as it asked for; it ends with fewer
      only on an empty pipe, and with none only if the write end is closed too. */
  ghost predicate CallOk(s: PipeState, p: nat, k: Call)
    requires p < |s.stage|
  {
    match s.stage[p]
    case WriteLoop(src, i) => src == k.src && i <= |src| && k.sent == k.src[..i]
    case WriteTell(src, i) => src == k.src && i <= |src| && k.sent == k.src[..i]
    case WriteEnd => k.sent == k.src
    case ReadLoop(n) => n == k.n && k.received == []
    case ReadCopy(n) =>
      |k.received| + n == k.n && EndsWith(s.got, k.received) && (k.received == [] ==> s.got != s.wrote || !s.writeopen)
    case ReadEnd =>
      && |k.received| <= k.n && EndsWith(s.got, k.received) && (|k.received| < k.n ==> s.got == s.wrote)
      && (k.received == [] && k.n > 0 ==> !s.writeopen)
    case _ => true
  }

  /** A call is told by the place of its process and, while it reads, by the buffer and the write end. */
  ghost predicate SameCall(s: PipeState, t: PipeState, p: nat) {
    && p < |s.stage| == |t.stage| && s.stage[p] == t.stage[p]
    && (s.stage[p].ReadCopy? || s.stage[p].ReadEnd? ==>
          s.got == t.got && s.wrote == t.wrote && s.writeopen == t.writeopen)
  }

  /** Another process's step, which does not change the buffer or the flags while this one has the lock. */
  lemma CallByOther(s: PipeState, a: PipeAction, c: Chans, lock: nat, lockOf: nat -> nat, p: nat)
    requires PipeInv(s, c, lock, lockOf) && Fits(s, a) && Allowed(s, a, lock) && p < |s.stage| && Of(a) != p
    ensures SameCall(s, Move(s, a, lock), p)
  {
    assert StageOk(s, p, c, lock) && StageOk(s, Of(a), c, lock);
    NeedsLock(s, a, c, lock);
    if ByWriter(a) {
      WritersSpare(s, a, lock, p);
    } else {
      OthersSpare(s, a, lock, p);
    }
  }

  lemma WritersSpare(s: PipeState, a: PipeAction, lock: nat, p: nat)
    requires Fits(s, a) && Allowed(s, a, lock) && p < |s.stage| && Of(a) != p && ByWriter(a)
    requires s.stage[p].ReadCopy? || s.stage[p].ReadEnd? ==> !a.PutByte?
    ensures SameCall(s, Move(s, a, lock), p)
  {
  }

  lemma OthersSpare(s: PipeState, a: PipeAction, lock: nat, p: nat)
    requires Fits(s, a) && Allowed(s, a, lock) && p < |s.stage| && Of(a) != p && !ByWriter(a)
    requires s.stage[p].ReadCopy? || s.stage[p].ReadEnd? ==> !a.GetByte? && !a.Close?
    ensures SameCall(s, Move(s, a, lock), p)
  {
  }

  lemma CallByWriter(s: PipeState, a: PipeAction, lock: nat, p: nat, k: Call)
    requires Fits(s, a) && Allowed(s, a, lock) && Of(a) == p && ByWriter(a) && CallOk(s, p, k)
    ensures var t := Move(s, a, lock); CallOk(t, p, Follow(s, a, t, p, k))
  {
    if a.PutByte? {
      assert Beyond(s.wrote, s.wrote + [k.src[s.stage[p].i]]) == [k.src[s.stage[p].i]];
    } else {
      assert k.sent + Beyond(s.wrote, s.wrote) == k.sent;
    }
  }

  lemma CallGetsByte(s: PipeState, a: PipeAction, lock: nat, p: nat, k: Call)
    requires Fits(s, a) && Allowed(s, a, lock) && a == GetByte(p) && CallOk(s, p, k)
    ensures var t := Move(s, a, lock); CallOk(t, p, Follow(s, a, t, p, k))
  {
    var b := s.ring.data[s.ring.nread % PIPESIZE];
    assert k.sent + Beyond(s.wrote, s.wrote) == k.sent && Beyond(s.got, s.got + [b]) == [b];
  }

  predicate ByReader(a: PipeAction) {
    a.StartRead? || a.ReadWait? || a.ReadFail? || a.ReadGo? || a.ReadDone?
  }

  lemma CallByReader(s: PipeState, a: PipeAction, lock: nat, p: nat, k: Call)
    requires Fits(s, a) && Allowed(s, a, lock) && Of(a) == p && ByReader(a) && CallOk(s, p, k)
    requires Empty(s.ring) <==> s.got == s.wrote
    ensures var t := Move(s, a, lock); CallOk(t, p, Follow(s, a, t, p, k))
  {
    assert k.sent + Beyond(s.wrote, s.wrote) == k.sent && k.received + Beyond(s.got, s.got) == k.received;
  }

  /** Steps outside a call's own work: closing, being killed, leaving, and kernel steps. */
  lemma CallAside(s: PipeState, a: PipeAction, lock: nat, p: nat, k: Call)
    requires Fits(s, a) && Allowed(s, a, lock) && Of(a) == p && CallOk(s, p, k)
    requires !ByWriter(a) && !ByReader(a) && !a.GetByte?
    ensures var t := Move(s, a, lock); CallOk(t, p, Follow(s, a, t, p, k))
  {
    assert k.sent + Beyond(s.wrote, s.wrote) == k.sent && k.received + Beyond(s.got, s.got) == k.received;
  }

  lemma CallMoves(s: PipeState, a: PipeAction, lock: nat, p: nat, k: Call)
    requires Fits(s, a) && Allowed(s, a, lock) && Of(a) == p && CallOk(s, p, k)
    requires Empty(s.ring) <==> s.got == s.wrote
    ensures var t := Move(s, a, lock); CallOk(t, p, Follow(s, a, t, p, k))
  {
    if ByWriter(a) {
      CallByWriter(s, a, lock, p, k);
    } else if a.GetByte? {
      CallGetsByte(s, a, lock, p, k);
    } else if ByReader(a) {
      CallByReader(s, a, lock, p, k);
    } else {
      CallAside(s, a, lock, p, k);
    }
  }

  lemma CallSame(s: PipeState, t: PipeState, p: nat, k: Call)
    requires SameCall(s, t, p) && CallOk(s, p, k)
    ensures CallOk(t, p, k)
  {
  }

  lemma CallMoved(s: PipeState, a: PipeAction, c: Chans, lock: nat, lockOf: nat -> nat, p: nat, k: Call)
    requires PipeInv(s, c, lock, lockOf) && Fits(s, a) && Allowed(s, a, lock) && p < |s.stage| && CallOk(s, p, k)
    ensures var t := Move(s, a, lock); p < |t.stage| && CallOk(t, p, Follow(s, a, t, p, k))
  {
    if Of(a) != p {
      CallByOther(s, a, c, lock, lockOf, p);
      CallSame(s, Move(s, a, lock), p, k);
    } else {
      Counters(s.ring, s.wrote, |s.got|);
      CallMoves(s, a, lock, p, k);
    }
  }

  lemma CallStep(s: PipeState, a: PipeAction, c: Chans, lock: nat, lockOf: nat -> nat, p: nat, k: Call)
    requires PipeInv(s, c, lock, lockOf) && PipeEnabled(s, a, c, lock, lockOf) && p < |s.stage| && CallOk(s, p, k)
    ensures var t := PipeStep(s, a, c, lock, lockOf); p < |t.stage| && CallOk(t, p, Follow(s, a, t, p, k))
  {
    CallMoved(s, a, c, lock, lockOf, p, k);
    var m, t := Move(s, a, lock), PipeStep(s, a, c, lock, lockOf);
    CallSame(m, t, p, Follow(s, a, m, p, k));
  }

  lemma {:induction false} CallsKept(s: PipeState, run: seq<PipeAction>, c: Chans, lock: nat, lockOf: nat -> nat,
                                     p: nat, k: Call)
    requires OwnLock(c, lock, lockOf) && PipeInv(s, c, lock, lockOf) && IsPipeRun(s, run, c, lock, lockOf)
    requires p < |s.stage| && CallOk(s, p, k)
    ensures var t := PipeRun(s, run, c, lock, lockOf);
            p < |t.stage| && CallOk(t, p, CallAfter(s, run, c, lock, lockOf, p, k))
    decreases |run|
  {
    if run != [] {
      var a := run[0];
      var t := PipeStep(s, a, c, lock, lockOf);
      PipeStepInv(s, a, c, lock, lockOf);
      CallStep(s, a, c, lock, lockOf, p, k);
      CallsKept(t, run[1..], c, lock, lockOf, p, Follow(s, a, t, p, k));
    }
  }

  /** In every interleaving, for every process: a call of pipewrite puts in exactly the bytes it was given, in
      order and over any number of sleeps, and a call of piperead takes out the next bytes, as many as it asked for
      or as there are. */
  lemma CallsCopy(s: PipeState, run: seq<PipeAction>, c: Chans, lock: nat, lockOf: nat -> nat, p: nat)
    requires OwnLock(c, lock, lockOf) && Init(s, c) && IsPipeRun(s, run, c, lock, lockOf) && p < |s.stage|
    ensures var t := PipeRun(s, run, c, lock, lockOf);
            p < |t.stage| && CallOk(t, p, CallAfter(s, run, c, lock, lockOf, p, Call([], [], 0, [])))
  {
    InitInv(s, c, lock, lockOf);
    CallsKept(s, run, c, lock, lockOf, p, Call([], [], 0, []));
  }

  /** A call ends with its last wakeup done, or with -1: a reader if it was killed while there was nothing to read, a
      writer if it was killed, or the read end closed, while the buffer was full. */
  lemma CallEnds(s: PipeState, a: PipeAction, c: Chans, lock: nat, lockOf: nat -> nat, p: nat)
    requires PipeInv(s, c, lock, lockOf) && PipeEnabled(s, a, c, lock, lockOf) && p < |s.stage|
    requires (ReaderIn(s.stage[p]) || WriterIn(s.stage[p])) && Move(s, a, lock).stage[p].Outside?
    ensures || s.stage[p].ReadEnd? || s.stage[p].WriteEnd?
            || (s.stage[p].ReadLoop? && p in s.killed && s.got == s.wrote && s.writeopen)
            || (s.stage[p].WriteLoop? && (p in s.killed || !s.readopen) && |s.wrote| - |s.got| == PIPESIZE)
  {
    Counters(s.ring, s.wrote, |s.got|);
    Leaves(s, a, lock, p);
  }

  lemma Leaves(s: PipeState, a: PipeAction, lock: nat, p: nat)
    requires Fits(s, a) && Allowed(s, a, lock) && p < |s.stage|
    requires (ReaderIn(s.stage[p]) || WriterIn(s.stage[p])) && Move(s, a, lock).stage[p].Outside?
    ensures || s.stage[p].ReadEnd? || s.stage[p].WriteEnd?
            || (s.stage[p].ReadLoop? && p in s.killed && !CanRead(s))
            || (s.stage[p].WriteLoop? && (p in s.killed || !s.readopen) && Full(s.ring))
  {
  }

  // ---- closing ----

  /** Once the last reference to an end is gone, the end is closed or about to be. */
  ghost predicate Closing(s: PipeState) {
    && (!s.wfile ==> !s.writeopen || exists p: nat :: ClosingAt(s, p, true))
    && (!s.rfile ==> !s.readopen || exists p: nat :: ClosingAt(s, p, false))
  }

  predicate ClosingAt(s: PipeState, p: nat, writer: bool) {
    p < |s.stage| && s.stage[p] == CloseSet(writer)
  }

  lemma ClosingStep(s: PipeState, a: PipeAction, lock: nat)
    requires Fits(s, a) && Allowed(s, a, lock) && Closing(s)
    ensures Closing(Move(s, a, lock))
  {
    var t := Move(s, a, lock);
    if a.StartClose? {
      assert ClosingAt(t, a.p, a.writer);
    }
    forall p: nat, writer: bool | ClosingAt(s, p, writer) && a != Close(p) ensures ClosingAt(t, p, writer) {
      StillClosing(s, a, lock, p, writer);
    }
    if !a.StartClose? && !a.Close? {
      SameEnds(s, a, lock);
    }
  }

  lemma StillClosing(s: PipeState, a: PipeAction, lock: nat, p: nat, writer: bool)
    requires Fits(s, a) && Allowed(s, a, lock) && ClosingAt(s, p, writer) && a != Close(p)
    ensures ClosingAt(Move(s, a, lock), p, writer)
  {
  }

  lemma SameEnds(s: PipeState, a: PipeAction, lock: nat)
    requires Fits(s, a) && Allowed(s, a, lock) && !a.StartClose? && !a.Close?
    ensures var t := Move(s, a, lock);
            t.wfile == s.wfile && t.rfile == s.rfile && t.writeopen == s.writeopen && t.readopen == s.readopen
  {
  }

  lemma SameClosing(s: PipeState, t: PipeState)
    requires Closing(s) && t == s.(k := t.k)
    ensures Closing(t)
  {
    forall p: nat, writer: bool | ClosingAt(s, p, writer) ensures ClosingAt(t, p, writer) {
    }
  }

  lemma {:induction false} ClosingRun(s: PipeState, run: seq<PipeAction>, c: Chans, lock: nat, lockOf: nat -> nat)
    requires Closing(s) && IsPipeRun(s, run, c, lock, lockOf)
    ensures Closing(PipeRun(s, run, c, lock, lockOf))
    decreases |run|
  {
    if run != [] {
      ClosingStep(s, run[0], lock);
      SameClosing(Move(s, run[0], lock), PipeStep(s, run[0], c, lock, lockOf));
      ClosingRun(PipeStep(s, run[0], c, lock, lockOf), run[1..], c, lock, lockOf);
    }
  }

  /** In every interleaving, whenever the pipe's lock is free: an end is open exactly if its file has references. */
  lemma EndsClosed(s: PipeState, run: seq<PipeAction>, c: Chans, lock: nat, lockOf: nat -> nat)
    requires OwnLock(c, lock, lockOf) && Init(s, c) && IsPipeRun(s, run, c, lock, lockOf)
    ensures var t := PipeRun(s, run, c, lock, lockOf);
            lock !in t.k.held ==> (t.writeopen <==> t.wfile) && (t.readopen <==> t.rfile)
  {
    InitInv(s, c, lock, lockOf);
    PipeRunInv(s, run, c, lock, lockOf);
    ClosingRun(s, run, c, lock, lockOf);
    var t := PipeRun(s, run, c, lock, lockOf);
    forall p: nat, writer: bool | ClosingAt(t, p, writer) ensures lock in t.k.held {
      assert StageOk(t, p, c, lock);
    }
  }

  // ---- readers are woken ----

  /** Process q sleeps on the reader's channel and has let go of the pipe's lock. */
  predicate ReaderDown(s: PipeState, q: nat, c: Chans) {
    q < |s.k.at| && (s.k.at[q] == Asleep(c.r) || s.k.at[q] == SleepHasTable(c.r))
  }

  /** Process p has the lock and is on its way to wake the readers. */
  predicate OnDuty(s: PipeState, p: nat, c: Chans, lock: nat) {
    && p < |s.stage| == |s.k.at| && Has(s.k, p, lock)
    && var here, w := s.stage[p], s.k.at[p];
       || (here.WriteLoop? && w.Running?)
       || here == CloseTell(true)
       || ((here.WriteTell? || here.WriteEnd? || here == CloseEnd(true)) &&
            (w == WakeWants(c.r) || w == WakeScans(c.r)))
  }

  /** A reader sleeps beside something to read only while somebody is about to wake it. */
  ghost predicate Watched(s: PipeState, c: Chans, lock: nat) {
    CanRead(s) && (exists q: nat :: ReaderDown(s, q, c)) ==> exists p: nat :: OnDuty(s, p, c, lock)
  }

  /** The step that breaks this: a writer gives up on a full pipe while a reader sleeps. */
  ghost predicate Strands(s: PipeState, a: PipeAction, c: Chans) {
    a.WriteFail? && exists q: nat :: ReaderDown(s, q, c)
  }

  /** A sleeping reader is in its waiting loop, so the read end is open. */
  lemma DownReads(s: PipeState, q: nat, c: Chans, lock: nat)
    requires c.r != c.w && |s.stage| == |s.k.at| == |s.k.owed| && ReaderDown(s, q, c) && StageOk(s, q, c, lock)
    ensures s.stage[q].ReadLoop? && s.rfile
  {
  }

  /** A step after which there is something to read and a reader asleep, by a process with the lock, leaves that
      process on duty. */
  lemma StaysOnDuty(s: PipeState, a: PipeAction, c: Chans, lock: nat, lockOf: nat -> nat)
    requires Stepping(s, a, c, lock, lockOf) && OnDuty(s, Of(a), c, lock) && !a.WriteFail?
    requires a.Kernel? ==> !a.a.Scan?
    ensures OnDuty(PipeStep(s, a, c, lock, lockOf), Of(a), c, lock)
  {
  }

  lemma DutyFrame(s: PipeState, a: PipeAction, c: Chans, lock: nat, lockOf: nat -> nat, p: nat)
    requires Inv(s.k, lockOf) && PipeEnabled(s, a, c, lock, lockOf) && p != Of(a) && OnDuty(s, p, c, lock)
    requires StageOk(s, p, c, lock)
    ensures OnDuty(PipeStep(s, a, c, lock, lockOf), p, c, lock)
  {
    MoveFrame(s, a, lock, p, false);
    KernelFrame(s, a, c, lock, lockOf, p);
  }

  /** A wakeup on the readers' channel finds every reader that sleeps on it. */
  lemma ScanClears(s: PipeState, p: nat, c: Chans, lock: nat, lockOf: nat -> nat)
    requires Inv(s.k, lockOf) && PipeEnabled(s, Kernel(Scan(p)), c, lock, lockOf) && s.k.at[p].c == c.r
    ensures forall q: nat :: !ReaderDown(PipeStep(s, Kernel(Scan(p)), c, lock, lockOf), q, c)
  {
    var t := PipeStep(s, Kernel(Scan(p)), c, lock, lockOf);
    forall q: nat ensures !ReaderDown(t, q, c) {
      assert ProcOk(s.k, p, lockOf);
      assert q < |s.k.at| ==> ProcOk(s.k, q, lockOf);
    }
  }

  lemma Revealed(s: PipeState, a: PipeAction, c: Chans, lock: nat, lockOf: nat -> nat)
    requires Stepping(s, a, c, lock, lockOf) && !CanRead(s) && CanRead(PipeStep(s, a, c, lock, lockOf))
    ensures OnDuty(PipeStep(s, a, c, lock, lockOf), Of(a), c, lock)
  {
  }

  lemma NewlyDown(s: PipeState, a: PipeAction, c: Chans, lock: nat, lockOf: nat -> nat, q: nat)
    requires Stepping(s, a, c, lock, lockOf) && ReaderDown(PipeStep(s, a, c, lock, lockOf), q, c) && CanRead(s)
    ensures ReaderDown(s, q, c)
  {
    assert ProcOk(s.k, Of(a), lockOf);
    if q != Of(a) {
      KernelFrame(s, a, c, lock, lockOf, q);
    }
  }

  lemma WatchedStep(s: PipeState, a: PipeAction, c: Chans, lock: nat, lockOf: nat -> nat)
    requires OwnLock(c, lock, lockOf) && PipeInv(s, c, lock, lockOf) && PipeEnabled(s, a, c, lock, lockOf)
    requires Watched(s, c, lock) && !Strands(s, a, c)
    ensures Watched(PipeStep(s, a, c, lock, lockOf), c, lock)
  {
    var t := PipeStep(s, a, c, lock, lockOf);
    assert StageOk(s, Of(a), c, lock);
    if CanRead(t) && exists q: nat :: ReaderDown(t, q, c) {
      if !CanRead(s) {
        Revealed(s, a, c, lock, lockOf);
      } else {
        var q: nat :| ReaderDown(t, q, c);
        NewlyDown(s, a, c, lock, lockOf, q);
        var p: nat :| OnDuty(s, p, c, lock);
        assert StageOk(s, p, c, lock);
        if p != Of(a) {
          DutyFrame(s, a, c, lock, lockOf, p);
        } else {
          if a.Kernel? && a.a.Scan? {
            ScanClears(s, p, c, lock, lockOf);
          }
          StaysOnDuty(s, a, c, lock, lockOf);
        }
      }
    }
  }

  /** What pipes promise whenever the lock is free: a reader sleeps only while there is nothing to read and
      somebody can still write. */
  ghost predicate ReadersPromise(s: PipeState, c: Chans, lock: nat) {
    lock !in s.k.held ==> forall q: nat :: ReaderDown(s, q, c) ==> s.got == s.wrote && s.writeopen
  }

  lemma WatchedPromises(s: PipeState, c: Chans, lock: nat, lockOf: nat -> nat)
    requires PipeInv(s, c, lock, lockOf) && Watched(s, c, lock)
    ensures ReadersPromise(s, c, lock)
  {
    Counters(s.ring, s.wrote, |s.got|);
  }

  /** Whenever that step is taken, by a killed writer, a reader is left asleep beside a full buffer. */
  lemma StrandsBreaks(s: PipeState, a: PipeAction, c: Chans, lock: nat, lockOf: nat -> nat)
    requires OwnLock(c, lock, lockOf) && PipeInv(s, c, lock, lockOf) && PipeEnabled(s, a, c, lock, lockOf)
    requires Strands(s, a, c)
    ensures var t := PipeStep(s, a, c, lock, lockOf);
      && Of(a) in s.killed && lock !in t.k.held && |t.wrote| - |t.got| == PIPESIZE && t.readopen
      && (exists q: nat :: ReaderDown(t, q, c)) && !ReadersPromise(t, c, lock)
  {
    var t := PipeStep(s, a, c, lock, lockOf);
    Counters(s.ring, s.wrote, |s.got|);
    var q: nat :| ReaderDown(s, q, c);
    assert StageOk(s, q, c, lock) && StageOk(s, Of(a), c, lock);
    DownReads(s, q, c, lock);
    assert ReaderDown(t, q, c);
  }

  ghost predicate AlwaysPromised(s: PipeState, run: seq<PipeAction>, c: Chans, lock: nat, lockOf: nat -> nat)
    requires IsPipeRun(s, run, c, lock, lockOf)
    decreases |run|
  {
    && ReadersPromise(s, c, lock)
    && (run != [] ==> AlwaysPromised(PipeStep(s, run[0], c, lock, lockOf), run[1..], c, lock, lockOf))
  }

  ghost predicate NeverStrands(s: PipeState, run: seq<PipeAction>, c: Chans, lock: nat, lockOf: nat -> nat)
    requires IsPipeRun(s, run, c, lock, lockOf)
    decreases |run|
  {
    run != [] ==>
      !Strands(s, run[0], c) && NeverStrands(PipeStep(s, run[0], c, lock, lockOf), run[1..], c, lock, lockOf)
  }

  /** Over a run that starts with the readers watched, the promise holds throughout if and only if no writer
      ever gives up on a full pipe while a reader sleeps. */
  lemma {:induction false} PromiseIff(s: PipeState, run: seq<PipeAction>, c: Chans, lock: nat, lockOf: nat -> nat)
    requires OwnLock(c, lock, lockOf) && PipeInv(s, c, lock, lockOf) && IsPipeRun(s, run, c, lock, lockOf)
    requires Watched(s, c, lock)
    ensures AlwaysPromised(s, run, c, lock, lockOf) <==> NeverStrands(s, run, c, lock, lockOf)
    ensures NeverStrands(s, run, c, lock, lockOf) ==> Watched(PipeRun(s, run, c, lock, lockOf), c, lock)
    decreases |run|
  {
    WatchedPromises(s, c, lock, lockOf);
    if run != [] {
      var t := PipeStep(s, run[0], c, lock, lockOf);
      PipeStepInv(s, run[0], c, lock, lockOf);
      if Strands(s, run[0], c) {
        StrandsBreaks(s, run[0], c, lock, lockOf);
        assert !AlwaysPromised(t, run[1..], c, lock, lockOf);
      } else {
        WatchedStep(s, run[0], c, lock, lockOf);
        PromiseIff(t, run[1..], c, lock, lockOf);
      }
    }
  }

  /** In every interleaving from the pipe's creation: the promise to readers holds throughout exactly if no
      writer gives up on a full pipe while a reader sleeps. */
  lemma ReadersWokenIff(s: PipeState, run: seq<PipeAction>, c: Chans, lock: nat, lockOf: nat -> nat)
    requires OwnLock(c, lock, lockOf) && Init(s, c) && IsPipeRun(s, run, c, lock, lockOf)
    ensures AlwaysPromised(s, run, c, lock, lockOf) <==> NeverStrands(s, run, c, lock, lockOf)
  {
    InitInv(s, c, lock, lockOf);
    PromiseIff(s, run, c, lock, lockOf);
  }

  predicate IsKill(a: PipeAction) {
    a.Killed? || (a.Kernel? && a.a.Kill?)
  }

  lemma {:induction false} NobodyStrands(s: PipeState, run: seq<PipeAction>, c: Chans, lock: nat, lockOf: nat -> nat)
    requires OwnLock(c, lock, lockOf) && PipeInv(s, c, lock, lockOf) && IsPipeRun(s, run, c, lock, lockOf)
    requires s.killed == {} && forall i :: 0 <= i < |run| ==> !IsKill(run[i])
    ensures NeverStrands(s, run, c, lock, lockOf)
    decreases |run|
  {
    if run != [] {
      if Strands(s, run[0], c) {
        StrandsBreaks(s, run[0], c, lock, lockOf);
      }
      PipeStepInv(s, run[0], c, lock, lockOf);
      NobodyStrands(PipeStep(s, run[0], c, lock, lockOf), run[1..], c, lock, lockOf);
    }
  }

  /** A run without kills keeps what pipes promise to readers. */
  lemma ReadersWoken(s: PipeState, run: seq<PipeAction>, c: Chans, lock: nat, lockOf: nat -> nat)
    requires OwnLock(c, lock, lockOf) && Init(s, c) && IsPipeRun(s, run, c, lock, lockOf)
    requires s.killed == {} && forall i :: 0 <= i < |run| ==> !IsKill(run[i])
    ensures AlwaysPromised(s, run, c, lock, lockOf)
  {
    InitInv(s, c, lock, lockOf);
    NobodyStrands(s, run, c, lock, lockOf);
    ReadersWokenIff(s, run, c, lock, lockOf);
  }

  /** And after a writer has given up, the next completed wakeup of the readers restores the promise: it
      leaves no reader asleep, and from there on the same holds again. */
  lemma WakeupRestores(s: PipeState, one: seq<PipeAction>, p: nat, two: seq<PipeAction>,
                       c: Chans, lock: nat, lockOf: nat -> nat)
    requires OwnLock(c, lock, lockOf) && Init(s, c) && IsPipeRun(s, one, c, lock, lockOf)
    requires PipeEnabled(PipeRun(s, one, c, lock, lockOf), Kernel(Scan(p)), c, lock, lockOf)
    requires PipeRun(s, one, c, lock, lockOf).k.at[p].c == c.r
    requires IsPipeRun(PipeStep(PipeRun(s, one, c, lock, lockOf), Kernel(Scan(p)), c, lock, lockOf), two, c, lock,
               lockOf)
    ensures var t := PipeStep(PipeRun(s, one, c, lock, lockOf), Kernel(Scan(p)), c, lock, lockOf);
      && (forall q: nat :: !ReaderDown(t, q, c))
      && (AlwaysPromised(t, two, c, lock, lockOf) <==> NeverStrands(t, two, c, lock, lockOf))
  {
    InitInv(s, c, lock, lockOf);
    PipeRunInv(s, one, c, lock, lockOf);
    var m := PipeRun(s, one, c, lock, lockOf);
    ScanClears(m, p, c, lock, lockOf);
    PipeStepInv(m, Kernel(Scan(p)), c, lock, lockOf);
    PromiseIff(PipeStep(m, Kernel(Scan(p)), c, lock, lockOf), two, c, lock, lockOf);
  }

  /** Whenever the pipe's lock is free a writer asleep means a full buffer and an open read end, kills or
      not: a killed reader gives up only on an empty pipe. */
  lemma WritersHaveCause(s: PipeState, run: seq<PipeAction>, c: Chans, lock: nat, lockOf: nat -> nat, p: nat)
    requires OwnLock(c, lock, lockOf) && Init(s, c) && IsPipeRun(s, run, c, lock, lockOf)
    ensures var t := PipeRun(s, run, c, lock, lockOf);
      p < |t.k.at| && lock !in t.k.held && t.k.at[p] == Asleep(c.w) ==> |t.wrote| - |t.got| == PIPESIZE && t.readopen
  {
    InitInv(s, c, lock, lockOf);
    PipeRunInv(s, run, c, lock, lockOf);
    var t := PipeRun(s, run, c, lock, lockOf);
    Counters(t.ring, t.wrote, |t.got|);
    if p < |t.k.at| && lock !in t.k.held && t.k.at[p] == Asleep(c.w) {
      assert ProcOk(t.k, p, lockOf);
      forall q | 0 <= q < |t.k.owed| ensures c.w !in t.k.owed[q] {
        assert StageOk(t, q, c, lock);
      }
    }
  }

  // ---- why kills are set apart ----

  lemma {:induction false} RunJoin(s: PipeState, one: seq<PipeAction>, m: PipeState, two: seq<PipeAction>, t: PipeState,
                                   c: Chans, lock: nat, lockOf: nat -> nat)
    requires Goes(s, one, m, c, lock, lockOf) && Goes(m, two, t, c, lock, lockOf)
    ensures Goes(s, one + two, t, c, lock, lockOf)
    decreases |one|
  {
    if one == [] {
      assert one + two == two;
    } else {
      assert (one + two)[1..] == one[1..] + two;
      RunJoin(PipeStep(s, one[0], c, lock, lockOf), one[1..], m, two, t, c, lock, lockOf);
    }
  }

  /** t is s after writer p, holding the lock, has copied k bytes. */
  predicate Copied(s: PipeState, t: PipeState, p: nat, k: nat) {
    && p < |s.stage| == |t.stage| && s.stage[p].WriteLoop? && t.stage[p] == WriteLoop(s.stage[p].src, s.stage[p].i + k)
    && (forall q :: 0 <= q < |s.stage| && q != p ==> t.stage[q] == s.stage[q])
    && t.k.at == s.k.at && t.k.held == s.k.held && |t.wrote| == |s.wrote| + k && t.got == s.got
    && t.readopen == s.readopen && t.killed == s.killed
  }

  lemma CopyOne(s: PipeState, p: nat, c: Chans, lock: nat, lockOf: nat -> nat) returns (t: PipeState)
    requires OwnLock(c, lock, lockOf) && PipeInv(s, c, lock, lockOf) && p < |s.stage| && s.stage[p].WriteLoop?
    requires s.k.at[p].Running? && s.stage[p].i < |s.stage[p].src| && |s.wrote| < |s.got| + PIPESIZE
    ensures One(s, PutByte(p), t, c, lock, lockOf) && Copied(s, t, p, 1) && PipeInv(t, c, lock, lockOf)
  {
    Counters(s.ring, s.wrote, |s.got|);
    assert StageOk(s, p, c, lock);
    t := PipeStep(s, PutByte(p), c, lock, lockOf);
    PipeStepInv(s, PutByte(p), c, lock, lockOf);
  }

  lemma {:induction false} Copies(s: PipeState, p: nat, k: nat, c: Chans, lock: nat, lockOf: nat -> nat)
    returns (run: seq<PipeAction>, t: PipeState)
    requires OwnLock(c, lock, lockOf) && PipeInv(s, c, lock, lockOf) && p < |s.stage| && s.stage[p].WriteLoop?
    requires s.k.at[p].Running? && s.stage[p].i + k <= |s.stage[p].src| && |s.wrote| + k <= |s.got| + PIPESIZE
    ensures Goes(s, run, t, c, lock, lockOf) && Copied(s, t, p, k) && PipeInv(t, c, lock, lockOf)
    decreases k
  {
    if k == 0 {
      return [], s;
    }
    var next := CopyOne(s, p, c, lock, lockOf);
    run, t := Copies(next, p, k - 1, c, lock, lockOf);
    StepRun(s, PutByte(p), next, run, t, c, lock, lockOf);
    run := [PutByte(p)] + run;
  }

  predicate One(s: PipeState, a: PipeAction, t: PipeState, c: Chans, lock: nat, lockOf: nat -> nat) {
    PipeEnabled(s, a, c, lock, lockOf) && PipeStep(s, a, c, lock, lockOf) == t
  }

  predicate Goes(s: PipeState, run: seq<PipeAction>, t: PipeState, c: Chans, lock: nat, lockOf: nat -> nat) {
    IsPipeRun(s, run, c, lock, lockOf) && PipeRun(s, run, c, lock, lockOf) == t
  }

  lemma StepRun(s: PipeState, a: PipeAction, next: PipeState, rest: seq<PipeAction>, t: PipeState, c: Chans, lock: nat,
                lockOf: nat -> nat)
    requires One(s, a, next, c, lock, lockOf) && Goes(next, rest, t, c, lock, lockOf)
    ensures Goes(s, [a] + rest, t, c, lock, lockOf)
  {
    assert ([a] + rest)[1..] == rest;
  }

  const CHANS := Chans(0, 1)

  function LockOf(d: nat): nat {
    if d <= 1 then 0 else d
  }

  /** Two processes and an empty pipe. */
  function Scene(at0: Where, table: Holder, held: map<nat, nat>, killed: set<nat>, stage0: Stage,
                 stage1: Stage): PipeState {
    PipeState(State([at0, Running], table, held, {1}, [{}, {}]), Ring(seq(PIPESIZE, _ => 0), 0, 0), [], [],
              true, true, true, true, killed, [stage0, stage1])
  }

  function Fresh(): PipeState {
    Scene(Running, Nobody, map[], {}, Outside, Outside)
  }

  function Napping(): PipeState {
    Scene(Asleep(0), Nobody, map[], {}, ReadLoop(1), Outside)
  }

  /** Process 0 asks for a byte and finds none. */
  lemma ReaderWaits()
    ensures Goes(Fresh(), [StartRead(0, 1)] + [ReadWait(0)],
              Scene(SleepWants(0), Nobody, map[0 := 0], {}, ReadLoop(1), Outside), CHANS, 0, LockOf)
  {
    var s1 := Scene(Running, Nobody, map[0 := 0], {}, ReadLoop(1), Outside);
    var s2 := Scene(SleepWants(0), Nobody, map[0 := 0], {}, ReadLoop(1), Outside);
    StepRun(s1, ReadWait(0), s2, [], s2, CHANS, 0, LockOf);
    StepRun(Fresh(), StartRead(0, 1), s1, [ReadWait(0)], s2, CHANS, 0, LockOf);
  }

  lemma ReaderFallsAsleep()
    ensures Goes(Scene(SleepHasTable(0), Proc(0), map[], {}, ReadLoop(1), Outside), [Kernel(Doze(0))], Napping(), CHANS,
              0, LockOf)
  {
    StepRun(Scene(SleepHasTable(0), Proc(0), map[], {}, ReadLoop(1), Outside), Kernel(Doze(0)), Napping(), [],
        Napping(), CHANS, 0, LockOf);
  }

  lemma ReaderLetsGo()
    ensures Goes(Scene(SleepHasBoth(0), Proc(0), map[0 := 0], {}, ReadLoop(1), Outside),
              [Kernel(LetGo(0))] + [Kernel(Doze(0))], Napping(), CHANS, 0, LockOf)
  {
    var s3 := Scene(SleepHasBoth(0), Proc(0), map[0 := 0], {}, ReadLoop(1), Outside);
    var s4 := Scene(SleepHasTable(0), Proc(0), map[], {}, ReadLoop(1), Outside);
    ReaderFallsAsleep();
    StepRun(s3, Kernel(LetGo(0)), s4, [Kernel(Doze(0))], Napping(), CHANS, 0, LockOf);
  }

  lemma ReaderDozes()
    ensures Goes(Scene(SleepWants(0), Nobody, map[0 := 0], {}, ReadLoop(1), Outside),
              [Kernel(TakeTable(0))] + ([Kernel(LetGo(0))] + [Kernel(Doze(0))]), Napping(), CHANS, 0, LockOf)
  {
    var s2 := Scene(SleepWants(0), Nobody, map[0 := 0], {}, ReadLoop(1), Outside);
    var s3 := Scene(SleepHasBoth(0), Proc(0), map[0 := 0], {}, ReadLoop(1), Outside);
    ReaderLetsGo();
    StepRun(s2, Kernel(TakeTable(0)), s3, [Kernel(LetGo(0))] + [Kernel(Doze(0))], Napping(), CHANS, 0, LockOf);
  }

  /** Process 1, killed in the meantime, starts to write. */
  lemma WriterStarts(src: seq<byte>)
    ensures Goes(Napping(), [Killed(1)] + [StartWrite(1, src)],
              Scene(Asleep(0), Nobody, map[0 := 1], {1}, ReadLoop(1), WriteLoop(src, 0)), CHANS, 0, LockOf)
  {
    var s6 := Scene(Asleep(0), Nobody, map[], {1}, ReadLoop(1), Outside);
    var s7 := Scene(Asleep(0), Nobody, map[0 := 1], {1}, ReadLoop(1), WriteLoop(src, 0));
    StepRun(s6, StartWrite(1, src), s7, [], s7, CHANS, 0, LockOf);
    StepRun(Napping(), Killed(1), s6, [StartWrite(1, src)], s7, CHANS, 0, LockOf);
  }

  lemma UntilTheCopy(src: seq<byte>) returns (run: seq<PipeAction>)
    ensures Goes(Fresh(), run, Scene(Asleep(0), Nobody, map[0 := 1], {1}, ReadLoop(1), WriteLoop(src, 0)), CHANS, 0,
              LockOf)
  {
    var s2 := Scene(SleepWants(0), Nobody, map[0 := 0], {}, ReadLoop(1), Outside);
    var s7 := Scene(Asleep(0), Nobody, map[0 := 1], {1}, ReadLoop(1), WriteLoop(src, 0));
    var r0, r1, r2 := [StartRead(0, 1)] + [ReadWait(0)],
        [Kernel(TakeTable(0))] + ([Kernel(LetGo(0))] + [Kernel(Doze(0))]), [Killed(1)] + [StartWrite(1, src)];
    ReaderWaits();
    ReaderDozes();
    WriterStarts(src);
    RunJoin(Fresh(), r0, s2, r1, Napping(), CHANS, 0, LockOf);
    RunJoin(Fresh(), r0 + r1, Napping(), r2, s7, CHANS, 0, LockOf);
    run := r0 + r1 + r2;
  }

  lemma WriterQuits(s: PipeState, p: nat, c: Chans, lock: nat, lockOf: nat -> nat) returns (t: PipeState)
    requires PipeInv(s, c, lock, lockOf) && p < |s.stage| && s.stage[p].WriteLoop? && s.stage[p].i < |s.stage[p].src|
    requires s.k.at[p].Running? && |s.wrote| == |s.got| + PIPESIZE && p in s.killed
    ensures One(s, WriteFail(p), t, c, lock, lockOf)
    ensures t.k.at == s.k.at && lock !in t.k.held && t.wrote == s.wrote && t.got == s.got
  {
    Counters(s.ring, s.wrote, |s.got|);
    assert StageOk(s, p, c, lock);
    t := PipeStep(s, WriteFail(p), c, lock, lockOf);
  }

  /** A killed writer that gives up on a full pipe leaves a reader asleep beside a full buffer. */
  lemma KilledWriterStrandsReader() returns (run: seq<PipeAction>, t: PipeState)
    ensures OwnLock(CHANS, 0, LockOf) && Init(Fresh(), CHANS) && Goes(Fresh(), run, t, CHANS, 0, LockOf)
    ensures 0 !in t.k.held && |t.k.at| == 2 && t.k.at[0] == Asleep(CHANS.r) && |t.wrote| - |t.got| == PIPESIZE
  {
    var src := seq(PIPESIZE + 1, _ => 0 as byte);
    var s := Scene(Asleep(0), Nobody, map[0 := 1], {1}, ReadLoop(1), WriteLoop(src, 0));
    var run0 := UntilTheCopy(src);
    InitInv(Fresh(), CHANS, 0, LockOf);
    PipeRunInv(Fresh(), run0, CHANS, 0, LockOf);
    var run1, m := Copies(s, 1, PIPESIZE, CHANS, 0, LockOf);
    t := WriterQuits(m, 1, CHANS, 0, LockOf);
    StepRun(m, WriteFail(1), t, [], t, CHANS, 0, LockOf);
    RunJoin(Fresh(), run0, s, run1, m, CHANS, 0, LockOf);
    RunJoin(Fresh(), run0 + run1, m, [WriteFail(1)], t, CHANS, 0, LockOf);
    run := run0 + run1 + [WriteFail(1)];
    assert [WriteFail(1)] + [] == [WriteFail(1)];
  }
}
