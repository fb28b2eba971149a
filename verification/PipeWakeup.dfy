/** No lost wakeup: with the pipe's lock free, no reader sleeps on a non-empty or write-closed pipe and
    no writer on a non-full or read-closed one. On every run, kills included, this holds exactly as long
    as pipewrite does not give up on a full pipe while a reader sleeps. */
module PipeWakeup {
  import opened PipeSystem
  import F = PipeFifo

  // ---- Who holds what --------------------------------------------------------------------

  predicate HoldsLock(pc: Pc) { pc.Body? || pc.Copy? || pc.Wake? || pc.Sleep1? || pc.Sleep2? || pc.Finish? }

  predicate HoldsTable(pc: Pc) { pc.Sleep2? || pc.Sleep3? }

  ghost predicate Locks(lock: Holder, plock: Holder, threads: seq<Thread>) {
    && (forall t :: 0 <= t < |threads| ==> (HoldsLock(threads[t].pc) <==> lock == By(t)))
    && (forall t :: 0 <= t < |threads| ==> (HoldsTable(threads[t].pc) <==> plock == By(t)))
  }

  /** The stations each call passes through. */
  predicate Shape(th: Thread) {
    && (th.pc.Copy? ==> th.call.Read?)
    && (th.pc.Wake? ==> match th.call
                        case Write(src, i) => th.pc.chan == NRead
                        case Read(n, got) => th.pc == Wake(NWrite, false)
                        case Close(w) => th.pc == Wake(if w then NRead else NWrite, false))
    && (Dozing(th.pc, NRead) ==> th.call.Read?)
    && (Dozing(th.pc, NWrite) ==> th.call.Write?)
  }

  /** Inside sleep on `chan`, not woken yet. */
  predicate Dozing(pc: Pc, chan: Chan) {
    pc == Sleep1(chan) || pc == Sleep2(chan) || pc == Sleep3(chan) || pc == Asleep(chan)
  }

  /** This thread, holding the lock, will call wakeup(chan) before it lets go. */
  predicate Owes(th: Thread, chan: Chan) {
    || (th.pc.Wake? && th.pc.chan == chan)
    || (chan == NRead && th.pc.Body? && th.call.Write?)
    || (chan == NWrite && th.pc.Copy?)
  }

  predicate Owed(lock: Holder, threads: seq<Thread>, chan: Chan) {
    lock.By? && lock.t < |threads| && Owes(threads[lock.t], chan)
  }

  predicate MaySleep(p: Pipe, chan: Chan) {
    match chan
    case NRead => Empty(p) && p.writeopen
    case NWrite => Full(p) && p.readopen
  }

  ghost predicate Sleepers(p: Pipe, lock: Holder, threads: seq<Thread>, chan: Chan) {
    forall t :: 0 <= t < |threads| && Dozing(threads[t].pc, chan) ==> MaySleep(p, chan) || Owed(lock, threads, chan)
  }

  /** pipewrite has seen a full, open pipe and is about to wake readers and sleep. */
  ghost predicate Blocked(p: Pipe, threads: seq<Thread>) {
    forall t :: 0 <= t < |threads| && threads[t].pc == Wake(NRead, true) ==>
        threads[t].call.Write? && MaySleep(p, NWrite)
  }

  // ---- The invariant ---------------------------------------------------------------------

  ghost predicate Shapes(threads: seq<Thread>) { forall t :: 0 <= t < |threads| ==> Shape(threads[t]) }

  /** What holds on every run whatsoever. */
  ghost predicate Inv(s: State) {
    Locks(s.lock, s.plock, s.threads) && Shapes(s.threads) && Blocked(s.pipe, s.threads)
  }

  /** Every sleeper has a reason to sleep, or the holder of the lock is about to wake it. */
  ghost predicate Justified(s: State) {
    Sleepers(s.pipe, s.lock, s.threads, NRead) && Sleepers(s.pipe, s.lock, s.threads, NWrite)
  }

  /** pipewrite returns -1 from a full pipe, because the read end is closed or its process is killed,
      and so without a wakeup, while a reader is asleep or falling asleep. */
  ghost predicate Drops(s: State, a: Action) {
    && Enabled(s, a) && a.Go?
    && var th := s.threads[a.t];
    && th.pc.Body? && th.call.Write? && th.call.i < |th.call.src|
    && Full(s.pipe) && (!s.pipe.readopen || th.killed)
    && exists u :: 0 <= u < |s.threads| && Dozing(s.threads[u].pc, NRead)
  }

  /** One thread moves; a lock changes hands only between it and nobody. */
  lemma LocksMove(lock: Holder, plock: Holder, threads: seq<Thread>, t: nat, th: Thread, lock': Holder, plock': Holder)
    requires Locks(lock, plock, threads) && t < |threads|
    requires lock' == lock || (lock in {Free, By(t)} && lock' in {Free, By(t)})
    requires plock' == plock || (plock in {Free, By(t)} && plock' in {Free, By(t)})
    requires (HoldsLock(th.pc) <==> lock' == By(t)) && (HoldsTable(th.pc) <==> plock' == By(t))
    ensures Locks(lock', plock', threads[t := th])
  {}

  lemma LocksRouse(lock: Holder, plock: Holder, threads: seq<Thread>, chan: Chan)
    requires Locks(lock, plock, threads)
    ensures Locks(lock, plock, RouseAll(threads, chan))
  {}

  predicate Enabled(s: State, a: Action) { !s.pipe.freed && |s.pipe.data| == PIPESIZE && a.t < |s.threads| }

  /** The threads once the step has called wakeup1, if it does. */
  function Roused(s: State, a: Action): (r: seq<Thread>)
    requires a.t < |s.threads|
    ensures |r| == |s.threads|
  {
    if a.Go? && s.threads[a.t].pc.Wake? && s.plock.Free? then RouseAll(s.threads, s.threads[a.t].pc.chan) else s.threads
  }

  /** Every step is: some sleepers roused, then one thread moved. */
  lemma Effect(s: State, a: Action)
    requires Enabled(s, a)
    ensures var s' := Step(s, a);
            |s'.threads| == |s.threads| && s'.threads == Roused(s, a)[a.t := s'.threads[a.t]]
  {
    var s' := Step(s, a);
    assert |s'.threads| == |s.threads|;
  }

  lemma LocksHere(s: State, a: Action)
    requires Enabled(s, a)
    requires (HoldsLock(s.threads[a.t].pc) <==> s.lock == By(a.t))
    requires (HoldsTable(s.threads[a.t].pc) <==> s.plock == By(a.t))
    ensures var s', th := Step(s, a), s.threads[a.t];
            && |s'.threads| == |s.threads|
            && (s'.lock == s.lock || (s.lock in {Free, By(a.t)} && s'.lock in {Free, By(a.t)}))
            && (s'.plock == s.plock || (s.plock in {Free, By(a.t)} && s'.plock in {Free, By(a.t)}))
            && (HoldsLock(s'.threads[a.t].pc) <==> s'.lock == By(a.t))
            && (HoldsTable(s'.threads[a.t].pc) <==> s'.plock == By(a.t))
  {}

  lemma LocksAt(lock: Holder, plock: Holder, threads: seq<Thread>, t: nat)
    requires Locks(lock, plock, threads) && t < |threads|
    ensures (HoldsLock(threads[t].pc) <==> lock == By(t)) && (HoldsTable(threads[t].pc) <==> plock == By(t))
  {}

  lemma LocksStep(s: State, a: Action)
    requires Locks(s.lock, s.plock, s.threads)
    ensures var s' := Step(s, a); Locks(s'.lock, s'.plock, s'.threads)
  {
    hide Locks, RouseAll, DoGo, DoStart, DoKill, HoldsLock, HoldsTable;
    if Enabled(s, a) {
      var s' := Step(s, a);
      Effect(s, a);
      LocksAt(s.lock, s.plock, s.threads, a.t);
      LocksHere(s, a);
      if s.threads[a.t].pc.Wake? { LocksRouse(s.lock, s.plock, s.threads, s.threads[a.t].pc.chan); }
      LocksMove(s.lock, s.plock, Roused(s, a), a.t, s'.threads[a.t], s'.lock, s'.plock);
    }
  }

  lemma ShapesMove(threads: seq<Thread>, t: nat, th: Thread)
    requires Shapes(threads) && t < |threads| && Shape(th)
    ensures Shapes(threads[t := th])
  {}

  lemma ShapesRouse(threads: seq<Thread>, chan: Chan)
    requires Shapes(threads)
    ensures Shapes(RouseAll(threads, chan))
  {}

  lemma ShapeHere(s: State, a: Action)
    requires Enabled(s, a) && Shape(s.threads[a.t])
    ensures |Step(s, a).threads| == |s.threads| && Shape(Step(s, a).threads[a.t])
  {
    hide DoGo, Put, Take, Full, Empty;
    if a.Go? { ShapeGo(s, a.t); }
  }

  lemma ShapeGo(s: State, t: nat)
    requires t < |s.threads| && |s.pipe.data| == PIPESIZE && Shape(s.threads[t])
    ensures |DoGo(s, t).threads| == |s.threads| && Shape(DoGo(s, t).threads[t])
  {
    hide Put, Take, Full, Empty, WriteBody, ReadBody, ReadCopy, CloseBody;
    if s.threads[t].pc.Body? || s.threads[t].pc.Copy? { ShapeBody(s, t); }
  }

  lemma ShapeBody(s: State, t: nat)
    requires t < |s.threads| && |s.pipe.data| == PIPESIZE && Shape(s.threads[t])
    requires s.threads[t].pc.Body? || s.threads[t].pc.Copy?
    ensures s.threads[t].call.Write? ==> |WriteBody(s, t).threads| == |s.threads| && Shape(WriteBody(s, t).threads[t])
    ensures |ReadBody(s, t).threads| == |s.threads| && (s.threads[t].call.Read? ==> Shape(ReadBody(s, t).threads[t]))
    ensures s.threads[t].call.Close? ==> |CloseBody(s, t).threads| == |s.threads| && Shape(CloseBody(s, t).threads[t])
    ensures s.threads[t].call.Read? ==> |ReadCopy(s, t).threads| == |s.threads|
    ensures s.threads[t].call.Read? && s.threads[t].pc.Copy? ==> Shape(ReadCopy(s, t).threads[t])
  {
    hide Put, Take, Full, Empty;
  }

  lemma ShapesStep(s: State, a: Action)
    requires Shapes(s.threads)
    ensures Shapes(Step(s, a).threads)
  {
    hide RouseAll, DoGo, DoStart, DoKill, Shape;
    if Enabled(s, a) {
      Effect(s, a);
      ShapeHere(s, a);
      if s.threads[a.t].pc.Wake? { ShapesRouse(s.threads, s.threads[a.t].pc.chan); }
      ShapesMove(Roused(s, a), a.t, Step(s, a).threads[a.t]);
    }
  }

  lemma BlockedHere(s: State, a: Action)
    requires Enabled(s, a)
    requires (s.threads[a.t].pc == Wake(NRead, true) ==> s.threads[a.t].call.Write? && MaySleep(s.pipe, NWrite))
    ensures var s' := Step(s, a);
            && |s'.threads| == |s.threads|
            && (s'.threads[a.t].pc == Wake(NRead, true) ==> s'.threads[a.t].call.Write? && MaySleep(s'.pipe, NWrite))
            && (HoldsLock(s.threads[a.t].pc) || (MaySleep(s.pipe, NWrite) ==> MaySleep(s'.pipe, NWrite)))
  {}

  lemma BlockedStep(s: State, a: Action)
    requires Locks(s.lock, s.plock, s.threads) && Blocked(s.pipe, s.threads)
    ensures Blocked(Step(s, a).pipe, Step(s, a).threads)
  {
    hide DoGo, DoStart, DoKill, MaySleep;
    if Enabled(s, a) {
      Effect(s, a);
      BlockedHere(s, a);
    }
  }

  predicate SleepOk(p: Pipe, lock: Holder, threads: seq<Thread>, chan: Chan) {
    MaySleep(p, chan) || Owed(lock, threads, chan)
  }

  /** The acting thread itself goes to sleep only when it may. */
  lemma SleepSelf(s: State, a: Action, chan: Chan)
    requires Enabled(s, a) && Shape(s.threads[a.t])
    requires HoldsLock(s.threads[a.t].pc) <==> s.lock == By(a.t)
    requires Dozing(s.threads[a.t].pc, chan) ==> SleepOk(s.pipe, s.lock, s.threads, chan)
    requires s.threads[a.t].pc == Wake(NRead, true) ==> s.threads[a.t].call.Write? && MaySleep(s.pipe, NWrite)
    requires s.lock.By? && s.lock.t < |s.threads| ==> HoldsLock(s.threads[s.lock.t].pc)
    ensures var s' := Step(s, a);
            && |s'.threads| == |s.threads|
            && (Dozing(s'.threads[a.t].pc, chan) ==> SleepOk(s'.pipe, s'.lock, s'.threads, chan))
  {}

  /** A step of another thread that ends u's reason to sleep is followed by a wakeup, unless it drops
      one. */
  lemma SleepOther(s: State, a: Action, u: nat, chan: Chan)
    requires Enabled(s, a) && u < |s.threads| && u != a.t && Shape(s.threads[a.t]) && !Drops(s, a)
    requires Dozing(s.threads[u].pc, chan) && SleepOk(s.pipe, s.lock, s.threads, chan)
    requires HoldsLock(s.threads[a.t].pc) <==> s.lock == By(a.t)
    requires HoldsTable(s.threads[u].pc) <==> s.plock == By(u)
    requires HoldsLock(s.threads[u].pc) <==> s.lock == By(u)
    requires s.lock.By? && s.lock.t < |s.threads| ==> HoldsLock(s.threads[s.lock.t].pc)
    ensures var s' := Step(s, a);
            && |s'.threads| == |s.threads|
            && (Dozing(s'.threads[u].pc, chan) ==> SleepOk(s'.pipe, s'.lock, s'.threads, chan))
  {}

  lemma SleepersStep(s: State, a: Action, chan: Chan)
    requires Inv(s) && Sleepers(s.pipe, s.lock, s.threads, chan) && !Drops(s, a)
    ensures Sleepers(Step(s, a).pipe, Step(s, a).lock, Step(s, a).threads, chan)
  {
    hide DoGo, DoStart, DoKill, Drops;
    if Enabled(s, a) {
      var s' := Step(s, a);
      Effect(s, a);
      forall u: nat | u < |s'.threads| && Dozing(s'.threads[u].pc, chan)
        ensures SleepOk(s'.pipe, s'.lock, s'.threads, chan)
      {
        if u == a.t { SleepSelf(s, a, chan); } else { SleepOther(s, a, u, chan); }
      }
    }
  }

  lemma StepInv(s: State, a: Action)
    requires Inv(s)
    ensures Inv(Step(s, a))
    ensures Justified(s) && !Drops(s, a) ==> Justified(Step(s, a))
  {
    hide Locks, Shapes, Blocked, Sleepers, Drops;
    LocksStep(s, a);
    ShapesStep(s, a);
    BlockedStep(s, a);
    if Justified(s) && !Drops(s, a) {
      SleepersStep(s, a, NRead);
      SleepersStep(s, a, NWrite);
    }
  }

  lemma AllocInv(data: seq<Byte>, n: nat)
    requires |data| == PIPESIZE
    ensures Inv(Alloc(data, n)) && Justified(Alloc(data, n))
  {}

  lemma {:induction false} RunInv(data: seq<Byte>, n: nat, acts: seq<Action>)
    requires |data| == PIPESIZE
    ensures Inv(Run(Alloc(data, n), acts))
  {
    hide Inv, Step, Justified, Drops, Alloc;
    if acts == [] {
      AllocInv(data, n);
    } else {
      RunInv(data, n, acts[..|acts| - 1]);
      StepInv(Run(Alloc(data, n), acts[..|acts| - 1]), acts[|acts| - 1]);
    }
  }

  // ---- Runs ------------------------------------------------------------------------------

  /** A thread holds the pipe's lock while it works on the pipe, so no two do. */
  lemma OneAtATime(data: seq<Byte>, n: nat, acts: seq<Action>, t: nat, u: nat)
    requires |data| == PIPESIZE
    requires var s := Run(Alloc(data, n), acts);
             t < |s.threads| && u < |s.threads| && HoldsLock(s.threads[t].pc) && HoldsLock(s.threads[u].pc)
    ensures t == u
  {
    hide Run, Alloc, HoldsLock;
    RunInv(data, n, acts);
  }

  /** No step of the run drops a wakeup. */
  ghost predicate NoDrops(s: State, acts: seq<Action>) {
    forall k :: 0 <= k < |acts| ==> !Drops(Run(s, acts[..k]), acts[k])
  }

  lemma NoDropsBefore(s: State, acts: seq<Action>)
    requires NoDrops(s, acts) && acts != []
    ensures NoDrops(s, acts[..|acts| - 1]) && !Drops(Run(s, acts[..|acts| - 1]), acts[|acts| - 1])
  {
    hide Drops, Run;
    var before := acts[..|acts| - 1];
    forall k | 0 <= k < |before| ensures !Drops(Run(s, before[..k]), before[k]) {
      assert before[..k] == acts[..k] && before[k] == acts[k];
    }
  }

  lemma {:induction false} RunJustified(data: seq<Byte>, n: nat, acts: seq<Action>)
    requires |data| == PIPESIZE && NoDrops(Alloc(data, n), acts)
    ensures Justified(Run(Alloc(data, n), acts))
  {
    hide Inv, Step, Justified, Drops, Alloc, NoDrops;
    if acts == [] {
      AllocInv(data, n);
    } else {
      NoDropsBefore(Alloc(data, n), acts);
      RunJustified(data, n, acts[..|acts| - 1]);
      RunInv(data, n, acts[..|acts| - 1]);
      StepInv(Run(Alloc(data, n), acts[..|acts| - 1]), acts[|acts| - 1]);
    }
  }

  /** A full pipe is not empty, wrapped or not. */
  lemma FullNotEmpty(data: seq<Byte>, n: nat, acts: seq<Action>)
    requires |data| == PIPESIZE && Full(Run(Alloc(data, n), acts).pipe)
    ensures !Empty(Run(Alloc(data, n), acts).pipe)
  {
    hide Run, Alloc;
    F.RunRing(data, n, acts);
    var s := Run(Alloc(data, n), acts);
    F.Tests(s.pipe.data, s.pipe.nread, s.pipe.nwrite, s.stored, s.delivered);
  }

  /** What a dropped wakeup leaves behind: the writer about to release the lock, the reader asleep. */
  lemma DropEffect(s: State, a: Action)
    requires Inv(s) && Drops(s, a) && !Empty(s.pipe)
    ensures Step(s, a) == At(s, a.t, Finish(-1)) && Step(s, a).lock == By(a.t)
    ensures !Justified(Step(s, a))
  {
    var u :| 0 <= u < |s.threads| && Dozing(s.threads[u].pc, NRead);
    var s' := Step(s, a);
    assert s' == At(s, a.t, Finish(-1));
    assert u != a.t && s'.threads[u] == s.threads[u];
  }

  /** Exactly: every sleeper is justified at every moment of a run if and only if no step of it drops a
      wakeup. */
  lemma WakeupIff(data: seq<Byte>, n: nat, acts: seq<Action>)
    requires |data| == PIPESIZE
    ensures (forall k :: 0 <= k <= |acts| ==> Justified(Run(Alloc(data, n), acts[..k]))) <==>
              NoDrops(Alloc(data, n), acts)
  {
    hide Run, Step, Alloc, Justified, Drops, Inv;
    var s0 := Alloc(data, n);
    if NoDrops(s0, acts) {
      forall k | 0 <= k <= |acts| ensures Justified(Run(s0, acts[..k])) {
        NoDropsPrefix(s0, acts, k);
        RunJustified(data, n, acts[..k]);
      }
    } else {
      var k :| 0 <= k < |acts| && Drops(Run(s0, acts[..k]), acts[k]);
      RunInv(data, n, acts[..k]);
      DropsFull(Run(s0, acts[..k]), acts[k]);
      FullNotEmpty(data, n, acts[..k]);
      DropEffect(Run(s0, acts[..k]), acts[k]);
      RunOneMore(s0, acts, k);
    }
  }

  lemma DropsFull(s: State, a: Action)
    requires Drops(s, a)
    ensures Full(s.pipe) && a.Go?
  {}

  lemma RunOneMore(s: State, acts: seq<Action>, k: nat)
    requires k < |acts|
    ensures Run(s, acts[..k + 1]) == Step(Run(s, acts[..k]), acts[k])
  {
    hide Step;
    assert acts[..k + 1][..k] == acts[..k];
  }

  lemma NoDropsPrefix(s: State, acts: seq<Action>, k: nat)
    requires NoDrops(s, acts) && k <= |acts|
    ensures NoDrops(s, acts[..k])
  {
    hide Drops, Run;
    forall i | 0 <= i < k ensures !Drops(Run(s, acts[..k][..i]), acts[..k][i]) {
      assert acts[..k][..i] == acts[..i];
    }
  }

  // ---- With the lock free ------------------------------------------------------------------

  /** Nobody sleeps without a reason once the lock is free. */
  ghost predicate NobodyStranded(s: State) {
    s.lock.Free? ==>
      forall t :: 0 <= t < |s.threads| ==>
        && (Dozing(s.threads[t].pc, NRead) ==> Empty(s.pipe) && s.pipe.writeopen)
        && (Dozing(s.threads[t].pc, NWrite) ==> Full(s.pipe) && s.pipe.readopen)
  }

  lemma JustifiedFree(s: State)
    requires Justified(s)
    ensures NobodyStranded(s)
  {}

  /** On any run without a dropped wakeup. */
  lemma NoLostWakeup(data: seq<Byte>, n: nat, acts: seq<Action>)
    requires |data| == PIPESIZE && NoDrops(Alloc(data, n), acts)
    ensures NobodyStranded(Run(Alloc(data, n), acts))
  {
    hide Run, Alloc, NoDrops, Justified, NobodyStranded;
    RunJustified(data, n, acts);
    JustifiedFree(Run(Alloc(data, n), acts));
  }

  /** After a dropped wakeup the writer's next step, the release, leaves the reader stranded. */
  lemma DropStrands(s: State, a: Action)
    requires Inv(s) && Drops(s, a) && !Empty(s.pipe)
    ensures Step(s, a).lock.By? && !NobodyStranded(Step(Step(s, a), a))
  {
    DropEffect(s, a);
    var u :| 0 <= u < |s.threads| && Dozing(s.threads[u].pc, NRead);
    var s1 := Step(s, a);
    var s2 := Step(s1, a);
    assert s2 == At(s1.(lock := Free), a.t, Idle);
    assert s2.threads[u] == s.threads[u];
  }

  /** Nobody is stranded at any moment of the run, nor after one more step of any thread. */
  ghost predicate NeverStranded(s: State, acts: seq<Action>) {
    forall k :: 0 <= k <= |acts| ==>
      NobodyStranded(Run(s, acts[..k])) && forall t: nat :: NobodyStranded(Step(Run(s, acts[..k]), Go(t)))
  }

  /** The same exact condition for what a user sees: sleepers with the lock free. */
  lemma StrandedIff(data: seq<Byte>, n: nat, acts: seq<Action>)
    requires |data| == PIPESIZE
    ensures NeverStranded(Alloc(data, n), acts) <==> NoDrops(Alloc(data, n), acts)
  {
    hide Run, Step, Alloc, Justified, Drops, Inv, NobodyStranded;
    var s0 := Alloc(data, n);
    if NoDrops(s0, acts) {
      forall k | 0 <= k <= |acts|
        ensures NobodyStranded(Run(s0, acts[..k])) && forall t: nat :: NobodyStranded(Step(Run(s0, acts[..k]), Go(t)))
      {
        NoDropsPrefix(s0, acts, k);
        RunJustified(data, n, acts[..k]);
        RunInv(data, n, acts[..k]);
        JustifiedFree(Run(s0, acts[..k]));
        forall t: nat ensures NobodyStranded(Step(Run(s0, acts[..k]), Go(t))) {
          OneStepOn(data, n, acts[..k], t);
        }
      }
    } else {
      var k :| 0 <= k < |acts| && Drops(Run(s0, acts[..k]), acts[k]);
      var s := Run(s0, acts[..k]);
      RunInv(data, n, acts[..k]);
      DropsFull(s, acts[k]);
      FullNotEmpty(data, n, acts[..k]);
      DropStrands(s, acts[k]);
      RunOneMore(s0, acts, k);
      assert acts[k] == Go(acts[k].t);
      assert !NobodyStranded(Step(Run(s0, acts[..k + 1]), Go(acts[k].t)));
    }
  }

  lemma OneStepOn(data: seq<Byte>, n: nat, acts: seq<Action>, t: nat)
    requires |data| == PIPESIZE && NoDrops(Alloc(data, n), acts)
    ensures NobodyStranded(Step(Run(Alloc(data, n), acts), Go(t)))
  {
    hide Run, Step, Alloc, Justified, Drops, Inv, NobodyStranded, NoDrops;
    var s := Run(Alloc(data, n), acts);
    RunInv(data, n, acts);
    RunJustified(data, n, acts);
    if Drops(s, Go(t)) {
      DropsFull(s, Go(t));
      FullNotEmpty(data, n, acts);
      DropEffect(s, Go(t));
      LockHeld(Step(s, Go(t)));
    } else {
      StepInv(s, Go(t));
      JustifiedFree(Step(s, Go(t)));
    }
  }

  lemma LockHeld(s: State)
    requires s.lock.By?
    ensures NobodyStranded(s)
  {}
}
