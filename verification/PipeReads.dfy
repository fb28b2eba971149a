/** What one piperead returns: a run of consecutive bytes of the stream, even when readers and writers
    are interleaved and processes are killed. */
module PipeReads {
  import opened PipeSystem
  import opened PipeFifo
  import opened PipeWakeup

  /** Past the waiting loop, with the lock still held. */
  predicate Copying(pc: Pc) { pc.Copy? || pc.Wake? || pc.Finish? }

  predicate GotOk(th: Thread, delivered: seq<Byte>) {
    th.call.Read? && !th.pc.Idle? ==>
      var got := th.call.got;
      if Copying(th.pc)
        then
          && |got| <= |delivered| && got == delivered[|delivered| - |got|..]
          && (th.pc.Finish? && th.pc.ret >= 0 ==> th.pc.ret == |got|)
          && (th.pc.Wake? ==> !th.pc.thenSleep)
        else got == []
  }

  ghost predicate Gots(threads: seq<Thread>, delivered: seq<Byte>) {
    forall t :: 0 <= t < |threads| ==> GotOk(threads[t], delivered)
  }

  lemma GotCopy(s: State, t: nat)
    requires t < |s.threads| && |s.pipe.data| == PIPESIZE && s.threads[t].pc.Copy? && s.threads[t].call.Read?
    requires GotOk(s.threads[t], s.delivered)
    ensures |ReadCopy(s, t).threads| == |s.threads| && GotOk(ReadCopy(s, t).threads[t], ReadCopy(s, t).delivered)
  {
    hide Take, Next, Empty;
    var got, b := s.threads[t].call.got, Next(s.pipe);
    assert (s.delivered + [b])[|s.delivered| - |got|..] == s.delivered[|s.delivered| - |got|..] + [b];
  }

  lemma GotGo(s: State, t: nat)
    requires t < |s.threads| && |s.pipe.data| == PIPESIZE && GotOk(s.threads[t], s.delivered)
    ensures |DoGo(s, t).threads| == |s.threads| && GotOk(DoGo(s, t).threads[t], DoGo(s, t).delivered)
  {
    hide ReadCopy, Put, Take, Next, Full, Empty;
    if s.threads[t].pc.Copy? && s.threads[t].call.Read? { GotCopy(s, t); }
  }

  lemma GotHere(s: State, a: Action)
    requires Enabled(s, a) && GotOk(s.threads[a.t], s.delivered)
    ensures |Step(s, a).threads| == |s.threads| && GotOk(Step(s, a).threads[a.t], Step(s, a).delivered)
  {
    hide DoGo;
    if a.Go? { GotGo(s, a.t); }
  }

  /** Only the thread with the lock delivers bytes. */
  lemma GotElsewhere(s: State, a: Action, u: nat)
    requires Enabled(s, a) && u < |s.threads| && u != a.t && GotOk(s.threads[u], s.delivered)
    requires (HoldsLock(s.threads[u].pc) <==> s.lock == By(u)) && (HoldsLock(s.threads[a.t].pc) <==> s.lock == By(a.t))
    ensures |Step(s, a).threads| == |s.threads| && GotOk(Step(s, a).threads[u], Step(s, a).delivered)
  {}

  lemma GotsStep(s: State, a: Action)
    requires Locks(s.lock, s.plock, s.threads) && Gots(s.threads, s.delivered)
    ensures Gots(Step(s, a).threads, Step(s, a).delivered)
  {
    hide GotOk, DoGo, DoStart, DoKill, HoldsLock, HoldsTable;
    if Enabled(s, a) {
      Effect(s, a);
      forall u: nat | u < |s.threads| ensures GotOk(Step(s, a).threads[u], Step(s, a).delivered) {
        if u == a.t { GotHere(s, a); } else { GotElsewhere(s, a, u); }
      }
    }
  }

  lemma {:induction false} RunGots(data: seq<Byte>, n: nat, acts: seq<Action>)
    requires |data| == PIPESIZE
    ensures var s := Run(Alloc(data, n), acts); Locks(s.lock, s.plock, s.threads) && Gots(s.threads, s.delivered)
  {
    if acts != [] {
      RunGots(data, n, acts[..|acts| - 1]);
      var s := Run(Alloc(data, n), acts[..|acts| - 1]);
      LocksStep(s, acts[|acts| - 1]);
      GotsStep(s, acts[|acts| - 1]);
    }
  }

  /** When piperead is about to return k >= 0, it has the k bytes of the stream just before the current
      read position. */
  lemma ReadIsASlice(data: seq<Byte>, n: nat, acts: seq<Action>, t: nat)
    requires |data| == PIPESIZE
    requires var s := Run(Alloc(data, n), acts);
             t < |s.threads| && s.threads[t].call.Read? && s.threads[t].pc.Finish? && s.threads[t].pc.ret >= 0
    ensures var s := Run(Alloc(data, n), acts);
            var k := s.threads[t].pc.ret;
            && k <= |s.delivered| <= |s.stored| && |s.threads[t].call.got| == k
            && s.threads[t].call.got == s.stored[|s.delivered| - k..|s.delivered|]
  {
    hide Run, Alloc, Ring;
    var s := Run(Alloc(data, n), acts);
    RunGots(data, n, acts);
    RunRing(data, n, acts);
    Prefix(s);
    assert GotOk(s.threads[t], s.delivered);
  }

  lemma Prefix(s: State)
    requires RingOk(s)
    ensures |s.delivered| <= |s.stored| && s.delivered == s.stored[..|s.delivered|]
  {}
}
