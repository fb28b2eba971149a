/** A call that need not wait goes through, whatever happened before: how many steps it takes, and what it
    leaves. */
module PipeAlone {
  import opened PipeSystem
  import opened PipeFifo

  function Turns(t: nat, k: nat): (r: seq<Action>)
    ensures |r| == k
  {
    if k == 0 then [] else Turns(t, k - 1) + [Go(t)]
  }

  lemma NextTurn(s: State, t: nat, k: nat)
    ensures Run(s, Turns(t, k + 1)) == Step(Run(s, Turns(t, k)), Go(t))
  {
    assert Turns(t, k + 1)[..k] == Turns(t, k);
  }

  /** Nobody is in the way of thread t, which has just entered its call. */
  predicate Entering(s: State, t: nat) {
    && t < |s.threads| && !s.pipe.freed && s.lock == Free && s.plock == Free
    && s.threads[t].pc == Want && s.threads[t].call == Fresh(s.threads[t].call)
  }

  /** t has the lock and is at pc inside `call`. */
  predicate Inside(s: State, t: nat, pc: Pc, call: Call) {
    && t < |s.threads| && !s.pipe.freed && s.lock == By(t) && s.plock == Free
    && s.threads[t].pc == pc && s.threads[t].call == call
  }

  predicate SameEnds(p: Pipe, q: Pipe) { q.readopen == p.readopen && q.writeopen == p.writeopen }

  // ---- pipewrite -------------------------------------------------------------------------

  /** k bytes stored. */
  ghost predicate Stored(s: State, r: State, t: nat, src: seq<Byte>, k: nat) {
    && k <= |src| && RingOk(r) && Inside(r, t, Body, Write(src, k)) && SameEnds(s.pipe, r.pipe)
    && r.stored == s.stored + src[..k] && r.delivered == s.delivered
  }

  lemma StoreFirst(s: State, t: nat, src: seq<Byte>)
    requires RingOk(s) && Entering(s, t) && s.threads[t].call == Write(src, 0)
    ensures Stored(s, Step(s, Go(t)), t, src, 0)
  {
    hide Ring;
    RingData(s);
    assert s.stored + src[..0] == s.stored;
  }

  lemma RingData(s: State)
    requires RingOk(s)
    ensures |s.pipe.data| == PIPESIZE && |s.delivered| <= |s.stored|
  {}

  lemma StoreOne(s: State, r: State, t: nat, src: seq<Byte>, k: nat)
    requires Stored(s, r, t, src, k) && k < |src| && |s.stored| + k < |s.delivered| + PIPESIZE
    ensures Stored(s, Step(r, Go(t)), t, src, k + 1)
  {
    hide Ring, Put;
    RingData(r);
    Tests(r.pipe.data, r.pipe.nread, r.pipe.nwrite, r.stored, r.delivered);
    StepRing(r, Go(t));
    assert src[..k + 1] == src[..k] + [src[k]];
    assert s.stored + src[..k] + [src[k]] == s.stored + src[..k + 1];
    PutEnds(r.pipe, src[k]);
  }

  lemma PutEnds(p: Pipe, b: Byte)
    requires |p.data| == PIPESIZE
    ensures SameEnds(p, Put(p, b)) && Put(p, b).freed == p.freed
  {}

  lemma {:induction false} StoreAll(s: State, t: nat, src: seq<Byte>, k: nat)
    requires RingOk(s) && Entering(s, t) && s.threads[t].call == Write(src, 0)
    requires k <= |src| && |s.stored| + |src| <= |s.delivered| + PIPESIZE
    ensures Stored(s, Run(s, Turns(t, k + 1)), t, src, k)
  {
    hide Stored, Step, Ring, Entering, Run, Turns;
    NextTurn(s, t, k);
    if k == 0 {
      NoTurn(s, t);
      StoreFirst(s, t, src);
    } else {
      StoreAll(s, t, src, k - 1);
      StoreOne(s, Run(s, Turns(t, k)), t, src, k - 1);
    }
  }

  lemma NoTurn(s: State, t: nat)
    ensures Run(s, Turns(t, 0)) == s
  {}

  /** pipewrite of n bytes with room for them: n + 4 steps, n returned, the bytes at the end of the stream. */
  lemma WriteAlone(s: State, t: nat, src: seq<Byte>)
    requires RingOk(s) && Entering(s, t) && s.threads[t].call == Write(src, 0)
    requires |s.stored| + |src| <= |s.delivered| + PIPESIZE
    ensures var f, r := Run(s, Turns(t, |src| + 3)), Run(s, Turns(t, |src| + 4));
            && Inside(f, t, Finish(|src|), Write(src, |src|))
            && t < |r.threads| && r.threads[t].pc == Idle && r.lock == Free
            && r.stored == s.stored + src && r.delivered == s.delivered && SameEnds(s.pipe, r.pipe)
  {
    hide Run, Turns, Ring;
    var n := |src|;
    StoreAll(s, t, src, n);
    NextTurn(s, t, n + 1);
    NextTurn(s, t, n + 2);
    NextTurn(s, t, n + 3);
    var r := Run(s, Turns(t, n + 1));
    RingData(r);
    assert src[..n] == src;
    Leaves(r, t, Body, Write(src, n), NRead, n);
  }

  /** The last three steps of every call: to the wakeup, through it, and out. */
  lemma Leaves(r: State, t: nat, pc: Pc, call: Call, chan: Chan, ret: int)
    requires |r.pipe.data| == PIPESIZE && Inside(r, t, pc, call) && ret == Result(call)
    requires Step(r, Go(t)) == At(r, t, Wake(chan, false)) && !call.Close?
    ensures var r1 := Step(r, Go(t));
            var r2 := Step(r1, Go(t));
            var r3 := Step(r2, Go(t));
            && Inside(r2, t, Finish(ret), call) && t < |r3.threads| && r3.threads[t].pc == Idle && r3.lock == Free
            && r3.stored == r.stored && r3.delivered == r.delivered && SameEnds(r.pipe, r3.pipe)
  {
    var r1 := Step(r, Go(t));
    assert Inside(r1, t, Wake(chan, false), call);
    var r2 := Step(r1, Go(t));
    assert r2.threads[t] == r.threads[t].(pc := Finish(ret));
  }

  // ---- piperead --------------------------------------------------------------------------

  /** k bytes taken. */
  ghost predicate Taken(s: State, r: State, t: nat, n: nat, k: nat) {
    && RingOk(r) && SameEnds(s.pipe, r.pipe) && r.stored == s.stored
    && |s.delivered| + k <= |s.stored| && r.delivered == s.stored[..|s.delivered| + k]
    && Inside(r, t, Copy, Read(n, s.stored[|s.delivered|..|s.delivered| + k]))
  }

  lemma TakeFirst(s: State, t: nat, n: nat)
    requires RingOk(s) && Entering(s, t) && s.threads[t].call == Read(n, [])
    requires |s.stored| > |s.delivered| || !s.pipe.writeopen
    ensures Taken(s, Step(Step(s, Go(t)), Go(t)), t, n, 0)
  {
    RingData(s);
    Tests(s.pipe.data, s.pipe.nread, s.pipe.nwrite, s.stored, s.delivered);
    hide Ring;
    var s1 := Step(s, Go(t));
    assert s1 == At(s.(lock := By(t)), t, Body);
    assert s.delivered == s.stored[..|s.delivered|] by { Prefixed(s); }
  }

  lemma Prefixed(s: State)
    requires RingOk(s)
    ensures |s.delivered| <= |s.stored| && s.delivered == s.stored[..|s.delivered|]
  {}

  lemma TakeOne(s: State, r: State, t: nat, n: nat, k: nat)
    requires Taken(s, r, t, n, k) && k < n && |s.delivered| + k < |s.stored|
    ensures Taken(s, Step(r, Go(t)), t, n, k + 1)
  {
    hide Ring;
    RingData(r);
    Tests(r.pipe.data, r.pipe.nread, r.pipe.nwrite, r.stored, r.delivered);
    StepRing(r, Go(t));
    var r', d := Step(r, Go(t)), |s.delivered|;
    Prefixed(r');
    assert |r'.delivered| == d + k + 1;
    assert s.stored[d..d + k + 1] == s.stored[d..d + k] + [s.stored[d + k]];
    assert r'.delivered[d + k] == s.stored[d + k];
  }

  lemma {:induction false} TakeAll(s: State, t: nat, n: nat, k: nat)
    requires RingOk(s) && Entering(s, t) && s.threads[t].call == Read(n, [])
    requires |s.stored| > |s.delivered| || !s.pipe.writeopen
    requires k <= n && |s.delivered| + k <= |s.stored|
    ensures Taken(s, Run(s, Turns(t, k + 2)), t, n, k)
  {
    hide Taken, Step, Ring, Entering, Run, Turns;
    NextTurn(s, t, k + 1);
    if k == 0 {
      NoTurn(s, t);
      NextTurn(s, t, 0);
      TakeFirst(s, t, n);
    } else {
      TakeAll(s, t, n, k - 1);
      TakeOne(s, Run(s, Turns(t, k + 1)), t, n, k - 1);
    }
  }

  function Least(a: nat, b: nat): nat { if a < b then a else b }

  /** piperead of up to n bytes from a pipe that is not empty or at its end: with m bytes to take m + 5 steps,
      the next m bytes of the stream, and m returned. */
  lemma ReadAlone(s: State, t: nat, n: nat)
    requires RingOk(s) && Entering(s, t) && s.threads[t].call == Read(n, [])
    requires |s.stored| > |s.delivered| || !s.pipe.writeopen
    ensures |s.delivered| <= |s.stored|
    ensures var m, d := Least(n, |s.stored| - |s.delivered|), |s.delivered|;
            var f, r := Run(s, Turns(t, m + 4)), Run(s, Turns(t, m + 5));
            && Inside(f, t, Finish(m), Read(n, s.stored[d..d + m]))
            && t < |r.threads| && r.threads[t].pc == Idle && r.lock == Free
            && r.stored == s.stored && r.delivered == s.stored[..d + m] && SameEnds(s.pipe, r.pipe)
  {
    hide Run, Turns, Ring, Step;
    RingData(s);
    var m := Least(n, |s.stored| - |s.delivered|);
    TakeAll(s, t, n, m);
    NextTurn(s, t, m + 2);
    NextTurn(s, t, m + 3);
    NextTurn(s, t, m + 4);
    var r := Run(s, Turns(t, m + 2));
    RingData(r);
    TakenAll(s, r, t, n, m);
    Leaves(r, t, Copy, r.threads[t].call, NWrite, m);
  }

  lemma TakenAll(s: State, r: State, t: nat, n: nat, k: nat)
    requires Taken(s, r, t, n, k) && (k == n || |s.delivered| + k == |s.stored|)
    ensures t < |r.threads| && Step(r, Go(t)) == At(r, t, Wake(NWrite, false))
  {
    RingData(r);
    Tests(r.pipe.data, r.pipe.nread, r.pipe.nwrite, r.stored, r.delivered);
  }

  // ---- pipeclose -------------------------------------------------------------------------

  /** pipeclose: four steps, its end closed, and the pipe given back when the other one is closed too. */
  lemma CloseAlone(s: State, t: nat, writable: bool)
    requires RingOk(s) && Entering(s, t) && s.threads[t].call == Close(writable)
    ensures var r := Run(s, Turns(t, 4));
            && t < |r.threads| && r.threads[t].pc == Idle && r.lock == Free
            && r.pipe.writeopen == (s.pipe.writeopen && !writable) && r.pipe.readopen == (s.pipe.readopen && writable)
            && (r.pipe.freed <==> !r.pipe.writeopen && !r.pipe.readopen)
  {
    hide Run, Turns, Ring;
    RingData(s);
    NoTurn(s, t);
    NextTurn(s, t, 0);
    NextTurn(s, t, 1);
    NextTurn(s, t, 2);
    NextTurn(s, t, 3);
    var s1 := Step(s, Go(t));
    assert s1 == At(s.(lock := By(t)), t, Body);
    var s2 := Step(s1, Go(t));
    assert s2.threads[t].pc.Wake? && s2.threads[t].call == Close(writable);
    var s3 := Step(s2, Go(t));
    assert s3.threads[t].pc == Finish(0) && s3.threads[t].call == Close(writable);
  }
}
