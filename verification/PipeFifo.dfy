/** Bytes come out in the order they went in, in every interleaving, however often the 32-bit counters
    wrap. */
module PipeFifo {
  import opened PipeSystem

  /** The ring holds the bytes stored and not yet delivered. */
  ghost predicate Ring(data: seq<Byte>, nread: nat, nwrite: nat, stored: seq<Byte>, delivered: seq<Byte>) {
    && |data| == PIPESIZE
    && |delivered| <= |stored| <= |delivered| + PIPESIZE && delivered == stored[..|delivered|]
    && nwrite == |stored| % WORD && nread == |delivered| % WORD
    && Slots(data, |delivered|, stored)
  }

  ghost predicate Slots(data: seq<Byte>, from: nat, stored: seq<Byte>)
    requires |data| == PIPESIZE
  {
    forall k :: from <= k < |stored| ==> data[k % PIPESIZE] == stored[k]
  }

  ghost predicate RingOk(s: State) { Ring(s.pipe.data, s.pipe.nread, s.pipe.nwrite, s.stored, s.delivered) }

  /** What is in the pipe, oldest byte first: `count` bytes from nread on. */
  function Buffered(p: Pipe, count: nat): seq<Byte>
    requires |p.data| == PIPESIZE
  {
    seq(count, k requires 0 <= k => p.data[(p.nread + k) % WORD % PIPESIZE])
  }

  lemma ModMod(x: nat)
    ensures x % WORD % PIPESIZE == x % PIPESIZE
  {
    assert x == x / WORD * WORD + x % WORD && WORD == 0x80_0000 * PIPESIZE;
    var q := x / WORD * 0x80_0000;
    assert x == q * PIPESIZE + x % WORD;
    assert x % WORD == x % WORD / PIPESIZE * PIPESIZE + x % WORD % PIPESIZE;
    assert x == (q + x % WORD / PIPESIZE) * PIPESIZE + x % WORD % PIPESIZE;
  }

  /** The two comparisons of the code tell empty and full apart, wrapped or not. */
  lemma Tests(data: seq<Byte>, nread: nat, nwrite: nat, stored: seq<Byte>, delivered: seq<Byte>)
    requires Ring(data, nread, nwrite, stored, delivered)
    ensures nread == nwrite <==> |stored| == |delivered|
    ensures nwrite == (nread + PIPESIZE) % WORD <==> |stored| == |delivered| + PIPESIZE
  {}

  lemma SlotsDiffer(k: nat, w: nat)
    requires k < w < k + PIPESIZE
    ensures k % PIPESIZE != w % PIPESIZE
  {}

  lemma Succ(x: nat)
    ensures (x % WORD + 1) % WORD == (x + 1) % WORD
  {}

  lemma PutSlots(data: seq<Byte>, from: nat, stored: seq<Byte>, b: Byte)
    requires |data| == PIPESIZE && Slots(data, from, stored) && |stored| < from + PIPESIZE
    ensures Slots(data[|stored| % PIPESIZE := b], from, stored + [b])
  {
    var data', stored' := data[|stored| % PIPESIZE := b], stored + [b];
    forall k | from <= k < |stored'| ensures data'[k % PIPESIZE] == stored'[k] {
      if k < |stored| { SlotsDiffer(k, |stored|); }
    }
  }

  lemma PutRing(data: seq<Byte>, nread: nat, nwrite: nat, stored: seq<Byte>, delivered: seq<Byte>, b: Byte)
    requires Ring(data, nread, nwrite, stored, delivered) && nwrite != (nread + PIPESIZE) % WORD
    ensures Ring(data[nwrite % PIPESIZE := b], nread, (nwrite + 1) % WORD, stored + [b], delivered)
  {
    hide Slots;
    Tests(data, nread, nwrite, stored, delivered);
    ModMod(|stored|);
    Succ(|stored|);
    PutSlots(data, |delivered|, stored, b);
  }

  lemma FirstSlot(data: seq<Byte>, from: nat, stored: seq<Byte>)
    requires |data| == PIPESIZE && Slots(data, from, stored) && from < |stored|
    ensures data[from % PIPESIZE] == stored[from] && Slots(data, from + 1, stored)
  {}

  lemma TakeRing(data: seq<Byte>, nread: nat, nwrite: nat, stored: seq<Byte>, delivered: seq<Byte>)
    requires Ring(data, nread, nwrite, stored, delivered) && nread != nwrite
    ensures Ring(data, (nread + 1) % WORD, nwrite, stored, delivered + [data[nread % PIPESIZE]])
  {
    hide Slots;
    Tests(data, nread, nwrite, stored, delivered);
    ModMod(|delivered|);
    Succ(|delivered|);
    FirstSlot(data, |delivered|, stored);
    assert stored[..|delivered| + 1] == stored[..|delivered|] + [stored[|delivered|]];
  }

  lemma StepRing(s: State, a: Action)
    requires RingOk(s)
    ensures RingOk(Step(s, a))
  {
    hide Ring;
    if !s.pipe.freed && |s.pipe.data| == PIPESIZE && a.t < |s.threads| && a.Go? {
      var th := s.threads[a.t];
      if th.pc.Body? && th.call.Write? && th.call.i < |th.call.src| && !Full(s.pipe) {
        PutRing(s.pipe.data, s.pipe.nread, s.pipe.nwrite, s.stored, s.delivered, th.call.src[th.call.i]);
      } else if th.pc.Copy? && th.call.Read? && !Empty(s.pipe) {
        TakeRing(s.pipe.data, s.pipe.nread, s.pipe.nwrite, s.stored, s.delivered);
      }
    }
  }

  lemma {:induction false} RunRing(data: seq<Byte>, n: nat, acts: seq<Action>)
    requires |data| == PIPESIZE
    ensures RingOk(Run(Alloc(data, n), acts))
  {
    if acts != [] {
      RunRing(data, n, acts[..|acts| - 1]);
      StepRing(Run(Alloc(data, n), acts[..|acts| - 1]), acts[|acts| - 1]);
    }
  }

  lemma Shift(r: nat, k: nat)
    ensures (r % WORD + k) % WORD % PIPESIZE == (r + k) % PIPESIZE
  {
    ModMod(r + k);
    assert (r % WORD + k) % WORD == (r + k) % WORD;
  }

  lemma BufferedAt(p: Pipe, from: nat, stored: seq<Byte>, k: nat)
    requires |p.data| == PIPESIZE && Slots(p.data, from, stored) && p.nread == from % WORD && from + k < |stored|
    ensures p.data[(p.nread + k) % WORD % PIPESIZE] == stored[from + k]
  {
    Shift(from, k);
  }

  lemma Contents(s: State)
    requires RingOk(s)
    ensures s.delivered + Buffered(s.pipe, |s.stored| - |s.delivered|) == s.stored
  {
    hide Slots;
    var buf := Buffered(s.pipe, |s.stored| - |s.delivered|);
    forall k | 0 <= k < |buf| ensures buf[k] == s.stored[|s.delivered| + k] {
      BufferedAt(s.pipe, |s.delivered|, s.stored, k);
    }
  }

  /** Bytes delivered followed by bytes buffered are the bytes stored, in order, and no more than
      PIPESIZE are ever buffered. */
  lemma Fifo(data: seq<Byte>, n: nat, acts: seq<Action>)
    requires |data| == PIPESIZE
    ensures var s := Run(Alloc(data, n), acts);
            && |s.pipe.data| == PIPESIZE && |s.delivered| <= |s.stored| <= |s.delivered| + PIPESIZE
            && s.delivered + Buffered(s.pipe, |s.stored| - |s.delivered|) == s.stored
  {
    RunRing(data, n, acts);
    Contents(Run(Alloc(data, n), acts));
  }
}
