/** What one pipewrite contributes: exactly its bytes, in order, interleaved only with the bytes of other
    writers. */
module PipeWrites {
  import opened PipeSystem
  import opened PipeWakeup

  /** The bytes thread t stored after the first `from`. */
  function Mine(stored: seq<Byte>, writer: seq<nat>, from: nat, t: nat): seq<Byte>
    requires |writer| == |stored|
  {
    if |stored| <= from then []
    else
      var n := |stored| - 1;
      Mine(stored[..n], writer[..n], from, t) + (if writer[n] == t then [stored[n]] else [])
  }

  lemma MineMore(stored: seq<Byte>, writer: seq<nat>, from: nat, t: nat, b: Byte, u: nat)
    requires |writer| == |stored| && from <= |stored|
    ensures Mine(stored + [b], writer + [u], from, t) == Mine(stored, writer, from, t) + if u == t then [b] else []
  {
    assert (stored + [b])[..|stored|] == stored && (writer + [u])[..|stored|] == writer;
  }

  /** Thread t inside pipewrite has stored src[..i]; it returns |src| only when that is all. */
  predicate PutOk(th: Thread, t: nat, stored: seq<Byte>, writer: seq<nat>, from: nat)
    requires |writer| == |stored|
  {
    && from <= |stored|
    && (th.call.Write? && !th.pc.Idle? ==>
          && th.call.i <= |th.call.src| && Mine(stored, writer, from, t) == th.call.src[..th.call.i]
          && (th.pc == Wake(NRead, false) || (th.pc.Finish? && th.pc.ret >= 0) ==> th.call.i == |th.call.src|)
          && (th.pc.Finish? && th.pc.ret >= 0 ==> th.pc.ret == |th.call.src|)
          && (th.pc.Wake? ==> th.pc.chan == NRead))
  }

  ghost predicate Puts(s: State) {
    && |s.writer| == |s.stored| && |s.begun| == |s.threads|
    && forall t :: 0 <= t < |s.threads| ==> PutOk(s.threads[t], t, s.stored, s.writer, s.begun[t])
  }

  lemma PutWrite(s: State, t: nat)
    requires t < |s.threads| && |s.pipe.data| == PIPESIZE && |s.writer| == |s.stored| && |s.begun| == |s.threads|
    requires s.threads[t].pc.Body? && s.threads[t].call.Write? && PutOk(s.threads[t], t, s.stored, s.writer, s.begun[t])
    ensures var s' := WriteBody(s, t);
            && |s'.threads| == |s.threads| == |s'.begun| && |s'.writer| == |s'.stored|
            && PutOk(s'.threads[t], t, s'.stored, s'.writer, s'.begun[t])
  {
    hide Mine;
    var c := s.threads[t].call;
    if c.i < |c.src| { MineMore(s.stored, s.writer, s.begun[t], t, c.src[c.i], t); }
  }

  lemma PutGo(s: State, t: nat)
    requires t < |s.threads| && |s.pipe.data| == PIPESIZE && |s.writer| == |s.stored| && |s.begun| == |s.threads|
    requires PutOk(s.threads[t], t, s.stored, s.writer, s.begun[t])
    ensures var s' := DoGo(s, t);
            && |s'.threads| == |s.threads| == |s'.begun| && |s'.writer| == |s'.stored|
            && PutOk(s'.threads[t], t, s'.stored, s'.writer, s'.begun[t])
  {
    hide Mine, WriteBody, Put, Take, Full, Empty;
    if s.threads[t].pc.Body? && s.threads[t].call.Write? { PutWrite(s, t); }
  }

  lemma PutStart(s: State, t: nat, call: Call)
    requires t < |s.threads| && |s.writer| == |s.stored| && |s.begun| == |s.threads|
    requires PutOk(s.threads[t], t, s.stored, s.writer, s.begun[t])
    ensures var s' := DoStart(s, t, call); PutOk(s'.threads[t], t, s'.stored, s'.writer, s'.begun[t])
  {}

  lemma PutHere(s: State, a: Action)
    requires Enabled(s, a) && |s.writer| == |s.stored| && |s.begun| == |s.threads|
    requires PutOk(s.threads[a.t], a.t, s.stored, s.writer, s.begun[a.t])
    ensures var s' := Step(s, a);
            && |s'.threads| == |s.threads| == |s'.begun| && |s'.writer| == |s'.stored|
            && PutOk(s'.threads[a.t], a.t, s'.stored, s'.writer, s'.begun[a.t])
  {
    hide Mine, DoGo;
    match a
    case Start(t, call) => PutStart(s, t, call);
    case Go(t) => PutGo(s, t);
    case Kill(t) =>
  }

  lemma PutElsewhere(s: State, a: Action, u: nat)
    requires Enabled(s, a) && |s.writer| == |s.stored| && |s.begun| == |s.threads|
    requires u < |s.threads| && u != a.t && PutOk(s.threads[u], u, s.stored, s.writer, s.begun[u])
    ensures var s' := Step(s, a);
            && |s'.threads| == |s.threads| == |s'.begun| && |s'.writer| == |s'.stored|
            && PutOk(s'.threads[u], u, s'.stored, s'.writer, s'.begun[u])
  {
    hide Mine;
    var th := s.threads[a.t];
    if a.Go? && th.pc.Body? && th.call.Write? && th.call.i < |th.call.src| {
      MineMore(s.stored, s.writer, s.begun[u], u, th.call.src[th.call.i], a.t);
    }
  }

  lemma PutsStep(s: State, a: Action)
    requires Puts(s)
    ensures Puts(Step(s, a))
  {
    hide PutOk, DoGo, DoStart, DoKill;
    if Enabled(s, a) {
      PutHere(s, a);
      forall u: nat | u < |s.threads|
        ensures PutOk(Step(s, a).threads[u], u, Step(s, a).stored, Step(s, a).writer, Step(s, a).begun[u])
      {
        if u != a.t { PutElsewhere(s, a, u); }
      }
    }
  }

  lemma {:induction false} RunPuts(data: seq<Byte>, n: nat, acts: seq<Action>)
    requires |data| == PIPESIZE
    ensures Puts(Run(Alloc(data, n), acts))
  {
    hide Step;
    if acts != [] {
      RunPuts(data, n, acts[..|acts| - 1]);
      PutsStep(Run(Alloc(data, n), acts[..|acts| - 1]), acts[|acts| - 1]);
    }
  }

  /** In every run, a pipewrite about to return k >= 0 has put exactly its k bytes into the stream, in
      order. */
  lemma WriteIsWhole(data: seq<Byte>, n: nat, acts: seq<Action>, t: nat)
    requires |data| == PIPESIZE
    requires var s := Run(Alloc(data, n), acts);
             t < |s.threads| && s.threads[t].call.Write? && s.threads[t].pc.Finish? && s.threads[t].pc.ret >= 0
    ensures var s := Run(Alloc(data, n), acts);
            && |s.writer| == |s.stored| && |s.begun| == |s.threads|
            && s.threads[t].pc.ret == |s.threads[t].call.src|
            && Mine(s.stored, s.writer, s.begun[t], t) == s.threads[t].call.src
  {
    hide Run, Alloc, Mine;
    RunPuts(data, n, acts);
    var s := Run(Alloc(data, n), acts);
    assert PutOk(s.threads[t], t, s.stored, s.writer, s.begun[t]);
  }
}
