/** What pipewrite, piperead and pipeclose return and why, on every run, kills included; and that a call that
    need not wait finishes. */
module PipeReturns {
  import opened PipeSystem
  import opened PipeFifo
  import opened PipeWakeup

  // ---- What is returned ------------------------------------------------------------------

  /** pipewrite on its way out: all is stored, or it gave up on a full pipe. */
  predicate WriteRet(th: Thread, p: Pipe)
    requires th.call.Write?
  {
    && th.call.i <= |th.call.src|
    && (th.pc == Wake(NRead, false) ==> th.call.i == |th.call.src|)
    && (th.pc.Finish? ==>
          || (th.call.i == |th.call.src| && th.pc.ret == |th.call.src|)
          || (th.call.i < |th.call.src| && th.pc.ret == -1 && Full(p) && (!p.readopen || th.killed)))
  }

  /** piperead past its waiting loop has something to take or is at the end of the file; on its way out it has
      taken all it may. */
  predicate ReadRet(th: Thread, p: Pipe)
    requires th.call.Read?
  {
    && |th.call.got| <= th.call.n
    && (th.pc.Copy? ==> th.call.got != [] || !Empty(p) || !p.writeopen)
    && (th.pc.Wake? ==> Served(th.call, p))
    && (th.pc.Finish? ==>
          || (th.pc.ret == |th.call.got| && Served(th.call, p))
          || (th.pc.ret == -1 && th.call.got == [] && th.killed && Empty(p) && p.writeopen))
  }

  /** All n bytes, or all there were, and none only at the end of the file. */
  predicate Served(c: Call, p: Pipe)
    requires c.Read?
  {
    && (|c.got| == c.n || Empty(p))
    && (c.got == [] && c.n > 0 ==> !p.writeopen)
  }

  predicate CloseRet(th: Thread, p: Pipe)
    requires th.call.Close?
  {
    && (th.pc.Wake? || th.pc.Finish? ==> if th.call.writable then !p.writeopen else !p.readopen)
    && (th.pc.Finish? ==> th.pc.ret == 0)
  }

  predicate RetOk(th: Thread, p: Pipe) {
    th.pc.Idle? || match th.call
    case Write(_, _) => WriteRet(th, p)
    case Read(_, _) => ReadRet(th, p)
    case Close(_) => CloseRet(th, p)
  }

  ghost predicate Rets(threads: seq<Thread>, p: Pipe) { forall t :: 0 <= t < |threads| ==> RetOk(threads[t], p) }

  lemma RetBody(s: State, t: nat)
    requires t < |s.threads| && |s.pipe.data| == PIPESIZE && RetOk(s.threads[t], s.pipe) && s.threads[t].pc.Body?
    requires s.threads[t].call.Read? ==> s.threads[t].call.got == []
    ensures |DoGo(s, t).threads| == |s.threads| && RetOk(DoGo(s, t).threads[t], DoGo(s, t).pipe)
  {}

  lemma RetCopy(s: State, t: nat)
    requires t < |s.threads| && |s.pipe.data| == PIPESIZE && RetOk(s.threads[t], s.pipe) && s.threads[t].pc.Copy?
    ensures |DoGo(s, t).threads| == |s.threads| && RetOk(DoGo(s, t).threads[t], DoGo(s, t).pipe)
  {}

  /** Between waking up and the lock a call is where it was. */
  predicate Clean(th: Thread) {
    th.call.Read? && !th.pc.Idle? && !th.pc.Copy? && !th.pc.Wake? && !th.pc.Finish? ==> th.call.got == []
  }

  lemma RetHere(s: State, a: Action)
    requires Enabled(s, a) && RetOk(s.threads[a.t], s.pipe) && Clean(s.threads[a.t]) && Shape(s.threads[a.t])
    ensures var s' := Step(s, a);
            |s'.threads| == |s.threads| && RetOk(s'.threads[a.t], s'.pipe) && Clean(s'.threads[a.t])
  {
    hide Put, Take, Next, Full, Empty;
    if a.Go? && s.threads[a.t].pc.Body? {
      RetBody(s, a.t);
    } else if a.Go? && s.threads[a.t].pc.Copy? {
      RetCopy(s, a.t);
    }
  }

  /** Only the thread with the lock changes the pipe. */
  lemma RetElsewhere(s: State, a: Action, u: nat)
    requires Enabled(s, a) && u < |s.threads| && u != a.t && RetOk(s.threads[u], s.pipe) && Clean(s.threads[u])
    requires (HoldsLock(s.threads[u].pc) <==> s.lock == By(u)) && (HoldsLock(s.threads[a.t].pc) <==> s.lock == By(a.t))
    ensures var s' := Step(s, a);
            |s'.threads| == |s.threads| && RetOk(s'.threads[u], s'.pipe) && Clean(s'.threads[u])
  {}

  ghost predicate Cleans(threads: seq<Thread>) { forall t :: 0 <= t < |threads| ==> Clean(threads[t]) }

  lemma RetsStep(s: State, a: Action)
    requires Inv(s) && Rets(s.threads, s.pipe) && Cleans(s.threads)
    ensures Rets(Step(s, a).threads, Step(s, a).pipe) && Cleans(Step(s, a).threads)
  {
    hide RetOk, Clean, Shape, DoGo, DoStart, DoKill, HoldsLock, HoldsTable, Blocked;
    if Enabled(s, a) {
      Effect(s, a);
      forall u: nat | u < |s.threads|
        ensures RetOk(Step(s, a).threads[u], Step(s, a).pipe) && Clean(Step(s, a).threads[u])
      {
        if u == a.t { RetHere(s, a); } else { RetElsewhere(s, a, u); }
      }
    }
  }

  lemma {:induction false} RunRets(data: seq<Byte>, n: nat, acts: seq<Action>)
    requires |data| == PIPESIZE
    ensures var s := Run(Alloc(data, n), acts); Rets(s.threads, s.pipe) && Cleans(s.threads)
  {
    hide Step, Inv;
    if acts != [] {
      RunRets(data, n, acts[..|acts| - 1]);
      RunInv(data, n, acts[..|acts| - 1]);
      RetsStep(Run(Alloc(data, n), acts[..|acts| - 1]), acts[|acts| - 1]);
    }
  }

  /** In every run a pipewrite about to return gives n exactly when all its bytes are stored, and otherwise -1,
      because the pipe is full and nobody will read, or its process is killed. */
  lemma WriteReturns(data: seq<Byte>, n: nat, acts: seq<Action>, t: nat)
    requires |data| == PIPESIZE
    requires var s := Run(Alloc(data, n), acts); t < |s.threads| && s.threads[t].call.Write? && s.threads[t].pc.Finish?
    ensures var s := Run(Alloc(data, n), acts);
            var Write(src, i), ret := s.threads[t].call, s.threads[t].pc.ret;
            && i <= |src|
            && (i == |src| <==> ret == |src|) && (i < |src| <==> ret == -1)
            && (ret == -1 ==> |s.stored| == |s.delivered| + PIPESIZE && (!s.pipe.readopen || s.threads[t].killed))
  {
    hide Run, Alloc, Ring;
    RunRets(data, n, acts);
    RunRing(data, n, acts);
    var s := Run(Alloc(data, n), acts);
    assert RetOk(s.threads[t], s.pipe);
    Tests(s.pipe.data, s.pipe.nread, s.pipe.nwrite, s.stored, s.delivered);
  }

  /** In every run a piperead about to return gives all the bytes it was asked for or all there are, and 0 for a
      request of some only when the write end is closed; or -1, because it is killed while there is nothing to
      read yet. */
  lemma ReadReturns(data: seq<Byte>, n: nat, acts: seq<Action>, t: nat)
    requires |data| == PIPESIZE
    requires var s := Run(Alloc(data, n), acts); t < |s.threads| && s.threads[t].call.Read? && s.threads[t].pc.Finish?
    ensures var s := Run(Alloc(data, n), acts);
            var Read(m, got), ret := s.threads[t].call, s.threads[t].pc.ret;
            if ret == -1 then
              got == [] && s.threads[t].killed && |s.stored| == |s.delivered| && s.pipe.writeopen
            else
              && ret == |got| <= m && (ret == m || |s.stored| == |s.delivered|)
              && (ret == 0 && m > 0 ==> |s.stored| == |s.delivered| && !s.pipe.writeopen)
  {
    hide Run, Alloc, Ring;
    RunRets(data, n, acts);
    RunRing(data, n, acts);
    var s := Run(Alloc(data, n), acts);
    assert RetOk(s.threads[t], s.pipe);
    Tests(s.pipe.data, s.pipe.nread, s.pipe.nwrite, s.stored, s.delivered);
  }

  /** In every run a pipeclose about to return has closed its end. */
  lemma CloseReturns(data: seq<Byte>, n: nat, acts: seq<Action>, t: nat)
    requires |data| == PIPESIZE
    requires var s := Run(Alloc(data, n), acts); t < |s.threads| && s.threads[t].call.Close? && s.threads[t].pc.Finish?
    ensures var s := Run(Alloc(data, n), acts);
            if s.threads[t].call.writable then !s.pipe.writeopen else !s.pipe.readopen
  {
    hide Run, Alloc;
    RunRets(data, n, acts);
    var s := Run(Alloc(data, n), acts);
    assert RetOk(s.threads[t], s.pipe);
  }
}
