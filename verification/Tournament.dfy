/** tournament_tree.c on top of KMutex: a step system for any number of threads and any depth.
    Mutex p < Nodes(d) is mutextree[p]; mutex Nodes(d) is tree->Lock. A thread uses one ID of the
    tree at a time, as its interface expects. */
module Tournament {
  import opened Powers
  import opened TreePaths
  import K = KMutex

  /** Where a thread is between its mutex calls. A pc that names a call is left when the call has
      returned. */
  datatype Pc =
    | Out                       // not registered, outside the interface
    | ALock(id: nat)            // acquire: kthread_mutex_lock(tree->Lock)
    | AFail                     // acquire: the ID is taken; unlocking tree->Lock
    | AUnlock(id: nat)          // acquire: registered; unlocking tree->Lock
    | Climb(id: nat, k: nat)    // acquire: locking node k + 1 of the path
    | In                        // acquire returned 0
    | RLock(id: nat)            // release: kthread_mutex_lock(tree->Lock)
    | RFail                     // release: not the registered thread; unlocking tree->Lock
    | RRec(id: nat, k: nat)     // release: unlocking node k of the path
    | RError                    // release: a node could not be unlocked
    | RUnlock                   // release: unregistered; unlocking tree->Lock

  /** `own` is the ID under which the thread is registered, or -1. */
  datatype Prog = Prog(pc: Pc, own: int)

  datatype State = State(ms: K.State, prog: seq<Prog>, threadMap: seq<int>)

  predicate Idle(s: State, t: nat) {
    t < |s.prog| && |s.prog| == |s.ms.threads| && s.ms.threads[t].call == K.NoCall
  }

  /** Go to `p` and enter a mutex call. */
  function Enter(s: State, t: nat, p: Prog, m: nat, lock: bool): State
    requires t < |s.prog|
  {
    s.(ms := K.Start(s.ms, t, m, lock), prog := s.prog[t := p])
  }

  function Leave(s: State, t: nat, p: Prog): State
    requires t < |s.prog|
  {
    s.(prog := s.prog[t := p])
  }

  function StartAcquire(d: nat, s: State, t: nat, id: nat): State {
    if Idle(s, t) && s.prog[t].pc == Out && id < Pow2(d)
      then Enter(s, t, s.prog[t].(pc := ALock(id)), Nodes(d), true) else s
  }

  function StartRelease(d: nat, s: State, t: nat, id: nat): State {
    if Idle(s, t) && (s.prog[t].pc == Out || s.prog[t].pc == In) && id < Pow2(d)
      then Enter(s, t, s.prog[t].(pc := RLock(id)), Nodes(d), true) else s
  }

  /** The code between the return of one mutex call and the start of the next. */
  function Continue(d: nat, s: State, t: nat): State {
    if Idle(s, t) then
      var p := s.prog[t];
      match p.pc
      case ALock(id) =>
        if id >= |s.threadMap| then s
        else if s.threadMap[id] != -1 then Enter(s, t, p.(pc := AFail), Nodes(d), false)
        else Enter(s.(threadMap := s.threadMap[id := t]), t, Prog(AUnlock(id), id), Nodes(d), false)
      case AFail => Leave(s, t, p.(pc := Out))
      case AUnlock(id) => Enter(s, t, p.(pc := Climb(id, 0)), Anc(d, id, 1), true)
      case Climb(id, k) =>
        if Anc(d, id, k + 1) == 0 then Leave(s, t, p.(pc := In))
        else Enter(s, t, p.(pc := Climb(id, k + 1)), Anc(d, id, k + 2), true)
      case RLock(id) =>
        if id >= |s.threadMap| then s
        else if s.threadMap[id] != t then Enter(s, t, p.(pc := RFail), Nodes(d), false)
        else Enter(s, t, p.(pc := RRec(id, d)), Anc(d, id, d), false)
      case RFail => Leave(s, t, p.(pc := if p.own == -1 then Out else In))
      case RRec(id, k) =>
        if s.ms.threads[t].ret == -1 then Enter(s, t, p.(pc := RError), Nodes(d), false)
        else if k <= 1 then
          if id >= |s.threadMap| then s
          else Enter(s.(threadMap := s.threadMap[id := -1]), t, Prog(RUnlock, -1), Nodes(d), false)
        else Enter(s, t, p.(pc := RRec(id, k - 1)), Anc(d, id, k - 1), false)
      case RError => Leave(s, t, p.(pc := In))
      case RUnlock => Leave(s, t, p.(pc := Out))
      case _ => s
    else s
  }

  datatype Action =
    | Acquire(t: nat, id: nat)
    | Release(t: nat, id: nat)
    | Proceed(t: nat)
    | Advance(t: nat, w: nat)
    | Wake(t: nat)

  function Step(d: nat, s: State, a: Action): State {
    match a
    case Acquire(t, id) => StartAcquire(d, s, t, id)
    case Release(t, id) => StartRelease(d, s, t, id)
    case Proceed(t) => Continue(d, s, t)
    case Advance(t, w) => s.(ms := K.Advance(s.ms, t, w))
    case Wake(t) => s.(ms := K.Wake(s.ms, t))
  }

  function Run(d: nat, s: State, acts: seq<Action>): State {
    if acts == [] then s else Step(d, Run(d, s, acts[..|acts| - 1]), acts[|acts| - 1])
  }

  /** A freshly allocated tree of depth d, and n threads. */
  function Initial(d: nat, n: nat): State {
    State(K.Initial(Nodes(d) + 1, n), AllOut(n), AllFree(Pow2(d)))
  }

  function AllOut(n: nat): seq<Prog> { seq(n, i => Prog(Out, -1)) }

  function AllFree(n: nat): seq<int> { seq(n, i => -1) }

  // ---- Invariant -------------------------------------------------------------------------

  predicate LockCall(th: K.Thread, m: nat) { th.call.Call? && th.call.m == m && K.LockPc(th.call.pc) }

  predicate UnlockCall(th: K.Thread, m: nat) { th.call.Call? && th.call.m == m && !K.LockPc(th.call.pc) }

  /** Inside a call locking m the thread holds `h`, and after it also m. */
  predicate Locking(th: K.Thread, m: nat, h: set<nat>) {
    m !in h && ((LockCall(th, m) && th.held == h) || (th.call == K.NoCall && th.held == h + {m}))
  }

  /** Inside a call unlocking m the thread holds m and `h`, and after it only `h`. */
  predicate Unlocking(th: K.Thread, m: nat, h: set<nat>) {
    m !in h && ((UnlockCall(th, m) && th.held == h + {m}) || (th.call == K.NoCall && th.held == h && th.ret == 0))
  }

  /** What a thread outside the interface holds: nothing, or its whole path. */
  function Kept(d: nat, own: int): set<nat> {
    if own < 0 then {} else Chain(d, own, d)
  }

  /** The mutexes a thread holds, and the call it is in, at each point of the program. */
  predicate ThreadOk(d: nat, p: Prog, th: K.Thread) {
    && -1 <= p.own < Pow2(d)
    && match p.pc
       case Out => th.call == K.NoCall && th.held == {} && p.own == -1
       case In => th.call == K.NoCall && p.own >= 0 && th.held == Chain(d, p.own, d)
       case ALock(id) => id < Pow2(d) && p.own == -1 && Locking(th, Nodes(d), {})
       case AFail => p.own == -1 && Unlocking(th, Nodes(d), {})
       case AUnlock(id) => p.own == id && Unlocking(th, Nodes(d), {})
       case Climb(id, k) => p.own == id && k < d && Locking(th, Anc(d, id, k + 1), Chain(d, id, k))
       case RLock(id) => id < Pow2(d) && Locking(th, Nodes(d), Kept(d, p.own))
       case RFail => Unlocking(th, Nodes(d), Kept(d, p.own))
       case RRec(id, k) => p.own == id && 1 <= k <= d && Unlocking(th, Anc(d, id, k), Chain(d, id, k - 1) + {Nodes(d)})
       case RUnlock => p.own == -1 && Unlocking(th, Nodes(d), {})
       case RError => false
  }

  /** threadMap and the registrations are inverse to each other. */
  predicate MapInv(d: nat, prog: seq<Prog>, threadMap: seq<int>) {
    && |threadMap| == Pow2(d)
    && (forall t :: 0 <= t < |prog| && prog[t].own != -1 ==>
          0 <= prog[t].own < |threadMap| && threadMap[prog[t].own] == t)
    && (forall i :: 0 <= i < |threadMap| && threadMap[i] != -1 ==>
          0 <= threadMap[i] < |prog| && prog[threadMap[i]].own == i)
  }

  predicate ThreadsOk(d: nat, s: State) {
    && |s.prog| == |s.ms.threads|
    && forall t :: 0 <= t < |s.prog| ==> ThreadOk(d, s.prog[t], s.ms.threads[t])
  }

  predicate Inv(d: nat, s: State) {
    && d >= 1 && |s.ms.mutexes| == Nodes(d) + 1
    && K.Inv(s.ms) && ThreadsOk(d, s) && MapInv(d, s.prog, s.threadMap)
  }

  lemma WakeOk(d: nat, p: Prog, th: K.Thread, th': K.Thread)
    requires ThreadOk(d, p, th) && K.OthersStep(th, th')
    ensures ThreadOk(d, p, th')
  {}

  lemma CallOk(d: nat, p: Prog, th: K.Thread, th': K.Thread)
    requires ThreadOk(d, p, th) && th.call.Call? && K.CallStep(th, th')
    ensures ThreadOk(d, p, th')
  {}

  lemma AdvanceInv(d: nat, s: State, t: nat, w: nat)
    requires Inv(d, s)
    ensures Inv(d, Step(d, s, Advance(t, w)))
  {
    hide K.Inv, K.Advance, ThreadOk, MapInv, K.CallStep, K.OthersStep;
    K.AdvanceInv(s.ms, t, w);
    if t < |s.ms.threads| && s.ms.threads[t].call.Call? {
      K.AdvanceEffect(s.ms, t, w);
      var ms := K.Advance(s.ms, t, w);
      CallOk(d, s.prog[t], s.ms.threads[t], ms.threads[t]);
      forall u | 0 <= u < |s.prog| && u != t ensures ThreadOk(d, s.prog[u], ms.threads[u]) {
        WakeOk(d, s.prog[u], s.ms.threads[u], ms.threads[u]);
      }
    } else {
      AdvanceIdle(s.ms, t, w);
    }
  }

  lemma AdvanceIdle(ms: K.State, t: nat, w: nat)
    requires t < |ms.threads| ==> ms.threads[t].call == K.NoCall
    ensures K.Advance(ms, t, w) == ms
  {}

  lemma WakeInv(d: nat, s: State, t: nat)
    requires Inv(d, s)
    ensures Inv(d, Step(d, s, Wake(t)))
  {
    hide K.Inv, ThreadOk, MapInv;
    K.WakeInv(s.ms, t);
    var ms := K.Wake(s.ms, t);
    forall u | 0 <= u < |s.prog| ensures ThreadOk(d, s.prog[u], ms.threads[u]) {
      WakeOk(d, s.prog[u], s.ms.threads[u], ms.threads[u]);
    }
  }

  /** Only thread t moves: it may rewrite threadMap, and it enters a call on m. */
  lemma EnterMapInv(d: nat, s: State, t: nat, p: Prog, m: nat, lock: bool, map': seq<int>)
    requires Inv(d, s) && Idle(s, t) && m < |s.ms.mutexes|
    requires MapInv(d, s.prog[t := p], map')
    requires ThreadOk(d, p, s.ms.threads[t].(call := K.Call(m, if lock then K.LTable else K.UTable)))
    ensures Inv(d, Enter(s.(threadMap := map'), t, p, m, lock))
  {
    hide K.Inv, ThreadOk, MapInv;
    K.StartInv(s.ms, t, m, lock);
  }

  lemma EnterInv(d: nat, s: State, t: nat, p: Prog, m: nat, lock: bool)
    requires Inv(d, s) && Idle(s, t) && m < |s.ms.mutexes|
    requires p.own == s.prog[t].own
    requires ThreadOk(d, p, s.ms.threads[t].(call := K.Call(m, if lock then K.LTable else K.UTable)))
    ensures Inv(d, Enter(s, t, p, m, lock))
  {
    hide K.Inv, ThreadOk;
    EnterMapInv(d, s, t, p, m, lock, s.threadMap);
    assert s.(threadMap := s.threadMap) == s;
  }

  lemma LeaveInv(d: nat, s: State, t: nat, p: Prog)
    requires Inv(d, s) && Idle(s, t)
    requires p.own == s.prog[t].own && ThreadOk(d, p, s.ms.threads[t])
    ensures Inv(d, Leave(s, t, p))
  {
    hide K.Inv, ThreadOk;
  }

  lemma StartAcquireInv(d: nat, s: State, t: nat, id: nat)
    requires Inv(d, s)
    ensures Inv(d, StartAcquire(d, s, t, id))
  {
    hide K.Inv, MapInv;
    if Idle(s, t) && s.prog[t].pc == Out && id < Pow2(d) {
      EnterInv(d, s, t, s.prog[t].(pc := ALock(id)), Nodes(d), true);
    }
  }

  lemma StartReleaseInv(d: nat, s: State, t: nat, id: nat)
    requires Inv(d, s)
    ensures Inv(d, StartRelease(d, s, t, id))
  {
    hide K.Inv, MapInv;
    if Idle(s, t) && (s.prog[t].pc == Out || s.prog[t].pc == In) && id < Pow2(d) {
      if s.prog[t].own >= 0 { ChainStep(d, s.prog[t].own, d - 1); }
      EnterInv(d, s, t, s.prog[t].(pc := RLock(id)), Nodes(d), true);
    }
  }

  lemma ContinueAcquire(d: nat, s: State, t: nat)
    requires Inv(d, s) && Idle(s, t)
    requires s.prog[t].pc.ALock? || s.prog[t].pc.AFail? || s.prog[t].pc.AUnlock?
    ensures Inv(d, Continue(d, s, t))
  {
    hide K.Inv, Anc;
    var p := s.prog[t];
    assert ThreadOk(d, p, s.ms.threads[t]);
    match p.pc
    case ALock(id) =>
      if s.threadMap[id] != -1 {
        EnterInv(d, s, t, p.(pc := AFail), Nodes(d), false);
      } else {
        EnterMapInv(d, s, t, Prog(AUnlock(id), id), Nodes(d), false, s.threadMap[id := t]);
      }
    case AFail => LeaveInv(d, s, t, p.(pc := Out));
    case AUnlock(id) =>
      AncFacts(d, id, 1);
      EnterInv(d, s, t, p.(pc := Climb(id, 0)), Anc(d, id, 1), true);
  }

  lemma ContinueClimb(d: nat, s: State, t: nat)
    requires Inv(d, s) && Idle(s, t) && s.prog[t].pc.Climb?
    ensures Inv(d, Continue(d, s, t))
  {
    hide K.Inv, Anc, Chain, MapInv, Pow2;
    var p := s.prog[t];
    assert ThreadOk(d, p, s.ms.threads[t]);
    var Climb(id, k) := p.pc;
    ChainStep(d, id, k);
    AncFacts(d, id, k + 1);
    if k + 1 == d {
      LeaveInv(d, s, t, p.(pc := In));
    } else {
      AncFacts(d, id, k + 2);
      ChainStep(d, id, k + 1);
      EnterInv(d, s, t, p.(pc := Climb(id, k + 1)), Anc(d, id, k + 2), true);
    }
  }

  lemma ContinueRelease(d: nat, s: State, t: nat)
    requires Inv(d, s) && Idle(s, t)
    requires s.prog[t].pc.RLock? || s.prog[t].pc.RFail? || s.prog[t].pc.RUnlock?
    ensures Inv(d, Continue(d, s, t))
  {
    hide K.Inv, Anc, Chain, Pow2;
    var p := s.prog[t];
    assert ThreadOk(d, p, s.ms.threads[t]);
    match p.pc
    case RLock(id) =>
      if s.threadMap[id] != t {
        EnterInv(d, s, t, p.(pc := RFail), Nodes(d), false);
      } else {
        ChainStep(d, id, d - 1);
        AncFacts(d, id, d);
        EnterInv(d, s, t, p.(pc := RRec(id, d)), Anc(d, id, d), false);
      }
    case RFail => LeaveInv(d, s, t, p.(pc := if p.own == -1 then Out else In));
    case RUnlock => LeaveInv(d, s, t, p.(pc := Out));
  }

  lemma ContinueRec(d: nat, s: State, t: nat)
    requires Inv(d, s) && Idle(s, t) && s.prog[t].pc.RRec?
    ensures Inv(d, Continue(d, s, t))
  {
    hide K.Inv, Anc, Pow2;
    var p := s.prog[t];
    assert ThreadOk(d, p, s.ms.threads[t]);
    var RRec(id, k) := p.pc;
    if k == 1 {
      EnterMapInv(d, s, t, Prog(RUnlock, -1), Nodes(d), false, s.threadMap[id := -1]);
    } else {
      AncFacts(d, id, k - 1);
      ChainStep(d, id, k - 2);
      EnterInv(d, s, t, p.(pc := RRec(id, k - 1)), Anc(d, id, k - 1), false);
    }
  }

  lemma StepInv(d: nat, s: State, a: Action)
    requires Inv(d, s)
    ensures Inv(d, Step(d, s, a))
  {
    hide K.Inv, MapInv, StartAcquire, StartRelease, Continue, K.Advance, K.Wake;
    match a
    case Acquire(t, id) => StartAcquireInv(d, s, t, id);
    case Release(t, id) => StartReleaseInv(d, s, t, id);
    case Advance(t, w) => AdvanceInv(d, s, t, w);
    case Wake(t) => WakeInv(d, s, t);
    case Proceed(t) => ProceedInv(d, s, t);
  }

  lemma ProceedInv(d: nat, s: State, t: nat)
    requires Inv(d, s)
    ensures Inv(d, Continue(d, s, t))
  {
    if Idle(s, t) {
      hide K.Inv, MapInv, Pow2, Anc, Chain;
      assert ThreadOk(d, s.prog[t], s.ms.threads[t]);
      match s.prog[t].pc
      case ALock(_) => ContinueAcquire(d, s, t);
      case AFail => ContinueAcquire(d, s, t);
      case AUnlock(_) => ContinueAcquire(d, s, t);
      case Climb(_, _) => ContinueClimb(d, s, t);
      case RLock(_) => ContinueRelease(d, s, t);
      case RFail => ContinueRelease(d, s, t);
      case RUnlock => ContinueRelease(d, s, t);
      case RRec(_, _) => ContinueRec(d, s, t);
      case Out =>
      case In =>
    }
  }

  lemma InitialInv(d: nat, n: nat)
    requires d >= 1
    ensures Inv(d, Initial(d, n))
  {
    K.InitialInv(Nodes(d) + 1, n);
  }

  lemma {:induction false} RunInv(d: nat, n: nat, acts: seq<Action>)
    requires d >= 1
    ensures Inv(d, Run(d, Initial(d, n), acts))
  {
    hide Inv, Step, Initial;
    if acts == [] {
      InitialInv(d, n);
    } else {
      RunInv(d, n, acts[..|acts| - 1]);
      StepInv(d, Run(d, Initial(d, n), acts[..|acts| - 1]), acts[|acts| - 1]);
    }
  }
}
