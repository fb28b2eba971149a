/** When trnmnt_tree_acquire and trnmnt_tree_release refuse, and that they go through for a thread that runs
    alone: on any tree, for any ID, in a stated number of steps. */
module TournamentAlone {
  import opened Powers
  import opened TreePaths
  import opened Tournament
  import K = KMutex
  import A = KMutexAlone

  // ---- When they refuse ------------------------------------------------------------------

  /** With tree->Lock in hand, acquire refuses exactly when some thread is registered under the ID; otherwise it
      registers the caller. */
  lemma AcquireTest(d: nat, s: State, t: nat)
    requires Inv(d, s) && Idle(s, t) && s.prog[t].pc.ALock?
    ensures var id, r := s.prog[t].pc.id, Continue(d, s, t);
            var taken := exists u :: 0 <= u < |s.prog| && s.prog[u].own == id;
            && id < |s.threadMap| && |r.prog| == |s.prog|
            && (if taken then r.prog[t] == Prog(AFail, -1) && r.threadMap == s.threadMap
                else r.prog[t] == Prog(AUnlock(id), id) && r.threadMap == s.threadMap[id := t])
  {
    hide K.Inv;
    assert ThreadOk(d, s.prog[t], s.ms.threads[t]);
    var id := s.prog[t].pc.id;
    if s.threadMap[id] != -1 { assert s.prog[s.threadMap[id]].own == id; }
  }

  /** Release refuses exactly when the caller is not the thread registered under the ID. */
  lemma ReleaseTest(d: nat, s: State, t: nat)
    requires Inv(d, s) && Idle(s, t) && s.prog[t].pc.RLock?
    ensures var id, r := s.prog[t].pc.id, Continue(d, s, t);
            && id < |s.threadMap| && |r.prog| == |s.prog| && r.threadMap == s.threadMap
            && r.prog[t] == Prog(if s.prog[t].own == id then RRec(id, d) else RFail, s.prog[t].own)
  {
    hide K.Inv;
    assert ThreadOk(d, s.prog[t], s.ms.threads[t]);
  }

  // ---- Runs of one thread ----------------------------------------------------------------

  /** k steps inside a mutex call. */
  function Turns(t: nat, k: nat): (r: seq<Action>)
    ensures |r| == k
  {
    if k == 0 then [] else Turns(t, k - 1) + [Advance(t, t)]
  }

  lemma {:induction false} RunTurns(d: nat, s: State, t: nat, k: nat)
    ensures Run(d, s, Turns(t, k)) == s.(ms := A.Steps(s.ms, t, t, k))
  {
    hide K.Advance;
    if k > 0 {
      RunTurns(d, s, t, k - 1);
      assert Turns(t, k)[..k - 1] == Turns(t, k - 1);
    }
  }

  lemma {:induction false} RunConcat(d: nat, s: State, a: seq<Action>, b: seq<Action>)
    ensures Run(d, s, a + b) == Run(d, Run(d, s, a), b)
  {
    hide Step;
    if b == [] {
      assert a + b == a;
    } else {
      var b' := b[..|b| - 1];
      assert (a + b)[..|a + b| - 1] == a + b';
      RunConcat(d, s, a, b');
    }
  }

  /** A whole mutex call of k steps, and what the code does after it. */
  function CallOf(t: nat, k: nat): (r: seq<Action>)
    ensures |r| == k + 1
  {
    Turns(t, k) + [Proceed(t)]
  }

  lemma RunCall(d: nat, s: State, t: nat, k: nat)
    ensures Run(d, s, CallOf(t, k)) == Continue(d, s.(ms := A.Steps(s.ms, t, t, k)), t)
  {
    hide Continue;
    RunTurns(d, s, t, k);
    assert CallOf(t, k)[..k] == Turns(t, k);
  }

  predicate Free(mu: K.Mutex) { mu == K.Mutex(0, K.OPEN, -1, -1) }

  /** The tree has its shape, and no spinlock of it and no tree->Lock is in the way of thread t. */
  predicate Quiet(d: nat, s: State, t: nat, id: nat) {
    Shaped(d, s, t, id) && s.ms.table == -1 && Free(s.ms.mutexes[Nodes(d)])
  }

  predicate Shaped(d: nat, s: State, t: nat, id: nat) {
    && d >= 1 && |s.ms.mutexes| == Nodes(d) + 1 && |s.threadMap| == Pow2(d) && id < Pow2(d)
    && t < |s.prog| == |s.ms.threads|
  }

  predicate NodeFree(d: nat, nodes: seq<K.Mutex>, id: nat, k: nat) {
    Anc(d, id, k) < |nodes| && Free(nodes[Anc(d, id, k)])
  }

  predicate NodeHeld(d: nat, nodes: seq<K.Mutex>, id: nat, k: nat, t: nat) {
    Anc(d, id, k) < |nodes| && nodes[Anc(d, id, k)] == A.Locked(t)
  }

  /** Nodes (lo, hi] of the path of id are free. */
  ghost predicate PathFree(d: nat, nodes: seq<K.Mutex>, id: nat, lo: nat, hi: nat) {
    forall k :: lo < k <= hi ==> NodeFree(d, nodes, id, k)
  }

  ghost predicate PathHeld(d: nat, nodes: seq<K.Mutex>, id: nat, lo: nat, hi: nat, t: nat) {
    forall k :: lo < k <= hi ==> NodeHeld(d, nodes, id, k, t)
  }

  lemma {:induction false} AncDiffer(d: nat, id: nat, i: nat, j: nat)
    requires id < Pow2(d) && 1 <= i < j <= d
    ensures Anc(d, id, j) < Anc(d, id, i) < Nodes(d)
  {
    AncFacts(d, id, i);
    AncFacts(d, id, j - 1);
    AncFacts(d, id, j);
    if i < j - 1 { AncDiffer(d, id, i, j - 1); }
  }

  /** One node changes. */
  lemma PathStep(d: nat, nodes: seq<K.Mutex>, id: nat, k: nat, mu: K.Mutex)
    requires id < Pow2(d) && 1 <= k <= d && Anc(d, id, k) < |nodes|
    ensures var nodes' := nodes[Anc(d, id, k) := mu];
            && (forall j :: 1 <= j <= d && j != k ==> (NodeFree(d, nodes', id, j) <==> NodeFree(d, nodes, id, j)))
            && (forall j, t :: 1 <= j <= d && j != k ==>
                  (NodeHeld(d, nodes', id, j, t) <==> NodeHeld(d, nodes, id, j, t)))
  {
    hide Anc;
    forall j | 1 <= j <= d && j != k ensures Anc(d, id, j) != Anc(d, id, k) {
      if j < k { AncDiffer(d, id, j, k); } else { AncDiffer(d, id, k, j); }
    }
  }

  // ---- acquire ---------------------------------------------------------------------------

  /** Lock tree->Lock, look, unlock it: 20 steps. */
  function Registering(t: nat, id: nat): (r: seq<Action>)
    ensures |r| == 20
  {
    [Acquire(t, id)] + CallOf(t, 8) + CallOf(t, 9)
  }

  /** k nodes of the path: 9 steps each. */
  function Climbing(t: nat, k: nat): (r: seq<Action>)
    ensures |r| == 9 * k
  {
    if k == 0 then [] else Climbing(t, k - 1) + CallOf(t, 8)
  }

  /** Inside the call that unlocks tree->Lock again, having found that the ID is free or taken. */
  lemma LooksUp(d: nat, s: State, t: nat, id: nat)
    requires Quiet(d, s, t, id) && s.prog[t].pc == Out && s.ms.threads[t].call == K.NoCall
    ensures var r := Run(d, s, [Acquire(t, id)] + CallOf(t, 8));
            var m := Nodes(d);
            var call := K.Thread(s.ms.threads[t].held + {m}, K.Call(m, K.UTable), 0);
            && r.ms == K.State(s.ms.mutexes[m := A.Locked(t)], -1, s.ms.threads[t := call])
            && (if s.threadMap[id] != -1
                then r.prog == s.prog[t := s.prog[t].(pc := AFail)] && r.threadMap == s.threadMap
                else r.prog == s.prog[t := Prog(AUnlock(id), id)] && r.threadMap == s.threadMap[id := t])
  {
    hide K.Advance, A.Steps, Turns, CallOf;
    var m := Nodes(d);
    RunConcat(d, s, [Acquire(t, id)], CallOf(t, 8));
    RunOne(d, s, Acquire(t, id));
    var s1 := Step(d, s, Acquire(t, id));
    assert s1.ms == s.ms.(threads := s.ms.threads[t := s.ms.threads[t].(call := K.Call(m, K.LTable))]);
    A.LockAlone(s1.ms, t, m, t);
    RunCall(d, s1, t, 8);
  }

  lemma RunOne(d: nat, s: State, a: Action)
    ensures Run(d, s, [a]) == Step(d, s, a)
  {
    hide Step;
    assert [a][..0] == [];
    assert Run(d, s, []) == s;
  }

  /** tree->Lock is unlocked again. */
  lemma LetsGo(d: nat, r: State, t: nat, ms: K.State, held: set<nat>)
    requires Quiet(d, r.(ms := ms), t, 0) && ms.threads[t].call == K.NoCall && Nodes(d) !in held
    requires r.ms == K.State(ms.mutexes[Nodes(d) := A.Locked(t)], -1,
                             ms.threads[t := K.Thread(held + {Nodes(d)}, K.Call(Nodes(d), K.UTable), 0)])
    ensures A.Steps(r.ms, t, t, 9) == ms.(threads := ms.threads[t := K.Thread(held, K.NoCall, 0)])
  {
    hide A.Steps;
    A.UnlockAlone(r.ms, t, Nodes(d), t);
    assert r.ms.mutexes[Nodes(d) := K.Mutex(0, K.OPEN, -1, -1)] == ms.mutexes;
    assert held + {Nodes(d)} - {Nodes(d)} == held;
  }

  /** A taken ID is refused in 20 steps, and nothing is left behind. */
  lemma RefusedAlone(d: nat, s: State, t: nat, id: nat)
    requires Quiet(d, s, t, id) && s.prog[t] == Prog(Out, -1) && s.threadMap[id] != -1
    requires s.ms.threads[t].call == K.NoCall && s.ms.threads[t].held == {}
    ensures Run(d, s, Registering(t, id)) == s.(ms := s.ms.(threads := s.ms.threads[t := K.Thread({}, K.NoCall, 0)]))
  {
    hide K.Advance, A.Steps, Turns, CallOf, Run;
    RunConcat(d, s, [Acquire(t, id)] + CallOf(t, 8), CallOf(t, 9));
    LooksUp(d, s, t, id);
    var r := Run(d, s, [Acquire(t, id)] + CallOf(t, 8));
    RunCall(d, r, t, 9);
    LetsGo(d, r, t, s.ms, {});
    assert s.prog[t := s.prog[t]] == s.prog;
  }

  /** In the call that locks node k + 1 of the path, with k nodes locked. */
  ghost predicate OnPath(d: nat, s: State, r: State, t: nat, id: nat, k: nat) {
    && Shaped(d, s, t, id) && Quiet(d, r, t, id) && k < d && Anc(d, id, k + 1) < Nodes(d)
    && r.prog == s.prog[t := Prog(Climb(id, k), id)] && r.threadMap == s.threadMap[id := t]
    && r.ms.threads[t].call == K.Call(Anc(d, id, k + 1), K.LTable)
    && (forall u :: 0 <= u < |s.prog| && u != t ==> r.ms.threads[u] == s.ms.threads[u])
    && PathHeld(d, r.ms.mutexes, id, 0, k, t) && PathFree(d, r.ms.mutexes, id, k, d)
  }

  lemma RegisterAlone(d: nat, s: State, t: nat, id: nat)
    requires Quiet(d, s, t, id) && s.prog[t] == Prog(Out, -1) && s.threadMap[id] == -1
    requires s.ms.threads[t].call == K.NoCall && s.ms.threads[t].held == {} && PathFree(d, s.ms.mutexes, id, 0, d)
    ensures OnPath(d, s, Run(d, s, Registering(t, id)), t, id, 0)
  {
    hide K.Advance, A.Steps, Turns, CallOf, Run, Anc;
    RunConcat(d, s, [Acquire(t, id)] + CallOf(t, 8), CallOf(t, 9));
    LooksUp(d, s, t, id);
    var r := Run(d, s, [Acquire(t, id)] + CallOf(t, 8));
    RunCall(d, r, t, 9);
    LetsGo(d, r, t, s.ms, {});
    AncFacts(d, id, 1);
  }

  lemma ClimbOne(d: nat, s: State, r: State, t: nat, id: nat, k: nat)
    requires Quiet(d, s, t, id) && OnPath(d, s, r, t, id, k)
    ensures var r' := Run(d, r, CallOf(t, 8));
            if k + 1 < d then OnPath(d, s, r', t, id, k + 1) else Arrived(d, s, r', t, id)
  {
    hide K.Advance, A.Steps, Turns, CallOf, Run, Anc;
    var m := Anc(d, id, k + 1);
    assert NodeFree(d, r.ms.mutexes, id, k + 1);
    A.LockAlone(r.ms, t, m, t);
    RunCall(d, r, t, 8);
    AncFacts(d, id, k + 1);
    var ms' := A.Steps(r.ms, t, t, 8);
    PathStep(d, r.ms.mutexes, id, k + 1, A.Locked(t));
    assert NodeHeld(d, ms'.mutexes, id, k + 1, t);
    if k + 1 < d { AncFacts(d, id, k + 2); }
    assert r.prog[t := Prog(Climb(id, k + 1), id)] == s.prog[t := Prog(Climb(id, k + 1), id)];
    assert r.prog[t := Prog(In, id)] == s.prog[t := Prog(In, id)];
  }

  /** Inside: registered, with the whole path in hand, and everybody else where they were. */
  ghost predicate Arrived(d: nat, s: State, r: State, t: nat, id: nat) {
    && Shaped(d, s, t, id) && Quiet(d, r, t, id)
    && r.prog == s.prog[t := Prog(In, id)] && r.threadMap == s.threadMap[id := t]
    && r.ms.threads[t].call == K.NoCall && r.ms.threads[t].ret == 0
    && (forall u :: 0 <= u < |s.prog| && u != t ==> r.ms.threads[u] == s.ms.threads[u])
    && PathHeld(d, r.ms.mutexes, id, 0, d, t)
  }

  lemma {:induction false} ClimbAlone(d: nat, s: State, r: State, t: nat, id: nat, k: nat)
    requires Quiet(d, s, t, id) && OnPath(d, s, r, t, id, 0) && k <= d
    ensures var r' := Run(d, r, Climbing(t, k));
            if k < d then OnPath(d, s, r', t, id, k) else Arrived(d, s, r', t, id)
  {
    hide OnPath, Arrived, Run, Quiet, CallOf;
    if k == 0 {
      RunNone(d, r);
      PathLength(d, s, r, t, id);
    } else {
      ClimbAlone(d, s, r, t, id, k - 1);
      RunConcat(d, r, Climbing(t, k - 1), CallOf(t, 8));
      ClimbOne(d, s, Run(d, r, Climbing(t, k - 1)), t, id, k - 1);
    }
  }

  lemma RunNone(d: nat, s: State)
    ensures Run(d, s, []) == s
  {}

  lemma PathLength(d: nat, s: State, r: State, t: nat, id: nat)
    requires OnPath(d, s, r, t, id, 0)
    ensures d > 0
  {}

  /** A thread that runs alone, with its ID free and its path open, is inside after 20 + 9d steps. */
  lemma AcquireAlone(d: nat, s: State, t: nat, id: nat)
    requires Quiet(d, s, t, id) && s.prog[t] == Prog(Out, -1) && s.threadMap[id] == -1
    requires s.ms.threads[t].call == K.NoCall && s.ms.threads[t].held == {} && PathFree(d, s.ms.mutexes, id, 0, d)
    ensures var acts := Registering(t, id) + Climbing(t, d);
            |acts| == 20 + 9 * d && Arrived(d, s, Run(d, s, acts), t, id)
  {
    hide OnPath, Arrived, Run, Quiet, Registering, Climbing;
    RegisterAlone(d, s, t, id);
    ClimbAlone(d, s, Run(d, s, Registering(t, id)), t, id, d);
    RunConcat(d, s, Registering(t, id), Climbing(t, d));
  }

  /** On a fresh tree any thread gets in under any ID. */
  lemma FreshAcquire(d: nat, n: nat, t: nat, id: nat)
    requires d >= 1 && t < n && id < Pow2(d)
    ensures var s, acts := Initial(d, n), Registering(t, id) + Climbing(t, d);
            |acts| == 20 + 9 * d && Arrived(d, s, Run(d, s, acts), t, id)
  {
    hide Arrived, Run, Registering, Climbing, Anc;
    var s := Initial(d, n);
    forall k | 0 < k <= d ensures NodeFree(d, s.ms.mutexes, id, k) { AncFacts(d, id, k); }
    AcquireAlone(d, s, t, id);
  }

  // ---- release ---------------------------------------------------------------------------

  /** k nodes of the path, the root first: 10 steps each. */
  function Descending(t: nat, k: nat): (r: seq<Action>)
    ensures |r| == 10 * k
  {
    if k == 0 then [] else Descending(t, k - 1) + CallOf(t, 9)
  }

  /** In the call that unlocks node k of the path, with the nodes above it unlocked; or, at 0, in the one that
      unlocks tree->Lock. */
  ghost predicate OffPath(d: nat, s: State, r: State, t: nat, id: nat, k: nat) {
    && Shaped(d, s, t, id) && Shaped(d, r, t, id) && k <= d
    && r.ms.table == -1 && r.ms.mutexes[Nodes(d)] == A.Locked(t)
    && r.prog == s.prog[t := if k > 0 then Prog(RRec(id, k), id) else Prog(RUnlock, -1)]
    && r.threadMap == (if k > 0 then s.threadMap else s.threadMap[id := -1])
    && (k > 0 ==> Anc(d, id, k) < Nodes(d))
    && r.ms.threads[t].call == K.Call(if k > 0 then Anc(d, id, k) else Nodes(d), K.UTable)
    && PathHeld(d, r.ms.mutexes, id, 0, k, t) && PathFree(d, r.ms.mutexes, id, k, d)
  }

  lemma ReleaseStarts(d: nat, s: State, t: nat, id: nat)
    requires Quiet(d, s, t, id) && s.prog[t] == Prog(In, id) && s.threadMap[id] == t
    requires s.ms.threads[t].call == K.NoCall && PathHeld(d, s.ms.mutexes, id, 0, d, t)
    ensures OffPath(d, s, Run(d, s, [Release(t, id)] + CallOf(t, 8)), t, id, d)
  {
    hide K.Advance, A.Steps, Turns, CallOf, Run, Anc;
    var m := Nodes(d);
    RunConcat(d, s, [Release(t, id)], CallOf(t, 8));
    RunOne(d, s, Release(t, id));
    var s1 := Step(d, s, Release(t, id));
    assert s1.ms == s.ms.(threads := s.ms.threads[t := s.ms.threads[t].(call := K.Call(m, K.LTable))]);
    A.LockAlone(s1.ms, t, m, t);
    RunCall(d, s1, t, 8);
    AncFacts(d, id, d);
    var r := Run(d, s, [Release(t, id)] + CallOf(t, 8));
    forall k | 0 < k <= d ensures NodeHeld(d, r.ms.mutexes, id, k, t) {
      assert NodeHeld(d, s.ms.mutexes, id, k, t);
      AncFacts(d, id, k);
    }
  }

  lemma DescendOne(d: nat, s: State, r: State, t: nat, id: nat, k: nat)
    requires OffPath(d, s, r, t, id, k) && k > 0 && s.threadMap[id] == t
    ensures OffPath(d, s, Run(d, r, CallOf(t, 9)), t, id, k - 1)
  {
    hide K.Advance, A.Steps, Turns, CallOf, Run, Anc;
    var m := Anc(d, id, k);
    assert NodeHeld(d, r.ms.mutexes, id, k, t);
    A.UnlockAlone(r.ms, t, m, t);
    RunCall(d, r, t, 9);
    var ms' := A.Steps(r.ms, t, t, 9);
    PathStep(d, r.ms.mutexes, id, k, K.Mutex(0, K.OPEN, -1, -1));
    assert NodeFree(d, ms'.mutexes, id, k);
    if k > 1 { AncFacts(d, id, k - 1); }
    var p := if k > 1 then Prog(RRec(id, k - 1), id) else Prog(RUnlock, -1);
    assert r.prog[t := p] == s.prog[t := p];
  }

  lemma {:induction false} DescendAlone(d: nat, s: State, r: State, t: nat, id: nat, k: nat)
    requires OffPath(d, s, r, t, id, d) && k <= d && s.threadMap[id] == t
    ensures OffPath(d, s, Run(d, r, Descending(t, k)), t, id, d - k)
  {
    hide OffPath, Run, CallOf;
    if k == 0 {
      RunNone(d, r);
    } else {
      DescendAlone(d, s, r, t, id, k - 1);
      RunConcat(d, r, Descending(t, k - 1), CallOf(t, 9));
      DescendOne(d, s, Run(d, r, Descending(t, k - 1)), t, id, d - (k - 1));
    }
  }

  /** Outside again: not registered, the path and tree->Lock open. */
  ghost predicate Departed(d: nat, s: State, r: State, t: nat, id: nat) {
    && Shaped(d, s, t, id) && Quiet(d, r, t, id)
    && r.prog == s.prog[t := Prog(Out, -1)] && r.threadMap == s.threadMap[id := -1]
    && r.ms.threads[t].call == K.NoCall && r.ms.threads[t].ret == 0 && PathFree(d, r.ms.mutexes, id, 0, d)
  }

  lemma ReleaseEnds(d: nat, s: State, r: State, t: nat, id: nat)
    requires OffPath(d, s, r, t, id, 0)
    ensures Departed(d, s, Run(d, r, CallOf(t, 9)), t, id)
  {
    hide K.Advance, A.Steps, Turns, CallOf, Run, Anc;
    A.UnlockAlone(r.ms, t, Nodes(d), t);
    RunCall(d, r, t, 9);
    var r' := Run(d, r, CallOf(t, 9));
    forall k | 0 < k <= d ensures NodeFree(d, r'.ms.mutexes, id, k) {
      assert NodeFree(d, r.ms.mutexes, id, k);
      AncFacts(d, id, k);
    }
    assert r.prog[t := Prog(Out, -1)] == s.prog[t := Prog(Out, -1)];
  }

  /** A thread inside that runs alone is outside after 20 + 10d steps, and its ID and its path are free. */
  lemma ReleaseAlone(d: nat, s: State, t: nat, id: nat)
    requires Quiet(d, s, t, id) && s.prog[t] == Prog(In, id) && s.threadMap[id] == t
    requires s.ms.threads[t].call == K.NoCall && PathHeld(d, s.ms.mutexes, id, 0, d, t)
    ensures var acts := [Release(t, id)] + CallOf(t, 8) + Descending(t, d) + CallOf(t, 9);
            |acts| == 20 + 10 * d && Departed(d, s, Run(d, s, acts), t, id)
  {
    hide OffPath, Departed, Run, Quiet, CallOf, Descending;
    var first := [Release(t, id)] + CallOf(t, 8);
    ReleaseStarts(d, s, t, id);
    DescendAlone(d, s, Run(d, s, first), t, id, d);
    RunConcat(d, s, first, Descending(t, d));
    ReleaseEnds(d, s, Run(d, s, first + Descending(t, d)), t, id);
    RunConcat(d, s, first + Descending(t, d), CallOf(t, 9));
  }

  /** acquire and then release, alone: every registration is as it was and the path is open again. */
  lemma AcquireRelease(d: nat, s: State, t: nat, id: nat)
    requires Quiet(d, s, t, id) && s.prog[t] == Prog(Out, -1) && s.threadMap[id] == -1
    requires s.ms.threads[t].call == K.NoCall && s.ms.threads[t].held == {} && PathFree(d, s.ms.mutexes, id, 0, d)
    ensures var acquired := Run(d, s, Registering(t, id) + Climbing(t, d));
            var r := Run(d, acquired, [Release(t, id)] + CallOf(t, 8) + Descending(t, d) + CallOf(t, 9));
            r.prog == s.prog && r.threadMap == s.threadMap && Quiet(d, r, t, id) && PathFree(d, r.ms.mutexes, id, 0, d)
  {
    hide Run, Registering, Climbing, Descending, CallOf, PathHeld, PathFree;
    AcquireAlone(d, s, t, id);
    var acquired := Run(d, s, Registering(t, id) + Climbing(t, d));
    ReleaseAlone(d, acquired, t, id);
    assert s.prog[t := Prog(In, id)][t := Prog(Out, -1)] == s.prog;
    assert s.threadMap[id := t][id := -1] == s.threadMap;
  }
}
