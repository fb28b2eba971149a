/** What holds in every reachable state of the tournament tree. */
module TournamentSafety {
  import opened Powers
  import opened TreePaths
  import K = KMutex
  import opened Tournament

  /** Between a successful acquire and the start of its release. */
  predicate Critical(s: State, t: nat) {
    t < |s.prog| && s.prog[t].own >= 0 && (s.prog[t].pc == In || s.prog[t].pc.RLock? || s.prog[t].pc == RFail)
  }

  lemma CriticalHoldsRoot(d: nat, s: State, t: nat)
    requires Inv(d, s) && Critical(s, t)
    ensures 0 in s.ms.threads[t].held
  {
    assert ThreadOk(d, s.prog[t], s.ms.threads[t]);
    ChainStep(d, s.prog[t].own, d - 1);
    AncFacts(d, s.prog[t].own, d);
  }

  /** At most one thread is past a successful trnmnt_tree_acquire, for any depth, any number of
      threads and any interleaving of their steps. */
  lemma MutualExclusion(d: nat, n: nat, acts: seq<Action>, t: nat, u: nat)
    requires d >= 1
    requires Critical(Run(d, Initial(d, n), acts), t) && Critical(Run(d, Initial(d, n), acts), u)
    ensures t == u
  {
    var s := Run(d, Initial(d, n), acts);
    RunInv(d, n, acts);
    CriticalHoldsRoot(d, s, t);
    CriticalHoldsRoot(d, s, u);
    K.Exclusive(s.ms, 0);
  }

  /** The nodes a thread holds are a contiguous piece of its path that starts at the father of its
      leaf; besides them it holds at most tree->Lock. */
  ghost predicate HoldsChain(d: nat, p: Prog, th: K.Thread) {
    exists k: nat :: k <= d && HoldsFirst(d, p, th, k)
  }

  predicate HoldsFirst(d: nat, p: Prog, th: K.Thread, k: nat) {
    th.held - {Nodes(d)} == if p.own < 0 then {} else Chain(d, p.own, k)
  }

  lemma ChainTo(d: nat, p: Prog, th: K.Thread) returns (k: nat)
    requires d >= 1 && ThreadOk(d, p, th)
    ensures k <= d && HoldsFirst(d, p, th, k)
  {
    k := match p.pc
         case AUnlock(_) => 0
         case Climb(_, k) => if th.call == K.NoCall then k + 1 else k
         case RRec(_, k) => if th.call == K.NoCall then k - 1 else k
         case _ => d;
    if p.own >= 0 {
      ChainBound(d, p.own, k);
    }
  }

  lemma ContiguousChains(d: nat, n: nat, acts: seq<Action>)
    requires d >= 1
    ensures var s := Run(d, Initial(d, n), acts);
            |s.prog| == |s.ms.threads| && forall t :: 0 <= t < |s.prog| ==> HoldsChain(d, s.prog[t], s.ms.threads[t])
  {
    hide Run, Initial, MapInv, K.Inv;
    RunInv(d, n, acts);
    var s := Run(d, Initial(d, n), acts);
    forall t | 0 <= t < |s.prog| ensures HoldsChain(d, s.prog[t], s.ms.threads[t]) {
      var k := ChainTo(d, s.prog[t], s.ms.threads[t]);
    }
  }

  /** A release by the registered thread gets past the check of threadMap, never fails to unlock a
      node, unlocks the path from the root down, and ends with nothing held. */
  lemma ReleaseSucceeds(d: nat, n: nat, acts: seq<Action>, t: nat)
    requires d >= 1 && Idle(Run(d, Initial(d, n), acts), t)
    ensures var s := Run(d, Initial(d, n), acts);
            var p := s.prog[t];
            var p' := Continue(d, s, t).prog[t];
            && p.pc != RError
            && (p.pc.RLock? && p.own == p.pc.id ==> p' == Prog(RRec(p.pc.id, d), p.own))
            && (p.pc.RRec? && p.pc.k > 1 ==>
                  p' == Prog(RRec(p.pc.id, p.pc.k - 1), p.own) && Anc(d, p.pc.id, p.pc.k) !in s.ms.threads[t].held)
            && (p.pc.RRec? && p.pc.k == 1 ==> p' == Prog(RUnlock, -1) && s.ms.threads[t].held == {Nodes(d)})
            && (p.pc.RUnlock? ==> p' == Prog(Out, -1) && s.ms.threads[t].held == {})
  {
    hide Run, Initial, K.Inv;
    RunInv(d, n, acts);
    var s := Run(d, Initial(d, n), acts);
    assert ThreadOk(d, s.prog[t], s.ms.threads[t]);
    assert s.prog[t].own >= 0 ==> s.threadMap[s.prog[t].own] == t;
  }

  // ---- Two contenders --------------------------------------------------------------------

  /** Thread t holds node p or is inside a call that locks it. */
  predicate Contender(s: State, t: nat, p: nat) {
    t < |s.prog| && |s.prog| == |s.ms.threads| && (p in s.ms.threads[t].held || LockCall(s.ms.threads[t], p))
  }

  /** A contender of p comes from below: p is on its path, and it holds the position below p, or
      that position is its own leaf. */
  lemma FromBelow(d: nat, s: State, t: nat, p: nat) returns (i: nat)
    requires Inv(d, s) && Contender(s, t, p) && p < Nodes(d)
    ensures 1 <= i <= d && 0 <= s.prog[t].own < Pow2(d) && p == Anc(d, s.prog[t].own, i)
    ensures i > 1 ==> Anc(d, s.prog[t].own, i - 1) in s.ms.threads[t].held
  {
    hide K.Inv, MapInv, Anc, Pow2;
    var th, own := s.ms.threads[t], s.prog[t].own;
    assert ThreadOk(d, s.prog[t], th);
    var k := ChainTo(d, s.prog[t], th);
    if p in th.held {
      assert p in th.held - {Nodes(d)};
      ChainMember(d, own, k, p);
      i :| 1 <= i <= k && p == Anc(d, own, i);
      if i > 1 { ChainMember(d, own, k, Anc(d, own, i - 1)); }
    } else {
      i := s.prog[t].pc.k + 1;
      if i > 1 { ChainMember(d, own, i - 1, Anc(d, own, i - 1)); }
    }
  }

  lemma SameChild(d: nat, s: State, t: nat, u: nat, p: nat, i: nat, j: nat)
    requires Inv(d, s) && t < |s.prog| && u < |s.prog|
    requires 1 <= i <= d && 1 <= j <= d
    requires 0 <= s.prog[t].own < Pow2(d) && p == Anc(d, s.prog[t].own, i)
    requires 0 <= s.prog[u].own < Pow2(d) && p == Anc(d, s.prog[u].own, j)
    requires i > 1 ==> Anc(d, s.prog[t].own, i - 1) in s.ms.threads[t].held
    requires j > 1 ==> Anc(d, s.prog[u].own, j - 1) in s.ms.threads[u].held
    requires Anc(d, s.prog[t].own, i - 1) == Anc(d, s.prog[u].own, j - 1)
    ensures t == u
  {
    hide K.Inv, ThreadOk;
    SameDepth(d, i, j, s.prog[t].own, s.prog[u].own);
    if i > 1 {
      AncFacts(d, s.prog[t].own, i - 1);
      K.Exclusive(s.ms, Anc(d, s.prog[t].own, i - 1));
    }
  }

  /** No tree node is ever held or waited for by three threads. */
  lemma AtMostTwo(d: nat, n: nat, acts: seq<Action>, p: nat, t: nat, u: nat, v: nat)
    requires d >= 1 && p < Nodes(d)
    requires var s := Run(d, Initial(d, n), acts); Contender(s, t, p) && Contender(s, u, p) && Contender(s, v, p)
    ensures t == u || u == v || t == v
  {
    hide Run, Initial, Inv, Contender, Anc, Pow2;
    RunInv(d, n, acts);
    var s := Run(d, Initial(d, n), acts);
    InRange(s, t, p); InRange(s, u, p); InRange(s, v, p);
    var i := FromBelow(d, s, t, p);
    var j := FromBelow(d, s, u, p);
    var k := FromBelow(d, s, v, p);
    Child(d, s.prog[t].own, i - 1);
    Child(d, s.prog[u].own, j - 1);
    Child(d, s.prog[v].own, k - 1);
    if Anc(d, s.prog[t].own, i - 1) == Anc(d, s.prog[u].own, j - 1) {
      SameChild(d, s, t, u, p, i, j);
    } else if Anc(d, s.prog[u].own, j - 1) == Anc(d, s.prog[v].own, k - 1) {
      SameChild(d, s, u, v, p, j, k);
    } else {
      SameChild(d, s, t, v, p, i, k);
    }
  }

  lemma InRange(s: State, t: nat, p: nat)
    requires Contender(s, t, p)
    ensures t < |s.prog|
  {}

  // ---- Waits-for -------------------------------------------------------------------------

  /** Thread t cannot move until u gives something up: mtable.lock, a mutexLock, or a mutex. */
  predicate Waits(s: State, t: nat, u: nat) {
    && |s.prog| == |s.ms.threads| && t < |s.prog| && u < |s.prog|
    && s.ms.threads[t].call.Call? && s.ms.threads[t].call.m < |s.ms.mutexes|
    && var m := s.ms.threads[t].call.m;
       match s.ms.threads[t].call.pc
       case LTable => s.ms.table == u
       case UTable => s.ms.table == u
       case LSpin => s.ms.mutexes[m].spin == u
       case USpin => s.ms.mutexes[m].spin == u
       case LReacquire => s.ms.mutexes[m].spin == u
       case LAsleep => m in s.ms.threads[u].held
       case _ => false
  }

  /** Nodes are waited for in decreasing index, then tree->Lock, then the spinlocks. */
  function Rank(d: nat, s: State, t: nat): nat {
    if t < |s.ms.threads| && s.ms.threads[t].call.Call? then
      match s.ms.threads[t].call.pc
      case LAsleep => if s.ms.threads[t].call.m == Nodes(d) then 3 else 4 + s.ms.threads[t].call.m
      case LTable => 2
      case UTable => 2
      case LSpin => 1
      case USpin => 1
      case LReacquire => 1
      case _ => 0
    else 0
  }

  lemma SpinnersRun(s: State, t: nat, u: nat)
    requires K.Inv(s.ms) && Waits(s, t, u) && s.ms.threads[t].call.pc != K.LAsleep
    ensures s.ms.threads[u].call.Call?
    ensures s.ms.threads[t].call.pc.LTable? || s.ms.threads[t].call.pc.UTable? ==> K.TablePc(s.ms.threads[u].call.pc)
    ensures !(s.ms.threads[t].call.pc.LTable? || s.ms.threads[t].call.pc.UTable?) ==> K.SpinPc(s.ms.threads[u].call.pc)
  {
    hide K.FieldsInv, K.OwnersInv;
  }

  lemma OwnersSleepBelow(d: nat, s: State, t: nat, u: nat)
    requires Inv(d, s) && Waits(s, t, u) && s.ms.threads[t].call.pc == K.LAsleep
    requires s.ms.threads[u].call.Call? && s.ms.threads[u].call.pc == K.LAsleep
    ensures s.ms.threads[t].call.m != Nodes(d)
    ensures s.ms.threads[u].call.m == Nodes(d) || s.ms.threads[u].call.m < s.ms.threads[t].call.m
  {
    hide K.Inv, MapInv, Anc, Pow2;
    assert ThreadOk(d, s.prog[u], s.ms.threads[u]);
    var p := s.prog[u];
    if p.pc.Climb? {
      ChainStep(d, p.own, p.pc.k);
      ChainBound(d, p.own, p.pc.k);
      AncFacts(d, p.own, p.pc.k);
    }
  }

  lemma WaitsRank(d: nat, s: State, t: nat, u: nat)
    requires Inv(d, s) && Waits(s, t, u)
    ensures Rank(d, s, u) < Rank(d, s, t)
  {
    hide K.Inv, ThreadsOk, MapInv;
    if s.ms.threads[t].call.pc == K.LAsleep {
      if s.ms.threads[u].call.Call? && s.ms.threads[u].call.pc == K.LAsleep {
        OwnersSleepBelow(d, s, t, u);
      }
    } else {
      SpinnersRun(s, t, u);
    }
  }

  predicate WaitsPath(s: State, ts: seq<nat>) {
    |ts| >= 2 && forall i :: 0 <= i < |ts| - 1 ==> Waits(s, ts[i], ts[i + 1])
  }

  lemma {:induction false} PathRank(d: nat, s: State, ts: seq<nat>)
    requires Inv(d, s) && WaitsPath(s, ts)
    ensures Rank(d, s, ts[|ts| - 1]) < Rank(d, s, ts[0])
  {
    hide Inv, Waits, Rank;
    WaitsRank(d, s, ts[0], ts[1]);
    if |ts| > 2 {
      forall i | 0 <= i < |ts[1..]| - 1 ensures Waits(s, ts[1..][i], ts[1..][i + 1]) {
        assert Waits(s, ts[i + 1], ts[i + 1 + 1]);
      }
      PathRank(d, s, ts[1..]);
    }
  }

  /** No set of threads ever waits in a circle, over tree->Lock, all node mutexes, and the
      spinlocks under them. */
  lemma NoDeadlock(d: nat, n: nat, acts: seq<Action>, ts: seq<nat>)
    requires d >= 1 && WaitsPath(Run(d, Initial(d, n), acts), ts)
    ensures ts[0] != ts[|ts| - 1]
  {
    RunInv(d, n, acts);
    PathRank(d, Run(d, Initial(d, n), acts), ts);
  }

  /** Thread t is outside the mutex code, or asleep on a mutex that nobody has locked, or its next step
      changes its state whatever sleeper that step may pick to wake. */
  predicate Unhindered(s: State, t: nat)
    requires t < |s.ms.threads|
  {
    var call := s.ms.threads[t].call;
    || call == K.NoCall
    || (call.pc == K.LAsleep && forall v :: 0 <= v < |s.ms.threads| ==> call.m !in s.ms.threads[v].held)
    || (call.pc != K.LAsleep && call.m < |s.ms.mutexes| &&
        match call.pc
        case LTable => s.ms.table == -1
        case UTable => s.ms.table == -1
        case LSpin => s.ms.mutexes[call.m].spin == -1
        case USpin => s.ms.mutexes[call.m].spin == -1
        case LReacquire => s.ms.mutexes[call.m].spin == -1
        case _ => true)
  }

  /** Unhindered threads do move, unless they are asleep. */
  lemma UnhinderedMoves(s: State, t: nat, w: nat)
    requires t < |s.ms.threads| && Unhindered(s, t) && s.ms.threads[t].call.Call?
    requires s.ms.threads[t].call.pc != K.LAsleep
    ensures |K.Advance(s.ms, t, w).threads| == |s.ms.threads|
    ensures K.Advance(s.ms, t, w).threads[t].call != s.ms.threads[t].call
  {}

  lemma WaitsForNobody(d: nat, s: State, t: nat)
    requires Inv(d, s) && t < |s.prog| && forall v :: !Waits(s, t, v)
    ensures t < |s.ms.threads| && Unhindered(s, t)
  {
    hide K.FieldsInv, K.OwnersInv, ThreadOk, MapInv;
    if s.ms.threads[t].call.Call? {
      var call := s.ms.threads[t].call;
      if s.ms.table >= 0 { assert !Waits(s, t, s.ms.table); }
      if s.ms.mutexes[call.m].spin >= 0 { assert !Waits(s, t, s.ms.mutexes[call.m].spin); }
      forall v | 0 <= v < |s.ms.threads| && call.pc == K.LAsleep ensures call.m !in s.ms.threads[v].held {
        assert !Waits(s, t, v);
      }
    }
  }

  /** Every chain of waiting threads ends, at one that no other thread hinders. */
  lemma {:induction false} ChainEnds(d: nat, s: State, t: nat) returns (u: nat)
    requires Inv(d, s) && t < |s.prog|
    ensures u < |s.prog| && (forall v :: !Waits(s, u, v)) && u < |s.ms.threads| && Unhindered(s, u)
    ensures u == t || exists ts :: WaitsPath(s, ts) && ts[0] == t && ts[|ts| - 1] == u
    decreases Rank(d, s, t)
  {
    hide Inv, Rank, Unhindered;
    if v :| Waits(s, t, v) {
      WaitsRank(d, s, t, v);
      u := ChainEnds(d, s, v);
      if u == v {
        assert WaitsPath(s, [t, v]);
      } else {
        var ts :| WaitsPath(s, ts) && ts[0] == v && ts[|ts| - 1] == u;
        PathCons(s, t, ts);
        var path := [t] + ts;
        assert WaitsPath(s, path) && path[0] == t && path[|path| - 1] == u;
      }
    } else {
      u := t;
      WaitsForNobody(d, s, t);
    }
  }

  lemma PathCons(s: State, t: nat, ts: seq<nat>)
    requires WaitsPath(s, ts) && Waits(s, t, ts[0])
    ensures WaitsPath(s, [t] + ts)
  {
    hide Waits;
    var path := [t] + ts;
    forall i | 0 <= i < |path| - 1 ensures Waits(s, path[i], path[i + 1]) {
      if i > 0 { assert Waits(s, ts[i - 1], ts[i - 1 + 1]); }
    }
  }
}
