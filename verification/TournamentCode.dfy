/** The climb of trnmnt_tree_acquire and the recursion of trnmnt_tree_release_rec as they are
    written, over the holders of the node mutexes. They visit the nodes in the order in which the
    step system of Tournament locks and unlocks them. */
module TournamentCode {
  import opened Powers
  import opened TreePaths

  /** Nodes d, d - 1, ..., k + 1 of the path of `id`: from the root down. */
  function Downward(d: nat, id: nat, k: nat): seq<nat>
    requires k <= d
    decreases d - k
  {
    if k == d then [] else Downward(d, id, k + 1) + [Anc(d, id, k + 1)]
  }

  /** Nodes 1, ..., k of the path of `id`: from the leaf up. */
  function Upward(d: nat, id: nat, k: nat): seq<nat> {
    if k == 0 then [] else Upward(d, id, k - 1) + [Anc(d, id, k)]
  }

  /** Those of nodes 1, ..., k of the path of `id` that nobody has. */
  function Opened(d: nat, id: nat, k: nat, holders: seq<int>): seq<nat> {
    if k == 0 then []
    else
      var p := Anc(d, id, k);
      Opened(d, id, k - 1, holders) + if p < |holders| && holders[p] == -1 then [p] else []
  }

  /** Another thread than t has the node. */
  predicate Taken(h: int, t: nat) { h != -1 && h != t }

  /** On an open path the climb takes every node, from the leaf side up. */
  lemma {:induction false} OpenPath(d: nat, id: nat, k: nat, holders: seq<int>)
    requires forall i :: 1 <= i <= k ==> Anc(d, id, i) < |holders| && holders[Anc(d, id, i)] == -1
    ensures Opened(d, id, k, holders) == Upward(d, id, k)
  {
    if k > 0 { OpenPath(d, id, k - 1, holders); }
  }

  class NodeMutexes {
    const depth: nat
    const holder: array<int>  // -1 when the node mutex is open
    ghost var log: seq<nat>   // the nodes locked or unlocked so far, in order

    ghost predicate Valid()
      reads this
    {
      depth >= 1 && holder.Length == Nodes(depth)
    }

    /** kthread_mutex_lock: an open node is taken, one the caller has is refused with -1, and on one
        that another thread has the caller goes to sleep. */
    method Lock(p: nat, t: nat) returns (r: int, sleeps: bool)
      requires Valid() && p < holder.Length
      modifies holder, this`log
      ensures sleeps <==> old(holder[p]) != -1 && old(holder[p]) != t
      ensures !sleeps ==> holder[p] == t && r == if old(holder[p]) == -1 then 0 else -1
      ensures sleeps ==> holder[p] == old(holder[p])
      ensures log == old(log) + if old(holder[p]) == -1 then [p] else []
      ensures forall q :: 0 <= q < holder.Length && q != p ==> holder[q] == old(holder[q])
    {
      r, sleeps := -1, false;
      if holder[p] == t {
        return;
      }
      if holder[p] != -1 {
        sleeps := true;
        return;
      }
      holder[p] := t;
      log := log + [p];
      r := 0;
    }

    /** kthread_mutex_unlock: fails unless the caller holds the node. */
    method Unlock(p: nat, t: nat) returns (r: int)
      requires Valid() && p < holder.Length
      modifies holder, this`log
      ensures r == if old(holder[p]) == t then 0 else -1
      ensures holder[p] == if r == 0 then -1 else old(holder[p])
      ensures log == old(log) + if r == 0 then [p] else []
      ensures forall q :: 0 <= q < holder.Length && q != p ==> holder[q] == old(holder[q])
    {
      if holder[p] != t {
        return -1;
      }
      holder[p] := -1;
      log := log + [p];
      r := 0;
    }

    /** The loop at tournament_tree.c:115-121: takes the path from the leaf side up, as far as the first
        node that another thread has, and sleeps there; `done` counts the nodes passed. */
    method Climb(id: nat, t: nat) returns (done: nat)
      requires Valid() && id < Pow2(depth)
      modifies holder, this`log
      ensures done <= depth
      ensures done < depth ==> Anc(depth, id, done + 1) < holder.Length && Taken(holder[Anc(depth, id, done + 1)], t)
      ensures forall k :: 1 <= k <= done ==>
                Anc(depth, id, k) < holder.Length && !Taken(old(holder[..])[Anc(depth, id, k)], t)
      ensures log == old(log) + Opened(depth, id, done, old(holder[..]))
      ensures forall q :: 0 <= q < holder.Length ==>
                holder[q] == if q in Chain(depth, id, done) then t else old(holder[q])
    {
      hide Chain, Opened, Anc;
      PathStart(depth, id);
      OpenedNone(depth, id, holder[..]);
      var leaves := PowOrDepth(depth);
      var treePosition := leaves - 1 + id;
      var fatherPosition := (treePosition - 1) / 2;
      done := 0;
      AncFacts(depth, id, 0);
      while treePosition != 0
        invariant done <= depth && treePosition == Anc(depth, id, done)
        invariant treePosition != 0 ==> done < depth && fatherPosition == Anc(depth, id, done + 1)
        invariant treePosition == 0 ==> done == depth
        invariant log == old(log) + Opened(depth, id, done, old(holder[..]))
        invariant forall k :: 1 <= k <= done ==>
                    Anc(depth, id, k) < holder.Length && !Taken(old(holder[..])[Anc(depth, id, k)], t)
        invariant forall q :: 0 <= q < holder.Length ==>
                    holder[q] == if q in Chain(depth, id, done) then t else old(holder[q])
        decreases depth - done
      {
        ChainStep(depth, id, done);
        AncFacts(depth, id, done + 1);
        OpenedStep(depth, id, done, old(holder[..]));
        PathStep(depth, id, done + 1);
        var r, sleeps := Lock(fatherPosition, t);
        if sleeps {
          return;
        }
        treePosition := fatherPosition;
        fatherPosition := Father(treePosition);
        done := done + 1;
      }
    }

    /** trnmnt_tree_release_rec at the position k steps above the leaf: unlocks everything above it,
        the root first, when the caller holds all of it. */
    method ReleaseRec(position: nat, t: nat, ghost id: nat, ghost k: nat) returns (r: int)
      requires Valid() && id < Pow2(depth) && k < depth && position == Anc(depth, id, k)
      requires forall q <- Downward(depth, id, k) :: q < holder.Length && holder[q] == t
      modifies holder, this`log
      ensures r == 0
      ensures log == old(log) + Downward(depth, id, k)
      ensures forall q :: 0 <= q < holder.Length ==>
                holder[q] == if q in Downward(depth, id, k) then -1 else old(holder[q])
      decreases depth - k
    {
      AncFacts(depth, id, k);
      AncFacts(depth, id, k + 1);
      AllBelow(depth, id, k + 1);
      var fatherPosition := (position - 1) / 2;
      if fatherPosition != 0 {
        var up := ReleaseRec(fatherPosition, t, id, k + 1);
        if up == -1 {
          return -1;
        }
      }
      r := Unlock(fatherPosition, t);
    }
  }

  lemma PathStart(d: nat, id: nat)
    requires 1 <= d
    ensures Chain(d, id, 0) == {}
    ensures Anc(d, id, 0) == Pow2(d) - 1 + id
    ensures Anc(d, id, 1) == (Pow2(d) - 1 + id - 1) / 2
  {}

  lemma OpenedNone(d: nat, id: nat, holders: seq<int>)
    ensures Opened(d, id, 0, holders) == []
  {}

  lemma OpenedStep(d: nat, id: nat, k: nat, holders: seq<int>)
    requires Anc(d, id, k + 1) < |holders|
    ensures Opened(d, id, k + 1, holders) ==
              Opened(d, id, k, holders) + if holders[Anc(d, id, k + 1)] == -1 then [Anc(d, id, k + 1)] else []
  {}

  lemma PathStep(d: nat, id: nat, k: nat)
    ensures Anc(d, id, k + 1) == Father(Anc(d, id, k))
  {}

  lemma {:induction false} AllBelow(d: nat, id: nat, k: nat)
    requires id < Pow2(d) && k <= d
    ensures forall q <- Downward(d, id, k) :: q < Anc(d, id, k)
    decreases d - k
  {
    if k < d {
      AllBelow(d, id, k + 1);
      AncFacts(d, id, k);
    }
  }
}
