/** The ring of bio.c over whole runs: it stands in the order in which the buffers were last given up, so that
    bget takes over the buffer that has been unused for longest. */
module BufferLru {
  import opened LruRing
  import opened BufferCache
  import opened BufferRuns

  /** The last user of buffer x leaves it. */
  predicate Frees(v: View, a: Action, x: nat) {
    a.Leave? && a.b == x && Ready(v, a) && v.bufs[x].refcnt == 1
  }

  /** The last of the first n actions that freed buffer x, or -1. */
  function LastFreed(acts: seq<Action>, views: seq<View>, n: nat, x: nat): (k: int)
    requires n <= |acts| && |views| == |acts| + 1
    ensures -1 <= k < n
  {
    if n == 0 then -1 else if Frees(views[n - 1], acts[n - 1], x) then n - 1 else LastFreed(acts, views, n - 1, x)
  }

  ghost predicate Before(ring: seq<nat>, x: nat, y: nat) {
    exists i, j :: 0 <= i < j < |ring| && ring[i] == x && ring[j] == y
  }

  lemma MovedNodes(n: nat, ring: seq<nat>, b: nat, ring': seq<nat>)
    requires Nodes(n, ring) && MovedToFront(ring, b, ring')
    ensures Nodes(n, ring') && |ring'| == |ring|
  {
    var k :| 0 <= k < |ring| && ring[k] == b && ring' == [b] + Drop(ring, k);
    DropNodes(n, ring, k);
  }

  /** Moving b to the front puts it before all others and leaves their order alone. */
  lemma MovedOrder(ring: seq<nat>, b: nat, ring': seq<nat>, x: nat, y: nat)
    requires MovedToFront(ring, b, ring') && y != b
    requires if x == b then y in ring else Before(ring, x, y)
    ensures Before(ring', x, y)
  {
    var k :| 0 <= k < |ring| && ring[k] == b && ring' == [b] + Drop(ring, k);
    if x == b {
      var j :| 0 <= j < |ring| && ring[j] == y;
      var j' := if j < k then j + 1 else j;
      assert ring'[0] == x && ring'[j'] == y;
    } else {
      var i, j :| 0 <= i < j < |ring| && ring[i] == x && ring[j] == y;
      var i', j' := if i < k then i + 1 else i, if j < k then j + 1 else j;
      assert ring'[i'] == x && ring'[j'] == y;
    }
  }

  lemma MovedMembers(ring: seq<nat>, b: nat, ring': seq<nat>, x: nat)
    requires MovedToFront(ring, b, ring') && x in ring'
    ensures x in ring
  {
    var k :| 0 <= k < |ring| && ring[k] == b && ring' == [b] + Drop(ring, k);
  }

  /** What a step does to the ring. */
  lemma RingStep(v: View, a: Action, v': View, out: Outcome)
    requires Performed(v, a, v', out)
    ensures if a.Leave? && Frees(v, a, a.b) then MovedToFront(v.ring, a.b, v'.ring) else v'.ring == v.ring
  {}

  /** Buffers stand in the ring in the order in which they were freed, the latest first. */
  lemma {:induction false} RingOrder(acts: seq<Action>, views: seq<View>, outs: seq<Outcome>, size: nat, n: nat,
                                     x: nat, y: nat)
    requires RunOf(acts, views, outs) && n <= |acts| && Nodes(size, views[0].ring)
    ensures Nodes(size, views[n].ring)
    ensures x in views[n].ring && y in views[n].ring && LastFreed(acts, views, n, x) > LastFreed(acts, views, n, y) ==>
              Before(views[n].ring, x, y)
  {
    hide Performed, Nodes, MovedToFront, Frees, Before;
    if n > 0 {
      RingOrder(acts, views, outs, size, n - 1, x, y);
      var v, a, v' := views[n - 1], acts[n - 1], views[n];
      assert Performed(v, a, v', outs[n - 1]);
      RingStep(v, a, v', outs[n - 1]);
      FreesOne(v, a);
      if a.Leave? && Frees(v, a, a.b) {
        MovedNodes(size, v.ring, a.b, v'.ring);
        if x in v'.ring && y in v'.ring && LastFreed(acts, views, n, x) > LastFreed(acts, views, n, y) {
          MovedMembers(v.ring, a.b, v'.ring, x);
          MovedMembers(v.ring, a.b, v'.ring, y);
          MovedOrder(v.ring, a.b, v'.ring, x, y);
        }
      }
    }
  }

  lemma FreesOne(v: View, a: Action)
    ensures forall x :: Frees(v, a, x) ==> a.Leave? && x == a.b
  {}

  /** The buffer bget takes over was last freed no later than any other buffer it could have taken. */
  lemma VictimIsOldest(acts: seq<Action>, views: seq<View>, outs: seq<Outcome>, size: nat, n: nat, y: nat)
    requires RunOf(acts, views, outs) && n < |acts| && Nodes(size, views[0].ring)
    requires acts[n].Get? && outs[n].Refers? && outs[n].b < |views[n].bufs|
    requires !Caches(views[n].bufs[outs[n].b], acts[n].blockno)
    requires y in views[n].ring && y < |views[n].bufs| && !Busy(views[n].bufs[y])
    ensures LastFreed(acts, views, n, outs[n].b) <= LastFreed(acts, views, n, y)
  {
    var v, b := views[n], outs[n].b;
    assert Performed(v, acts[n], views[n + 1], outs[n]);
    assert Oldest(v.bufs, v.ring, b);
    RingOrder(acts, views, outs, size, n, b, y);
    var k :| 0 <= k < |v.ring| && v.ring[k] == b && BusyBehind(v.bufs, v.ring, k);
  }
}
