/** The doubly linked ring of bio.c, as the two link arrays of a set of numbered nodes. Node n is
    the list head; nodes 0..n-1 are the buffers. */
module LruRing {

  /** Position i of the ring, where the head stands before the first and after the last. */
  function At(n: nat, ring: seq<nat>, i: int): nat {
    if 0 <= i < |ring| then ring[i] else n
  }

  /** Distinct buffers. */
  predicate Nodes(n: nat, ring: seq<nat>) {
    && (forall i :: 0 <= i < |ring| ==> ring[i] < n)
    && (forall i, j :: 0 <= i < j < |ring| ==> ring[i] != ring[j])
  }

  /** Following `next` from the head visits `ring` in order and comes back. */
  ghost predicate Forward(next: seq<nat>, n: nat, ring: seq<nat>) {
    |next| == n + 1 && Nodes(n, ring) && forall i :: -1 <= i < |ring| ==> next[At(n, ring, i)] == At(n, ring, i + 1)
  }

  /** Following `prev` from the head visits it backwards. */
  ghost predicate Backward(prev: seq<nat>, n: nat, ring: seq<nat>) {
    |prev| == n + 1 && Nodes(n, ring) && forall i :: 0 <= i <= |ring| ==> prev[At(n, ring, i)] == At(n, ring, i - 1)
  }

  ghost predicate IsRing(next: seq<nat>, prev: seq<nat>, n: nat, ring: seq<nat>) {
    Forward(next, n, ring) && Backward(prev, n, ring)
  }

  lemma InsertNodes(n: nat, ring: seq<nat>, b: nat)
    requires Nodes(n, ring) && b < n && b !in ring
    ensures Nodes(n, [b] + ring)
    ensures forall i :: At(n, [b] + ring, i) == if i == 0 then b else At(n, ring, i - 1)
  {}

  /** Link b in after the head. */
  lemma InsertFront(next: seq<nat>, prev: seq<nat>, n: nat, ring: seq<nat>, b: nat)
    requires IsRing(next, prev, n, ring) && b < n && b !in ring
    ensures var first := next[n];
            && first < |prev|
            && IsRing(next[b := first][n := b], prev[b := n][first := b], n, [b] + ring)
  {
    InsertNext(next, n, ring, b);
    InsertPrev(prev, n, ring, b);
    assert next[At(n, ring, -1)] == At(n, ring, 0);
  }

  lemma InsertNext(next: seq<nat>, n: nat, ring: seq<nat>, b: nat)
    requires Forward(next, n, ring) && b < n && b !in ring
    ensures Forward(next[b := next[n]][n := b], n, [b] + ring)
  {
    InsertNodes(n, ring, b);
    var r, next' := [b] + ring, next[b := next[n]][n := b];
    hide Nodes;
    forall i | -1 <= i < |r| ensures next'[At(n, r, i)] == At(n, r, i + 1) {
      assert At(n, ring, -1) == n;
      if i > 0 { assert next[At(n, ring, i - 1)] == At(n, ring, i); }
    }
  }

  lemma InsertPrev(prev: seq<nat>, n: nat, ring: seq<nat>, b: nat)
    requires Backward(prev, n, ring) && b < n && b !in ring
    ensures At(n, ring, 0) <= n
    ensures Backward(prev[b := n][At(n, ring, 0) := b], n, [b] + ring)
  {
    InsertNodes(n, ring, b);
    var first := At(n, ring, 0);
    var r, prev' := [b] + ring, prev[b := n][first := b];
    forall i | 0 <= i <= |r| ensures prev'[At(n, r, i)] == At(n, r, i - 1) {
      if i > 1 { assert prev[At(n, ring, i - 1)] == At(n, ring, i - 2); }
    }
  }

  function Drop(ring: seq<nat>, k: nat): seq<nat>
    requires k < |ring|
  {
    ring[..k] + ring[k + 1..]
  }

  lemma DropNodes(n: nat, ring: seq<nat>, k: nat)
    requires Nodes(n, ring) && k < |ring|
    ensures Nodes(n, Drop(ring, k)) && ring[k] !in Drop(ring, k)
    ensures forall i :: -1 <= i <= |ring| - 1 ==> At(n, Drop(ring, k), i) == At(n, ring, if i < k then i else i + 1)
  {
    var r := Drop(ring, k);
    assert forall i :: 0 <= i < |r| ==> r[i] == ring[if i < k then i else i + 1];
  }

  /** Unlink the k-th node. */
  lemma Unlink(next: seq<nat>, prev: seq<nat>, n: nat, ring: seq<nat>, k: nat)
    requires IsRing(next, prev, n, ring) && k < |ring|
    ensures var b := ring[k];
            && b < n && next[b] < |prev| && prev[b] < |next|
            && IsRing(next[prev[b] := next[b]], prev[next[b] := prev[b]], n, Drop(ring, k))
            && b !in Drop(ring, k)
  {
    assert next[At(n, ring, k)] == At(n, ring, k + 1) && prev[At(n, ring, k)] == At(n, ring, k - 1);
    DropNodes(n, ring, k);
    UnlinkNext(next, n, ring, k);
    UnlinkPrev(prev, n, ring, k);
  }

  lemma UnlinkNext(next: seq<nat>, n: nat, ring: seq<nat>, k: nat)
    requires Forward(next, n, ring) && k < |ring|
    ensures At(n, ring, k - 1) <= n
    ensures Forward(next[At(n, ring, k - 1) := At(n, ring, k + 1)], n, Drop(ring, k))
  {
    DropNodes(n, ring, k);
    var r, next' := Drop(ring, k), next[At(n, ring, k - 1) := At(n, ring, k + 1)];
    forall i | -1 <= i < |r| ensures next'[At(n, r, i)] == At(n, r, i + 1) {
      var j := if i < k then i else i + 1;
      assert next[At(n, ring, j)] == At(n, ring, j + 1);
    }
  }

  lemma UnlinkPrev(prev: seq<nat>, n: nat, ring: seq<nat>, k: nat)
    requires Backward(prev, n, ring) && k < |ring|
    ensures At(n, ring, k + 1) <= n
    ensures Backward(prev[At(n, ring, k + 1) := At(n, ring, k - 1)], n, Drop(ring, k))
  {
    DropNodes(n, ring, k);
    var r, prev' := Drop(ring, k), prev[At(n, ring, k + 1) := At(n, ring, k - 1)];
    forall i | 0 <= i <= |r| ensures prev'[At(n, r, i)] == At(n, r, i - 1) {
      var j := if i < k then i else i + 1;
      assert prev[At(n, ring, j)] == At(n, ring, j - 1);
    }
  }

  /** Moving a node to the front keeps exactly the same nodes. */
  lemma DropInsert(ring: seq<nat>, k: nat, x: nat)
    requires k < |ring|
    ensures x in [ring[k]] + Drop(ring, k) <==> x in ring
  {
    assert ring == ring[..k] + [ring[k]] + ring[k + 1..];
  }
}
