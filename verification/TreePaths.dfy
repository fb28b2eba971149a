/** Positions of the tournament tree: node 0 is the root, the children of p are 2p+1 and 2p+2, and
    the leaf of ID is powordepth(depth) - 1 + ID. */
module TreePaths {
  import opened Powers

  /** powordepth. */
  method PowOrDepth(exp: nat) returns (output: nat)
    ensures output == Pow2(exp)
  {
    output := 1;
    var e := exp;
    while e != 0
      invariant 0 <= e <= exp && output * Pow2(e) == Pow2(exp)
    {
      output := output * 2;
      e := e - 1;
    }
  }

  /** Number of nodes with a mutex; also the index this model gives to tree->Lock. */
  function Nodes(d: nat): nat { Pow2(d) - 1 }

  /** (position - 1) / 2, with C's truncation at the root. */
  function Father(p: nat): nat { if p == 0 then 0 else (p - 1) / 2 }

  /** The position reached from the leaf of `id` after `k` steps to the father. */
  function Anc(d: nat, id: nat, k: nat): nat
    decreases k
  {
    if k == 0 then Pow2(d) - 1 + id else Father(Anc(d, id, k - 1))
  }

  /** Position k steps up is at depth d - k. */
  lemma {:induction false} AncDepth(d: nat, id: nat, k: nat)
    requires id < Pow2(d) && k <= d
    ensures Pow2(d - k) <= Anc(d, id, k) + 1 < 2 * Pow2(d - k)
  {
    if k > 0 {
      AncDepth(d, id, k - 1);
      assert Pow2(d - k + 1) == 2 * Pow2(d - k);
    }
  }

  lemma {:induction false} Pow2Mono(a: nat, b: nat)
    requires a < b
    ensures 2 * Pow2(a) <= Pow2(b)
  {
    if a + 1 < b { Pow2Mono(a, b - 1); }
  }

  /** The climb meets nodes only, in strictly decreasing index, and ends at the root. */
  lemma AncFacts(d: nat, id: nat, k: nat)
    requires id < Pow2(d) && k <= d
    ensures k > 0 ==> Anc(d, id, k) < Nodes(d)
    ensures Anc(d, id, k) == 0 <==> k == d
    ensures k < d ==> Anc(d, id, k + 1) < Anc(d, id, k)
  {
    AncDepth(d, id, k);
    if k > 0 { Pow2Mono(d - k, d); }
    if k < d { Pow2Mono(0, d - k); }
  }

  lemma DepthsDiffer(d: nat, i: nat, j: nat, id: nat, jd: nat)
    requires id < Pow2(d) && jd < Pow2(d) && i < j <= d
    ensures Anc(d, jd, j) < Anc(d, id, i)
  {
    AncDepth(d, id, i);
    AncDepth(d, jd, j);
    Pow2Mono(d - j, d - i);
  }

  lemma SameDepth(d: nat, i: nat, j: nat, id: nat, jd: nat)
    requires id < Pow2(d) && jd < Pow2(d) && i <= d && j <= d
    requires Anc(d, id, i) == Anc(d, jd, j)
    ensures i == j
  {
    if i < j { DepthsDiffer(d, i, j, id, jd); }
    else if j < i { DepthsDiffer(d, j, i, jd, id); }
  }

  /** A position is one of the two children of its father. */
  lemma Child(d: nat, id: nat, k: nat)
    requires id < Pow2(d) && k < d
    ensures Anc(d, id, k) in {2 * Anc(d, id, k + 1) + 1, 2 * Anc(d, id, k + 1) + 2}
  {
    AncFacts(d, id, k);
  }

  /** The first k nodes above the leaf of `id`. */
  function Chain(d: nat, id: nat, k: nat): set<nat> {
    if k == 0 then {} else Chain(d, id, k - 1) + {Anc(d, id, k)}
  }

  lemma {:induction false} ChainMember(d: nat, id: nat, k: nat, x: nat)
    ensures x in Chain(d, id, k) <==> exists i :: 1 <= i <= k && x == Anc(d, id, i)
  {
    hide Anc;
    if k > 0 {
      ChainMember(d, id, k - 1, x);
      if x in Chain(d, id, k - 1) {
        var i :| 1 <= i <= k - 1 && x == Anc(d, id, i);
        assert 1 <= i <= k && x == Anc(d, id, i);
      } else if x == Anc(d, id, k) {
        assert 1 <= k <= k && x == Anc(d, id, k);
      }
    }
  }

  lemma {:induction false} ChainBound(d: nat, id: nat, k: nat)
    requires id < Pow2(d) && k <= d
    ensures forall x <- Chain(d, id, k) :: Anc(d, id, k) <= x < Nodes(d)
  {
    if k > 0 {
      ChainBound(d, id, k - 1);
      AncFacts(d, id, k - 1);
      AncFacts(d, id, k);
    }
  }

  /** The next node up is not in the chain yet, and the chain shrinks by exactly its top. */
  lemma ChainStep(d: nat, id: nat, k: nat)
    requires id < Pow2(d) && k < d
    ensures Anc(d, id, k + 1) !in Chain(d, id, k) && Nodes(d) !in Chain(d, id, k + 1)
    ensures Chain(d, id, k + 1) == Chain(d, id, k) + {Anc(d, id, k + 1)}
    ensures Chain(d, id, k + 1) - {Anc(d, id, k + 1)} == Chain(d, id, k)
  {
    ChainBound(d, id, k);
    ChainBound(d, id, k + 1);
    AncFacts(d, id, k);
  }
}
