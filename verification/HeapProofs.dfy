/** The accounts of the heap, and how freeing, merging, splitting and sbrk keep them. */
module HeapProofs {
  import opened HeapSpec

  /** The free list starts at base, ascends, and never has two free blocks side by side; every block
      is either on it or live. */
  ghost predicate Accounts(base: nat, ring: seq<nat>, live: set<nat>, blocks: Blocks) {
    && ring != [] && ring[0] == base && Ascending(ring)
    && Listed(ring, live, blocks) && Known(base, ring, live, blocks) && Apart(ring, blocks)
  }

  ghost predicate Listed(ring: seq<nat>, live: set<nat>, blocks: Blocks) {
    forall i :: 1 <= i < |ring| ==> ring[i] in blocks && ring[i] !in live
  }

  ghost predicate Known(base: nat, ring: seq<nat>, live: set<nat>, blocks: Blocks) {
    (forall b <- live :: b in blocks) && (forall b <- blocks :: base < b && (b in live || b in ring))
  }

  /** No two free blocks touch. */
  ghost predicate Apart(ring: seq<nat>, blocks: Blocks) {
    forall i :: 1 <= i < |ring| - 1 ==> ring[i] in blocks && ring[i] + blocks[ring[i]] < ring[i + 1]
  }

  /** Where free puts bp: after ring[j]. */
  ghost predicate Slot(ring: seq<nat>, bp: nat, j: nat) {
    j < |ring| && ring[j] < bp && (j + 1 < |ring| ==> bp < ring[j + 1])
  }

  lemma {:induction false} SlotExists(ring: seq<nat>, bp: nat, n: nat) returns (j: nat)
    requires Ascending(ring) && 1 <= n <= |ring| && ring[0] < bp && bp !in ring && (n < |ring| ==> bp < ring[n])
    ensures Slot(ring, bp, j)
    decreases n
  {
    if ring[n - 1] < bp { j := n - 1; } else { j := SlotExists(ring, bp, n - 1); }
  }

  /** Block bp ends strictly before the next free block. */
  ghost predicate GapAbove(ring: seq<nat>, blocks: Blocks, bp: nat, j: nat) {
    bp in blocks && (j + 1 < |ring| ==> bp + blocks[bp] < ring[j + 1])
  }

  function Removed(s: seq<nat>, i: nat): seq<nat>
    requires i < |s|
  {
    s[..i] + s[i + 1..]
  }

  lemma RemovedAt(s: seq<nat>, i: nat)
    requires i < |s| && Ascending(s)
    ensures Ascending(Removed(s, i)) && |Removed(s, i)| == |s| - 1
    ensures forall k :: 0 <= k < i ==> Removed(s, i)[k] == s[k]
    ensures forall k :: i <= k < |s| - 1 ==> Removed(s, i)[k] == s[k + 1]
    ensures forall x :: x in s && x != s[i] ==> x in Removed(s, i)
  {
    forall x | x in s && x != s[i] ensures x in Removed(s, i) {
      var k :| 0 <= k < |s| && s[k] == x;
      if k < i { assert Removed(s, i)[k] == x; } else { assert Removed(s, i)[k - 1] == x; }
    }
  }

  function Inserted(s: seq<nat>, i: nat, x: nat): seq<nat>
    requires i <= |s|
  {
    s[..i] + [x] + s[i..]
  }

  lemma InsertedAt(s: seq<nat>, i: nat, x: nat)
    requires i <= |s| && Ascending(s) && (i > 0 ==> s[i - 1] < x) && (i < |s| ==> x < s[i])
    ensures Ascending(Inserted(s, i, x)) && |Inserted(s, i, x)| == |s| + 1
    ensures forall k :: 0 <= k < i ==> Inserted(s, i, x)[k] == s[k]
    ensures Inserted(s, i, x)[i] == x
    ensures forall k :: i < k <= |s| ==> Inserted(s, i, x)[k] == s[k - 1]
    ensures forall y :: y in s ==> y in Inserted(s, i, x)
  {
    var t := Inserted(s, i, x);
    assert forall k :: i < k <= |s| ==> t[k] == s[k - 1];
    forall y | y in s ensures y in t {
      var k :| 0 <= k < |s| && s[k] == y;
      if k < i { assert t[k] == y; } else { assert t[k + 1] == y; }
    }
  }

  // ---- free ------------------------------------------------------------------------------

  /** bp swallows the free block right above it. */
  lemma UpStep(base: nat, ring: seq<nat>, live: set<nat>, blocks: Blocks, arena: set<nat>, bp: nat, j: nat)
    requires Accounts(base, ring, live, blocks) && Tiles(blocks, arena) && bp in live && Slot(ring, bp, j)
    requires j + 1 < |ring| && bp + blocks[bp] == ring[j + 1]
    ensures var ring', blocks' := Removed(ring, j + 1), Merge(blocks, bp, ring[j + 1]);
            && Accounts(base, ring', live, blocks') && Tiles(blocks', arena)
            && Slot(ring', bp, j) && GapAbove(ring', blocks', bp, j)
  {
    MergeTiles(blocks, arena, bp, ring[j + 1]);
    RemovedAt(ring, j + 1);
    assert ring[j + 1] in blocks && ring[j + 1] !in live;
    UpApart(ring, blocks, bp, j);
    UpListed(base, ring, live, blocks, bp, j);
    UpKnown(base, ring, live, blocks, bp, j);
    hide Tiles, Removed, Apart, Listed, Known;
  }

  lemma UpListed(base: nat, ring: seq<nat>, live: set<nat>, blocks: Blocks, bp: nat, j: nat)
    requires Ascending(ring) && Listed(ring, live, blocks) && bp in live && bp in blocks && j + 1 < |ring|
    ensures ring[j + 1] in blocks && Listed(Removed(ring, j + 1), live, Merge(blocks, bp, ring[j + 1]))
  {
    hide Removed;
    RemovedAt(ring, j + 1);
  }

  lemma UpKnown(base: nat, ring: seq<nat>, live: set<nat>, blocks: Blocks, bp: nat, j: nat)
    requires Ascending(ring) && Known(base, ring, live, blocks) && bp in live && bp in blocks
    requires j + 1 < |ring| && ring[j + 1] in blocks && ring[j + 1] !in live
    ensures Known(base, Removed(ring, j + 1), live, Merge(blocks, bp, ring[j + 1]))
  {
    hide Removed, Ascending;
    RemovedAt(ring, j + 1);
  }

  lemma UpApart(ring: seq<nat>, blocks: Blocks, bp: nat, j: nat)
    requires Ascending(ring) && Apart(ring, blocks) && Slot(ring, bp, j) && bp in blocks && j + 1 < |ring|
    requires ring[j + 1] in blocks
    requires bp + blocks[bp] == ring[j + 1]
    ensures Apart(Removed(ring, j + 1), Merge(blocks, bp, ring[j + 1]))
    ensures j + 1 < |Removed(ring, j + 1)| ==> bp + blocks[bp] + blocks[ring[j + 1]] < Removed(ring, j + 1)[j + 1]
  {
    RemovedAt(ring, j + 1);
    hide Removed;
    var ring', blocks' := Removed(ring, j + 1), Merge(blocks, bp, ring[j + 1]);
    forall i | 1 <= i < |ring'| - 1 ensures ring'[i] in blocks' && ring'[i] + blocks'[ring'[i]] < ring'[i + 1] {
      assert ring'[i + 1] == if i + 1 < j + 1 then ring[i + 1] else ring[i + 2];
      assert ring'[i] == if i < j + 1 then ring[i] else ring[i + 1];
    }
    if j + 2 < |ring| { assert ring'[j + 1] == ring[j + 2]; }
  }

  lemma UpNone(base: nat, ring: seq<nat>, live: set<nat>, blocks: Blocks, arena: set<nat>, bp: nat, j: nat)
    requires Accounts(base, ring, live, blocks) && Tiles(blocks, arena) && bp in live && Slot(ring, bp, j)
    requires j + 1 < |ring| ==> bp + blocks[bp] != ring[j + 1]
    ensures GapAbove(ring, blocks, bp, j)
  {
    if j + 1 < |ring| { assert ring[j + 1] in blocks; }
  }

  /** The free block right below swallows bp. */
  lemma DownStep(base: nat, ring: seq<nat>, live: set<nat>, blocks: Blocks, arena: set<nat>, bp: nat, j: nat)
    requires Accounts(base, ring, live, blocks) && Tiles(blocks, arena) && bp in live && Slot(ring, bp, j)
    requires GapAbove(ring, blocks, bp, j)
    requires j >= 1 && ring[j] + blocks[ring[j]] == bp
    ensures Accounts(base, ring, live - {bp}, Merge(blocks, ring[j], bp)) && Tiles(Merge(blocks, ring[j], bp), arena)
  {
    hide Tiles;
    MergeTiles(blocks, arena, ring[j], bp);
    var blocks' := Merge(blocks, ring[j], bp);
    forall i | 1 <= i < |ring| ensures ring[i] in blocks' && (i != j ==> blocks'[ring[i]] == blocks[ring[i]]) {}
  }

  /** bp becomes a free block of its own. */
  lemma KeepStep(base: nat, ring: seq<nat>, live: set<nat>, blocks: Blocks, arena: set<nat>, bp: nat, j: nat)
    requires Accounts(base, ring, live, blocks) && Tiles(blocks, arena) && bp in live && Slot(ring, bp, j)
    requires GapAbove(ring, blocks, bp, j)
    requires j >= 1 ==> ring[j] + blocks[ring[j]] != bp
    ensures Accounts(base, Inserted(ring, j + 1, bp), live - {bp}, blocks)
  {
    InsertedAt(ring, j + 1, bp);
    if j >= 1 { assert ring[j] in blocks && ring[j] + blocks[ring[j]] < bp; }
    KeepApart(ring, blocks, bp, j);
    KeepListed(ring, live, blocks, bp, j);
    KeepKnown(base, ring, live, blocks, bp, j);
    hide Tiles, Inserted, Apart, Listed, Known;
  }

  lemma KeepListed(ring: seq<nat>, live: set<nat>, blocks: Blocks, bp: nat, j: nat)
    requires Ascending(ring) && Listed(ring, live, blocks) && bp in blocks && Slot(ring, bp, j)
    ensures Listed(Inserted(ring, j + 1, bp), live - {bp}, blocks)
  {
    hide Inserted, Ascending;
    InsertedAt(ring, j + 1, bp);
    var ring' := Inserted(ring, j + 1, bp);
    forall i | 1 <= i < |ring'| ensures ring'[i] in blocks && ring'[i] !in live - {bp} {
      if i > j + 1 { assert ring'[i] == ring[i - 1]; }
    }
  }

  lemma KeepKnown(base: nat, ring: seq<nat>, live: set<nat>, blocks: Blocks, bp: nat, j: nat)
    requires Ascending(ring) && Known(base, ring, live, blocks) && bp in live && Slot(ring, bp, j)
    ensures Known(base, Inserted(ring, j + 1, bp), live - {bp}, blocks)
  {
    hide Inserted, Ascending;
    InsertedAt(ring, j + 1, bp);
    assert Inserted(ring, j + 1, bp)[j + 1] == bp;
  }

  lemma KeepApart(ring: seq<nat>, blocks: Blocks, bp: nat, j: nat)
    requires Ascending(ring) && Apart(ring, blocks) && Slot(ring, bp, j) && GapAbove(ring, blocks, bp, j)
    requires j >= 1 ==> ring[j] in blocks && ring[j] + blocks[ring[j]] < bp
    ensures Apart(Inserted(ring, j + 1, bp), blocks)
  {
    InsertedAt(ring, j + 1, bp);
    hide Inserted;
    var ring' := Inserted(ring, j + 1, bp);
    forall i | 1 <= i < |ring'| - 1 ensures ring'[i] in blocks && ring'[i] + blocks[ring'[i]] < ring'[i + 1] {
      if i > j + 1 { assert ring'[i] == ring[i - 1] && ring'[i + 1] == ring[i]; }
    }
  }

  // ---- malloc ----------------------------------------------------------------------------

  lemma TakeWhole(base: nat, ring: seq<nat>, live: set<nat>, blocks: Blocks, j: nat)
    requires Accounts(base, ring, live, blocks) && 1 <= j < |ring|
    requires forall b <- blocks :: blocks[b] >= 1
    ensures Accounts(base, Removed(ring, j), live + {ring[j]}, blocks)
  {
    hide Removed, Ascending, Apart, Listed, Known;
    RemovedAt(ring, j);
    WholeApart(ring, live, blocks, j);
    WholeKnown(base, ring, live, blocks, j);
  }

  lemma WholeApart(ring: seq<nat>, live: set<nat>, blocks: Blocks, j: nat)
    requires Ascending(ring) && Apart(ring, blocks) && Listed(ring, live, blocks) && 1 <= j < |ring|
    ensures Apart(Removed(ring, j), blocks) && Listed(Removed(ring, j), live + {ring[j]}, blocks)
  {
    hide Removed;
    RemovedAt(ring, j);
    var ring' := Removed(ring, j);
    forall i | 1 <= i < |ring'| - 1 ensures ring'[i] in blocks && ring'[i] + blocks[ring'[i]] < ring'[i + 1] {
      assert ring'[i + 1] == if i + 1 < j then ring[i + 1] else ring[i + 2];
      assert ring'[i] == if i < j then ring[i] else ring[i + 1];
      assert ring[i] in blocks && ring[i] + blocks[ring[i]] < ring[i + 1] < ring[i + 2];
    }
  }

  lemma WholeKnown(base: nat, ring: seq<nat>, live: set<nat>, blocks: Blocks, j: nat)
    requires Ascending(ring) && Known(base, ring, live, blocks) && Listed(ring, live, blocks) && 1 <= j < |ring|
    ensures Known(base, Removed(ring, j), live + {ring[j]}, blocks)
  {
    hide Removed, Ascending;
    RemovedAt(ring, j);
  }

  lemma TakeTail(base: nat, ring: seq<nat>, live: set<nat>, blocks: Blocks, arena: set<nat>, j: nat, n: nat)
    requires Accounts(base, ring, live, blocks) && Tiles(blocks, arena) && 1 <= j < |ring| && 1 <= n < blocks[ring[j]]
    ensures var c := ring[j] + (blocks[ring[j]] - n);
            && Accounts(base, ring, live + {c}, Split(blocks, ring[j], n))
            && Tiles(Split(blocks, ring[j], n), arena) && c !in blocks
  {
    SplitTiles(blocks, arena, ring[j], n);
    hide Tiles;
    var c := ring[j] + (blocks[ring[j]] - n);
    TailListed(base, ring, live, blocks, j, n);
    hide Split, Listed, Known, Apart;
  }

  lemma TailListed(base: nat, ring: seq<nat>, live: set<nat>, blocks: Blocks, j: nat, n: nat)
    requires Accounts(base, ring, live, blocks) && 1 <= j < |ring| && 1 <= n < blocks[ring[j]]
    requires ring[j] + (blocks[ring[j]] - n) !in blocks
    ensures var c := ring[j] + (blocks[ring[j]] - n);
            && Listed(ring, live + {c}, Split(blocks, ring[j], n))
            && Known(base, ring, live + {c}, Split(blocks, ring[j], n)) && Apart(ring, Split(blocks, ring[j], n))
  {
    var blocks' := Split(blocks, ring[j], n);
    forall i | 1 <= i < |ring| ensures ring[i] in blocks && ring[i] in blocks' && blocks'[ring[i]] <= blocks[ring[i]] {}
  }

  // ---- morecore --------------------------------------------------------------------------

  lemma Region(base: nat, ring: seq<nat>, live: set<nat>, blocks: Blocks, arena: set<nat>, a: nat, n: nat)
    requires Accounts(base, ring, live, blocks) && Tiles(blocks, arena) && n >= 1 && base < a
    requires forall u <- arena :: u < a
    ensures Accounts(base, ring, live + {a}, blocks[a := n]) && Tiles(blocks[a := n], arena + Span(a, n))
    ensures a !in blocks && a !in ring
  {
    RegionTiles(blocks, arena, a, n);
    hide Tiles;
    forall i | 1 <= i < |ring| ensures ring[i] != a {}
  }
}
