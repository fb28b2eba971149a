/** The K&R heap of umalloc.c: headers in memory, the free list as a sequence, and the tiling of the
    memory obtained from sbrk by blocks. Addresses count header-sized units (8 bytes). */
module HeapSpec {

  const SIZEOF: nat := 8
  const WORD: nat := 0x1_0000_0000
  const KERNBASE: nat := 0x8000_0000
  const UNITS: nat := 0x1000_0000   // KERNBASE / SIZEOF

  datatype Header = Header(ptr: nat, size: nat)

  type Memory = m: seq<Header> | |m| == UNITS witness Blank()

  function Blank(): (m: seq<Header>)
    ensures |m| == UNITS
  {
    seq(UNITS, i => Header(0, 0))
  }

  // ---- The free list ---------------------------------------------------------------------

  function After(s: seq<nat>, i: nat, end: nat): nat { if i + 1 < |s| then s[i + 1] else end }

  /** From each element the ptr field leads to the next one, from the last one to `end`. */
  ghost predicate Chain(mem: Memory, s: seq<nat>, end: nat) {
    forall i :: 0 <= i < |s| ==> s[i] < UNITS && mem[s[i]].ptr == After(s, i, end)
  }

  ghost predicate Ascending(s: seq<nat>) {
    forall i, j :: 0 <= i < j < |s| ==> s[i] < s[j]
  }

  function FirstOr(s: seq<nat>, end: nat): nat { if s == [] then end else s[0] }

  lemma ChainJoin(mem: Memory, s: seq<nat>, t: seq<nat>, end: nat)
    requires Chain(mem, s, FirstOr(t, end)) && Chain(mem, t, end)
    ensures Chain(mem, s + t, end)
  {
    forall i | 0 <= i < |s + t| ensures (s + t)[i] < UNITS && mem[(s + t)[i]].ptr == After(s + t, i, end) {
      if i >= |s| { assert (s + t)[i] == t[i - |s|]; }
    }
  }

  lemma ChainSplit(mem: Memory, s: seq<nat>, end: nat, k: nat)
    requires Chain(mem, s, end) && k <= |s|
    ensures Chain(mem, s[..k], FirstOr(s[k..], end)) && Chain(mem, s[k..], end)
  {}

  lemma ChainFrame(mem: Memory, s: seq<nat>, end: nat, mem': Memory)
    requires Chain(mem, s, end) && forall i :: 0 <= i < |s| && s[i] < UNITS ==> mem'[s[i]].ptr == mem[s[i]].ptr
    ensures Chain(mem', s, end)
  {}

  /** Storing into the ptr field of the last element. */
  lemma ChainSetLast(mem: Memory, s: seq<nat>, end: nat, h: Header)
    requires Chain(mem, s, end) && s != [] && Ascending(s)
    ensures s[|s| - 1] < UNITS && Chain(mem[s[|s| - 1] := h], s, h.ptr)
  {}

  // ---- Tiling ----------------------------------------------------------------------------

  /** Start of a block to its size in units, header included. */
  type Blocks = map<nat, nat>

  predicate Within(a: nat, n: nat, u: nat) { a <= u < a + n }

  function Span(a: nat, n: nat): set<nat> { set u: nat | a <= u < a + n && Within(a, n, u) }

  ghost predicate Covered(blocks: Blocks, u: nat) { exists b :: b in blocks && b <= u < b + blocks[b] }

  ghost predicate Disjoint(blocks: Blocks) {
    forall b, c :: b in blocks && c in blocks && b < c ==> b + blocks[b] <= c
  }

  /** Every unit of the arena is in exactly one block, and blocks have no other units. */
  ghost predicate Tiles(blocks: Blocks, arena: set<nat>) {
    && (forall b <- blocks :: blocks[b] >= 1)
    && Disjoint(blocks)
    && (forall b, u: nat :: b in blocks && b <= u < b + blocks[b] ==> u in arena)
    && (forall u <- arena :: Covered(blocks, u))
  }

  function Merge(blocks: Blocks, b: nat, c: nat): Blocks
    requires b in blocks && c in blocks
  {
    (blocks - {c})[b := blocks[b] + blocks[c]]
  }

  lemma MergeTiles(blocks: Blocks, arena: set<nat>, b: nat, c: nat)
    requires Tiles(blocks, arena) && b in blocks && c in blocks && b + blocks[b] == c
    ensures Tiles(Merge(blocks, b, c), arena)
  {
    var blocks' := Merge(blocks, b, c);
    forall u <- arena ensures Covered(blocks', u) {
      assert Covered(blocks, u);
      var d :| d in blocks && d <= u < d + blocks[d];
      assert d != c ==> d in blocks' && d <= u < d + blocks'[d];
      assert b in blocks' && (d == c ==> b <= u < b + blocks'[b]);
    }
    assert Disjoint(blocks');
    forall d, u: nat | d in blocks' && d <= u < d + blocks'[d] ensures u in arena {
      assert d == b ==> (b <= u < b + blocks[b]) || (c <= u < c + blocks[c]);
    }
  }

  /** The tail of n units of block b becomes a block of its own. */
  function Split(blocks: Blocks, b: nat, n: nat): Blocks
    requires b in blocks && n < blocks[b]
  {
    blocks[b := blocks[b] - n][b + (blocks[b] - n) := n]
  }

  lemma SplitTiles(blocks: Blocks, arena: set<nat>, b: nat, n: nat)
    requires Tiles(blocks, arena) && b in blocks && 1 <= n < blocks[b]
    ensures Tiles(Split(blocks, b, n), arena) && b + (blocks[b] - n) !in blocks
  {
    var blocks' := Split(blocks, b, n);
    var c := b + (blocks[b] - n);
    assert c !in blocks;
    forall u <- arena ensures Covered(blocks', u) { SplitCovers(blocks, b, n, u); }
    assert Disjoint(blocks');
    forall d, u: nat | d in blocks' && d <= u < d + blocks'[d] ensures u in arena {
      assert d == b || d == c ==> b <= u < b + blocks[b];
    }
  }

  lemma SplitCovers(blocks: Blocks, b: nat, n: nat, u: nat)
    requires b in blocks && 1 <= n < blocks[b] && b + (blocks[b] - n) !in blocks && Covered(blocks, u)
    ensures Covered(Split(blocks, b, n), u)
  {
    var blocks' := Split(blocks, b, n);
    var c := b + (blocks[b] - n);
    var d :| d in blocks && d <= u < d + blocks[d];
    assert d != b ==> d in blocks' && d <= u < d + blocks'[d];
    assert b in blocks' && c in blocks' && (d == b ==> b <= u < b + blocks'[b] || c <= u < c + blocks'[c]);
  }

  lemma RegionTiles(blocks: Blocks, arena: set<nat>, a: nat, n: nat)
    requires Tiles(blocks, arena) && n >= 1 && forall u <- arena :: u < a
    ensures Tiles(blocks[a := n], arena + Span(a, n)) && a !in blocks && a !in arena
  {
    var blocks', arena' := blocks[a := n], arena + Span(a, n);
    forall b <- blocks ensures b + blocks[b] <= a { assert b + blocks[b] - 1 in arena; }
    forall u <- arena' ensures Covered(blocks', u) {
      if u in arena {
        assert Covered(blocks, u);
        var d :| d in blocks && d <= u < d + blocks[d];
        assert d in blocks' && d <= u < d + blocks'[d];
      } else {
        assert a in blocks' && a <= u < a + blocks'[a];
      }
    }
    assert Disjoint(blocks');
  }

  // ---- Counting --------------------------------------------------------------------------

  ghost function Pick(blocks: Blocks): (b: nat)
    requires blocks != map[]
    ensures b in blocks
  {
    var b :| b in blocks; b
  }

  ghost function Sum(blocks: Blocks): nat
    decreases |blocks|
  {
    if blocks == map[] then 0
    else
      var b := Pick(blocks);
      SmallerMap(blocks, b);
      blocks[b] + Sum(blocks - {b})
  }

  lemma {:induction false} SpanSize(a: nat, n: nat)
    ensures |Span(a, n)| == n
  {
    if n == 0 {
      assert Span(a, n) == {};
    } else {
      SpanSize(a, n - 1);
      assert Span(a, n) == Span(a, n - 1) + {a + n - 1};
    }
  }

  /** Conservation: block sizes add up to the units obtained from sbrk. */
  lemma {:induction false} UnitsConserved(blocks: Blocks, arena: set<nat>)
    requires Tiles(blocks, arena)
    ensures Sum(blocks) == |arena|
    decreases |blocks|
  {
    hide Tiles, Span;
    if blocks == map[] {
      NothingTiled(arena);
    } else {
      var b := Pick(blocks);
      DropBlock(blocks, arena, b);
      SmallerMap(blocks, b);
      UnitsConserved(blocks - {b}, arena - Span(b, blocks[b]));
      SpanSize(b, blocks[b]);
      assert arena == (arena - Span(b, blocks[b])) + Span(b, blocks[b]);
    }
  }

  lemma NothingTiled(arena: set<nat>)
    requires Tiles(map[], arena)
    ensures arena == {}
  {}

  lemma SmallerMap(blocks: Blocks, b: nat)
    requires b in blocks
    ensures |blocks - {b}| == |blocks| - 1
  {
    assert blocks == (blocks - {b})[b := blocks[b]];
  }

  lemma DropBlock(blocks: Blocks, arena: set<nat>, b: nat)
    requires Tiles(blocks, arena) && b in blocks
    ensures Tiles(blocks - {b}, arena - Span(b, blocks[b]))
    ensures Span(b, blocks[b]) <= arena
  {
    var blocks', arena' := blocks - {b}, arena - Span(b, blocks[b]);
    forall u <- arena' ensures Covered(blocks', u) {
      assert Covered(blocks, u);
      var d :| d in blocks && d <= u < d + blocks[d];
      assert d in blocks' && d <= u < d + blocks'[d];
    }
    assert Disjoint(blocks');
  }
}
