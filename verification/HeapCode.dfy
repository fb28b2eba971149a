/** malloc, free and morecore of umalloc.c, over sbrk as growproc serves it. */
module HeapCode {
  import opened HeapSpec
  import opened HeapProofs

  const LIMIT: nat := 0x1000_0000  // units from which nu * sizeof(Header) no longer fits an int

  const MOST: nat := 0x2000_0000   // the most units a request can come to

  /** (nbytes + sizeof(Header) - 1) / sizeof(Header) + 1 in 32 bits. */
  function Units(nbytes: nat): nat { (nbytes + SIZEOF - 1) % WORD / SIZEOF + 1 }

  /** The int that sbrk(nu * sizeof(Header)) receives. */
  function Asked(nu: nat): int {
    var x := nu * SIZEOF % WORD;
    if x < KERNBASE then x else x - WORD
  }

  /** The size allocuvm returns, 0 for failure; `granted` says whether it finds the frames. */
  function AllocSize(oldsz: nat, newsz: nat, granted: bool): nat {
    if newsz >= KERNBASE then 0 else if newsz < oldsz then oldsz else if granted then newsz else 0
  }

  /** The size deallocuvm returns. */
  function DeallocSize(oldsz: nat, newsz: nat): nat { if newsz >= oldsz then oldsz else newsz }

  /** Where sbrk(n) should put the break, in unbounded arithmetic, 0 for failure. A shrink by more than there
      is does nothing. */
  function NewBreak(sz: nat, n: int, granted: bool): nat {
    if n > 0 then (if granted && sz + n < KERNBASE then sz + n else 0)
    else if sz + n < 0 then sz
    else sz + n
  }

  function Max(a: nat, b: nat): nat { if a < b then b else a }

  /** Steps from index i to index t around a ring of n. */
  function Dist(i: nat, t: nat, n: nat): nat
    requires i < n && t < n
  {
    if i <= t then t - i else t + n - i
  }

  function Next(i: nat, n: nat): nat
    requires i < n
  {
    if i + 1 < n then i + 1 else 0
  }

  lemma DistNext(i: nat, t: nat, n: nat)
    requires i < n && t < n && i != t
    ensures Next(i, n) < n && Dist(Next(i, n), t, n) == Dist(i, t, n) - 1
  {}

  ghost predicate Sizes(mem: Memory, base: nat, blocks: Blocks) {
    base < UNITS && mem[base].size == 0 && forall b <- blocks :: b < UNITS && mem[b].size == blocks[b]
  }

  /** Nothing in [b, b + n) was written. */
  ghost predicate Intact(b: nat, n: nat, mem: Memory, mem': Memory) {
    forall u: nat :: b <= u < b + n && u < UNITS ==> mem'[u] == mem[u]
  }

  /** Live blocks keep their size, their header and everything the program stored in them. */
  ghost predicate LiveKept(live: set<nat>, blocks: Blocks, mem: Memory, blocks': Blocks, mem': Memory) {
    forall b <- live :: b in blocks && b in blocks' && blocks'[b] == blocks[b] && Intact(b, blocks[b], mem, mem')
  }

  /** A store outside the live blocks. */
  lemma StoreOutside(blocks: Blocks, arena: set<nat>, live: set<nat>, mem: Memory, x: nat, d: nat, h: Header)
    requires Tiles(blocks, arena) && x < UNITS && forall b <- live :: b in blocks
    requires x !in arena || (d in blocks && d !in live && d <= x < d + blocks[d])
    ensures LiveKept(live, blocks, mem, blocks, mem[x := h])
  {
    forall b <- live ensures Intact(b, blocks[b], mem, mem[x := h]) {
      forall u: nat | b <= u < b + blocks[b] && u < UNITS ensures mem[x := h][u] == mem[u] {
        assert u in arena;
      }
    }
  }

  lemma LiveKeptTrans(live: set<nat>, blocks: Blocks, mem: Memory, blocks1: Blocks, mem1: Memory, blocks2: Blocks,
                      mem2: Memory)
    requires LiveKept(live, blocks, mem, blocks1, mem1) && LiveKept(live, blocks1, mem1, blocks2, mem2)
    ensures LiveKept(live, blocks, mem, blocks2, mem2)
  {}

  /** No free block has n units. */
  ghost predicate NoneFree(live: set<nat>, blocks: Blocks, n: nat) { forall b <- blocks :: b in live || blocks[b] < n }

  /** sbrk does not give n units: out of memory, or past the user half. */
  predicate Refused(brk: nat, n: nat, granted: bool) { !granted || brk + Max(n, 4096) * SIZEOF >= KERNBASE }

  /** A request of n units for which sbrk reports success without giving them. */
  predicate Overruns(brk: nat, n: nat) { n >= LIMIT && brk + n * SIZEOF != WORD }

  /** The arena after sbrk gave at least n units at the old break. */
  ghost predicate Grown(arena: set<nat>, brk: nat, n: nat, arena': set<nat>, brk': nat) {
    brk' == brk + Max(n, 4096) * SIZEOF && arena' == arena + Span(brk / SIZEOF, Max(n, 4096))
  }

  ghost predicate Lists(base: nat, mem: Memory, freep: nat, ring: seq<nat>, live: set<nat>, blocks: Blocks,
                        arena: set<nat>) {
    && 1 <= base && freep in ring && Chain(mem, ring, base) && Sizes(mem, base, blocks)
    && Accounts(base, ring, live, blocks) && Tiles(blocks, arena)
  }

  /** The arena lies between base and the break. */
  ghost predicate Rooms(base: nat, arena: set<nat>, brk: nat) {
    && brk % SIZEOF == 0 && brk < KERNBASE && 1 <= base < brk / SIZEOF
    && forall u <- arena :: u < brk / SIZEOF
  }

  /** What malloc has done to the heap so far, with `calls` calls of morecore behind it. */
  ghost predicate Progress(calls: nat, n: nat, granted: bool, live0: set<nat>, blocks0: Blocks, arena0: set<nat>,
                           brk0: nat, blocks: Blocks, arena: set<nat>, brk: nat) {
    && calls <= 1
    && (calls == 0 ==> blocks == blocks0 && arena == arena0 && brk == brk0)
    && (calls == 1 ==> NoneFree(live0, blocks0, n) && !Refused(brk0, n, granted) && Grown(arena0, brk0, n, arena, brk))
  }

  lemma Outset(n: nat, granted: bool, live: set<nat>, blocks: Blocks, arena: set<nat>, brk: nat)
    ensures Progress(0, n, granted, live, blocks, arena, brk, blocks, arena, brk)
  {}

  lemma Refilled(n: nat, granted: bool, live0: set<nat>, blocks0: Blocks, arena0: set<nat>, brk0: nat,
                 blocks1: Blocks, arena1: set<nat>, brk1: nat, blocks: Blocks, arena: set<nat>, brk: nat)
    requires Progress(0, n, granted, live0, blocks0, arena0, brk0, blocks1, arena1, brk1) && NoneFree(live0, blocks1, n)
    ensures blocks1 == blocks0 && arena1 == arena0 && brk1 == brk0 && NoneFree(live0, blocks0, n)
    ensures !Refused(brk1, n, granted) && Grown(arena1, brk1, n, arena, brk) ==>
              Progress(1, n, granted, live0, blocks0, arena0, brk0, blocks, arena, brk)
  {}

  class Heap {
    const base: nat
    var mem: Memory
    var freep: nat
    var brk: nat
    ghost var ring: seq<nat>
    ghost var live: set<nat>
    ghost var blocks: Blocks
    ghost var arena: set<nat>

    /** freep is set and the list is in order. */
    ghost predicate Listing()
      reads this
    {
      Lists(base, mem, freep, ring, live, blocks, arena)
    }

    ghost predicate Room()
      reads this
    {
      Rooms(base, arena, brk)
    }

    ghost predicate Valid()
      reads this
    {
      && Room()
      && if freep == 0 then ring == [] && live == {} && blocks == map[] && arena == {} else Listing()
    }

    constructor (base: nat, mem: Memory, brk: nat)
      requires brk % SIZEOF == 0 && brk < KERNBASE && 1 <= base < brk / SIZEOF
      ensures Valid() && live == {} && arena == {} && this.brk == brk
    {
      this.base := base;
      this.mem := mem;
      this.freep := 0;
      this.brk := brk;
      ring, live, blocks, arena := [], {}, map[], {};
    }

    /** The search loop of free: the gap for bp is found within one lap. */
    method FindSlot(bp: nat) returns (p: nat, ghost j: nat, ghost steps: nat)
      requires Listing() && bp in live
      ensures Slot(ring, bp, j) && p == ring[j] && steps < |ring|
      ensures p in ring && p < bp && forall q :: q in ring && q < bp ==> q <= p
    {
      hide Accounts, Tiles, Sizes, Chain, Ascending, Slot;
      LiveApart(base, ring, live, blocks, bp);
      ghost var n := |ring|;
      ghost var t := SlotExists(ring, bp, n);
      p := freep;
      j :| 0 <= j < n && ring[j] == p;
      steps := 0;
      ghost var lap := Dist(j, t, n);
      RingNext(mem, base, ring, j);
      SlotTest(base, ring, bp, j);
      while !(bp > p && bp < mem[p].ptr)
        invariant j < n && p == ring[j] && p < UNITS && mem[p].ptr == ring[Next(j, n)]
        invariant steps + Dist(j, t, n) == lap < n
        invariant Slot(ring, bp, j) <==>
                    ((bp > p && bp < mem[p].ptr) || (p >= mem[p].ptr && (bp > p || bp < mem[p].ptr)))
        decreases Dist(j, t, n)
      {
        if p >= mem[p].ptr && (bp > p || bp < mem[p].ptr) {
          break;
        }
        DistNext(j, t, n);
        p := mem[p].ptr;
        j := Next(j, n);
        steps := steps + 1;
        RingNext(mem, base, ring, j);
        SlotTest(base, ring, bp, j);
      }
      Greatest(ring, bp, j);
    }

    /** bp stands between ring[j] and the rest of the list, not linked in yet. */
    ghost predicate Pending(bp: nat, j: nat)
      reads this
    {
      && Accounts(base, ring, live, blocks) && Tiles(blocks, arena) && Sizes(mem, base, blocks)
      && bp in live && bp < UNITS && Slot(ring, bp, j) && GapAbove(ring, blocks, bp, j)
      && Chain(mem, ring[j + 1..], base) && mem[bp].ptr == FirstOr(ring[j + 1..], base)
      && ring[j] < UNITS && Chain(mem, ring[..j + 1], mem[ring[j]].ptr)
    }

    /** free, first half: join bp to the free block above it. */
    method MergeUp(bp: nat, p: nat, ghost j: nat)
      requires Listing() && bp in live && Slot(ring, bp, j) && p == ring[j]
      modifies this`mem, this`ring, this`blocks
      ensures Pending(bp, j) && p == ring[j]
      ensures bp in old(blocks) && blocks[bp] >= old(blocks)[bp]
      ensures LiveKept(live - {bp}, old(blocks), old(mem), blocks, mem)
    {
      hide Accounts, Tiles, Chain, Sizes, GapAbove, Removed, Ascending, LiveKept;
      SomeUnits(blocks, arena);
      LiveApart(base, ring, live, blocks, bp);
      LiveSizes(mem, base, ring, live, blocks);
      RingNext(mem, base, ring, j);
      var next := mem[p].ptr;
      RingIn(mem, base, ring, live, blocks, j);
      ChainSplit(mem, ring, base, j + 1);
      if bp + mem[bp].size == next {
        assert next == ring[j + 1];
        UpStep(base, ring, live, blocks, arena, bp, j);
        RingIn(mem, base, ring, live, blocks, j + 1);
        var h := Header(mem[next].ptr, mem[bp].size + mem[next].size);
        MergeSizes(mem, base, blocks, bp, next, h);
        UpChain(mem, base, ring, bp, j, h);
        StoreOutside(blocks, arena, live - {bp}, mem, bp, bp, h);
        Resized(live - {bp}, live - {bp}, blocks, mem, mem[bp := h], Merge(blocks, bp, next));
        mem := mem[bp := h];
        ring, blocks := Removed(ring, j + 1), Merge(blocks, bp, next);
      } else {
        UpNone(base, ring, live, blocks, arena, bp, j);
        var h := Header(next, mem[bp].size);
        PutHeader(mem, base, ring, live, blocks, bp, h);
        PutBeside(mem, ring[j + 1..], base, bp, h);
        PutBeside(mem, ring[..j + 1], next, bp, h);
        StoreOutside(blocks, arena, live - {bp}, mem, bp, bp, h);
        mem := mem[bp := h];
      }
    }

    /** free, second half: join bp to the free block below it, or link it in. */
    method MergeDown(bp: nat, p: nat, ghost j: nat)
      requires 1 <= base && Pending(bp, j) && p == ring[j]
      modifies this`mem, this`freep, this`ring, this`live, this`blocks
      ensures Listing() && live == old(live) - {bp} && freep == p
      ensures bp in old(blocks) && p < UNITS
      ensures mem[p].size >= old(blocks)[bp] || (mem[p].ptr < UNITS && mem[mem[p].ptr].size >= old(blocks)[bp])
      ensures LiveKept(live, old(blocks), old(mem), blocks, mem)
    {
      hide Accounts, Tiles, Chain, Sizes, GapAbove, Ascending, Inserted, Slot, LiveKept;
      LiveApart(base, ring, live, blocks, bp);
      LiveSizes(mem, base, ring, live, blocks);
      SlotIn(ring, bp, j);
      RingIn(mem, base, ring, live, blocks, j);
      if p + mem[p].size == bp {
        BaseNotBelow(mem, base, ring, live, blocks, bp, j);
        DownStep(base, ring, live, blocks, arena, bp, j);
        var h := Header(mem[bp].ptr, mem[p].size + mem[bp].size);
        MergeSizes(mem, base, blocks, p, bp, h);
        DownChain(mem, base, ring, j, h);
        RingStore(mem, base, ring, live, blocks, arena, j, h);
        Resized(live, live - {bp}, blocks, mem, mem[p := h], Merge(blocks, p, bp));
        blocks := Merge(blocks, p, bp);
        mem := mem[p := h];
      } else {
        KeepStep(base, ring, live, blocks, arena, bp, j);
        var h := Header(bp, mem[p].size);
        KeepSizes(mem, base, blocks, p, h);
        KeepChain(mem, base, ring, bp, j, h);
        RingStore(mem, base, ring, live, blocks, arena, j, h);
        Resized(live, live - {bp}, blocks, mem, mem[p := h], blocks);
        mem := mem[p := h];
        ring := Inserted(ring, j + 1, bp);
      }
      live := live - {bp};
      freep := p;
    }

    /** free(bp + 1). */
    method Free(bp: nat)
      requires Listing() && bp in live
      modifies this`mem, this`freep, this`ring, this`live, this`blocks
      ensures Listing() && live == old(live) - {bp}
      ensures LiveKept(live, old(blocks), old(mem), blocks, mem)
      ensures bp in old(blocks) && freep < UNITS
      ensures || mem[freep].size >= old(blocks)[bp]
              || (mem[freep].ptr < UNITS && mem[mem[freep].ptr].size >= old(blocks)[bp])
    {
      hide Accounts, Tiles, Chain, Sizes, Slot, GapAbove, LiveKept;
      ghost var j, steps;
      var p;
      p, j, steps := FindSlot(bp);
      MergeUp(bp, p, j);
      ghost var mem1, blocks1 := mem, blocks;
      MergeDown(bp, p, j);
      LiveKeptTrans(live, old(blocks), old(mem), blocks1, mem1, blocks, mem);
    }

    /** sys_sbrk over growproc, in 32-bit arithmetic; `granted` says whether the kernel finds the memory. */
    method Sbrk(n: int, granted: bool) returns (r: int)
      requires brk < KERNBASE && 0 <= n + KERNBASE < WORD
      modifies this`brk
      ensures r == -1 <==> n != 0 && NewBreak(old(brk), n, granted) == 0
      ensures r == -1 ==> brk == old(brk)
      ensures r != -1 ==> r == old(brk) && brk == NewBreak(old(brk), n, granted) < KERNBASE
      ensures r != -1 && n >= 0 ==> brk == r + n
      ensures r != -1 && n < 0 ==> brk == if r + n > 0 then r + n else r
    {
      var sz := brk;
      if n > 0 {
        sz := AllocSize(brk, (brk + n) % WORD, granted);
        if sz == 0 {
          return -1;
        }
      } else if n < 0 {
        sz := DeallocSize(brk, (brk + n) % WORD);
        if sz == 0 {
          return -1;
        }
      }
      r := brk;
      brk := sz;
    }

    /** morecore. The new memory ends up in the block freep points at, or the one after it. `over`: sbrk was
        asked for a negative number of bytes or none and agreed, and the units the code goes on to free are
        not the process's; the model stops there. */
    method Morecore(nu: nat, granted: bool) returns (p: nat, over: bool)
      requires Listing() && Room() && 1 <= nu <= MOST
      modifies this
      ensures Listing() && live == old(live) && LiveKept(live, old(blocks), old(mem), blocks, mem)
      ensures p == 0 ==> mem == old(mem) && freep == old(freep) && ring == old(ring)
      ensures p == 0 ==> blocks == old(blocks) && arena == old(arena)
      ensures over <==> Overruns(old(brk), nu)
      ensures over ==> p == 0 && brk <= old(brk)
      ensures !over ==> Room() && (p == 0 <==> Refused(old(brk), nu, granted)) && (p == 0 ==> brk == old(brk))
      ensures p != 0 ==> Grown(old(arena), old(brk), nu, arena, brk)
      ensures p != 0 ==> p == freep < UNITS && (mem[p].size >= nu || (mem[p].ptr < UNITS && mem[mem[p].ptr].size >= nu))
    {
      hide Accounts, Tiles, Chain, Sizes, Span, LiveKept;
      var n := Max(nu, 4096);
      AskedIff(n);
      AskedOver(brk, n, granted);
      LiveSizes(mem, base, ring, live, blocks);
      p := 0;
      var r := Sbrk(Asked(n), granted);
      over := r != -1 && n >= LIMIT;
      if r == -1 || over {
        return;
      }
      var hp := r / SIZEOF;
      Region(base, ring, live, blocks, arena, hp, n);
      RegionMemory(mem, base, ring, live, blocks, hp, n);
      StoreOutside(blocks, arena, live, mem, hp, hp, Header(mem[hp].ptr, n));
      Resized(live, live, blocks, mem, mem[hp := Header(mem[hp].ptr, n)], blocks[hp := n]);
      mem := mem[hp := Header(mem[hp].ptr, n)];
      SpanBelow(arena, hp, n);
      live, blocks, arena := live + {hp}, blocks[hp := n], arena + Span(hp, n);
      ghost var mem1, blocks1 := mem, blocks;
      Free(hp);
      LiveKeptTrans(live, old(blocks), old(mem), blocks1, mem1, blocks, mem);
      FreepSet(base, ring, live, blocks, freep);
      p := freep;
    }

    /** The body of malloc's loop once p is large enough. */
    method Carve(prevp: nat, p: nat, nunits: nat, ghost i: nat) returns (r: nat)
      requires Listing() && Room() && 1 <= i < |ring| && p == ring[i] && prevp == ring[i - 1]
      requires p < UNITS && 1 <= nunits <= mem[p].size
      modifies this`mem, this`freep, this`ring, this`live, this`blocks
      ensures Listing() && Room() && r >= 1 && r - 1 !in old(live) && live == old(live) + {r - 1} && r - 1 in blocks
      ensures blocks[r - 1] == nunits
      ensures LiveKept(old(live), old(blocks), old(mem), blocks, mem)
    {
      hide Accounts, Tiles, Chain, Sizes, Removed, LiveKept;
      LiveSizes(mem, base, ring, live, blocks);
      RingIn(mem, base, ring, live, blocks, i);
      RingIn(mem, base, ring, live, blocks, i - 1);
      if mem[p].size == nunits {
        SomeUnits(blocks, arena);
        TakeWhole(base, ring, live, blocks, i);
        CutChain(mem, base, ring, live, blocks, i);
        KeepSizes(mem, base, blocks, prevp, Header(mem[p].ptr, mem[prevp].size));
        RingStore(mem, base, ring, live, blocks, arena, i - 1, Header(mem[p].ptr, mem[prevp].size));
        mem := mem[prevp := Header(mem[p].ptr, mem[prevp].size)];
        ring, live := Removed(ring, i), live + {p};
        freep := prevp;
        r := p + 1;
      } else {
        TakeTail(base, ring, live, blocks, arena, i, nunits);
        var c := p + (mem[p].size - nunits);
        TailInside(blocks, arena, p, c);
        SplitMemory(mem, base, ring, live, blocks, p, nunits);
        SplitStores(mem, live, blocks, arena, p, nunits);
        mem := mem[p := Header(mem[p].ptr, mem[p].size - nunits)];
        mem := mem[c := Header(mem[c].ptr, nunits)];
        live, blocks := live + {c}, Split(blocks, p, nunits);
        freep := prevp;
        r := c + 1;
      }
    }

    /** The first call: an empty list that is base alone. */
    method Init()
      requires Valid() && freep == 0
      modifies this`mem, this`freep, this`ring
      ensures Listing() && Room() && LiveKept(live, blocks, old(mem), blocks, mem)
    {
      mem := mem[base := Header(base, 0)];
      freep := base;
      ring := [base];
    }

    /** morecore after a fruitless lap: p is freep, and the block wanted is at index t, k or the next. */
    method Refill(nunits: nat, granted: bool, ghost i: nat) returns (p: nat, over: bool, ghost k: nat, ghost t: nat)
      requires Listing() && Room() && 1 <= nunits <= MOST && i < |ring| && ring[i] == freep < UNITS
      requires mem[freep].size < nunits
      requires TooSmall(mem, ring, nunits, i, i)
      modifies this
      ensures Listing() && live == old(live) && LiveKept(live, old(blocks), old(mem), blocks, mem)
      ensures NoneFree(live, old(blocks), nunits)
      ensures over <==> Overruns(old(brk), nunits)
      ensures over ==> p == 0 && brk <= old(brk)
      ensures !over ==> Room() && (p == 0 <==> Refused(old(brk), nunits, granted)) && (p == 0 ==> brk == old(brk))
      ensures p == 0 ==> mem == old(mem) && freep == old(freep) && ring == old(ring)
      ensures p == 0 ==> blocks == old(blocks) && arena == old(arena)
      ensures p != 0 ==> Grown(old(arena), old(brk), nunits, arena, brk) && p == freep < UNITS
      ensures p != 0 ==> k < |ring| && ring[k] == p && (t == k || t == Next(k, |ring|)) && t < |ring|
      ensures p != 0 ==> ring[t] < UNITS && mem[ring[t]].size >= nunits
    {
      hide Lists, Rooms, LiveKept, TooSmall, Next, NoneFree, Refused, Grown, Overruns;
      LapDone(base, mem, freep, ring, live, blocks, arena, nunits, i, i);
      k, t := 0, 0;
      p, over := Morecore(nunits, granted);
      if p != 0 {
        Whole(base, mem, freep, ring, live, blocks, arena);
        k :| k < |ring| && ring[k] == freep;
        At(base, mem, freep, ring, live, blocks, arena, k);
        t := if mem[p].size >= nunits then k else Next(k, |ring|);
      }
    }

    /** The search loop of malloc: a block that fits and its predecessor, or p == 0. morecore is
        called at most once, and only when no free block is large enough. */
    method FindFit(nunits: nat, granted: bool) returns (prevp: nat, p: nat, over: bool, ghost i: nat, ghost calls: nat)
      requires Listing() && Room() && 1 <= nunits <= MOST
      modifies this
      ensures Listing() && live == old(live) && LiveKept(live, old(blocks), old(mem), blocks, mem)
      ensures p == 0 ==> calls == 1 && NoneFree(old(live), old(blocks), nunits)
      ensures p == 0 ==> blocks == old(blocks) && arena == old(arena)
      ensures over <==> p == 0 && Overruns(old(brk), nunits)
      ensures over ==> brk <= old(brk)
      ensures !over ==> Room() && (p == 0 ==> brk == old(brk) && Refused(old(brk), nunits, granted))
      ensures p != 0 ==>
                Progress(calls, nunits, granted, old(live), old(blocks), old(arena), old(brk), blocks, arena, brk)
      ensures p != 0 ==> 1 <= i < |ring| && p == ring[i] < UNITS && prevp == ring[i - 1] && mem[p].size >= nunits
    {
      hide Lists, Rooms, LiveKept, TooSmall, Dist, Next, NoneFree, Refused, Grown, Progress, Overruns;
      Whole(base, mem, freep, ring, live, blocks, arena);
      calls, over := 0, false;
      Outset(nunits, granted, live, blocks, arena, brk);
      prevp := freep;
      ghost var k: nat :| k < |ring| && ring[k] == freep;
      ghost var t: nat, j: nat := k, k;
      At(base, mem, freep, ring, live, blocks, arena, k);
      p, i := mem[prevp].ptr, Next(k, |ring|);
      At(base, mem, freep, ring, live, blocks, arena, i);
      NothingPassed(mem, ring, nunits, k);
      ghost var far := Dist(i, k, |ring|);
      while mem[p].size < nunits
        invariant Listing() && Room() && 0 <= calls <= 1 && !over
        invariant k < |ring| && ring[k] == freep && i < |ring| && p == ring[i] < UNITS && j < |ring|
        invariant prevp == ring[j] && Next(j, |ring|) == i
        invariant live == old(live) && LiveKept(live, old(blocks), old(mem), blocks, mem)
        invariant Progress(calls, nunits, granted, old(live), old(blocks), old(arena), old(brk), blocks, arena, brk)
        invariant calls == 0 ==> TooSmall(mem, ring, nunits, i, k)
        invariant calls == 1 ==> t < |ring| && ring[t] < UNITS && mem[ring[t]].size >= nunits && (t == k || i == t)
        invariant t < |ring| && far == Dist(i, if calls == 0 then k else t, |ring|)
        decreases 1 - calls, far
      {
        if p == freep {
          ghost var mem1, blocks1, arena1, brk1 := mem, blocks, arena, brk;
          LapDone(base, mem, freep, ring, live, blocks, arena, nunits, i, k);
          p, over, k, t := Refill(nunits, granted, i);
          LiveKeptTrans(old(live), old(blocks), old(mem), blocks1, mem1, blocks, mem);
          Refilled(nunits, granted, live, old(blocks), old(arena), old(brk), blocks1, arena1, brk1, blocks, arena, brk);
          calls := 1;
          if p == 0 {
            return;
          }
          j := k;
        } else {
          OneMore(base, mem, freep, ring, live, blocks, arena, nunits, i, k);
          DistNext(i, if calls == 0 then k else t, |ring|);
          j := i;
        }
        prevp := p;
        At(base, mem, freep, ring, live, blocks, arena, j);
        p, i := mem[p].ptr, Next(j, |ring|);
        far := Dist(i, if calls == 0 then k else t, |ring|);
      }
      At(base, mem, freep, ring, live, blocks, arena, i);
      PrevIndex(j, i, |ring|);
    }

    /** malloc. `over`: the request comes to more units than sbrk can be asked for, and it said yes. */
    method Malloc(nbytes: nat, granted: bool) returns (r: nat, over: bool, ghost calls: nat)
      requires Valid() && nbytes < WORD
      modifies this
      ensures calls <= 1 && (calls == 1 <==> NoneFree(old(live), old(blocks), Units(nbytes)))
      ensures calls == 0 ==> r != 0 && arena == old(arena) && brk == old(brk)
      ensures over <==> Overruns(old(brk), Units(nbytes))
      ensures over ==> r == 0 && calls == 1 && brk <= old(brk)
      ensures !over ==> Valid()
      ensures !over ==> (r == 0 ==> calls == 1 && Refused(old(brk), Units(nbytes), granted) && brk == old(brk))
      ensures r == 0 ==> live == old(live) && blocks == old(blocks) && arena == old(arena)
      ensures r != 0 && calls == 1 ==>
                !Refused(old(brk), Units(nbytes), granted) && Grown(old(arena), old(brk), Units(nbytes), arena, brk)
      ensures r != 0 ==> r - 1 !in old(live) && live == old(live) + {r - 1} && r - 1 in blocks
      ensures r != 0 ==> blocks[r - 1] == Units(nbytes)
      ensures LiveKept(old(live), old(blocks), old(mem), blocks, mem)
    {
      hide Lists, Rooms, Units, LiveKept, NoneFree, Refused, Grown, Progress, Overruns;
      UnitsBounds(nbytes);
      var nunits := Units(nbytes);
      if freep == 0 {
        Init();
      }
      Whole(base, mem, freep, ring, live, blocks, arena);
      TooLarge(base, mem, freep, ring, live, blocks, arena, brk, nunits, granted);
      ghost var i, mem1, blocks1 := 0, mem, blocks;
      var prevp, p;
      prevp, p, over, i, calls := FindFit(nunits, granted);
      LiveKeptTrans(old(live), old(blocks), old(mem), blocks1, mem1, blocks, mem);
      if p == 0 {
        r := 0;
      } else {
        Outcome(calls, nunits, granted, old(live), old(blocks), old(arena), old(brk), blocks, arena, brk);
        Fits(base, mem, freep, ring, live, blocks, arena, nunits, i);
        ghost var mem2, blocks2 := mem, blocks;
        r := Carve(prevp, p, nunits, i);
        LiveKeptTrans(old(live), old(blocks), old(mem), blocks2, mem2, blocks, mem);
      }
      Whole(base, mem, freep, ring, live, blocks, arena);
    }
  }

  lemma LiveApart(base: nat, ring: seq<nat>, live: set<nat>, blocks: Blocks, bp: nat)
    requires Accounts(base, ring, live, blocks) && bp in live
    ensures bp !in ring && bp in blocks && base < bp && Ascending(ring) && ring != [] && ring[0] == base
  {}

  lemma RingNext(mem: Memory, base: nat, ring: seq<nat>, j: nat)
    requires Chain(mem, ring, base) && ring != [] && ring[0] == base && j < |ring|
    ensures ring[j] < UNITS && mem[ring[j]].ptr == ring[Next(j, |ring|)]
  {}

  /** The two tests of free's loop together recognise the gap, and nothing else. */
  lemma SlotTest(base: nat, ring: seq<nat>, bp: nat, j: nat)
    requires Ascending(ring) && ring != [] && ring[0] == base < bp && bp !in ring && j < |ring|
    ensures var p, next := ring[j], ring[Next(j, |ring|)];
            Slot(ring, bp, j) <==> ((bp > p && bp < next) || (p >= next && (bp > p || bp < next)))
  {}

  lemma LiveSizes(mem: Memory, base: nat, ring: seq<nat>, live: set<nat>, blocks: Blocks)
    requires Accounts(base, ring, live, blocks) && Sizes(mem, base, blocks)
    ensures LiveKept(live, blocks, mem, blocks, mem)
    ensures forall b <- live :: b in blocks && b < UNITS && mem[b].size == blocks[b]
  {}

  lemma RingIn(mem: Memory, base: nat, ring: seq<nat>, live: set<nat>, blocks: Blocks, j: nat)
    requires Accounts(base, ring, live, blocks) && Sizes(mem, base, blocks) && j < |ring|
    ensures ring[j] < UNITS && ring[j] !in live && (j > 0 ==> ring[j] in blocks && mem[ring[j]].size == blocks[ring[j]])
    ensures j == 0 ==> ring[j] == base && mem[base].size == 0
  {}

  /** Writing the header of a live block keeps the free list. */
  lemma PutHeader(mem: Memory, base: nat, ring: seq<nat>, live: set<nat>, blocks: Blocks, bp: nat, h: Header)
    requires Accounts(base, ring, live, blocks) && Sizes(mem, base, blocks) && bp in live && bp < UNITS && bp in blocks
    ensures Sizes(mem[bp := h], base, blocks[bp := h.size])
    ensures blocks[bp] == h.size ==> Sizes(mem[bp := h], base, blocks)
  {}

  lemma PutBeside(mem: Memory, s: seq<nat>, end: nat, bp: nat, h: Header)
    requires Chain(mem, s, end) && bp !in s && bp < UNITS
    ensures Chain(mem[bp := h], s, end)
  {}

  lemma MergeSizes(mem: Memory, base: nat, blocks: Blocks, bp: nat, next: nat, h: Header)
    requires Sizes(mem, base, blocks) && bp in blocks && next in blocks && bp < UNITS && next < UNITS && base != bp
    requires h.size == mem[bp].size + mem[next].size
    ensures Sizes(mem[bp := h], base, Merge(blocks, bp, next))
  {}

  lemma RemovedParts(s: seq<nat>, i: nat)
    requires i < |s|
    ensures Removed(s, i)[..i] == s[..i] && Removed(s, i)[i..] == s[i + 1..] && |Removed(s, i)| == |s| - 1
  {}

  lemma UpChain(mem: Memory, base: nat, ring: seq<nat>, bp: nat, j: nat, h: Header)
    requires Chain(mem, ring, base) && bp !in ring && bp < UNITS && j + 1 < |ring| && ring[j] < UNITS
    requires ring[j + 1] < UNITS && h.ptr == mem[ring[j + 1]].ptr
    ensures var ring' := Removed(ring, j + 1);
            && Chain(mem[bp := h], ring'[j + 1..], base) && h.ptr == FirstOr(ring'[j + 1..], base)
            && Chain(mem[bp := h], ring'[..j + 1], mem[bp := h][ring[j]].ptr) && ring'[j] == ring[j]
  {
    RemovedParts(ring, j + 1);
    ChainSplit(mem, ring, base, j + 1);
    ChainSplit(mem, ring, base, j + 2);
    LastLink(mem, ring[..j + 2], FirstOr(ring[j + 2..], base));
    hide Chain, Removed;
    PutBeside(mem, ring[j + 2..], base, bp, h);
    PutBeside(mem, ring[..j + 1], FirstOr(ring[j + 1..], base), bp, h);
    LastLink(mem[bp := h], ring[..j + 1], FirstOr(ring[j + 1..], base));
    assert ring[..j + 1][j] == ring[j];
  }

  lemma LastLink(mem: Memory, s: seq<nat>, end: nat)
    requires Chain(mem, s, end) && s != []
    ensures s[|s| - 1] < UNITS && mem[s[|s| - 1]].ptr == end
  {}

  lemma Greatest(ring: seq<nat>, bp: nat, j: nat)
    requires Ascending(ring) && Slot(ring, bp, j)
    ensures ring[j] < bp && forall q :: q in ring && q < bp ==> q <= ring[j]
  {
    forall q | q in ring && q < bp ensures q <= ring[j] {
      var k :| 0 <= k < |ring| && ring[k] == q;
      assert k <= j;
    }
  }

  lemma SlotIn(ring: seq<nat>, bp: nat, j: nat)
    requires Slot(ring, bp, j)
    ensures j < |ring| && ring[j] < bp
  {}

  lemma AscendingPart(s: seq<nat>, k: nat)
    requires Ascending(s) && k <= |s|
    ensures Ascending(s[..k])
  {}

  lemma NotInRest(s: seq<nat>, j: nat)
    requires Ascending(s) && j < |s|
    ensures s[j] !in s[j + 1..]
  {}

  lemma BaseNotBelow(mem: Memory, base: nat, ring: seq<nat>, live: set<nat>, blocks: Blocks, bp: nat, j: nat)
    requires Accounts(base, ring, live, blocks) && Sizes(mem, base, blocks) && bp in live && j < |ring|
    requires ring[j] < UNITS && ring[j] + mem[ring[j]].size == bp
    ensures j >= 1
  {}

  lemma KeepSizes(mem: Memory, base: nat, blocks: Blocks, p: nat, h: Header)
    requires Sizes(mem, base, blocks) && p < UNITS && h.size == mem[p].size
    ensures Sizes(mem[p := h], base, blocks)
  {}

  lemma OneLink(mem: Memory, bp: nat, right: seq<nat>, base: nat)
    requires bp < UNITS && mem[bp].ptr == FirstOr(right, base)
    ensures Chain(mem, [bp], FirstOr(right, base))
  {}

  lemma InsertedParts(s: seq<nat>, i: nat, x: nat)
    requires i <= |s|
    ensures Inserted(s, i, x) == s[..i] + ([x] + s[i..])
    ensures i > 0 ==> s[i - 1] in Inserted(s, i, x)
  {
    if i > 0 { assert Inserted(s, i, x)[i - 1] == s[i - 1]; }
  }

  lemma DownChain(mem: Memory, base: nat, ring: seq<nat>, j: nat, h: Header)
    requires j < |ring| && ring[j] < UNITS && Ascending(ring)
    requires Chain(mem, ring[..j + 1], mem[ring[j]].ptr) && Chain(mem, ring[j + 1..], base)
    requires h.ptr == FirstOr(ring[j + 1..], base)
    ensures Chain(mem[ring[j] := h], ring, base) && ring[j] in ring
  {
    hide Chain, Ascending;
    var left, right := ring[..j + 1], ring[j + 1..];
    assert left + right == ring && left[j] == ring[j];
    AscendingPart(ring, j + 1);
    NotInRest(ring, j);
    ChainSetLast(mem, left, mem[ring[j]].ptr, h);
    PutBeside(mem, right, base, ring[j], h);
    ChainJoin(mem[ring[j] := h], left, right, base);
  }

  lemma KeepChain(mem: Memory, base: nat, ring: seq<nat>, bp: nat, j: nat, h: Header)
    requires j < |ring| && ring[j] < UNITS && Ascending(ring) && bp < UNITS && bp != ring[j]
    requires Chain(mem, ring[..j + 1], mem[ring[j]].ptr) && Chain(mem, ring[j + 1..], base)
    requires mem[bp].ptr == FirstOr(ring[j + 1..], base) && h.ptr == bp
    ensures Chain(mem[ring[j] := h], Inserted(ring, j + 1, bp), base) && ring[j] in Inserted(ring, j + 1, bp)
  {
    hide Chain, Ascending, Inserted;
    var left, right, mem' := ring[..j + 1], ring[j + 1..], mem[ring[j] := h];
    assert left[j] == ring[j];
    AscendingPart(ring, j + 1);
    NotInRest(ring, j);
    InsertedParts(ring, j + 1, bp);
    ChainSetLast(mem, left, mem[ring[j]].ptr, h);
    PutBeside(mem, right, base, ring[j], h);
    OneLink(mem', bp, right, base);
    ChainJoin(mem', [bp], right, base);
    ChainJoin(mem', left, [bp] + right, base);
  }

  /** sbrk is asked for exactly the units wanted if and only if there are fewer than 2^28 of them. */
  lemma AskedIff(nu: nat)
    requires nu <= MOST
    ensures Asked(nu) == nu * SIZEOF <==> nu < LIMIT
  {}

  /** From 2^28 units on, sbrk is asked to shrink or for nothing; it fails only if that empties the process. */
  lemma AskedOver(brk: nat, nu: nat, granted: bool)
    requires nu <= MOST && 0 < brk < KERNBASE
    ensures 0 <= Asked(nu) + KERNBASE < WORD
    ensures nu >= LIMIT ==> NewBreak(brk, Asked(nu), granted) <= brk
    ensures nu >= LIMIT ==> (NewBreak(brk, Asked(nu), granted) != 0 <==> Overruns(brk, nu))
  {}

  lemma RegionMemory(mem: Memory, base: nat, ring: seq<nat>, live: set<nat>, blocks: Blocks, hp: nat, n: nat)
    requires Accounts(base, ring, live, blocks) && Sizes(mem, base, blocks) && Chain(mem, ring, base) && hp < UNITS
    requires hp !in blocks && hp !in ring
    ensures var mem' := mem[hp := Header(mem[hp].ptr, n)];
            && Sizes(mem', base, blocks[hp := n]) && Chain(mem', ring, base)
            && forall b <- live :: b in blocks && b != hp && b < UNITS && mem'[b] == mem[b]
  {
    assert base in ring;
  }

  lemma SpanBelow(arena: set<nat>, a: nat, n: nat)
    requires forall u <- arena :: u < a
    ensures forall u <- arena + Span(a, n) :: u < a + n
  {}

  lemma FreepSet(base: nat, ring: seq<nat>, live: set<nat>, blocks: Blocks, freep: nat)
    requires Accounts(base, ring, live, blocks) && 1 <= base && freep in ring
    ensures freep != 0
  {}

  lemma SomeUnits(blocks: Blocks, arena: set<nat>)
    requires Tiles(blocks, arena)
    ensures forall b <- blocks :: blocks[b] >= 1
  {}

  /** prevp->s.ptr = p->s.ptr takes p off the list. */
  lemma CutChain(mem: Memory, base: nat, ring: seq<nat>, live: set<nat>, blocks: Blocks, i: nat)
    requires 1 <= i < |ring| && ring[i] < UNITS && ring[i - 1] < UNITS
    requires Chain(mem, ring, base) && Accounts(base, ring, live, blocks)
    ensures var h := Header(mem[ring[i]].ptr, mem[ring[i - 1]].size);
            Chain(mem[ring[i - 1] := h], Removed(ring, i), base) && ring[i - 1] in Removed(ring, i)
  {
    var h := Header(mem[ring[i]].ptr, mem[ring[i - 1]].size);
    RemovedParts(ring, i);
    RemovedAt(ring, i);
    ChainSplit(mem, ring, base, i);
    ChainSplit(mem, ring, base, i + 1);
    LastLink(mem, ring[..i + 1], FirstOr(ring[i + 1..], base));
    LastLink(mem, ring[..i], FirstOr(ring[i..], base));
    assert Removed(ring, i)[i - 1] == ring[i - 1];
    hide Chain, Removed;
    DownChain(mem, base, Removed(ring, i), i - 1, h);
  }

  lemma TailInside(blocks: Blocks, arena: set<nat>, p: nat, c: nat)
    requires Tiles(blocks, arena) && p in blocks && p <= c < p + blocks[p]
    ensures c in arena
  {}

  lemma SplitMemory(mem: Memory, base: nat, ring: seq<nat>, live: set<nat>, blocks: Blocks, p: nat, n: nat)
    requires Accounts(base, ring, live, blocks) && Sizes(mem, base, blocks) && Chain(mem, ring, base)
    requires p in blocks && p < UNITS && mem[p].size == blocks[p] && p !in live && 1 <= n < blocks[p]
    requires p + (blocks[p] - n) < UNITS && p + (blocks[p] - n) !in blocks
    ensures var c := p + (blocks[p] - n);
            && var mem1 := mem[p := Header(mem[p].ptr, mem[p].size - n)];
            && var mem' := mem1[c := Header(mem1[c].ptr, n)];
            && Sizes(mem', base, Split(blocks, p, n)) && Chain(mem', ring, base) && c !in live
            && forall b <- live :: b in blocks && b < UNITS && mem'[b] == mem[b]
  {
    hide Chain, Sizes, Accounts, Split;
    var c := p + (blocks[p] - n);
    var mem1 := mem[p := Header(mem[p].ptr, mem[p].size - n)];
    NotListed(base, ring, live, blocks, p, c);
    ChainFrame(mem, ring, base, mem1);
    PutBeside(mem1, ring, base, c, Header(mem1[c].ptr, n));
    LiveSizes(mem, base, ring, live, blocks);
    SplitSizes(mem, base, blocks, p, n);
  }

  lemma NotListed(base: nat, ring: seq<nat>, live: set<nat>, blocks: Blocks, p: nat, c: nat)
    requires Accounts(base, ring, live, blocks) && p in blocks && p <= c && c !in blocks
    ensures base < p && c !in ring && c !in live
  {}

  lemma SplitSizes(mem: Memory, base: nat, blocks: Blocks, p: nat, n: nat)
    requires Sizes(mem, base, blocks) && p in blocks && base < p && 1 <= n < blocks[p] && p + (blocks[p] - n) < UNITS
    ensures var c := p + (blocks[p] - n);
            var mem1 := mem[p := Header(mem[p].ptr, mem[p].size - n)];
            Sizes(mem1[c := Header(mem1[c].ptr, n)], base, Split(blocks, p, n))
  {}

  lemma UnitsBounds(nbytes: nat)
    ensures 1 <= Units(nbytes) <= MOST
  {}

  /** No heap has a block of 2^28 units. */
  lemma TooLarge(base: nat, mem: Memory, freep: nat, ring: seq<nat>, live: set<nat>, blocks: Blocks, arena: set<nat>,
                 brk: nat, n: nat, granted: bool)
    requires Lists(base, mem, freep, ring, live, blocks, arena) && Rooms(base, arena, brk)
    ensures Overruns(brk, n) ==> NoneFree(live, blocks, n) && Refused(brk, n, granted)
  {
    hide Accounts, Sizes, Chain;
    forall b <- blocks ensures blocks[b] < LIMIT { assert b + blocks[b] - 1 in arena; }
  }

  /** A free block of n units on the list. */
  lemma Fits(base: nat, mem: Memory, freep: nat, ring: seq<nat>, live: set<nat>, blocks: Blocks, arena: set<nat>,
             n: nat, i: nat)
    requires Lists(base, mem, freep, ring, live, blocks, arena) && 1 <= i < |ring| && ring[i] < UNITS
    requires mem[ring[i]].size >= n
    ensures !NoneFree(live, blocks, n)
  {
    RingIn(mem, base, ring, live, blocks, i);
  }

  lemma RingFacts(mem: Memory, base: nat, ring: seq<nat>, live: set<nat>, blocks: Blocks, j: nat)
    requires Accounts(base, ring, live, blocks) && Sizes(mem, base, blocks) && Chain(mem, ring, base) && j < |ring|
    ensures ring[j] < UNITS && Next(j, |ring|) < |ring| && mem[ring[j]].ptr == ring[Next(j, |ring|)]
    ensures ring[Next(j, |ring|)] < UNITS && (mem[ring[j]].size > 0 ==> j >= 1)
  {}

  /** Everything malloc has passed on its way from k to i is too small. */
  ghost predicate TooSmall(mem: Memory, ring: seq<nat>, n: nat, i: nat, k: nat)
    requires i < |ring| && k < |ring|
  {
    forall m: nat :: m < |ring| && Dist(m, k, |ring|) > Dist(i, k, |ring|) ==> ring[m] < UNITS && mem[ring[m]].size < n
  }

  lemma SameIndex(base: nat, ring: seq<nat>, live: set<nat>, blocks: Blocks, i: nat, k: nat)
    requires Accounts(base, ring, live, blocks) && i < |ring| && k < |ring| && ring[i] == ring[k]
    ensures i == k
  {}

  /** A full lap without success: no free block is large enough. */
  lemma NoneFits(mem: Memory, base: nat, ring: seq<nat>, live: set<nat>, blocks: Blocks, n: nat, k: nat)
    requires Accounts(base, ring, live, blocks) && Sizes(mem, base, blocks) && k < |ring| && ring[k] < UNITS
    requires mem[ring[k]].size < n && TooSmall(mem, ring, n, k, k)
    ensures forall b <- blocks :: b in live || blocks[b] < n
  {
    forall b <- blocks ensures b in live || blocks[b] < n {
      if b !in live {
        var m :| 0 <= m < |ring| && ring[m] == b;
        assert m != k ==> Dist(m, k, |ring|) > 0;
      }
    }
  }

  lemma Onward(mem: Memory, base: nat, ring: seq<nat>, live: set<nat>, blocks: Blocks, n: nat, i: nat, k: nat)
    requires Accounts(base, ring, live, blocks) && i < |ring| && k < |ring| && ring[i] < UNITS && ring[i] != ring[k]
    requires mem[ring[i]].size < n
    ensures i != k
    ensures TooSmall(mem, ring, n, i, k) ==> TooSmall(mem, ring, n, Next(i, |ring|), k)
  {
    DistNext(i, k, |ring|);
    if TooSmall(mem, ring, n, i, k) {
      forall m: nat | m < |ring| && Dist(m, k, |ring|) > Dist(Next(i, |ring|), k, |ring|)
        ensures ring[m] < UNITS && mem[ring[m]].size < n
      {
        assert m != i ==> Dist(m, k, |ring|) != Dist(i, k, |ring|);
      }
    }
  }

  lemma PrevIndex(j: nat, i: nat, n: nat)
    requires j < n && Next(j, n) == i >= 1
    ensures j == i - 1
  {}

  lemma NothingPassed(mem: Memory, ring: seq<nat>, n: nat, k: nat)
    requires k < |ring|
    ensures TooSmall(mem, ring, n, Next(k, |ring|), k)
  {}

  lemma Outcome(calls: nat, n: nat, granted: bool, live0: set<nat>, blocks0: Blocks, arena0: set<nat>, brk0: nat,
                blocks: Blocks, arena: set<nat>, brk: nat)
    requires Progress(calls, n, granted, live0, blocks0, arena0, brk0, blocks, arena, brk)
    ensures calls <= 1 && (calls == 0 ==> blocks == blocks0 && arena == arena0 && brk == brk0)
    ensures calls == 1 ==> NoneFree(live0, blocks0, n) && !Refused(brk0, n, granted)
    ensures calls == 1 ==> Grown(arena0, brk0, n, arena, brk)
  {}

  // ---- The list as malloc sees it ----------------------------------------------------------

  lemma At(base: nat, mem: Memory, freep: nat, ring: seq<nat>, live: set<nat>, blocks: Blocks, arena: set<nat>, j: nat)
    requires Lists(base, mem, freep, ring, live, blocks, arena) && j < |ring|
    ensures ring[j] < UNITS && Next(j, |ring|) < |ring| && mem[ring[j]].ptr == ring[Next(j, |ring|)] && ring[j] != 0
    ensures ring[Next(j, |ring|)] < UNITS && (mem[ring[j]].size > 0 ==> j >= 1)
  {
    RingFacts(mem, base, ring, live, blocks, j);
    FreepSet(base, ring, live, blocks, ring[j]);
  }

  lemma Whole(base: nat, mem: Memory, freep: nat, ring: seq<nat>, live: set<nat>, blocks: Blocks, arena: set<nat>)
    requires Lists(base, mem, freep, ring, live, blocks, arena)
    ensures freep in ring && freep != 0 && LiveKept(live, blocks, mem, blocks, mem)
  {
    FreepSet(base, ring, live, blocks, freep);
    LiveSizes(mem, base, ring, live, blocks);
  }

  lemma LapDone(base: nat, mem: Memory, freep: nat, ring: seq<nat>, live: set<nat>, blocks: Blocks, arena: set<nat>,
                n: nat, i: nat, k: nat)
    requires Lists(base, mem, freep, ring, live, blocks, arena) && k < |ring| && i < |ring|
    requires ring[i] == ring[k] < UNITS && mem[ring[k]].size < n
    ensures i == k
    ensures TooSmall(mem, ring, n, i, k) ==> NoneFree(live, blocks, n)
  {
    SameIndex(base, ring, live, blocks, i, k);
    if TooSmall(mem, ring, n, i, k) { NoneFits(mem, base, ring, live, blocks, n, k); }
  }

  lemma OneMore(base: nat, mem: Memory, freep: nat, ring: seq<nat>, live: set<nat>, blocks: Blocks, arena: set<nat>,
                n: nat, i: nat, k: nat)
    requires Lists(base, mem, freep, ring, live, blocks, arena) && k < |ring| && i < |ring| && ring[i] < UNITS
    requires ring[i] != ring[k] && mem[ring[i]].size < n
    ensures i != k
    ensures TooSmall(mem, ring, n, i, k) ==> TooSmall(mem, ring, n, Next(i, |ring|), k)
  {
    Onward(mem, base, ring, live, blocks, n, i, k);
  }

  // ---- What stores leave alone -------------------------------------------------------------

  lemma Resized(live0: set<nat>, live: set<nat>, blocks: Blocks, mem: Memory, mem': Memory, blocks': Blocks)
    requires LiveKept(live0, blocks, mem, blocks, mem') && live <= live0
    requires forall b <- live :: b in blocks && b in blocks' && blocks'[b] == blocks[b]
    ensures LiveKept(live, blocks, mem, blocks', mem')
  {}

  lemma RingStore(mem: Memory, base: nat, ring: seq<nat>, live: set<nat>, blocks: Blocks, arena: set<nat>, j: nat,
                  h: Header)
    requires Accounts(base, ring, live, blocks) && Tiles(blocks, arena) && j < |ring| && ring[j] < UNITS
    ensures LiveKept(live, blocks, mem, blocks, mem[ring[j] := h])
  {
    if j == 0 {
      BaseOutside(base, ring, live, blocks, arena);
    } else {
      SomeUnits(blocks, arena);
    }
    StoreOutside(blocks, arena, live, mem, ring[j], ring[j], h);
  }

  lemma BaseOutside(base: nat, ring: seq<nat>, live: set<nat>, blocks: Blocks, arena: set<nat>)
    requires Accounts(base, ring, live, blocks) && Tiles(blocks, arena)
    ensures base !in arena
  {}

  lemma SplitStores(mem: Memory, live: set<nat>, blocks: Blocks, arena: set<nat>, p: nat, n: nat)
    requires Tiles(blocks, arena) && p in blocks && p !in live && 1 <= n < blocks[p] && p + blocks[p] - n < UNITS
    requires mem[p].size == blocks[p]
    requires (forall b <- live :: b in blocks) && p + (blocks[p] - n) !in blocks
    ensures var c := p + (blocks[p] - n);
            var mem1 := mem[p := Header(mem[p].ptr, mem[p].size - n)];
            LiveKept(live, blocks, mem, Split(blocks, p, n), mem1[c := Header(mem1[c].ptr, n)])
  {
    hide Tiles, LiveKept;
    var c := p + (blocks[p] - n);
    var mem1 := mem[p := Header(mem[p].ptr, mem[p].size - n)];
    var mem2 := mem1[c := Header(mem1[c].ptr, n)];
    StoreOutside(blocks, arena, live, mem, p, p, Header(mem[p].ptr, mem[p].size - n));
    StoreOutside(blocks, arena, live, mem1, c, p, Header(mem1[c].ptr, n));
    LiveKeptTrans(live, blocks, mem, blocks, mem1, blocks, mem2);
    Resized(live, live, blocks, mem, mem2, Split(blocks, p, n));
  }
}
