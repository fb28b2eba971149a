/** The free list of kalloc.c, and what each step of the methods in VmCode does to owners and lookups. */
module VmLemmas {
  import opened PagingSpec
  import opened PagingProofs

  /** P2V of a frame, as stored in struct run; 0 ends the list. */
  function Link(f: nat): (w: Word)
    requires f < PHYSFRAMES
  {
    if f == 0 then 0 else KERNBASE + f * PGSIZE
  }

  function First(free: seq<nat>): nat { if free == [] then 0 else free[0] }

  /** kmem.freelist leads through the first word of each free page, in order. */
  ghost predicate FreeList(lo: nat, mem: Memory, head: nat, free: seq<nat>) {
    && 1 <= lo && head == First(free)
    && (forall i :: 0 <= i < |free| ==> lo <= free[i] < PHYSFRAMES)
    && (forall i :: 0 <= i < |free| ==> mem[free[i]][0] == Link(First(free[i + 1..])))
  }

  /** memset(v, 1, PGSIZE); r->next = kmem.freelist. */
  function JunkPage(next: nat): Page
    requires next < PHYSFRAMES
  {
    seq(ENTRIES, i => if i == 0 then Link(next) else 0x0101_0101)
  }

  lemma FreeListPush(lo: nat, mem: Memory, head: nat, free: seq<nat>, f: nat)
    requires FreeList(lo, mem, head, free) && lo <= f < PHYSFRAMES && f !in free
    ensures head < PHYSFRAMES && FreeList(lo, SetPage(mem, f, JunkPage(head)), f, [f] + free)
  {
    var free' := [f] + free;
    assert free'[1..] == free;
    assert forall i :: 0 <= i < |free| ==> free'[i + 1] == free[i] && free'[i + 1 + 1..] == free[i + 1..];
  }

  lemma FreeListPop(lo: nat, mem: Memory, head: nat, free: seq<nat>)
    requires FreeList(lo, mem, head, free) && free != []
    ensures mem[head][0] == Link(First(free[1..])) && FreeList(lo, mem, First(free[1..]), free[1..])
  {
    assert forall i :: 0 <= i < |free[1..]| ==> free[1..][i] == free[i + 1] && free[1..][i + 1..] == free[i + 1 + 1..];
  }

  lemma FreeListFrame(lo: nat, mem: Memory, head: nat, free: seq<nat>, mem': Memory)
    requires FreeList(lo, mem, head, free)
    requires forall i :: 0 <= i < |free| && free[i] < PHYSFRAMES ==> mem'[free[i]] == mem[free[i]]
    ensures FreeList(lo, mem', head, free)
  {}

  lemma EmptyList(lo: nat, mem: Memory)
    requires 1 <= lo
    ensures FreeList(lo, mem, 0, [])
  {}

  lemma AllFree(lo: nat, mem: Memory, free: seq<nat>)
    requires 1 <= lo <= PHYSFRAMES && |free| == PHYSFRAMES - lo
    requires forall i :: 0 <= i < |free| ==> free[i] == PHYSFRAMES - 1 - i
    ensures Owned(lo, mem, free, map[])
  {
    forall g | lo <= g < PHYSFRAMES ensures g in free { assert free[PHYSFRAMES - 1 - g] == g; }
  }

  lemma FreeListHead(lo: nat, mem: Memory, head: nat, free: seq<nat>)
    requires FreeList(lo, mem, head, free)
    ensures head < PHYSFRAMES
  {}

  lemma NoFree(lo: nat, mem: Memory, head: nat, free: seq<nat>)
    requires FreeList(lo, mem, head, free) && head == 0
    ensures free == []
  {}

  lemma NotFree(lo: nat, mem: Memory, free: seq<nat>, owner: Owners, f: nat)
    requires Owned(lo, mem, free, owner) && f in owner
    ensures f !in free
  {}

  lemma TableInRange(lo: nat, mem: Memory, free: seq<nat>, owner: Owners, pd: nat, x: nat)
    requires Owned(lo, mem, free, owner) && IsDir(owner, pd) && pd < PHYSFRAMES && x < ENTRIES && Present(mem[pd][x])
    ensures lo <= FrameOf(mem[pd][x]) < PHYSFRAMES && FrameOf(mem[pd][x]) in owner
    ensures owner[FrameOf(mem[pd][x])] == Table(pd, x) && lo >= 1
  {}

  function Min(a: nat, b: nat): nat { if a < b then a else b }

  const PANIC: int := -1

  /** The page after the last user page below sz. */
  function UserEnd(sz: nat): nat { Min(PageUp(sz), USERPAGES) }

  /** The first kernel page maps frame 0, as in every directory setupkvm makes. */
  predicate FrameZero(mem: Memory, pd: nat) {
    Present(Lookup(mem, pd, USERPAGES)) && FrameOf(Lookup(mem, pd, USERPAGES)) == 0
  }

  lemma LookupIs(mem: Memory, owner: Owners, pd: nat, v: nat)
    requires HasTable(mem, owner, pd, v)
    ensures Lookup(mem, pd, v) == mem[FrameOf(mem[pd][v / ENTRIES])][v % ENTRIES]
  {}

  lemma UnmapNotFree(lo: nat, mem: Memory, free: seq<nat>, owner: Owners, pd: nat, v: nat, junk: Page)
    requires Owned(lo, mem, free, owner) && HasTable(mem, owner, pd, v) && v < USERPAGES && Present(Lookup(mem, pd, v))
    ensures var f := FrameOf(Lookup(mem, pd, v));
            && f < PHYSFRAMES && f != pd
            && SetPage(mem, f, junk)[pd] == mem[pd]
            && forall i :: 0 <= i < |[f] + free| && ([f] + free)[i] < PHYSFRAMES ==>
                 SetPte(SetPage(mem, f, junk), pd, v, 0)[([f] + free)[i]] == SetPage(mem, f, junk)[([f] + free)[i]]
  {
    var f := FrameOf(Lookup(mem, pd, v));
    assert f in owner && owner[f] == User(pd, v);
    var t := FrameOf(mem[pd][v / ENTRIES]);
    assert t in owner && owner[t] == Table(pd, v / ENTRIES);
    hide TablesOk, UsersOk, Lookup;
  }

  lemma CutNone(owner: Owners, pd: nat, from: nat)
    ensures Cut(owner, pd, from, from) == owner
  {}

  lemma CutSkip(lo: nat, mem: Memory, free: seq<nat>, owner: Owners, owner0: Owners, pd: nat, from: nat, v: nat,
                v': nat)
    requires Owned(lo, mem, free, owner) && owner == Cut(owner0, pd, from, v) && from <= v <= v'
    requires forall u :: v <= u < v' ==> !Present(Lookup(mem, pd, u))
    ensures Cut(owner0, pd, from, v') == owner
    decreases v' - v
  {
    if v < v' {
      CutAbsent(mem, owner, owner0, pd, from, v);
      CutSkip(lo, mem, free, owner, owner0, pd, from, v + 1, v');
    }
  }

  lemma CutDrop(lo: nat, mem: Memory, free: seq<nat>, owner: Owners, owner0: Owners, pd: nat, from: nat, v: nat)
    requires Owned(lo, mem, free, owner) && owner == Cut(owner0, pd, from, v) && from <= v < USERPAGES
    requires IsDir(owner, pd) && Present(Lookup(mem, pd, v))
    ensures Cut(owner0, pd, from, v + 1) == owner - {FrameOf(Lookup(mem, pd, v))}
    ensures FrameOf(Lookup(mem, pd, v)) != pd
  {
    CutPresent(mem, owner, owner0, pd, from, v);
  }

  lemma SkipAbsent(mem: Memory, pd: nat, v: nat)
    requires pd < PHYSFRAMES && v < PAGES && !Present(mem[pd][v / ENTRIES])
    ensures forall u: nat :: v <= u < (v / ENTRIES + 1) * ENTRIES ==> !Present(Lookup(mem, pd, u))
  {
    assert forall u: nat :: v <= u < (v / ENTRIES + 1) * ENTRIES ==> u / ENTRIES == v / ENTRIES;
  }

  /** Page v of pd is a zeroed page, writable by the user, on a frame not in `owner0`. */
  ghost predicate ZeroMapped(mem: Memory, owner: Owners, owner0: Owners, pd: nat, v: nat) {
    var w := Lookup(mem, pd, v);
    && Present(w) && FlagsOf(w) == PTE_P + PTE_W + PTE_U && FrameOf(w) < PHYSFRAMES
    && FrameOf(w) !in owner0 && FrameOf(w) in owner && owner[FrameOf(w)] == User(pd, v)
    && mem[FrameOf(w)] == ZeroPage()
  }

  lemma AddsRefl(owner: Owners, pd: nat, from: nat, to: nat)
    ensures Adds(owner, owner, pd, from, to)
  {}

  lemma InRange(lo: nat, mem: Memory, free: seq<nat>, owner: Owners, f: nat)
    requires Owned(lo, mem, free, owner) && f in owner
    ensures lo <= f < PHYSFRAMES
  {}

  lemma NotOwned(owner: Owners, f: nat)
    ensures f !in owner - {f}
  {}

  lemma RolledBack(mem: Memory, owner: Owners, mem1: Memory, owner1: Owners, mem2: Memory, owner2: Owners, pd: nat,
                   from: nat, to: nat)
    requires Keeps(mem, owner, mem1, owner1, pd, from, to) && Adds(owner, owner1, pd, from, to)
    requires Keeps(mem1, owner1, mem2, owner2, pd, from, to) && owner2 == Cut(owner1, pd, from, to)
    ensures Keeps(mem, owner, mem2, owner2, pd, from, to) && Adds(owner, owner2, pd, 0, 0)
  {
    KeepsTrans(mem, owner, mem1, owner1, mem2, owner2, pd, from, to);
  }

  lemma HeldCut(owner: Owners, pd: nat, from: nat, to: nat, f: nat)
    requires f in owner && owner[f].Held?
    ensures f in Cut(owner, pd, from, to) && Cut(owner, pd, from, to)[f].Held?
  {}

  lemma UndoHeld(mem: Memory, owner: Owners, mem0: Memory, owner0: Owners, mem1: Memory, mem2: Memory, owner2: Owners,
                 mem3: Memory, pd: nat, from: nat, to: nat, f: nat)
    requires Keeps(mem, owner, mem0, owner0, pd, from, to) && Adds(owner, owner0, pd, from, to) && f !in owner0
    requires Keeps(mem0, owner0, mem1, owner0[f := Held], 0, 0, 0)
    requires Keeps(mem1, owner0[f := Held], mem2, owner2, pd, from, to)
    requires owner2 == Cut(owner0[f := Held], pd, from, to)
    requires Keeps(mem2, owner2 - {f}, mem3, owner2 - {f}, 0, 0, 0)
    ensures Keeps(mem, owner, mem3, owner2 - {f}, pd, from, to) && Adds(owner, owner2 - {f}, pd, 0, 0)
  {
    assert Adds(owner, owner2 - {f}, pd, 0, 0);
    hide Keeps, Adds;
    assert owner0 - {f} == owner0 && owner0[f := Held] - {f} == owner0;
    KeepsLess(mem0, owner0, mem1, owner0[f := Held], 0, 0, 0, {f});
    KeepsNothing(mem0, owner0, mem1, owner0, 0, pd, from, to);
    KeepsLess(mem1, owner0[f := Held], mem2, owner2, pd, from, to, {f});
    KeepsNothing(mem2, owner2 - {f}, mem3, owner2 - {f}, 0, pd, from, to);
    KeepsTrans(mem, owner, mem0, owner0, mem1, owner0, pd, from, to);
    KeepsTrans(mem, owner, mem1, owner0, mem2, owner2 - {f}, pd, from, to);
    KeepsTrans(mem, owner, mem2, owner2 - {f}, mem3, owner2 - {f}, pd, from, to);
  }

  /** kalloc and mappages of one user page. */
  lemma PageAdded(mem0: Memory, owner0: Owners, mem1: Memory, mem: Memory, owner: Owners, pd: nat, v: nat, f: nat)
    requires f !in owner0 && Keeps(mem0, owner0, mem1, owner0[f := Held], 0, 0, 0)
    requires Keeps(mem1, owner0[f := Held] - {f}, mem, owner, pd, v, v + 1) && Adds(owner0[f := Held], owner, pd, 0, 0)
    requires Extends(owner0[f := Held] - {f}, owner) && IsUser(owner, f, pd, v)
    ensures Keeps(mem0, owner0, mem, owner, pd, v, v + 1) && Adds(owner0, owner, pd, v, v + 1) && Extends(owner0, owner)
  {
    assert owner0 - {f} == owner0 && owner0[f := Held] - {f} == owner0;
    assert Adds(owner0, owner, pd, v, v + 1) && Extends(owner0, owner);
    hide Keeps, Adds;
    KeepsLess(mem0, owner0, mem1, owner0[f := Held], 0, 0, 0, {f});
    KeepsNothing(mem0, owner0, mem1, owner0, 0, pd, v, v + 1);
    KeepsTrans(mem0, owner0, mem1, owner0, mem, owner, pd, v, v + 1);
  }

  lemma AllocStep(mem: Memory, owner: Owners, mem0: Memory, owner0: Owners, mem2: Memory, owner2: Owners,
                  pd: nat, from: nat, to: nat, v: nat)
    requires Keeps(mem, owner, mem0, owner0, pd, from, to) && Adds(owner, owner0, pd, from, to)
    requires Extends(owner, owner0)
    requires Keeps(mem0, owner0, mem2, owner2, pd, v, v + 1) && Adds(owner0, owner2, pd, v, v + 1)
    requires Extends(owner0, owner2)
    requires from <= v < to
    ensures Keeps(mem, owner, mem2, owner2, pd, from, to) && Adds(owner, owner2, pd, from, to) && Extends(owner, owner2)
  {
    hide Keeps, Adds, Extends;
    AddsPage(owner, owner0, owner2, pd, v, from, to);
    ExtendsTrans(owner, owner0, owner2);
    KeepsWiden(mem0, owner0, mem2, owner2, pd, v, v + 1, from, to);
    KeepsTrans(mem, owner, mem0, owner0, mem2, owner2, pd, from, to);
  }

  lemma ZeroKept(mem: Memory, owner: Owners, mem': Memory, owner': Owners, owner0: Owners, pd: nat, from: nat,
                 to: nat, u: nat)
    requires Keeps(mem, owner, mem', owner', pd, from, to) && ZeroMapped(mem, owner, owner0, pd, u)
    requires IsDir(owner, pd) && u < PAGES && !(from <= u < to)
    ensures ZeroMapped(mem', owner', owner0, pd, u)
  {
    hide Lookup;
  }

  lemma ZeroesKept(mem: Memory, owner: Owners, mem': Memory, owner': Owners, owner0: Owners, pd: nat, from: nat, v: nat)
    requires Keeps(mem, owner, mem', owner', pd, v, v + 1) && IsDir(owner, pd) && v < PAGES
    requires forall u: nat :: from <= u < v ==> ZeroMapped(mem, owner, owner0, pd, u)
    ensures forall u: nat :: from <= u < v ==> ZeroMapped(mem', owner', owner0, pd, u)
  {
    hide Keeps, ZeroMapped;
    forall u: nat | from <= u < v ensures ZeroMapped(mem', owner', owner0, pd, u) {
      ZeroKept(mem, owner, mem', owner', owner0, pd, v, v + 1, u);
    }
  }

  lemma VacantKept(mem: Memory, owner: Owners, mem': Memory, owner': Owners, pd: nat, v: nat, last: nat)
    requires Keeps(mem, owner, mem', owner', pd, v, v + 1) && IsDir(owner, pd) && last <= PAGES
    requires forall u: nat :: v <= u < last ==> !Present(Lookup(mem, pd, u))
    ensures forall u: nat :: v < u < last ==> !Present(Lookup(mem', pd, u))
  {
    hide Keeps, Lookup, Present;
    forall u: nat | v < u < last ensures !Present(Lookup(mem', pd, u)) {
      KeepsLookup(mem, owner, mem', owner', pd, v, v + 1, pd, u);
    }
  }

  lemma StillGone(mem: Memory, owner: Owners, mem': Memory, owner': Owners, pd: nat, from: nat, last: nat)
    requires Keeps(mem, owner, mem', owner', 0, 0, 0) && IsDir(owner, pd) && last <= PAGES
    requires forall u :: from <= u < last ==> !Present(Lookup(mem, pd, u))
    ensures forall u: nat :: from <= u < last ==> !Present(Lookup(mem', pd, u))
  {
    hide Keeps, Lookup, Present;
    forall u: nat | from <= u < last ensures !Present(Lookup(mem', pd, u)) {
      KeepsLookup(mem, owner, mem', owner', 0, 0, 0, pd, u);
    }
  }

  lemma ZeroNew(mem: Memory, owner: Owners, owner0: Owners, pd: nat, v: nat, f: nat)
    requires f < PHYSFRAMES && Lookup(mem, pd, v) == Entry(f, PTE_W + PTE_U) && f !in owner0
    requires f in owner && owner[f] == User(pd, v) && mem[f] == ZeroPage()
    ensures ZeroMapped(mem, owner, owner0, pd, v)
  {
    hide Lookup;
  }

  predicate IsHeld(owner: Owners, f: nat) { f in owner && owner[f].Held? && f < PHYSFRAMES }

  predicate IsUser(owner: Owners, f: nat, pd: nat, v: nat) { f in owner && owner[f] == User(pd, v) && f < PHYSFRAMES }

  lemma ExtendsRefl(owner: Owners)
    ensures Extends(owner, owner)
  {}

  lemma ExtendsTrans(owner: Owners, owner1: Owners, owner2: Owners)
    requires Extends(owner, owner1) && Extends(owner1, owner2)
    ensures Extends(owner, owner2)
  {}

  lemma AddsTrans(owner: Owners, owner1: Owners, owner2: Owners, pd: nat, from: nat, to: nat)
    requires Adds(owner, owner1, pd, from, to) && Adds(owner1, owner2, pd, from, to) && Extends(owner1, owner2)
    ensures Adds(owner, owner2, pd, from, to)
  {}

  lemma HalfPd(owner: Owners, pd: nat, i: nat)
    requires IsDir(owner, pd)
    ensures pd in Half(owner, pd, i) && Half(owner, pd, i)[pd] == Held
  {}

  lemma DropHeld(mem: Memory, owner: Owners, mem': Memory, t: nat, pd: nat)
    requires Keeps(mem, owner - {t}, mem', owner - {t}, 0, 0, 0) && IsHeld(owner, pd) && t != pd
    ensures mem'[pd] == mem[pd]
  {
    hide Lookup;
  }

  lemma KeepsChain(mem: Memory, owner: Owners, mem1: Memory, owner1: Owners, mem2: Memory, t: nat)
    requires Keeps(mem, owner, mem1, owner1, 0, 0, 0) && Keeps(mem1, owner1 - {t}, mem2, owner1 - {t}, 0, 0, 0)
    requires t !in owner
    ensures Keeps(mem, owner, mem2, owner1 - {t}, 0, 0, 0)
  {
    assert owner - {t} == owner;
    hide Keeps;
    KeepsLess(mem, owner, mem1, owner1, 0, 0, 0, {t});
    KeepsTrans(mem, owner, mem1, owner1 - {t}, mem2, owner1 - {t}, 0, 0, 0);
  }

  lemma ExtendsNew(owner: Owners, f: nat, use: Use)
    requires f !in owner
    ensures Extends(owner, owner[f := use])
  {}

  lemma KeepsNew(mem: Memory, owner: Owners, mem': Memory, pd: nat)
    requires Keeps(mem, owner, mem', owner[pd := Held], 0, 0, 0) && pd !in owner
    ensures Keeps(mem, owner, mem', owner[pd := Dir], 0, 0, 0)
  {
    hide Lookup;
  }

  lemma KernelNone(data: nat)
    requires DataOk(data)
    ensures forall v: nat :: v < PAGES ==> KernelEntry(data, 0, v) == 0
  {}

  /** The rows of kmap do not overlap. */
  lemma RegionFree(data: nat, k: nat)
    requires DataOk(data) && k < 4
    ensures var r := Kmap(data)[k];
            && KERNBASE <= r.virt && r.start < r.end
            && r.virt % PGSIZE == 0 && r.start % PGSIZE == 0 && r.end % PGSIZE == 0
            && r.virt + (r.end - r.start) <= WORD && r.end <= WORD
            && forall v: nat :: r.virt / PGSIZE <= v < (r.virt + (r.end - r.start)) / PGSIZE ==>
                 KernelEntry(data, k, v) == 0
  {
    var r := Kmap(data)[k];
    forall v: nat | r.virt / PGSIZE <= v < (r.virt + (r.end - r.start)) / PGSIZE ensures KernelEntry(data, k, v) == 0 {
      KernelAbove(data, k, v);
    }
  }

  lemma KernelAbove(data: nat, k: nat, v: nat)
    requires DataOk(data) && k <= 4 && v < PAGES
    requires k > 0 ==> v >= (Kmap(data)[k - 1].virt + (Kmap(data)[k - 1].end - Kmap(data)[k - 1].start)) / PGSIZE
    ensures KernelEntry(data, k, v) == 0
  {
    if k > 0 { KernelAbove(data, k - 1, v); }
  }

  lemma ExtendsDir(owner: Owners, owner': Owners, pd: nat)
    requires Extends(owner, owner') && IsDir(owner, pd)
    ensures IsDir(owner', pd)
  {}

  lemma RegionMapped(data: nat, k: nat, mem: Memory, owner: Owners, mem': Memory, owner': Owners, pd: nat)
    requires DataOk(data) && k < 4 && IsDir(owner, pd)
    requires forall v: nat :: v < PAGES ==> Lookup(mem, pd, v) == KernelEntry(data, k, v)
    requires var r := Kmap(data)[k];
             && Keeps(mem, owner, mem', owner', pd, r.virt / PGSIZE, (r.virt + (r.end - r.start) - 1) / PGSIZE + 1)
             && MappedTo(mem', pd, r.virt / PGSIZE, (r.virt + (r.end - r.start) - 1) / PGSIZE + 1,
                         r.start / PGSIZE, r.perm)
    ensures forall v: nat :: v < PAGES ==> Lookup(mem', pd, v) == KernelEntry(data, k + 1, v)
  {
    hide Keeps, Lookup;
    var r := Kmap(data)[k];
    var n := r.end - r.start;
    assert (r.virt + n) / PGSIZE == (r.virt + n - 1) / PGSIZE + 1 by { RegionFree(data, k); }
    forall v: nat | v < PAGES ensures Lookup(mem', pd, v) == KernelEntry(data, k + 1, v) {
      if !(r.virt / PGSIZE <= v < (r.virt + n) / PGSIZE) {
        KeepsLookup(mem, owner, mem', owner', pd, r.virt / PGSIZE, (r.virt + n - 1) / PGSIZE + 1, pd, v);
      }
    }
  }

  lemma KernelPages(mem: Memory, pd: nat, data: nat, from: nat)
    requires DataOk(data) && forall v: nat :: from <= v < PAGES ==> Lookup(mem, pd, v) == KernelEntry(data, 4, v)
    ensures forall v: nat :: from <= v < PAGES ==> KernelPage(data, v, Lookup(mem, pd, v))
  {
    hide Lookup, KernelEntry, KernelPage;
    forall v: nat | from <= v < PAGES ensures KernelPage(data, v, Lookup(mem, pd, v)) { KernelMap(data, v); }
  }

  /** Page v of d has the contents and the flags page v of pd had, on a frame not in use before. */
  ghost predicate CopyOf(mem: Memory, owner: Owners, mem0: Memory, owner0: Owners, pd: nat, d: nat, v: nat) {
    var w, w0 := Lookup(mem, d, v), Lookup(mem0, pd, v);
    && Present(w) && FlagsOf(w) == FlagsOf(w0) && FrameOf(w) < PHYSFRAMES && FrameOf(w0) < PHYSFRAMES
    && mem[FrameOf(w)] == mem0[FrameOf(w0)]
    && FrameOf(w) !in owner0 && FrameOf(w) in owner && owner[FrameOf(w)] == User(d, v)
  }

  lemma AddsWiden(owner: Owners, owner': Owners, pd: nat, to: nat)
    requires Adds(owner, owner', pd, 0, 0)
    ensures Adds(owner, owner', pd, 0, to)
  {}

  lemma KernelUser(data: nat, k: nat, v: nat)
    requires DataOk(data) && k <= 4 && v < USERPAGES
    ensures KernelEntry(data, k, v) == 0
  {
    if k > 0 { KernelUser(data, k - 1, v); }
  }

  lemma TableThere(mem: Memory, pd: nat, v: nat)
    requires pd < PHYSFRAMES && v < PAGES && Present(Lookup(mem, pd, v))
    ensures Present(mem[pd][v / ENTRIES])
  {}

  lemma UserFrame(lo: nat, mem: Memory, free: seq<nat>, owner: Owners, pd: nat, v: nat)
    requires Owned(lo, mem, free, owner) && IsDir(owner, pd) && v < USERPAGES && Present(Lookup(mem, pd, v))
    ensures IsUser(owner, FrameOf(Lookup(mem, pd, v)), pd, v)
  {}

  lemma BackToStart(mem: Memory, owner: Owners, mem1: Memory, mem2: Memory, f: nat)
    requires f !in owner && Keeps(mem, owner, mem1, owner[f := Held], 0, 0, 0)
    requires Keeps(mem1, owner[f := Held] - {f}, mem2, owner[f := Held] - {f}, 0, 0, 0)
    ensures owner[f := Held] - {f} == owner && Keeps(mem, owner, mem2, owner, 0, 0, 0)
  {
    assert owner[f := Held] - {f} == owner;
    hide Keeps;
    KeepsChain(mem, owner, mem1, owner[f := Held], mem2, f);
  }

  lemma AddsPage(owner: Owners, owner1: Owners, owner2: Owners, d: nat, v: nat, from: nat, to: nat)
    requires Adds(owner, owner1, d, from, to) && Adds(owner1, owner2, d, v, v + 1) && Extends(owner1, owner2)
    requires from <= v < to
    ensures Adds(owner, owner2, d, from, to)
  {}

  lemma CopyKept(mem: Memory, owner: Owners, mem': Memory, owner': Owners, mem0: Memory, owner0: Owners, pd: nat,
                 d: nat, v: nat, u: nat)
    requires Keeps(mem, owner, mem', owner', d, v, v + 1) && CopyOf(mem, owner, mem0, owner0, pd, d, u)
    requires IsDir(owner, d)
    requires u < v && u < PAGES
    ensures CopyOf(mem', owner', mem0, owner0, pd, d, u)
  {
    hide Lookup;
  }

  /** The pages of d before v are still the copies they were, those after it as they were. */
  lemma CopiesKept(mem: Memory, owner: Owners, mem': Memory, owner': Owners, mem0: Memory, owner0: Owners, pd: nat,
                   d: nat, v: nat)
    requires Keeps(mem, owner, mem', owner', d, v, v + 1) && IsDir(owner, d) && v < PAGES
    requires forall u: nat :: u < v ==> CopyOf(mem, owner, mem0, owner0, pd, d, u)
    ensures forall u: nat :: u < v ==> CopyOf(mem', owner', mem0, owner0, pd, d, u)
    ensures forall u: nat :: v < u < PAGES ==> Lookup(mem', d, u) == Lookup(mem, d, u)
  {
    hide Keeps, CopyOf, Lookup;
    forall u: nat | u < v ensures CopyOf(mem', owner', mem0, owner0, pd, d, u) {
      CopyKept(mem, owner, mem', owner', mem0, owner0, pd, d, v, u);
    }
    forall u: nat | v < u < PAGES ensures Lookup(mem', d, u) == Lookup(mem, d, u) {
      KeepsLookup(mem, owner, mem', owner', d, v, v + 1, d, u);
    }
  }

  lemma CopyNew(mem0: Memory, owner0: Owners, mem1: Memory, owner1: Owners, mem: Memory, owner: Owners, pd: nat,
                d: nat, v: nat, f: nat)
    requires Keeps(mem0, owner0, mem1, owner1, 0, 0, 0) && IsUser(owner0, FrameOf(Lookup(mem0, pd, v)), pd, v)
    requires Present(Lookup(mem0, pd, v)) && f < PHYSFRAMES && f !in owner1 && Extends(owner0, owner1)
    requires Lookup(mem, d, v) == Entry(f, FlagsOf(Lookup(mem0, pd, v))) && IsUser(owner, f, d, v)
    requires mem[f] == mem1[FrameOf(Lookup(mem0, pd, v))]
    ensures CopyOf(mem, owner, mem0, owner0, pd, d, v)
  {
    hide Lookup;
  }

  /** When the range was empty before, nothing at all is lost. */
  lemma KeepsExtends(lo: nat, mem: Memory, free: seq<nat>, owner: Owners, mem': Memory, owner': Owners, pd: nat,
                     from: nat, to: nat)
    requires Owned(lo, mem, free, owner) && Keeps(mem, owner, mem', owner', pd, from, to)
    requires forall v: nat :: from <= v < to ==> !Present(Lookup(mem, pd, v))
    ensures Extends(owner, owner')
  {
    hide Lookup, TablesOk, PartitionOk;
    forall f <- owner ensures !(owner[f].User? && owner[f].pd == pd && from <= owner[f].v < to) {
      assert owner[f].User? ==> Present(Lookup(mem, owner[f].pd, owner[f].v));
    }
  }

  // ---- Counting tables ---------------------------------------------------------------------

  lemma DirAfterLink(mem: Memory, pd: nat, x: nat, t: nat)
    requires pd < PHYSFRAMES && t < PHYSFRAMES && t != pd && x < ENTRIES && !Present(mem[pd][x])
    ensures Tables(LinkTable(mem, pd, x, t), pd) == Tables(mem, pd) + {x} && x !in Tables(mem, pd)
  {
    var mem' := LinkTable(mem, pd, x, t);
    assert mem'[pd] == mem[pd][x := Entry(t, PTE_P + PTE_W + PTE_U)];
  }

  lemma DirAfterPte(lo: nat, mem: Memory, free: seq<nat>, owner: Owners, pd: nat, v: nat, w: Word)
    requires Owned(lo, mem, free, owner) && HasTable(mem, owner, pd, v)
    ensures Tables(SetPte(mem, pd, v, w), pd) == Tables(mem, pd)
  {
    var t := FrameOf(mem[pd][v / ENTRIES]);
    assert t in owner && owner[t] == Table(pd, v / ENTRIES);
    assert SetPte(mem, pd, v, w)[pd] == mem[pd];
  }

  lemma DirHas(mem: Memory, pd: nat, x: nat)
    requires pd < PHYSFRAMES && x < ENTRIES
    ensures x in Tables(mem, pd) <==> Present(mem[pd][x])
  {}

  lemma DirEmpty(mem: Memory, pd: nat)
    requires pd < PHYSFRAMES && mem[pd] == ZeroPage()
    ensures Tables(mem, pd) == {}
  {}

  /** Slots touched by pages [first, v). */
  function Touched(first: nat, v: nat): set<nat> { if v <= first then {} else SlotsOf(first, v - 1) }

  lemma TouchedMore(first: nat, v: nat, last: nat)
    requires first <= v <= last
    ensures Touched(first, v + 1) == Touched(first, v) + {v / ENTRIES}
    ensures Touched(first, v) <= SlotsOf(first, last) && v / ENTRIES in SlotsOf(first, last)
    ensures Touched(first, last + 1) == SlotsOf(first, last)
  {
    forall x: nat ensures x in Touched(first, v + 1) <==> x in Touched(first, v) || x == v / ENTRIES {
      assert first / ENTRIES <= v / ENTRIES;
      if v > first { assert v / ENTRIES == (v - 1) / ENTRIES || v / ENTRIES == (v - 1) / ENTRIES + 1; }
    }
  }

  lemma TouchedOne(v: nat)
    ensures Touched(v, v) == {} && Touched(v, v + 1) == {v / ENTRIES}
  {
    TouchedMore(v, v, v);
  }

  lemma TouchedNone(first: nat)
    ensures Touched(first, first) == {}
  {}

  /** The frames that mapping pages [from, to) takes where the slots in `made` have their tables: one a page,
      and one for every table still missing. */
  function Needed(made: set<nat>, from: nat, to: nat): nat
    requires from <= to
  {
    (to - from) + |Touched(from, to) - made|
  }

  lemma DirKept(mem: Memory, f: nat, page: Page, pd: nat)
    requires f < PHYSFRAMES && f != pd
    ensures Tables(SetPage(mem, f, page), pd) == Tables(mem, pd)
  {}

  lemma {:induction false} FewerOrSame(a: set<nat>, b: set<nat>)
    requires a <= b
    ensures |a| <= |b|
  {
    if a == b {} else { FewerElements(a, b); }
  }

  /** Frames given out since the start are the pages mapped and the tables made. */
  lemma NeededIs(made0: set<nat>, made: set<nat>, from: nat, v: nat)
    requires from <= v && made == made0 + Touched(from, v)
    ensures |made| == |made0| + |Touched(from, v) - made0|
  {
    hide Touched;
    assert made == made0 + (Touched(from, v) - made0);
  }

  lemma NeededMore(made: set<nat>, from: nat, v: nat, last: nat)
    requires from <= v < last
    ensures Needed(made, from, v) < Needed(made, from, v + 1) <= Needed(made, from, last)
    ensures v / ENTRIES !in made + Touched(from, v) ==> Needed(made, from, v) + 2 == Needed(made, from, v + 1)
    decreases last - v
  {
    hide Touched;
    TouchedMore(from, v, last);
    FewerOrSame(Touched(from, v) - made, Touched(from, v + 1) - made);
    if v / ENTRIES !in made + Touched(from, v) {
      assert Touched(from, v + 1) - made == (Touched(from, v) - made) + {v / ENTRIES};
    }
    if v + 1 < last { NeededMore(made, from, v + 1, last); }
  }

  /** kalloc found no frame for page v, or mappages none for its table. */
  lemma Short(free0: nat, made0: set<nat>, free: nat, made: set<nat>, from: nat, v: nat, last: nat)
    requires from <= v < last && made == made0 + Touched(from, v)
    requires free + (v - from) + |made| == free0 + |made0|
    requires free == 0 || (free == 1 && v / ENTRIES !in made)
    ensures free0 < Needed(made0, from, last)
  {
    hide Touched;
    NeededIs(made0, made, from, v);
    NeededMore(made0, from, v, last);
  }

  /** Tables for n pages from page 0. */
  function TablesFor(n: nat): nat { (n + ENTRIES - 1) / ENTRIES }

  lemma CopyNeeds(n: nat)
    requires n <= USERPAGES
    ensures Needed(KernelSlots(), 0, n) == n + TablesFor(n)
  {
    if n == 0 {
      assert Touched(0, n) - KernelSlots() == {};
    } else {
      assert Touched(0, n) - KernelSlots() == Slots(0, TablesFor(n));
      SlotsCount(0, TablesFor(n));
    }
  }

  /** Slots the first k rows of kmap need. */
  function RowSlots(data: nat, k: nat): set<nat>
    requires DataOk(data) && k <= 4
  {
    if k == 0 then {}
    else
      var r := Kmap(data)[k - 1];
      RowSlots(data, k - 1) + SlotsOf(r.virt / PGSIZE, (r.virt + (r.end - r.start) - 1) / PGSIZE)
  }

  lemma RowSlotsAll(data: nat)
    requires DataOk(data)
    ensures RowSlots(data, 4) == KernelSlots()
  {
    var a, b, c, d := RowSlots(data, 1), RowSlots(data, 2), RowSlots(data, 3), RowSlots(data, 4);
    assert RowSlots(data, 0) == {};
    assert a == {} + SlotsOf(0x80000, 0x800FF);
    assert b == a + SlotsOf(0x80100, 0x80000 + data / PGSIZE - 1);
    assert c == b + SlotsOf(0x80000 + data / PGSIZE, 0x8DFFF);
    assert d == c + SlotsOf(0xFE000, 0xFFFFF);
    var e := (data / PGSIZE - 1) / ENTRIES;
    assert b == Slots(512, 512 + e + 1);
    assert c == Slots(512, 568);
  }

  lemma {:induction false} RowSlotsSome(data: nat, k: nat)
    requires DataOk(data) && k <= 4
    ensures RowSlots(data, k) <= KernelSlots()
    decreases 4 - k
  {
    if k == 4 { RowSlotsAll(data); } else { RowSlotsSome(data, k + 1); }
  }

  lemma {:induction false} FewerElements(a: set<nat>, b: set<nat>)
    requires a < b
    ensures |a| < |b|
  {
    if a != {} {
      var x :| x in a;
      FewerElements(a - {x}, b - {x});
    }
  }

  /** mappages ran out of frames in row k: fewer tables than the kernel needs have been made. */
  lemma TooFewTables(data: nat, k: nat, made: set<nat>)
    requires DataOk(data) && k < 4 && made < RowSlots(data, k + 1)
    ensures |made| < KTABLES
  {
    hide RowSlots;
    RowSlotsSome(data, k + 1);
    FewerElements(made, KernelSlots());
    KernelSlotsCount();
  }

  lemma RowSlotsStep(data: nat, k: nat)
    requires DataOk(data) && k < 4
    ensures var r := Kmap(data)[k];
            RowSlots(data, k + 1) ==
            RowSlots(data, k) + SlotsOf(r.virt / PGSIZE, (r.virt + (r.end - r.start) - 1) / PGSIZE)
  {}

  /** setupkvm has taken pd and made some of its tables; nothing else has changed since (mem0, free0,
      owner0). */
  ghost predicate Building(mem0: Memory, free0: seq<nat>, owner0: Owners, mem: Memory, free: seq<nat>, owner: Owners,
                           pd: nat) {
    && Keeps(mem0, owner0, mem, owner, 0, 0, 0) && IsDir(owner, pd) && pd < PHYSFRAMES
    && Extends(owner0, owner) && Adds(owner0[pd := Dir], owner, pd, 0, 0)
    && |free| + |Tables(mem, pd)| == |free0| - 1
  }

  /** The first k rows of kmap are in place. */
  ghost predicate Rows(mem: Memory, pd: nat, data: nat, k: nat)
    requires DataOk(data) && k <= 4
  {
    && (forall v: nat :: v < PAGES ==> Lookup(mem, pd, v) == KernelEntry(data, k, v))
    && Tables(mem, pd) == RowSlots(data, k)
  }

  lemma BuildingOn(lo: nat, mem0: Memory, free0: seq<nat>, owner0: Owners, mem1: Memory, free1: seq<nat>,
                   owner1: Owners, mem2: Memory, free2: seq<nat>, owner2: Owners, pd: nat, from: nat, to: nat)
    requires Owned(lo, mem0, free0, owner0) && pd !in owner0 && Building(mem0, free0, owner0, mem1, free1, owner1, pd)
    requires Keeps(mem1, owner1, mem2, owner2, pd, from, to) && Extends(owner1, owner2)
    requires Adds(owner1, owner2, pd, 0, 0)
    requires |free2| + |Tables(mem2, pd)| == |free1| + |Tables(mem1, pd)|
    ensures Building(mem0, free0, owner0, mem2, free2, owner2, pd)
  {
    hide Keeps, Extends, Adds, Owned, Tables;
    KeepsForeign(lo, mem0, free0, owner0, mem1, owner1, mem2, owner2, pd, from, to);
    ExtendsTrans(owner0, owner1, owner2);
    AddsTrans(owner0[pd := Dir], owner1, owner2, pd, 0, 0);
    ExtendsDir(owner1, owner2, pd);
  }

  lemma BuildingNew(mem0: Memory, free0: seq<nat>, owner0: Owners, mem: Memory, free: seq<nat>, pd: nat)
    requires Keeps(mem0, owner0, mem, owner0[pd := Held], 0, 0, 0) && pd !in owner0 && pd < PHYSFRAMES
    requires mem[pd] == ZeroPage()
    requires free0 == [pd] + free
    ensures Building(mem0, free0, owner0, mem, free, owner0[pd := Dir], pd) && Tables(mem, pd) == {}
  {
    hide Keeps, Extends, Adds, Tables;
    KeepsNew(mem0, owner0, mem, pd);
    ExtendsNew(owner0, pd, Dir);
    AddsRefl(owner0[pd := Dir], pd, 0, 0);
    DirEmpty(mem, pd);
  }

  lemma RowsNone(mem: Memory, pd: nat, data: nat)
    requires DataOk(data) && Tables(mem, pd) == {} && forall v: nat :: Lookup(mem, pd, v) == 0
    ensures Rows(mem, pd, data, 0)
  {
    KernelNone(data);
  }

  lemma RowsNext(data: nat, k: nat, mem: Memory, owner: Owners, mem': Memory, owner': Owners, pd: nat)
    requires DataOk(data) && k < 4 && IsDir(owner, pd) && Rows(mem, pd, data, k)
    requires var r := Kmap(data)[k];
             && Keeps(mem, owner, mem', owner', pd, r.virt / PGSIZE, (r.virt + (r.end - r.start) - 1) / PGSIZE + 1)
             && Tables(mem', pd) ==
                Tables(mem, pd) + SlotsOf(r.virt / PGSIZE, (r.virt + (r.end - r.start) - 1) / PGSIZE)
             && MappedTo(mem', pd, r.virt / PGSIZE, (r.virt + (r.end - r.start) - 1) / PGSIZE + 1,
                         r.start / PGSIZE, r.perm)
    ensures Rows(mem', pd, data, k + 1)
  {
    hide Keeps, Lookup, Tables, SlotsOf, KernelEntry, MappedTo;
    RegionMapped(data, k, mem, owner, mem', owner', pd);
  }

  lemma RowsFree(data: nat, k: nat, mem: Memory, pd: nat)
    requires DataOk(data) && k < 4 && Rows(mem, pd, data, k)
    ensures var r := Kmap(data)[k];
            && KERNBASE <= r.virt && r.start < r.end
            && r.virt % PGSIZE == 0 && r.start % PGSIZE == 0 && r.end % PGSIZE == 0
            && r.virt + (r.end - r.start) <= WORD && r.end <= WORD
            && Vacant(mem, pd, r.virt / PGSIZE, (r.virt + (r.end - r.start) - 1) / PGSIZE)
  {
    hide Lookup, Tables, KernelEntry, RowSlots;
    RegionFree(data, k);
    var r := Kmap(data)[k];
    forall v: nat | r.virt / PGSIZE <= v <= (r.virt + (r.end - r.start) - 1) / PGSIZE
      ensures !Present(Lookup(mem, pd, v))
    {
      assert v < (r.virt + (r.end - r.start)) / PGSIZE;
    }
  }

  lemma RowsMade(data: nat, k: nat, mem: Memory, pd: nat, made: set<nat>)
    requires DataOk(data) && k < 4 && Rows(mem, pd, data, k)
    requires var r := Kmap(data)[k];
             exists v: nat :: r.virt / PGSIZE <= v <= (r.virt + (r.end - r.start) - 1) / PGSIZE
                && made == Tables(mem, pd) + Touched(r.virt / PGSIZE, v) && v / ENTRIES !in made
    ensures |made| < KTABLES
  {
    hide Lookup, KernelEntry, Tables, SlotsOf, Touched;
    var r := Kmap(data)[k];
    var first, last := r.virt / PGSIZE, (r.virt + (r.end - r.start) - 1) / PGSIZE;
    var v: nat :| first <= v <= last && made == Tables(mem, pd) + Touched(first, v) && v / ENTRIES !in made;
    TouchedMore(first, v, last);
    RowSlotsStep(data, k);
    TooFewTables(data, k, made);
  }

  lemma RowsDone(mem: Memory, pd: nat, data: nat)
    requires DataOk(data) && Rows(mem, pd, data, 4)
    ensures Tables(mem, pd) == KernelSlots() && |KernelSlots()| == KTABLES
    ensures forall v: nat :: v < PAGES ==> Lookup(mem, pd, v) == KernelEntry(data, 4, v)
  {
    hide Lookup, KernelEntry, Tables, RowSlots;
    RowSlotsAll(data);
    KernelSlotsCount();
  }

  // ---- mappages --------------------------------------------------------------------------

  /** The frames that mappages has taken over from its caller for the user pages of [first, v). */
  function MovedFrames(first: nat, v: nat, f0: nat): set<nat> {
    if v <= first then {}
    else MovedFrames(first, v - 1, f0) + if v - 1 < USERPAGES then {f0 + (v - 1 - first)} else {}
  }

  lemma {:induction false} NotMovedYet(first: nat, v: nat, f0: nat, f: nat)
    requires f >= f0 + (v - first) && first <= v
    ensures f !in MovedFrames(first, v, f0)
  {
    if v > first { NotMovedYet(first, v - 1, f0, f); }
  }

  /** The frame for page u when pages from first on go to frames from f0 on. */
  function FrameAt(first: nat, f0: nat, u: nat): nat
    requires first <= u
  {
    f0 + (u - first)
  }

  /** The caller holds a frame for every user page of [first, last]. */
  ghost predicate HoldsAll(owner: Owners, first: nat, last: nat, f0: nat) {
    forall u: nat :: first <= u <= last && u < USERPAGES ==> IsHeld(owner, FrameAt(first, f0, u))
  }

  /** Pages [first, v) of pd are mapped to frames from f0 on, pages [v, last] are not, and nothing else has
      changed since (mem0, owner0) but that pd may have more tables. */
  ghost predicate MapSoFar(mem0: Memory, owner0: Owners, mem: Memory, owner: Owners,
                           pd: nat, first: nat, v: nat, last: nat, f0: nat, perm: nat) {
    && Adds(owner0, owner, pd, 0, 0)
    && Extends(owner0 - MovedFrames(first, v, f0), owner)
    && Keeps(mem0, owner0 - MovedFrames(first, v, f0), mem, owner, pd, first, last + 1)
    && Vacant(mem, pd, v, last)
    && MappedTo(mem, pd, first, v, f0, perm)
    && Handed(mem0, mem, owner, pd, first, v, f0)
  }

  ghost predicate Vacant(mem: Memory, pd: nat, v: nat, last: nat) {
    forall u: nat :: v <= u <= last ==> !Present(Lookup(mem, pd, u))
  }

  ghost predicate MappedTo(mem: Memory, pd: nat, first: nat, v: nat, f0: nat, perm: nat) {
    forall u: nat :: first <= u < v ==>
      FrameAt(first, f0, u) < PAGES && perm < PGSIZE && Lookup(mem, pd, u) == Entry(FrameAt(first, f0, u), perm)
  }

  /** User pages [first, v) own their frames, with the contents the caller left there. */
  ghost predicate Handed(mem0: Memory, mem: Memory, owner: Owners, pd: nat, first: nat, v: nat, f0: nat) {
    forall u: nat :: first <= u < v && u < USERPAGES ==>
      var f := FrameAt(first, f0, u); IsUser(owner, f, pd, u) && mem[f] == mem0[f]
  }

  lemma MapStart(mem: Memory, owner: Owners, pd: nat, first: nat, last: nat, f0: nat, perm: nat)
    requires Vacant(mem, pd, first, last)
    ensures MapSoFar(mem, owner, mem, owner, pd, first, first, last, f0, perm)
  {
    hide Adds, Extends, Keeps, Lookup;
    assert owner - {} == owner;
    AddsRefl(owner, pd, 0, 0);
    ExtendsRefl(owner);
    KeepsRefl(mem, owner, pd, first, last + 1);
  }

  /** What the next round needs. */
  lemma MapReady(mem0: Memory, owner0: Owners, mem: Memory, owner: Owners, pd: nat, first: nat, v: nat, last: nat,
                 f0: nat, perm: nat)
    requires MapSoFar(mem0, owner0, mem, owner, pd, first, v, last, f0, perm) && first <= v <= last
    requires HoldsAll(owner0, first, last, f0) && IsDir(owner0, pd)
    ensures !Present(Lookup(mem, pd, v))
    ensures v < USERPAGES ==> IsHeld(owner, f0 + (v - first)) && mem[f0 + (v - first)] == mem0[f0 + (v - first)]
    ensures IsDir(owner, pd)
  {
    hide Lookup, Present, Adds, MappedTo, Handed, MovedFrames;
    DirNotMoved(owner0, pd, first, v, last, f0);
    if v < USERPAGES {
      var f := f0 + (v - first);
      assert f == FrameAt(first, f0, v) && IsHeld(owner0, f);
      NotMovedYet(first, v, f0, f);
    }
  }

  lemma {:induction false} DirNotMoved(owner0: Owners, pd: nat, first: nat, v: nat, last: nat, f0: nat)
    requires HoldsAll(owner0, first, last, f0) && IsDir(owner0, pd) && v <= last + 1
    ensures pd !in MovedFrames(first, v, f0)
  {
    if v > first {
      DirNotMoved(owner0, pd, first, v - 1, last, f0);
      if v - 1 < USERPAGES { assert IsHeld(owner0, FrameAt(first, f0, v - 1)); }
    }
  }

  /** Frames leave the caller's hands one by one. */
  lemma MovedOne(owner: Owners, first: nat, v: nat, f0: nat)
    requires first <= v
    ensures var gone := if v < USERPAGES then {f0 + (v - first)} else {};
            owner - MovedFrames(first, v, f0) - gone == owner - MovedFrames(first, v + 1, f0)
  {}

  lemma ExtendsLessBoth(owner: Owners, owner': Owners, gone: set<nat>)
    requires Extends(owner, owner')
    ensures Extends(owner - gone, owner' - gone)
  {}

  lemma AddsMoved(owner0: Owners, owner1: Owners, owner: Owners, pd: nat, gone: set<nat>)
    requires Adds(owner0, owner1, pd, 0, 0) && Adds(owner1, owner, pd, 0, 0) && Extends(owner1 - gone, owner)
    requires forall f <- gone :: f in owner1 && owner1[f].Held?
    ensures Adds(owner0, owner, pd, 0, 0)
  {}

  lemma MapNext(mem0: Memory, owner0: Owners, mem1: Memory, owner1: Owners, mem: Memory, owner: Owners,
                pd: nat, first: nat, v: nat, last: nat, f0: nat, perm: nat)
    requires MapSoFar(mem0, owner0, mem1, owner1, pd, first, v, last, f0, perm) && first <= v <= last < PAGES
    requires HoldsAll(owner0, first, last, f0) && IsDir(owner0, pd)
    requires f0 + (v - first) < PAGES && perm < PGSIZE && Lookup(mem, pd, v) == Entry(f0 + (v - first), perm)
    requires var gone := if v < USERPAGES then {f0 + (v - first)} else {};
             && Adds(owner1, owner, pd, 0, 0) && Extends(owner1 - gone, owner)
             && Keeps(mem1, owner1 - gone, mem, owner, pd, v, v + 1)
    requires v < USERPAGES ==>
               IsUser(owner, f0 + (v - first), pd, v) && mem[f0 + (v - first)] == mem1[f0 + (v - first)]
    ensures MapSoFar(mem0, owner0, mem, owner, pd, first, v + 1, last, f0, perm)
  {
    hide Adds, Extends, Keeps, Lookup, Present, MovedFrames, Vacant, MappedTo, Handed;
    var gone := if v < USERPAGES then {f0 + (v - first)} else {};
    var owner0' := owner0 - MovedFrames(first, v, f0);
    MapReady(mem0, owner0, mem1, owner1, pd, first, v, last, f0, perm);
    MovedOne(owner0, first, v, f0);
    ExtendsLessBoth(owner0', owner1, gone);
    ExtendsTrans(owner0' - gone, owner1 - gone, owner);
    AddsMoved(owner0, owner1, owner, pd, gone);
    KeepsLess(mem0, owner0', mem1, owner1, pd, first, last + 1, gone);
    KeepsWiden(mem1, owner1 - gone, mem, owner, pd, v, v + 1, first, last + 1);
    KeepsTrans(mem0, owner0' - gone, mem1, owner1 - gone, mem, owner, pd, first, last + 1);
    MapPages(mem1, owner1 - gone, mem, owner, pd, first, v, last, f0, perm);
    HandOver(mem0, mem1, owner1, mem, owner, pd, first, v, f0);
  }

  lemma MapPages(mem1: Memory, owner1: Owners, mem: Memory, owner: Owners, pd: nat, first: nat, v: nat, last: nat,
                 f0: nat, perm: nat)
    requires Keeps(mem1, owner1, mem, owner, pd, v, v + 1) && IsDir(owner1, pd) && first <= v <= last < PAGES
    requires Vacant(mem1, pd, v, last) && MappedTo(mem1, pd, first, v, f0, perm)
    requires f0 + (v - first) < PAGES && perm < PGSIZE && Lookup(mem, pd, v) == Entry(f0 + (v - first), perm)
    ensures Vacant(mem, pd, v + 1, last) && MappedTo(mem, pd, first, v + 1, f0, perm)
  {
    hide Keeps, Lookup, Present;
    forall u: nat | first <= u <= last && u != v ensures Lookup(mem, pd, u) == Lookup(mem1, pd, u) {
      KeepsLookup(mem1, owner1, mem, owner, pd, v, v + 1, pd, u);
    }
  }

  lemma HandOver(mem0: Memory, mem1: Memory, owner1: Owners, mem: Memory, owner: Owners, pd: nat, first: nat, v: nat,
                 f0: nat)
    requires Handed(mem0, mem1, owner1, pd, first, v, f0) && first <= v
    requires var gone := if v < USERPAGES then {f0 + (v - first)} else {};
             Keeps(mem1, owner1 - gone, mem, owner, pd, v, v + 1)
    requires v < USERPAGES ==>
               && IsUser(owner, f0 + (v - first), pd, v)
               && mem[f0 + (v - first)] == mem1[f0 + (v - first)] == mem0[f0 + (v - first)]
    ensures Handed(mem0, mem, owner, pd, first, v + 1, f0)
  {
    hide Lookup;
    forall u: nat | first <= u < v + 1 && u < USERPAGES
      ensures var f := FrameAt(first, f0, u); IsUser(owner, f, pd, u) && mem[f] == mem0[f]
    {
      var f := FrameAt(first, f0, u);
      if u < v { assert IsUser(owner1, f, pd, u); }
    }
  }

  lemma HoldsOne(owner: Owners, v: nat, f: nat)
    requires IsHeld(owner, f)
    ensures HoldsAll(owner, v * PGSIZE / PGSIZE, (v * PGSIZE + PGSIZE - 1) / PGSIZE, f * PGSIZE / PGSIZE)
  {
    assert FrameAt(v, f, v) == f;
  }

  /** For one page. */
  lemma MapSingle(mem0: Memory, owner0: Owners, mem: Memory, owner: Owners, pd: nat, v: nat, f: nat, perm: nat)
    requires MapSoFar(mem0, owner0, mem, owner, pd, v, v + 1, v, f, perm) && v < USERPAGES
    ensures Extends(owner0 - {f}, owner) && Keeps(mem0, owner0 - {f}, mem, owner, pd, v, v + 1)
    ensures Adds(owner0, owner, pd, 0, 0)
    ensures f < PAGES && perm < PGSIZE && Lookup(mem, pd, v) == Entry(f, perm) && IsUser(owner, f, pd, v)
    ensures mem[f] == mem0[f]
  {
    hide Lookup, Extends, Keeps, Adds;
    assert MovedFrames(v, v + 1, f) == {f} by { assert MovedFrames(v, v, f) == {}; }
    assert FrameAt(v, f, v) == f;
  }

  /** For a range in the kernel half. */
  lemma MapKernelRange(mem0: Memory, owner0: Owners, mem: Memory, owner: Owners, pd: nat, first: nat, v: nat,
                       last: nat, f0: nat, perm: nat)
    requires MapSoFar(mem0, owner0, mem, owner, pd, first, v, last, f0, perm) && USERPAGES <= first
    ensures Extends(owner0, owner) && Keeps(mem0, owner0, mem, owner, pd, first, last + 1)
    ensures Adds(owner0, owner, pd, 0, 0)
    ensures MappedTo(mem, pd, first, v, f0, perm)
  {
    hide Lookup, Extends, Keeps, Adds, MappedTo;
    NothingMoved(first, v, f0);
    assert owner0 - {} == owner0;
  }

  lemma {:induction false} NothingMoved(first: nat, v: nat, f0: nat)
    requires USERPAGES <= first
    ensures MovedFrames(first, v, f0) == {}
  {
    if v > first { NothingMoved(first, v - 1, f0); }
  }
}
