/** x86 two-level page tables as vm.c builds them in physical memory, and who owns each frame.
    Addresses are given by page: frame f is the physical page at f * PGSIZE, page v the virtual
    page at v * PGSIZE. */
module PagingSpec {

  const PGSIZE: nat := 4096
  const ENTRIES: nat := 1024
  const PAGES: nat := ENTRIES * ENTRIES
  const USERPAGES: nat := 0x80000   // KERNBASE / PGSIZE
  const KERNBASE: nat := 0x8000_0000
  const PHYSFRAMES: nat := 0xE000   // PHYSTOP / PGSIZE
  const WORD: nat := 0x1_0000_0000
  const PTE_P: nat := 1
  const PTE_W: nat := 2
  const PTE_U: nat := 4

  type Word = w: nat | w < WORD
  type Page = p: seq<Word> | |p| == ENTRIES witness seq(ENTRIES, i => 0)
  type Memory = m: seq<Page> | |m| == PHYSFRAMES witness NoMemory()

  function NoMemory(): (m: seq<Page>)
    ensures |m| == PHYSFRAMES
  {
    seq<Page>(PHYSFRAMES, i => ZeroPage())
  }

  function ZeroPage(): Page { seq(ENTRIES, i => 0) }

  /** PGROUNDUP, as a page number. */
  function PageUp(sz: nat): nat { (sz + PGSIZE - 1) / PGSIZE }

  // ---- Entries ---------------------------------------------------------------------------

  predicate Present(w: Word) { w % 2 == 1 }

  /** PTE_ADDR, as a frame number. */
  function FrameOf(w: Word): nat { w / PGSIZE }

  function FlagsOf(w: Word): nat { w % PGSIZE }

  /** perm | PTE_P. */
  function WithP(perm: nat): nat { if perm % 2 == 1 then perm else perm + 1 }

  /** pa | perm | PTE_P. */
  function Entry(f: nat, perm: nat): (w: Word)
    requires f < PAGES && perm < PGSIZE
    ensures Present(w) && FrameOf(w) == f && FlagsOf(w) == WithP(perm)
  {
    f * PGSIZE + WithP(perm)
  }

  /** The page table entry of page v under directory pd, 0 when there is no table for it. */
  function Lookup(mem: Memory, pd: nat, v: nat): Word {
    if pd < PHYSFRAMES && v < PAGES && Present(mem[pd][v / ENTRIES]) && FrameOf(mem[pd][v / ENTRIES]) < PHYSFRAMES
      then mem[FrameOf(mem[pd][v / ENTRIES])][v % ENTRIES] else 0
  }

  // ---- Ownership -------------------------------------------------------------------------

  /** What an allocated frame is for: a page directory, a page table of one, a user page of one, or
      in the hands of the code that allocated it. */
  datatype Use = Dir | Table(pd: nat, x: nat) | User(pd: nat, v: nat) | Held

  type Owners = map<nat, Use>

  predicate IsDir(owner: Owners, pd: nat) { pd in owner && owner[pd] == Dir }

  /** Frames the allocator manages: kinit1 and kinit2 cover [lo, PHYSFRAMES). */
  ghost predicate PartitionOk(lo: nat, free: seq<nat>, owner: Owners) {
    && 1 <= lo <= PHYSFRAMES
    && (forall f <- owner :: lo <= f < PHYSFRAMES)
    && (forall i :: 0 <= i < |free| ==> lo <= free[i] < PHYSFRAMES && free[i] !in owner)
    && (forall i, j :: 0 <= i < j < |free| ==> free[i] != free[j])
    && (forall f :: lo <= f < PHYSFRAMES ==> f in owner || f in free)
  }

  /** Present directory entries and tables correspond one to one, and grant every permission. */
  ghost predicate TablesOk(mem: Memory, owner: Owners) {
    && (forall pd: nat, x :: IsDir(owner, pd) && pd < PHYSFRAMES && 0 <= x < ENTRIES && Present(mem[pd][x]) ==>
          && FrameOf(mem[pd][x]) in owner && owner[FrameOf(mem[pd][x])] == Table(pd, x)
          && FlagsOf(mem[pd][x]) == PTE_P + PTE_W + PTE_U)
    && (forall f <- owner :: owner[f].Table? ==>
          IsDir(owner, owner[f].pd) && owner[f].pd < PHYSFRAMES && owner[f].x < ENTRIES &&
          Present(mem[owner[f].pd][owner[f].x]) && FrameOf(mem[owner[f].pd][owner[f].x]) == f)
  }

  /** Present user entries and user pages correspond one to one. */
  ghost predicate UsersOk(mem: Memory, owner: Owners) {
    && (forall pd: nat, v :: IsDir(owner, pd) && 0 <= v < USERPAGES && Present(Lookup(mem, pd, v)) ==>
          FrameOf(Lookup(mem, pd, v)) in owner && owner[FrameOf(Lookup(mem, pd, v))] == User(pd, v))
    && (forall f <- owner :: owner[f].User? ==>
          IsDir(owner, owner[f].pd) && owner[f].v < USERPAGES &&
          Present(Lookup(mem, owner[f].pd, owner[f].v)) && FrameOf(Lookup(mem, owner[f].pd, owner[f].v)) == f)
  }

  ghost predicate Owned(lo: nat, mem: Memory, free: seq<nat>, owner: Owners) {
    PartitionOk(lo, free, owner) && TablesOk(mem, owner) && UsersOk(mem, owner)
  }

  // ---- What an operation on pages [from, to) of pd leaves alone ---------------------------

  ghost predicate Keeps(mem: Memory, owner: Owners, mem': Memory, owner': Owners, pd: nat, from: nat, to: nat) {
    && (forall f <- owner :: !(owner[f].User? && owner[f].pd == pd && from <= owner[f].v < to) ==>
          f in owner' && owner'[f] == owner[f])
    && (forall f <- owner ::
          f < PHYSFRAMES && (owner[f].Held? || (owner[f].User? && !(owner[f].pd == pd && from <= owner[f].v < to))) ==>
            mem'[f] == mem[f])
    && (forall p: nat, v: nat {:trigger Lookup(mem', p, v)} ::
          IsDir(owner, p) && v < PAGES && !(p == pd && from <= v < to) ==> Lookup(mem', p, v) == Lookup(mem, p, v))
  }

  lemma KeepsTrans(mem: Memory, owner: Owners, mem1: Memory, owner1: Owners, mem2: Memory, owner2: Owners, pd: nat,
                   from: nat, to: nat)
    requires Keeps(mem, owner, mem1, owner1, pd, from, to) && Keeps(mem1, owner1, mem2, owner2, pd, from, to)
    ensures Keeps(mem, owner, mem2, owner2, pd, from, to)
  {
    hide Lookup;
    assert forall p :: IsDir(owner, p) ==> IsDir(owner1, p);
  }

  lemma KeepsWiden(mem: Memory, owner: Owners, mem': Memory, owner': Owners, pd: nat, from: nat, to: nat, from': nat,
                   to': nat)
    requires Keeps(mem, owner, mem', owner', pd, from, to) && (from >= to || (from' <= from && to <= to'))
    ensures Keeps(mem, owner, mem', owner', pd, from', to')
  {
    hide Lookup;
  }

  lemma KeepsLookup(mem: Memory, owner: Owners, mem': Memory, owner': Owners, pd: nat, from: nat, to: nat, p: nat,
                    v: nat)
    requires Keeps(mem, owner, mem', owner', pd, from, to) && IsDir(owner, p) && v < PAGES
    requires !(p == pd && from <= v < to)
    ensures IsDir(owner', p) && Lookup(mem', p, v) == Lookup(mem, p, v)
  {
    hide Lookup;
  }

  lemma KeepsLess(mem: Memory, owner: Owners, mem': Memory, owner': Owners, pd: nat, from: nat, to: nat, gone: set<nat>)
    requires Keeps(mem, owner, mem', owner', pd, from, to)
    ensures Keeps(mem, owner - gone, mem', owner' - gone, pd, from, to)
  {
    hide Lookup;
    assert forall p :: IsDir(owner - gone, p) ==> IsDir(owner, p);
  }

  lemma KeepsHeld(mem: Memory, owner: Owners, mem': Memory, owner': Owners, pd: nat, from: nat, to: nat, f: nat)
    requires Keeps(mem, owner, mem', owner', pd, from, to) && f in owner && owner[f].Held? && f < PHYSFRAMES
    ensures f in owner' && owner'[f].Held? && mem'[f] == mem[f]
  {
    hide Lookup;
  }

  lemma KeepsNothing(mem: Memory, owner: Owners, mem': Memory, owner': Owners, pd: nat, pd': nat, from': nat, to': nat)
    requires Keeps(mem, owner, mem', owner', pd, 0, 0)
    ensures Keeps(mem, owner, mem', owner', pd', from', to')
  {
    hide Lookup;
  }

  lemma KeepsMore(mem: Memory, owner: Owners, mem': Memory, owner': Owners, pd: nat, from: nat, to: nat, f: nat,
                  use: Use)
    requires Keeps(mem, owner, mem', owner', pd, from, to) && f !in owner
    ensures Keeps(mem, owner, mem', owner'[f := use], pd, from, to)
  {
    hide Lookup;
  }

  /** The only frames taken into use are tables of pd and its user pages in [from, to). */
  ghost predicate Adds(owner: Owners, owner': Owners, pd: nat, from: nat, to: nat) {
    forall f <- owner' ::
      || f in owner || (owner'[f].Table? && owner'[f].pd == pd)
      || (owner'[f].User? && owner'[f].pd == pd && from <= owner'[f].v < to)
  }

  ghost predicate Extends(owner: Owners, owner': Owners) {
    forall f <- owner :: f in owner' && owner'[f] == owner[f]
  }

  // ---- The kernel's own mappings (kmap) ----------------------------------------------------

  const EXTMEM: nat := 0x10_0000
  const DEVSPACE: nat := 0xFE00_0000

  /** One row of kmap; `end` is the address after the last byte. */
  datatype Region = Region(virt: nat, start: nat, end: nat, perm: nat)

  /** `data` is V2P of the linker symbol of that name, page aligned. */
  predicate DataOk(data: nat) { EXTMEM < data < PHYSFRAMES * PGSIZE && data % PGSIZE == 0 }

  function Kmap(data: nat): (rs: seq<Region>)
    requires DataOk(data)
    ensures |rs| == 4
  {
    [ Region(KERNBASE, 0, EXTMEM, PTE_W),
      Region(KERNBASE + EXTMEM, EXTMEM, data, 0),
      Region(KERNBASE + data, data, PHYSFRAMES * PGSIZE, PTE_W),
      Region(DEVSPACE, DEVSPACE, WORD, PTE_W) ]
  }

  /** The entry of page v once the first k regions are mapped. */
  function KernelEntry(data: nat, k: nat, v: nat): Word
    requires DataOk(data) && k <= 4 && v < PAGES
  {
    if k == 0 then 0
    else
      var r := Kmap(data)[k - 1];
      if r.virt / PGSIZE <= v < (r.virt + (r.end - r.start)) / PGSIZE
        then Entry(r.start / PGSIZE + (v - r.virt / PGSIZE), r.perm)
        else KernelEntry(data, k - 1, v)
  }

  /** What the kernel half is for, page by page. The page of KERNBASE + pa maps frame pa / PGSIZE for every physical
      address below PHYSTOP, devices map themselves, nothing else is there; the user has no access, and only
      what lies between EXTMEM and the kernel's data is read-only. */
  predicate KernelPage(data: nat, v: nat, w: Word) {
    if USERPAGES <= v < USERPAGES + PHYSFRAMES then
      var pa := v * PGSIZE - KERNBASE;
      && Present(w) && FrameOf(w) == pa / PGSIZE
      && FlagsOf(w) == if EXTMEM <= pa < data then PTE_P else PTE_P + PTE_W
    else if DEVSPACE <= v * PGSIZE then
      Present(w) && FrameOf(w) == v && FlagsOf(w) == PTE_P + PTE_W
    else !Present(w)
  }

  lemma KernelMap(data: nat, v: nat)
    requires DataOk(data) && v < PAGES
    ensures KernelPage(data, v, KernelEntry(data, 4, v))
  {
    var e1, e2, e3 := KernelEntry(data, 1, v), KernelEntry(data, 2, v), KernelEntry(data, 3, v);
    assert KernelEntry(data, 0, v) == 0;
    assert e1 == if 0x80000 <= v < 0x80100 then Entry(v - 0x80000, PTE_W) else 0;
    assert e2 == if 0x80100 <= v < 0x80000 + data / PGSIZE then Entry(v - 0x80000, 0) else e1;
    assert e3 == if 0x80000 + data / PGSIZE <= v < 0x8E000 then Entry(v - 0x80000, PTE_W) else e2;
  }

  // ---- Counting tables ---------------------------------------------------------------------

  /** The directory slots of pd that have a table. */
  function Tables(mem: Memory, pd: nat): set<nat> {
    if pd < PHYSFRAMES then set x: nat | x < ENTRIES && Present(mem[pd][x]) else {}
  }

  /** Slots from that of page v to that of page w. */
  function SlotsOf(v: nat, w: nat): set<nat> { Slots(v / ENTRIES, w / ENTRIES + 1) }

  predicate Between(a: nat, x: nat, b: nat) { a <= x < b }

  function Slots(a: nat, b: nat): set<nat> { set x: nat | a <= x < b && Between(a, x, b) }

  lemma {:induction false} SlotsCount(a: nat, b: nat)
    requires a <= b
    ensures |Slots(a, b)| == b - a
    decreases b - a
  {
    if a == b {
      assert Slots(a, b) == {};
    } else {
      SlotsCount(a, b - 1);
      assert Slots(a, b) == Slots(a, b - 1) + {b - 1};
    }
  }

  /** Tables an address space has for the kernel: 56 for physical memory and 8 for devices. */
  const KTABLES: nat := 64

  function KernelSlots(): set<nat> { Slots(512, 568) + Slots(1016, 1024) }

  lemma KernelSlotsCount()
    ensures |KernelSlots()| == KTABLES
  {
    SlotsCount(512, 568);
    SlotsCount(1016, 1024);
    assert Slots(512, 568) !! Slots(1016, 1024);
  }
}
