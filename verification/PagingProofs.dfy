/** How one store into a page directory or page table changes the address spaces and the ownership
    of frames. */
module PagingProofs {
  import opened PagingSpec

  /** Replace one word of one page. */
  function SetWord(mem: Memory, f: nat, x: nat, w: Word): Memory
    requires f < PHYSFRAMES && x < ENTRIES
  {
    mem[f := mem[f][x := w]]
  }

  function SetPage(mem: Memory, f: nat, p: Page): Memory
    requires f < PHYSFRAMES
  {
    mem[f := p]
  }

  /** A frame that is neither a directory nor a table plays no part in any lookup. */
  lemma LookupData(lo: nat, mem: Memory, free: seq<nat>, owner: Owners, f: nat, p: Page, pd: nat, v: nat)
    requires Owned(lo, mem, free, owner) && f < PHYSFRAMES && IsDir(owner, pd) && v < PAGES
    requires f in owner ==> owner[f].User? || owner[f].Held?
    ensures Lookup(SetPage(mem, f, p), pd, v) == Lookup(mem, pd, v)
  {
    hide UsersOk;
    var x := v / ENTRIES;
    if Present(mem[pd][x]) {
      assert FrameOf(mem[pd][x]) in owner && owner[FrameOf(mem[pd][x])] == Table(pd, x);
    }
  }

  /** Writing the contents of a data page, or of a free one. */
  lemma DataPage(lo: nat, mem: Memory, free: seq<nat>, owner: Owners, f: nat, p: Page)
    requires Owned(lo, mem, free, owner) && f < PHYSFRAMES
    requires f in owner ==> owner[f].User? || owner[f].Held?
    ensures Owned(lo, SetPage(mem, f, p), free, owner)
  {
    var mem' := SetPage(mem, f, p);
    forall pd: nat, v: nat | IsDir(owner, pd) && v < PAGES ensures Lookup(mem', pd, v) == Lookup(mem, pd, v) {
      LookupData(lo, mem, free, owner, f, p, pd, v);
    }
    hide Lookup;
  }

  /** *pde = V2P(pgtab) | PTE_P | PTE_W | PTE_U, with pgtab a zeroed page. */
  function LinkTable(mem: Memory, pd: nat, x: nat, f: nat): Memory
    requires pd < PHYSFRAMES && f < PHYSFRAMES && x < ENTRIES
  {
    SetWord(SetPage(mem, f, ZeroPage()), pd, x, Entry(f, PTE_P + PTE_W + PTE_U))
  }

  lemma LinkTableLookup(lo: nat, mem: Memory, free: seq<nat>, owner: Owners, pd: nat, x: nat, f: nat, p: nat, v: nat)
    requires Owned(lo, mem, free, owner) && IsDir(owner, pd) && pd < PHYSFRAMES && x < ENTRIES && !Present(mem[pd][x])
    requires f in owner && owner[f].Held? && f < PHYSFRAMES
    requires IsDir(owner, p) && v < PAGES
    ensures Lookup(LinkTable(mem, pd, x, f), p, v) == Lookup(mem, p, v)
  {
    hide UsersOk;
    var y := v / ENTRIES;
    if Present(mem[p][y]) {
      assert FrameOf(mem[p][y]) in owner && owner[FrameOf(mem[p][y])] == Table(p, y);
    }
  }

  lemma LinkTableOwned(lo: nat, mem: Memory, free: seq<nat>, owner: Owners, pd: nat, x: nat, f: nat)
    requires Owned(lo, mem, free, owner) && IsDir(owner, pd) && pd < PHYSFRAMES && x < ENTRIES && !Present(mem[pd][x])
    requires f in owner && owner[f].Held? && f < PHYSFRAMES
    ensures Owned(lo, LinkTable(mem, pd, x, f), free, owner[f := Table(pd, x)])
  {
    var mem', owner' := LinkTable(mem, pd, x, f), owner[f := Table(pd, x)];
    LinkTableTables(mem, owner, pd, x, f);
    forall p: nat, v: nat | IsDir(owner, p) && v < PAGES ensures Lookup(mem', p, v) == Lookup(mem, p, v) {
      LinkTableLookup(lo, mem, free, owner, pd, x, f, p, v);
    }
    hide Lookup, TablesOk;
    assert forall p :: IsDir(owner', p) <==> IsDir(owner, p);
  }

  lemma LinkTableTables(mem: Memory, owner: Owners, pd: nat, x: nat, f: nat)
    requires TablesOk(mem, owner) && IsDir(owner, pd) && pd < PHYSFRAMES && x < ENTRIES && !Present(mem[pd][x])
    requires f in owner && owner[f].Held? && f < PHYSFRAMES
    ensures TablesOk(LinkTable(mem, pd, x, f), owner[f := Table(pd, x)])
  {
    hide Present, FrameOf;
    var mem' := LinkTable(mem, pd, x, f);
    assert forall p: nat, y :: IsDir(owner, p) && p < PHYSFRAMES && 0 <= y < ENTRIES ==>
             mem'[p][y] == if p == pd && y == x then Entry(f, PTE_P + PTE_W + PTE_U) else mem[p][y];
  }

  // ---- One page table entry --------------------------------------------------------------

  /** The table that holds the entry of page v. */
  predicate HasTable(mem: Memory, owner: Owners, pd: nat, v: nat) {
    && IsDir(owner, pd) && pd < PHYSFRAMES && v < PAGES && Present(mem[pd][v / ENTRIES])
    && FrameOf(mem[pd][v / ENTRIES]) < PHYSFRAMES
  }

  /** *pte = w. */
  function SetPte(mem: Memory, pd: nat, v: nat, w: Word): Memory
    requires pd < PHYSFRAMES && v < PAGES && FrameOf(mem[pd][v / ENTRIES]) < PHYSFRAMES
  {
    SetWord(mem, FrameOf(mem[pd][v / ENTRIES]), v % ENTRIES, w)
  }

  lemma SetPteLookup(mem: Memory, owner: Owners, pd: nat, v: nat, w: Word, p: nat, u: nat)
    requires TablesOk(mem, owner) && HasTable(mem, owner, pd, v)
    requires IsDir(owner, p) && u < PAGES
    ensures Lookup(SetPte(mem, pd, v, w), p, u) == if p == pd && u == v then w else Lookup(mem, p, u)
  {
    hide Present;
    var y := u / ENTRIES;
    var t := FrameOf(mem[pd][v / ENTRIES]);
    assert t in owner && owner[t] == Table(pd, v / ENTRIES);
    if p < PHYSFRAMES && Present(mem[p][y]) {
      assert FrameOf(mem[p][y]) in owner && owner[FrameOf(mem[p][y])] == Table(p, y);
    }
  }

  lemma SetPteTables(mem: Memory, owner: Owners, pd: nat, v: nat, w: Word)
    requires TablesOk(mem, owner) && HasTable(mem, owner, pd, v)
    ensures TablesOk(SetPte(mem, pd, v, w), owner)
  {
    hide Present;
    var t := FrameOf(mem[pd][v / ENTRIES]);
    assert t in owner && owner[t] == Table(pd, v / ENTRIES);
    var mem' := SetPte(mem, pd, v, w);
    assert forall p: nat :: IsDir(owner, p) && p < PHYSFRAMES ==> mem'[p] == mem[p];
  }

  lemma TablesUse(mem: Memory, owner: Owners, f: nat, use: Use)
    requires TablesOk(mem, owner) && f in owner && (owner[f].User? || owner[f].Held?) && (use.User? || use.Held?)
    ensures TablesOk(mem, owner[f := use])
  {
    hide Present, FrameOf;
    assert forall p :: IsDir(owner[f := use], p) <==> IsDir(owner, p);
  }

  /** Every lookup but one is unchanged. */
  lemma SetPteAll(mem: Memory, owner: Owners, pd: nat, v: nat, w: Word)
    requires TablesOk(mem, owner) && HasTable(mem, owner, pd, v)
    ensures forall p: nat, u: nat {:trigger Lookup(SetPte(mem, pd, v, w), p, u)} :: IsDir(owner, p) && u < PAGES ==>
              Lookup(SetPte(mem, pd, v, w), p, u) == if p == pd && u == v then w else Lookup(mem, p, u)
  {
    forall p: nat, u: nat | IsDir(owner, p) && u < PAGES
      ensures Lookup(SetPte(mem, pd, v, w), p, u) == if p == pd && u == v then w else Lookup(mem, p, u)
    {
      SetPteLookup(mem, owner, pd, v, w, p, u);
    }
  }

  /** mappages of one user page onto a frame the caller holds. */
  lemma MapUser(lo: nat, mem: Memory, free: seq<nat>, owner: Owners, pd: nat, v: nat, f: nat, w: Word)
    requires Owned(lo, mem, free, owner) && HasTable(mem, owner, pd, v) && v < USERPAGES && !Present(Lookup(mem, pd, v))
    requires f in owner && owner[f].Held? && Present(w) && FrameOf(w) == f
    ensures Owned(lo, SetPte(mem, pd, v, w), free, owner[f := User(pd, v)])
  {
    SetPteTables(mem, owner, pd, v, w);
    TablesUse(SetPte(mem, pd, v, w), owner, f, User(pd, v));
    SetPteAll(mem, owner, pd, v, w);
    hide Lookup, SetPte, TablesOk, Present;
    assert forall p :: IsDir(owner[f := User(pd, v)], p) <==> IsDir(owner, p);
  }

  /** mappages of one kernel page: no frame changes hands. */
  lemma MapKernel(lo: nat, mem: Memory, free: seq<nat>, owner: Owners, pd: nat, v: nat, w: Word)
    requires Owned(lo, mem, free, owner) && HasTable(mem, owner, pd, v) && USERPAGES <= v
    ensures Owned(lo, SetPte(mem, pd, v, w), free, owner)
  {
    SetPteTables(mem, owner, pd, v, w);
    SetPteAll(mem, owner, pd, v, w);
    hide Lookup, SetPte, TablesOk, Present;
  }

  /** Clearing the entry of a user page: its frame is no longer referred to. */
  lemma UnmapUser(lo: nat, mem: Memory, free: seq<nat>, owner: Owners, pd: nat, v: nat)
    requires Owned(lo, mem, free, owner) && HasTable(mem, owner, pd, v) && v < USERPAGES && Present(Lookup(mem, pd, v))
    ensures var f := FrameOf(Lookup(mem, pd, v));
            && f in owner && owner[f] == User(pd, v) && lo <= f < PHYSFRAMES
            && Owned(lo, SetPte(mem, pd, v, 0), free, owner[f := Held])
  {
    var f := FrameOf(Lookup(mem, pd, v));
    SetPteTables(mem, owner, pd, v, 0);
    TablesUse(SetPte(mem, pd, v, 0), owner, f, Held);
    SetPteAll(mem, owner, pd, v, 0);
    hide Lookup, SetPte, TablesOk;
    assert forall p :: IsDir(owner[f := Held], p) <==> IsDir(owner, p);
  }

  // ---- Frames between free list and owner ------------------------------------------------

  /** kalloc. */
  lemma Take(lo: nat, mem: Memory, free: seq<nat>, owner: Owners)
    requires Owned(lo, mem, free, owner) && free != []
    ensures free[0] !in owner && lo <= free[0] < PHYSFRAMES
    ensures Owned(lo, mem, free[1..], owner[free[0] := Held])
  {
    var f := free[0];
    var owner' := owner[f := Held];
    assert forall p :: IsDir(owner', p) <==> IsDir(owner, p);
    hide Lookup, Present, FrameOf;
    forall g | lo <= g < PHYSFRAMES ensures g in owner' || g in free[1..] {
      if g !in owner && g != f { assert g in free && free == [f] + free[1..]; }
    }
  }

  /** kfree of a frame that nothing refers to. */
  lemma Give(lo: nat, mem: Memory, free: seq<nat>, owner: Owners, f: nat)
    requires Owned(lo, mem, free, owner) && f in owner && owner[f].Held?
    ensures Owned(lo, mem, [f] + free, owner - {f})
  {
    assert forall p :: IsDir(owner - {f}, p) <==> IsDir(owner, p);
    hide Lookup, Present, FrameOf;
  }

  /** A zeroed page becomes a page directory. */
  lemma NewDir(lo: nat, mem: Memory, free: seq<nat>, owner: Owners, f: nat)
    requires Owned(lo, mem, free, owner) && f in owner && owner[f].Held? && f < PHYSFRAMES
    requires mem[f] == ZeroPage()
    ensures Owned(lo, mem, free, owner[f := Dir])
    ensures forall v :: Lookup(mem, f, v) == 0
  {
    assert forall x :: 0 <= x < ENTRIES ==> !Present(mem[f][x]);
    var owner' := owner[f := Dir];
    forall p: nat ensures IsDir(owner', p) <==> (p == f || IsDir(owner, p)) {}
  }

  // ---- What stays ------------------------------------------------------------------------

  /** A frame just taken from the free list becomes a table: no lookup changes. */
  lemma LinkTableKeeps(lo: nat, mem: Memory, free: seq<nat>, owner: Owners, pd: nat, x: nat, f: nat)
    requires Owned(lo, mem, free, owner[f := Held]) && f !in owner && f < PHYSFRAMES
    requires IsDir(owner, pd) && pd < PHYSFRAMES && x < ENTRIES && !Present(mem[pd][x])
    ensures Keeps(mem, owner, LinkTable(mem, pd, x, f), owner[f := Table(pd, x)], pd, 0, 0)
  {
    var mem' := LinkTable(mem, pd, x, f);
    forall p: nat, v: nat | IsDir(owner, p) && v < PAGES ensures Lookup(mem', p, v) == Lookup(mem, p, v) {
      assert IsDir(owner[f := Held], p);
      LinkTableLookup(lo, mem, free, owner[f := Held], pd, x, f, p, v);
    }
    hide Lookup, TablesOk, UsersOk;
  }

  lemma KeepsRefl(mem: Memory, owner: Owners, pd: nat, from: nat, to: nat)
    ensures Keeps(mem, owner, mem, owner, pd, from, to)
  {}

  /** The store into the table of page v, whatever else `owner'` adds. */
  lemma SetPteKeeps(lo: nat, mem: Memory, free: seq<nat>, owner: Owners, pd: nat, v: nat, w: Word, f: nat, use: Use)
    requires Owned(lo, mem, free, owner) && HasTable(mem, owner, pd, v) && (f in owner ==> !owner[f].Dir?)
    ensures Keeps(mem, owner - {f}, SetPte(mem, pd, v, w), owner[f := use], pd, v, v + 1)
    ensures f !in owner ==> Keeps(mem, owner, SetPte(mem, pd, v, w), owner, pd, v, v + 1)
  {
    SetPteAll(mem, owner, pd, v, w);
    var t := FrameOf(mem[pd][v / ENTRIES]);
    assert t in owner && owner[t] == Table(pd, v / ENTRIES);
    assert forall p :: IsDir(owner - {f}, p) ==> IsDir(owner, p);
    hide Lookup, TablesOk, UsersOk;
  }

  lemma PlainKeeps(lo: nat, mem: Memory, free: seq<nat>, owner: Owners, pd: nat, v: nat, w: Word)
    requires Owned(lo, mem, free, owner) && HasTable(mem, owner, pd, v)
    ensures Keeps(mem, owner, SetPte(mem, pd, v, w), owner, pd, v, v + 1)
  {
    SetPteAll(mem, owner, pd, v, w);
    var t := FrameOf(mem[pd][v / ENTRIES]);
    assert t in owner && owner[t] == Table(pd, v / ENTRIES);
    hide Lookup, TablesOk, UsersOk;
  }

  /** Writing a page that `owner` does not list, or that the operation may change. */
  lemma PageKeeps(lo: nat, mem: Memory, free: seq<nat>, owner: Owners, f: nat, p: Page, pd: nat, from: nat, to: nat)
    requires Owned(lo, mem, free, owner) && f < PHYSFRAMES
    requires f in owner ==> owner[f].User? && owner[f].pd == pd && from <= owner[f].v < to
    ensures Keeps(mem, owner, SetPage(mem, f, p), owner, pd, from, to)
  {
    forall q: nat, v: nat | IsDir(owner, q) && v < PAGES ensures Lookup(SetPage(mem, f, p), q, v) == Lookup(mem, q, v) {
      LookupData(lo, mem, free, owner, f, p, q, v);
    }
    hide Lookup, TablesOk, UsersOk;
  }

  // ---- Removing user pages ---------------------------------------------------------------

  /** The owners left when pages [from, to) of pd are gone. */
  function Cut(owner: Owners, pd: nat, from: nat, to: nat): Owners {
    map f | f in owner && !(owner[f].User? && owner[f].pd == pd && from <= owner[f].v < to) :: owner[f]
  }

  lemma CutAbsent(mem: Memory, owner: Owners, owner0: Owners, pd: nat, from: nat, v: nat)
    requires UsersOk(mem, owner) && owner == Cut(owner0, pd, from, v) && from <= v && !Present(Lookup(mem, pd, v))
    ensures Cut(owner0, pd, from, v + 1) == owner
  {
    hide Lookup;
    forall f <- owner0 ensures f in owner ==> !(owner0[f].User? && owner0[f].pd == pd && owner0[f].v == v) {
      if f in owner { assert owner[f].User? ==> Present(Lookup(mem, owner[f].pd, owner[f].v)); }
    }
  }

  lemma CutPresent(mem: Memory, owner: Owners, owner0: Owners, pd: nat, from: nat, v: nat)
    requires UsersOk(mem, owner) && owner == Cut(owner0, pd, from, v) && from <= v < USERPAGES && IsDir(owner, pd)
    requires Present(Lookup(mem, pd, v))
    ensures Cut(owner0, pd, from, v + 1) == owner - {FrameOf(Lookup(mem, pd, v))}
  {
    hide Lookup;
    var g := FrameOf(Lookup(mem, pd, v));
    assert g in owner && owner[g] == User(pd, v);
    forall f <- owner ensures owner[f] == User(pd, v) ==> f == g {
      assert owner[f].User? ==> FrameOf(Lookup(mem, owner[f].pd, owner[f].v)) == f;
    }
  }

  /** kfree(v); *pte = 0; as deallocuvm orders them. */
  function Unmapped(mem: Memory, pd: nat, v: nat, f: nat, junk: Page): Memory
    requires pd < PHYSFRAMES && v < PAGES && FrameOf(mem[pd][v / ENTRIES]) < PHYSFRAMES && f < PHYSFRAMES && f != pd
  {
    SetPte(SetPage(mem, f, junk), pd, v, 0)
  }

  lemma UnmapFree(lo: nat, mem: Memory, free: seq<nat>, owner: Owners, pd: nat, v: nat, junk: Page)
    requires Owned(lo, mem, free, owner) && HasTable(mem, owner, pd, v) && v < USERPAGES && Present(Lookup(mem, pd, v))
    ensures var f := FrameOf(Lookup(mem, pd, v));
            && f in owner && owner[f] == User(pd, v) && lo <= f < PHYSFRAMES && f != pd && f !in free
            && Owned(lo, Unmapped(mem, pd, v, f, junk), [f] + free, owner - {f})
            && Keeps(mem, owner, Unmapped(mem, pd, v, f, junk), owner - {f}, pd, v, v + 1)
            && !Present(Lookup(Unmapped(mem, pd, v, f, junk), pd, v))
  {
    UnmapUser(lo, mem, free, owner, pd, v);
    var f := FrameOf(Lookup(mem, pd, v));
    var owner1 := owner[f := Held];
    var mem1 := SetPte(mem, pd, v, 0);
    DataPage(lo, mem1, free, owner1, f, junk);
    Give(lo, SetPage(mem1, f, junk), free, owner1, f);
    var t := FrameOf(mem[pd][v / ENTRIES]);
    assert t in owner && owner[t] == Table(pd, v / ENTRIES);
    assert Unmapped(mem, pd, v, f, junk) == SetPage(mem1, f, junk);
    assert owner1 - {f} == owner - {f};
    UnmapKeeps(lo, mem, free, owner, pd, v, junk);
  }

  lemma UnmapKeeps(lo: nat, mem: Memory, free: seq<nat>, owner: Owners, pd: nat, v: nat, junk: Page)
    requires Owned(lo, mem, free, owner) && HasTable(mem, owner, pd, v) && v < USERPAGES && Present(Lookup(mem, pd, v))
    ensures var f := FrameOf(Lookup(mem, pd, v));
            && f < PHYSFRAMES && f != pd
            && Keeps(mem, owner, Unmapped(mem, pd, v, f, junk), owner - {f}, pd, v, v + 1)
            && !Present(Lookup(Unmapped(mem, pd, v, f, junk), pd, v))
  {
    var f := FrameOf(Lookup(mem, pd, v));
    assert f in owner && owner[f] == User(pd, v);
    PageKeeps(lo, mem, free, owner, f, junk, pd, v, v + 1);
    DataPage(lo, mem, free, owner, f, junk);
    var mem1 := SetPage(mem, f, junk);
    assert mem1[pd] == mem[pd];
    PlainKeeps(lo, mem1, free, owner, pd, v, 0);
    SetPteLookup(mem1, owner, pd, v, 0, pd, v);
    KeepsTrans(mem, owner, mem1, owner, SetPte(mem1, pd, v, 0), owner, pd, v, v + 1);
    KeepsDrop(mem, owner, SetPte(mem1, pd, v, 0), owner, pd, v, v + 1, f);
  }

  lemma KeepsDrop(mem: Memory, owner: Owners, mem': Memory, owner': Owners, pd: nat, from: nat, to: nat, f: nat)
    requires Keeps(mem, owner, mem', owner', pd, from, to)
    requires f in owner ==> owner[f].User? && owner[f].pd == pd && from <= owner[f].v < to
    ensures Keeps(mem, owner, mem', owner' - {f}, pd, from, to)
  {
    hide Lookup;
  }

  // ---- mappages, one page ----------------------------------------------------------------

  lemma SetPteNotFree(lo: nat, mem: Memory, free: seq<nat>, owner: Owners, pd: nat, v: nat, w: Word)
    requires Owned(lo, mem, free, owner) && HasTable(mem, owner, pd, v)
    ensures forall i :: 0 <= i < |free| && free[i] < PHYSFRAMES ==> SetPte(mem, pd, v, w)[free[i]] == mem[free[i]]
    ensures Lookup(SetPte(mem, pd, v, w), pd, v) == w
    ensures forall f :: f in owner && !owner[f].Table? && f < PHYSFRAMES ==> SetPte(mem, pd, v, w)[f] == mem[f]
  {
    SetPteLookup(mem, owner, pd, v, w, pd, v);
    var t := FrameOf(mem[pd][v / ENTRIES]);
    assert t in owner && owner[t] == Table(pd, v / ENTRIES);
    hide TablesOk, UsersOk, Lookup;
  }

  /** After walkpgdir has found or made the table. */
  lemma MapUserStep(lo: nat, mem0: Memory, owner0: Owners, mem: Memory, free: seq<nat>, owner: Owners, pd: nat,
                    v: nat, f: nat, w: Word)
    requires Keeps(mem0, owner0, mem, owner, pd, 0, 0) && f in owner0 && owner0[f].Held? && f < PHYSFRAMES
    requires Owned(lo, mem, free, owner) && HasTable(mem, owner, pd, v) && v < USERPAGES && !Present(Lookup(mem, pd, v))
    requires Present(w) && FrameOf(w) == f
    ensures Owned(lo, SetPte(mem, pd, v, w), free, owner[f := User(pd, v)])
    ensures Keeps(mem0, owner0 - {f}, SetPte(mem, pd, v, w), owner[f := User(pd, v)], pd, v, v + 1)
    ensures SetPte(mem, pd, v, w)[f] == mem0[f]
  {
    hide Owned, Keeps, Lookup, SetPte;
    KeepsHeld(mem0, owner0, mem, owner, pd, 0, 0, f);
    SetPteNotFree(lo, mem, free, owner, pd, v, w);
    MapUser(lo, mem, free, owner, pd, v, f, w);
    SetPteKeeps(lo, mem, free, owner, pd, v, w, f, User(pd, v));
    KeepsLess(mem0, owner0, mem, owner, pd, 0, 0, {f});
    KeepsWiden(mem0, owner0 - {f}, mem, owner - {f}, pd, 0, 0, v, v + 1);
    KeepsTrans(mem0, owner0 - {f}, mem, owner - {f}, SetPte(mem, pd, v, w), owner[f := User(pd, v)], pd, v, v + 1);
  }

  lemma MapKernelStep(lo: nat, mem0: Memory, owner0: Owners, mem: Memory, free: seq<nat>, owner: Owners, pd: nat,
                      v: nat, w: Word)
    requires Keeps(mem0, owner0, mem, owner, pd, 0, 0)
    requires Owned(lo, mem, free, owner) && HasTable(mem, owner, pd, v) && USERPAGES <= v
    ensures Owned(lo, SetPte(mem, pd, v, w), free, owner)
    ensures Keeps(mem0, owner0, SetPte(mem, pd, v, w), owner, pd, v, v + 1)
  {
    hide Owned, Keeps, SetPte;
    MapKernel(lo, mem, free, owner, pd, v, w);
    PlainKeeps(lo, mem, free, owner, pd, v, w);
    KeepsWiden(mem0, owner0, mem, owner, pd, 0, 0, v, v + 1);
    KeepsTrans(mem0, owner0, mem, owner, SetPte(mem, pd, v, w), owner, pd, v, v + 1);
  }

  // ---- Taking an address space apart -----------------------------------------------------

  /** Nothing of pd's is left: not the directory, no table, no user page. */
  function Without(owner: Owners, pd: nat): Owners {
    map f | f in owner && f != pd && !((owner[f].Table? || owner[f].User?) && owner[f].pd == pd) :: owner[f]
  }

  /** While freevm walks the directory: tables below i are gone, the rest and pd itself only held. */
  function Half(owner: Owners, pd: nat, i: nat): Owners {
    map f | f in owner && !(owner[f].Table? && owner[f].pd == pd && owner[f].x < i) ::
      if f == pd || (owner[f].Table? && owner[f].pd == pd) then Held else owner[f]
  }

  ghost predicate NoUsers(owner: Owners, pd: nat) {
    forall f <- owner :: !(owner[f].User? && owner[f].pd == pd)
  }

  lemma Dismantle(lo: nat, mem: Memory, free: seq<nat>, owner: Owners, pd: nat)
    requires Owned(lo, mem, free, owner) && IsDir(owner, pd) && NoUsers(owner, pd)
    ensures Owned(lo, mem, free, Half(owner, pd, 0))
  {
    var owner' := Half(owner, pd, 0);
    forall p: nat ensures IsDir(owner', p) <==> (p != pd && IsDir(owner, p)) {}
    forall f ensures f in owner' <==> f in owner {}
    hide Lookup;
  }

  lemma HalfStep(lo: nat, mem: Memory, free: seq<nat>, owner: Owners, pd: nat, i: nat)
    requires Owned(lo, mem, free, owner) && IsDir(owner, pd) && pd < PHYSFRAMES && i < ENTRIES
    ensures !Present(mem[pd][i]) ==> Half(owner, pd, i + 1) == Half(owner, pd, i)
    ensures Present(mem[pd][i]) ==>
              var t := FrameOf(mem[pd][i]);
              && t != pd && t in Half(owner, pd, i) && Half(owner, pd, i)[t] == Held
              && Half(owner, pd, i + 1) == Half(owner, pd, i) - {t} && t !in Without(owner, pd)
    ensures pd in Half(owner, pd, i + 1) && Half(owner, pd, i + 1)[pd] == Held
  {
    hide UsersOk, PartitionOk;
    forall f <- owner
      ensures owner[f] == Table(pd, i) ==> Present(mem[pd][i]) && f == FrameOf(mem[pd][i])
    {}
    if Present(mem[pd][i]) {
      assert FrameOf(mem[pd][i]) in owner && owner[FrameOf(mem[pd][i])] == Table(pd, i);
    }
  }

  lemma HalfDone(lo: nat, mem: Memory, free: seq<nat>, owner: Owners, pd: nat)
    requires Owned(lo, mem, free, owner) && IsDir(owner, pd) && NoUsers(owner, pd)
    ensures Half(owner, pd, ENTRIES) - {pd} == Without(owner, pd)
  {
    hide UsersOk, PartitionOk, Lookup;
  }

  lemma HalfKeeps(mem: Memory, owner: Owners, pd: nat)
    requires NoUsers(owner, pd)
    ensures Keeps(mem, Without(owner, pd), mem, Half(owner, pd, 0), 0, 0, 0)
  {
    hide Lookup;
  }

  lemma WithoutCut(owner: Owners, pd: nat)
    requires IsDir(owner, pd) && forall f <- owner :: owner[f].User? ==> owner[f].v < USERPAGES
    ensures NoUsers(Cut(owner, pd, 0, USERPAGES), pd) && IsDir(Cut(owner, pd, 0, USERPAGES), pd)
    ensures Without(Cut(owner, pd, 0, USERPAGES), pd) == Without(owner, pd)
  {}

  /** Operations on pd leave everything that is not pd's alone. */
  lemma KeepsWithout(mem: Memory, owner: Owners, mem': Memory, owner': Owners, pd: nat, from: nat, to: nat)
    requires Keeps(mem, owner, mem', owner', pd, from, to)
    ensures Keeps(mem, Without(owner, pd), mem', Without(owner', pd), 0, 0, 0)
  {
    hide Lookup;
    assert forall p :: IsDir(Without(owner, pd), p) ==> IsDir(owner, p) && p != pd;
  }

  lemma UsersBelow(lo: nat, mem: Memory, free: seq<nat>, owner: Owners)
    requires Owned(lo, mem, free, owner)
    ensures forall f <- owner :: owner[f].User? ==> owner[f].v < USERPAGES
  {}

  /** Freeing an address space that was built from nothing gives back exactly what was taken. */
  lemma WithoutNew(lo: nat, mem: Memory, free: seq<nat>, owner: Owners, owner': Owners, pd: nat, to: nat)
    requires Owned(lo, mem, free, owner) && pd !in owner && Extends(owner, owner')
    requires Adds(owner[pd := Dir], owner', pd, 0, to)
    ensures Without(owner', pd) == owner
  {
    hide Lookup;
    forall f <- owner ensures !(owner[f].Table? && owner[f].pd == pd) && !(owner[f].User? && owner[f].pd == pd) {}
  }

  lemma FreedNew(lo: nat, mem: Memory, free: seq<nat>, owner: Owners, mem1: Memory, owner1: Owners, mem2: Memory,
                 pd: nat, to: nat)
    requires Owned(lo, mem, free, owner) && pd !in owner && Extends(owner, owner1)
    requires Adds(owner[pd := Dir], owner1, pd, 0, to)
    requires Keeps(mem, owner, mem1, owner1, 0, 0, 0)
    requires Keeps(mem1, Without(owner1, pd), mem2, Without(owner1, pd), 0, 0, 0)
    ensures Without(owner1, pd) == owner && Keeps(mem, owner, mem2, owner, 0, 0, 0)
  {
    WithoutNew(lo, mem, free, owner, owner1, pd, to);
    WithoutNew(lo, mem, free, owner, owner, pd, to);
    hide Keeps;
    KeepsNothing(mem, owner, mem1, owner1, 0, pd, 0, 0);
    KeepsWithout(mem, owner, mem1, owner1, pd, 0, 0);
    KeepsTrans(mem, owner, mem1, owner, mem2, owner, 0, 0, 0);
  }

  /** What happens inside pd's address space does not touch an owner map that lacks pd. */
  lemma KeepsForeign(lo: nat, mem: Memory, free: seq<nat>, owner: Owners, mem1: Memory, owner1: Owners, mem2: Memory,
                     owner2: Owners, pd: nat, from: nat, to: nat)
    requires Owned(lo, mem, free, owner) && pd !in owner
    requires Keeps(mem, owner, mem1, owner1, 0, 0, 0) && Keeps(mem1, owner1, mem2, owner2, pd, from, to)
    ensures Keeps(mem, owner, mem2, owner2, 0, 0, 0)
  {
    hide Lookup, TablesOk, PartitionOk;
    assert forall f <- owner :: !(owner[f].User? && owner[f].pd == pd);
    assert forall p :: IsDir(owner, p) ==> IsDir(owner1, p) && p != pd;
  }
}
