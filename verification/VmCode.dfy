/** kalloc.c and the page-table half of vm.c, working in place on physical memory. */
module VmCode {
  import opened PagingSpec
  import opened PagingProofs
  import opened VmLemmas

  class Machine {
    const lo: nat  // first managed frame: V2P(end), rounded up
    var mem: Memory
    var freelist: nat
    ghost var free: seq<nat>
    ghost var owner: Owners

    ghost predicate Valid()
      reads this
    {
      FreeList(lo, mem, freelist, free) && Owned(lo, mem, free, owner)
    }

    /** kfree; its panic is the precondition on f. */
    method Kfree(f: nat)
      requires FreeList(lo, mem, freelist, free) && lo <= f < PHYSFRAMES && f !in free
      modifies this`mem, this`freelist, this`free
      ensures old(freelist) < PHYSFRAMES && mem == SetPage(old(mem), f, JunkPage(old(freelist)))
      ensures free == [f] + old(free) && FreeList(lo, mem, freelist, free)
    {
      FreeListPush(lo, mem, freelist, free, f);
      mem := SetPage(mem, f, JunkPage(freelist));
      freelist := f;
      free := [f] + free;
    }

    /** kalloc: the most recently freed frame, or 0 when there is none. */
    method Kalloc() returns (f: nat)
      requires Valid()
      modifies this`freelist, this`free, this`owner
      ensures Valid()
      ensures f == 0 <==> old(free) == []
      ensures f == 0 ==> free == old(free) && owner == old(owner)
      ensures f != 0 ==> old(free) == [f] + free && owner == old(owner)[f := Held] && f !in old(owner)
      ensures f != 0 ==> lo <= f < PHYSFRAMES
    {
      hide Owned;
      f := freelist;
      if f != 0 {
        assert free != [];
        FreeListPop(lo, mem, freelist, free);
        Take(lo, mem, free, owner);
        assert free == [f] + free[1..];
        freelist := (mem[f][0] - (if mem[f][0] == 0 then 0 else KERNBASE)) / PGSIZE;
        free := free[1..];
        owner := owner[f := Held];
      } else {
        NoFree(lo, mem, freelist, free);
      }
    }

    /** kinit1 and kinit2: freerange gives every managed frame to the allocator, once. */
    constructor (lo: nat, mem: Memory)
      requires 1 <= lo <= PHYSFRAMES
      ensures this.lo == lo && Valid() && owner == map[] && |free| == PHYSFRAMES - lo
    {
      this.lo := lo;
      this.mem := mem;
      this.freelist := 0;
      this.free := [];
      this.owner := map[];
      new;
      hide FreeList, Owned, SetPage, JunkPage;
      EmptyList(lo, mem);
      var f := lo;
      while f < PHYSFRAMES
        invariant lo <= f <= PHYSFRAMES && FreeList(lo, this.mem, freelist, free) && owner == map[]
        invariant |free| == f - lo
        invariant forall i :: 0 <= i < |free| ==> free[i] == f - 1 - i
      {
        Kfree(f);
        f := f + 1;
      }
      AllFree(lo, this.mem, free);
    }

    /** walkpgdir: the page table for page v, made if asked for; 0 if there is none. */
    method Walkpgdir(pd: nat, v: nat, alloc: bool) returns (t: nat)
      requires Valid() && IsDir(owner, pd) && pd < PHYSFRAMES && v < PAGES
      modifies this`mem, this`freelist, this`free, this`owner
      ensures Valid() && Keeps(old(mem), old(owner), mem, owner, pd, 0, 0)
      ensures t != 0 ==> HasTable(mem, owner, pd, v) && t == FrameOf(mem[pd][v / ENTRIES])
      ensures t == 0 ==> mem == old(mem) && owner == old(owner) && free == old(free) && !Present(mem[pd][v / ENTRIES])
      ensures t == 0 ==> (alloc ==> free == [])
      ensures !alloc ==> mem == old(mem) && owner == old(owner) && free == old(free)
      ensures Adds(old(owner), owner, pd, 0, 0) && Extends(old(owner), owner) && |old(free)| <= |free| + 1
      ensures Tables(mem, pd) == Tables(old(mem), pd) + if t != 0 then {v / ENTRIES} else {}
      ensures |free| + |Tables(mem, pd)| == |old(free)| + |Tables(old(mem), pd)|
    {
      hide Owned, Keeps, TablesOk, FreeList, Tables;
      KeepsRefl(mem, owner, pd, 0, 0);
      var x := v / ENTRIES;
      DirHas(mem, pd, x);
      if Present(mem[pd][x]) {
        t := FrameOf(mem[pd][x]);
        TableInRange(lo, mem, free, owner, pd, x);
      } else if !alloc {
        t := 0;
      } else {
        t := Kalloc();
        if t != 0 {
          LinkTableOwned(lo, mem, free, owner, pd, x, t);
          LinkTableKeeps(lo, mem, free, old(owner), pd, x, t);
          NotFree(lo, mem, free, owner, t);
          NotFree(lo, mem, free, owner, pd);
          FreeListFrame(lo, mem, freelist, free, LinkTable(mem, pd, x, t));
          assert owner[t := Table(pd, x)] == old(owner)[t := Table(pd, x)];
          DirAfterLink(mem, pd, x, t);
          mem := LinkTable(mem, pd, x, t);
          owner := owner[t := Table(pd, x)];
        }
      }
    }

    /** One iteration of mappages. For a user page the caller holds the frame and gives it up. The
        panic "remap" is the precondition. */
    method MapOne(pd: nat, v: nat, f: nat, perm: nat) returns (ok: bool)
      requires Valid() && IsDir(owner, pd) && pd < PHYSFRAMES && v < PAGES && f < PAGES && perm < PGSIZE
      requires !Present(Lookup(mem, pd, v))
      requires v < USERPAGES ==> f in owner && owner[f].Held? && f < PHYSFRAMES
      modifies this`mem, this`freelist, this`free, this`owner
      ensures Valid() && Adds(old(owner), owner, pd, 0, 0) && |old(free)| <= |free| + 1
      ensures !ok ==> mem == old(mem) && owner == old(owner) && free == old(free) == []
      ensures Extends(old(owner) - (if v < USERPAGES then {f} else {}), owner)
      ensures ok ==> Lookup(mem, pd, v) == Entry(f, perm)
      ensures ok ==> Keeps(old(mem), old(owner) - (if v < USERPAGES then {f} else {}), mem, owner, pd, v, v + 1)
      ensures ok && v < USERPAGES ==> f in owner && owner[f] == User(pd, v) && mem[f] == old(mem)[f]
      ensures Tables(mem, pd) == Tables(old(mem), pd) + if ok then {v / ENTRIES} else {}
      ensures |free| + |Tables(mem, pd)| == |old(free)| + |Tables(old(mem), pd)|
      ensures !ok ==> v / ENTRIES !in Tables(mem, pd)
    {
      hide Owned, Keeps, TablesOk, FreeList, Lookup, Present, Tables;
      var t := Walkpgdir(pd, v, true);
      ok := t != 0;
      if ok {
        KeepsLookup(old(mem), old(owner), mem, owner, pd, 0, 0, pd, v);
        var w := Entry(f, perm);
        SetPteNotFree(lo, mem, free, owner, pd, v, w);
        FreeListFrame(lo, mem, freelist, free, SetPte(mem, pd, v, w));
        DirAfterPte(lo, mem, free, owner, pd, v, w);
        if v < USERPAGES {
          MapUserStep(lo, old(mem), old(owner), mem, free, owner, pd, v, f, w);
          KeepsHeld(old(mem), old(owner), mem, owner, pd, 0, 0, f);
          owner := owner[f := User(pd, v)];
        } else {
          MapKernelStep(lo, old(mem), old(owner), mem, free, owner, pd, v, w);
          assert old(owner) - {} == old(owner);
        }
        mem := SetPte(mem, pd, v, w);
      } else {
        DirHas(mem, pd, v / ENTRIES);
      }
    }

    /** The loop of mappages, in page numbers; `upto` is the first page not mapped. */
    method MapRange(pd: nat, first: nat, last: nat, f0: nat, perm: nat) returns (ok: bool, ghost upto: nat)
      requires Valid() && IsDir(owner, pd) && pd < PHYSFRAMES && perm < PGSIZE
      requires first <= last < PAGES && f0 + (last - first) < PAGES
      requires Vacant(mem, pd, first, last) && HoldsAll(owner, first, last, f0)
      modifies this`mem, this`freelist, this`free, this`owner
      ensures Valid() && first <= upto <= last + 1 && (ok <==> upto == last + 1)
      ensures MapSoFar(old(mem), old(owner), mem, owner, pd, first, upto, last, f0, perm)
      ensures upto == first ==> mem == old(mem) && owner == old(owner) && free == old(free)
      ensures |free| + |Tables(mem, pd)| == |old(free)| + |Tables(old(mem), pd)|
      ensures Tables(mem, pd) == Tables(old(mem), pd) + Touched(first, upto)
      ensures !ok ==> free == [] && upto / ENTRIES !in Tables(mem, pd)
    {
      hide Owned, Keeps, TablesOk, FreeList, Lookup, Present, Adds, Extends, Tables, SlotsOf, Touched, MapSoFar,
           HoldsAll;
      var v, f := first, f0;
      upto := first;
      MapStart(mem, owner, pd, first, last, f0, perm);
      TouchedNone(first);
      while true
        invariant first <= v <= last && f == f0 + (v - first) && upto == v
        invariant Valid() && MapSoFar(old(mem), old(owner), mem, owner, pd, first, v, last, f0, perm)
        invariant v == first ==> mem == old(mem) && owner == old(owner) && free == old(free)
        invariant Tables(mem, pd) == Tables(old(mem), pd) + Touched(first, v)
        invariant |free| + |Tables(mem, pd)| == |old(free)| + |Tables(old(mem), pd)|
        decreases last - v
      {
        ghost var mem1, owner1 := mem, owner;
        TouchedMore(first, v, last);
        MapReady(old(mem), old(owner), mem, owner, pd, first, v, last, f0, perm);
        ok := MapOne(pd, v, f, perm);
        if !ok {
          return;
        }
        MapNext(old(mem), old(owner), mem1, owner1, mem, owner, pd, first, v, last, f0, perm);
        upto := v + 1;
        if v == last {
          break;
        }
        v := v + 1;
        f := f + 1;
      }
    }

    /** mappages. For user pages the caller holds the frames and gives them up, one by one; `upto` is the
        first page not mapped. */
    method Mappages(pd: nat, va: nat, size: nat, pa: nat, perm: nat) returns (ok: bool, ghost upto: nat)
      requires Valid() && IsDir(owner, pd) && pd < PHYSFRAMES && perm < PGSIZE
      requires 1 <= size && va + size <= WORD && pa % PGSIZE == 0 && pa + va % PGSIZE + size <= WORD
      requires Vacant(mem, pd, va / PGSIZE, (va + size - 1) / PGSIZE)
      requires HoldsAll(owner, va / PGSIZE, (va + size - 1) / PGSIZE, pa / PGSIZE)
      modifies this`mem, this`freelist, this`free, this`owner
      ensures Valid() && va / PGSIZE <= upto <= (va + size - 1) / PGSIZE + 1
      ensures ok <==> upto == (va + size - 1) / PGSIZE + 1
      ensures MapSoFar(old(mem), old(owner), mem, owner, pd, va / PGSIZE, upto, (va + size - 1) / PGSIZE,
                       pa / PGSIZE, perm)
      ensures upto == va / PGSIZE ==> mem == old(mem) && owner == old(owner) && free == old(free)
      ensures |free| + |Tables(mem, pd)| == |old(free)| + |Tables(old(mem), pd)|
      ensures Tables(mem, pd) == Tables(old(mem), pd) + Touched(va / PGSIZE, upto)
      ensures !ok ==> free == [] && upto / ENTRIES !in Tables(mem, pd)
    {
      ok, upto := MapRange(pd, va / PGSIZE, (va + size - 1) / PGSIZE, pa / PGSIZE, perm);
    }

    /** kfree(P2V(pa)); *pte = 0; for a present user page. */
    method DropPage(pd: nat, v: nat)
      requires Valid() && HasTable(mem, owner, pd, v) && v < USERPAGES && Present(Lookup(mem, pd, v))
      modifies this`mem, this`freelist, this`free, this`owner
      ensures Valid() && !Present(Lookup(mem, pd, v))
      ensures free == [FrameOf(Lookup(old(mem), pd, v))] + old(free)
      ensures owner == old(owner) - {FrameOf(Lookup(old(mem), pd, v))}
      ensures Keeps(old(mem), old(owner), mem, owner, pd, v, v + 1)
    {
      hide Owned, Keeps, FreeList, UsersOk, TablesOk, Lookup, SetPte, SetPage;
      var t := FrameOf(mem[pd][v / ENTRIES]);
      LookupIs(mem, owner, pd, v);
      var f := FrameOf(mem[t][v % ENTRIES]);
      FreeListHead(lo, mem, freelist, free);
      ghost var junk := JunkPage(freelist);
      UnmapFree(lo, mem, free, owner, pd, v, junk);
      UnmapNotFree(lo, mem, free, owner, pd, v, junk);
      Kfree(f);
      FreeListFrame(lo, mem, freelist, free, SetPte(mem, pd, v, 0));
      mem := SetPte(mem, pd, v, 0);
      owner := owner - {f};
    }

    /** deallocuvm. A missing table is skipped whole. A range that runs into the kernel half meets the
        kernel's mapping of frame 0 there, and kfree is not called on it: panic. */
    method Deallocuvm(pd: nat, oldsz: nat, newsz: nat) returns (r: int)
      requires Valid() && IsDir(owner, pd) && pd < PHYSFRAMES
      requires newsz < oldsz && KERNBASE < oldsz ==> newsz <= KERNBASE && FrameZero(mem, pd)
      modifies this`mem, this`freelist, this`free, this`owner
      ensures Valid()
      ensures newsz >= oldsz ==> r == oldsz && mem == old(mem) && free == old(free) && owner == old(owner)
      ensures newsz < oldsz ==> r == if oldsz <= KERNBASE then newsz else PANIC
      ensures newsz < oldsz ==> owner == Cut(old(owner), pd, PageUp(newsz), UserEnd(oldsz))
      ensures Keeps(old(mem), old(owner), mem, owner, pd, PageUp(newsz), UserEnd(oldsz))
      ensures newsz < oldsz ==> forall v :: PageUp(newsz) <= v < UserEnd(oldsz) ==> !Present(Lookup(mem, pd, v))
    {
      hide Owned, Keeps, FreeList, Lookup, Cut, UsersOk, TablesOk, Tables, SlotsOf;
      ghost var from, last := PageUp(newsz), UserEnd(oldsz);
      KeepsRefl(mem, owner, pd, from, last);
      if newsz >= oldsz {
        return oldsz;
      }
      r := newsz;
      CutNone(owner, pd, from);
      var v := PageUp(newsz);
      while v * PGSIZE < oldsz
        invariant from <= v && Valid() && IsDir(owner, pd)
        invariant (oldsz > KERNBASE ==> v <= USERPAGES && FrameZero(mem, pd))
        invariant owner == Cut(old(owner), pd, from, Min(v, last))
        invariant Keeps(old(mem), old(owner), mem, owner, pd, from, last)
        invariant forall u :: from <= u < Min(v, last) ==> !Present(Lookup(mem, pd, u))
        decreases PageUp(oldsz) - v
      {
        var t := Walkpgdir(pd, v, false);
        if v == USERPAGES {
          TableThere(mem, pd, v);
          LookupIs(mem, owner, pd, v);
          assert FrameOf(mem[t][v % ENTRIES]) == 0;
          return PANIC;
        }
        assert v < last;
        if t == 0 {
          SkipAbsent(mem, pd, v);
          CutSkip(lo, mem, free, owner, old(owner), pd, from, v, Min((v / ENTRIES + 1) * ENTRIES, last));
          v := (v / ENTRIES + 1) * ENTRIES - 1;
        } else {
          var w := mem[t][v % ENTRIES];
          LookupIs(mem, owner, pd, v);
          if Present(w) {
            CutDrop(lo, mem, free, owner, old(owner), pd, from, v);
            ghost var mem1, owner1 := mem, owner;
            DropPage(pd, v);
            if oldsz > KERNBASE { KeepsLookup(mem1, owner1, mem, owner, pd, v, v + 1, pd, USERPAGES); }
            KeepsWiden(mem1, owner1, mem, owner, pd, v, v + 1, from, last);
            KeepsTrans(old(mem), old(owner), mem1, owner1, mem, owner, pd, from, last);
            forall u | from <= u < v ensures !Present(Lookup(mem, pd, u)) {
              KeepsLookup(mem1, owner1, mem, owner, pd, v, v + 1, pd, u);
            }
          } else {
            CutSkip(lo, mem, free, owner, old(owner), pd, from, v, v + 1);
          }
        }
        v := v + 1;
      }
    }

    /** kalloc, then memset or memmove over the whole page. */
    method KallocFilled(page: Page) returns (f: nat)
      requires Valid()
      modifies this`mem, this`freelist, this`free, this`owner
      ensures Valid()
      ensures f == 0 <==> old(free) == []
      ensures f == 0 ==> mem == old(mem) && free == old(free) && owner == old(owner)
      ensures f != 0 ==> old(free) == [f] + free && owner == old(owner)[f := Held] && f !in old(owner)
      ensures f != 0 ==> lo <= f < PHYSFRAMES
      ensures f != 0 ==> mem == SetPage(old(mem), f, page) && mem[f] == page
      ensures f != 0 ==> Keeps(old(mem), old(owner), mem, owner, 0, 0, 0)
    {
      hide Owned, Keeps, FreeList, UsersOk, TablesOk, Lookup;
      f := Kalloc();
      if f != 0 {
        PageKeeps(lo, mem, old(free), old(owner), f, page, 0, 0, 0);
        KeepsMore(mem, old(owner), SetPage(mem, f, page), old(owner), 0, 0, 0, f, Held);
        DataPage(lo, mem, free, owner, f, page);
        NotFree(lo, mem, free, owner, f);
        FreeListFrame(lo, mem, freelist, free, SetPage(mem, f, page));
        mem := SetPage(mem, f, page);
      }
    }

    /** kfree of a page that was allocated and not used. */
    method KfreeHeld(f: nat)
      requires Valid() && f in owner && owner[f].Held?
      modifies this`mem, this`freelist, this`free, this`owner
      ensures Valid() && owner == old(owner) - {f} && free == [f] + old(free)
      ensures Keeps(old(mem), old(owner) - {f}, mem, owner, 0, 0, 0)
    {
      hide Owned, Keeps, FreeList, UsersOk, TablesOk, Lookup;
      FreeListHead(lo, mem, freelist, free);
      InRange(lo, mem, free, owner, f);
      ghost var junk := JunkPage(freelist);
      Give(lo, mem, free, owner, f);
      NotOwned(owner, f);
      PageKeeps(lo, mem, [f] + free, owner - {f}, f, junk, 0, 0, 0);
      DataPage(lo, mem, [f] + free, owner - {f}, f, junk);
      NotFree(lo, mem, free, owner, f);
      Kfree(f);
      owner := owner - {f};
    }

    /** kalloc, fill the page, mappages: the body common to the loops of allocuvm and copyuvm. Without the
        frame for a table the page stays with the caller. */
    method AddPage(pd: nat, v: nat, page: Page, perm: nat) returns (f: nat, ok: bool)
      requires Valid() && IsDir(owner, pd) && pd < PHYSFRAMES && v < USERPAGES && perm < PGSIZE
      requires !Present(Lookup(mem, pd, v))
      modifies this`mem, this`freelist, this`free, this`owner
      ensures Valid() && (f != 0 ==> f < PHYSFRAMES && f !in old(owner))
      ensures f == 0 ==> !ok && old(free) == [] && mem == old(mem) && owner == old(owner)
      ensures f != 0 && !ok ==> |old(free)| == 1 && owner == old(owner)[f := Held]
      ensures f != 0 && !ok ==> v / ENTRIES !in Tables(old(mem), pd)
      ensures f != 0 && !ok ==> Keeps(old(mem), old(owner), mem, owner, 0, 0, 0)
      ensures ok ==> f != 0 && Lookup(mem, pd, v) == Entry(f, perm) && IsUser(owner, f, pd, v) && mem[f] == page
      ensures ok ==> Keeps(old(mem), old(owner), mem, owner, pd, v, v + 1)
      ensures ok ==> Adds(old(owner), owner, pd, v, v + 1) && Extends(old(owner), owner)
      ensures ok ==> Tables(mem, pd) == Tables(old(mem), pd) + {v / ENTRIES}
      ensures ok ==> |free| + 1 + |Tables(mem, pd)| == |old(free)| + |Tables(old(mem), pd)|
    {
      hide Owned, Keeps, FreeList, UsersOk, TablesOk, Lookup, Adds, Extends, Tables, Touched, MapSoFar, SetPage,
           HoldsAll;
      f := KallocFilled(page);
      ok := false;
      if f != 0 {
        KeepsLookup(old(mem), old(owner), mem, owner, 0, 0, 0, pd, v);
        DirKept(old(mem), f, page, pd);
        HoldsOne(owner, v, f);
        TouchedOne(v);
        ghost var mem1, owner1 := mem, owner;
        ghost var upto;
        ok, upto := Mappages(pd, v * PGSIZE, PGSIZE, f * PGSIZE, perm);
        if ok {
          MapSingle(mem1, owner1, mem, owner, pd, v, f, perm);
          PageAdded(old(mem), old(owner), mem1, mem, owner, pd, v, f);
        }
      }
    }

    /** allocuvm. The panic "remap" is the precondition on the new pages. */
    method Allocuvm(pd: nat, oldsz: nat, newsz: nat) returns (r: nat)
      requires Valid() && IsDir(owner, pd) && pd < PHYSFRAMES
      requires newsz < KERNBASE ==> forall v :: PageUp(oldsz) <= v < PageUp(newsz) ==> !Present(Lookup(mem, pd, v))
      modifies this`mem, this`freelist, this`free, this`owner
      ensures Valid()
      ensures newsz >= KERNBASE || newsz < oldsz ==> mem == old(mem) && free == old(free) && owner == old(owner)
      ensures newsz >= KERNBASE ==> r == 0
      ensures newsz < oldsz && newsz < KERNBASE ==> r == oldsz
      ensures oldsz <= newsz < KERNBASE ==> r == newsz || r == 0
      ensures Keeps(old(mem), old(owner), mem, owner, pd, PageUp(oldsz), PageUp(newsz)) && Extends(old(owner), owner)
      ensures oldsz <= newsz < KERNBASE && r == newsz != 0 ==>
                && Adds(old(owner), owner, pd, PageUp(oldsz), PageUp(newsz))
                && forall v: nat :: PageUp(oldsz) <= v < PageUp(newsz) ==> ZeroMapped(mem, owner, old(owner), pd, v)
      ensures oldsz <= newsz < KERNBASE && r == 0 ==>
                && Adds(old(owner), owner, pd, 0, 0)
                && forall v: nat :: PageUp(oldsz) <= v < PageUp(newsz) ==> !Present(Lookup(mem, pd, v))
      ensures oldsz <= newsz < KERNBASE ==>
                (r != newsz <==> |old(free)| < Needed(Tables(old(mem), pd), PageUp(oldsz), PageUp(newsz)))
      ensures oldsz <= newsz < KERNBASE && r == newsz ==>
                |free| == |old(free)| - Needed(Tables(old(mem), pd), PageUp(oldsz), PageUp(newsz))
    {
      hide Owned, Keeps, FreeList, UsersOk, TablesOk, Lookup, Adds, ZeroMapped, Tables, Touched, MapSoFar, SetPage;
      ghost var from, last := PageUp(oldsz), PageUp(newsz);
      KeepsRefl(mem, owner, pd, from, last);
      AddsRefl(owner, pd, from, last);
      ExtendsRefl(owner);
      TouchedNone(from);
      if newsz >= KERNBASE {
        return 0;
      }
      if newsz < oldsz {
        return oldsz;
      }
      var v := PageUp(oldsz);
      while v * PGSIZE < newsz
        invariant from <= v <= last && Valid() && IsDir(owner, pd)
        invariant Keeps(old(mem), old(owner), mem, owner, pd, from, last)
        invariant Adds(old(owner), owner, pd, from, last) && Extends(old(owner), owner)
        invariant forall u: nat :: from <= u < v ==> ZeroMapped(mem, owner, old(owner), pd, u)
        invariant forall u: nat :: v <= u < last ==> !Present(Lookup(mem, pd, u))
        invariant Tables(mem, pd) == Tables(old(mem), pd) + Touched(from, v)
        invariant |free| + (v - from) + |Tables(mem, pd)| == |old(free)| + |Tables(old(mem), pd)|
      {
        ghost var mem0, owner0, free0 := mem, owner, free;
        var f, ok := AddPage(pd, v, ZeroPage(), PTE_W + PTE_U);
        if !ok {
          Short(|old(free)|, Tables(old(mem), pd), |free0|, Tables(mem0, pd), from, v, last);
          ghost var mem1, owner1 := mem, owner;
          var _ := Deallocuvm(pd, newsz, oldsz);
          ghost var mem2, owner2 := mem, owner;
          if f != 0 {
            HeldCut(owner1, pd, from, last, f);
            KfreeHeld(f);
            UndoHeld(old(mem), old(owner), mem0, owner0, mem1, mem2, owner2, mem, pd, from, last, f);
            StillGone(mem2, owner2 - {f}, mem, owner, pd, from, last);
          } else {
            RolledBack(old(mem), old(owner), mem0, owner0, mem, owner, pd, from, last);
          }
          KeepsExtends(lo, old(mem), old(free), old(owner), mem, owner, pd, from, last);
          return 0;
        }
        TouchedMore(from, v, last);
        AllocStep(old(mem), old(owner), mem0, owner0, mem, owner, pd, from, last, v);
        ZeroesKept(mem0, owner0, mem, owner, old(owner), pd, from, v);
        ZeroNew(mem, owner, old(owner), pd, v, f);
        VacantKept(mem0, owner0, mem, owner, pd, v, last);
        v := v + 1;
      }
      NeededIs(Tables(old(mem), pd), Tables(mem, pd), from, last);
      r := newsz;
    }

    /** freevm; the panic "no pgdir" is the precondition. */
    method Freevm(pd: nat)
      requires Valid() && IsDir(owner, pd) && pd < PHYSFRAMES
      modifies this`mem, this`freelist, this`free, this`owner
      ensures Valid() && owner == Without(old(owner), pd)
      ensures Keeps(old(mem), Without(old(owner), pd), mem, owner, 0, 0, 0)
    {
      hide Owned, Keeps, FreeList, UsersOk, TablesOk, Lookup, Half, Without, Cut, NoUsers, Tables, SlotsOf;
      UsersBelow(lo, mem, free, owner);
      WithoutCut(owner, pd);
      var _ := Deallocuvm(pd, KERNBASE, 0);
      KeepsWithout(old(mem), old(owner), mem, owner, pd, 0, USERPAGES);
      ghost var mem1, owner1, free1 := mem, owner, free;
      Dismantle(lo, mem, free, owner, pd);
      HalfKeeps(mem, owner, pd);
      HalfPd(owner, pd, 0);
      owner := Half(owner, pd, 0);
      var i := 0;
      while i < ENTRIES
        invariant 0 <= i <= ENTRIES && Valid() && owner == Half(owner1, pd, i) && mem[pd] == mem1[pd]
        invariant Keeps(mem1, Without(owner1, pd), mem, owner, 0, 0, 0)
        invariant IsHeld(owner, pd)
      {
        ghost var mem2, owner2 := mem, owner;
        HalfStep(lo, mem1, free1, owner1, pd, i);
        if Present(mem[pd][i]) {
          var t := FrameOf(mem[pd][i]);
          KfreeHeld(t);
          DropHeld(mem2, owner2, mem, t, pd);
          KeepsChain(mem1, Without(owner1, pd), mem2, owner2, mem, t);
        }
        i := i + 1;
      }
      ghost var mem2, owner2 := mem, owner;
      KfreeHeld(pd);
      HalfDone(lo, mem1, free1, owner1, pd);
      KeepsChain(mem1, Without(owner1, pd), mem2, owner2, mem, pd);
      KeepsTrans(old(mem), Without(old(owner), pd), mem1, Without(owner1, pd), mem, owner, 0, 0, 0);
    }

    /** One round of setupkvm's loop over kmap. */
    method MapRow(data: nat, pd: nat, k: nat, ghost mem0: Memory, ghost free0: seq<nat>, ghost owner0: Owners)
      returns (ok: bool)
      requires Valid() && DataOk(data) && k < 4 && Owned(lo, mem0, free0, owner0) && pd !in owner0
      requires Building(mem0, free0, owner0, mem, free, owner, pd) && Rows(mem, pd, data, k)
      modifies this`mem, this`freelist, this`free, this`owner
      ensures Valid() && Building(mem0, free0, owner0, mem, free, owner, pd)
      ensures ok ==> Rows(mem, pd, data, k + 1)
      ensures !ok ==> free == [] && |Tables(mem, pd)| < KTABLES
    {
      hide Owned, Keeps, FreeList, UsersOk, TablesOk, Lookup, Adds, Extends, Tables, SlotsOf, Touched, Rows, MapSoFar,
           Vacant, MappedTo;
      var r := Kmap(data)[k];
      ghost var first, last := r.virt / PGSIZE, (r.virt + (r.end - r.start) - 1) / PGSIZE;
      ghost var mem1, free1, owner1 := mem, free, owner;
      RowsFree(data, k, mem, pd);
      ghost var upto;
      ok, upto := Mappages(pd, r.virt, r.end - r.start, r.start, r.perm);
      MapKernelRange(mem1, owner1, mem, owner, pd, first, upto, last, r.start / PGSIZE, r.perm);
      BuildingOn(lo, mem0, free0, owner0, mem1, free1, owner1, mem, free, owner, pd, first, last + 1);
      if ok {
        TouchedMore(first, last, last);
        RowsNext(data, k, mem1, owner1, mem, owner, pd);
      } else {
        RowsMade(data, k, mem1, pd, Tables(mem, pd));
      }
    }

    /** setupkvm: the kernel half of a fresh page directory; or, exactly when fewer frames are free
        than the directory and its tables need, 0 and nothing taken. */
    method Setupkvm(data: nat) returns (pd: nat)
      requires Valid() && DataOk(data)
      modifies this`mem, this`freelist, this`free, this`owner
      ensures Valid() && Keeps(old(mem), old(owner), mem, owner, 0, 0, 0)
      ensures pd == 0 ==> owner == old(owner)
      ensures pd != 0 ==> pd < PHYSFRAMES && pd !in old(owner) && IsDir(owner, pd)
      ensures pd != 0 ==> Extends(old(owner), owner) && Adds(old(owner)[pd := Dir], owner, pd, 0, 0)
      ensures pd != 0 ==> forall v: nat :: v < PAGES ==> Lookup(mem, pd, v) == KernelEntry(data, 4, v)
      ensures pd != 0 ==> forall v: nat :: v < PAGES ==> KernelPage(data, v, Lookup(mem, pd, v))
      ensures pd == 0 <==> |old(free)| < KTABLES + 1
      ensures pd != 0 ==> |free| == |old(free)| - (KTABLES + 1) && Tables(mem, pd) == KernelSlots()
    {
      hide Owned, Keeps, FreeList, UsersOk, TablesOk, Lookup, Adds, Extends, KernelEntry, KernelPage, Without,
           Tables, Rows, KernelSlots;
      KeepsRefl(mem, owner, 0, 0, 0);
      pd := KallocFilled(ZeroPage());
      if pd == 0 {
        return;
      }
      NewDir(lo, mem, free, owner, pd);
      BuildingNew(old(mem), old(free), old(owner), mem, free, pd);
      RowsNone(mem, pd, data);
      owner := owner[pd := Dir];
      assert owner == old(owner)[pd := Dir];
      var k := 0;
      while k < |Kmap(data)|
        invariant 0 <= k <= 4 && Valid() && Building(old(mem), old(free), old(owner), mem, free, owner, pd)
        invariant Rows(mem, pd, data, k)
      {
        var ok := MapRow(data, pd, k, old(mem), old(free), old(owner));
        if !ok {
          ghost var mem2, owner2 := mem, owner;
          Freevm(pd);
          FreedNew(lo, old(mem), old(free), old(owner), mem2, owner2, mem, pd, 0);
          pd := 0;
          return;
        }
        k := k + 1;
      }
      RowsDone(mem, pd, data);
      KernelPages(mem, pd, data, 0);
    }

    /** The entry copyuvm finds for page v of the parent; its panics are the precondition. */
    method ReadEntry(pd: nat, v: nat) returns (w: Word)
      requires Valid() && IsDir(owner, pd) && pd < PHYSFRAMES && v < USERPAGES && Present(Lookup(mem, pd, v))
      modifies this`mem, this`freelist, this`free, this`owner
      ensures Valid() && mem == old(mem) && owner == old(owner) && free == old(free)
      ensures w == Lookup(mem, pd, v) && IsUser(owner, FrameOf(w), pd, v)
    {
      hide Owned, Keeps, FreeList, UsersOk, TablesOk, Lookup, Adds, Extends, Tables;
      var t := Walkpgdir(pd, v, false);
      TableThere(mem, pd, v);
      LookupIs(mem, owner, pd, v);
      UserFrame(lo, mem, free, owner, pd, v);
      w := mem[t][v % ENTRIES];
    }

    /** copyuvm: the child's directory; or, exactly when fewer frames are free than the child needs, 0 and
        nothing taken. The two panics are the precondition
        that the parent's pages are there. */
    method Copyuvm(data: nat, pd: nat, sz: nat) returns (d: nat)
      requires Valid() && DataOk(data) && IsDir(owner, pd) && pd < PHYSFRAMES && sz <= KERNBASE
      requires forall v :: 0 <= v < PageUp(sz) ==> Present(Lookup(mem, pd, v))
      modifies this`mem, this`freelist, this`free, this`owner
      ensures Valid() && Keeps(old(mem), old(owner), mem, owner, 0, 0, 0)
      ensures d == 0 ==> owner == old(owner)
      ensures d != 0 ==> d < PHYSFRAMES && d !in old(owner) && IsDir(owner, d)
      ensures d != 0 ==> Extends(old(owner), owner) && Adds(old(owner)[d := Dir], owner, d, 0, PageUp(sz))
      ensures d != 0 ==> forall v: nat :: v < PageUp(sz) ==> CopyOf(mem, owner, old(mem), old(owner), pd, d, v)
      ensures d != 0 ==> forall v: nat :: PageUp(sz) <= v < PAGES ==> Lookup(mem, d, v) == KernelEntry(data, 4, v)
      ensures d != 0 ==> forall v: nat :: PageUp(sz) <= v < PAGES ==> KernelPage(data, v, Lookup(mem, d, v))
      ensures d == 0 <==> |old(free)| < KTABLES + 1 + PageUp(sz) + TablesFor(PageUp(sz))
      ensures d != 0 ==> |free| == |old(free)| - (KTABLES + 1 + PageUp(sz) + TablesFor(PageUp(sz)))
    {
      hide Owned, Keeps, FreeList, UsersOk, TablesOk, Lookup, Adds, Extends, KernelEntry, KernelPage, Without,
           CopyOf, Tables, Touched, KernelSlots, MapSoFar, SetPage, TablesFor;
      ghost var last := PageUp(sz);
      CopyNeeds(last);
      KernelSlotsCount();
      TouchedNone(0);
      d := Setupkvm(data);
      if d == 0 {
        return;
      }
      AddsWiden(old(owner)[d := Dir], owner, d, last);
      forall v: nat | v < last ensures Lookup(mem, d, v) == 0 { KernelUser(data, 4, v); }
      var v := 0;
      while v * PGSIZE < sz
        invariant 0 <= v <= last && Valid() && IsDir(owner, d)
        invariant Keeps(old(mem), old(owner), mem, owner, 0, 0, 0)
        invariant Extends(old(owner), owner) && Adds(old(owner)[d := Dir], owner, d, 0, last)
        invariant forall u: nat :: u < v ==> CopyOf(mem, owner, old(mem), old(owner), pd, d, u)
        invariant forall u: nat :: v <= u < last ==> Lookup(mem, d, u) == 0
        invariant forall u: nat :: last <= u < PAGES ==> Lookup(mem, d, u) == KernelEntry(data, 4, u)
        invariant Tables(mem, d) == KernelSlots() + Touched(0, v)
        invariant |free| + v + |Tables(mem, d)| == |old(free)| - 1
      {
        ghost var mem0, owner0, free0 := mem, owner, free;
        KeepsLookup(old(mem), old(owner), mem, owner, 0, 0, 0, pd, v);
        var w := ReadEntry(pd, v);
        var f, ok := AddPage(d, v, mem[FrameOf(w)], FlagsOf(w));
        if !ok {
          Short(|old(free)| - (KTABLES + 1), KernelSlots(), |free0|, Tables(mem0, d), 0, v, last);
          if f != 0 {
            ghost var mem1 := mem;
            KfreeHeld(f);
            BackToStart(mem0, owner0, mem1, mem, f);
            KeepsTrans(old(mem), old(owner), mem0, owner0, mem, owner, 0, 0, 0);
          }
          ghost var mem2 := mem;
          Freevm(d);
          FreedNew(lo, old(mem), old(free), old(owner), mem2, owner0, mem, d, last);
          return 0;
        }
        TouchedMore(0, v, last);
        KeepsForeign(lo, old(mem), old(free), old(owner), mem0, owner0, mem, owner, d, v, v + 1);
        ExtendsTrans(old(owner), owner0, owner);
        ExtendsDir(owner0, owner, d);
        AddsPage(old(owner)[d := Dir], owner0, owner, d, v, 0, last);
        CopiesKept(mem0, owner0, mem, owner, old(mem), old(owner), pd, d, v);
        UserFrame(lo, old(mem), old(free), old(owner), pd, v);
        CopyNew(old(mem), old(owner), mem0, owner0, mem, owner, pd, d, v, f);
        v := v + 1;
      }
      NeededIs(KernelSlots(), Tables(mem, d), 0, last);
      KernelPages(mem, d, data, last);
    }
  }
}
