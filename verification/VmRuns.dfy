/** Address spaces as plain maps. Whatever sequence of setupkvm, allocuvm, deallocuvm, copyuvm, freevm and user
    stores is served, every address space reads as the map it should be, no other one changes, a request is
    refused only for want of frames, and no frame is lost. */
module VmRuns {
  import opened PagingSpec
  import opened PagingProofs
  import opened VmLemmas
  import opened VmCode

  /** A user page: what it holds and how it is mapped. */
  datatype Mapped = Mapped(page: Page, flags: nat)

  /** An address space of sz bytes, without tables or frames. */
  datatype Space = Space(sz: nat, pages: map<nat, Mapped>)

  type Spaces = map<nat, Space>

  datatype Request =
    | Create
    | Grow(pd: nat, newsz: nat)
    | Shrink(pd: nat, newsz: nat)
    | Copy(pd: nat)
    | Free(pd: nat)
    | Store(pd: nat, v: nat, i: nat, w: Word)

  /** What the callers of vm.c see to. */
  predicate Allowed(spaces: Spaces, q: Request) {
    && (!q.Create? ==> q.pd in spaces)
    && match q
       case Store(pd, v, i, w) => v in spaces[pd].pages && i < ENTRIES
       case _ => true
  }

  /** A page allocuvm adds. */
  function ZeroAt(v: nat): Mapped { Mapped(ZeroPage(), PTE_P + PTE_W + PTE_U) }

  function Zeroed(from: nat, to: nat): map<nat, Mapped> { map v: nat | from <= v < to :: ZeroAt(v) }

  function Below(pages: map<nat, Mapped>, to: nat): map<nat, Mapped> { map v | v in pages && v < to :: pages[v] }

  /** The effect on maps; r is 0 when memory ran out, and names the new space for Create and
      Copy. */
  function Apply(spaces: Spaces, q: Request, r: nat): (spaces': Spaces)
    requires Allowed(spaces, q)
  {
    match q
    case Create => if r != 0 then spaces[r := Space(0, map[])] else spaces
    case Grow(pd, newsz) =>
      var grown := spaces[pd].pages + Zeroed(PageUp(spaces[pd].sz), PageUp(newsz));
      if r == newsz >= spaces[pd].sz then spaces[pd := Space(newsz, grown)] else spaces
    case Shrink(pd, newsz) =>
      if newsz < spaces[pd].sz then spaces[pd := Space(newsz, Below(spaces[pd].pages, PageUp(newsz)))] else spaces
    case Copy(pd) => if r != 0 then spaces[r := spaces[pd]] else spaces
    case Free(pd) => spaces - {pd}
    case Store(pd, v, i, w) => 
      var m := spaces[pd].pages[v];
      spaces[pd := Space(spaces[pd].sz, spaces[pd].pages[v := Mapped(m.page[i := w], m.flags)])]
  }

  // ---- Reading the tables ----------------------------------------------------------------

  ghost predicate Reads(mem: Memory, pd: nat, v: nat, pages: map<nat, Mapped>) {
    var w := Lookup(mem, pd, v);
    if v in pages
      then Present(w) && FrameOf(w) < PHYSFRAMES && pages[v] == Mapped(mem[FrameOf(w)], FlagsOf(w))
      else !Present(w)
  }

  ghost predicate Shows(mem: Memory, pd: nat, s: Space) {
    && s.sz <= KERNBASE && (forall v :: v in s.pages <==> 0 <= v < PageUp(s.sz))
    && forall v: nat {:trigger Reads(mem, pd, v, s.pages)} :: v < USERPAGES ==> Reads(mem, pd, v, s.pages)
  }

  ghost predicate Refines(mem: Memory, owner: Owners, spaces: Spaces) {
    && (forall pd: nat :: pd in spaces <==> IsDir(owner, pd))
    && (forall pd: nat :: pd in spaces ==> pd < PHYSFRAMES && Shows(mem, pd, spaces[pd]))
  }

  /** In bytes: every address below the size is on a present page, and no page at or above it is. */
  lemma AddressesShown(mem: Memory, pd: nat, s: Space, a: nat)
    requires Shows(mem, pd, s) && a < KERNBASE
    ensures a < s.sz ==> Present(Lookup(mem, pd, a / PGSIZE))
    ensures a % PGSIZE == 0 && a >= s.sz ==> !Present(Lookup(mem, pd, a / PGSIZE))
  {
    hide Lookup;
    assert a / PGSIZE < USERPAGES;
    assert Reads(mem, pd, a / PGSIZE, s.pages);
  }

  lemma ReadsKept(lo: nat, mem: Memory, free: seq<nat>, owner: Owners, mem': Memory, owner': Owners, pd: nat,
                  from: nat, to: nat, p: nat, v: nat, pages: map<nat, Mapped>)
    requires Owned(lo, mem, free, owner) && Keeps(mem, owner, mem', owner', pd, from, to)
    requires IsDir(owner, p) && v < USERPAGES && !(p == pd && from <= v < to) && Reads(mem, p, v, pages)
    ensures Reads(mem', p, v, pages)
  {
    KeepsLookup(mem, owner, mem', owner', pd, from, to, p, v);
    if v in pages {
      UserFrame(lo, mem, free, owner, p, v);
    }
    hide Lookup, Owned;
  }

  lemma ShowsKept(lo: nat, mem: Memory, free: seq<nat>, owner: Owners, mem': Memory, owner': Owners, pd: nat,
                  from: nat, to: nat, p: nat, s: Space)
    requires Owned(lo, mem, free, owner) && Keeps(mem, owner, mem', owner', pd, from, to)
    requires IsDir(owner, p) && (p != pd || from >= to) && Shows(mem, p, s)
    ensures Shows(mem', p, s)
  {
    forall v: nat | v < USERPAGES ensures Reads(mem', p, v, s.pages) {
      assert Reads(mem, p, v, s.pages);
      ReadsKept(lo, mem, free, owner, mem', owner', pd, from, to, p, v, s.pages);
    }
  }

  lemma OthersKept(lo: nat, mem: Memory, free: seq<nat>, owner: Owners, mem': Memory, owner': Owners, pd: nat,
                   from: nat, to: nat, spaces: Spaces)
    requires Owned(lo, mem, free, owner) && Keeps(mem, owner, mem', owner', pd, from, to) && Refines(mem, owner, spaces)
    ensures forall p: nat :: p in spaces && (p != pd || from >= to) ==> Shows(mem', p, spaces[p])
  {
    hide Keeps, Shows, Owned;
    forall p: nat | p in spaces && (p != pd || from >= to) ensures Shows(mem', p, spaces[p]) {
      ShowsKept(lo, mem, free, owner, mem', owner', pd, from, to, p, spaces[p]);
    }
  }

  // ---- One request -----------------------------------------------------------------------

  lemma GrowShows(lo: nat, mem: Memory, free: seq<nat>, owner: Owners, mem': Memory, owner': Owners, pd: nat,
                  s: Space, newsz: nat)
    requires Owned(lo, mem, free, owner) && IsDir(owner, pd) && Shows(mem, pd, s) && s.sz <= newsz < KERNBASE
    requires Keeps(mem, owner, mem', owner', pd, PageUp(s.sz), PageUp(newsz))
    requires forall v: nat :: PageUp(s.sz) <= v < PageUp(newsz) ==> ZeroMapped(mem', owner', owner, pd, v)
    ensures Shows(mem', pd, Space(newsz, s.pages + Zeroed(PageUp(s.sz), PageUp(newsz))))
  {
    hide Keeps, Lookup, Owned;
    var pages' := s.pages + Zeroed(PageUp(s.sz), PageUp(newsz));
    forall v: nat | v < USERPAGES ensures Reads(mem', pd, v, pages') {
      if PageUp(s.sz) <= v < PageUp(newsz) {
        assert ZeroMapped(mem', owner', owner, pd, v);
      } else {
        assert Reads(mem, pd, v, s.pages);
        ReadsKept(lo, mem, free, owner, mem', owner', pd, PageUp(s.sz), PageUp(newsz), pd, v, s.pages);
      }
    }
  }

  lemma GrowFails(lo: nat, mem: Memory, free: seq<nat>, owner: Owners, mem': Memory, owner': Owners, pd: nat,
                  s: Space, newsz: nat)
    requires Owned(lo, mem, free, owner) && IsDir(owner, pd) && Shows(mem, pd, s) && s.sz <= newsz < KERNBASE
    requires Keeps(mem, owner, mem', owner', pd, PageUp(s.sz), PageUp(newsz))
    requires forall v: nat :: PageUp(s.sz) <= v < PageUp(newsz) ==> !Present(Lookup(mem', pd, v))
    ensures Shows(mem', pd, s)
  {
    hide Keeps, Lookup, Owned;
    forall v: nat | v < USERPAGES ensures Reads(mem', pd, v, s.pages) {
      assert Reads(mem, pd, v, s.pages);
      if !(PageUp(s.sz) <= v < PageUp(newsz)) {
        ReadsKept(lo, mem, free, owner, mem', owner', pd, PageUp(s.sz), PageUp(newsz), pd, v, s.pages);
      }
    }
  }

  lemma ShrinkShows(lo: nat, mem: Memory, free: seq<nat>, owner: Owners, mem': Memory, owner': Owners, pd: nat,
                    s: Space, newsz: nat)
    requires Owned(lo, mem, free, owner) && IsDir(owner, pd) && Shows(mem, pd, s) && newsz <= s.sz
    requires Keeps(mem, owner, mem', owner', pd, PageUp(newsz), PageUp(s.sz))
    requires forall v: nat :: PageUp(newsz) <= v < PageUp(s.sz) ==> !Present(Lookup(mem', pd, v))
    ensures Shows(mem', pd, Space(newsz, Below(s.pages, PageUp(newsz))))
  {
    hide Keeps, Lookup, Owned;
    var pages' := Below(s.pages, PageUp(newsz));
    forall v: nat | v < USERPAGES ensures Reads(mem', pd, v, pages') {
      assert Reads(mem, pd, v, s.pages);
      if !(PageUp(newsz) <= v < PageUp(s.sz)) {
        ReadsKept(lo, mem, free, owner, mem', owner', pd, PageUp(newsz), PageUp(s.sz), pd, v, s.pages);
      }
    }
  }

  lemma CopyShows(mem: Memory, owner: Owners, mem': Memory, owner': Owners, data: nat, pd: nat, d: nat, s: Space)
    requires Shows(mem, pd, s) && DataOk(data)
    requires forall v: nat :: v < PageUp(s.sz) ==> CopyOf(mem', owner', mem, owner, pd, d, v)
    requires forall v: nat :: PageUp(s.sz) <= v < PAGES ==> Lookup(mem', d, v) == KernelEntry(data, 4, v)
    ensures Shows(mem', d, s)
  {
    hide Lookup, KernelEntry;
    forall v: nat | v < USERPAGES ensures Reads(mem', d, v, s.pages) {
      assert Reads(mem, pd, v, s.pages);
      if v < PageUp(s.sz) {
        assert CopyOf(mem', owner', mem, owner, pd, d, v);
      } else {
        KernelUser(data, 4, v);
      }
    }
  }

  lemma CreateShows(mem: Memory, data: nat, d: nat)
    requires DataOk(data) && forall v: nat :: v < PAGES ==> Lookup(mem, d, v) == KernelEntry(data, 4, v)
    ensures Shows(mem, d, Space(0, map[]))
  {
    hide Lookup, KernelEntry;
    forall v: nat | v < USERPAGES ensures Reads(mem, d, v, map[]) { KernelUser(data, 4, v); }
  }

  lemma StoredReads(lo: nat, mem: Memory, free: seq<nat>, owner: Owners, mem': Memory, pd: nat, s: Space, v: nat,
                    i: nat, w: Word)
    requires Owned(lo, mem, free, owner) && IsDir(owner, pd) && Shows(mem, pd, s) && v in s.pages && i < ENTRIES
    requires Keeps(mem, owner, mem', owner, pd, v, v + 1) && v < USERPAGES && Lookup(mem', pd, v) == Lookup(mem, pd, v)
    requires var f := FrameOf(Lookup(mem, pd, v)); f < PHYSFRAMES && mem'[f] == mem[f][i := w]
    ensures Shows(mem', pd, Space(s.sz, s.pages[v := Mapped(s.pages[v].page[i := w], s.pages[v].flags)]))
  {
    hide Keeps, Lookup, Owned;
    var pages' := s.pages[v := Mapped(s.pages[v].page[i := w], s.pages[v].flags)];
    assert Reads(mem, pd, v, s.pages);
    forall u: nat | u < USERPAGES ensures Reads(mem', pd, u, pages') {
      assert Reads(mem, pd, u, s.pages);
      if u != v { ReadsKept(lo, mem, free, owner, mem', owner, pd, v, v + 1, pd, u, s.pages); }
    }
  }

  lemma StoreShows(lo: nat, mem: Memory, free: seq<nat>, owner: Owners, pd: nat, s: Space, v: nat, i: nat, w: Word)
    requires Owned(lo, mem, free, owner) && IsDir(owner, pd) && Shows(mem, pd, s) && v in s.pages && i < ENTRIES
    ensures var f := FrameOf(Lookup(mem, pd, v));
            && IsUser(owner, f, pd, v)
            && var mem' := SetPage(mem, f, mem[f][i := w]);
            && Owned(lo, mem', free, owner) && Keeps(mem, owner, mem', owner, pd, v, v + 1)
            && Shows(mem', pd, Space(s.sz, s.pages[v := Mapped(s.pages[v].page[i := w], s.pages[v].flags)]))
  {
    assert Reads(mem, pd, v, s.pages);
    UserFrame(lo, mem, free, owner, pd, v);
    var f := FrameOf(Lookup(mem, pd, v));
    var p := mem[f][i := w];
    var mem' := SetPage(mem, f, p);
    DataPage(lo, mem, free, owner, f, p);
    PageKeeps(lo, mem, free, owner, f, p, pd, v, v + 1);
    LookupData(lo, mem, free, owner, f, p, pd, v);
    StoredReads(lo, mem, free, owner, mem', pd, s, v, i, w);
  }

  // ---- Which directories there are, and that no frame stays in the hands of the code ------

  ghost predicate NoneHeld(owner: Owners) { forall f <- owner :: !owner[f].Held? }

  lemma DirsSame(owner: Owners, owner': Owners, pd: nat, from: nat, to: nat)
    requires Extends(owner, owner') && Adds(owner, owner', pd, from, to) && NoneHeld(owner)
    ensures NoneHeld(owner') && forall p: nat :: IsDir(owner', p) <==> IsDir(owner, p)
  {}

  lemma DirsPlus(owner: Owners, owner': Owners, d: nat, to: nat)
    requires Extends(owner, owner') && Adds(owner[d := Dir], owner', d, 0, to) && IsDir(owner', d) && NoneHeld(owner)
    ensures NoneHeld(owner') && forall p: nat :: IsDir(owner', p) <==> p == d || IsDir(owner, p)
  {}

  lemma DirsCut(owner: Owners, pd: nat, from: nat, to: nat)
    requires NoneHeld(owner)
    ensures NoneHeld(Cut(owner, pd, from, to))
    ensures forall p: nat :: IsDir(Cut(owner, pd, from, to), p) <==> IsDir(owner, p)
  {}

  lemma {:induction false} CountDistinct(s: seq<nat>, elems: set<nat>)
    requires forall i, j :: 0 <= i < j < |s| ==> s[i] != s[j]
    requires forall x :: x in elems <==> x in s
    ensures |s| == |elems|
  {
    if s == [] {
      assert elems == {};
    } else {
      var t, x := s[..|s| - 1], s[|s| - 1];
      assert s == t + [x] && x !in t;
      CountDistinct(t, elems - {x});
    }
  }

  /** No directory, nothing held: every frame is back with the allocator. */
  lemma NoneLost(lo: nat, mem: Memory, free: seq<nat>, owner: Owners)
    requires Owned(lo, mem, free, owner) && NoneHeld(owner) && forall p: nat :: !IsDir(owner, p)
    ensures owner == map[] && |free| == PHYSFRAMES - lo
  {
    assert forall f <- owner :: owner[f].Table? || owner[f].User? || IsDir(owner, f);
    assert owner.Keys == {};
    hide TablesOk, UsersOk;
    SlotsCount(lo, PHYSFRAMES);
    CountDistinct(free, Slots(lo, PHYSFRAMES));
  }

  lemma Absent(mem: Memory, pd: nat, s: Space, newsz: nat)
    requires Shows(mem, pd, s) && newsz < KERNBASE
    ensures forall v: nat :: PageUp(s.sz) <= v < PageUp(newsz) ==> !Present(Lookup(mem, pd, v))
  {
    hide Lookup;
    forall v: nat | PageUp(s.sz) <= v < PageUp(newsz) ensures !Present(Lookup(mem, pd, v)) {
      assert Reads(mem, pd, v, s.pages);
    }
  }

  lemma SizeOk(mem: Memory, pd: nat, s: Space)
    requires Shows(mem, pd, s)
    ensures s.sz <= KERNBASE && forall v: nat :: v < PageUp(s.sz) ==> Present(Lookup(mem, pd, v))
  {
    hide Lookup;
    forall v: nat | v < PageUp(s.sz) ensures Present(Lookup(mem, pd, v)) {
      assert Reads(mem, pd, v, s.pages);
    }
  }

  lemma FreeShows(lo: nat, mem: Memory, free: seq<nat>, owner: Owners, mem': Memory, pd: nat, spaces: Spaces)
    requires Owned(lo, mem, free, owner) && Refines(mem, owner, spaces) && pd in spaces
    requires Keeps(mem, Without(owner, pd), mem', Without(owner, pd), 0, 0, 0) && NoneHeld(owner)
    ensures Refines(mem', Without(owner, pd), spaces - {pd}) && NoneHeld(Without(owner, pd))
  {
    hide Lookup, Owned;
    forall p: nat ensures IsDir(Without(owner, pd), p) <==> (p != pd && IsDir(owner, p)) {}
    forall p: nat | p in spaces && p != pd ensures Shows(mem', p, spaces[p]) {
      assert Shows(mem, p, spaces[p]);
      forall v: nat | v < USERPAGES ensures Reads(mem', p, v, spaces[p].pages) {
        assert Reads(mem, p, v, spaces[p].pages);
        KeepsLookup(mem, Without(owner, pd), mem', Without(owner, pd), 0, 0, 0, p, v);
        if v in spaces[p].pages { UserFrame(lo, mem, free, owner, p, v); }
      }
    }
  }

  // ---- Serving requests ------------------------------------------------------------------

  /** The answer to q with `room` frames free. Frames decide: a request is refused exactly when it needs more
      than there are. */
  ghost predicate Answered(mem: Memory, room: nat, spaces: Spaces, q: Request, r: nat) {
    if !Allowed(spaces, q) then r == 0
    else
      match q
      case Create => (r == 0 <==> room < KTABLES + 1) && (r != 0 ==> r !in spaces)
      case Grow(pd, newsz) =>
        var sz := spaces[pd].sz;
        r == if newsz >= KERNBASE then 0
             else if newsz < sz then sz
             else if Needed(Tables(mem, pd), PageUp(sz), PageUp(newsz)) <= room then newsz else 0
      case Shrink(pd, newsz) => r == Min(newsz, spaces[pd].sz)
      case Copy(pd) =>
        var n := PageUp(spaces[pd].sz);
        (r == 0 <==> room < KTABLES + 1 + n + TablesFor(n)) && (r != 0 ==> r !in spaces)
      case Free(pd) => r == 0
      case Store(pd, v, i, w) => r == 0
  }

  method Serve(m: Machine, data: nat, spaces: Spaces, q: Request) returns (r: nat)
    requires m.Valid() && Refines(m.mem, m.owner, spaces) && NoneHeld(m.owner) && Allowed(spaces, q) && DataOk(data)
    modifies m
    ensures m.Valid() && Refines(m.mem, m.owner, Apply(spaces, q, r)) && NoneHeld(m.owner)
    ensures Answered(old(m.mem), |old(m.free)|, spaces, q, r)
  {
    hide Needed, Tables, TablesFor, NoneHeld, Owned, Keeps, Shows, Adds, Extends, Lookup, KernelEntry, CopyOf,
         ZeroMapped, FreeList, Cut, Without, Reads;
    ghost var mem0, free0, owner0 := m.mem, m.free, m.owner;
    match q
    case Create =>
      r := m.Setupkvm(data);
      OthersKept(m.lo, mem0, free0, owner0, m.mem, m.owner, 0, 0, 0, spaces);
      if r != 0 {
        DirsPlus(owner0, m.owner, r, 0);
        CreateShows(m.mem, data, r);
      }
    case Grow(pd, newsz) =>
      ghost var s := spaces[pd];
      if newsz < KERNBASE { Absent(mem0, pd, s, newsz); }
      SizeOk(mem0, pd, s);
      r := m.Allocuvm(pd, spaces[pd].sz, newsz);
      OthersKept(m.lo, mem0, free0, owner0, m.mem, m.owner, pd, PageUp(s.sz), PageUp(newsz), spaces);
      if s.sz <= newsz < KERNBASE {
        if r == newsz {
          DirsSame(owner0, m.owner, pd, if newsz == 0 then 0 else PageUp(s.sz), PageUp(newsz));
          GrowShows(m.lo, mem0, free0, owner0, m.mem, m.owner, pd, s, newsz);
        } else {
          DirsSame(owner0, m.owner, pd, 0, 0);
          GrowFails(m.lo, mem0, free0, owner0, m.mem, m.owner, pd, s, newsz);
        }
      }
    case Shrink(pd, newsz) =>
      ghost var s := spaces[pd];
      SizeOk(mem0, pd, s);
      r := m.Deallocuvm(pd, spaces[pd].sz, newsz);
      OthersKept(m.lo, mem0, free0, owner0, m.mem, m.owner, pd, PageUp(newsz), PageUp(s.sz), spaces);
      if newsz < s.sz {
        ShrinkShows(m.lo, mem0, free0, owner0, m.mem, m.owner, pd, s, newsz);
        DirsCut(owner0, pd, PageUp(newsz), PageUp(s.sz));
      }
    case Copy(pd) =>
      ghost var s := spaces[pd];
      SizeOk(mem0, pd, s);
      r := m.Copyuvm(data, pd, spaces[pd].sz);
      OthersKept(m.lo, mem0, free0, owner0, m.mem, m.owner, 0, 0, 0, spaces);
      if r != 0 {
        DirsPlus(owner0, m.owner, r, PageUp(s.sz));
        CopyShows(mem0, owner0, m.mem, m.owner, data, pd, r, s);
      }
    case Free(pd) =>
      r := 0;
      m.Freevm(pd);
      FreeShows(m.lo, mem0, free0, owner0, m.mem, pd, spaces);
    case Store(pd, v, i, w) =>
      r := 0;
      Absent(mem0, pd, spaces[pd], 0);
      StoreShows(m.lo, m.mem, m.free, m.owner, pd, spaces[pd], v, i, w);
      var f := FrameOf(Lookup(m.mem, pd, v));
      NotFree(m.lo, m.mem, m.free, m.owner, f);
      FreeListFrame(m.lo, m.mem, m.freelist, m.free, SetPage(m.mem, f, m.mem[f][i := w]));
      OthersKept(m.lo, mem0, free0, owner0, SetPage(m.mem, f, m.mem[f][i := w]), owner0, pd, v, v + 1, spaces);
      m.mem := SetPage(m.mem, f, m.mem[f][i := w]);
  }

  /** A whole run on maps; a request its caller may not make is skipped. */
  function ApplyAll(qs: seq<Request>, rs: seq<nat>): Spaces
    requires |qs| == |rs|
  {
    if qs == [] then map[]
    else
      var spaces := ApplyAll(qs[..|qs| - 1], rs[..|qs| - 1]);
      if Allowed(spaces, qs[|qs| - 1]) then Apply(spaces, qs[|qs| - 1], rs[|qs| - 1]) else spaces
  }

  // ---- Whole runs ------------------------------------------------------------------------

  /** What a run goes through. */
  datatype Stage = Stage(mem: Memory, free: seq<nat>, owner: Owners)

  ghost predicate Sound(lo: nat, s: Stage, spaces: Spaces) {
    Owned(lo, s.mem, s.free, s.owner) && NoneHeld(s.owner) && Refines(s.mem, s.owner, spaces)
  }

  /** At every stage the accounts are in order and every address space reads as its map; every request has
      the answer the stage before it dictates. */
  ghost predicate History(lo: nat, qs: seq<Request>, rs: seq<nat>, stages: seq<Stage>) {
    && |rs| == |qs| && |stages| == |qs| + 1
    && (forall k :: 0 <= k <= |qs| ==> Sound(lo, stages[k], ApplyAll(qs[..k], rs[..k])))
    && (forall k :: 0 <= k < |qs| ==>
          Answered(stages[k].mem, |stages[k].free|, ApplyAll(qs[..k], rs[..k]), qs[k], rs[k]))
  }

  lemma HistorySnoc(lo: nat, qs: seq<Request>, rs: seq<nat>, stages: seq<Stage>, q: Request, r: nat, s: Stage)
    requires History(lo, qs, rs, stages)
    requires Answered(stages[|qs|].mem, |stages[|qs|].free|, ApplyAll(qs, rs), q, r)
    requires Sound(lo, s, ApplyAll(qs + [q], rs + [r]))
    ensures History(lo, qs + [q], rs + [r], stages + [s])
  {
    hide Sound, Answered, ApplyAll;
    var qs', rs', stages' := qs + [q], rs + [r], stages + [s];
    assert qs[..|qs|] == qs && rs[..|qs|] == rs && qs'[..|qs'|] == qs' && rs'[..|qs'|] == rs';
    forall k | 0 <= k <= |qs| ensures qs'[..k] == qs[..k] && rs'[..k] == rs[..k] && stages'[k] == stages[k] {}
  }

  /** From boot: kinit, then any requests at all. */
  method ServeAll(lo: nat, start: Memory, data: nat, qs: seq<Request>)
    returns (m: Machine, rs: seq<nat>, ghost stages: seq<Stage>)
    requires 1 <= lo <= PHYSFRAMES && DataOk(data)
    ensures |rs| == |qs| && History(lo, qs, rs, stages)
    ensures m.Valid() && m.lo == lo && stages[|qs|] == Stage(m.mem, m.free, m.owner)
    ensures |stages[0].free| == PHYSFRAMES - lo
    ensures ApplyAll(qs, rs) == map[] ==> |m.free| == PHYSFRAMES - lo
  {
    hide Owned, FreeList, Shows, Apply, Allowed, Answered, NoneHeld, History;
    m := new Machine(lo, start);
    rs := [];
    var spaces: Spaces := map[];
    stages := [Stage(m.mem, m.free, m.owner)];
    HistoryStart(lo, stages[0]);
    var k := 0;
    while k < |qs|
      invariant k == |rs| <= |qs| && fresh(m) && m.Valid() && m.lo == lo && spaces == ApplyAll(qs[..k], rs)
      invariant |stages| == k + 1 && stages[k] == Stage(m.mem, m.free, m.owner) && |stages[0].free| == PHYSFRAMES - lo
      invariant NoneHeld(m.owner) && Refines(m.mem, m.owner, spaces) && History(lo, qs[..k], rs, stages)
    {
      var r := 0;
      if Allowed(spaces, qs[k]) {
        r := Serve(m, data, spaces, qs[k]);
      } else {
        Refused(m.mem, |m.free|, spaces, qs[k]);
      }
      ApplyNext(qs[..k], rs, qs[k], r);
      if Allowed(spaces, qs[k]) {
        spaces := Apply(spaces, qs[k], r);
      }
      HistorySnoc(lo, qs[..k], rs, stages, qs[k], r, Stage(m.mem, m.free, m.owner));
      assert qs[..k + 1] == qs[..k] + [qs[k]];
      rs := rs + [r];
      stages := stages + [Stage(m.mem, m.free, m.owner)];
      k := k + 1;
    }
    assert qs[..k] == qs;
    if spaces == map[] {
      NoneLost(lo, m.mem, m.free, m.owner);
    }
  }

  lemma ApplyNext(qs: seq<Request>, rs: seq<nat>, q: Request, r: nat)
    requires |qs| == |rs|
    ensures var spaces := ApplyAll(qs, rs);
            ApplyAll(qs + [q], rs + [r]) == if Allowed(spaces, q) then Apply(spaces, q, r) else spaces
  {
    assert (qs + [q])[..|qs|] == qs && (rs + [r])[..|qs|] == rs;
  }

  lemma Refused(mem: Memory, room: nat, spaces: Spaces, q: Request)
    requires !Allowed(spaces, q)
    ensures Answered(mem, room, spaces, q, 0)
  {}

  lemma HistoryStart(lo: nat, s: Stage)
    requires Owned(lo, s.mem, s.free, s.owner) && s.owner == map[]
    ensures History(lo, [], [], [s]) && NoneHeld(s.owner) && Refines(s.mem, s.owner, map[])
  {
    hide Owned;
  }
}
