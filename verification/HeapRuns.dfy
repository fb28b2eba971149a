/** Programs using the heap. Whatever is allocated, freed and stored, each live block reads back what
    was last stored in it, malloc refuses only when no free block is large enough and sbrk gives no more, and
    the blocks add up to the memory obtained from sbrk. */
module HeapRuns {
  import opened HeapSpec
  import opened HeapProofs
  import opened HeapCode

  // ---- How large a request may be ----------------------------------------------------------

  /** malloc's block has room for the bytes asked for exactly when the rounding does not wrap, and less than
      one unit more. */
  lemma AdequateIff(nbytes: nat)
    requires nbytes < WORD
    ensures (Units(nbytes) - 1) * SIZEOF >= nbytes <==> nbytes + SIZEOF - 1 < WORD
    ensures (Units(nbytes) - 1) * SIZEOF < nbytes + SIZEOF
  {}

  /** A request of 2^32 - 1 bytes is answered with a bare header. */
  lemma WrappedRequest()
    ensures Units(WORD - 1) == 1
  {}

  /** When sbrk succeeds, the break has moved over all the units morecore hands to free exactly when
      there are fewer than 2^28; no heap can hold a block of more. */
  lemma GrantIff(sz: nat, nu: nat, granted: bool)
    requires 0 < sz < KERNBASE && 4096 <= nu <= MOST && NewBreak(sz, Asked(nu), granted) != 0
    ensures NewBreak(sz, Asked(nu), granted) == sz + nu * SIZEOF <==> nu < LIMIT
  {
    AskedIff(nu);
  }

  /** 2^28 units: sbrk reports success and the break stays where it was. */
  lemma GrantFails(sz: nat)
    requires 0 < sz < KERNBASE
    ensures NewBreak(sz, Asked(LIMIT), true) == sz
  {}

  // ---- What the program sees ---------------------------------------------------------------

  /** Live blocks with what is stored in them, the header apart. */
  type View = map<nat, seq<Header>>

  datatype Op =
    | Malloc(nbytes: nat, granted: bool)
    | Free(b: nat)
    | Sbrk(units: nat, granted: bool)
    | Store(b: nat, i: nat, x: Header)

  predicate Allowed(view: View, op: Op) {
    match op
    case Malloc(nbytes, granted) => nbytes < WORD && Units(nbytes) < LIMIT
    case Free(b) => b in view
    case Sbrk(units, granted) => units < LIMIT
    case Store(b, i, x) => b in view && i < |view[b]|
  }

  /** r is malloc's block, 0 if there is none, and `junk` what happens to be in it. */
  function Apply(view: View, op: Op, r: nat, junk: seq<Header>): View
    requires Allowed(view, op)
  {
    match op
    case Malloc(nbytes, granted) => if r == 0 then view else view[r := junk]
    case Free(b) => view - {b}
    case Sbrk(units, granted) => view
    case Store(b, i, x) => view[b := view[b][i := x]]
  }

  ghost predicate Shows(mem: Memory, live: set<nat>, blocks: Blocks, view: View) {
    && (forall b :: b in view <==> b in live)
    && (forall b <- view ::
          && b in blocks && 1 <= blocks[b] && b + blocks[b] <= UNITS
          && view[b] == mem[b + 1..b + blocks[b]])
  }

  lemma ShowsKept(mem: Memory, live: set<nat>, blocks: Blocks, view: View, mem': Memory, live': set<nat>,
                  blocks': Blocks)
    requires Shows(mem, live, blocks, view) && live' <= live && LiveKept(live', blocks, mem, blocks', mem')
    ensures Shows(mem', live', blocks', view - (live - live'))
  {
    forall b | b in live' ensures mem'[b + 1..b + blocks[b]] == mem[b + 1..b + blocks[b]] {
      assert Intact(b, blocks[b], mem, mem');
    }
  }

  lemma Below(base: nat, mem: Memory, freep: nat, ring: seq<nat>, live: set<nat>, blocks: Blocks, arena: set<nat>,
              brk: nat, b: nat)
    requires Lists(base, mem, freep, ring, live, blocks, arena) && Rooms(base, arena, brk) && b in live
    ensures b in blocks && 1 <= blocks[b] && b + blocks[b] <= UNITS && b >= 1
  {
    assert b + blocks[b] - 1 in arena;
  }

  /** A store inside a live block touches no header. */
  lemma StoreInside(base: nat, mem: Memory, freep: nat, ring: seq<nat>, live: set<nat>, blocks: Blocks,
                    arena: set<nat>, b: nat, i: nat, x: Header)
    requires Lists(base, mem, freep, ring, live, blocks, arena) && b in live && b in blocks && 1 <= i < blocks[b]
    requires b + i < UNITS
    ensures var mem' := mem[b + i := x];
            Lists(base, mem', freep, ring, live, blocks, arena) && LiveKept(live - {b}, blocks, mem, blocks, mem')
  {
    hide Accounts, Tiles, Chain, Sizes, LiveKept;
    Interior(base, ring, live, blocks, arena, b, i);
    PutBeside(mem, ring, base, b + i, x);
    InteriorSizes(mem, base, blocks, b + i, x);
    LiveIn(base, ring, live, blocks);
    StoreOutside(blocks, arena, live - {b}, mem, b + i, b, x);
  }

  lemma LiveIn(base: nat, ring: seq<nat>, live: set<nat>, blocks: Blocks)
    requires Accounts(base, ring, live, blocks)
    ensures forall b <- live :: b in blocks
  {}

  lemma Interior(base: nat, ring: seq<nat>, live: set<nat>, blocks: Blocks, arena: set<nat>, b: nat, i: nat)
    requires Accounts(base, ring, live, blocks) && Tiles(blocks, arena) && b in blocks && 1 <= i < blocks[b]
    ensures b + i !in blocks && b + i !in ring && base < b + i
  {
    assert b + i !in blocks;
  }

  lemma InteriorSizes(mem: Memory, base: nat, blocks: Blocks, u: nat, x: Header)
    requires Sizes(mem, base, blocks) && u < UNITS && u !in blocks && u != base
    ensures Sizes(mem[u := x], base, blocks)
  {}

  /** What a run goes through. */
  datatype Stage = Stage(mem: Memory, live: set<nat>, blocks: Blocks, arena: set<nat>, brk: nat)

  ghost function Now(h: Heap): Stage
    reads h
  {
    Stage(h.mem, h.live, h.blocks, h.arena, h.brk)
  }

  /** The answer to an operation, and what it takes from sbrk. malloc gives no block exactly when no free one
      is large enough and sbrk refuses; it asks sbrk for memory only when no free block is large enough. */
  ghost predicate Answered(s: Stage, view: View, op: Op, r: nat, junk: seq<Header>, s': Stage) {
    if !Allowed(view, op) then r == 0 && s' == s
    else
      match op
      case Malloc(nbytes, granted) =>
        var n := Units(nbytes);
        && (r == 0 <==> NoneFree(s.live, s.blocks, n) && Refused(s.brk, n, granted))
        && (r != 0 ==> r !in view && |junk| == n - 1)
        && if r != 0 && NoneFree(s.live, s.blocks, n) then Grown(s.arena, s.brk, n, s'.arena, s'.brk)
           else s'.arena == s.arena && s'.brk == s.brk
      case Sbrk(units, granted) =>
        && s'.arena == s.arena
        && if units == 0 || (granted && s.brk + units * SIZEOF < KERNBASE)
           then r == s.brk && s'.brk == s.brk + units * SIZEOF
           else r == 0 && s'.brk == s.brk
      case _ => r == 0 && s'.arena == s.arena && s'.brk == s.brk
  }

  /** One operation, through the code. */
  method Do(h: Heap, op: Op, view: View) returns (r: nat, junk: seq<Header>)
    requires h.Valid() && Shows(h.mem, h.live, h.blocks, view) && Allowed(view, op)
    modifies h
    ensures h.Valid() && Shows(h.mem, h.live, h.blocks, Apply(view, op, r, junk))
    ensures Answered(old(Now(h)), view, op, r, junk, Now(h))
  {
    hide Lists, Rooms, LiveKept, Shows, NoneFree, Refused, Grown, Progress, Units;
    r, junk := 0, [];
    ghost var mem0, live0, blocks0 := h.mem, h.live, h.blocks;
    match op
    case Malloc(nbytes, granted) =>
      ghost var calls;
      var p;
      var over;
      p, over, calls := h.Malloc(nbytes, granted);
      ShowsKept(mem0, live0, blocks0, view, h.mem, live0, h.blocks);
      assert view - (live0 - live0) == view;
      if p != 0 {
        r := p - 1;
        SameLive(h.mem, live0, h.blocks, view);
        Below(h.base, h.mem, h.freep, h.ring, h.live, h.blocks, h.arena, h.brk, r);
        UnitsBounds(nbytes);
        junk := h.mem[r + 1..r + Units(nbytes)];
        ShowsNew(h.mem, live0, h.blocks, view, r);
      }
    case Free(b) =>
      SameLive(mem0, live0, blocks0, view);
      h.Free(b);
      Whole(h.base, h.mem, h.freep, h.ring, h.live, h.blocks, h.arena);
      ShowsKept(mem0, live0, blocks0, view, h.mem, h.live, h.blocks);
      assert live0 - h.live == {b};
    case Sbrk(units, granted) =>
      ghost var brk0 := h.brk;
      RoomsUp(h.base, h.arena, brk0, units, granted);
      var p := h.Sbrk(units * SIZEOF, granted);
      if p != -1 {
        r := p;
      }
    case Store(b, i, x) =>
      SameLive(mem0, live0, blocks0, view);
      Below(h.base, h.mem, h.freep, h.ring, h.live, h.blocks, h.arena, h.brk, b);
      PayloadOf(mem0, live0, blocks0, view, b);
      StoreInside(h.base, h.mem, h.freep, h.ring, h.live, h.blocks, h.arena, b, i + 1, x);
      h.mem := h.mem[b + (i + 1) := x];
      ShowsKept(mem0, live0, blocks0, view, h.mem, live0 - {b}, h.blocks);
      StoreShown(mem0, live0, blocks0, view, b, i, x);
  }

  lemma SameLive(mem: Memory, live: set<nat>, blocks: Blocks, view: View)
    requires Shows(mem, live, blocks, view)
    ensures forall b :: b in view <==> b in live
  {}

  lemma PayloadOf(mem: Memory, live: set<nat>, blocks: Blocks, view: View, b: nat)
    requires Shows(mem, live, blocks, view) && b in view
    ensures b in blocks && |view[b]| == blocks[b] - 1
  {}

  lemma ShowsNew(mem: Memory, live: set<nat>, blocks: Blocks, view: View, r: nat)
    requires Shows(mem, live, blocks, view) && r !in live && r in blocks && 1 <= blocks[r] && r + blocks[r] <= UNITS
    ensures Shows(mem, live + {r}, blocks, view[r := mem[r + 1..r + blocks[r]]])
  {}

  lemma StoreShown(mem: Memory, live: set<nat>, blocks: Blocks, view: View, b: nat, i: nat, x: Header)
    requires Shows(mem, live, blocks, view) && b in view && i < |view[b]| && b + (i + 1) < UNITS
    requires Shows(mem[b + (i + 1) := x], live - {b}, blocks, view - (live - (live - {b})))
    ensures Shows(mem[b + (i + 1) := x], live, blocks, view[b := view[b][i := x]])
  {
    var mem' := mem[b + (i + 1) := x];
    assert mem'[b + 1..b + blocks[b]] == view[b][i := x];
    forall c <- view | c != b ensures view[c] == mem'[c + 1..c + blocks[c]] {
      assert c in view - (live - (live - {b}));
    }
  }

  lemma RoomsUp(base: nat, arena: set<nat>, brk: nat, units: nat, granted: bool)
    requires Rooms(base, arena, brk) && units < LIMIT
    ensures 0 < brk < KERNBASE
    ensures var brk' := NewBreak(brk, units * SIZEOF, granted); brk' != 0 ==> Rooms(base, arena, brk')
  {}

  // ---- Whole runs --------------------------------------------------------------------------

  /** An operation the program may not make is skipped. */
  function ApplyAll(ops: seq<Op>, rs: seq<nat>, junks: seq<seq<Header>>): View
    requires |ops| == |rs| == |junks|
  {
    if ops == [] then map[]
    else
      var k := |ops| - 1;
      var view := ApplyAll(ops[..k], rs[..k], junks[..k]);
      if Allowed(view, ops[k]) then Apply(view, ops[k], rs[k], junks[k]) else view
  }

  ghost predicate Sound(s: Stage, view: View) {
    Shows(s.mem, s.live, s.blocks, view) && Sum(s.blocks) == |s.arena|
  }

  /** At every stage the live blocks read as their view and the blocks add up; every operation has the answer
      the stage before it dictates. */
  ghost predicate History(ops: seq<Op>, rs: seq<nat>, junks: seq<seq<Header>>, stages: seq<Stage>) {
    && |rs| == |junks| == |ops| && |stages| == |ops| + 1
    && (forall k :: 0 <= k <= |ops| ==> Sound(stages[k], ApplyAll(ops[..k], rs[..k], junks[..k])))
    && (forall k :: 0 <= k < |ops| ==>
          Answered(stages[k], ApplyAll(ops[..k], rs[..k], junks[..k]), ops[k], rs[k], junks[k], stages[k + 1]))
  }

  lemma HistorySnoc(ops: seq<Op>, rs: seq<nat>, junks: seq<seq<Header>>, stages: seq<Stage>, op: Op, r: nat,
                    junk: seq<Header>, s: Stage)
    requires History(ops, rs, junks, stages)
    requires Answered(stages[|ops|], ApplyAll(ops, rs, junks), op, r, junk, s)
    requires Sound(s, ApplyAll(ops + [op], rs + [r], junks + [junk]))
    ensures History(ops + [op], rs + [r], junks + [junk], stages + [s])
  {
    hide Sound, Answered, ApplyAll;
    var n, ops', rs', junks' := |ops|, ops + [op], rs + [r], junks + [junk];
    assert ops[..n] == ops && rs[..n] == rs && junks[..n] == junks;
    assert ops'[..n + 1] == ops' && rs'[..n + 1] == rs' && junks'[..n + 1] == junks';
    forall k | 0 <= k <= n ensures ops'[..k] == ops[..k] && rs'[..k] == rs[..k] && junks'[..k] == junks[..k] {}
  }

  lemma ApplyNext(ops: seq<Op>, rs: seq<nat>, junks: seq<seq<Header>>, op: Op, r: nat, junk: seq<Header>)
    requires |ops| == |rs| == |junks|
    ensures var view := ApplyAll(ops, rs, junks);
            ApplyAll(ops + [op], rs + [r], junks + [junk]) ==
            if Allowed(view, op) then Apply(view, op, r, junk) else view
  {
    var n := |ops|;
    assert (ops + [op])[..n] == ops && (rs + [r])[..n] == rs && (junks + [junk])[..n] == junks;
  }

  method DoAll(h: Heap, ops: seq<Op>) returns (rs: seq<nat>, junks: seq<seq<Header>>, ghost stages: seq<Stage>)
    requires h.Valid() && h.live == {}
    modifies h
    ensures h.Valid() && History(ops, rs, junks, stages) && stages[0] == old(Now(h)) && stages[|ops|] == Now(h)
  {
    hide Lists, Rooms, Shows, Apply, Allowed, Sum, Tiles, Answered, History;
    rs, junks := [], [];
    var view: View := map[];
    Balanced(h);
    HistoryStart(Now(h));
    stages := [Now(h)];
    var k := 0;
    while k < |ops|
      invariant k == |rs| == |junks| <= |ops| && h.Valid() && view == ApplyAll(ops[..k], rs, junks)
      invariant Shows(h.mem, h.live, h.blocks, view)
      invariant |stages| == k + 1 && stages[0] == old(Now(h)) && stages[k] == Now(h)
      invariant History(ops[..k], rs, junks, stages)
    {
      var r, junk := 0, [];
      if Allowed(view, ops[k]) {
        r, junk := Do(h, ops[k], view);
      } else {
        Skipped(Now(h), view, ops[k]);
      }
      ApplyNext(ops[..k], rs, junks, ops[k], r, junk);
      if Allowed(view, ops[k]) {
        view := Apply(view, ops[k], r, junk);
      }
      Balanced(h);
      HistorySnoc(ops[..k], rs, junks, stages, ops[k], r, junk, Now(h));
      assert ops[..k + 1] == ops[..k] + [ops[k]];
      rs, junks, stages := rs + [r], junks + [junk], stages + [Now(h)];
      k := k + 1;
    }
    assert ops[..k] == ops;
  }

  lemma Skipped(s: Stage, view: View, op: Op)
    requires !Allowed(view, op)
    ensures Answered(s, view, op, 0, [], s)
  {}

  lemma HistoryStart(s: Stage)
    requires s.live == {} && Sum(s.blocks) == |s.arena|
    ensures History([], [], [], [s]) && Shows(s.mem, s.live, s.blocks, map[])
  {
    hide Sum;
  }

  lemma Balanced(h: Heap)
    requires h.Valid()
    ensures Sum(h.blocks) == |h.arena|
  {
    UnitsConserved(h.blocks, h.arena);
  }
}
