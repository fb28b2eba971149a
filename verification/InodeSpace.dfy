/** How many free blocks a write takes. */
module InodeSpace {
  import opened FsBlocks
  import opened InodeSpec

  /** The blocks whose bitmap bit is clear. */
  function FreeSet(sb: Super, disk: seq<Block>): set<nat>
    requires sb.Valid() && |disk| == sb.size
  {
    set b: nat | b < sb.size && !InUse(sb, disk, b)
  }

  /** The slots blocks [from, end) of a file need, with that of the indirect block if one of them is indirect. */
  function SlotsFor(from: nat, end: nat): set<nat> {
    (set bn: nat | from <= bn < end :: SlotOf(bn)) + if from < end && end > NDIRECT then {NDIRECT} else {}
  }

  /** Those of them that have no block yet. */
  function Missing(disk: seq<Block>, ip: Inode, from: nat, end: nat): set<nat>
    requires InodeOk(ip) && end <= MAXFILE
  {
    set s | s in SlotsFor(from, end) && s < SLOTS && Ref(disk, ip, s) == 0
  }

  /** The block after the last one that bytes [off, off + n) touch. */
  function EndBlock(off: nat, n: nat): nat { if n == 0 then off / BSIZE else (off + n - 1) / BSIZE + 1 }

  /** How many blocks a write of n bytes at off lacks. */
  function Lacking(disk: seq<Block>, ip: Inode, off: nat, n: nat): nat
    requires InodeOk(ip) && EndBlock(off, n) <= MAXFILE
  {
    |Missing(disk, ip, off / BSIZE, EndBlock(off, n))|
  }

  /** Fewer blocks are free than the write lacks. */
  predicate Short(sb: Super, disk: seq<Block>, ip: Inode, off: nat, n: nat)
    requires sb.Valid() && |disk| == sb.size && InodeOk(ip)
  {
    EndBlock(off, n) <= MAXFILE && |FreeSet(sb, disk)| < Lacking(disk, ip, off, n)
  }

  /** The blocks of a file, indirect block included. */
  function BlocksOf(disk: seq<Block>, ip: Inode): set<nat>
    requires InodeOk(ip)
  {
    set s: nat | s < SLOTS && Ref(disk, ip, s) != 0 :: Ref(disk, ip, s)
  }

  lemma SlotsNone(from: nat)
    ensures SlotsFor(from, from) == {}
  {}

  lemma SlotsOne(bn: nat)
    requires bn < MAXFILE
    ensures SlotsFor(bn, bn + 1) == {SlotOf(bn)} + if bn >= NDIRECT then {NDIRECT} else {}
    ensures SlotOf(bn) < SLOTS
  {
    var one := set x: nat | bn <= x < bn + 1 :: SlotOf(x);
    assert SlotOf(bn) in one;
    assert one == {SlotOf(bn)};
  }

  lemma SlotsMore(from: nat, bn: nat)
    requires from <= bn
    ensures SlotsFor(from, bn + 1) == SlotsFor(from, bn) + SlotsFor(bn, bn + 1)
  {
    var a, b, c := (set x: nat | from <= x < bn + 1 :: SlotOf(x)), (set x: nat | from <= x < bn :: SlotOf(x)),
      (set x: nat | bn <= x < bn + 1 :: SlotOf(x));
    forall s ensures s in a <==> s in b || s in c {
      if s in a {
        var x: nat :| from <= x < bn + 1 && s == SlotOf(x);
        assert x < bn ==> s in b;
        assert x == bn ==> s in c;
      }
    }
    assert a == b + c;
  }

  lemma {:induction false} SlotsWithin(from: nat, bn: nat, end: nat)
    requires from <= bn <= end
    ensures SlotsFor(from, bn) <= SlotsFor(from, end)
    decreases end - bn
  {
    hide SlotsFor;
    if bn < end {
      SlotsMore(from, bn);
      SlotsWithin(from, bn + 1, end);
    }
  }

  // ---- Counting by owners ----------------------------------------------------------------

  /** The slots of inode i that have a block. */
  function Slots(owner: Owners, i: nat): set<nat> { set b | b in owner && owner[b].ino == i :: owner[b].slot }

  /** One block more for slot s of inode i. */
  lemma SlotsGain(owner: Owners, i: nat, s: nat, b: nat)
    requires b !in owner && s !in Slots(owner, i)
    ensures Slots(owner[b := Slot(i, s)], i) == Slots(owner, i) + {s}
    ensures |owner[b := Slot(i, s)]| == |owner| + 1
    ensures |Slots(owner[b := Slot(i, s)], i)| == |Slots(owner, i)| + 1
  {
    var owner' := owner[b := Slot(i, s)];
    forall x ensures x in Slots(owner', i) <==> x in Slots(owner, i) || x == s {
      if x in Slots(owner, i) {
        var c :| c in owner && owner[c].ino == i && owner[c].slot == x;
        assert c in owner' && owner'[c] == owner[c];
      }
      if x == s { assert b in owner' && owner'[b] == Slot(i, s); }
    }
  }

  lemma SlotsRef(sb: Super, disk: seq<Block>, inodes: seq<Inode>, owner: Owners, i: nat, s: nat)
    requires Owned(sb, disk, inodes, owner) && i < |inodes| && s < SLOTS
    ensures InodeOk(inodes[i]) && (s in Slots(owner, i) <==> Ref(disk, inodes[i], s) != 0)
  {
    hide BitsOk, Ref;
    if Ref(disk, inodes[i], s) != 0 {
      assert owner[Ref(disk, inodes[i], s)] == Slot(i, s);
    }
    if s in Slots(owner, i) {
      var b :| b in owner && owner[b].ino == i && owner[b].slot == s;
      assert Ref(disk, inodes[i], s) == b;
    }
  }

  lemma MissingIs(sb: Super, disk: seq<Block>, inodes: seq<Inode>, owner: Owners, i: nat, from: nat, end: nat)
    requires Owned(sb, disk, inodes, owner) && i < |inodes| && end <= MAXFILE
    ensures InodeOk(inodes[i]) && Missing(disk, inodes[i], from, end) == SlotsFor(from, end) - Slots(owner, i)
  {
    hide Owned, Ref, Slots;
    SlotsRef(sb, disk, inodes, owner, i, 0);
    forall s | s in SlotsFor(from, end)
      ensures s < SLOTS && (s in Slots(owner, i) <==> Ref(disk, inodes[i], s) != 0)
    {
      SlotsRef(sb, disk, inodes, owner, i, s);
    }
  }

  predicate Between(a: nat, x: nat, b: nat) { a <= x < b }

  function Range(a: nat, b: nat): set<nat> { set x: nat | a <= x < b && Between(a, x, b) }

  lemma {:induction false} RangeCount(a: nat, b: nat)
    requires a <= b
    ensures |Range(a, b)| == b - a
    decreases b - a
  {
    if a == b {
      assert Range(a, b) == {};
    } else {
      RangeCount(a, b - 1);
      assert Range(a, b) == Range(a, b - 1) + {b - 1};
    }
  }

  /** Data blocks are free or owned. */
  lemma FreeCount(sb: Super, disk: seq<Block>, inodes: seq<Inode>, owner: Owners)
    requires Owned(sb, disk, inodes, owner)
    ensures sb.Valid() && |disk| == sb.size
    ensures FreeSet(sb, disk) == Range(sb.nmeta, sb.size) - owner.Keys
    ensures |FreeSet(sb, disk)| + |owner| == sb.size - sb.nmeta
  {
    hide InUse, Ref;
    assert FreeSet(sb, disk) == Range(sb.nmeta, sb.size) - owner.Keys;
    assert owner.Keys <= Range(sb.nmeta, sb.size);
    assert Range(sb.nmeta, sb.size) == FreeSet(sb, disk) + owner.Keys;
    RangeCount(sb.nmeta, sb.size);
  }

  lemma FullCount(sb: Super, disk: seq<Block>)
    requires sb.Valid() && |disk| == sb.size && forall b :: 0 <= b < sb.size ==> InUse(sb, disk, b)
    ensures FreeSet(sb, disk) == {}
  {
    hide InUse;
  }

  lemma {:induction false} Fewer(a: set<nat>, b: set<nat>)
    requires a <= b
    ensures |a| <= |b| && (a != b ==> |a| < |b|)
  {
    if a != {} {
      var x :| x in a;
      Fewer(a - {x}, b - {x});
    }
  }

  /** What inode i has gained since (owner0) is what the allocator has lost. */
  predicate Charged(owner0: Owners, owner: Owners, i: nat) {
    |owner| + |Slots(owner0, i)| == |owner0| + |Slots(owner, i)|
  }

  lemma ChargedTrans(owner0: Owners, owner1: Owners, owner: Owners, i: nat)
    requires Charged(owner0, owner1, i) && Charged(owner1, owner, i)
    ensures Charged(owner0, owner, i)
  {}

  /** Inode i has got blocks for all of `slots` since owner0; or, if not `ok`, for some of them only. */
  predicate Took(owner0: Owners, owner: Owners, i: nat, slots: set<nat>, ok: bool) {
    && Charged(owner0, owner, i)
    && (ok ==> Slots(owner, i) == Slots(owner0, i) + slots)
    && (!ok ==> Slots(owner, i) < Slots(owner0, i) + slots)
  }

  lemma TookBoth(owner0: Owners, owner1: Owners, owner: Owners, i: nat, bn: nat, ok: bool)
    requires NDIRECT <= bn < MAXFILE && Took(owner0, owner1, i, {NDIRECT}, true)
    requires Took(owner1, owner, i, {SlotOf(bn)}, ok)
    ensures Took(owner0, owner, i, SlotsFor(bn, bn + 1), ok)
  {
    hide Slots, SlotsFor;
    SlotsOne(bn);
    assert Slots(owner0, i) + {NDIRECT} + {SlotOf(bn)} == Slots(owner0, i) + SlotsFor(bn, bn + 1);
  }

  lemma TookNeither(owner0: Owners, owner: Owners, i: nat, bn: nat)
    requires NDIRECT <= bn < MAXFILE && Took(owner0, owner, i, {NDIRECT}, false)
    ensures Took(owner0, owner, i, SlotsFor(bn, bn + 1), false)
  {
    hide Slots, SlotsFor;
    SlotsOne(bn);
  }

  /** The write has its blocks: as many are gone as were missing. */
  lemma Afforded(free0: nat, owner0: Owners, free: nat, owner: Owners, i: nat, slots: set<nat>)
    requires Charged(owner0, owner, i) && free + |owner| == free0 + |owner0|
    requires Slots(owner, i) == Slots(owner0, i) + slots
    ensures free == free0 - |slots - Slots(owner0, i)|
  {
    hide Slots;
    assert Slots(owner, i) == Slots(owner0, i) + (slots - Slots(owner0, i));
  }

  /** balloc has run out before all are there: fewer were free than are missing. */
  lemma RanOut(free0: nat, owner0: Owners, owner: Owners, i: nat, slots: set<nat>)
    requires Charged(owner0, owner, i) && |owner| == free0 + |owner0|
    requires Slots(owner, i) < Slots(owner0, i) + slots
    ensures free0 < |slots - Slots(owner0, i)|
  {
    hide Slots;
    Fewer(Slots(owner, i), Slots(owner0, i) + slots);
    assert Slots(owner0, i) + slots == Slots(owner0, i) + (slots - Slots(owner0, i));
  }

  // ---- A write, block by block -----------------------------------------------------------

  /** Since owner0, inode i has got the blocks that bytes [off, off + tot) lacked, and nothing else was taken. */
  predicate Spent(owner0: Owners, owner: Owners, i: nat, off: nat, tot: nat) {
    Charged(owner0, owner, i) && Slots(owner, i) == Slots(owner0, i) + SlotsFor(off / BSIZE, EndBlock(off, tot))
  }

  lemma SpentNone(owner: Owners, i: nat, off: nat)
    ensures Spent(owner, owner, i, off, 0)
  {
    SlotsNone(off / BSIZE);
  }

  /** The length of the piece of an n-byte write at off that starts with byte tot. */
  function Piece(off: nat, n: nat, tot: nat): nat
    requires tot <= n
  {
    if n - tot < BSIZE - (off + tot) % BSIZE then n - tot else BSIZE - (off + tot) % BSIZE
  }

  /** A piece starts at the end of the one before. */
  predicate AtPiece(off: nat, n: nat, tot: nat) { tot <= n && (tot == 0 || tot == n || (off + tot) % BSIZE == 0) }

  lemma NextPiece(off: nat, n: nat, tot: nat)
    requires AtPiece(off, n, tot) && tot < n
    ensures var m := Piece(off, n, tot);
            && 1 <= m <= n - tot && (off + tot) % BSIZE + m <= BSIZE && AtPiece(off, n, tot + m)
            && EndBlock(off, tot) == (off + tot) / BSIZE
            && EndBlock(off, tot + m) == (off + tot) / BSIZE + 1 <= EndBlock(off, n)
  {}

  lemma Pieces(off: nat, n: nat)
    ensures AtPiece(off, n, 0)
    ensures off + n <= MAXFILE * BSIZE && off < WORD ==> EndBlock(off, n) <= MAXFILE
  {}

  lemma SpentMore(owner0: Owners, owner1: Owners, owner: Owners, i: nat, off: nat, n: nat, tot: nat)
    requires AtPiece(off, n, tot) && tot < n && Spent(owner0, owner1, i, off, tot)
    requires var bn := (off + tot) / BSIZE; Took(owner1, owner, i, SlotsFor(bn, bn + 1), true)
    ensures Spent(owner0, owner, i, off, tot + Piece(off, n, tot))
  {
    hide Slots, SlotsFor, Charged, EndBlock, Piece;
    NextPiece(off, n, tot);
    ChargedTrans(owner0, owner1, owner, i);
    SlotsMore(off / BSIZE, (off + tot) / BSIZE);
  }

  lemma SpentSome(owner0: Owners, owner1: Owners, owner: Owners, i: nat, off: nat, n: nat, tot: nat)
    requires AtPiece(off, n, tot) && tot < n && Spent(owner0, owner1, i, off, tot)
    requires var bn := (off + tot) / BSIZE; Took(owner1, owner, i, SlotsFor(bn, bn + 1), false)
    ensures Charged(owner0, owner, i)
    ensures Slots(owner, i) < Slots(owner0, i) + SlotsFor(off / BSIZE, EndBlock(off, n))
  {
    hide Slots, SlotsFor, Charged, EndBlock, Piece;
    var first, end := off / BSIZE, EndBlock(off, n);
    NextPiece(off, n, tot);
    ChargedTrans(owner0, owner1, owner, i);
    SlotsMore(first, (off + tot) / BSIZE);
    SlotsWithin(first, (off + tot) / BSIZE + 1, end);
  }

  lemma FreeTotal(sb: Super, disk: seq<Block>, inodes: seq<Inode>, owner: Owners)
    requires Owned(sb, disk, inodes, owner)
    ensures sb.Valid() && |disk| == sb.size && |FreeSet(sb, disk)| + |owner| == sb.size - sb.nmeta
  {
    hide Owned, FreeSet, Range;
    FreeCount(sb, disk, inodes, owner);
  }

  /** balloc failed in the piece at tot. */
  lemma SpentShort(sb: Super, disk: seq<Block>, inodes: seq<Inode>, owner0: Owners, owner1: Owners,
                   disk': seq<Block>, inodes': seq<Inode>, owner: Owners, i: nat, off: nat, n: nat, tot: nat)
    requires Owned(sb, disk, inodes, owner0) && i < |inodes| && Owned(sb, disk', inodes', owner)
    requires forall b :: 0 <= b < sb.size ==> InUse(sb, disk', b)
    requires EndBlock(off, n) <= MAXFILE && AtPiece(off, n, tot) && tot < n
    requires Spent(owner0, owner1, i, off, tot)
    requires var bn := (off + tot) / BSIZE; Took(owner1, owner, i, SlotsFor(bn, bn + 1), false)
    ensures InodeOk(inodes[i]) && Short(sb, disk, inodes[i], off, n)
  {
    hide Owned, InUse, Slots, SlotsFor, Charged, EndBlock, Missing, FreeSet, Spent, Took, AtPiece;
    var first, end := off / BSIZE, EndBlock(off, n);
    SpentSome(owner0, owner1, owner, i, off, n, tot);
    FreeTotal(sb, disk, inodes, owner0);
    FreeTotal(sb, disk', inodes', owner);
    FullCount(sb, disk');
    MissingIs(sb, disk, inodes, owner0, i, first, end);
    RanOut(|FreeSet(sb, disk)|, owner0, owner, i, SlotsFor(first, end));
  }

  lemma SpentAll(sb: Super, disk: seq<Block>, inodes: seq<Inode>, owner0: Owners,
                 disk': seq<Block>, inodes': seq<Inode>, owner: Owners, i: nat, off: nat, n: nat)
    requires Owned(sb, disk, inodes, owner0) && i < |inodes| && Owned(sb, disk', inodes', owner)
    requires EndBlock(off, n) <= MAXFILE && Spent(owner0, owner, i, off, n)
    ensures InodeOk(inodes[i]) && !Short(sb, disk, inodes[i], off, n)
    ensures |FreeSet(sb, disk')| == |FreeSet(sb, disk)| - Lacking(disk, inodes[i], off, n)
  {
    hide Owned, Slots, SlotsFor, Charged, EndBlock, Missing, FreeSet;
    var first, end := off / BSIZE, EndBlock(off, n);
    FreeTotal(sb, disk, inodes, owner0);
    FreeTotal(sb, disk', inodes', owner);
    MissingIs(sb, disk, inodes, owner0, i, first, end);
    Afforded(|FreeSet(sb, disk)|, owner0, |FreeSet(sb, disk')|, owner, i, SlotsFor(first, end));
  }

  // ---- Truncation ------------------------------------------------------------------------

  lemma BlocksOwned(sb: Super, disk: seq<Block>, inodes: seq<Inode>, owner: Owners, i: nat, b: nat)
    requires Owned(sb, disk, inodes, owner) && i < |inodes|
    ensures InodeOk(inodes[i]) && (b in BlocksOf(disk, inodes[i]) <==> b in owner && owner[b].ino == i)
  {
    hide BitsOk, Ref;
    if b in owner && owner[b].ino == i {
      assert Ref(disk, inodes[i], owner[b].slot) == b;
    }
  }

  /** itrunc gives back exactly the blocks of the file. */
  lemma GivenBack(sb: Super, disk: seq<Block>, inodes: seq<Inode>, owner: Owners, i: nat, disk': seq<Block>)
    requires Owned(sb, disk, inodes, owner) && i < |inodes| && |disk'| == sb.size
    requires forall b :: 0 <= b < sb.size ==>
               (InUse(sb, disk', b) <==> InUse(sb, disk, b) && !(b in owner && owner[b].ino == i))
    ensures sb.Valid() && |disk| == sb.size && InodeOk(inodes[i])
    ensures FreeSet(sb, disk') == FreeSet(sb, disk) + BlocksOf(disk, inodes[i])
  {
    hide InUse, Ref, RefsOk, BlocksOf;
    forall b: nat
      ensures b in BlocksOf(disk, inodes[i]) <==> b in owner && owner[b].ino == i
      ensures b in owner ==> b < sb.size
    {
      BlocksOwned(sb, disk, inodes, owner, i, b);
      if b in owner { OwnedBelow(sb, disk, inodes, owner, b); }
    }
  }

  lemma OwnedBelow(sb: Super, disk: seq<Block>, inodes: seq<Inode>, owner: Owners, b: nat)
    requires Owned(sb, disk, inodes, owner) && b in owner
    ensures b < sb.size
  {}
}
