/** balloc, bfree, bmap, itrunc, readi and writei of fs.c, on the blocks as the buffer cache shows
    them and on the in-core inodes. A kernel panic for want of blocks is the result PANIC. */
module InodeCode {
  import opened FsBlocks
  import opened InodeSpec
  import opened InodeProofs
  import opened InodeSpace

  const ERROR: int := -1
  const PANIC: int := -2

  class FileSystem {
    const sb: Super
    var disk: seq<Block>
    var inodes: seq<Inode>
    ghost var owner: Owners

    /** Ownership of blocks, in every state between calls and at every allocation. */
    ghost predicate Consistent()
      reads this
    {
      Owned(sb, disk, inodes, owner)
    }

    ghost predicate Full()
      requires sb.Valid() && |disk| == sb.size
      reads this
    {
      forall b :: 0 <= b < sb.size ==> InUse(sb, disk, b)
    }

    /** An empty file system: only metadata is in use, and no inode has a block. */
    constructor (sb: Super, disk: seq<Block>, inodes: nat)
      requires sb.Valid() && |disk| == sb.size
      requires forall b :: 0 <= b < sb.size ==> (InUse(sb, disk, b) <==> b < sb.nmeta)
      ensures this.sb == sb && |this.inodes| == inodes && Valid() && owner == map[]
      ensures forall k :: 0 <= k < inodes ==> Content(this.disk, this.inodes[k]) == []
    {
      this.sb := sb;
      this.disk := disk;
      this.inodes := EmptyInodes(inodes);
      this.owner := map[];
    }

    /** Scan one bitmap block for the first free block at or after b, before limit. */
    method ScanBitmapBlock(b: nat) returns (bi: nat)
      requires sb.Valid() && |disk| == sb.size && b < sb.size && b % BPB == 0
      ensures bi <= BPB && b + bi <= sb.size
      ensures forall c :: b <= c < b + bi ==> InUse(sb, disk, c)
      ensures bi == BPB || b + bi == sb.size || !InUse(sb, disk, b + bi)
    {
      bi := 0;
      var bp := disk[b / BPB + sb.bmapstart];
      while bi < BPB && b + bi < sb.size
        invariant bi <= BPB && b + bi <= sb.size
        invariant forall c :: b <= c < b + bi ==> InUse(sb, disk, c)
      {
        assert (b + bi) / BPB == b / BPB && (b + bi) % BPB == bi;
        if !BlockBit(bp, bi) {
          return;
        }
        bi := bi + 1;
      }
    }

    /** balloc: the lowest-numbered free block, marked and zeroed. */
    method Balloc() returns (r: int)
      requires sb.Valid() && |disk| == sb.size
      modifies this`disk
      ensures r == PANIC ==> disk == old(disk) && Full()
      ensures r != PANIC ==> 0 <= r < sb.size && !InUse(sb, old(disk), r) && disk == AllocDisk(sb, old(disk), r)
      ensures r != PANIC ==> forall c :: 0 <= c < r ==> InUse(sb, old(disk), c)
    {
      hide BlockBit, SetBlockBit;
      var b := 0;
      while b < sb.size
        invariant b % BPB == 0 && disk == old(disk)
        invariant forall c :: 0 <= c < b && c < sb.size ==> InUse(sb, disk, c)
      {
        var bi := ScanBitmapBlock(b);
        if bi < BPB && b + bi < sb.size {
          disk := MarkBit(sb, disk, b + bi, true);
          disk := disk[b + bi := ZeroBlock()];
          return b + bi;
        }
        b := b + BPB;
      }
      r := PANIC;
    }

    /** bfree: the block is free, every other block is as it was, and no data block is touched. "freeing
        free block" is excluded by the precondition. */
    method Bfree(b: nat)
      requires sb.Valid() && |disk| == sb.size && b < sb.size && InUse(sb, disk, b)
      modifies this`disk
      ensures |disk| == sb.size
      ensures forall c: nat :: c < sb.size ==> (InUse(sb, disk, c) <==> c != b && InUse(sb, old(disk), c))
      ensures SameData(sb, old(disk), disk)
      ensures disk == MarkBit(sb, old(disk), b, false)
    {
      hide InUse, MarkBit;
      forall c: nat | c < sb.size
        ensures InUse(sb, MarkBit(sb, disk, b, false), c) <==> c != b && InUse(sb, disk, c)
      {
        MarkBitUse(sb, disk, b, false, c);
      }
      MarkSameData(sb, disk, b, false);
      var data := disk[sb.bmapstart + b / BPB];
      MarkIs(sb, disk, b);
      disk := disk[sb.bmapstart + b / BPB := SetBlockBit(data, b % BPB, false)];
    }
  
    /** What an allocation for file i does: nothing is lost, moved or rewritten, and every new block
        belongs to file i. */
    twostate predicate Grows(i: nat)
      reads this
    {
      && Consistent() && i < |inodes|
      && Extends(old(disk), old(inodes), old(owner), disk, inodes, owner)
      && (forall b <- owner :: b in old(owner) || owner[b].ino == i)
      && (forall k :: 0 <= k < |inodes| && k != i ==> inodes[k] == old(inodes)[k])
    }

    /** `if((addr = ip->addrs[s]) == 0) ip->addrs[s] = addr = balloc(ip->dev);` */
    method EnsureAddr(i: nat, s: nat) returns (addr: int)
      requires Consistent() && i < |inodes| && s <= NDIRECT
      modifies this`disk, this`inodes, this`owner
      ensures Grows(i)
      ensures old(inodes)[i].addrs[s] != 0 ==> addr == old(inodes)[i].addrs[s] && disk == old(disk)
      ensures old(inodes)[i].addrs[s] != 0 ==> inodes == old(inodes) && owner == old(owner)
      ensures addr == PANIC ==> Full()
      ensures addr != PANIC ==> addr > 0 && inodes[i].addrs[s] == addr
      ensures addr != PANIC && old(inodes)[i].addrs[s] == 0 ==> addr < |disk| && disk[addr] == ZeroBlock()
      ensures Took(old(owner), owner, i, {s}, addr != PANIC)
    {
      hide RefsOk, BitsOk, InUse, AllocDisk, Slots;
      SlotsRef(sb, disk, inodes, owner, i, s);
      addr := inodes[i].addrs[s];
      if addr == 0 {
        addr := Balloc();
        if addr != PANIC {
          FreeBlock(sb, old(disk), inodes, owner, addr);
          SlotsGain(owner, i, s, addr);
          LinkDirect(sb, old(disk), inodes, owner, i, s, addr);
          DirectExtends(sb, old(disk), inodes, owner, i, s, addr);
          AllocData(sb, old(disk), addr, addr);
          owner := owner[addr := Slot(i, s)];
          inodes := inodes[i := SetAddr(inodes[i], s, addr)];
        }
      }
    }

    /** The indirect half of bmap, once the indirect block exists. */
    method EnsureEntry(i: nat, j: nat) returns (addr: int)
      requires Consistent() && i < |inodes| && j < NINDIRECT && inodes[i].addrs[NDIRECT] != 0
      modifies this`disk, this`owner
      ensures Grows(i)
      ensures Ref(old(disk), inodes[i], NDIRECT + 1 + j) != 0 ==>
                addr == Ref(old(disk), inodes[i], NDIRECT + 1 + j) && disk == old(disk) && owner == old(owner)
      ensures addr == PANIC ==> Full()
      ensures addr != PANIC ==> addr > 0 && Ref(disk, inodes[i], NDIRECT + 1 + j) == addr
      ensures addr != PANIC && Ref(old(disk), inodes[i], NDIRECT + 1 + j) == 0 ==> addr < |disk|
      ensures addr != PANIC && Ref(old(disk), inodes[i], NDIRECT + 1 + j) == 0 ==> disk[addr] == ZeroBlock()
      ensures Took(old(owner), owner, i, {NDIRECT + 1 + j}, addr != PANIC)
    {
      hide RefsOk, BitsOk, InUse, AllocDisk, GetWord, PutWord, Slots;
      SlotsRef(sb, disk, inodes, owner, i, NDIRECT + 1 + j);
      var ind := inodes[i].addrs[NDIRECT];
      IndirectInRange(sb, disk, inodes, owner, i);
      addr := GetWord(disk[ind], j);
      if addr == 0 {
        addr := Balloc();
        if addr != PANIC {
          FreeBlock(sb, old(disk), inodes, owner, addr);
          SlotsGain(owner, i, NDIRECT + 1 + j, addr);
          LinkIndirect(sb, old(disk), inodes, owner, i, j, addr);
          IndirectExtends(sb, old(disk), inodes, owner, i, j, addr);
          AllocData(sb, old(disk), addr, addr);
          disk := disk[ind := PutWord(disk[ind], j, addr)];
          owner := owner[addr := Slot(i, NDIRECT + 1 + j)];
          OwnerRef(sb, disk, inodes, owner, addr);
        }
      }
    }

    /** The indirect half of bmap. */
    method BmapIndirect(i: nat, bn: nat) returns (addr: int)
      requires Consistent() && i < |inodes| && NDIRECT <= bn < MAXFILE
      modifies this`disk, this`inodes, this`owner
      ensures Grows(i)
      ensures BlockOf(old(disk), old(inodes)[i], bn) != 0 ==>
                && addr == BlockOf(old(disk), old(inodes)[i], bn)
                && disk == old(disk) && inodes == old(inodes) && owner == old(owner)
      ensures addr == PANIC ==> Full()
      ensures addr != PANIC ==> addr > 0 && BlockOf(disk, inodes[i], bn) == addr
      ensures addr != PANIC && BlockOf(old(disk), old(inodes)[i], bn) == 0 ==> addr < |disk|
      ensures addr != PANIC && BlockOf(old(disk), old(inodes)[i], bn) == 0 ==> disk[addr] == ZeroBlock()
      ensures Took(old(owner), owner, i, SlotsFor(bn, bn + 1), addr != PANIC)
    {
      hide Owned, InUse, GetWord, SlotsFor, Took, Full;
      MustBeOk(sb, disk, inodes, owner, i);
      var ind := EnsureAddr(i, NDIRECT);
      MustBeOk(sb, disk, inodes, owner, i);
      if ind == PANIC {
        TookNeither(old(owner), owner, i, bn);
        return PANIC;
      }
      ghost var disk1, inodes1, owner1 := disk, inodes, owner;
      ZeroWord(bn - NDIRECT);
      addr := EnsureEntry(i, bn - NDIRECT);
      ExtendsTrans(old(disk), old(inodes), old(owner), disk1, inodes1, owner1, disk, inodes, owner);
      TookBoth(old(owner), owner1, owner, i, bn, addr != PANIC);
      MustBeOk(sb, disk, inodes, owner, i);
    }

    /** bmap. An address past MAXFILE panics; both callers stay below it. */
    method Bmap(i: nat, bn: nat) returns (addr: int)
      requires Consistent() && i < |inodes| && bn < MAXFILE
      modifies this`disk, this`inodes, this`owner
      ensures Grows(i)
      ensures BlockOf(old(disk), old(inodes)[i], bn) != 0 ==>
                && addr == BlockOf(old(disk), old(inodes)[i], bn)
                && disk == old(disk) && inodes == old(inodes) && owner == old(owner)
      ensures addr == PANIC ==> Full()
      ensures addr != PANIC ==> addr > 0 && BlockOf(disk, inodes[i], bn) == addr
      ensures addr != PANIC && BlockOf(old(disk), old(inodes)[i], bn) == 0 ==> addr < |disk|
      ensures addr != PANIC && BlockOf(old(disk), old(inodes)[i], bn) == 0 ==> disk[addr] == ZeroBlock()
      ensures addr != PANIC && bn < NDIRECT ==> inodes[i].addrs[bn] == addr
      ensures addr != PANIC && bn >= NDIRECT ==>
                && 0 < inodes[i].addrs[NDIRECT] < |disk|
                && GetWord(disk[inodes[i].addrs[NDIRECT]], bn - NDIRECT) == addr
      ensures Took(old(owner), owner, i, SlotsFor(bn, bn + 1), addr != PANIC)
    {
      hide Owned, InUse, GetWord, SlotsFor, Took, Extends, Full;
      MustBeOk(sb, disk, inodes, owner, i);
      if bn < NDIRECT {
        SlotsOne(bn);
        assert SlotsFor(bn, bn + 1) == {bn};
        addr := EnsureAddr(i, bn);
        MustBeOk(sb, disk, inodes, owner, i);
      } else {
        addr := BmapIndirect(i, bn);
      }
    }
  
    /** Consistent, and no file has a hole. */
    ghost predicate Valid()
      reads this
    {
      Consistent() && forall k :: 0 <= k < |inodes| ==> Mapped(disk, inodes[k], inodes[k].size)
    }

    /** readi of a file: -1, or exactly the requested slice clipped to the size; and nothing
        changes, although bmap may allocate. */
    method Readi(i: nat, off: nat, n: nat) returns (r: int, dst: seq<Byte>)
      requires Valid() && i < |inodes| && off < WORD && n < WORD
      modifies this`disk, this`inodes, this`owner
      ensures disk == old(disk) && inodes == old(inodes) && owner == old(owner)
      ensures r == ERROR <==> off > inodes[i].size || off + n >= WORD
      ensures r != ERROR ==> r == (if off + n > inodes[i].size then inodes[i].size - off else n)
      ensures r != ERROR ==> dst == Content(disk, inodes[i])[off..off + r]
    {
      hide Owned, InUse, Bytes, BlockOf;
      MustBeOk(sb, disk, inodes, owner, i);
      dst := [];
      if off > inodes[i].size || (off + n) % WORD < off {
        return ERROR, dst;
      }
      var count := if off + n > inodes[i].size then inodes[i].size - off else n;
      var tot := 0;
      while tot < count
        invariant tot <= count
        invariant disk == old(disk) && inodes == old(inodes) && owner == old(owner)
        invariant dst == Content(disk, inodes[i])[off..off + tot]
      {
        var cur := off + tot;
        assert cur / BSIZE * BSIZE <= cur;
        var addr := Bmap(i, cur / BSIZE);
        BlockInRange(sb, disk, inodes, owner, i, cur / BSIZE);
        var m := if count - tot < BSIZE - cur % BSIZE then count - tot else BSIZE - cur % BSIZE;
        ReadPiece(disk, inodes[i], inodes[i].size, cur, m);
        dst := dst + disk[addr][cur % BSIZE..cur % BSIZE + m];
        tot := tot + m;
      }
      r := count;
    }

    /** One iteration of writei: `src` fits in the block of byte `cur`. */
    method WriteChunk(i: nat, cur: nat, src: seq<Byte>, ghost len: nat) returns (ok: bool)
      requires Consistent() && i < |inodes| && |src| > 0
      requires cur <= len <= MAXFILE * BSIZE && cur % BSIZE + |src| <= BSIZE && cur + |src| <= MAXFILE * BSIZE
      requires Mapped(disk, inodes[i], len)
      modifies this`disk, this`inodes, this`owner
      ensures Consistent() && |inodes| == |old(inodes)| && inodes[i].size == old(inodes)[i].size
      ensures OthersKept(old(disk), old(inodes), disk, inodes, i)
      ensures !ok ==> Full() && Mapped(disk, inodes[i], len)
      ensures Took(old(owner), owner, i, SlotsFor(cur / BSIZE, cur / BSIZE + 1), ok)
      ensures ok ==> Mapped(disk, inodes[i], Max(len, cur + |src|))
      ensures ok ==>
                Bytes(disk, inodes[i], Max(len, cur + |src|)) ==
                WriteAt(Bytes(old(disk), old(inodes)[i], len), cur, src)
    {
      hide Owned, InUse, Bytes, BlockOf, Mapped, OthersKept, Splice, WriteAt, SlotsFor, Took;
      MustBeOk(sb, disk, inodes, owner, i);
      var addr := Bmap(i, cur / BSIZE);
      ExtendsBytes(sb, old(disk), old(inodes), old(owner), disk, inodes, owner, i, len);
      OthersExtend(sb, old(disk), old(inodes), old(owner), disk, inodes, owner, i);
      ok := addr != PANIC;
      if ok {
        BlockInRange(sb, disk, inodes, owner, i, cur / BSIZE);
        ghost var disk1 := disk;
        WritePiece(sb, disk, inodes, owner, i, len, cur, src);
        OthersWrite(sb, disk, inodes, owner, i, cur / BSIZE, Splice(disk[addr], cur % BSIZE, src));
        DataWriteOwned(sb, disk, inodes, owner, addr, Splice(disk[addr], cur % BSIZE, src));
        disk := disk[addr := Splice(disk[addr], cur % BSIZE, src)];
        OthersTrans(old(disk), old(inodes), disk1, inodes, disk, inodes, i);
      }
      MustBeOk(sb, disk, inodes, owner, i);
    }
  
    /** writei of a file: -1 and no change; or the bytes [off, off + n) replaced, the size extended
        to cover them, and every other file as before; or, exactly when fewer blocks are free than the range
        lacks, a panic, which still damages no other file. */
    method Writei(i: nat, off: nat, src: seq<Byte>) returns (r: int)
      requires Valid() && i < |inodes| && off < WORD && |src| < WORD
      modifies this`disk, this`inodes, this`owner
      ensures r == ERROR <==> off > old(inodes)[i].size || off + |src| >= WORD || off + |src| > MAXFILE * BSIZE
      ensures r == ERROR ==> disk == old(disk) && inodes == old(inodes) && owner == old(owner)
      ensures Consistent() && (r == PANIC ==> Full())
      ensures r != ERROR ==> (r == PANIC <==> Short(sb, old(disk), old(inodes)[i], off, |src|))
      ensures r != ERROR && r != PANIC ==>
                |FreeSet(sb, disk)| == |FreeSet(sb, old(disk))| - Lacking(old(disk), old(inodes)[i], off, |src|)
      ensures r != ERROR && r != PANIC ==> r == |src| && Valid()
      ensures OthersKept(old(disk), old(inodes), disk, inodes, i)
      ensures r != ERROR && r != PANIC ==>
                Content(disk, inodes[i]) == WriteAt(Content(old(disk), old(inodes)[i]), off, src)
    {
      hide Owned, InUse, Bytes, BlockOf, Mapped, OthersKept, WriteAt, SlotsFor, Took,
           Spent, AtPiece, Piece, EndBlock, Short, Lacking, FreeSet;
      AllOk(sb, disk, inodes, owner);
      OthersRefl(sb, disk, inodes, owner, i);
      if off > inodes[i].size || (off + |src|) % WORD < off {
        return ERROR;
      }
      if off + |src| > MAXFILE * BSIZE {
        return ERROR;
      }
      ghost var size, c0 := inodes[i].size, Content(disk, inodes[i]);
      WriteAtNone(c0, off);
      SpentNone(owner, i, off);
      Pieces(off, |src|);
      var tot := 0;
      while tot < |src|
        invariant tot <= |src| && AtPiece(off, |src|, tot) && Spent(old(owner), owner, i, off, tot)
        invariant Consistent() && |inodes| == |old(inodes)| && InodeOk(inodes[i]) && inodes[i].size == size
        invariant OthersKept(old(disk), old(inodes), disk, inodes, i)
        invariant Mapped(disk, inodes[i], Max(size, off + tot))
        invariant Bytes(disk, inodes[i], Max(size, off + tot)) == WriteAt(c0, off, src[..tot])
      {
        var cur := off + tot;
        NextPiece(off, |src|, tot);
        var m := Piece(off, |src|, tot);
        ghost var disk1, inodes1, owner1 := disk, inodes, owner;
        var ok := WriteChunk(i, cur, src[tot..tot + m], Max(size, cur));
        MustBeOk(sb, disk, inodes, owner, i);
        OthersTrans(old(disk), old(inodes), disk1, inodes1, disk, inodes, i);
        if !ok {
          SpentShort(sb, old(disk), old(inodes), old(owner), owner1, disk, inodes, owner, i, off, |src|, tot);
          return PANIC;
        }
        SpentMore(old(owner), owner1, owner, i, off, |src|, tot);
        WriteAtTwice(c0, off, src[..tot], src[tot..tot + m]);
        assert src[..tot] + src[tot..tot + m] == src[..tot + m];
        tot := tot + m;
      }
      assert src[..|src|] == src;
      SpentAll(sb, old(disk), old(inodes), old(owner), disk, inodes, owner, i, off, |src|);
      ghost var disk1, inodes1 := disk, inodes;
      if |src| > 0 && off + |src| > inodes[i].size {
        inodes := inodes[i := inodes[i].(size := off + |src|)];
      }
      Resized(sb, disk, inodes1, owner, i, inodes[i].size);
      assert inodes == inodes1[i := inodes1[i].(size := inodes[i].size)];
      OthersTrans(old(disk), old(inodes), disk1, inodes1, disk, inodes, i);
      AllMapped(old(disk), old(inodes), disk, inodes, i);
      r := |src|;
    }
  
    /** The first loop of itrunc. */
    method TruncDirect(i: nat)
      requires Consistent() && i < |inodes|
      modifies this`disk, this`inodes, this`owner
      ensures Consistent() && SameData(sb, old(disk), disk)
      ensures |inodes| == |old(inodes)| && forall k :: 0 <= k < |inodes| && k != i ==> inodes[k] == old(inodes)[k]
      ensures forall s :: 0 <= s < NDIRECT ==> inodes[i].addrs[s] == 0
      ensures inodes[i].addrs[NDIRECT] == old(inodes)[i].addrs[NDIRECT] && inodes[i].size == old(inodes)[i].size
      ensures owner == After(old(owner), i, NDIRECT)
    {
      hide RefsOk, BitsOk, InUse, MarkBit;
      var s := 0;
      assert After(owner, i, 0) == owner;
      while s < NDIRECT
        invariant s <= NDIRECT && Consistent() && SameData(sb, old(disk), disk)
        invariant |inodes| == |old(inodes)| && forall k :: 0 <= k < |inodes| && k != i ==> inodes[k] == old(inodes)[k]
        invariant forall x :: 0 <= x < s ==> inodes[i].addrs[x] == 0
        invariant inodes[i].addrs[NDIRECT] == old(inodes)[i].addrs[NDIRECT] && inodes[i].size == old(inodes)[i].size
        invariant owner == After(old(owner), i, s)
      {
        AfterStep(sb, disk, inodes, old(owner), i, s);
        var b := inodes[i].addrs[s];
        if b != 0 {
          UnlinkDirect(sb, disk, inodes, owner, i, s);
          MarkSameData(sb, disk, b, false);
          Bfree(b);
          inodes := inodes[i := SetAddr(inodes[i], s, 0)];
          owner := owner - {b};
        } else {
          ZeroFree(sb, disk, inodes, owner);
        }
        s := s + 1;
      }
    }

    /** The second half of itrunc: the entries are freed while the indirect block still lists them. */
    method TruncIndirect(i: nat)
      requires Consistent() && i < |inodes|
      requires forall s :: 0 <= s < NDIRECT ==> inodes[i].addrs[s] == 0
      modifies this`disk, this`inodes, this`owner
      ensures Consistent() && SameData(sb, old(disk), disk)
      ensures inodes == old(inodes)[i := SetAddr(old(inodes)[i], NDIRECT, 0)]
      ensures owner == Without(old(owner), i)
    {
      hide RefsOk, BitsOk, InUse, MarkBit, GetWord, FreedTo;
      var ind := inodes[i].addrs[NDIRECT];
      if ind == 0 {
        NothingOwned(sb, disk, inodes, owner, i);
        assert inodes[i].addrs[NDIRECT := 0] == inodes[i].addrs;
        return;
      }
      IndirectInRange(sb, disk, inodes, owner, i);
      var a := disk[ind];
      FreedNone(sb, disk, owner, i);
      var j := 0;
      while j < NINDIRECT
        invariant inodes == old(inodes) && owner == old(owner)
        invariant j <= NINDIRECT && SameData(sb, old(disk), disk) && FreedTo(sb, disk, owner, i, j)
      {
        FreeEntry(sb, old(disk), inodes, owner, i, j, disk);
        var b := GetWord(a, j);
        if b != 0 {
          MarkSameData(sb, disk, b, false);
          Bfree(b);
        }
        j := j + 1;
      }
      UnlinkIndirect(sb, old(disk), inodes, owner, i, disk);
      MarkSameData(sb, disk, ind, false);
      Bfree(ind);
      inodes := inodes[i := SetAddr(inodes[i], NDIRECT, 0)];
      owner := Without(owner, i);
    }

    /** itrunc frees exactly the blocks of file i, every bfree on the way finds its bit set, and
        no other file changes. */
    method Itrunc(i: nat)
      requires Valid() && i < |inodes|
      modifies this`disk, this`inodes, this`owner
      ensures Valid() && |inodes| == |old(inodes)|
      ensures inodes[i].size == 0 && forall s :: 0 <= s <= NDIRECT ==> inodes[i].addrs[s] == 0
      ensures owner == Without(old(owner), i)
      ensures forall b :: 0 <= b < sb.size ==>
                (InUse(sb, disk, b) <==> InUse(sb, old(disk), b) && !(b in old(owner) && old(owner)[b].ino == i))
      ensures OthersKept(old(disk), old(inodes), disk, inodes, i)
    {
      hide RefsOk, InUse, Mapped, OthersKept, BitsOk;
      OwnedInData(sb, disk, inodes, owner);
      TruncDirect(i);
      ghost var inodes1 := inodes;
      TruncIndirect(i);
      assert Without(After(old(owner), i, NDIRECT), i) == Without(old(owner), i);
      ghost var inodes2 := inodes;
      Resized(sb, disk, inodes2, owner, i, 0);
      inodes := inodes[i := inodes[i].(size := 0)];
      OthersSameData(sb, old(disk), old(inodes), old(owner), disk, inodes, i);
      EmptyMapped(disk, inodes[i]);
      AllMapped(old(disk), old(inodes), disk, inodes, i);
      TruncBits(sb, old(disk), old(owner), disk, i);
    }
  }

  lemma TruncBits(sb: Super, disk: seq<Block>, owner: Owners, disk': seq<Block>, i: nat)
    requires sb.Valid() && |disk| == |disk'| == sb.size
    requires BitsOk(sb, disk, owner) && BitsOk(sb, disk', Without(owner, i))
    requires forall b <- owner :: sb.nmeta <= b
    ensures forall b :: 0 <= b < sb.size ==>
              (InUse(sb, disk', b) <==> InUse(sb, disk, b) && !(b in owner && owner[b].ino == i))
  {
    hide InUse;
    forall b | 0 <= b < sb.size
      ensures InUse(sb, disk', b) <==> InUse(sb, disk, b) && !(b in owner && owner[b].ino == i) {}
  }

  function EmptyInodes(n: nat): seq<Inode> {
    seq(n, i => Inode(seq(NDIRECT + 1, s => 0), 0))
  }

  lemma MarkIs(sb: Super, disk: seq<Block>, b: nat)
    requires sb.Valid() && |disk| == sb.size && b < sb.size
    ensures sb.bmapstart + b / BPB < |disk|
    ensures var x := sb.bmapstart + b / BPB;
            MarkBit(sb, disk, b, false) == disk[x := SetBlockBit(disk[x], b % BPB, false)]
  {}

  lemma OwnedInData(sb: Super, disk: seq<Block>, inodes: seq<Inode>, owner: Owners)
    requires Owned(sb, disk, inodes, owner)
    ensures forall b <- owner :: sb.nmeta <= b
  {}

  lemma EmptyMapped(disk: seq<Block>, ip: Inode)
    requires InodeOk(ip)
    ensures Mapped(disk, ip, 0)
  {}

  lemma ZeroFree(sb: Super, disk: seq<Block>, inodes: seq<Inode>, owner: Owners)
    requires Owned(sb, disk, inodes, owner)
    ensures owner - {0} == owner
  {
    assert 0 !in owner;
  }

  lemma FreedNone(sb: Super, disk: seq<Block>, owner: Owners, i: nat)
    requires sb.Valid() && |disk| == sb.size && BitsOk(sb, disk, owner)
    ensures FreedTo(sb, disk, owner, i, 0)
  {
    hide InUse;
  }

  lemma AllOk(sb: Super, disk: seq<Block>, inodes: seq<Inode>, owner: Owners)
    requires Owned(sb, disk, inodes, owner)
    ensures forall k :: 0 <= k < |inodes| ==> InodeOk(inodes[k])
  {}

  lemma OthersRefl(sb: Super, disk: seq<Block>, inodes: seq<Inode>, owner: Owners, i: nat)
    requires Owned(sb, disk, inodes, owner)
    ensures OthersKept(disk, inodes, disk, inodes, i)
  {
    hide Mapped, Bytes;
  }

  lemma WriteAtNone(c: seq<Byte>, at: nat)
    requires at <= |c|
    ensures WriteAt(c, at, []) == c
  {}

  /** Changing ip->size alone. */
  lemma Resized(sb: Super, disk: seq<Block>, inodes: seq<Inode>, owner: Owners, i: nat, size: nat)
    requires Owned(sb, disk, inodes, owner) && i < |inodes| && size <= MAXFILE * BSIZE
    ensures InodeOk(inodes[i]) && InodeOk(inodes[i].(size := size))
    ensures Owned(sb, disk, inodes[i := inodes[i].(size := size)], owner)
    ensures Mapped(disk, inodes[i], size) ==> Mapped(disk, inodes[i].(size := size), size)
    ensures Bytes(disk, inodes[i].(size := size), size) == Bytes(disk, inodes[i], size)
    ensures OthersKept(disk, inodes, disk, inodes[i := inodes[i].(size := size)], i)
  {
    hide BitsOk, GetWord;
    var inodes' := inodes[i := inodes[i].(size := size)];
    forall k, s | 0 <= k < |inodes| && 0 <= s < SLOTS ensures Ref(disk, inodes'[k], s) == Ref(disk, inodes[k], s) {}
    ResizedRefs(sb, disk, inodes, owner, inodes');
    MappedSize(disk, inodes[i], size);
  }

  lemma MappedSize(disk: seq<Block>, ip: Inode, size: nat)
    requires InodeOk(ip) && size <= MAXFILE * BSIZE
    ensures Mapped(disk, ip, size) ==> Mapped(disk, ip.(size := size), size)
  {
    var ip' := ip.(size := size);
    if Mapped(disk, ip, size) {
      forall bn | 0 <= bn < MAXFILE && bn * BSIZE < size ensures BlockOf(disk, ip', bn) != 0 {
        assert BlockOf(disk, ip, bn) != 0;
      }
    }
  }

  lemma ResizedRefs(sb: Super, disk: seq<Block>, inodes: seq<Inode>, owner: Owners, inodes': seq<Inode>)
    requires Wf(sb, disk, inodes) && Wf(sb, disk, inodes') && |inodes'| == |inodes| && RefsOk(sb, disk, inodes, owner)
    requires forall k, s :: 0 <= k < |inodes| && 0 <= s < SLOTS ==> Ref(disk, inodes'[k], s) == Ref(disk, inodes[k], s)
    ensures RefsOk(sb, disk, inodes', owner)
  {
    hide Ref;
  }

  lemma AllMapped(disk: seq<Block>, inodes: seq<Inode>, disk': seq<Block>, inodes': seq<Inode>, i: nat)
    requires OthersKept(disk, inodes, disk', inodes', i)
    requires forall k :: 0 <= k < |inodes| ==> InodeOk(inodes[k]) && Mapped(disk, inodes[k], inodes[k].size)
    requires i < |inodes| && InodeOk(inodes'[i]) && Mapped(disk', inodes'[i], inodes'[i].size)
    ensures forall k :: 0 <= k < |inodes'| ==> InodeOk(inodes'[k]) && Mapped(disk', inodes'[k], inodes'[k].size)
  {
    hide Mapped, Bytes;
  }

  lemma BlockInRange(sb: Super, disk: seq<Block>, inodes: seq<Inode>, owner: Owners, i: nat, bn: nat)
    requires Owned(sb, disk, inodes, owner) && i < |inodes| && bn < MAXFILE && BlockOf(disk, inodes[i], bn) != 0
    ensures BlockOf(disk, inodes[i], bn) < |disk| == sb.size
    ensures BlockOf(disk, inodes[i], bn) in owner && owner[BlockOf(disk, inodes[i], bn)].slot != NDIRECT
  {
    assert Ref(disk, inodes[i], SlotOf(bn)) in owner;
  }

  lemma IndirectInRange(sb: Super, disk: seq<Block>, inodes: seq<Inode>, owner: Owners, i: nat)
    requires Owned(sb, disk, inodes, owner) && i < |inodes| && inodes[i].addrs[NDIRECT] != 0
    ensures inodes[i].addrs[NDIRECT] < sb.size && inodes[i].addrs[NDIRECT] in owner
  {
    RefDirect(disk, inodes[i], NDIRECT);
    assert Ref(disk, inodes[i], NDIRECT) in owner;
  }

  lemma OwnerRef(sb: Super, disk: seq<Block>, inodes: seq<Inode>, owner: Owners, b: nat)
    requires Owned(sb, disk, inodes, owner) && b in owner
    ensures owner[b].ino < |inodes| && owner[b].slot < SLOTS && InodeOk(inodes[owner[b].ino])
    ensures Ref(disk, inodes[owner[b].ino], owner[b].slot) == b
  {}
}
