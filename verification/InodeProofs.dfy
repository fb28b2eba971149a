/** How one allocation, one link or one truncation changes block ownership and file contents. */
module InodeProofs {
  import opened FsBlocks
  import opened InodeSpec

  /** Slot (i, s) becomes b and every other reference stays. */
  ghost predicate OneRef(disk: seq<Block>, inodes: seq<Inode>, disk': seq<Block>, inodes': seq<Inode>, i: nat, s: nat,
                         b: nat) {
    && |inodes'| == |inodes|
    && (forall k :: 0 <= k < |inodes| ==> InodeOk(inodes[k]) && InodeOk(inodes'[k]))
    && forall k, r :: 0 <= k < |inodes| && 0 <= r < SLOTS ==>
         Ref(disk', inodes'[k], r) == if k == i && r == s then b else Ref(disk, inodes[k], r)
  }

  lemma RefsLink(sb: Super, disk: seq<Block>, inodes: seq<Inode>, disk': seq<Block>, inodes': seq<Inode>,
                 owner: Owners, i: nat, s: nat, b: nat)
    requires Wf(sb, disk, inodes) && Wf(sb, disk', inodes') && RefsOk(sb, disk, inodes, owner)
    requires i < |inodes| && s < SLOTS && Ref(disk, inodes[i], s) == 0
    requires sb.nmeta <= b < sb.size && b !in owner
    requires OneRef(disk, inodes, disk', inodes', i, s, b)
    ensures RefsOk(sb, disk', inodes', owner[b := Slot(i, s)])
  {
    hide Ref;
  }

  function SetAddr(ip: Inode, s: nat, b: nat): Inode
    requires s < |ip.addrs|
  {
    ip.(addrs := ip.addrs[s := b])
  }

  /** A block whose bit is clear is a data block that nothing refers to. */
  lemma FreeBlock(sb: Super, disk: seq<Block>, inodes: seq<Inode>, owner: Owners, b: nat)
    requires Owned(sb, disk, inodes, owner) && b < sb.size && !InUse(sb, disk, b)
    ensures sb.nmeta <= b && b !in owner
  {}

  lemma DirectRefs(sb: Super, disk: seq<Block>, inodes: seq<Inode>, owner: Owners, i: nat, s: nat, b: nat)
    requires Wf(sb, disk, inodes) && RefsOk(sb, disk, inodes, owner)
    requires i < |inodes| && s <= NDIRECT && inodes[i].addrs[s] == 0
    requires sb.nmeta <= b < sb.size && b !in owner
    ensures OneRef(disk, inodes, AllocDisk(sb, disk, b), inodes[i := SetAddr(inodes[i], s, b)], i, s, b)
  {
    hide GetWord, InUse, MarkBit, AllocDisk;
    var disk' := AllocDisk(sb, disk, b);
    forall k, r | 0 <= k < |inodes| && 0 <= r < SLOTS
      ensures Ref(disk', inodes[i := SetAddr(inodes[i], s, b)][k], r) ==
              if k == i && r == s then b else Ref(disk, inodes[k], r)
    {
      var ind := inodes[k].addrs[NDIRECT];
      if r > NDIRECT {
        if ind != 0 {
          assert Ref(disk, inodes[k], NDIRECT) == ind;
          AllocData(sb, disk, b, ind);
        } else if k == i && s == NDIRECT {
          AllocData(sb, disk, b, b);
          ZeroWord(r - NDIRECT - 1);
        }
      }
    }
  }

  lemma AllocBits(sb: Super, disk: seq<Block>, owner: Owners, b: nat, s: Slot)
    requires sb.Valid() && |disk| == sb.size && sb.nmeta <= b < sb.size && BitsOk(sb, disk, owner)
    ensures BitsOk(sb, AllocDisk(sb, disk, b), owner[b := s])
  {
    hide InUse, AllocDisk;
    forall c | 0 <= c < sb.size ensures InUse(sb, AllocDisk(sb, disk, b), c) <==> c == b || InUse(sb, disk, c) {
      AllocUse(sb, disk, b, c);
    }
  }

  /** balloc followed by storing the address in ip->addrs[s]. */
  lemma LinkDirect(sb: Super, disk: seq<Block>, inodes: seq<Inode>, owner: Owners, i: nat, s: nat, b: nat)
    requires Owned(sb, disk, inodes, owner)
    requires i < |inodes| && s <= NDIRECT && inodes[i].addrs[s] == 0
    requires b < sb.size && !InUse(sb, disk, b)
    ensures sb.nmeta <= b && b !in owner
    ensures Owned(sb, AllocDisk(sb, disk, b), inodes[i := SetAddr(inodes[i], s, b)], owner[b := Slot(i, s)])
  {
    hide InUse, Ref, AllocDisk, RefsOk, BitsOk;
    FreeBlock(sb, disk, inodes, owner, b);
    DirectRefs(sb, disk, inodes, owner, i, s, b);
    RefDirect(disk, inodes[i], s);
    RefsLink(sb, disk, inodes, AllocDisk(sb, disk, b), inodes[i := SetAddr(inodes[i], s, b)], owner, i, s, b);
    AllocBits(sb, disk, owner, b, Slot(i, s));
  }

  lemma RefDirect(disk: seq<Block>, ip: Inode, s: nat)
    requires InodeOk(ip) && s <= NDIRECT
    ensures Ref(disk, ip, s) == ip.addrs[s]
  {}

  /** balloc followed by storing the address in entry j of the indirect block. */
  function IndirectDisk(sb: Super, disk: seq<Block>, ind: nat, j: nat, b: nat): seq<Block>
    requires sb.Valid() && |disk| == sb.size && b < sb.size && ind < sb.size && j < NINDIRECT
  {
    var d := AllocDisk(sb, disk, b);
    d[ind := PutWord(d[ind], j, b)]
  }

  lemma IndirectRefs(sb: Super, disk: seq<Block>, inodes: seq<Inode>, owner: Owners, i: nat, j: nat, b: nat)
    requires Wf(sb, disk, inodes) && RefsOk(sb, disk, inodes, owner)
    requires i < |inodes| && j < NINDIRECT && inodes[i].addrs[NDIRECT] != 0
    requires sb.nmeta <= b < sb.size && b !in owner
    ensures sb.nmeta <= inodes[i].addrs[NDIRECT] < sb.size
    ensures OneRef(disk, inodes, IndirectDisk(sb, disk, inodes[i].addrs[NDIRECT], j, b), inodes, i, NDIRECT + 1 + j, b)
  {
    hide GetWord, PutWord, InUse, MarkBit, AllocDisk;
    var ind := inodes[i].addrs[NDIRECT];
    assert Ref(disk, inodes[i], NDIRECT) == ind;
    AllocData(sb, disk, b, ind);
    var disk' := IndirectDisk(sb, disk, ind, j, b);
    forall k, r | 0 <= k < |inodes| && 0 <= r < SLOTS
      ensures Ref(disk', inodes[k], r) == if k == i && r == NDIRECT + 1 + j then b else Ref(disk, inodes[k], r)
    {
      var x := inodes[k].addrs[NDIRECT];
      if r > NDIRECT && x != 0 {
        assert Ref(disk, inodes[k], NDIRECT) == x;
        AllocData(sb, disk, b, x);
        if k == i {
          WordRoundTrip(disk[ind], j, b, r - NDIRECT - 1);
        }
      }
    }
  }

  lemma LinkIndirect(sb: Super, disk: seq<Block>, inodes: seq<Inode>, owner: Owners, i: nat, j: nat, b: nat)
    requires Owned(sb, disk, inodes, owner)
    requires i < |inodes| && j < NINDIRECT && inodes[i].addrs[NDIRECT] != 0
    requires Ref(disk, inodes[i], NDIRECT + 1 + j) == 0
    requires b < sb.size && !InUse(sb, disk, b)
    ensures sb.nmeta <= b && b !in owner && sb.nmeta <= inodes[i].addrs[NDIRECT] < sb.size
    ensures Owned(sb, IndirectDisk(sb, disk, inodes[i].addrs[NDIRECT], j, b), inodes,
                  owner[b := Slot(i, NDIRECT + 1 + j)])
  {
    hide InUse, Ref, AllocDisk, RefsOk, BitsOk, PutWord;
    FreeBlock(sb, disk, inodes, owner, b);
    IndirectRefs(sb, disk, inodes, owner, i, j, b);
    var ind := inodes[i].addrs[NDIRECT];
    RefsLink(sb, disk, inodes, IndirectDisk(sb, disk, ind, j, b), inodes, owner, i, NDIRECT + 1 + j, b);
    AllocBits(sb, disk, owner, b, Slot(i, NDIRECT + 1 + j));
    DataWriteBits(sb, AllocDisk(sb, disk, b), owner[b := Slot(i, NDIRECT + 1 + j)], ind,
                  PutWord(AllocDisk(sb, disk, b)[ind], j, b));
  }

  lemma DataWriteBits(sb: Super, disk: seq<Block>, owner: Owners, b: nat, data: Block)
    requires sb.Valid() && |disk| == sb.size && sb.nmeta <= b < sb.size && BitsOk(sb, disk, owner)
    ensures BitsOk(sb, disk[b := data], owner)
  {
    hide InUse;
    var disk' := disk[b := data];
    forall c | 0 <= c < sb.size ensures InUse(sb, disk', c) <==> c < sb.nmeta || c in owner {
      DataWriteUse(sb, disk, b, data, c);
    }
  }

  // ---- What an allocation keeps ----------------------------------------------------------

  /** Every block keeps its owner, every data block its contents, every file its size. */
  ghost predicate Extends(disk: seq<Block>, inodes: seq<Inode>, owner: Owners, disk': seq<Block>, inodes': seq<Inode>,
                          owner': Owners) {
    && |inodes'| == |inodes| && |disk'| == |disk|
    && (forall k :: 0 <= k < |inodes| ==> inodes'[k].size == inodes[k].size)
    && forall b <- owner ::
         b in owner' && owner'[b] == owner[b] && (owner[b].slot != NDIRECT && b < |disk| ==> disk'[b] == disk[b])
  }

  lemma ExtendsTrans(disk: seq<Block>, inodes: seq<Inode>, owner: Owners, disk1: seq<Block>, inodes1: seq<Inode>,
                     owner1: Owners, disk2: seq<Block>, inodes2: seq<Inode>, owner2: Owners)
    requires Extends(disk, inodes, owner, disk1, inodes1, owner1)
    requires Extends(disk1, inodes1, owner1, disk2, inodes2, owner2)
    ensures Extends(disk, inodes, owner, disk2, inodes2, owner2)
  {}

  lemma ExtendsByte(sb: Super, disk: seq<Block>, inodes: seq<Inode>, owner: Owners, disk': seq<Block>,
                    inodes': seq<Inode>, owner': Owners, i: nat, o: nat)
    requires Owned(sb, disk, inodes, owner) && Owned(sb, disk', inodes', owner')
    requires Extends(disk, inodes, owner, disk', inodes', owner')
    requires i < |inodes| && o < MAXFILE * BSIZE && BlockOf(disk, inodes[i], o / BSIZE) != 0
    ensures BlockOf(disk', inodes'[i], o / BSIZE) == BlockOf(disk, inodes[i], o / BSIZE)
    ensures ByteAt(disk', inodes'[i], o) == ByteAt(disk, inodes[i], o)
  {
    hide Ref, BitsOk;
    var s := SlotOf(o / BSIZE);
    assert Ref(disk, inodes[i], s) in owner;
  }

  /** An allocation changes no stored byte. */
  lemma ExtendsBytes(sb: Super, disk: seq<Block>, inodes: seq<Inode>, owner: Owners, disk': seq<Block>,
                     inodes': seq<Inode>, owner': Owners, i: nat, len: nat)
    requires Owned(sb, disk, inodes, owner) && Owned(sb, disk', inodes', owner')
    requires Extends(disk, inodes, owner, disk', inodes', owner')
    requires i < |inodes| && len <= MAXFILE * BSIZE && Mapped(disk, inodes[i], len)
    ensures Mapped(disk', inodes'[i], len) && Bytes(disk', inodes'[i], len) == Bytes(disk, inodes[i], len)
  {
    hide Owned, Extends, BlockOf;
    SameSize(disk, inodes, owner, disk', inodes', owner', i);
    MustBeOk(sb, disk, inodes, owner, i);
    MustBeOk(sb, disk', inodes', owner', i);
    forall bn | 0 <= bn < MAXFILE && bn * BSIZE < len ensures BlockOf(disk', inodes'[i], bn) != 0 {
      ExtendsByte(sb, disk, inodes, owner, disk', inodes', owner', i, bn * BSIZE);
    }
    forall o | 0 <= o < len ensures ByteAt(disk', inodes'[i], o) == ByteAt(disk, inodes[i], o) {
      assert o / BSIZE * BSIZE <= o;
      ExtendsByte(sb, disk, inodes, owner, disk', inodes', owner', i, o);
    }
  }

  lemma MustBeOk(sb: Super, disk: seq<Block>, inodes: seq<Inode>, owner: Owners, i: nat)
    requires Owned(sb, disk, inodes, owner) && i < |inodes|
    ensures InodeOk(inodes[i])
  {}

  lemma SameSize(disk: seq<Block>, inodes: seq<Inode>, owner: Owners, disk': seq<Block>, inodes': seq<Inode>,
                 owner': Owners, i: nat)
    requires Extends(disk, inodes, owner, disk', inodes', owner') && i < |inodes|
    ensures i < |inodes'| && inodes'[i].size == inodes[i].size
  {}

  lemma DirectExtends(sb: Super, disk: seq<Block>, inodes: seq<Inode>, owner: Owners, i: nat, s: nat, b: nat)
    requires Owned(sb, disk, inodes, owner) && sb.nmeta <= b < sb.size && b !in owner
    requires i < |inodes| && s <= NDIRECT
    ensures Extends(disk, inodes, owner, AllocDisk(sb, disk, b), inodes[i := SetAddr(inodes[i], s, b)],
              owner[b := Slot(i, s)])
  {
    hide Ref, BitsOk, AllocDisk;
    forall c <- owner ensures AllocDisk(sb, disk, b)[c] == disk[c] { AllocData(sb, disk, b, c); }
  }

  lemma IndirectExtends(sb: Super, disk: seq<Block>, inodes: seq<Inode>, owner: Owners, i: nat, j: nat, b: nat)
    requires Owned(sb, disk, inodes, owner) && sb.nmeta <= b < sb.size && b !in owner
    requires i < |inodes| && j < NINDIRECT && 0 < inodes[i].addrs[NDIRECT] < sb.size
    ensures Extends(disk, inodes, owner, IndirectDisk(sb, disk, inodes[i].addrs[NDIRECT], j, b), inodes,
              owner[b := Slot(i, NDIRECT + 1 + j)])
  {
    hide Ref, BitsOk, AllocDisk, PutWord;
    RefDirect(disk, inodes[i], NDIRECT);
    forall c <- owner ensures AllocDisk(sb, disk, b)[c] == disk[c] { AllocData(sb, disk, b, c); }
  }

  // ---- Writing data ----------------------------------------------------------------------

  /** memmove(data + at, src, |src|). */
  function Splice(b: Block, at: nat, src: seq<Byte>): (r: Block)
    requires at + |src| <= BSIZE
  {
    b[..at] + src + b[at + |src|..]
  }

  /** Writing a data block of file i changes no reference. */
  lemma DataWriteRefs(sb: Super, disk: seq<Block>, inodes: seq<Inode>, owner: Owners, b: nat, data: Block)
    requires Owned(sb, disk, inodes, owner) && b in owner && owner[b].slot != NDIRECT
    ensures forall k, r :: 0 <= k < |inodes| && 0 <= r < SLOTS ==>
              Ref(disk[b := data], inodes[k], r) == Ref(disk, inodes[k], r)
  {
    hide BitsOk, GetWord;
    forall k, r | 0 <= k < |inodes| && 0 <= r < SLOTS
      ensures Ref(disk[b := data], inodes[k], r) == Ref(disk, inodes[k], r)
    {
      assert Ref(disk, inodes[k], NDIRECT) == inodes[k].addrs[NDIRECT];
    }
  }

  lemma SameRefs(sb: Super, disk: seq<Block>, inodes: seq<Inode>, owner: Owners, disk': seq<Block>)
    requires Wf(sb, disk, inodes) && Wf(sb, disk', inodes) && RefsOk(sb, disk, inodes, owner)
    requires forall k, r :: 0 <= k < |inodes| && 0 <= r < SLOTS ==> Ref(disk', inodes[k], r) == Ref(disk, inodes[k], r)
    ensures RefsOk(sb, disk', inodes, owner)
  {
    hide Ref;
  }

  lemma DataWriteOwned(sb: Super, disk: seq<Block>, inodes: seq<Inode>, owner: Owners, b: nat, data: Block)
    requires Owned(sb, disk, inodes, owner) && b in owner && owner[b].slot != NDIRECT
    ensures Owned(sb, disk[b := data], inodes, owner)
  {
    hide BitsOk, Ref;
    DataWriteRefs(sb, disk, inodes, owner, b, data);
    DataWriteBits(sb, disk, owner, b, data);
    SameRefs(sb, disk, inodes, owner, disk[b := data]);
  }

  /** Only the bytes of one block of one file change. */
  lemma DataWriteByte(sb: Super, disk: seq<Block>, inodes: seq<Inode>, owner: Owners, i: nat, bn: nat, data: Block,
                      k: nat, o: nat)
    requires Owned(sb, disk, inodes, owner) && i < |inodes| && bn < MAXFILE && BlockOf(disk, inodes[i], bn) != 0
    requires k < |inodes| && o < MAXFILE * BSIZE && BlockOf(disk, inodes[k], o / BSIZE) != 0
    ensures BlockOf(disk, inodes[i], bn) in owner && owner[BlockOf(disk, inodes[i], bn)].slot != NDIRECT
    ensures var disk' := disk[BlockOf(disk, inodes[i], bn) := data];
            && BlockOf(disk', inodes[k], o / BSIZE) == BlockOf(disk, inodes[k], o / BSIZE)
            && ByteAt(disk', inodes[k], o) ==
               if k == i && o / BSIZE == bn then data[o % BSIZE] else ByteAt(disk, inodes[k], o)
  {
    hide BitsOk, Ref;
    var b := BlockOf(disk, inodes[i], bn);
    assert Ref(disk, inodes[i], SlotOf(bn)) == b;
    DataWriteRefs(sb, disk, inodes, owner, b, data);
    assert Ref(disk, inodes[k], SlotOf(o / BSIZE)) in owner;
  }

  // ---- Freeing ---------------------------------------------------------------------------

  /** Nothing but bitmap blocks differs. */
  ghost predicate SameData(sb: Super, disk: seq<Block>, disk': seq<Block>) {
    |disk'| == |disk| == sb.size && forall c :: sb.nmeta <= c < sb.size ==> disk'[c] == disk[c]
  }

  lemma MarkSameData(sb: Super, disk: seq<Block>, b: nat, on: bool)
    requires sb.Valid() && |disk| == sb.size && b < sb.size
    ensures SameData(sb, disk, MarkBit(sb, disk, b, on))
  {}

  /** With the data region unchanged, no reference depends on the disk. */
  lemma SameDataRef(sb: Super, disk: seq<Block>, inodes: seq<Inode>, owner: Owners, disk': seq<Block>, k: nat, r: nat)
    requires Wf(sb, disk, inodes) && RefsOk(sb, disk, inodes, owner) && SameData(sb, disk, disk')
    requires k < |inodes| && r < SLOTS
    ensures Ref(disk', inodes[k], r) == Ref(disk, inodes[k], r)
  {
    hide GetWord;
    assert Ref(disk, inodes[k], NDIRECT) == inodes[k].addrs[NDIRECT];
  }

  lemma DirectUnlinkRefs(sb: Super, disk: seq<Block>, inodes: seq<Inode>, owner: Owners, i: nat, s: nat,
                         disk': seq<Block>)
    requires Wf(sb, disk, inodes) && RefsOk(sb, disk, inodes, owner) && SameData(sb, disk, disk')
    requires i < |inodes| && s < NDIRECT
    ensures OneRef(disk, inodes, disk', inodes[i := SetAddr(inodes[i], s, 0)], i, s, 0)
  {
    hide GetWord;
    forall k, r | 0 <= k < |inodes| && 0 <= r < SLOTS
      ensures Ref(disk', inodes[i := SetAddr(inodes[i], s, 0)][k], r) ==
                if k == i && r == s then 0 else Ref(disk, inodes[k], r)
    {
      SameDataRef(sb, disk, inodes, owner, disk', k, r);
    }
  }

  lemma RefsUnlink(sb: Super, disk: seq<Block>, inodes: seq<Inode>, disk': seq<Block>, inodes': seq<Inode>,
                   owner: Owners, i: nat, s: nat)
    requires Wf(sb, disk, inodes) && Wf(sb, disk', inodes') && RefsOk(sb, disk, inodes, owner)
    requires i < |inodes| && s < SLOTS && OneRef(disk, inodes, disk', inodes', i, s, 0)
    ensures RefsOk(sb, disk', inodes', owner - {Ref(disk, inodes[i], s)})
  {
    hide Ref;
  }

  lemma FreeBits(sb: Super, disk: seq<Block>, owner: Owners, b: nat)
    requires sb.Valid() && |disk| == sb.size && sb.nmeta <= b < sb.size && BitsOk(sb, disk, owner)
    ensures BitsOk(sb, MarkBit(sb, disk, b, false), owner - {b})
  {
    hide InUse, MarkBit;
    var disk' := MarkBit(sb, disk, b, false);
    forall c | 0 <= c < sb.size ensures InUse(sb, disk', c) <==> c < sb.nmeta || c in owner - {b} {
      MarkBitUse(sb, disk, b, false, c);
    }
  }

  /** bfree of a direct block, and clearing its address. */
  lemma UnlinkDirect(sb: Super, disk: seq<Block>, inodes: seq<Inode>, owner: Owners, i: nat, s: nat)
    requires Owned(sb, disk, inodes, owner) && i < |inodes| && s < NDIRECT && inodes[i].addrs[s] != 0
    ensures var b := inodes[i].addrs[s];
            && sb.nmeta <= b < sb.size && b in owner && owner[b] == Slot(i, s) && InUse(sb, disk, b)
            && Owned(sb, MarkBit(sb, disk, b, false), inodes[i := SetAddr(inodes[i], s, 0)], owner - {b})
  {
    hide InUse, MarkBit, GetWord;
    var b := inodes[i].addrs[s];
    assert Ref(disk, inodes[i], s) == b;
    MarkSameData(sb, disk, b, false);
    DirectUnlinkRefs(sb, disk, inodes, owner, i, s, MarkBit(sb, disk, b, false));
    RefsUnlink(sb, disk, inodes, MarkBit(sb, disk, b, false), inodes[i := SetAddr(inodes[i], s, 0)], owner, i, s);
    FreeBits(sb, disk, owner, b);
  }

  /** The blocks that do not belong to file i. */
  function Without(owner: Owners, i: nat): Owners {
    map b | b in owner && owner[b].ino != i :: owner[b]
  }

  /** Progress of the loop over the indirect block: the first j entries are free. */
  ghost predicate FreedTo(sb: Super, disk: seq<Block>, owner: Owners, i: nat, j: nat)
    requires sb.Valid() && |disk| == sb.size
  {
    forall c :: 0 <= c < sb.size ==>
      (InUse(sb, disk, c) <==>
         c < sb.nmeta || (c in owner && !(owner[c].ino == i && NDIRECT < owner[c].slot <= NDIRECT + j)))
  }

  lemma FreeEntry(sb: Super, disk: seq<Block>, inodes: seq<Inode>, owner: Owners, i: nat, j: nat, disk': seq<Block>)
    requires Owned(sb, disk, inodes, owner) && SameData(sb, disk, disk') && FreedTo(sb, disk', owner, i, j)
    requires i < |inodes| && j < NINDIRECT
    ensures var b := Ref(disk, inodes[i], NDIRECT + 1 + j);
            if b == 0 then FreedTo(sb, disk', owner, i, j + 1)
            else b < sb.size && InUse(sb, disk', b) && FreedTo(sb, MarkBit(sb, disk', b, false), owner, i, j + 1)
  {
    hide InUse, MarkBit, Ref, BitsOk;
    var s := NDIRECT + 1 + j;
    var b := Ref(disk, inodes[i], s);
    if b != 0 {
      var after := MarkBit(sb, disk', b, false);
      forall c | 0 <= c < sb.size ensures InUse(sb, after, c) <==> if c == b then false else InUse(sb, disk', c) {
        MarkBitUse(sb, disk', b, false, c);
      }
    }
  }

  /** Every entry and the indirect block itself are free, and its address is cleared. */
  lemma UnlinkIndirect(sb: Super, disk: seq<Block>, inodes: seq<Inode>, owner: Owners, i: nat, disk': seq<Block>)
    requires Owned(sb, disk, inodes, owner) && i < |inodes| && inodes[i].addrs[NDIRECT] != 0
    requires forall s :: 0 <= s < NDIRECT ==> inodes[i].addrs[s] == 0
    requires SameData(sb, disk, disk') && FreedTo(sb, disk', owner, i, NINDIRECT)
    ensures var b := inodes[i].addrs[NDIRECT];
            && b < sb.size && InUse(sb, disk', b)
            && Owned(sb, MarkBit(sb, disk', b, false), inodes[i := SetAddr(inodes[i], NDIRECT, 0)], Without(owner, i))
  {
    hide InUse, MarkBit, GetWord, BitsOk;
    var b := inodes[i].addrs[NDIRECT];
    assert Ref(disk, inodes[i], NDIRECT) == b;
    var after := MarkBit(sb, disk', b, false);
    MarkSameData(sb, disk', b, false);
    UnlinkIndirectBits(sb, disk, inodes, owner, i, disk');
    assert RefsOk(sb, after, inodes[i := SetAddr(inodes[i], NDIRECT, 0)], Without(owner, i)) by {
      ClearedRefs(sb, disk, inodes, owner, i, after);
    }
  }

  lemma UnlinkIndirectBits(sb: Super, disk: seq<Block>, inodes: seq<Inode>, owner: Owners, i: nat, disk': seq<Block>)
    requires Owned(sb, disk, inodes, owner) && i < |inodes| && inodes[i].addrs[NDIRECT] != 0
    requires forall s :: 0 <= s < NDIRECT ==> inodes[i].addrs[s] == 0
    requires SameData(sb, disk, disk') && FreedTo(sb, disk', owner, i, NINDIRECT)
    ensures var b := inodes[i].addrs[NDIRECT];
            b < sb.size && BitsOk(sb, MarkBit(sb, disk', b, false), Without(owner, i))
  {
    hide InUse, MarkBit, GetWord;
    var b := inodes[i].addrs[NDIRECT];
    assert Ref(disk, inodes[i], NDIRECT) == b;
    var after := MarkBit(sb, disk', b, false);
    forall c | 0 <= c < sb.size ensures InUse(sb, after, c) <==> c < sb.nmeta || c in Without(owner, i) {
      MarkBitUse(sb, disk', b, false, c);
    }
  }

  lemma ClearedRefs(sb: Super, disk: seq<Block>, inodes: seq<Inode>, owner: Owners, i: nat, disk': seq<Block>)
    requires Wf(sb, disk, inodes) && RefsOk(sb, disk, inodes, owner) && SameData(sb, disk, disk') && i < |inodes|
    requires forall s :: 0 <= s < NDIRECT ==> inodes[i].addrs[s] == 0
    ensures RefsOk(sb, disk', inodes[i := SetAddr(inodes[i], NDIRECT, 0)], Without(owner, i))
  {
    var inodes' := inodes[i := SetAddr(inodes[i], NDIRECT, 0)];
    forall k, r | 0 <= k < |inodes| && 0 <= r < SLOTS
      ensures Ref(disk', inodes'[k], r) == if k == i then 0 else Ref(disk, inodes[k], r)
    {
      SameDataRef(sb, disk, inodes, owner, disk', k, r);
    }
    hide Ref;
  }

  /** A file without addresses owns nothing. */
  lemma NothingOwned(sb: Super, disk: seq<Block>, inodes: seq<Inode>, owner: Owners, i: nat)
    requires Owned(sb, disk, inodes, owner) && i < |inodes|
    requires forall s :: 0 <= s <= NDIRECT ==> inodes[i].addrs[s] == 0
    ensures Without(owner, i) == owner
  {}

  // ---- Reading and writing ranges --------------------------------------------------------

  /** A file with `src` stored at `at`, extended if need be. */
  function WriteAt(c: seq<Byte>, at: nat, src: seq<Byte>): (r: seq<Byte>)
    requires at <= |c|
    ensures |r| == if at + |src| < |c| then |c| else at + |src|
  {
    c[..at] + src + (if at + |src| < |c| then c[at + |src|..] else [])
  }

  lemma WriteAtTwice(c: seq<Byte>, at: nat, a: seq<Byte>, b: seq<Byte>)
    requires at <= |c|
    ensures WriteAt(WriteAt(c, at, a), at + |a|, b) == WriteAt(c, at, a + b)
  {}

  function Max(a: nat, b: nat): nat { if a < b then b else a }

  /** A piece of one block is the same piece of the file. */
  lemma ReadPiece(disk: seq<Block>, ip: Inode, len: nat, cur: nat, m: nat)
    requires InodeOk(ip) && cur + m <= len <= MAXFILE * BSIZE && cur % BSIZE + m <= BSIZE && m > 0
    requires BlockOf(disk, ip, cur / BSIZE) < |disk|
    ensures disk[BlockOf(disk, ip, cur / BSIZE)][cur % BSIZE..cur % BSIZE + m] == Bytes(disk, ip, len)[cur..cur + m]
  {
    hide Ref;
    var b := BlockOf(disk, ip, cur / BSIZE);
    forall o | cur <= o < cur + m ensures ByteAt(disk, ip, o) == disk[b][o - cur + cur % BSIZE] {
      SameBlock(cur, o - cur);
    }
  }

  lemma SameBlock(cur: nat, x: nat)
    requires cur % BSIZE + x < BSIZE
    ensures (cur + x) / BSIZE == cur / BSIZE && (cur + x) % BSIZE == cur % BSIZE + x
  {}

  lemma MappedMore(disk: seq<Block>, ip: Inode, len: nat, cur: nat, m: nat)
    requires InodeOk(ip) && Mapped(disk, ip, len) && cur <= len && m > 0
    requires cur % BSIZE + m <= BSIZE && cur + m <= MAXFILE * BSIZE && BlockOf(disk, ip, cur / BSIZE) != 0
    ensures Mapped(disk, ip, Max(len, cur + m))
  {
    hide BlockOf;
    forall bn | 0 <= bn < MAXFILE && bn * BSIZE < cur + m ensures BlockOf(disk, ip, bn) != 0 {
      assert bn <= cur / BSIZE;
    }
  }

  /** One block-sized piece of writei, after bmap. */
  lemma WritePiece(sb: Super, disk: seq<Block>, inodes: seq<Inode>, owner: Owners, i: nat, len: nat, cur: nat,
                   src: seq<Byte>)
    requires Owned(sb, disk, inodes, owner) && i < |inodes| && |src| > 0
    requires cur <= len <= MAXFILE * BSIZE && cur % BSIZE + |src| <= BSIZE && cur + |src| <= MAXFILE * BSIZE
    requires Mapped(disk, inodes[i], len) && 0 < BlockOf(disk, inodes[i], cur / BSIZE) < |disk|
    ensures var b := BlockOf(disk, inodes[i], cur / BSIZE);
            var disk' := disk[b := Splice(disk[b], cur % BSIZE, src)];
            && Mapped(disk', inodes[i], Max(len, cur + |src|))
            && Bytes(disk', inodes[i], Max(len, cur + |src|)) == WriteAt(Bytes(disk, inodes[i], len), cur, src)
  {
    hide Owned, BlockOf;
    var ip, bn, len' := inodes[i], cur / BSIZE, Max(len, cur + |src|);
    MustBeOk(sb, disk, inodes, owner, i);
    var b := BlockOf(disk, ip, bn);
    var data := Splice(disk[b], cur % BSIZE, src);
    var disk' := disk[b := data];
    MappedMore(disk, ip, len, cur, |src|);
    forall k | 0 <= k < MAXFILE && k * BSIZE < len' ensures BlockOf(disk', ip, k) != 0 {
      DataWriteByte(sb, disk, inodes, owner, i, bn, data, i, k * BSIZE);
    }
    var r := WriteAt(Bytes(disk, ip, len), cur, src);
    forall o | 0 <= o < len' ensures ByteAt(disk', ip, o) == r[o] {
      assert o / BSIZE * BSIZE <= o;
      DataWriteByte(sb, disk, inodes, owner, i, bn, data, i, o);
      SplicedByte(disk, ip, len, cur, src, o);
    }
  }

  /** Byte o of the file after the splice, computed in its block. */
  lemma SplicedByte(disk: seq<Block>, ip: Inode, len: nat, cur: nat, src: seq<Byte>, o: nat)
    requires InodeOk(ip) && |src| > 0
    requires cur <= len <= MAXFILE * BSIZE && cur % BSIZE + |src| <= BSIZE && cur + |src| <= MAXFILE * BSIZE
    requires o < Max(len, cur + |src|) && BlockOf(disk, ip, cur / BSIZE) < |disk|
    ensures WriteAt(Bytes(disk, ip, len), cur, src)[o] ==
            if o / BSIZE == cur / BSIZE then Splice(disk[BlockOf(disk, ip, cur / BSIZE)], cur % BSIZE, src)[o % BSIZE]
            else ByteAt(disk, ip, o)
  {
    hide BlockOf;
    if o / BSIZE == cur / BSIZE {
      assert o - cur == o % BSIZE - cur % BSIZE;
    }
  }

  /** The files other than i keep their contents. */
  ghost predicate OthersKept(disk: seq<Block>, inodes: seq<Inode>, disk': seq<Block>, inodes': seq<Inode>, i: nat) {
    && |inodes'| == |inodes|
    && forall k :: 0 <= k < |inodes| && k != i ==>
         inodes'[k] == inodes[k] && InodeOk(inodes[k]) && FileKept(disk, disk', inodes[k])
  }

  predicate FileKept(disk: seq<Block>, disk': seq<Block>, ip: Inode)
    requires InodeOk(ip)
  {
    Mapped(disk, ip, ip.size) ==> Mapped(disk', ip, ip.size) && Content(disk', ip) == Content(disk, ip)
  }

  lemma OthersTrans(disk: seq<Block>, inodes: seq<Inode>, disk1: seq<Block>, inodes1: seq<Inode>, disk2: seq<Block>,
                    inodes2: seq<Inode>, i: nat)
    requires OthersKept(disk, inodes, disk1, inodes1, i) && OthersKept(disk1, inodes1, disk2, inodes2, i)
    ensures OthersKept(disk, inodes, disk2, inodes2, i)
  {
    hide Mapped, Content;
  }

  lemma OthersExtend(sb: Super, disk: seq<Block>, inodes: seq<Inode>, owner: Owners, disk': seq<Block>,
                     inodes': seq<Inode>, owner': Owners, i: nat)
    requires Owned(sb, disk, inodes, owner) && Owned(sb, disk', inodes', owner')
    requires Extends(disk, inodes, owner, disk', inodes', owner')
    requires forall k :: 0 <= k < |inodes| && k != i ==> inodes'[k] == inodes[k]
    ensures OthersKept(disk, inodes, disk', inodes', i)
  {
    hide Owned, Mapped, Bytes;
    forall k | 0 <= k < |inodes| && k != i ensures InodeOk(inodes[k]) && FileKept(disk, disk', inodes[k]) {
      MustBeOk(sb, disk, inodes, owner, k);
      if Mapped(disk, inodes[k], inodes[k].size) {
        ExtendsBytes(sb, disk, inodes, owner, disk', inodes', owner', k, inodes[k].size);
      }
    }
  }

  lemma OthersWrite(sb: Super, disk: seq<Block>, inodes: seq<Inode>, owner: Owners, i: nat, bn: nat, data: Block)
    requires Owned(sb, disk, inodes, owner) && i < |inodes| && bn < MAXFILE
    requires 0 < BlockOf(disk, inodes[i], bn) < |disk|
    ensures OthersKept(disk, inodes, disk[BlockOf(disk, inodes[i], bn) := data], inodes, i)
  {
    hide Owned, BlockOf;
    MustBeOk(sb, disk, inodes, owner, i);
    var disk' := disk[BlockOf(disk, inodes[i], bn) := data];
    forall k | 0 <= k < |inodes| && k != i ensures InodeOk(inodes[k]) && FileKept(disk, disk', inodes[k]) {
      var ip := inodes[k];
      MustBeOk(sb, disk, inodes, owner, k);
      if Mapped(disk, ip, ip.size) {
        forall c | 0 <= c < MAXFILE && c * BSIZE < ip.size ensures BlockOf(disk', ip, c) != 0 {
          DataWriteByte(sb, disk, inodes, owner, i, bn, data, k, c * BSIZE);
        }
        forall o | 0 <= o < ip.size ensures ByteAt(disk', ip, o) == ByteAt(disk, ip, o) {
          assert o / BSIZE * BSIZE <= o;
          DataWriteByte(sb, disk, inodes, owner, i, bn, data, k, o);
        }
      }
    }
  }

  /** The blocks left when the first s addresses of file i are free. */
  function After(owner: Owners, i: nat, s: nat): Owners {
    map b | b in owner && !(owner[b].ino == i && owner[b].slot < s) :: owner[b]
  }

  lemma AfterStep(sb: Super, disk: seq<Block>, inodes: seq<Inode>, owner: Owners, i: nat, s: nat)
    requires Owned(sb, disk, inodes, After(owner, i, s)) && i < |inodes| && s <= NDIRECT
    ensures After(owner, i, s + 1) == After(owner, i, s) - {inodes[i].addrs[s]}
  {
    hide BitsOk;
    var cur := After(owner, i, s);
    RefDirect(disk, inodes[i], s);
    assert forall b <- cur :: cur[b] == Slot(i, s) ==> Ref(disk, inodes[i], s) == b;
    assert inodes[i].addrs[s] != 0 ==> inodes[i].addrs[s] in cur && cur[inodes[i].addrs[s]] == Slot(i, s);
    assert 0 !in cur;
  }

  lemma OthersSameData(sb: Super, disk: seq<Block>, inodes: seq<Inode>, owner: Owners, disk': seq<Block>,
                       inodes': seq<Inode>, i: nat)
    requires Owned(sb, disk, inodes, owner) && SameData(sb, disk, disk') && |inodes'| == |inodes|
    requires forall k :: 0 <= k < |inodes| && k != i ==> inodes'[k] == inodes[k]
    ensures OthersKept(disk, inodes, disk', inodes', i)
  {
    hide BitsOk, Ref;
    forall k | 0 <= k < |inodes| && k != i ensures FileKept(disk, disk', inodes[k]) {
      var ip := inodes[k];
      if Mapped(disk, ip, ip.size) {
        forall bn | 0 <= bn < MAXFILE
          ensures BlockOf(disk', ip, bn) == BlockOf(disk, ip, bn)
          ensures BlockOf(disk, ip, bn) != 0 ==> sb.nmeta <= BlockOf(disk, ip, bn) < sb.size
        {
          SameDataRef(sb, disk, inodes, owner, disk', k, SlotOf(bn));
          assert Ref(disk, ip, SlotOf(bn)) != 0 ==> Ref(disk, ip, SlotOf(bn)) in owner;
        }
        KeptBytes(sb, disk, disk', ip);
      }
    }
  }

  lemma KeptBytes(sb: Super, disk: seq<Block>, disk': seq<Block>, ip: Inode)
    requires InodeOk(ip) && SameData(sb, disk, disk') && Mapped(disk, ip, ip.size)
    requires forall bn :: 0 <= bn < MAXFILE ==>
               BlockOf(disk', ip, bn) == BlockOf(disk, ip, bn) &&
               (BlockOf(disk, ip, bn) != 0 ==> sb.nmeta <= BlockOf(disk, ip, bn) < sb.size)
    ensures Mapped(disk', ip, ip.size) && Content(disk', ip) == Content(disk, ip)
  {
    hide BlockOf;
    forall o | 0 <= o < ip.size ensures ByteAt(disk', ip, o) == ByteAt(disk, ip, o) {
      assert o / BSIZE * BSIZE <= o;
    }
  }
}
