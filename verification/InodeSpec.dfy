/** Inode content and block ownership of fs.c, as functions of the disk and the in-core inodes. */
module InodeSpec {
  import opened FsBlocks

  const NDIRECT: nat := 12
  const MAXFILE: nat := NDIRECT + NINDIRECT
  const SLOTS: nat := NDIRECT + 1 + NINDIRECT

  /** sb.size, sb.bmapstart, and the number of blocks before the data region. */
  datatype Super = Super(size: nat, bmapstart: nat, nmeta: nat) {
    predicate Valid() {
      && 1 <= nmeta <= size < WORD
      && forall b :: 0 <= b < size ==> bmapstart + b / BPB < nmeta
    }
  }

  datatype Inode = Inode(addrs: seq<nat>, size: nat)

  predicate InodeOk(ip: Inode) { |ip.addrs| == NDIRECT + 1 && ip.size <= MAXFILE * BSIZE }

  predicate Wf(sb: Super, disk: seq<Block>, inodes: seq<Inode>) {
    && sb.Valid() && |disk| == sb.size
    && forall i :: 0 <= i < |inodes| ==> InodeOk(inodes[i])
  }

  /** A place that can refer to a block: slots 0-11 are the direct addresses of an inode, slot 12
      its indirect block, and slots 13.. the entries of that block. */
  datatype Slot = Slot(ino: nat, slot: nat)

  function Ref(disk: seq<Block>, ip: Inode, slot: nat): nat
    requires InodeOk(ip) && slot < SLOTS
  {
    if slot <= NDIRECT then ip.addrs[slot]
    else if 0 < ip.addrs[NDIRECT] < |disk| then GetWord(disk[ip.addrs[NDIRECT]], slot - NDIRECT - 1)
    else 0
  }

  function SlotOf(bn: nat): nat { if bn < NDIRECT then bn else bn + 1 }

  /** The disk address of block bn of the file, 0 when it has none. */
  function BlockOf(disk: seq<Block>, ip: Inode, bn: nat): nat
    requires InodeOk(ip) && bn < MAXFILE
  {
    Ref(disk, ip, SlotOf(bn))
  }

  /** The bitmap bit of block b. */
  predicate InUse(sb: Super, disk: seq<Block>, b: nat)
    requires sb.Valid() && |disk| == sb.size && b < sb.size
  {
    BlockBit(disk[sb.bmapstart + b / BPB], b % BPB)
  }

  type Owners = map<nat, Slot>

  /** Each block is referred to by at most one slot over all inodes and indirect blocks, and
      `owner` says by which. */
  ghost predicate RefsOk(sb: Super, disk: seq<Block>, inodes: seq<Inode>, owner: Owners)
    requires Wf(sb, disk, inodes)
  {
    && (forall i, s :: 0 <= i < |inodes| && 0 <= s < SLOTS && Ref(disk, inodes[i], s) != 0 ==>
          Ref(disk, inodes[i], s) in owner && owner[Ref(disk, inodes[i], s)] == Slot(i, s))
    && (forall b <- owner ::
          && sb.nmeta <= b < sb.size
          && owner[b].ino < |inodes| && owner[b].slot < SLOTS
          && Ref(disk, inodes[owner[b].ino], owner[b].slot) == b)
  }

  /** A bitmap bit is set exactly for metadata and for referenced blocks. */
  ghost predicate BitsOk(sb: Super, disk: seq<Block>, owner: Owners)
    requires sb.Valid() && |disk| == sb.size
  {
    forall b :: 0 <= b < sb.size ==> (InUse(sb, disk, b) <==> b < sb.nmeta || b in owner)
  }

  /** Every block that holds one of the first len bytes is allocated. */
  predicate Mapped(disk: seq<Block>, ip: Inode, len: nat)
    requires InodeOk(ip)
  {
    forall bn :: 0 <= bn < MAXFILE && bn * BSIZE < len ==> BlockOf(disk, ip, bn) != 0
  }

  ghost predicate Owned(sb: Super, disk: seq<Block>, inodes: seq<Inode>, owner: Owners) {
    Wf(sb, disk, inodes) && RefsOk(sb, disk, inodes, owner) && BitsOk(sb, disk, owner)
  }

  /** Byte o of the file, where its block is allocated. */
  function ByteAt(disk: seq<Block>, ip: Inode, o: nat): Byte
    requires InodeOk(ip) && o < MAXFILE * BSIZE
  {
    var b := BlockOf(disk, ip, o / BSIZE);
    if b < |disk| then disk[b][o % BSIZE] else 0
  }

  /** The first len bytes stored under the inode. */
  function Bytes(disk: seq<Block>, ip: Inode, len: nat): (c: seq<Byte>)
    requires InodeOk(ip) && len <= MAXFILE * BSIZE
    ensures |c| == len
  {
    seq(len, o requires 0 <= o < len => ByteAt(disk, ip, o))
  }

  /** The file as a byte sequence. */
  function Content(disk: seq<Block>, ip: Inode): (c: seq<Byte>)
    requires InodeOk(ip)
    ensures |c| == ip.size
  {
    Bytes(disk, ip, ip.size)
  }

  // ---- balloc and bfree ------------------------------------------------------------------

  /** Write the bitmap bit of b. */
  function MarkBit(sb: Super, disk: seq<Block>, b: nat, on: bool): (r: seq<Block>)
    requires sb.Valid() && |disk| == sb.size && b < sb.size
    ensures |r| == |disk|
  {
    disk[sb.bmapstart + b / BPB := SetBlockBit(disk[sb.bmapstart + b / BPB], b % BPB, on)]
  }

  lemma MarkBitUse(sb: Super, disk: seq<Block>, b: nat, on: bool, c: nat)
    requires sb.Valid() && |disk| == sb.size && b < sb.size && c < sb.size
    ensures InUse(sb, MarkBit(sb, disk, b, on), c) <==> if c == b then on else InUse(sb, disk, c)
  {
    hide SetBlockBit, BlockBit;
    if b / BPB == c / BPB {
      BlockBitSet(disk[sb.bmapstart + b / BPB], b % BPB, on, c % BPB);
      assert b % BPB == c % BPB ==> b == c;
    }
  }

  /** balloc: mark the block and zero it. */
  function AllocDisk(sb: Super, disk: seq<Block>, b: nat): (r: seq<Block>)
    requires sb.Valid() && |disk| == sb.size && b < sb.size
    ensures |r| == |disk|
  {
    MarkBit(sb, disk, b, true)[b := ZeroBlock()]
  }

  /** Writing any block of the data region leaves the bitmap alone. */
  lemma DataWriteUse(sb: Super, disk: seq<Block>, b: nat, data: Block, c: nat)
    requires sb.Valid() && |disk| == sb.size && sb.nmeta <= b < sb.size && c < sb.size
    ensures InUse(sb, disk[b := data], c) <==> InUse(sb, disk, c)
  {}

  lemma AllocUse(sb: Super, disk: seq<Block>, b: nat, c: nat)
    requires sb.Valid() && |disk| == sb.size && sb.nmeta <= b < sb.size && c < sb.size
    ensures InUse(sb, AllocDisk(sb, disk, b), c) <==> c == b || InUse(sb, disk, c)
  {
    hide InUse;
    MarkBitUse(sb, disk, b, true, c);
    DataWriteUse(sb, MarkBit(sb, disk, b, true), b, ZeroBlock(), c);
  }

  lemma AllocData(sb: Super, disk: seq<Block>, b: nat, c: nat)
    requires sb.Valid() && |disk| == sb.size && sb.nmeta <= b < sb.size && sb.nmeta <= c < sb.size
    ensures AllocDisk(sb, disk, b)[c] == if c == b then ZeroBlock() else disk[c]
  {}
}
