/** Raw disk blocks and the two ways fs.c looks inside them: as a bitmap and as an array of
    little-endian 32-bit block addresses. */
module FsBlocks {
  import opened Powers

  const BSIZE: nat := 512
  const BPB: nat := BSIZE * 8
  const NINDIRECT: nat := BSIZE / 4
  const WORD: nat := 0x1_0000_0000

  type Byte = x: nat | x < 256
  type Block = b: seq<Byte> | |b| == BSIZE witness seq(BSIZE, i => 0)

  /** x & (1 << j). */
  predicate Bit(x: nat, j: nat) {
    if j == 0 then x % 2 == 1 else Bit(x / 2, j - 1)
  }

  /** x | (1 << j), or with `on` false x & ~(1 << j). */
  function PutBit(x: nat, j: nat, on: bool): nat {
    if j == 0 then x - x % 2 + (if on then 1 else 0) else 2 * PutBit(x / 2, j - 1, on) + x % 2
  }

  lemma {:induction false} PutBitBit(x: nat, j: nat, on: bool, k: nat)
    ensures Bit(PutBit(x, j, on), k) <==> if k == j then on else Bit(x, k)
  {
    if j > 0 && k > 0 { PutBitBit(x / 2, j - 1, on, k - 1); }
  }

  lemma {:induction false} PutBitBound(x: nat, j: nat, on: bool, n: nat)
    requires x < Pow2(n) && j < n
    ensures PutBit(x, j, on) < Pow2(n)
  {
    assert Pow2(n) == 2 * Pow2(n - 1);
    assert x / 2 < Pow2(n - 1);
    if j > 0 { PutBitBound(x / 2, j - 1, on, n - 1); }
  }

  function PutByteBit(x: Byte, j: nat, on: bool): Byte
    requires j < 8
  {
    assert Pow2(8) == 256 by { assert Pow2(4) == 16; }
    PutBitBound(x, j, on, 8);
    PutBit(x, j, on)
  }

  /** Bit i of a bitmap block: data[i/8] & (1 << (i % 8)). */
  predicate BlockBit(b: Block, i: nat)
    requires i < BPB
  {
    Bit(b[i / 8], i % 8)
  }

  function SetBlockBit(b: Block, i: nat, on: bool): Block
    requires i < BPB
  {
    b[i / 8 := PutByteBit(b[i / 8], i % 8, on)]
  }

  lemma BlockBitSet(b: Block, i: nat, on: bool, k: nat)
    requires i < BPB && k < BPB
    ensures BlockBit(SetBlockBit(b, i, on), k) <==> if k == i then on else BlockBit(b, k)
  {
    hide PutBit, Bit;
    if i / 8 == k / 8 { PutBitBit(b[i / 8], i % 8, on, k % 8); }
  }

  /** ((uint*)data)[i]. */
  function GetWord(b: Block, i: nat): (w: nat)
    requires i < NINDIRECT
    ensures w < WORD
  {
    var b0: nat, b1: nat, b2: nat, b3: nat := b[4 * i], b[4 * i + 1], b[4 * i + 2], b[4 * i + 3];
    b0 + 0x100 * b1 + 0x1_0000 * b2 + 0x100_0000 * b3
  }

  function PutWord(b: Block, i: nat, w: nat): Block
    requires i < NINDIRECT && w < WORD
  {
    b[4 * i := w % 0x100]
     [4 * i + 1 := w / 0x100 % 0x100]
     [4 * i + 2 := w / 0x1_0000 % 0x100]
     [4 * i + 3 := w / 0x100_0000]
  }

  lemma WordRoundTrip(b: Block, i: nat, w: nat, k: nat)
    requires i < NINDIRECT && k < NINDIRECT && w < WORD
    ensures GetWord(PutWord(b, i, w), k) == if k == i then w else GetWord(b, k)
  {}

  function ZeroBlock(): Block { seq(BSIZE, i => 0) }

  lemma ZeroWord(i: nat)
    requires i < NINDIRECT
    ensures GetWord(ZeroBlock(), i) == 0
  {}
}
