/** The on-disk log of log.c: geometry, header block, recovery as a function of
    the disk, and transactions as sequences of logged blocks. */
module LogSpec {

  const MAXOPBLOCKS: nat := 10
  const LOGSIZE: nat := MAXOPBLOCKS * 3
  const WORDS: nat := 128  // BSIZE / sizeof(int)

  type Block = b: seq<nat> | |b| == WORDS witness seq(WORDS, i => 0)
  type Disk = seq<Block>

  /** `log.start` and `log.size`, on a disk of `nblocks` blocks. */
  datatype Geometry = Geometry(start: nat, size: nat, nblocks: nat) {
    predicate Valid() { 1 <= size && start + size <= nblocks }
    predicate InLog(b: nat) { start <= b < start + size }
    predicate Home(b: nat) { b < nblocks && !InLog(b) }
    function LogBlock(tail: nat): nat { start + tail + 1 }
  }

  /** The block list held by a header block: word 0 is `n`, words 1.. are `block[]`. */
  function HeaderOf(b: Block): (lh: seq<nat>)
    ensures |lh| <= LOGSIZE
  {
    if b[0] <= LOGSIZE then b[1..1 + b[0]] else []
  }

  /** `write_head` overwrites `n` and the first `n` entries, and keeps the rest of the block. */
  function PutHeader(b: Block, lh: seq<nat>): (r: Block)
    requires |lh| <= LOGSIZE
  {
    [|lh|] + lh + b[1 + |lh|..]
  }

  lemma HeaderRoundTrip(b: Block, lh: seq<nat>)
    requires |lh| <= LOGSIZE
    ensures HeaderOf(PutHeader(b, lh)) == lh && PutHeader(b, lh)[0] <= LOGSIZE
  {
    assert PutHeader(b, lh)[1..1 + |lh|] == lh;
  }

  /** Position of `b` in the header, or `|lh|`: the scan of `log_write`. */
  function Find(lh: seq<nat>, b: nat): (i: nat)
    ensures i <= |lh|
    ensures i < |lh| ==> lh[i] == b
    ensures b !in lh[..i]
    ensures i == |lh| <==> b !in lh
  {
    if lh == [] then 0
    else if lh[0] == b then 0
    else
      var j := Find(lh[1..], b);
      assert lh[..1 + j] == [lh[0]] + lh[1..][..j];
      1 + j
  }

  predicate Distinct(lh: seq<nat>) {
    forall i, j :: 0 <= i < j < |lh| ==> lh[i] != lh[j]
  }

  lemma FindAt(lh: seq<nat>, i: nat)
    requires Distinct(lh) && i < |lh|
    ensures Find(lh, lh[i]) == i
  {}

  /** A list that log_write may build. */
  predicate Listed(g: Geometry, lh: seq<nat>) {
    Distinct(lh) && |lh| <= LOGSIZE && forall i :: 0 <= i < |lh| ==> g.Home(lh[i])
  }

  /** A block list that a header of a log of geometry `g` may hold: its blocks fit the log area. */
  predicate ListOk(g: Geometry, lh: seq<nat>) { Listed(g, lh) && |lh| < g.size }

  /** What `recover_from_log` would leave in home block `b`, as a function of the disk alone. */
  function ReplayBlock(g: Geometry, d: Disk, b: nat): Block
    requires g.Valid() && |d| == g.nblocks && g.Home(b)
  {
    var lh := HeaderOf(d[g.start]);
    var i := Find(lh, b);
    if i < |lh| && g.LogBlock(i) < g.nblocks then d[g.LogBlock(i)] else d[b]
  }

  /** The disk is one from which recovery restores `base` on every home block. */
  ghost predicate Recovers(g: Geometry, d: Disk, base: Disk)
    requires g.Valid() && |base| == g.nblocks
  {
    && |d| == g.nblocks
    && d[g.start][0] <= LOGSIZE
    && ListOk(g, HeaderOf(d[g.start]))
    && forall b: nat :: g.Home(b) ==> ReplayBlock(g, d, b) == base[b]
  }

  ghost predicate SameHome(g: Geometry, d: Disk, e: Disk)
    requires |d| == |e| == g.nblocks
  {
    forall b: nat :: g.Home(b) ==> d[b] == e[b]
  }

  /** One `log_write`, by operation number `op`. */
  datatype Entry = Entry(op: nat, block: nat, data: Block)
  type Txn = seq<Entry>

  function ApplyTxn(d: Disk, txn: Txn): (r: Disk)
    ensures |r| == |d|
  {
    if txn == [] then d
    else
      var e := txn[|txn| - 1];
      var r := ApplyTxn(d, txn[..|txn| - 1]);
      if e.block < |r| then r[e.block := e.data] else r
  }

  function ApplyTxns(d: Disk, txns: seq<Txn>): (r: Disk)
    ensures |r| == |d|
  {
    if txns == [] then d else ApplyTxn(ApplyTxns(d, txns[..|txns| - 1]), txns[|txns| - 1])
  }

  lemma ApplySnoc(d: Disk, txn: Txn, e: Entry)
    requires e.block < |d|
    ensures ApplyTxn(d, txn + [e]) == ApplyTxn(d, txn)[e.block := e.data]
  {
    assert (txn + [e])[..|txn|] == txn;
  }

  lemma ApplyTxnsSnoc(d: Disk, txns: seq<Txn>, txn: Txn)
    ensures ApplyTxns(d, txns + [txn]) == ApplyTxn(ApplyTxns(d, txns), txn)
  {
    assert (txns + [txn])[..|txns|] == txns;
  }

  /** Later transactions are applied on top of earlier ones. */
  lemma {:induction false} ApplyTxnsAppend(d: Disk, txns: seq<Txn>, later: seq<Txn>)
    ensures ApplyTxns(d, txns + later) == ApplyTxns(ApplyTxns(d, txns), later)
  {
    if later == [] {
      assert txns + later == txns;
    } else {
      ApplyTxnsAppend(d, txns, later[..|later| - 1]);
      assert (txns + later)[..|txns + later| - 1] == txns + later[..|later| - 1];
    }
  }

  predicate Touches(txn: Txn, b: nat) { exists i :: 0 <= i < |txn| && txn[i].block == b }

  /** A block no transaction names keeps its contents. */
  lemma {:induction false} UntouchedTxn(d: Disk, txn: Txn, b: nat)
    requires b < |d| && !Touches(txn, b)
    ensures ApplyTxn(d, txn)[b] == d[b]
  {
    if txn != [] {
      var n := |txn| - 1;
      assert txn[n].block != b;
      assert !Touches(txn[..n], b) by {
        forall i | 0 <= i < n ensures txn[..n][i].block != b { assert txn[i].block != b; }
      }
      UntouchedTxn(d, txn[..n], b);
    }
  }

  lemma {:induction false} Untouched(d: Disk, txns: seq<Txn>, b: nat)
    requires b < |d| && forall i :: 0 <= i < |txns| ==> !Touches(txns[i], b)
    ensures ApplyTxns(d, txns)[b] == d[b]
  {
    hide Touches;
    if txns != [] {
      Untouched(d, txns[..|txns| - 1], b);
      UntouchedTxn(ApplyTxns(d, txns[..|txns| - 1]), txns[|txns| - 1], b);
    }
  }
}
