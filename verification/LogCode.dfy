/** log.c as one thread runs it: the in-memory header, its loops, and the block writes they
    make. Each block write is shown to be the corresponding step of LogSystem. `trace` records
    the disk after every bwrite, so a postcondition about `trace` speaks of every instant at
    which the machine may stop. */
module LogCode {
  import opened LogSpec
  import opened LogSystem
  import opened LogSafety

  /** The state of the step system while one thread commits or recovers and no other runs. */
  function Alone(disk: Disk, cache: map<nat, Buf>, lh: seq<nat>, phase: Phase): State {
    State(disk, cache, lh, 0, InCommit(phase), [], map[], {}, phase, false, [], [], [])
  }

  class Log {
    const g: Geometry
    const block: array<nat>  // log.lh.block
    var n: nat               // log.lh.n
    var outstanding: int
    var committing: bool
    var disk: Disk
    var cache: map<nat, Buf>
    ghost var trace: seq<Disk>

    ghost predicate Valid()
      reads this, block
    {
      && g.Valid() && |disk| == g.nblocks
      && block.Length == LOGSIZE && n <= LOGSIZE
      && Listed(g, block[..n])
    }

    /** The disk and cache of this object, seen by the invariant of LogSafety. */
    ghost predicate Coherent(phase: Phase, base: Disk, logical: Disk)
      requires n <= block.Length
      reads this, block
    {
      SafeWith(g, Alone(disk, cache, block[..n], phase), base, logical)
    }

    /** bread, copied out: the cached contents, read from disk on a miss. */
    method Bread(b: nat) returns (data: Block)
      requires b < |disk|
      modifies this`cache
      ensures data == if b in old(cache) then old(cache)[b].data else disk[b]
      ensures cache == if b in old(cache) then old(cache) else old(cache)[b := Buf(disk[b], false)]
    {
      if b !in cache {
        cache := cache[b := Buf(disk[b], false)];
      }
      data := cache[b].data;
    }

    method Bwrite(b: nat, data: Block)
      requires b < |disk|
      modifies this`disk, this`cache, this`trace
      ensures disk == old(disk)[b := data]
      ensures cache == old(cache)[b := Buf(data, false)]
      ensures trace == old(trace) + [disk]
    {
      disk := disk[b := data];
      cache := cache[b := Buf(data, false)];
      trace := trace + [disk];
    }

    /** One iteration of write_log. */
    method WriteLogBlock(tail: nat, ghost base: Disk, ghost logical: Disk)
      requires Valid() && tail < n && tail + 1 < g.size && Coherent(WritingLog(tail), base, logical)
      modifies this`disk, this`cache, this`trace
      ensures Valid() && Coherent(WritingLog(tail + 1), base, logical)
      ensures trace == old(trace) + [disk] && Recovers(g, disk, base)
    {
      hide SafeWith;
      ghost var s := Alone(disk, cache, block[..n], WritingLog(tail));
      WriteLogSafe(g, s, tail, base, logical);
      LogBlocksFit(g, s, base, logical);
      var from := Bread(block[tail]);
      CachedPinned(s, tail, base, logical);
      Bwrite(g.start + tail + 1, from);
      assert Alone(disk, cache, block[..n], WritingLog(tail + 1)) == DoWriteLog(g, s, tail);
      RecoversOf(Alone(disk, cache, block[..n], WritingLog(tail + 1)), base, logical);
    }

    /** Copy modified blocks from cache to log: n block writes, none of which commits. With n >= g.size the
        last ones would go past the log area (SpillBreaks). */
    method WriteLog(ghost base: Disk, ghost logical: Disk)
      requires Valid() && n < g.size && Coherent(WritingLog(0), base, logical)
      modifies this`disk, this`cache, this`trace
      ensures Valid() && Coherent(WritingLog(n), base, logical)
      ensures |trace| == |old(trace)| + n && old(trace) <= trace
      ensures AllRecover(g, trace[|old(trace)|..], base)
    {
      hide SafeWith, Recovers;
      RecoversOf(Alone(disk, cache, block[..n], WritingLog(0)), base, logical);
      var tail := 0;
      while tail < n
        invariant tail <= n && Valid() && Coherent(WritingLog(tail), base, logical)
        invariant |trace| == |old(trace)| + tail && old(trace) <= trace
        invariant AllRecover(g, trace[|old(trace)|..], base)
      {
        ghost var before := trace;
        WriteLogBlock(tail, base, logical);
        AllRecoverSnoc(g, before, |old(trace)|, disk, base);
        tail := tail + 1;
      }
    }

    /** Write the in-memory header to disk, entry by entry into the buffer. */
    method WriteHead()
      requires Valid()
      modifies this`disk, this`cache, this`trace
      ensures var was := if g.start in old(cache) then old(cache)[g.start].data else old(disk)[g.start];
              disk == old(disk)[g.start := PutHeader(was, block[..n])]
      ensures cache == old(cache)[g.start := Buf(disk[g.start], false)]
      ensures trace == old(trace) + [disk]
    {
      var buf := Bread(g.start);
      var hb := buf[0 := n];
      var i := 0;
      while i < n
        invariant i <= n && |hb| == WORDS
        invariant hb == [n] + block[..i] + buf[1 + i..]
      {
        hb := hb[1 + i := block[i]];
        i := i + 1;
      }
      Bwrite(g.start, hb);
    }

    /** One iteration of install_trans, in commit or in recovery. */
    method InstallBlock(tail: nat, ghost recovering: bool, ghost base: Disk)
      requires Valid() && tail < n && Coherent(InstallPhase(recovering, tail), base, base)
      modifies this`disk, this`cache, this`trace
      ensures Valid() && Coherent(InstallPhase(recovering, tail + 1), base, base)
      ensures trace == old(trace) + [disk] && Recovers(g, disk, base)
    {
      hide SafeWith;
      ghost var s := Alone(disk, cache, block[..n], InstallPhase(recovering, tail));
      LogBlocksFit(g, s, base, base);
      LoadSafe(g, s, g.LogBlock(tail), base, base);
      ghost var s1 := DoLoad(s, g.LogBlock(tail));
      if recovering { RecoverInstallSafe(g, s1, tail, base); } else { InstallSafe(g, s1, tail, base); }
      var lbuf := Bread(g.start + tail + 1);
      Bwrite(block[tail], lbuf);
      ghost var r := Alone(disk, cache, block[..n], InstallPhase(recovering, tail + 1));
      assert r == if recovering then DoRecover(g, s1) else DoCommit(g, s1);
      RecoversOf(r, base, base);
    }

    /** Copy committed blocks from log to their home location: n block writes, none of which
        changes what recovery would restore. */
    method InstallTrans(ghost recovering: bool, ghost base: Disk)
      requires Valid() && Coherent(InstallPhase(recovering, 0), base, base)
      modifies this`disk, this`cache, this`trace
      ensures Valid() && Coherent(InstallPhase(recovering, n), base, base)
      ensures |trace| == |old(trace)| + n && old(trace) <= trace
      ensures AllRecover(g, trace[|old(trace)|..], base)
    {
      hide SafeWith, Recovers, InstallPhase;
      RecoversOf(Alone(disk, cache, block[..n], InstallPhase(recovering, 0)), base, base);
      var tail := 0;
      while tail < n
        invariant tail <= n && Valid() && Coherent(InstallPhase(recovering, tail), base, base)
        invariant |trace| == |old(trace)| + tail && old(trace) <= trace
        invariant AllRecover(g, trace[|old(trace)|..], base)
      {
        ghost var before := trace;
        InstallBlock(tail, recovering, base);
        AllRecoverSnoc(g, before, |old(trace)|, disk, base);
        tail := tail + 1;
      }
    }

    /** The header write that commits. */
    method CommitHead(ghost base: Disk, ghost logical: Disk)
      requires Valid() && Coherent(WritingLog(n), base, logical)
      modifies this`disk, this`cache, this`trace
      ensures Valid() && Coherent(Installing(0), logical, logical)
      ensures trace == old(trace) + [disk] && Recovers(g, disk, logical)
    {
      hide SafeWith, PutHeader;
      ghost var s := Alone(disk, cache, block[..n], WritingLog(n));
      CommitPointSafe(g, s, base, logical);
      WriteHead();
      ghost var r := Alone(disk, cache, block[..n], Installing(0));
      ForgetHistory(g, DoWriteLog(g, s, n), r, logical, logical);
      RecoversOf(r, logical, logical);
    }

    /** `log.lh.n = 0; write_head()`. */
    method EraseHead(ghost recovering: bool, ghost base: Disk)
      requires Valid() && Coherent(InstallPhase(recovering, n), base, base)
      modifies this`n, this`disk, this`cache, this`trace
      ensures Valid() && n == 0 && Coherent(if recovering then Running else Finishing, base, base)
      ensures trace == old(trace) + [disk] && Recovers(g, disk, base)
    {
      hide SafeWith, PutHeader;
      ghost var s := Alone(disk, cache, block[..n], InstallPhase(recovering, n));
      if recovering { RecoverEraseSafe(g, s, base); } else { EraseSafe(g, s, base); }
      n := 0;
      WriteHead();
      ghost var r := Alone(disk, cache, block[..n], if recovering then Running else Finishing);
      assert block[..n] == [];
      assert r == if recovering then DoRecover(g, s) else DoCommit(g, s);
      RecoversOf(r, base, base);
    }

    /** commit(): stopped before its header write the machine recovers the old contents, stopped
        at or after it the new ones, and there are exactly 2n + 2 places to stop. */
    method Commit(ghost base: Disk, ghost logical: Disk)
      requires Valid() && n < g.size && Coherent(if n > 0 then WritingLog(0) else Finishing, base, logical)
      modifies this`n, this`disk, this`cache, this`trace
      ensures Valid() && n == 0 && old(trace) <= trace
      ensures old(n) == 0 ==> trace == old(trace) && disk == old(disk)
      ensures old(n) > 0 ==> |trace| == |old(trace)| + 2 * old(n) + 2
      ensures old(n) > 0 ==> AllRecover(g, trace[|old(trace)|..|old(trace)| + old(n)], base)
      ensures old(n) > 0 ==> AllRecover(g, trace[|old(trace)| + old(n)..], logical)
      ensures old(n) > 0 ==> Coherent(Finishing, logical, logical)
    {
      hide SafeWith, Recovers;
      if n > 0 {
        WriteLog(base, logical);
        ghost var t1 := trace;
        CommitHead(base, logical);
        ghost var t2 := trace;
        InstallTrans(false, logical);
        ghost var t3 := trace;
        EraseHead(false, logical);
        assert trace[|old(trace)|..|t1|] == t1[|old(trace)|..];
        assert trace[|t1|..] == [t2[|t1|]] + t3[|t2|..] + [disk];
      }
    }

    /** The loop of read_head. */
    method CopyHead(buf: Block)
      requires buf[0] <= LOGSIZE == block.Length
      modifies this`n, block
      ensures n <= LOGSIZE && block[..n] == HeaderOf(buf)
    {
      n := buf[0];
      var i := 0;
      while i < n
        invariant i <= n <= block.Length && block[..i] == buf[1..1 + i]
        modifies block
      {
        block[i] := buf[1 + i];
        i := i + 1;
      }
    }

    /** Read the log header from disk into the in-memory log header. */
    method ReadHead(ghost base: Disk)
      requires Valid() && Coherent(RecoverHead, base, base)
      modifies this`n, this`cache, block
      ensures Valid() && block[..n] == HeaderOf(disk[g.start])
      ensures Coherent(RecoverInstall(0), base, base)
    {
      hide SafeWith;
      ghost var s := Alone(disk, cache, block[..n], RecoverHead);
      ghost var s1 := DoLoad(s, g.start);
      LoadSafe(g, s, g.start, base, base);
      RecoverHeadSafe(g, s1, base);
      HeaderOnDisk(s, base);
      var buf := Bread(g.start);
      CopyHead(buf);
      assert Alone(disk, cache, block[..n], RecoverInstall(0)) == DoRecover(g, s1);
    }

    /** recover_from_log: n + 1 block writes; stopped after any of them, the machine recovers the
        same contents, and at the end they are home and the log is empty. */
    method RecoverFromLog(ghost base: Disk)
      requires Valid() && Coherent(RecoverHead, base, base)
      modifies this`n, this`disk, this`cache, this`trace, block
      ensures Valid() && n == 0 && Coherent(Running, base, base)
      ensures |trace| == |old(trace)| + |HeaderOf(old(disk)[g.start])| + 1 && old(trace) <= trace
      ensures AllRecover(g, trace[|old(trace)|..], base)
      ensures SameHome(g, disk, base)
    {
      hide SafeWith, Recovers;
      ReadHead(base);
      InstallTrans(true, base);
      ghost var before := trace;
      EraseHead(true, base);
      AllRecoverSnoc(g, before, |old(trace)|, disk, base);
      HomeRestored(Alone(disk, cache, block[..n], Running), base);
    }

    /** log_write: panics, or records the block once, at its old place or at the end, and pins it. */
    method LogWrite(b: nat) returns (ok: bool)
      requires Valid() && g.Home(b) && b in cache
      modifies this`n, this`cache, block
      ensures ok <==> old(n) < LOGSIZE && old(n) < g.size - 1 && outstanding >= 1
      ensures Valid() && (old(n) < g.size ==> n < g.size)
      ensures block[..n] == if ok then Absorb(old(block[..n]), b) else old(block[..n])
      ensures cache == if ok then old(cache)[b := old(cache)[b].(dirty := true)] else old(cache)
    {
      if n >= LOGSIZE || n >= g.size - 1 || outstanding < 1 {
        return false;
      }
      ghost var lh := block[..n];
      AbsorbOk(g, lh, b);
      var i := 0;
      while i < n && block[i] != b
        invariant i <= n && b !in block[..i]
      {
        i := i + 1;
      }
      FindScan(lh, b, i);
      block[i] := b;
      if i == n {
        n := n + 1;
      }
      assert block[..n] == Absorb(lh, b);
      cache := cache[b := cache[b].(dirty := true)];
      ok := true;
    }

    lemma FindScan(lh: seq<nat>, b: nat, i: nat)
      requires i <= |lh| && b !in lh[..i] && (i < |lh| ==> lh[i] == b)
      ensures Find(lh, b) == i
    {}

    lemma CachedPinned(s: State, tail: nat, base: Disk, logical: Disk)
      requires SafeWith(g, s, base, logical) && s.phase == WritingLog(tail) && tail < |s.lh|
      ensures s.lh[tail] in s.cache
    {}

    lemma RecoversOf(s: State, base: Disk, logical: Disk)
      requires SafeWith(g, s, base, logical)
      ensures g.Valid() && |base| == |logical| == g.nblocks && Recovers(g, s.disk, base)
    {}
  
    lemma HeaderOnDisk(s: State, base: Disk)
      requires SafeWith(g, s, base, base) && s.phase == RecoverHead
      requires |s.disk| == g.nblocks > g.start
      ensures View(s, g.start) == s.disk[g.start] && s.disk[g.start][0] <= LOGSIZE
      ensures ListOk(g, HeaderOf(s.disk[g.start]))
    {
      ViewClean(s, base, g.start);
    }

    lemma HomeRestored(s: State, base: Disk)
      requires SafeWith(g, s, base, base) && s.phase == Running && |base| == |s.disk| == g.nblocks && s.lh == []
      ensures SameHome(g, s.disk, base)
    {
      forall b: nat | g.Home(b) ensures s.disk[b] == base[b] {
        assert ReplayBlock(g, s.disk, b) == base[b];
      }
    }
  }

  function InstallPhase(recovering: bool, tail: nat): Phase {
    if recovering then RecoverInstall(tail) else Installing(tail)
  }

  /** Every one of these disks recovers to `base`. */
  ghost predicate AllRecover(g: Geometry, ds: seq<Disk>, base: Disk) {
    g.Valid() && |base| == g.nblocks && forall k :: 0 <= k < |ds| ==> Recovers(g, ds[k], base)
  }

  lemma AllRecoverSnoc(g: Geometry, before: seq<Disk>, from: nat, d: Disk, base: Disk)
    requires from <= |before| && AllRecover(g, before[from..], base) && Recovers(g, d, base)
    ensures AllRecover(g, (before + [d])[from..], base)
  {
    hide Recovers;
    assert (before + [d])[from..] == before[from..] + [d];
  }

  /** The history fields of a state play no part in SafeWith. */
  lemma ForgetHistory(g: Geometry, s: State, r: State, base: Disk, logical: Disk)
    requires SafeWith(g, s, base, logical)
    requires r == s.(txns := r.txns, cur := r.cur, began := r.began)
    ensures SafeWith(g, r, base, logical)
  {
    hide DiskInv, CacheInv, ThreadInv;
  }
}
