/** Invariants of the logging system over all runs: atomic and durable commits under any
    crashes, a cache that agrees with the disk, grouping of operations, and log space. */
module LogSafety {
  import opened LogSpec
  import opened LogSystem

  /** A log with room for LOGSIZE blocks besides its header. */
  predicate Roomy(g: Geometry) { g.Valid() && g.size > LOGSIZE }

  predicate InCommit(p: Phase) { p.WritingLog? || p.Installing? || p.Finishing? }

  predicate NoneActive(threads: seq<Thread>) {
    forall t :: 0 <= t < |threads| ==> !threads[t].Active?
  }

  /** The disk, phase by phase: `base` is the initial disk with every committed transaction,
      `logical` is `base` with the open transaction. */
  ghost predicate DiskInv(g: Geometry, disk: Disk, lh: seq<nat>, phase: Phase, base: Disk, logical: Disk) {
    && g.Valid() && |base| == |logical| == g.nblocks
    && Recovers(g, disk, base)
    && Listed(g, lh)
    && match phase
       case Running => Uncommitted(g, disk, lh, base, logical)
       case WritingLog(tail) =>
         && Uncommitted(g, disk, lh, base, logical)
         && tail <= |lh|
         && (forall i :: 0 <= i < tail && i + 1 < g.size ==> disk[g.LogBlock(i)] == logical[lh[i]])
       case Finishing => Uncommitted(g, disk, lh, base, logical) && lh == []
       case Installing(tail) => ListOk(g, lh) && Installed(g, disk, lh, base, tail) && logical == base
       case RecoverInstall(tail) => ListOk(g, lh) && Installed(g, disk, lh, base, tail) && logical == base
       case RecoverHead => lh == [] && logical == base
  }

  ghost predicate Uncommitted(g: Geometry, disk: Disk, lh: seq<nat>, base: Disk, logical: Disk)
    requires g.Valid() && |disk| == |base| == |logical| == g.nblocks
  {
    && HeaderOf(disk[g.start]) == []
    && forall b: nat :: g.Home(b) && b !in lh ==> logical[b] == base[b]
  }

  ghost predicate Installed(g: Geometry, disk: Disk, lh: seq<nat>, base: Disk, tail: nat)
    requires g.Valid() && ListOk(g, lh) && |disk| == |base| == g.nblocks
  {
    && tail <= |lh|
    && HeaderOf(disk[g.start]) == lh
    && forall i :: 0 <= i < tail ==> disk[lh[i]] == base[lh[i]]
  }

  /** The blocks log_write has pinned with B_DIRTY and no bwrite has cleaned yet. */
  function Pinned(lh: seq<nat>, phase: Phase): seq<nat> {
    match phase
    case Running => lh
    case WritingLog(_) => lh
    case Installing(tail) => if tail <= |lh| then lh[tail..] else []
    case _ => []
  }

  /** Clean buffers equal the disk; dirty ones are exactly the pinned blocks and hold the
      logical contents. A block modified but not yet logged is exempt. */
  predicate CacheInv(cache: map<nat, Buf>, pending: set<nat>, disk: Disk, pinned: seq<nat>, logical: Disk) {
    && (forall b <- cache :: b < |disk| == |logical|)
    && (forall b <- cache :: !cache[b].dirty && b !in pending ==> cache[b].data == disk[b])
    && (forall b <- cache :: cache[b].dirty && b !in pending ==> cache[b].data == logical[b])
    && (forall b <- cache :: cache[b].dirty ==> b in pinned)
    && (forall i :: 0 <= i < |pinned| ==> pinned[i] in cache && cache[pinned[i]].dirty)
  }

  /** Operations run only in phase Running, and what they hold is cached. */
  predicate ThreadInv(g: Geometry, threads: seq<Thread>, held: map<nat, nat>, pending: set<nat>, cached: set<nat>) {
    && held.Keys <= cached
    && (forall b <- pending :: g.Home(b) && b in held && held[b] < |threads| && threads[held[b]].Active?)
    && (forall t :: 0 <= t < |threads| && threads[t].Active? && threads[t].checked >= 0 ==>
          g.Home(threads[t].checked) && threads[t].checked in held && held[threads[t].checked] == t)
  }

  predicate PhaseInv(s: State) {
    && (s.committing <==> InCommit(s.phase))
    && (!s.phase.Running? ==> NoneActive(s.threads) && s.pending == {})
  }

  /** write_log has stayed inside the log area; the step past its end halts the machine or spills. */
  predicate Inside(g: Geometry, s: State) { s.phase.WritingLog? && !s.halted ==> s.phase.tail < g.size }

  ghost predicate SafeWith(g: Geometry, s: State, base: Disk, logical: Disk) {
    && DiskInv(g, s.disk, s.lh, s.phase, base, logical)
    && CacheInv(s.cache, s.pending, s.disk, Pinned(s.lh, s.phase), logical)
    && ThreadInv(g, s.threads, s.held, s.pending, s.cache.Keys)
    && PhaseInv(s) && Inside(g, s)
  }

  lemma CacheAdd(cache: map<nat, Buf>, pending: set<nat>, disk: Disk, pinned: seq<nat>, logical: Disk, b: nat)
    requires CacheInv(cache, pending, disk, pinned, logical)
    requires b < |disk| == |logical|
    ensures CacheInv(cache[b := if b in cache then cache[b] else Buf(disk[b], false)], pending, disk, pinned, logical)
  {
    if b in cache {
      assert cache[b := cache[b]] == cache;
    }
  }

  lemma CacheDrop(cache: map<nat, Buf>, pending: set<nat>, disk: Disk, pinned: seq<nat>, logical: Disk, b: nat)
    requires CacheInv(cache, pending, disk, pinned, logical)
    requires b in cache && !cache[b].dirty
    ensures CacheInv(cache - {b}, pending, disk, pinned, logical)
  {}

  lemma AcquireSafe(g: Geometry, s: State, t: nat, b: nat, base: Disk, logical: Disk)
    requires SafeWith(g, s, base, logical)
    ensures SafeWith(g, DoAcquire(s, t, b), base, logical)
  {
    if b < |s.disk| {
      CacheAdd(s.cache, s.pending, s.disk, Pinned(s.lh, s.phase), logical, b);
    }
  }

  lemma BeginSafe(g: Geometry, s: State, t: nat, base: Disk, logical: Disk)
    requires SafeWith(g, s, base, logical)
    ensures SafeWith(g, DoBeginOp(s, t), base, logical)
  {
    hide DiskInv, CacheInv;
  }

  lemma ModifySafe(g: Geometry, s: State, t: nat, b: nat, data: Block, base: Disk, logical: Disk)
    requires SafeWith(g, s, base, logical)
    ensures SafeWith(g, DoModify(g, s, t, b, data), base, logical)
  {
    hide DiskInv;
  }

  lemma CheckSafe(g: Geometry, s: State, t: nat, b: nat, base: Disk, logical: Disk)
    requires SafeWith(g, s, base, logical)
    ensures SafeWith(g, DoLogCheck(g, s, t, b), base, logical)
  {
    hide DiskInv, CacheInv;
  }

  lemma ReleaseSafe(g: Geometry, s: State, t: nat, b: nat, base: Disk, logical: Disk)
    requires SafeWith(g, s, base, logical)
    ensures SafeWith(g, DoRelease(s, t, b), base, logical)
  {
    hide DiskInv, CacheInv;
  }

  lemma LoadSafe(g: Geometry, s: State, b: nat, base: Disk, logical: Disk)
    requires SafeWith(g, s, base, logical)
    ensures SafeWith(g, DoLoad(s, b), base, logical)
  {
    if b < |s.disk| {
      CacheAdd(s.cache, s.pending, s.disk, Pinned(s.lh, s.phase), logical, b);
    }
  }

  lemma EvictSafe(g: Geometry, s: State, b: nat, base: Disk, logical: Disk)
    requires SafeWith(g, s, base, logical)
    ensures SafeWith(g, DoEvict(s, b), base, logical)
  {
    if b in s.cache && !s.cache[b].dirty {
      CacheDrop(s.cache, s.pending, s.disk, Pinned(s.lh, s.phase), logical, b);
    }
  }

  lemma CrashSafe(g: Geometry, s: State, base: Disk, logical: Disk)
    requires SafeWith(g, s, base, logical)
    ensures SafeWith(g, DoCrash(s), base, base)
  {}

  lemma EndOpSafe(g: Geometry, s: State, t: nat, base: Disk, logical: Disk)
    requires SafeWith(g, s, base, logical)
    requires s.outstanding == 1 && t < |s.threads| && s.threads[t].Active? ==> NoneActive(s.threads[t := Idle])
    ensures SafeWith(g, DoEndOp(s, t), base, logical)
  {}

  lemma AbsorbOk(g: Geometry, lh: seq<nat>, b: nat)
    requires Listed(g, lh) && g.Home(b) && |lh| < LOGSIZE
    ensures Listed(g, Absorb(lh, b))
    ensures b in Absorb(lh, b) && forall c <- lh :: c in Absorb(lh, b)
    ensures forall c <- Absorb(lh, b) :: c == b || c in lh
  {}

  lemma CachePin(cache: map<nat, Buf>, pending: set<nat>, disk: Disk, pinned: seq<nat>, logical: Disk, b: nat)
    requires CacheInv(cache, pending, disk, pinned, logical)
    requires b in cache
    ensures CacheInv(cache[b := cache[b].(dirty := true)], pending - {b}, disk, Absorb(pinned, b),
                     logical[b := cache[b].data])
  {
    var p := Absorb(pinned, b);
    assert forall i :: 0 <= i < |p| ==> p[i] == b || p[i] in pinned;
  }

  /** log_write moves its block's cached contents into the open transaction. */
  lemma AppendSafe(g: Geometry, s: State, t: nat, base: Disk, logical: Disk)
    requires SafeWith(g, s, base, logical)
    requires |s.lh| < LOGSIZE
    requires t < |s.threads| && s.threads[t].Active? && s.threads[t].checked in s.cache
    ensures SafeWith(g, DoLogAppend(s, t), base, logical[s.threads[t].checked := s.cache[s.threads[t].checked].data])
  {
    hide CacheInv, Find;
    var b := s.threads[t].checked;
    AbsorbOk(g, s.lh, b);
    CachePin(s.cache, s.pending, s.disk, s.lh, logical, b);
  }

  /** A bwrite of any block with contents that agree with `logical` leaves a coherent cache. */
  lemma CacheWrite(cache: map<nat, Buf>, disk: Disk, pinned: seq<nat>, pinned': seq<nat>, logical: Disk, b: nat,
                   data: Block)
    requires CacheInv(cache, {}, disk, pinned, logical)
    requires b < |disk| == |logical|
    requires forall i :: 0 <= i < |pinned'| ==> pinned'[i] != b && pinned'[i] in pinned
    requires forall i :: 0 <= i < |pinned| ==> pinned[i] == b || pinned[i] in pinned'
    ensures CacheInv(cache[b := Buf(data, false)], {}, disk[b := data], pinned', logical)
  {}

  lemma WriteLogDisk(g: Geometry, disk: Disk, lh: seq<nat>, tail: nat, base: Disk, logical: Disk)
    requires DiskInv(g, disk, lh, WritingLog(tail), base, logical)
    requires tail < |lh| && tail + 1 < g.size
    ensures DiskInv(g, disk[g.LogBlock(tail) := logical[lh[tail]]], lh, WritingLog(tail + 1), base, logical)
  {
    var disk' := disk[g.LogBlock(tail) := logical[lh[tail]]];
    assert disk'[g.start] == disk[g.start];
    assert forall b: nat :: g.Home(b) ==> ReplayBlock(g, disk', b) == ReplayBlock(g, disk, b);
  }

  /** The commit point: one block write moves the recoverable state from `base` to `logical`. */
  lemma CommitDisk(g: Geometry, disk: Disk, lh: seq<nat>, head: Block, base: Disk, logical: Disk)
    requires DiskInv(g, disk, lh, WritingLog(|lh|), base, logical) && |lh| < g.size
    requires HeaderOf(head) == lh && head[0] <= LOGSIZE
    ensures DiskInv(g, disk[g.start := head], lh, Installing(0), logical, logical)
  {
    var disk' := disk[g.start := head];
    forall b: nat | g.Home(b)
      ensures ReplayBlock(g, disk', b) == logical[b]
    {
      assert ReplayBlock(g, disk, b) == base[b];
    }
  }

  lemma InstallDisk(g: Geometry, disk: Disk, lh: seq<nat>, tail: nat, base: Disk)
    requires tail < |lh|
    requires DiskInv(g, disk, lh, Installing(tail), base, base)
    ensures disk[g.LogBlock(tail)] == base[lh[tail]]
    ensures DiskInv(g, disk[lh[tail] := base[lh[tail]]], lh, Installing(tail + 1), base, base)
  {
    FindAt(lh, tail);
    assert ReplayBlock(g, disk, lh[tail]) == base[lh[tail]];
    var disk' := disk[lh[tail] := base[lh[tail]]];
    assert disk'[g.start] == disk[g.start];
    forall b: nat | g.Home(b)
      ensures ReplayBlock(g, disk', b) == base[b]
    {
      assert ReplayBlock(g, disk, b) == base[b];
    }
  }

  lemma EraseDisk(g: Geometry, disk: Disk, lh: seq<nat>, head: Block, base: Disk)
    requires DiskInv(g, disk, lh, Installing(|lh|), base, base)
    requires HeaderOf(head) == [] && head[0] <= LOGSIZE
    ensures DiskInv(g, disk[g.start := head], [], Finishing, base, base)
  {
    var disk' := disk[g.start := head];
    forall b: nat | g.Home(b)
      ensures ReplayBlock(g, disk', b) == base[b]
    {
      assert ReplayBlock(g, disk, b) == base[b];
    }
  }

  /** Outside the open transaction's unlogged changes, bread returns the logical contents of a
      pinned block and the disk contents of any other. */
  lemma ViewPinned(s: State, logical: Disk, i: nat)
    requires CacheInv(s.cache, s.pending, s.disk, Pinned(s.lh, s.phase), logical)
    requires i < |Pinned(s.lh, s.phase)| && Pinned(s.lh, s.phase)[i] !in s.pending
    ensures Pinned(s.lh, s.phase)[i] < |logical|
    ensures View(s, Pinned(s.lh, s.phase)[i]) == logical[Pinned(s.lh, s.phase)[i]]
  {}

  lemma ViewClean(s: State, logical: Disk, b: nat)
    requires CacheInv(s.cache, s.pending, s.disk, Pinned(s.lh, s.phase), logical)
    requires b < |s.disk| && b !in s.pending && b !in Pinned(s.lh, s.phase)
    ensures View(s, b) == s.disk[b]
  {}

  lemma WriteLogSafe(g: Geometry, s: State, tail: nat, base: Disk, logical: Disk)
    requires SafeWith(g, s, base, logical)
    requires s.phase == WritingLog(tail) && tail < |s.lh| && tail + 1 < g.size
    ensures SafeWith(g, DoWriteLog(g, s, tail), base, logical)
  {
    hide DiskInv, CacheInv;
    assert Listed(g, s.lh) && g.Valid() && g.LogBlock(tail) < |s.disk| == |logical| by {
      LogBlocksFit(g, s, base, logical);
    }
    ViewPinned(s, logical, tail);
    WriteLogDisk(g, s.disk, s.lh, tail, base, logical);
    CacheWrite(s.cache, s.disk, s.lh, s.lh, logical, g.LogBlock(tail), logical[s.lh[tail]]);
  }

  /** A write of write_log to a block past the log area: a home block. */
  predicate Spills(g: Geometry, s: State, a: Action) {
    && a.CommitStep? && !s.halted && s.phase.WritingLog? && s.phase.tail < |s.lh| && s.phase.tail + 1 >= g.size
    && g.LogBlock(s.phase.tail) !in s.held && s.lh[s.phase.tail] !in s.held && g.LogBlock(s.phase.tail) < |s.disk|
  }

  /** Past the end of the log area, unless it spills, write_log waits for a buffer or halts at the end of the
      disk. */
  lemma PastEndSafe(g: Geometry, s: State, tail: nat, base: Disk, logical: Disk)
    requires SafeWith(g, s, base, logical) && !Spills(g, s, CommitStep) && !s.halted
    requires s.phase == WritingLog(tail) && tail < |s.lh| && tail + 1 >= g.size
    ensures SafeWith(g, DoWriteLog(g, s, tail), base, logical)
  {}

  /** A spill overwrites the home block next to the log before the header is written: unless the two blocks
      happen to be equal, the disk no longer recovers. */
  lemma SpillBreaks(g: Geometry, s: State, base: Disk, logical: Disk)
    requires SafeWith(g, s, base, logical) && Spills(g, s, CommitStep)
    requires |base| == |logical| == g.nblocks
    ensures g.Valid() && g.LogBlock(s.phase.tail) == g.start + g.size < g.nblocks && s.lh[s.phase.tail] < g.nblocks
    ensures logical[s.lh[s.phase.tail]] != base[g.start + g.size] ==> !Recovers(g, DoCommit(g, s).disk, base)
  {
    var tail, b := s.phase.tail, g.start + g.size;
    ViewPinned(s, logical, tail);
    var disk' := DoCommit(g, s).disk;
    assert disk' == s.disk[b := logical[s.lh[tail]]];
    assert g.Home(b) && ReplayBlock(g, disk', b) == disk'[b];
  }

  lemma LogBlocksFit(g: Geometry, s: State, base: Disk, logical: Disk)
    requires SafeWith(g, s, base, logical)
    ensures Listed(g, s.lh) && g.Valid() && |s.disk| == |logical| == |base| == g.nblocks
    ensures forall i: nat :: i + 1 < g.size ==> g.LogBlock(i) < g.nblocks && g.InLog(g.LogBlock(i))
    ensures s.phase.Installing? || s.phase.RecoverInstall? ==> |s.lh| < g.size
  {}

  lemma CommitPointSafe(g: Geometry, s: State, base: Disk, logical: Disk)
    requires SafeWith(g, s, base, logical)
    requires s.phase == WritingLog(|s.lh|) && g.start !in s.held && !s.halted
    ensures SafeWith(g, DoWriteLog(g, s, |s.lh|), logical, logical)
  {
    hide DiskInv, CacheInv, PutHeader, HeaderOf;
    LogBlocksFit(g, s, base, logical);
    var head := PutHeader(View(s, g.start), s.lh);
    HeaderRoundTrip(View(s, g.start), s.lh);
    CommitDisk(g, s.disk, s.lh, head, base, logical);
    CacheWrite(s.cache, s.disk, s.lh, s.lh, logical, g.start, head);
    assert s.lh[0..] == s.lh;
  }

  /** install_trans inside commit(): the next pinned block reaches home and is unpinned. */
  lemma InstallSafe(g: Geometry, s: State, tail: nat, base: Disk)
    requires SafeWith(g, s, base, base)
    requires s.phase == Installing(tail) && tail < |s.lh|
    ensures SafeWith(g, DoCommit(g, s), base, base)
  {
    hide DiskInv, CacheInv;
    LogBlocksFit(g, s, base, base);
    ViewClean(s, base, g.LogBlock(tail));
    InstallDisk(g, s.disk, s.lh, tail, base);
    assert s.lh[tail + 1..] == s.lh[tail..][1..];
    CacheWrite(s.cache, s.disk, s.lh[tail..], s.lh[tail + 1..], base, s.lh[tail], base[s.lh[tail]]);
  }

  lemma EraseSafe(g: Geometry, s: State, base: Disk)
    requires SafeWith(g, s, base, base)
    requires s.phase == Installing(|s.lh|)
    ensures SafeWith(g, DoCommit(g, s), base, base)
  {
    hide DiskInv, CacheInv, PutHeader, HeaderOf;
    LogBlocksFit(g, s, base, base);
    assert s.lh[|s.lh|..] == [];
    var head := PutHeader(View(s, g.start), []);
    HeaderRoundTrip(View(s, g.start), []);
    EraseDisk(g, s.disk, s.lh, head, base);
    CacheWrite(s.cache, s.disk, [], [], base, g.start, head);
  }

  lemma RecoverAsInstall(g: Geometry, disk: Disk, lh: seq<nat>, tail: nat, base: Disk)
    ensures DiskInv(g, disk, lh, RecoverInstall(tail), base, base) <==>
              DiskInv(g, disk, lh, Installing(tail), base, base)
    ensures DiskInv(g, disk, [], Finishing, base, base) ==> DiskInv(g, disk, [], Running, base, base)
  {}

  /** install_trans inside recover_from_log, with nothing pinned. */
  lemma RecoverInstallSafe(g: Geometry, s: State, tail: nat, base: Disk)
    requires SafeWith(g, s, base, base)
    requires s.phase == RecoverInstall(tail) && tail < |s.lh|
    ensures SafeWith(g, DoRecover(g, s), base, base)
  {
    hide DiskInv, CacheInv;
    LogBlocksFit(g, s, base, base);
    ViewClean(s, base, g.LogBlock(tail));
    RecoverAsInstall(g, s.disk, s.lh, tail, base);
    RecoverAsInstall(g, s.disk[s.lh[tail] := base[s.lh[tail]]], s.lh, tail + 1, base);
    InstallDisk(g, s.disk, s.lh, tail, base);
    CacheWrite(s.cache, s.disk, [], [], base, s.lh[tail], base[s.lh[tail]]);
  }

  lemma RecoverEraseSafe(g: Geometry, s: State, base: Disk)
    requires SafeWith(g, s, base, base)
    requires s.phase == RecoverInstall(|s.lh|)
    ensures SafeWith(g, DoRecover(g, s), base, base)
  {
    hide DiskInv, CacheInv, PutHeader, HeaderOf;
    LogBlocksFit(g, s, base, base);
    var head := PutHeader(View(s, g.start), []);
    HeaderRoundTrip(View(s, g.start), []);
    RecoverAsInstall(g, s.disk, s.lh, |s.lh|, base);
    EraseDisk(g, s.disk, s.lh, head, base);
    RecoverAsInstall(g, s.disk[g.start := head], [], 0, base);
    CacheWrite(s.cache, s.disk, [], [], base, g.start, head);
  }

  lemma RecoverHeadSafe(g: Geometry, s: State, base: Disk)
    requires SafeWith(g, s, base, base)
    requires s.phase == RecoverHead
    ensures SafeWith(g, DoRecover(g, s), base, base)
  {
    ViewClean(s, base, g.start);
  }
}
