/** Whole-run theorems about the logging system. */
module LogRuns {
  import opened LogSpec
  import opened LogSystem
  import opened LogSafety

  // ---- Log space -------------------------------------------------------------------------

  function Unused(th: Thread): nat {
    if th.Active? && th.calls <= MAXOPBLOCKS then MAXOPBLOCKS - th.calls else 0
  }

  function One(th: Thread): nat { if th.Active? then 1 else 0 }

  function Sum(w: Thread -> nat, ts: seq<Thread>): nat {
    if ts == [] then 0 else Sum(w, ts[..|ts| - 1]) + w(ts[|ts| - 1])
  }

  lemma {:induction false} SumUpdate(w: Thread -> nat, ts: seq<Thread>, t: nat, x: Thread)
    requires t < |ts|
    ensures Sum(w, ts[t := x]) == Sum(w, ts) - w(ts[t]) + w(x)
  {
    var n := |ts| - 1;
    if t == n {
      assert ts[t := x][..n] == ts[..n];
    } else {
      assert ts[t := x][..n] == ts[..n][t := x];
      SumUpdate(w, ts[..n], t, x);
    }
  }

  lemma {:induction false} SumSame(w: Thread -> nat, ts: seq<Thread>, us: seq<Thread>)
    requires |ts| == |us| && forall i :: 0 <= i < |ts| ==> w(ts[i]) == w(us[i])
    ensures Sum(w, ts) == Sum(w, us)
  {
    if ts != [] { SumSame(w, ts[..|ts| - 1], us[..|us| - 1]); }
  }

  lemma {:induction false} CountBounds(ts: seq<Thread>)
    ensures Sum(Unused, ts) <= MAXOPBLOCKS * Sum(One, ts)
    ensures Sum(One, ts) == 0 <==> NoneActive(ts)
  {
    if ts != [] {
      var us := ts[..|ts| - 1];
      CountBounds(us);
      assert NoneActive(ts) <==> NoneActive(us) && !ts[|ts| - 1].Active?;
    }
  }

  /** `outstanding` counts the operations, and the log has room for every block that they may
      still log. */
  predicate SpaceInv(s: State) {
    && s.outstanding == Sum(One, s.threads)
    && |s.lh| + Sum(Unused, s.threads) <= LOGSIZE
    && (forall t :: 0 <= t < |s.threads| && s.threads[t].Active? ==>
          if s.threads[t].checked >= 0 then s.threads[t].calls < MAXOPBLOCKS
          else s.threads[t].calls <= MAXOPBLOCKS)
  }

  lemma SpaceBegin(s: State, t: nat)
    requires SpaceInv(s)
    ensures SpaceInv(DoBeginOp(s, t))
  {
    if t < |s.threads| && s.threads[t] == Idle {
      CountBounds(s.threads);
      SumUpdate(One, s.threads, t, Asleep);
      SumUpdate(Unused, s.threads, t, Asleep);
      SumUpdate(One, s.threads, t, Active(|s.began|, 0, -1));
      SumUpdate(Unused, s.threads, t, Active(|s.began|, 0, -1));
    }
  }

  lemma SpaceCheck(g: Geometry, s: State, t: nat, b: nat)
    requires SpaceInv(s)
    ensures SpaceInv(DoLogCheck(g, s, t, b))
  {
    if t < |s.threads| && s.threads[t].Active? {
      var x := s.threads[t].(checked := b);
      SumUpdate(One, s.threads, t, x);
      SumUpdate(Unused, s.threads, t, x);
    }
  }

  lemma SpaceAppend(s: State, t: nat)
    requires SpaceInv(s)
    ensures SpaceInv(DoLogAppend(s, t))
    ensures t < |s.threads| && s.threads[t].Active? && s.threads[t].checked >= 0 ==> |s.lh| < LOGSIZE
  {
    if t < |s.threads| && s.threads[t].Active? {
      var th := s.threads[t];
      var x := Active(th.op, th.calls + 1, -1);
      SumUpdate(One, s.threads, t, x);
      SumUpdate(Unused, s.threads, t, x);
      SumUpdate(Unused, s.threads, t, Idle);
    }
  }

  lemma SpaceEnd(s: State, t: nat)
    requires SpaceInv(s)
    ensures SpaceInv(DoEndOp(s, t))
    ensures s.outstanding == 1 && t < |s.threads| && s.threads[t].Active? ==> NoneActive(s.threads[t := Idle])
  {
    if t < |s.threads| && s.threads[t].Active? {
      var us := s.threads[t := Idle];
      SumUpdate(One, s.threads, t, Idle);
      SumUpdate(Unused, s.threads, t, Idle);
      SumSame(One, us, WakeAll(us));
      SumSame(Unused, us, WakeAll(us));
      CountBounds(us);
    }
  }

  /** What the committing and recovering steps leave alone. */
  predicate SameOps(s: State, r: State) {
    && r.outstanding == s.outstanding && r.began == s.began && r.threads == s.threads
    && r.committing == s.committing && r.txns == s.txns && r.cur == s.cur
    && r.held == s.held && r.pending == s.pending
  }

  lemma HeadFields(g: Geometry, s: State)
    ensures SameOps(s, WriteHead(g, s)) && WriteHead(g, s).lh == s.lh
  {
    hide PutHeader, View;
  }

  lemma InstallFields(g: Geometry, s: State, tail: nat, next: Phase, last: Phase)
    ensures var r := DoInstall(g, s, tail, next, last);
            SameOps(s, r) && ((r.lh == s.lh && r.phase in {s.phase, next}) || (r.lh == [] && r.phase == last))
  {
    hide PutHeader, View, WriteHead, Bwrite;
    EraseFields(g, s, last);
    if tail < |s.lh| { InstallOne(g, s, tail, next); }
  }

  lemma EraseFields(g: Geometry, s: State, last: Phase)
    ensures var r := WriteHead(g, s.(lh := [])).(phase := last); SameOps(s, r) && r.lh == []
  {
    hide WriteHead;
    HeadFields(g, s.(lh := []));
  }

  lemma InstallOne(g: Geometry, s: State, tail: nat, next: Phase)
    requires tail < |s.lh|
    ensures var r := Bwrite(s, s.lh[tail], View(s, g.LogBlock(tail))).(phase := next);
            SameOps(s, r) && r.lh == s.lh
  {
    hide View;
  }

  lemma CommitFields(g: Geometry, s: State)
    ensures var r := DoCommit(g, s);
            && r.outstanding == s.outstanding && r.began == s.began && r.held == s.held && r.pending == s.pending
            && (r.lh == s.lh || r.lh == [])
            && (r.phase == Finishing && r.phase != s.phase ==> r.lh == [])
            && (if s.phase == Finishing then r.threads == WakeAll(s.threads) && !r.committing
                else r.threads == s.threads && r.committing == s.committing)
            && ((r.txns == s.txns && r.cur == s.cur) ||
                (s.phase.WritingLog? && r.txns == s.txns + [s.cur] && r.cur == []))
            && (if s.phase == Finishing then r.phase == Running && r.lh == s.lh
                else if InCommit(s.phase) then InCommit(r.phase) else r == s)
  {
    hide PutHeader, View, WriteHead, DoInstall, DoWriteLog;
    match s.phase
    case Installing(tail) => InstallFields(g, s, tail, Installing(tail + 1), Finishing);
    case WritingLog(tail) => WriteFields(g, s, tail);
    case _ =>
  }

  lemma WriteFields(g: Geometry, s: State, tail: nat)
    requires s.phase.WritingLog?
    ensures var r := DoWriteLog(g, s, tail);
            && r.outstanding == s.outstanding && r.began == s.began && r.lh == s.lh
            && r.threads == s.threads && r.committing == s.committing
            && (r.phase.WritingLog? || r.phase.Installing?)
            && r.held == s.held && r.pending == s.pending
            && ((r.txns == s.txns && r.cur == s.cur) || (r.txns == s.txns + [s.cur] && r.cur == []))
  {
    hide PutHeader, View, WriteHead;
    HeadFields(g, s);
  }

  lemma SpaceCommit(g: Geometry, s: State)
    requires SpaceInv(s)
    ensures SpaceInv(DoCommit(g, s))
  {
    hide PutHeader, View, Sum;
    CommitFields(g, s);
    SumSame(One, s.threads, WakeAll(s.threads));
    SumSame(Unused, s.threads, WakeAll(s.threads));
  }

  lemma SpaceQuiet(s: State, lh: seq<nat>)
    requires s.outstanding == 0 && NoneActive(s.threads) && |lh| <= LOGSIZE
    ensures SpaceInv(s.(lh := lh))
  {
    CountBounds(s.threads);
  }

  // ---- Grouping of operations ------------------------------------------------------------

  ghost predicate FromGroup(txn: Txn, began: seq<nat>, k: nat) {
    forall i :: 0 <= i < |txn| ==> txn[i].op < |began| && began[txn[i].op] == k
  }

  /** Every entry of transaction k, and of the open one, was logged by an operation that began
      when exactly that many transactions had committed. */
  ghost predicate HistInv(s: State) {
    && (forall k :: 0 <= k < |s.txns| ==> FromGroup(s.txns[k], s.began, k))
    && FromGroup(s.cur, s.began, |s.txns|)
    && (forall t :: 0 <= t < |s.threads| && s.threads[t].Active? ==>
          s.threads[t].op < |s.began| && s.began[s.threads[t].op] == |s.txns|)
  }

  /** A sleeper in begin_op still has its reason to wait. */
  predicate SleepInv(s: State) {
    forall t :: 0 <= t < |s.threads| && s.threads[t] == Asleep ==>
      !Recovering(s) && (s.committing || |s.lh| + (s.outstanding + 1) * MAXOPBLOCKS > LOGSIZE)
  }

  lemma GroupNil(began: seq<nat>, k: nat)
    ensures FromGroup([], began, k)
  {}

  lemma HistCommit(g: Geometry, s: State)
    requires HistInv(s) && PhaseInv(s)
    ensures HistInv(DoCommit(g, s))
  {
    hide PutHeader, View, FromGroup;
    CommitFields(g, s);
    GroupNil(s.began, |s.txns| + 1);
  }

  lemma HistThreads(g: Geometry, s: State, a: Action)
    requires HistInv(s) && !a.CommitStep? && !a.RecoverStep? && !a.LogAppend?
    ensures HistInv(Step(g, s, a))
  {}

  lemma HistAppend(s: State, t: nat)
    requires HistInv(s)
    ensures HistInv(DoLogAppend(s, t))
  {
    hide Absorb;
  }

  lemma RecoverFields(g: Geometry, s: State)
    ensures SameOps(s, DoRecover(g, s))
    ensures var lh := DoRecover(g, s).lh; |lh| <= |s.lh| || |lh| <= LOGSIZE
    ensures var r := DoRecover(g, s);
            if Recovering(s) then r.phase.RecoverInstall? || (r.phase == Running && r.lh == []) else r == s
  {
    hide PutHeader, View, HeaderOf, DoInstall;
    match s.phase
    case RecoverInstall(tail) => InstallFields(g, s, tail, RecoverInstall(tail + 1), Running);
    case _ =>
  }

  lemma HistStep(g: Geometry, s: State, a: Action)
    requires HistInv(s) && PhaseInv(s)
    ensures HistInv(Step(g, s, a))
  {
    hide DoCommit, DoRecover, HistInv, DoLogAppend;
    match a
    case CommitStep => HistCommit(g, s);
    case RecoverStep => RecoverFields(g, s); HistFrame(s, DoRecover(g, s));
    case LogAppend(t) => HistAppend(s, t);
    case _ => HistThreads(g, s, a);
  }

  lemma HistFrame(s: State, r: State)
    requires HistInv(s) && SameOps(s, r)
    ensures HistInv(r)
  {}

  lemma SpaceStep(g: Geometry, s: State, a: Action)
    requires SpaceInv(s) && PhaseInv(s)
    ensures SpaceInv(Step(g, s, a))
  {
    hide DoCommit, DoRecover, DoBeginOp, DoLogAppend, DoEndOp, DoLogCheck, SpaceInv;
    match a
    case BeginOp(t) => SpaceBegin(s, t);
    case LogCheck(t, b) => SpaceCheck(g, s, t, b);
    case LogAppend(t) => SpaceAppend(s, t);
    case EndOp(t) => SpaceEnd(s, t);
    case CommitStep => SpaceCommit(g, s);
    case RecoverStep => SpaceRecover(g, s);
    case Crash => SpaceQuiet(DoCrash(s), []);
    case _ => SpaceFrame(s, Step(g, s, a));
  }

  lemma SpaceFrame(s: State, r: State)
    requires SpaceInv(s) && r.outstanding == s.outstanding && r.threads == s.threads && r.lh == s.lh
    ensures SpaceInv(r)
  {}

  lemma SpaceRecover(g: Geometry, s: State)
    requires SpaceInv(s) && PhaseInv(s)
    ensures SpaceInv(DoRecover(g, s))
  {
    RecoverFields(g, s);
    var r := DoRecover(g, s);
    if Recovering(s) {
      CountBounds(s.threads);
      SpaceQuiet(r, r.lh);
    }
  }

  lemma SleepStep(g: Geometry, s: State, a: Action)
    requires SleepInv(s) && PhaseInv(s)
    ensures SleepInv(Step(g, s, a))
  {
    hide DoCommit, DoRecover;
    CommitFields(g, s);
    RecoverFields(g, s);
  }

  // ---- Phases ----------------------------------------------------------------------------

  /** A block changed and not yet logged is locked by an operation. */
  predicate PendInv(s: State) {
    forall b <- s.pending :: b in s.held && s.held[b] < |s.threads| && s.threads[s.held[b]].Active?
  }

  /** An idle log is empty, and so is one whose commit is over. */
  predicate IdleInv(s: State) {
    (s.phase.Running? && s.outstanding == 0) || s.phase.Finishing? ==> s.lh == []
  }

  lemma PhaseStep(g: Geometry, s: State, a: Action)
    requires PhaseInv(s) && PendInv(s) && SpaceInv(s)
    ensures PhaseInv(Step(g, s, a)) && PendInv(Step(g, s, a))
  {
    hide DoCommit, DoRecover, SpaceInv, Absorb;
    match a
    case EndOp(t) => PhaseEnd(s, t);
    case CommitStep => CommitFields(g, s);
    case RecoverStep => RecoverFields(g, s);
    case _ =>
  }

  /** The last operation has logged all it changed: it holds no buffer. */
  lemma PhaseEnd(s: State, t: nat)
    requires PhaseInv(s) && PendInv(s) && SpaceInv(s)
    ensures PhaseInv(DoEndOp(s, t)) && PendInv(DoEndOp(s, t))
  {
    hide SpaceInv;
    SpaceEnd(s, t);
    if t < |s.threads| && s.threads[t].Active? && HoldsNothing(s, t) {
      var us := s.threads[t := Idle];
      forall b <- s.pending ensures us[s.held[b]].Active? && WakeAll(us)[s.held[b]].Active? {
        assert s.held[b] != t;
      }
      if s.outstanding == 1 { assert s.pending == {}; }
    }
  }

  lemma IdleStep(g: Geometry, s: State, a: Action)
    requires IdleInv(s) && PhaseInv(s) && SpaceInv(s)
    ensures IdleInv(Step(g, s, a))
  {
    hide DoCommit, DoRecover, Sum, Absorb;
    CountBounds(s.threads);
    match a
    case EndOp(t) => if t < |s.threads| { SumUpdate(One, s.threads, t, Idle); }
    case CommitStep => CommitFields(g, s);
    case RecoverStep => RecoverFields(g, s);
    case _ =>
  }

  /** What holds in every reachable state, whatever the geometry and the disk. */
  ghost predicate OpsInv(s: State) {
    PhaseInv(s) && PendInv(s) && SpaceInv(s) && HistInv(s) && SleepInv(s) && IdleInv(s)
  }

  lemma OpsStep(g: Geometry, s: State, a: Action)
    requires OpsInv(s)
    ensures OpsInv(Step(g, s, a))
  {
    hide Step, PhaseInv, PendInv, SpaceInv, HistInv, SleepInv, IdleInv;
    PhaseStep(g, s, a);
    SpaceStep(g, s, a);
    HistStep(g, s, a);
    SleepStep(g, s, a);
    IdleStep(g, s, a);
  }

  lemma {:induction false} RunOps(g: Geometry, d: Disk, n: nat, acts: seq<Action>)
    ensures OpsInv(Run(g, Boot(d, n), acts))
  {
    hide Step, OpsInv;
    if acts == [] {
      OpsBoot(d, n);
    } else {
      RunOps(g, d, n, acts[..|acts| - 1]);
      OpsStep(g, Run(g, Boot(d, n), acts[..|acts| - 1]), acts[|acts| - 1]);
    }
  }

  lemma OpsBoot(d: Disk, n: nat)
    ensures OpsInv(Boot(d, n))
  {
    CountBounds(AllIdle(n));
  }

  // ---- The invariant of every state reached without a spill -------------------------------

  ghost function Base(init: Disk, s: State): Disk { ApplyTxns(init, s.txns) }

  ghost function Logical(init: Disk, s: State): Disk { ApplyTxn(Base(init, s), s.cur) }

  ghost predicate Inv(g: Geometry, init: Disk, s: State) {
    && SafeWith(g, s, Base(init, s), Logical(init, s))
    && (!s.phase.Running? && !s.phase.WritingLog? && !s.phase.Finishing? ==> s.cur == [])
    && OpsInv(s)
  }

  /** The part of Inv that only concerns disk, cache and buffers, after any step. */
  ghost predicate Safe(g: Geometry, init: Disk, s: State) {
    SafeWith(g, s, Base(init, s), Logical(init, s))
  }

  lemma SafeAppend(g: Geometry, init: Disk, s: State, t: nat)
    requires Inv(g, init, s)
    ensures Safe(g, init, DoLogAppend(s, t))
  {
    hide DiskInv, CacheInv, SpaceInv, HistInv, SleepInv, PendInv, IdleInv, ApplyTxn, ApplyTxns;
    var s' := DoLogAppend(s, t);
    if t < |s.threads| && s.threads[t].Active? && s.threads[t].checked >= 0 && s.threads[t].checked in s.cache {
      var b: nat := s.threads[t].checked;
      SpaceAppend(s, t);
      AppendSafe(g, s, t, Base(init, s), Logical(init, s));
      LogBlocksFit(g, s, Base(init, s), Logical(init, s));
      ApplySnoc(Base(init, s), s.cur, Entry(s.threads[t].op, b, s.cache[b].data));
    }
  }

  lemma SafeCommit(g: Geometry, init: Disk, s: State)
    requires Inv(g, init, s) && !Spills(g, s, CommitStep) && !s.halted
    ensures Safe(g, init, DoCommit(g, s))
    ensures var r := DoCommit(g, s); r.phase.Installing? ==> r.cur == []
  {
    hide DiskInv, CacheInv, SpaceInv, HistInv, SleepInv, ApplyTxns, PutHeader;
    var base, logical := Base(init, s), Logical(init, s);
    match s.phase
    case WritingLog(tail) =>
      WritingTail(g, s, base, logical);
      if tail < |s.lh| && tail + 1 < g.size {
        WriteLogSafe(g, s, tail, base, logical);
      } else if tail < |s.lh| {
        PastEndSafe(g, s, tail, base, logical);
      } else if g.start !in s.held {
        CommitPointSafe(g, s, base, logical);
        ApplyTxnsSnoc(init, s.txns, s.cur);
      }
    case Installing(tail) =>
      WritingTail(g, s, base, logical);
      if tail < |s.lh| { InstallSafe(g, s, tail, base); } else { EraseSafe(g, s, base); }
    case Finishing => FinishSafe(g, s, base, logical);
    case _ =>
  }

  lemma WritingTail(g: Geometry, s: State, base: Disk, logical: Disk)
    requires SafeWith(g, s, base, logical)
    ensures s.phase.WritingLog? || s.phase.Installing? || s.phase.RecoverInstall? ==> s.phase.tail <= |s.lh|
  {}

  lemma FinishSafe(g: Geometry, s: State, base: Disk, logical: Disk)
    requires SafeWith(g, s, base, logical) && s.phase == Finishing
    ensures SafeWith(g, DoCommit(g, s), base, logical)
  {}

  lemma SafeRecover(g: Geometry, init: Disk, s: State)
    requires Inv(g, init, s)
    ensures Safe(g, init, DoRecover(g, s))
  {
    hide DiskInv, CacheInv, SpaceInv, HistInv, SleepInv, ApplyTxns, PutHeader, HeaderOf;
    var base := Base(init, s);
    RecoverFields(g, s);
    match s.phase
    case RecoverHead => RecoverHeadSafe(g, s, base);
    case RecoverInstall(tail) =>
      WritingTail(g, s, base, base);
      if tail < |s.lh| { RecoverInstallSafe(g, s, tail, base); } else { RecoverEraseSafe(g, s, base); }
    case _ =>
  }

  lemma SafeStep(g: Geometry, init: Disk, s: State, a: Action)
    requires Inv(g, init, s) && !Spills(g, s, a)
    ensures Safe(g, init, Step(g, s, a))
  {
    hide SafeWith, DoCommit, DoRecover, DoLogAppend, SpaceInv, HistInv, SleepInv, PendInv, IdleInv, ApplyTxns, Spills;
    var base, logical := Base(init, s), Logical(init, s);
    if s.halted && !a.Crash? {
      return;
    }
    match a
    case BeginOp(t) => BeginSafe(g, s, t, base, logical);
    case Acquire(t, b) => AcquireSafe(g, s, t, b, base, logical);
    case Modify(t, b, data) => ModifySafe(g, s, t, b, data, base, logical);
    case LogCheck(t, b) => CheckSafe(g, s, t, b, base, logical);
    case LogAppend(t) => SafeAppend(g, init, s, t);
    case Release(t, b) => ReleaseSafe(g, s, t, b, base, logical);
    case EndOp(t) => SpaceEnd(s, t); EndOpSafe(g, s, t, base, logical);
    case CommitStep => SafeCommit(g, init, s);
    case RecoverStep => SafeRecover(g, init, s);
    case Load(b) => LoadSafe(g, s, b, base, logical);
    case Evict(b) => EvictSafe(g, s, b, base, logical);
    case Crash => CrashSafe(g, s, base, logical);
  }

  /** In a log with room for LOGSIZE blocks, none of the panics of log.c, bio.c and memide.c on these paths is
      reached. */
  lemma NoPanic(g: Geometry, init: Disk, s: State, a: Action)
    requires Inv(g, init, s) && Roomy(g) && !s.halted
    ensures !Step(g, s, a).halted
  {
    hide DiskInv, CacheInv, HistInv, SleepInv, ApplyTxn, ApplyTxns, PutHeader;
    LogBlocksFit(g, s, Base(init, s), Logical(init, s));
    WritingTail(g, s, Base(init, s), Logical(init, s));
    match a
    case LogCheck(t, b) =>
      if t < |s.threads| && s.threads[t].Active? {
        SumUpdate(Unused, s.threads, t, Idle);
        SumUpdate(One, s.threads, t, Idle);
      }
    case _ =>
  }

  lemma CurStep(g: Geometry, init: Disk, s: State, a: Action)
    requires Inv(g, init, s) && !Spills(g, s, a)
    ensures var r := Step(g, s, a); !r.phase.Running? && !r.phase.WritingLog? && !r.phase.Finishing? ==> r.cur == []
  {
    hide DoCommit, DoRecover, DiskInv, CacheInv, ThreadInv, SpaceInv, HistInv, SleepInv, Absorb;
    RecoverFields(g, s);
    CommitFields(g, s);
    if a.CommitStep? && !s.halted { SafeCommit(g, init, s); }
  }

  lemma InvStep(g: Geometry, init: Disk, s: State, a: Action)
    requires Inv(g, init, s) && !Spills(g, s, a)
    ensures Inv(g, init, Step(g, s, a))
  {
    hide Step, OpsInv, DiskInv, CacheInv, Spills;
    SafeStep(g, init, s, a);
    OpsStep(g, s, a);
    CurStep(g, init, s, a);
  }

  lemma InvBoot(g: Geometry, init: Disk, d: Disk, n: nat)
    requires g.Valid() && |init| == g.nblocks && Recovers(g, d, init)
    ensures Inv(g, init, Boot(d, n))
  {
    CountBounds(AllIdle(n));
  }

  /** No step of the run writes past the log area. */
  ghost predicate NoSpills(g: Geometry, s: State, acts: seq<Action>) {
    forall k :: 0 <= k < |acts| ==> !Spills(g, Run(g, s, acts[..k]), acts[k])
  }

  lemma NoSpillsPrefix(g: Geometry, s: State, acts: seq<Action>, n: nat)
    requires NoSpills(g, s, acts) && n <= |acts|
    ensures NoSpills(g, s, acts[..n])
  {
    hide Spills, Run;
    forall k | 0 <= k < n ensures !Spills(g, Run(g, s, acts[..n][..k]), acts[..n][k]) {
      assert acts[..n][..k] == acts[..k];
    }
  }

  /** Every schedule of threads, evictions and crashes that does not spill keeps the invariant. */
  lemma {:induction false} RunInv(g: Geometry, init: Disk, d: Disk, n: nat, acts: seq<Action>)
    requires g.Valid() && |init| == g.nblocks && Recovers(g, d, init) && NoSpills(g, Boot(d, n), acts)
    ensures Inv(g, init, Run(g, Boot(d, n), acts))
  {
    hide Step, Inv, Recovers, Spills;
    if acts == [] {
      InvBoot(g, init, d, n);
    } else {
      var k := |acts| - 1;
      NoSpillsPrefix(g, Boot(d, n), acts, k);
      RunInv(g, init, d, n, acts[..k]);
      assert !Spills(g, Run(g, Boot(d, n), acts[..k]), acts[k]);
      InvStep(g, init, Run(g, Boot(d, n), acts[..k]), acts[k]);
    }
  }

  // ---- When nothing spills ---------------------------------------------------------------

  /** The list stays inside the log area. */
  ghost predicate StaysInLog(g: Geometry, s: State, acts: seq<Action>) {
    forall k :: 0 <= k <= |acts| ==> |Run(g, s, acts[..k]).lh| < g.size
  }

  lemma StaysNoSpills(g: Geometry, s: State, acts: seq<Action>)
    requires StaysInLog(g, s, acts)
    ensures NoSpills(g, s, acts)
  {
    hide Run;
    forall k | 0 <= k < |acts| ensures !Spills(g, Run(g, s, acts[..k]), acts[k]) {
      assert |Run(g, s, acts[..k]).lh| < g.size;
    }
  }

  /** A log with room for LOGSIZE blocks: on every run at all. */
  lemma RoomyStays(g: Geometry, d: Disk, n: nat, acts: seq<Action>)
    requires Roomy(g)
    ensures StaysInLog(g, Boot(d, n), acts) && NoSpills(g, Boot(d, n), acts)
  {
    hide Run, Boot;
    forall k | 0 <= k <= |acts| ensures |Run(g, Boot(d, n), acts[..k]).lh| < g.size {
      RunOps(g, d, n, acts[..k]);
    }
    StaysNoSpills(g, Boot(d, n), acts);
  }

  /** A log at the end of the disk: the step past its end halts instead. */
  lemma LastNoSpills(g: Geometry, d: Disk, n: nat, acts: seq<Action>)
    requires g.start + g.size == g.nblocks == |d|
    ensures NoSpills(g, Boot(d, n), acts)
  {
    hide Run;
    forall k | 0 <= k < |acts| ensures !Spills(g, Run(g, Boot(d, n), acts[..k]), acts[k]) {
      RunDisk(g, Boot(d, n), acts[..k]);
    }
  }

  lemma {:induction false} RunDisk(g: Geometry, s: State, acts: seq<Action>)
    ensures |Run(g, s, acts).disk| == |s.disk|
  {
    hide Step;
    if acts != [] {
      RunDisk(g, s, acts[..|acts| - 1]);
      DiskStep(g, Run(g, s, acts[..|acts| - 1]), acts[|acts| - 1]);
    }
  }

  lemma DiskStep(g: Geometry, s: State, a: Action)
    ensures |Step(g, s, a).disk| == |s.disk|
  {
    hide PutHeader, View, Absorb, WriteHead;
    HeadDisk(g, s);
    HeadDisk(g, s.(lh := []));
  }

  lemma HeadDisk(g: Geometry, s: State)
    ensures |WriteHead(g, s).disk| == |s.disk|
  {
    hide PutHeader, View;
  }

  // ---- Theorems --------------------------------------------------------------------------

  /** Atomicity: whatever the schedule and wherever crashes fall, as long as write_log has not written past the
      log area, the disk recovers to the initial
      disk with the committed transactions applied in order, and between operations the home
      blocks are exactly that. */
  lemma CrashAtomicity(g: Geometry, init: Disk, d: Disk, n: nat, acts: seq<Action>)
    requires g.Valid() && |init| == g.nblocks && Recovers(g, d, init) && NoSpills(g, Boot(d, n), acts)
    ensures var s := Run(g, Boot(d, n), acts);
            && Recovers(g, s.disk, ApplyTxns(init, s.txns))
            && (s.phase.Running? ==> SameHome(g, s.disk, ApplyTxns(init, s.txns)))
  {
    hide Step, ApplyTxn, ApplyTxns, SpaceInv, HistInv, SleepInv, CacheInv;
    RunInv(g, init, d, n, acts);
    var s := Run(g, Boot(d, n), acts);
    if s.phase.Running? {
      forall b: nat | g.Home(b) ensures s.disk[b] == Base(init, s)[b] {
        assert ReplayBlock(g, s.disk, b) == Base(init, s)[b];
      }
    }
  }

  lemma {:induction false} RunConcat(g: Geometry, s: State, a: seq<Action>, b: seq<Action>)
    ensures Run(g, s, a + b) == Run(g, Run(g, s, a), b)
  {
    hide Step;
    if b == [] {
      assert a + b == a;
    } else {
      var b' := b[..|b| - 1];
      assert (a + b)[..|a + b| - 1] == a + b';
      RunConcat(g, s, a, b');
    }
  }

  lemma {:induction false} TxnsGrow(g: Geometry, s: State, acts: seq<Action>)
    ensures s.txns <= Run(g, s, acts).txns
  {
    hide Step;
    if acts != [] {
      var r := Run(g, s, acts[..|acts| - 1]);
      TxnsGrow(g, s, acts[..|acts| - 1]);
      TxnsStep(g, r, acts[|acts| - 1]);
    }
  }

  /** Durability: however the run goes on after a transaction has committed, crashes included, the disk
      recovers to what it had committed then with later transactions applied on top; so a home block that
      no later transaction names keeps its committed contents. */
  lemma Durable(g: Geometry, init: Disk, d: Disk, n: nat, acts: seq<Action>, more: seq<Action>)
    requires g.Valid() && |init| == g.nblocks && Recovers(g, d, init) && NoSpills(g, Boot(d, n), acts + more)
    ensures var s, r := Run(g, Boot(d, n), acts), Run(g, Boot(d, n), acts + more);
            && s.txns <= r.txns
            && var committed, later := ApplyTxns(init, s.txns), r.txns[|s.txns|..];
            && Recovers(g, r.disk, ApplyTxns(committed, later))
            && forall b: nat :: g.Home(b) && (forall i :: 0 <= i < |later| ==> !Touches(later[i], b)) ==>
                 ReplayBlock(g, r.disk, b) == committed[b]
  {
    hide Step, Run, ApplyTxn, ApplyTxns, Touches, ReplayBlock, HeaderOf, ListOk;
    var s := Run(g, Boot(d, n), acts);
    var r := Run(g, Boot(d, n), acts + more);
    RunConcat(g, Boot(d, n), acts, more);
    TxnsGrow(g, s, more);
    CrashAtomicity(g, init, d, n, acts + more);
    var committed, later := ApplyTxns(init, s.txns), r.txns[|s.txns|..];
    assert s.txns + later == r.txns;
    ApplyTxnsAppend(init, s.txns, later);
    forall b: nat | g.Home(b) && (forall i :: 0 <= i < |later| ==> !Touches(later[i], b))
      ensures ReplayBlock(g, r.disk, b) == committed[b]
    {
      Untouched(committed, later, b);
    }
  }

  lemma TxnsStep(g: Geometry, s: State, a: Action)
    ensures s.txns <= Step(g, s, a).txns
  {
    hide DoCommit, DoRecover;
    CommitFields(g, s);
    RecoverFields(g, s);
  }

  function Recoveries(n: nat): (r: seq<Action>)
    ensures |r| == n
  {
    if n == 0 then [] else Recoveries(n - 1) + [RecoverStep]
  }

  function Commits(n: nat): (r: seq<Action>)
    ensures |r| == n
  {
    if n == 0 then [] else Commits(n - 1) + [CommitStep]
  }

  /** After a crash in any reachable state, recovery runs to completion in one step per logged block and two
      more, and leaves the committed transactions and nothing else. */
  lemma RecoveryCompletes(g: Geometry, init: Disk, d: Disk, n: nat, acts: seq<Action>)
    requires g.Valid() && |init| == g.nblocks && Recovers(g, d, init) && NoSpills(g, Boot(d, n), acts)
    ensures var s := Run(g, Boot(d, n), acts);
            && |s.disk| == g.nblocks
            && var r := Run(g, DoCrash(s), Recoveries(|HeaderOf(s.disk[g.start])| + 2));
            && r.phase.Running? && !r.halted && r.txns == s.txns && |r.disk| == g.nblocks
            && SameHome(g, r.disk, ApplyTxns(init, s.txns))
  {
    hide Run, Inv, Recovers, ApplyTxns, HeaderOf, Boot;
    RunInv(g, init, d, n, acts);
    RecoveryFrom(g, init, Run(g, Boot(d, n), acts));
  }

  lemma RecoveryFrom(g: Geometry, init: Disk, s: State)
    requires Inv(g, init, s)
    ensures |s.disk| == g.nblocks > g.start
    ensures var r := Run(g, DoCrash(s), Recoveries(|HeaderOf(s.disk[g.start])| + 2));
            && r.phase.Running? && !r.halted && r.txns == s.txns && |r.disk| == g.nblocks
            && |ApplyTxns(init, s.txns)| == g.nblocks && SameHome(g, r.disk, ApplyTxns(init, s.txns))
  {
    hide Inv, DoCrash, Step, ApplyTxns, HeaderOf;
    CrashFields(g, init, s);
    var h := HeaderOf(s.disk[g.start]);
    RecoverProgress(g, init, DoCrash(s), |h|);
    var q := Run(g, DoCrash(s), Recoveries(|h| + 1));
    assert Recoveries(|h| + 2)[..|h| + 1] == Recoveries(|h| + 1);
    InvStep(g, init, q, RecoverStep);
    RecoverLast(g, init, q);
    HomeOf(g, init, Step(g, q, RecoverStep));
  }

  lemma CrashFields(g: Geometry, init: Disk, s: State)
    requires Inv(g, init, s)
    ensures |s.disk| == g.nblocks > g.start
    ensures Inv(g, init, DoCrash(s))
    ensures var c := DoCrash(s); 
            c.phase == RecoverHead && !c.halted && c.held == map[] && c.disk == s.disk && c.txns == s.txns
  {
    InvStep(g, init, s, Crash);
  }

  lemma HomeOf(g: Geometry, init: Disk, s: State)
    requires Inv(g, init, s) && s.phase.Running?
    ensures |s.disk| == g.nblocks && |ApplyTxns(init, s.txns)| == g.nblocks
    ensures SameHome(g, s.disk, ApplyTxns(init, s.txns))
  {
    hide ApplyTxn, ApplyTxns, SpaceInv, HistInv, SleepInv, CacheInv;
    forall b: nat | g.Home(b) ensures s.disk[b] == Base(init, s)[b] {
      assert ReplayBlock(g, s.disk, b) == Base(init, s)[b];
    }
  }

  lemma RecoverLast(g: Geometry, init: Disk, q: State)
    requires Inv(g, init, q) && q.phase == RecoverInstall(|q.lh|) && !q.halted && q.held == map[]
    ensures var r := Step(g, q, RecoverStep); r.phase.Running? && !r.halted && r.txns == q.txns
  {
    hide PutHeader, View, OpsInv, DiskInv, CacheInv, ThreadInv;
    HeadFields(g, q.(lh := []));
    LogBlocksFit(g, q, Base(init, q), Logical(init, q));
  }

  lemma RecoverMiddle(g: Geometry, init: Disk, q: State, tail: nat)
    requires Inv(g, init, q) && q.phase == RecoverInstall(tail) && tail < |q.lh| && !q.halted && q.held == map[]
    ensures var r := Step(g, q, RecoverStep);
            && r.phase == RecoverInstall(tail + 1) && !r.halted
            && r.lh == q.lh && r.held == map[] && r.txns == q.txns
  {
    hide PutHeader, View, OpsInv, DiskInv, CacheInv, ThreadInv;
    LogBlocksFit(g, q, Base(init, q), Logical(init, q));
  }

  lemma RecoverFirst(g: Geometry, init: Disk, q: State)
    requires Inv(g, init, q) && q.phase == RecoverHead && !q.halted && q.held == map[]
    ensures |q.disk| == g.nblocks > g.start
    ensures var r := Step(g, q, RecoverStep);
            && r.phase == RecoverInstall(0) && !r.halted
            && r.lh == HeaderOf(q.disk[g.start]) && r.held == map[] && r.txns == q.txns
  {
    ViewClean(q, Logical(init, q), g.start);
  }

  lemma {:induction false} RecoverProgress(g: Geometry, init: Disk, c: State, k: nat)
    requires Inv(g, init, c) && c.phase == RecoverHead && !c.halted && c.held == map[]
    requires |c.disk| == g.nblocks > g.start && k <= |HeaderOf(c.disk[g.start])|
    ensures var r := Run(g, c, Recoveries(k + 1));
            && Inv(g, init, r) && r.phase == RecoverInstall(k) && !r.halted && r.held == map[]
            && r.lh == HeaderOf(c.disk[g.start]) && r.txns == c.txns
  {
    hide Inv, Step, HeaderOf;
    assert Recoveries(k + 1)[..k] == Recoveries(k);
    var q := Run(g, c, Recoveries(k));
    if k == 0 {
      RecoverFirst(g, init, c);
      InvStep(g, init, c, RecoverStep);
    } else {
      RecoverProgress(g, init, c, k - 1);
      RecoverMiddle(g, init, q, k - 1);
      InvStep(g, init, q, RecoverStep);
    }
  }

  /** The log_writes of one operation never spread over two commits. */
  lemma OneCommitPerOp(g: Geometry, d: Disk, n: nat, acts: seq<Action>)
    ensures var s := Run(g, Boot(d, n), acts);
            forall i, j, k, l ::
              && 0 <= i < |s.txns| && 0 <= k < |s.txns[i]|
              && 0 <= j < |s.txns| && 0 <= l < |s.txns[j]|
              && s.txns[i][k].op == s.txns[j][l].op
              ==> i == j
    ensures var s := Run(g, Boot(d, n), acts);
            forall i, k, l ::
              0 <= i < |s.txns| && 0 <= k < |s.txns[i]| && 0 <= l < |s.cur| ==> s.txns[i][k].op != s.cur[l].op
  {
    hide Run, PhaseInv, PendInv, SpaceInv, SleepInv, IdleInv;
    RunOps(g, d, n, acts);
    var s := Run(g, Boot(d, n), acts);
    assert forall i :: 0 <= i < |s.txns| ==> FromGroup(s.txns[i], s.began, i);
    assert FromGroup(s.cur, s.began, |s.txns|);
  }

  /** No operation is active during a commit; the reservations of LOGSIZE slots are kept; a begin_op caller
      sleeps only while a commit is under way or the space it needs is still promised to others, and so never
      on an idle log. */
  lemma OperationsAndSpace(g: Geometry, d: Disk, n: nat, acts: seq<Action>)
    ensures var s := Run(g, Boot(d, n), acts);
            && (s.committing ==> NoneActive(s.threads) && s.outstanding == 0)
            && s.outstanding == Sum(One, s.threads)
            && |s.lh| + Sum(Unused, s.threads) <= LOGSIZE
            && (!s.committing && s.outstanding == 0 && s.phase.Running? ==>
                  forall t :: 0 <= t < |s.threads| ==> s.threads[t] != Asleep)
            && SleepInv(s)
  {
    hide Run, HistInv, Sum;
    RunOps(g, d, n, acts);
    CountBounds(Run(g, Boot(d, n), acts).threads);
  }

  /** An idle log is empty. */
  lemma IdleEmpty(g: Geometry, d: Disk, n: nat, acts: seq<Action>)
    ensures var s := Run(g, Boot(d, n), acts); s.phase.Running? && s.outstanding == 0 ==> s.lh == []
  {
    hide Run, HistInv, SpaceInv, SleepInv, PhaseInv, PendInv;
    RunOps(g, d, n, acts);
  }

  /** Coherence: a clean buffer that nobody is changing equals its disk block, so recycling it
      loses nothing; and while operations run, bread of a block nobody is changing returns the
      last contents logged for it, whether or not they are committed. */
  lemma CacheCoherent(g: Geometry, init: Disk, d: Disk, n: nat, acts: seq<Action>)
    requires g.Valid() && |init| == g.nblocks && Recovers(g, d, init) && NoSpills(g, Boot(d, n), acts)
    ensures var s := Run(g, Boot(d, n), acts);
            && |s.disk| == g.nblocks
            && (forall b <- s.cache :: !s.cache[b].dirty && b !in s.pending ==>
                  b < |s.disk| && s.cache[b].data == s.disk[b])
            && (s.phase.Running? ==> forall b: nat :: g.Home(b) && b !in s.pending ==>
                  View(s, b) == ApplyTxn(ApplyTxns(init, s.txns), s.cur)[b])
  {
    hide Step, SpaceInv, HistInv, SleepInv, ApplyTxn, ApplyTxns;
    RunInv(g, init, d, n, acts);
    var s := Run(g, Boot(d, n), acts);
    if s.phase.Running? {
      forall b: nat | g.Home(b) && b !in s.pending ensures View(s, b) == Logical(init, s)[b] {
        assert ReplayBlock(g, s.disk, b) == Base(init, s)[b];
      }
    }
  }
}
