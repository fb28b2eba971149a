/** Which logs are large enough. With `log.size <= LOGSIZE`, as in the image mkfs builds, log_write panics
    although every operation keeps to its reservation, its list can outgrow the log area, and commits are not
    atomic. */
module LogOverflow {
  import opened LogSpec
  import opened LogSystem
  import opened LogSafety
  import opened LogRuns
  import opened LogRace
  import opened LogSpill

  // ---- A log of one block ----------------------------------------------------------------

  /** Nothing is ever logged. */
  predicate Untried(s: State) {
    s.lh == [] && forall t :: 0 <= t < |s.threads| && s.threads[t].Active? ==> s.threads[t].checked < 0
  }

  lemma TinyStep(g: Geometry, init: Disk, s: State, a: Action)
    requires Inv(g, init, s) && g.size == 1 && Untried(s)
    ensures Untried(Step(g, s, a)) && !Spills(g, s, a)
  {
    hide DoCommit, DoRecover, OpsInv, DiskInv, CacheInv;
    match a
    case CommitStep => CommitFields(g, s);
    case RecoverStep =>
      RecoverFields(g, s);
      TinyHead(g, init, s);
    case _ =>
  }

  lemma TinyHead(g: Geometry, init: Disk, s: State)
    requires Inv(g, init, s) && g.size == 1 && Untried(s)
    ensures DoRecover(g, s).lh == []
  {
    hide OpsInv, PutHeader, WriteHead;
    if s.phase == RecoverHead {
      ViewClean(s, Logical(init, s), g.start);
    } else {
      HeadFields(g, s.(lh := []));
    }
  }

  lemma {:induction false} TinyRun(g: Geometry, init: Disk, d: Disk, n: nat, acts: seq<Action>)
    requires g.Valid() && g.size == 1 && |init| == g.nblocks && Recovers(g, d, init)
    ensures NoSpills(g, Boot(d, n), acts) && Untried(Run(g, Boot(d, n), acts))
  {
    hide Step, Recovers, Spills, Inv;
    if acts != [] {
      var before := acts[..|acts| - 1];
      TinyRun(g, init, d, n, before);
      RunInv(g, init, d, n, before);
      TinyStep(g, init, Run(g, Boot(d, n), before), acts[|acts| - 1]);
      NoSpillsSnoc(g, Boot(d, n), acts);
    }
  }

  lemma NoSpillsSnoc(g: Geometry, s: State, acts: seq<Action>)
    requires acts != [] && NoSpills(g, s, acts[..|acts| - 1])
    requires !Spills(g, Run(g, s, acts[..|acts| - 1]), acts[|acts| - 1])
    ensures NoSpills(g, s, acts)
  {
    hide Spills, Run;
    var n := |acts| - 1;
    forall k | 0 <= k < n ensures !Spills(g, Run(g, s, acts[..k]), acts[k]) {
      assert acts[..n][..k] == acts[..k] && acts[..n][k] == acts[k];
    }
  }

  // ---- Exactly when ----------------------------------------------------------------------

  /** The log list never outgrows the log area: block start + tail + 1 stays inside it. */
  ghost predicate NeverOverflows(g: Geometry)
    requires g.Valid()
  {
    forall init: Disk, d: Disk, n: nat, acts: seq<Action> ::
      |init| == g.nblocks && Recovers(g, d, init) ==> |Run(g, Boot(d, n), acts).lh| < g.size
  }

  /** No panic of log.c, bio.c or memide.c on these paths. */
  ghost predicate NeverPanics(g: Geometry)
    requires g.Valid()
  {
    forall init: Disk, d: Disk, n: nat, acts: seq<Action> ::
      |init| == g.nblocks && Recovers(g, d, init) ==> !Run(g, Boot(d, n), acts).halted
  }

  /** The disk recovers to the committed transactions at every moment of every run. */
  ghost predicate AlwaysAtomic(g: Geometry)
    requires g.Valid()
  {
    forall init: Disk, d: Disk, n: nat, acts: seq<Action> ::
      |init| == g.nblocks && Recovers(g, d, init) ==>
        var s := Run(g, Boot(d, n), acts); Recovers(g, s.disk, ApplyTxns(init, s.txns))
  }

  /** With operations of at most MAXOPBLOCKS log_write calls, the log stays inside its area on
      every run exactly when log.size exceeds LOGSIZE, or there is no slot to log into. */
  lemma OverflowIff(g: Geometry)
    requires Spacious(g)
    ensures NeverOverflows(g) <==> g.size > LOGSIZE || g.size == 1
  {
    hide Run, Recovers, Filled, Raced;
    if g.size > LOGSIZE || g.size == 1 {
      forall init: Disk, d: Disk, n: nat, acts: seq<Action> | |init| == g.nblocks && Recovers(g, d, init)
        ensures |Run(g, Boot(d, n), acts).lh| < g.size
      {
        if g.size == 1 { TinyRun(g, init, d, n, acts); } else { RunOps(g, d, n, acts); }
      }
    } else {
      var d, j := ZeroDisk(g.nblocks), g.size - 2;
      ZeroRecovers(g);
      Fills(g, d, j);
      RaceOverflows(g, Run(g, Boot(d, 3), Filling(g, j)), j, Ones());
      RunConcat(g, Boot(d, 3), Filling(g, j), Race(g, j, Ones()));
      assert |Run(g, Boot(d, 3), Filling(g, j) + Race(g, j, Ones())).lh| == g.size;
    }
  }

  lemma {:induction false} RoomyNoPanic(g: Geometry, init: Disk, d: Disk, n: nat, acts: seq<Action>)
    requires Roomy(g) && |init| == g.nblocks && Recovers(g, d, init)
    ensures !Run(g, Boot(d, n), acts).halted
  {
    hide Step, Recovers, Inv;
    if acts != [] {
      var before := acts[..|acts| - 1];
      RoomyNoPanic(g, init, d, n, before);
      RoomyStays(g, d, n, before);
      RunInv(g, init, d, n, before);
      NoPanic(g, init, Run(g, Boot(d, n), before), acts[|acts| - 1]);
    }
  }

  /** With size - 1 blocks logged, the next log_write panics. */
  lemma FullPanics(g: Geometry, s: State, j: nat)
    requires Spacious(g) && Filled(g, s, j) && j < LOGSIZE && j + 1 == g.size
    ensures Step(g, Step(g, s, Acquire(2, HomeBlock(g, j))), LogCheck(2, HomeBlock(g, j))).halted
  {
    var b := HomeBlock(g, j);
    var s1 := Step(g, s, Acquire(2, b));
    assert s1 == DoAcquire(s, 2, b) && s1.held == map[b := 2];
  }

  /** No operation panics for want of log space exactly when log.size exceeds LOGSIZE; no race is needed. */
  lemma PanicIff(g: Geometry)
    requires Spacious(g)
    ensures NeverPanics(g) <==> g.size > LOGSIZE
  {
    hide Run, Step, Recovers, Filled;
    if g.size > LOGSIZE {
      forall init: Disk, d: Disk, n: nat, acts: seq<Action> | |init| == g.nblocks && Recovers(g, d, init)
        ensures !Run(g, Boot(d, n), acts).halted
      {
        RoomyNoPanic(g, init, d, n, acts);
      }
    } else {
      var d, j := ZeroDisk(g.nblocks), g.size - 1;
      var b := HomeBlock(g, j);
      ZeroRecovers(g);
      Fills(g, d, j);
      var s := Run(g, Boot(d, 3), Filling(g, j));
      FullPanics(g, s, j);
      RunConcat(g, Boot(d, 3), Filling(g, j), [Acquire(2, b), LogCheck(2, b)]);
      RunTwo(g, s, Acquire(2, b), LogCheck(2, b));
      assert Run(g, Boot(d, 3), Filling(g, j) + [Acquire(2, b), LogCheck(2, b)]).halted;
    }
  }

  /** Commits are atomic on every run exactly when log.size exceeds LOGSIZE, or there is no slot to log into, or
      no block after the log to overwrite. */
  lemma AtomicIff(g: Geometry)
    requires Spacious(g)
    ensures AlwaysAtomic(g) <==> g.size > LOGSIZE || g.size == 1 || g.start + g.size == g.nblocks
  {
    hide Run, Recovers, ApplyTxns;
    if g.size > LOGSIZE || g.size == 1 || g.start + g.size == g.nblocks {
      forall init: Disk, d: Disk, n: nat, acts: seq<Action> | |init| == g.nblocks && Recovers(g, d, init)
        ensures var s := Run(g, Boot(d, n), acts); Recovers(g, s.disk, ApplyTxns(init, s.txns))
      {
        SafeGeometry(g, init, d, n, acts);
        CrashAtomicity(g, init, d, n, acts);
      }
    } else {
      var acts := RaceBreaks(g);
      var d := ZeroDisk(g.nblocks);
      assert ApplyTxns(d, []) == d by { NoTxns(d); }
      assert !Recovers(g, Run(g, Boot(d, 3), acts).disk, ApplyTxns(d, Run(g, Boot(d, 3), acts).txns));
    }
  }

  /** The image mkfs builds: 1000 blocks with a log of LOGSIZE blocks from block 2 on. */
  lemma ShippedImage()
    ensures var g := Geometry(2, LOGSIZE, 1000);
            Spacious(g) && !AlwaysAtomic(g) && !NeverPanics(g) && !NeverOverflows(g)
  {
    hide AlwaysAtomic, NeverPanics, NeverOverflows;
    var g := Geometry(2, LOGSIZE, 1000);
    AtomicIff(g);
    PanicIff(g);
    OverflowIff(g);
  }

  lemma NoTxns(d: Disk)
    ensures ApplyTxns(d, []) == d
  {}

  lemma SafeGeometry(g: Geometry, init: Disk, d: Disk, n: nat, acts: seq<Action>)
    requires g.Valid() && |init| == g.nblocks && Recovers(g, d, init)
    requires g.size > LOGSIZE || g.size == 1 || g.start + g.size == g.nblocks
    ensures NoSpills(g, Boot(d, n), acts)
  {
    hide Run, Spills;
    if g.size > LOGSIZE {
      RoomyStays(g, d, n, acts);
    } else if g.size == 1 {
      TinyRun(g, init, d, n, acts);
    } else {
      LastNoSpills(g, d, n, acts);
    }
  }
}
