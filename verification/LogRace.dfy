/** Three operations fill the log, and two of them race for its last slot: the checks of log_write precede
    log.lock, so they can be passed twice for one free slot. */
module LogRace {
  import opened LogSpec
  import opened LogSystem
  import opened LogRuns

  /** Enough home blocks for a full set of reservations. */
  predicate Spacious(g: Geometry) { g.Valid() && g.nblocks >= g.size + LOGSIZE }

  function HomeBlock(g: Geometry, j: nat): nat { if j < g.start then j else j + g.size }

  /** The thread that logs block number j: ten for thread 0, nine each for threads 1 and 2, and the last one
      that thread 1 may. */
  function Logger(j: nat): nat { if j < 10 then 0 else if j < 19 then 1 else if j < 28 then 2 else 1 }

  function Calls(t: nat, j: nat): nat {
    if t == 0 then if j < 10 then j else 10
    else if t == 1 then if j < 10 then 0 else if j < 19 then j - 10 else if j < 29 then 9 else 10
    else if j < 19 then 0 else if j < 28 then j - 19 else 9
  }

  /** Three operations are open and have together logged the first j home blocks. */
  predicate Filled(g: Geometry, s: State, j: nat) {
    && s.phase.Running? && !s.committing && !s.halted && s.outstanding == 3
    && |s.disk| == g.nblocks && |s.threads| == 3 && s.held == map[] && s.pending == {} && s.txns == []
    && s.threads[0] == Active(0, Calls(0, j), -1)
    && s.threads[1] == Active(1, Calls(1, j), -1)
    && s.threads[2] == Active(2, Calls(2, j), -1)
    && |s.lh| == j && forall i :: 0 <= i < j ==> s.lh[i] == HomeBlock(g, i)
  }

  function Opening(): seq<Action> { [RecoverStep, RecoverStep, BeginOp(0), BeginOp(1), BeginOp(2)] }

  function LogOne(t: nat, b: nat): seq<Action> { [Acquire(t, b), LogCheck(t, b), LogAppend(t), Release(t, b)] }

  function Filling(g: Geometry, j: nat): seq<Action> {
    if j == 0 then Opening() else Filling(g, j - 1) + LogOne(Logger(j - 1), HomeBlock(g, j - 1))
  }

  lemma RunTwo(g: Geometry, s: State, x: Action, y: Action)
    ensures Run(g, s, [x, y]) == Step(g, Step(g, s, x), y)
  {
    hide Step;
    assert [x, y][..1] == [x] && [x][..0] == [];
    assert Run(g, s, [x]) == Step(g, s, x);
  }

  lemma RunFour(g: Geometry, s: State, x: Action, y: Action, z: Action, w: Action)
    ensures Run(g, s, [x, y, z, w]) == Step(g, Step(g, Step(g, Step(g, s, x), y), z), w)
  {
    hide Step;
    assert [x, y, z, w] == [x, y] + [z, w];
    RunConcat(g, s, [x, y], [z, w]);
    RunTwo(g, s, x, y);
    RunTwo(g, Run(g, s, [x, y]), z, w);
  }

  lemma Recovered(g: Geometry, d: Disk)
    requires Spacious(g) && |d| == g.nblocks && d[g.start][0] == 0
    ensures var s := Step(g, Step(g, Boot(d, 3), RecoverStep), RecoverStep);
            && s.phase.Running? && !s.committing && !s.halted && s.outstanding == 0 && |s.disk| == g.nblocks
            && s.threads == AllIdle(3) && s.held == map[] && s.pending == {} && s.lh == []
            && s.began == [] && s.txns == []
  {}

  lemma ThreeBegin(g: Geometry, s: State)
    requires s.phase.Running? && !s.committing && !s.halted && s.outstanding == 0 && |s.disk| == g.nblocks
    requires s.threads == AllIdle(3) && s.held == map[] && s.pending == {} && s.lh == []
    requires s.began == [] && s.txns == []
    ensures Filled(g, Step(g, Step(g, Step(g, s, BeginOp(0)), BeginOp(1)), BeginOp(2)), 0)
  {
    var s1 := Step(g, s, BeginOp(0));
    assert s1 == s.(threads := s.threads[0 := Active(0, 0, -1)], outstanding := 1, began := s.began + [|s.txns|]);
    var s2 := Step(g, s1, BeginOp(1));
    assert s2 == s1.(threads := s1.threads[1 := Active(1, 0, -1)], outstanding := 2, began := s1.began + [|s.txns|]);
  }

  lemma Opened(g: Geometry, d: Disk)
    requires Spacious(g) && |d| == g.nblocks && d[g.start][0] == 0
    ensures Filled(g, Run(g, Boot(d, 3), Filling(g, 0)), 0)
  {
    hide Step, Boot, Filled;
    var s0 := Boot(d, 3);
    Recovered(g, d);
    ThreeBegin(g, Step(g, Step(g, s0, RecoverStep), RecoverStep));
    var o := Opening();
    assert o[..4] == [RecoverStep, RecoverStep, BeginOp(0), BeginOp(1)];
    RunFour(g, s0, RecoverStep, RecoverStep, BeginOp(0), BeginOp(1));
    assert Run(g, s0, o) == Step(g, Run(g, s0, o[..4]), BeginOp(2));
  }

  /** Block b is locked by t and has passed the checks. */
  predicate Checked(s: State, t: nat, b: nat, r: State) {
    && t < |s.threads| && s.threads[t].Active?
    && r.lh == s.lh && r.held == map[b := t] && b in r.cache && r.pending == s.pending && r.disk == s.disk
    && r.phase == s.phase && !r.committing && !r.halted && r.outstanding == s.outstanding && r.txns == s.txns
    && r.threads == s.threads[t := Active(s.threads[t].op, s.threads[t].calls, b)]
  }

  lemma LogsCheck(g: Geometry, s: State, j: nat)
    requires Spacious(g) && Filled(g, s, j) && j < LOGSIZE - 1 && j < g.size - 1
    ensures var t, b := Logger(j), HomeBlock(g, j);
            Checked(s, t, b, Step(g, Step(g, s, Acquire(t, b)), LogCheck(t, b)))
  {
    var t, b := Logger(j), HomeBlock(g, j);
    var s1 := Step(g, s, Acquire(t, b));
    assert s1 == DoAcquire(s, t, b) && s1.held == map[b := t] && b in s1.cache;
  }

  lemma LogsAppend(g: Geometry, s: State, j: nat, s2: State)
    requires Spacious(g) && Filled(g, s, j) && j < LOGSIZE - 1 && j < g.size - 1
    requires Checked(s, Logger(j), HomeBlock(g, j), s2)
    ensures var t, b := Logger(j), HomeBlock(g, j);
            Filled(g, Step(g, Step(g, s2, LogAppend(t)), Release(t, b)), j + 1)
  {
    var t, b := Logger(j), HomeBlock(g, j);
    var s3 := Step(g, s2, LogAppend(t));
    assert s3 == DoLogAppend(s2, t);
    assert b !in s.lh;
    assert s3.lh == s.lh + [b];
    assert DoRelease(s3, t, b).held == map[];
  }

  lemma LogsOne(g: Geometry, s: State, j: nat)
    requires Spacious(g) && Filled(g, s, j) && j < LOGSIZE - 1 && j < g.size - 1
    ensures Filled(g, Run(g, s, LogOne(Logger(j), HomeBlock(g, j))), j + 1)
  {
    hide Step, Filled, Checked;
    var t, b := Logger(j), HomeBlock(g, j);
    RunFour(g, s, Acquire(t, b), LogCheck(t, b), LogAppend(t), Release(t, b));
    LogsCheck(g, s, j);
    LogsAppend(g, s, j, Step(g, Step(g, s, Acquire(t, b)), LogCheck(t, b)));
  }

  lemma {:induction false} Fills(g: Geometry, d: Disk, j: nat)
    requires Spacious(g) && |d| == g.nblocks && d[g.start][0] == 0
    requires j <= LOGSIZE - 1 && j < g.size
    ensures Filled(g, Run(g, Boot(d, 3), Filling(g, j)), j)
  {
    if j == 0 {
      Opened(g, d);
    } else {
      Fills(g, d, j - 1);
      RunConcat(g, Boot(d, 3), Filling(g, j - 1), LogOne(Logger(j - 1), HomeBlock(g, j - 1)));
      LogsOne(g, Run(g, Boot(d, 3), Filling(g, j - 1)), j - 1);
    }
  }

  // ---- The race --------------------------------------------------------------------------

  function Locking(g: Geometry, j: nat, data: Block): seq<Action> {
    [Acquire(1, HomeBlock(g, j)), Acquire(2, HomeBlock(g, j + 1)), Modify(2, HomeBlock(g, j + 1), data)]
  }

  function Logging(g: Geometry, j: nat): seq<Action> {
    [LogCheck(1, HomeBlock(g, j)), LogCheck(2, HomeBlock(g, j + 1)), LogAppend(1), LogAppend(2)]
  }

  /** Threads 1 and 2 both pass the checks for the last free slot, and both append; the second block has been
      changed. */
  function Race(g: Geometry, j: nat, data: Block): seq<Action> { Locking(g, j, data) + Logging(g, j) }

  lemma RunThree(g: Geometry, s: State, x: Action, y: Action, z: Action)
    ensures Run(g, s, [x, y, z]) == Step(g, Step(g, Step(g, s, x), y), z)
  {
    hide Step;
    assert [x, y, z][..2] == [x, y];
    RunTwo(g, s, x, y);
  }

  /** Blocks b and c are locked by threads 1 and 2, and c holds `data`. */
  predicate Locked(g: Geometry, s: State, j: nat, b: nat, c: nat, data: Block) {
    && s.phase.Running? && !s.committing && !s.halted && s.outstanding == 3
    && |s.disk| == g.nblocks && |s.threads| == 3 && s.held == map[b := 1, c := 2] && s.pending == {c} && s.txns == []
    && s.threads[0] == Active(0, Calls(0, j), -1)
    && s.threads[1] == Active(1, Calls(1, j), -1)
    && s.threads[2] == Active(2, Calls(2, j), -1)
    && |s.lh| == j && b in s.cache && c in s.cache && s.cache[c].data == data
  }

  lemma RaceLocks(g: Geometry, s: State, j: nat, data: Block)
    requires Spacious(g) && Filled(g, s, j) && j <= LOGSIZE - 2
    ensures var b, c := HomeBlock(g, j), HomeBlock(g, j + 1);
            var r := Step(g, Step(g, Step(g, s, Acquire(1, b)), Acquire(2, c)), Modify(2, c, data));
            Locked(g, r, j, b, c, data) && r.lh == s.lh
  {
    var b, c := HomeBlock(g, j), HomeBlock(g, j + 1);
    var s1 := Step(g, s, Acquire(1, b));
    assert s1 == DoAcquire(s, 1, b) && s1.held == map[b := 1];
    var s2 := Step(g, s1, Acquire(2, c));
    assert s2 == DoAcquire(s1, 2, c) && s2.held == map[b := 1, c := 2];
  }

  /** The list has two entries more than the area has slots left, and all three operations can end. */
  predicate Raced(g: Geometry, s: State, lh: seq<nat>, b: nat, c: nat, data: Block) {
    && s.phase.Running? && !s.committing && !s.halted && s.outstanding == 3
    && |s.disk| == g.nblocks && |s.threads| == 3 && s.held == map[b := 1, c := 2] && s.pending == {} && s.txns == []
    && (forall t :: 0 <= t < 3 ==> s.threads[t].Active? && s.threads[t].checked == -1)
    && s.lh == lh + [b, c] && c in s.cache && s.cache[c].data == data
  }

  /** Both checks pass with one slot left. */
  lemma BothPass(g: Geometry, s: State, j: nat, b: nat, c: nat, data: Block)
    requires Locked(g, s, j, b, c, data) && g.Home(b) && g.Home(c) && b != c
    requires j <= LOGSIZE - 2 && j + 2 == g.size
    ensures Step(g, Step(g, s, LogCheck(1, b)), LogCheck(2, c)) ==
              s.(threads := [s.threads[0], Active(1, Calls(1, j), b), Active(2, Calls(2, j), c)])
  {
    var s1 := Step(g, s, LogCheck(1, b));
    assert s1 == s.(threads := s.threads[1 := Active(1, Calls(1, j), b)]);
    var s2 := Step(g, s1, LogCheck(2, c));
    assert s2 == s1.(threads := s1.threads[2 := Active(2, Calls(2, j), c)]);
    assert s2.threads == [s.threads[0], Active(1, Calls(1, j), b), Active(2, Calls(2, j), c)];
  }

  lemma BothAppend(g: Geometry, s: State, j: nat, b: nat, c: nat, data: Block)
    requires Locked(g, s, j, b, c, data) && b != c && b !in s.lh && c !in s.lh
    ensures var s2 := s.(threads := [s.threads[0], Active(1, Calls(1, j), b), Active(2, Calls(2, j), c)]);
            Raced(g, Step(g, Step(g, s2, LogAppend(1)), LogAppend(2)), s.lh, b, c, data)
  {
    hide Find;
    var s2 := s.(threads := [s.threads[0], Active(1, Calls(1, j), b), Active(2, Calls(2, j), c)]);
    var s3 := Step(g, s2, LogAppend(1));
    assert s3 == DoLogAppend(s2, 1) && s3.lh == s.lh + [b] && c !in s3.lh;
    var s4 := Step(g, s3, LogAppend(2));
    assert s4 == DoLogAppend(s3, 2) && s4.lh == s.lh + [b] + [c];
    assert s.lh + [b] + [c] == s.lh + [b, c];
  }

  lemma RaceOverflows(g: Geometry, s: State, j: nat, data: Block)
    requires Spacious(g) && Filled(g, s, j) && j <= LOGSIZE - 2 && j + 2 == g.size
    ensures var r := Run(g, s, Race(g, j, data));
            !r.halted && |r.lh| == g.size && Raced(g, r, s.lh, HomeBlock(g, j), HomeBlock(g, j + 1), data)
  {
    hide Step, Locked, Raced, Run;
    var b, c := HomeBlock(g, j), HomeBlock(g, j + 1);
    var s3 := Step(g, Step(g, Step(g, s, Acquire(1, b)), Acquire(2, c)), Modify(2, c, data));
    RaceLocks(g, s, j, data);
    RunThree(g, s, Acquire(1, b), Acquire(2, c), Modify(2, c, data));
    RunFour(g, s3, LogCheck(1, b), LogCheck(2, c), LogAppend(1), LogAppend(2));
    RunConcat(g, s, Locking(g, j, data), Logging(g, j));
    BothPass(g, s3, j, b, c, data);
    BothAppend(g, s3, j, b, c, data);
    RacedFacts(g, Run(g, s, Race(g, j, data)), s.lh, b, c, data);
  }

  lemma RacedFacts(g: Geometry, s: State, lh: seq<nat>, b: nat, c: nat, data: Block)
    requires Raced(g, s, lh, b, c, data)
    ensures !s.halted && |s.lh| == |lh| + 2
  {}

  function Zeroes(): Block { seq(WORDS, i => 0) }

  function Ones(): Block { seq(WORDS, i => 1) }

  function ZeroDisk(n: nat): (d: Disk)
    ensures |d| == n && forall b :: 0 <= b < n ==> d[b] == Zeroes()
  {
    seq(n, i => Zeroes())
  }

  lemma ZeroRecovers(g: Geometry)
    requires g.Valid()
    ensures Recovers(g, ZeroDisk(g.nblocks), ZeroDisk(g.nblocks))
  {
    var d := ZeroDisk(g.nblocks);
    assert d[g.start][0] == 0 && HeaderOf(d[g.start]) == [];
  }
}
