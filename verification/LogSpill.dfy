/** After such a race write_log overwrites the home block after the log, and the disk no longer recovers. */
module LogSpill {
  import opened LogSpec
  import opened LogSystem
  import opened LogSafety
  import opened LogRuns
  import opened LogRace

  function Ending(b: nat, c: nat): seq<Action> {
    [Release(1, b), Release(2, c)] + [EndOp(0), EndOp(1), EndOp(2)]
  }

  /** write_log has copied k blocks of a list as long as the log area; its last block, c, holds `data`. */
  predicate Doomed(g: Geometry, s: State, c: nat, data: Block, k: nat) {
    && s.phase == WritingLog(k) && !s.halted && s.held == map[] && s.txns == [] && |s.disk| == g.nblocks
    && |s.lh| == g.size && g.size > 0 && s.lh[g.size - 1] == c && c in s.cache && s.cache[c].data == data
  }

  lemma RaceReleases(g: Geometry, s: State, lh: seq<nat>, b: nat, c: nat, data: Block)
    requires Raced(g, s, lh, b, c, data) && b != c
    ensures Step(g, Step(g, s, Release(1, b)), Release(2, c)) == s.(held := map[])
  {
    var s1 := Step(g, s, Release(1, b));
    assert s1 == s.(held := s.held - {b}) && s1.held == map[c := 2];
    assert s1.held - {c} == map[];
  }

  lemma RaceEnds(g: Geometry, s: State, lh: seq<nat>, b: nat, c: nat, data: Block)
    requires Raced(g, s, lh, b, c, data) && |lh| + 2 == g.size
    ensures Doomed(g, Step(g, Step(g, Step(g, s.(held := map[]), EndOp(0)), EndOp(1)), EndOp(2)), c, data, 0)
  {
    var s0 := s.(held := map[]);
    var s1 := Step(g, s0, EndOp(0));
    assert s1 == DoEndOp(s0, 0) && s1.threads[1] == s.threads[1] && s1.threads[2] == s.threads[2];
    var s2 := Step(g, s1, EndOp(1));
    assert s2 == DoEndOp(s1, 1) && s2.threads[2] == s.threads[2];
  }

  lemma RunsToCommit(g: Geometry, s: State, lh: seq<nat>, b: nat, c: nat, data: Block)
    requires Raced(g, s, lh, b, c, data) && |lh| + 2 == g.size && b != c
    ensures Doomed(g, Run(g, s, Ending(b, c)), c, data, 0)
  {
    hide Step, Raced, Doomed, Run;
    RunConcat(g, s, [Release(1, b), Release(2, c)], [EndOp(0), EndOp(1), EndOp(2)]);
    RunTwo(g, s, Release(1, b), Release(2, c));
    RaceReleases(g, s, lh, b, c, data);
    RunThree(g, s.(held := map[]), EndOp(0), EndOp(1), EndOp(2));
    RaceEnds(g, s, lh, b, c, data);
  }

  lemma CopyOne(g: Geometry, s: State, c: nat, data: Block, k: nat)
    requires g.Valid() && Doomed(g, s, c, data, k) && k + 1 < g.size && g.Home(c)
    ensures !Spills(g, s, CommitStep) && Doomed(g, Step(g, s, CommitStep), c, data, k + 1)
  {
    hide View;
  }

  lemma {:induction false} CopyAll(g: Geometry, init: Disk, s: State, c: nat, data: Block, k: nat)
    requires g.Valid() && Inv(g, init, s) && Doomed(g, s, c, data, 0) && k < g.size && g.Home(c)
    ensures Inv(g, init, Run(g, s, Commits(k))) && Doomed(g, Run(g, s, Commits(k)), c, data, k)
  {
    hide Inv, Step, Doomed;
    if k > 0 {
      CopyAll(g, init, s, c, data, k - 1);
      assert Commits(k)[..k - 1] == Commits(k - 1);
      CopyOne(g, Run(g, s, Commits(k - 1)), c, data, k - 1);
      InvStep(g, init, Run(g, s, Commits(k - 1)), CommitStep);
    }
  }

  /** The next block goes over the home block after the log, which no transaction has named. */
  lemma LastCopy(g: Geometry, init: Disk, s: State, c: nat, data: Block)
    requires g.Valid() && |init| == g.nblocks && Inv(g, init, s) && Doomed(g, s, c, data, g.size - 1) && g.Home(c)
    requires g.start + g.size < g.nblocks && init[g.start + g.size] != data
    ensures var r := Step(g, s, CommitStep); r.txns == [] && !Recovers(g, r.disk, init)
  {
    var base, logical := Base(init, s), Logical(init, s);
    assert base == init;
    assert logical[c] == data by { PinnedData(g, s, base, logical, c, data); }
    hide DiskInv, CacheInv, OpsInv, Recovers;
    SpillBreaks(g, s, base, logical);
  }

  lemma PinnedData(g: Geometry, s: State, base: Disk, logical: Disk, c: nat, data: Block)
    requires SafeWith(g, s, base, logical) && Doomed(g, s, c, data, g.size - 1)
    ensures c < |logical| && logical[c] == data
  {
    ViewPinned(s, logical, g.size - 1);
  }

  /** Nothing commits, so nothing spills. */
  predicate NoCommits(acts: seq<Action>) { forall i :: 0 <= i < |acts| ==> !acts[i].CommitStep? }

  lemma NoCommitsNoSpills(g: Geometry, s: State, acts: seq<Action>)
    requires NoCommits(acts)
    ensures NoSpills(g, s, acts)
  {
    hide Run;
  }

  lemma {:induction false} FillingNoCommits(g: Geometry, j: nat)
    ensures NoCommits(Filling(g, j))
  {
    if j > 0 { FillingNoCommits(g, j - 1); }
  }

  /** The race leaves a disk that does not recover: with a log of 2 to LOGSIZE blocks and a block after it,
      three operations within their reservations, and no crash before the write. */
  lemma RaceBreaks(g: Geometry) returns (acts: seq<Action>)
    requires Spacious(g) && 2 <= g.size <= LOGSIZE && g.start + g.size < g.nblocks
    ensures var d := ZeroDisk(g.nblocks);
            && Recovers(g, d, d)
            && var r := Run(g, Boot(d, 3), acts); r.txns == [] && !Recovers(g, r.disk, d)
  {
    hide Run, Recovers, Doomed, Raced, Inv, Filled, Filling;
    var d, j := ZeroDisk(g.nblocks), g.size - 2;
    var s0, b, c := Boot(d, 3), HomeBlock(g, g.size - 2), HomeBlock(g, g.size - 1);
    ZeroRecovers(g);
    Fills(g, d, j);
    var filled := Filling(g, j);
    RaceOverflows(g, Run(g, s0, filled), j, Ones());
    RunConcat(g, s0, filled, Race(g, j, Ones()));
    var raced := filled + Race(g, j, Ones());
    FilledLength(g, Run(g, s0, filled), j);
    RunsToCommit(g, Run(g, s0, raced), Run(g, s0, filled).lh, b, c, Ones());
    RunConcat(g, s0, raced, Ending(b, c));
    var ended := raced + Ending(b, c);
    FillingNoCommits(g, j);
    NoCommitsNoSpills(g, s0, ended);
    RunInv(g, d, d, 3, ended);
    CopyAll(g, d, Run(g, s0, ended), c, Ones(), g.size - 1);
    RunConcat(g, s0, ended, Commits(g.size - 1));
    var copied := ended + Commits(g.size - 1);
    assert Zeroes()[0] != Ones()[0];
    LastCopy(g, d, Run(g, s0, copied), c, Ones());
    acts := copied + [CommitStep];
    assert acts[..|acts| - 1] == copied;
    RunSnoc(g, s0, copied, CommitStep);
  }

  lemma RunSnoc(g: Geometry, s: State, acts: seq<Action>, a: Action)
    ensures Run(g, s, acts + [a]) == Step(g, Run(g, s, acts), a)
  {
    assert (acts + [a])[..|acts|] == acts;
  }

  lemma FilledLength(g: Geometry, s: State, j: nat)
    requires Filled(g, s, j)
    ensures |s.lh| == j
  {}
}
