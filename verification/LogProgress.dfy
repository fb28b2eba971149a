/** A commit that nothing holds up runs to its end, and an operation that runs alone gets its blocks to their
    places on the disk, whatever blocks it writes and in whatever order. */
module LogProgress {
  import opened LogSpec
  import opened LogSystem
  import opened LogSafety
  import opened LogRuns
  import opened LogRace

  // ---- The commit ------------------------------------------------------------------------

  /** Nobody holds a buffer that the commit needs. */
  predicate Unobstructed(g: Geometry, s: State) {
    g.start !in s.held && forall i :: 0 <= i < |s.lh| ==> g.LogBlock(i) !in s.held && s.lh[i] !in s.held
  }

  /** Where end_op leaves a transaction that is to be committed and fits the log. */
  predicate Closing(g: Geometry, s: State) {
    s.phase == WritingLog(0) && !s.halted && |s.lh| < g.size && Unobstructed(g, s)
  }

  /** A list of n blocks takes n copies to the log, the header, n copies home, the empty header and the epilogue. */
  function PhaseAt(n: nat, k: nat): Phase {
    if k <= n then WritingLog(k) else if k <= 2 * n + 1 then Installing(k - n - 1)
    else if k == 2 * n + 2 then Finishing else Running
  }

  /** r is k steps into the commit of s. */
  predicate Along(s: State, r: State, k: nat) {
    var n := |s.lh|;
    && r.phase == PhaseAt(n, k) && !r.halted && r.held == s.held && r.lh == (if k <= 2 * n + 1 then s.lh else [])
    && (if k <= n then r.txns == s.txns && r.cur == s.cur else r.txns == s.txns + [s.cur] && r.cur == [])
  }

  lemma CopyStep(g: Geometry, init: Disk, s: State, r: State, k: nat)
    requires Closing(g, s) && Inv(g, init, r) && Along(s, r, k) && k <= |s.lh|
    ensures Along(s, Step(g, r, CommitStep), k + 1)
  {
    hide PutHeader, View, OpsInv, DiskInv, CacheInv, ThreadInv;
    LogBlocksFit(g, r, Base(init, r), Logical(init, r));
  }

  lemma HomeStep(g: Geometry, init: Disk, s: State, r: State, k: nat)
    requires Closing(g, s) && Inv(g, init, r) && Along(s, r, k) && |s.lh| < k <= 2 * |s.lh| + 2
    ensures Along(s, Step(g, r, CommitStep), k + 1)
  {
    hide PutHeader, View, OpsInv, DiskInv, CacheInv, ThreadInv;
    LogBlocksFit(g, r, Base(init, r), Logical(init, r));
  }

  lemma CommitNext(g: Geometry, init: Disk, s: State, r: State, k: nat)
    requires Closing(g, s) && Inv(g, init, r) && Along(s, r, k) && k <= 2 * |s.lh| + 2
    ensures var r' := Step(g, r, CommitStep); Inv(g, init, r') && Along(s, r', k + 1)
  {
    hide Inv, Step;
    InvStep(g, init, r, CommitStep);
    if k <= |s.lh| { CopyStep(g, init, s, r, k); } else { HomeStep(g, init, s, r, k); }
  }

  lemma {:induction false} CommitProgress(g: Geometry, init: Disk, s: State, k: nat)
    requires Inv(g, init, s) && Closing(g, s) && k <= 2 * |s.lh| + 3
    ensures var r := Run(g, s, Commits(k)); Inv(g, init, r) && Along(s, r, k)
  {
    hide Inv, Step, Along, Closing, Run, Commits;
    if k == 0 {
      NoCommits(g, s);
      AlongStart(g, s);
    } else {
      CommitProgress(g, init, s, k - 1);
      RunCommits(g, s, k - 1);
      CommitNext(g, init, s, Run(g, s, Commits(k - 1)), k - 1);
    }
  }

  lemma AlongStart(g: Geometry, s: State)
    requires Closing(g, s)
    ensures Along(s, s, 0)
  {}

  lemma NoCommits(g: Geometry, s: State)
    ensures Run(g, s, Commits(0)) == s
  {}

  lemma RunCommits(g: Geometry, s: State, k: nat)
    ensures Run(g, s, Commits(k + 1)) == Step(g, Run(g, s, Commits(k)), CommitStep)
  {
    hide Step;
    assert Commits(k + 1)[..k] == Commits(k);
  }

  /** Two steps per logged block and three more after end_op, the transaction is committed and on its home
      blocks, the log is empty and the next operation may begin. */
  lemma CommitCompletes(g: Geometry, init: Disk, s: State)
    requires Inv(g, init, s) && Closing(g, s)
    ensures var r := Run(g, s, Commits(2 * |s.lh| + 3));
            && r.phase.Running? && !r.halted && !r.committing && r.lh == [] && r.held == s.held
            && r.txns == s.txns + [s.cur] && r.cur == [] && |r.disk| == |ApplyTxns(init, r.txns)| == g.nblocks
            && SameHome(g, r.disk, ApplyTxns(init, r.txns))
  {
    hide Run, ApplyTxns, DiskInv, CacheInv, OpsInv;
    CommitProgress(g, init, s, 2 * |s.lh| + 3);
    HomeOf(g, init, Run(g, s, Commits(2 * |s.lh| + 3)));
  }

  // ---- An operation ----------------------------------------------------------------------

  datatype Write = Write(b: nat, data: Block)

  /** bread, change, log_write, brelse. */
  function LogBlockOf(t: nat, w: Write): seq<Action> {
    [Acquire(t, w.b), Modify(t, w.b, w.data), LogCheck(t, w.b)] + [LogAppend(t), Release(t, w.b)]
  }

  function LogAll(t: nat, ws: seq<Write>): seq<Action> {
    if ws == [] then [] else LogAll(t, ws[..|ws| - 1]) + LogBlockOf(t, ws[|ws| - 1])
  }

  function Entries(op: nat, ws: seq<Write>): (r: Txn)
    ensures |r| == |ws|
  {
    if ws == [] then [] else Entries(op, ws[..|ws| - 1]) + [Entry(op, ws[|ws| - 1].b, ws[|ws| - 1].data)]
  }

  /** An idle log, and thread t outside any operation. */
  predicate AtRest(s: State, t: nat) {
    && s.phase.Running? && !s.halted && !s.committing && s.outstanding == 0 && s.lh == [] && s.held == map[]
    && t < |s.threads| && s.threads[t] == Idle
  }

  /** Thread t is inside operation `op`, alone, after k of its writes. */
  predicate InOp(g: Geometry, r: State, t: nat, op: nat, k: nat, txns: seq<Txn>, cur: Txn) {
    && r.phase.Running? && !r.halted && !r.committing && r.outstanding == 1 && r.held == map[]
    && |r.lh| <= k && (k > 0 ==> r.lh != [])
    && t < |r.threads| && r.threads[t] == Active(op, k, -1) && |r.disk| == g.nblocks && r.txns == txns && r.cur == cur
  }

  lemma Begins(g: Geometry, s: State, t: nat)
    requires AtRest(s, t) && |s.disk| == g.nblocks
    ensures InOp(g, Step(g, s, BeginOp(t)), t, |s.began|, 0, s.txns, s.cur)
  {}

  lemma Changes(g: Geometry, r: State, t: nat, op: nat, k: nat, w: Write)
    requires InOp(g, r, t, op, k, r.txns, r.cur) && g.Home(w.b) && k < MAXOPBLOCKS && k + 1 < g.size
    ensures var q := Step(g, Step(g, Step(g, r, Acquire(t, w.b)), Modify(t, w.b, w.data)), LogCheck(t, w.b));
            && w.b in q.cache && q.cache[w.b].data == w.data
            && q == r.(cache := q.cache, held := map[w.b := t], pending := r.pending + {w.b},
                       threads := r.threads[t := Active(op, k, w.b)])
  {
    var q1 := Step(g, r, Acquire(t, w.b));
    assert q1 == r.(held := map[w.b := t], cache := q1.cache) && w.b in q1.cache;
    var q2 := Step(g, q1, Modify(t, w.b, w.data));
    assert q2 == q1.(cache := q2.cache, pending := r.pending + {w.b}) && q2.cache[w.b].data == w.data;
  }

  lemma Logs(g: Geometry, q: State, t: nat, op: nat, k: nat, w: Write)
    requires q.phase.Running? && !q.halted && !q.committing && q.outstanding == 1 && |q.lh| <= k
    requires |q.disk| == g.nblocks && t < |q.threads| && q.threads[t] == Active(op, k, w.b) && q.held == map[w.b := t]
    requires w.b in q.cache && q.cache[w.b].data == w.data
    ensures InOp(g, Step(g, Step(g, q, LogAppend(t)), Release(t, w.b)), t, op, k + 1, q.txns,
                 q.cur + [Entry(op, w.b, w.data)])
  {
    var q1 := Step(g, q, LogAppend(t));
    assert q1.held - {w.b} == map[];
  }

  lemma LogsOne(g: Geometry, r: State, t: nat, op: nat, k: nat, w: Write)
    requires InOp(g, r, t, op, k, r.txns, r.cur) && g.Home(w.b) && k < MAXOPBLOCKS && k + 1 < g.size
    ensures InOp(g, Run(g, r, LogBlockOf(t, w)), t, op, k + 1, r.txns, r.cur + [Entry(op, w.b, w.data)])
  {
    hide Run, Step;
    RunConcat(g, r, [Acquire(t, w.b), Modify(t, w.b, w.data), LogCheck(t, w.b)], [LogAppend(t), Release(t, w.b)]);
    RunThree(g, r, Acquire(t, w.b), Modify(t, w.b, w.data), LogCheck(t, w.b));
    Changes(g, r, t, op, k, w);
    var q := Run(g, r, [Acquire(t, w.b), Modify(t, w.b, w.data), LogCheck(t, w.b)]);
    RunTwo(g, q, LogAppend(t), Release(t, w.b));
    Logs(g, q, t, op, k, w);
  }

  predicate Fits(g: Geometry, ws: seq<Write>) {
    |ws| <= MAXOPBLOCKS && |ws| < g.size && forall i :: 0 <= i < |ws| ==> g.Home(ws[i].b)
  }

  lemma {:induction false} LogsAll(g: Geometry, r: State, t: nat, op: nat, ws: seq<Write>)
    requires InOp(g, r, t, op, 0, r.txns, r.cur) && Fits(g, ws)
    ensures InOp(g, Run(g, r, LogAll(t, ws)), t, op, |ws|, r.txns, r.cur + Entries(op, ws))
  {
    hide Step, LogBlockOf;
    if ws == [] {
      assert r.cur + [] == r.cur;
    } else {
      var n := |ws| - 1;
      LogsAll(g, r, t, op, ws[..n]);
      RunConcat(g, r, LogAll(t, ws[..n]), LogBlockOf(t, ws[n]));
      LogsOne(g, Run(g, r, LogAll(t, ws[..n])), t, op, n, ws[n]);
      var e := Entry(op, ws[n].b, ws[n].data);
      assert r.cur + Entries(op, ws[..n]) + [e] == r.cur + (Entries(op, ws[..n]) + [e]);
    }
  }

  lemma Ends(g: Geometry, r: State, t: nat, op: nat, ws: seq<Write>)
    requires InOp(g, r, t, op, |ws|, r.txns, r.cur) && Fits(g, ws)
    ensures var q := Step(g, r, EndOp(t));
            && q.lh == r.lh && q.txns == r.txns && q.cur == r.cur
            && (if ws == [] then q.phase == Finishing && !q.halted else Closing(g, q))
  {}

  lemma {:induction false} RestStays(g: Geometry, s: State, n: nat)
    requires s.phase.Running?
    ensures Run(g, s, Commits(n)) == s
  {
    hide Run, Commits, DoInstall, DoWriteLog;
    if n == 0 {
      NoCommits(g, s);
    } else {
      RestStays(g, s, n - 1);
      RunCommits(g, s, n - 1);
    }
  }

  lemma {:induction false} CommitsConcat(m: nat, n: nat)
    ensures Commits(m + n) == Commits(m) + Commits(n)
  {
    if n > 0 { CommitsConcat(m, n - 1); }
  }

  lemma {:induction false} InvRun(g: Geometry, init: Disk, s: State, acts: seq<Action>)
    requires Inv(g, init, s) && forall i :: 0 <= i < |acts| ==> !acts[i].CommitStep?
    ensures Inv(g, init, Run(g, s, acts))
  {
    hide Inv, Step;
    if acts != [] {
      InvRun(g, init, s, acts[..|acts| - 1]);
      InvStep(g, init, Run(g, s, acts[..|acts| - 1]), acts[|acts| - 1]);
    }
  }

  lemma {:induction false} LogAllActs(t: nat, ws: seq<Write>)
    ensures forall i :: 0 <= i < |LogAll(t, ws)| ==> !LogAll(t, ws)[i].CommitStep?
  {
    if ws != [] { LogAllActs(t, ws[..|ws| - 1]); }
  }

  /** From end_op on. */
  lemma CommitsAfter(g: Geometry, init: Disk, q: State, n: nat)
    requires Inv(g, init, q) && |q.lh| <= n && !q.halted
    requires if q.lh == [] then q.phase == Finishing else Closing(g, q)
    ensures var r := Run(g, q, Commits(2 * n + 3));
            && r.phase.Running? && !r.halted && !r.committing && r.lh == [] && Inv(g, init, r)
            && r.txns == (if q.lh == [] then q.txns else q.txns + [q.cur])
  {
    hide Run, Inv, Commits, Unobstructed;
    var k := if q.lh == [] then 1 else 2 * |q.lh| + 3;
    if q.lh == [] {
      RunCommits(g, q, 0);
      NoCommits(g, q);
      InvStep(g, init, q, CommitStep);
    } else {
      CommitProgress(g, init, q, k);
      CommitCompletes(g, init, q);
    }
    CommitsConcat(k, 2 * n + 3 - k);
    RunConcat(g, q, Commits(k), Commits(2 * n + 3 - k));
    RestStays(g, Run(g, q, Commits(k)), 2 * n + 3 - k);
  }

  function Operation(t: nat, ws: seq<Write>): seq<Action> { [BeginOp(t)] + LogAll(t, ws) + [EndOp(t)] }

  lemma RunsOp(g: Geometry, init: Disk, s: State, t: nat, ws: seq<Write>)
    requires Inv(g, init, s) && AtRest(s, t) && Fits(g, ws)
    ensures var q := Run(g, s, Operation(t, ws));
            && Inv(g, init, q) && |q.lh| <= |ws| && !q.halted && (q.lh == [] <==> ws == [])
            && (if ws == [] then q.phase == Finishing else Closing(g, q))
            && q.txns == s.txns && q.cur == s.cur + Entries(|s.began|, ws)
  {
    hide Run, Step, LogAll, OpsInv, CacheInv, ThreadInv, Entries;
    var s1 := Step(g, s, BeginOp(t));
    LogBlocksFit(g, s, Base(init, s), Logical(init, s));
    Begins(g, s, t);
    RunSingle(g, s, BeginOp(t));
    LogsAll(g, s1, t, |s.began|, ws);
    var s2 := Run(g, s1, LogAll(t, ws));
    RunConcat(g, s, [BeginOp(t)], LogAll(t, ws));
    RunConcat(g, s, [BeginOp(t)] + LogAll(t, ws), [EndOp(t)]);
    RunSingle(g, s2, EndOp(t));
    Ends(g, s2, t, |s.began|, ws);
    LogAllActs(t, ws);
    InvRun(g, init, s, Operation(t, ws));
  }

  lemma RunSingle(g: Geometry, s: State, a: Action)
    ensures Run(g, s, [a]) == Step(g, s, a)
  {
    hide Step;
    assert [a][..0] == [];
    assert Run(g, s, []) == s;
  }

  // ---- What is on the disk ---------------------------------------------------------------

  lemma {:induction false} ApplyConcat(d: Disk, a: Txn, b: Txn)
    ensures ApplyTxn(d, a + b) == ApplyTxn(ApplyTxn(d, a), b)
  {
    if b == [] {
      assert a + b == a;
    } else {
      ApplyConcat(d, a, b[..|b| - 1]);
      assert (a + b)[..|a + b| - 1] == a + b[..|b| - 1];
    }
  }

  lemma {:induction false} ApplySame(g: Geometry, d: Disk, e: Disk, txn: Txn)
    requires |d| == |e| == g.nblocks && SameHome(g, d, e)
    ensures SameHome(g, ApplyTxn(d, txn), ApplyTxn(e, txn))
  {
    if txn != [] { ApplySame(g, d, e, txn[..|txn| - 1]); }
  }

  /** The entries left of earlier operations change nothing: their log_writes are all committed. */
  lemma RestHome(g: Geometry, init: Disk, s: State)
    requires Inv(g, init, s) && s.phase.Running? && s.lh == []
    ensures |s.disk| == |Logical(init, s)| == g.nblocks && SameHome(g, Logical(init, s), s.disk)
  {
    hide ApplyTxn, ApplyTxns, OpsInv, CacheInv, ThreadInv, PhaseInv;
    HomeOf(g, init, s);
  }

  /** An operation that runs alone on an idle log leaves exactly its own writes on the home blocks, the last
      write of each block winning, in one transaction. */
  lemma OperationCommits(g: Geometry, init: Disk, s: State, t: nat, ws: seq<Write>)
    requires Inv(g, init, s) && AtRest(s, t) && Fits(g, ws)
    ensures var r := Run(g, Run(g, s, Operation(t, ws)), Commits(2 * |ws| + 3));
            var txn := Entries(|s.began|, ws);
            && r.phase.Running? && !r.halted && !r.committing && r.lh == [] && |r.disk| == |s.disk| == g.nblocks
            && SameHome(g, r.disk, ApplyTxn(s.disk, txn))
            && r.txns == (if ws == [] then s.txns else s.txns + [s.cur + txn])
  {
    hide Run, Operation, Commits, Entries, Inv, ApplyTxn, ApplyTxns, SameHome, Closing, Fits;
    RunsOp(g, init, s, t, ws);
    var q, txn := Run(g, s, Operation(t, ws)), Entries(|s.began|, ws);
    CommitsAfter(g, init, q, |ws|);
    var r := Run(g, q, Commits(2 * |ws| + 3));
    HomeOf(g, init, r);
    HomeOf(g, init, s);
    RestHome(g, init, s);
    FinalHome(g, init, s, r.disk, txn, ws == []);
  }

  lemma FinalHome(g: Geometry, init: Disk, s: State, disk: Disk, txn: Txn, none: bool)
    requires |s.disk| == |disk| == |init| == g.nblocks && SameHome(g, Logical(init, s), s.disk)
    requires none ==> txn == [] && SameHome(g, s.disk, ApplyTxns(init, s.txns))
    requires SameHome(g, disk, ApplyTxns(init, if none then s.txns else s.txns + [s.cur + txn]))
    ensures SameHome(g, disk, ApplyTxn(s.disk, txn))
  {
    hide ApplyTxns;
    if !none {
      hide ApplyTxn;
      ApplyTxnsSnoc(init, s.txns, s.cur + txn);
      ApplyConcat(Base(init, s), s.cur, txn);
      ApplySame(g, Logical(init, s), s.disk, txn);
    }
  }
}
