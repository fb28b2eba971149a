/** log.c as a step system: any number of threads, one step per critical section of
    log.lock or per block write, and a crash between any two steps. */
module LogSystem {
  import opened LogSpec

  datatype Buf = Buf(data: Block, dirty: bool)

  /** A thread of the kernel as log.c sees it. `op` numbers the operation, `calls` counts its
      completed log_write calls, and `checked` is the block of a log_write that has passed the
      unlocked checks of log.c:218-221 and has not yet taken log.lock. */
  datatype Thread = Idle | Asleep | Active(op: nat, calls: nat, checked: int)

  datatype Phase =
    | Running
    | WritingLog(tail: nat)
    | Installing(tail: nat)
    | Finishing
    | RecoverHead
    | RecoverInstall(tail: nat)

  /** `held` maps a block to the thread holding its buffer lock; `pending` are the held blocks
      modified since their last log_write. `txns`, `cur` and `began` are history: the entries of
      every transaction whose header write completed, those of the open transaction, and the
      number of committed transactions when each operation began. */
  datatype State = State(
    disk: Disk,
    cache: map<nat, Buf>,
    lh: seq<nat>,
    outstanding: int,
    committing: bool,
    threads: seq<Thread>,
    held: map<nat, nat>,
    pending: set<nat>,
    phase: Phase,
    halted: bool,
    txns: seq<Txn>,
    cur: Txn,
    began: seq<nat>)

  datatype Action =
    | BeginOp(t: nat)
    | Acquire(t: nat, b: nat)
    | Modify(t: nat, b: nat, data: Block)
    | LogCheck(t: nat, b: nat)
    | LogAppend(t: nat)
    | Release(t: nat, b: nat)
    | EndOp(t: nat)
    | CommitStep
    | RecoverStep
    | Load(b: nat)
    | Evict(b: nat)
    | Crash

  /** The contents bread returns for block `b`. */
  function View(s: State, b: nat): Block {
    if b in s.cache then s.cache[b].data else if b < |s.disk| then s.disk[b] else seq(WORDS, i => 0)
  }

  /** memmove into the buffer of `b`, then bwrite: one block reaches the disk. */
  function Bwrite(s: State, b: nat, data: Block): State {
    if b < |s.disk| then s.(disk := s.disk[b := data], cache := s.cache[b := Buf(data, false)])
    else s.(halted := true)
  }

  /** wakeup(&log): every sleeper in begin_op retries. */
  function WakeAll(ts: seq<Thread>): (r: seq<Thread>)
    ensures |r| == |ts|
  {
    seq(|ts|, i requires 0 <= i < |ts| => if ts[i] == Asleep then Idle else ts[i])
  }

  function AllIdle(n: nat): (r: seq<Thread>) {
    seq(n, i => Idle)
  }

  predicate Recovering(s: State) { s.phase.RecoverHead? || s.phase.RecoverInstall? }

  /** One pass of begin_op's loop: sleep, or enter. */
  function DoBeginOp(s: State, t: nat): State {
    if t < |s.threads| && s.threads[t] == Idle && !Recovering(s) then
      if s.committing || |s.lh| + (s.outstanding + 1) * MAXOPBLOCKS > LOGSIZE then
        s.(threads := s.threads[t := Asleep])
      else
        s.(threads := s.threads[t := Active(|s.began|, 0, -1)],
           outstanding := s.outstanding + 1,
           began := s.began + [|s.txns|])
    else s
  }

  /** bread: take the buffer lock of `b`, with the block in the cache. */
  function DoAcquire(s: State, t: nat, b: nat): State {
    if t < |s.threads| && s.threads[t] != Asleep && b !in s.held && b < |s.disk| && !Recovering(s) then
      s.(held := s.held[b := t], cache := s.cache[b := if b in s.cache then s.cache[b] else Buf(s.disk[b], false)])
    else s
  }

  /** The caller changes b->data. Only an operation does so, and only on a home block. */
  function DoModify(g: Geometry, s: State, t: nat, b: nat, data: Block): State {
    if t < |s.threads| && s.threads[t].Active? && s.threads[t].checked == -1 && g.Home(b)
       && b in s.held && s.held[b] == t && b in s.cache then
      s.(cache := s.cache[b := s.cache[b].(data := data)], pending := s.pending + {b})
    else s
  }

  /** The checks at the top of log_write, made without log.lock. */
  function DoLogCheck(g: Geometry, s: State, t: nat, b: nat): State {
    if t < |s.threads| && s.threads[t].Active? && s.threads[t].checked == -1 && g.Home(b)
       && b in s.held && s.held[b] == t && b in s.cache && s.threads[t].calls < MAXOPBLOCKS then
      if |s.lh| >= LOGSIZE || |s.lh| >= g.size - 1 || s.outstanding < 1 then s.(halted := true)
      else s.(threads := s.threads[t := s.threads[t].(checked := b)])
    else s
  }

  function Absorb(lh: seq<nat>, b: nat): seq<nat> {
    if Find(lh, b) == |lh| then lh + [b] else lh
  }

  /** The part of log_write under log.lock. */
  function DoLogAppend(s: State, t: nat): State {
    if t < |s.threads| && s.threads[t].Active? && s.threads[t].checked >= 0
       && s.threads[t].checked in s.cache then
      var th := s.threads[t];
      var b: nat := th.checked;
      s.(lh := Absorb(s.lh, b),
         cache := s.cache[b := s.cache[b].(dirty := true)],
         pending := s.pending - {b},
         threads := s.threads[t := Active(th.op, th.calls + 1, -1)],
         cur := s.cur + [Entry(th.op, b, s.cache[b].data)])
    else s
  }

  /** brelse. A modified buffer is released only after log_write. */
  function DoRelease(s: State, t: nat, b: nat): State {
    if t < |s.threads| && s.threads[t] != Asleep && b in s.held && s.held[b] == t && b !in s.pending
       && !(s.threads[t].Active? && s.threads[t].checked >= 0) then
      s.(held := s.held - {b})
    else s
  }

  predicate HoldsNothing(s: State, t: nat) {
    forall b <- s.held :: s.held[b] != t
  }

  /** end_op up to the release of log.lock at log.c:163. */
  function DoEndOp(s: State, t: nat): State {
    if t < |s.threads| && s.threads[t].Active? && s.threads[t].checked == -1 && HoldsNothing(s, t) then
      if s.committing then s.(halted := true)
      else if s.outstanding == 1 then
        s.(threads := s.threads[t := Idle], outstanding := 0, committing := true,
           phase := if |s.lh| > 0 then WritingLog(0) else Finishing)
      else
        s.(threads := WakeAll(s.threads[t := Idle]), outstanding := s.outstanding - 1)
    else s
  }

  /** write_head. */
  function WriteHead(g: Geometry, s: State): State {
    if |s.lh| <= LOGSIZE then Bwrite(s, g.start, PutHeader(View(s, g.start), s.lh)) else s.(halted := true)
  }

  /** One iteration of write_log, or the commit write of the header. */
  function DoWriteLog(g: Geometry, s: State, tail: nat): State {
    if tail < |s.lh| then
      if g.LogBlock(tail) in s.held || s.lh[tail] in s.held then s
      else Bwrite(s, g.LogBlock(tail), View(s, s.lh[tail])).(phase := WritingLog(tail + 1))
    else if g.start in s.held then s
    else WriteHead(g, s).(phase := Installing(0), txns := s.txns + [s.cur], cur := [])
  }

  /** One iteration of install_trans, or the write of the erased header; then `next`. */
  function DoInstall(g: Geometry, s: State, tail: nat, next: Phase, last: Phase): State {
    if tail < |s.lh| then
      if g.LogBlock(tail) in s.held || s.lh[tail] in s.held then s
      else Bwrite(s, s.lh[tail], View(s, g.LogBlock(tail))).(phase := next)
    else if g.start in s.held then s
    else WriteHead(g, s.(lh := [])).(phase := last)
  }

  /** The committing thread: commit(), then the epilogue of end_op. */
  function DoCommit(g: Geometry, s: State): State {
    match s.phase
    case WritingLog(tail) => DoWriteLog(g, s, tail)
    case Installing(tail) => DoInstall(g, s, tail, Installing(tail + 1), Finishing)
    case Finishing => s.(committing := false, threads := WakeAll(s.threads), phase := Running)
    case _ => s
  }

  /** recover_from_log: read_head, install_trans, erase. */
  function DoRecover(g: Geometry, s: State): State {
    match s.phase
    case RecoverHead => s.(lh := HeaderOf(View(s, g.start)), phase := RecoverInstall(0))
    case RecoverInstall(tail) => DoInstall(g, s, tail, RecoverInstall(tail + 1), Running)
    case _ => s
  }

  /** A clean copy may enter the cache, and a clean unlocked buffer may be recycled. */
  function DoLoad(s: State, b: nat): State {
    if b !in s.cache && b < |s.disk| then s.(cache := s.cache[b := Buf(s.disk[b], false)]) else s
  }

  function DoEvict(s: State, b: nat): State {
    if b in s.cache && !s.cache[b].dirty && b !in s.held then s.(cache := s.cache - {b}) else s
  }

  /** Power failure: only the disk survives. */
  function DoCrash(s: State): State {
    s.(cache := map[], lh := [], outstanding := 0, committing := false,
       threads := AllIdle(|s.threads|), held := map[], pending := {},
       phase := RecoverHead, halted := false, cur := [])
  }

  function Step(g: Geometry, s: State, a: Action): State {
    if a.Crash? then DoCrash(s)
    else if s.halted then s
    else
      match a
      case BeginOp(t) => DoBeginOp(s, t)
      case Acquire(t, b) => DoAcquire(s, t, b)
      case Modify(t, b, data) => DoModify(g, s, t, b, data)
      case LogCheck(t, b) => DoLogCheck(g, s, t, b)
      case LogAppend(t) => DoLogAppend(s, t)
      case Release(t, b) => DoRelease(s, t, b)
      case EndOp(t) => DoEndOp(s, t)
      case CommitStep => DoCommit(g, s)
      case RecoverStep => DoRecover(g, s)
      case Load(b) => DoLoad(s, b)
      case Evict(b) => DoEvict(s, b)
      case Crash => s
  }

  /** The state after a schedule; every interleaving and every placement of crashes is one. */
  function Run(g: Geometry, s: State, acts: seq<Action>): State {
    if acts == [] then s else Step(g, Run(g, s, acts[..|acts| - 1]), acts[|acts| - 1])
  }

  /** A machine about to boot from disk `d` with `n` threads. */
  function Boot(d: Disk, n: nat): State {
    State(d, map[], [], 0, false, AllIdle(n), map[], {}, RecoverHead, false, [], [], [])
  }
}
