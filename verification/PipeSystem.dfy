/** pipe.c as steps of threads that may be interleaved anywhere: pipewrite, piperead and pipeclose over
    the pipe's spinlock, and sleep and wakeup over ptable.lock. Code between two lock operations runs
    with the pipe's lock held; it is cut into one step per byte. */
module PipeSystem {

  const PIPESIZE: nat := 512
  const WORD: nat := 0x1_0000_0000

  type Byte = b: nat | b < 256

  /** Sleep channels: the addresses of nread and nwrite. */
  datatype Chan = NRead | NWrite

  datatype Call = Write(src: seq<Byte>, i: nat) | Read(n: nat, got: seq<Byte>) | Close(writable: bool)

  /** Where a thread is. Body and Copy run with p->lock held; Wake is a wakeup about to take
      ptable.lock, with what follows it; Sleep1 to Woken are the stations of sleep. */
  datatype Pc =
    | Idle
    | Want
    | Body
    | Copy
    | Wake(chan: Chan, thenSleep: bool)
    | Sleep1(chan: Chan)
    | Sleep2(chan: Chan)
    | Sleep3(chan: Chan)
    | Asleep(chan: Chan)
    | Woken
    | Finish(ret: int)

  datatype Thread = Thread(pc: Pc, call: Call, killed: bool)

  datatype Holder = Free | By(t: nat)

  datatype Pipe = Pipe(data: seq<Byte>, nread: nat, nwrite: nat, readopen: bool, writeopen: bool, freed: bool)

  /** `stored` and `delivered` record what went in and out since pipealloc, `writer` which thread
      stored each byte, and `begun` how many were stored when each thread's call began. */
  datatype State = State(pipe: Pipe, lock: Holder, plock: Holder, threads: seq<Thread>,
                         stored: seq<Byte>, delivered: seq<Byte>, writer: seq<nat>, begun: seq<nat>)

  datatype Action =
    | Start(t: nat, call: Call)   // a system call enters pipewrite, piperead or pipeclose
    | Go(t: nat)                  // thread t takes its next step, if it can
    | Kill(t: nat)                // kill() marks t's process and wakes t

  // ---- Pieces of the code ----------------------------------------------------------------

  predicate Empty(p: Pipe) { p.nread == p.nwrite }

  predicate Full(p: Pipe) { p.nwrite == (p.nread + PIPESIZE) % WORD }

  function Put(p: Pipe, b: Byte): Pipe
    requires |p.data| == PIPESIZE
  {
    p.(data := p.data[p.nwrite % PIPESIZE := b], nwrite := (p.nwrite + 1) % WORD)
  }

  function Next(p: Pipe): Byte
    requires |p.data| == PIPESIZE
  {
    p.data[p.nread % PIPESIZE]
  }

  function Take(p: Pipe): Pipe { p.(nread := (p.nread + 1) % WORD) }

  /** wakeup1. */
  function Rouse(th: Thread, chan: Chan): Thread { if th.pc == Asleep(chan) then th.(pc := Woken) else th }

  function RouseAll(threads: seq<Thread>, chan: Chan): (r: seq<Thread>)
    ensures |r| == |threads| && forall u :: 0 <= u < |r| ==> r[u] == Rouse(threads[u], chan)
  {
    seq(|threads|, u requires 0 <= u < |threads| => Rouse(threads[u], chan))
  }

  function At(s: State, t: nat, pc: Pc): State
    requires t < |s.threads|
  {
    s.(threads := s.threads[t := s.threads[t].(pc := pc)])
  }

  // ---- Steps -----------------------------------------------------------------------------

  /** Holding p->lock at the head of pipewrite's loops. */
  function WriteBody(s: State, t: nat): State
    requires t < |s.threads| && s.threads[t].call.Write? && |s.pipe.data| == PIPESIZE
  {
    var c := s.threads[t].call;
    if c.i >= |c.src| then At(s, t, Wake(NRead, false))
    else if Full(s.pipe) then
      if !s.pipe.readopen || s.threads[t].killed then At(s, t, Finish(-1)) else At(s, t, Wake(NRead, true))
    else
      s.(pipe := Put(s.pipe, c.src[c.i]), stored := s.stored + [c.src[c.i]], writer := s.writer + [t],
         threads := s.threads[t := s.threads[t].(call := Write(c.src, c.i + 1))])
  }

  /** Holding p->lock at the head of piperead's waiting loop. */
  function ReadBody(s: State, t: nat): State
    requires t < |s.threads|
  {
    if Empty(s.pipe) && s.pipe.writeopen then
      if s.threads[t].killed then At(s, t, Finish(-1)) else At(s, t, Sleep1(NRead))
    else At(s, t, Copy)
  }

  /** piperead's copy loop. */
  function ReadCopy(s: State, t: nat): State
    requires t < |s.threads| && s.threads[t].call.Read? && |s.pipe.data| == PIPESIZE
  {
    var c := s.threads[t].call;
    if |c.got| < c.n && !Empty(s.pipe) then
      s.(pipe := Take(s.pipe), delivered := s.delivered + [Next(s.pipe)],
         threads := s.threads[t := s.threads[t].(call := Read(c.n, c.got + [Next(s.pipe)]))])
    else At(s, t, Wake(NWrite, false))
  }

  function CloseBody(s: State, t: nat): State
    requires t < |s.threads| && s.threads[t].call.Close?
  {
    if s.threads[t].call.writable
      then At(s.(pipe := s.pipe.(writeopen := false)), t, Wake(NRead, false))
      else At(s.(pipe := s.pipe.(readopen := false)), t, Wake(NWrite, false))
  }

  function Result(c: Call): int {
    match c
    case Write(src, i) => |src|
    case Read(n, got) => |got|
    case Close(w) => 0
  }

  function DoGo(s: State, t: nat): State
    requires t < |s.threads| && |s.pipe.data| == PIPESIZE
  {
    var th := s.threads[t];
    match th.pc
    case Idle => s
    case Want => if s.lock.Free? then At(s.(lock := By(t)), t, Body) else s
    case Body =>
      if th.call.Write? then WriteBody(s, t) else if th.call.Read? then ReadBody(s, t) else CloseBody(s, t)
    case Copy => if th.call.Read? then ReadCopy(s, t) else s
    case Wake(chan, thenSleep) =>
      if s.plock.Free?
        then At(s.(threads := RouseAll(s.threads, chan)), t,
                if thenSleep then Sleep1(NWrite) else Finish(Result(th.call)))
        else s
    case Sleep1(chan) => if s.plock.Free? then At(s.(plock := By(t)), t, Sleep2(chan)) else s
    case Sleep2(chan) => At(s.(lock := Free), t, Sleep3(chan))
    case Sleep3(chan) => At(s.(plock := Free), t, Asleep(chan))
    case Asleep(chan) => s
    case Woken => if s.plock.Free? then At(s, t, Want) else s
    case Finish(ret) =>
      var freed := s.pipe.freed || (th.call.Close? && !s.pipe.readopen && !s.pipe.writeopen);
      At(s.(lock := Free, pipe := s.pipe.(freed := freed)), t, Idle)
  }

  /** A call with nothing done yet. */
  function Fresh(call: Call): Call {
    match call
    case Write(src, i) => Write(src, 0)
    case Read(n, got) => Read(n, [])
    case Close(w) => Close(w)
  }

  function DoStart(s: State, t: nat, call: Call): State
    requires t < |s.threads|
  {
    if s.threads[t].pc.Idle? && t < |s.begun| then
      s.(threads := s.threads[t := Thread(Want, Fresh(call), s.threads[t].killed)], begun := s.begun[t := |s.stored|])
    else s
  }

  function DoKill(s: State, t: nat): State
    requires t < |s.threads|
  {
    if s.plock.Free?
      then
        var pc := if s.threads[t].pc.Asleep? then Woken else s.threads[t].pc;
        s.(threads := s.threads[t := s.threads[t].(killed := true, pc := pc)])
      else s
  }

  /** Once the pipe's memory is given back nothing more is said about it. */
  function Step(s: State, a: Action): State {
    if s.pipe.freed || |s.pipe.data| != PIPESIZE || a.t >= |s.threads| then s
    else
      match a
      case Start(t, call) => DoStart(s, t, call)
      case Go(t) => DoGo(s, t)
      case Kill(t) => DoKill(s, t)
  }

  function Run(s: State, acts: seq<Action>): State {
    if acts == [] then s else Step(Run(s, acts[..|acts| - 1]), acts[|acts| - 1])
  }

  function IdleThread(): Thread { Thread(Idle, Close(false), false) }

  function Idlers(n: nat): (ts: seq<Thread>)
    ensures |ts| == n && forall i :: 0 <= i < n ==> ts[i] == IdleThread()
  {
    seq(n, i => IdleThread())
  }

  function Zeros(n: nat): (z: seq<nat>)
    ensures |z| == n
  {
    seq(n, i => 0)
  }

  /** pipealloc: the counters are reset, the data bytes are whatever the page held. */
  function Alloc(data: seq<Byte>, n: nat): State
    requires |data| == PIPESIZE
  {
    State(Pipe(data, 0, 0, true, true, false), Free, Free, Idlers(n), [], [], [], Zeros(n))
  }
}
