/** Two runs that drop a wakeup. In both, pipewrite fills the pipe while a reader sleeps and then returns
    -1 without waking it: once because the read end was closed under the reader, once because the writer
    was killed. */
module PipeStranded {
  import opened PipeSystem
  import opened PipeWakeup

  // ---- A thread running by itself --------------------------------------------------------

  function Goes(t: nat, k: nat): (acts: seq<Action>)
    ensures |acts| == k && forall i :: 0 <= i < k ==> acts[i] == Go(t)
  {
    seq(k, i => Go(t))
  }

  function Alone(s: State, t: nat, k: nat): State { if k == 0 then s else Step(Alone(s, t, k - 1), Go(t)) }

  lemma {:induction false} RunAppend(s: State, a: seq<Action>, b: seq<Action>)
    ensures Run(s, a + b) == Run(Run(s, a), b)
  {
    hide Step;
    if b == [] {
      assert a + b == a;
    } else {
      RunAppend(s, a, b[..|b| - 1]);
      assert (a + b)[..|a + b| - 1] == a + b[..|b| - 1];
    }
  }

  lemma {:induction false} RunGoes(s: State, t: nat, k: nat)
    ensures Run(s, Goes(t, k)) == Alone(s, t, k)
  {
    hide Step;
    if k > 0 {
      RunGoes(s, t, k - 1);
      assert Goes(t, k)[..k - 1] == Goes(t, k - 1);
    }
  }

  /** A call starts and its thread takes k steps. */
  function Calls(t: nat, call: Call, k: nat): seq<Action> { [Start(t, call)] + Goes(t, k) }

  lemma RunCalls(s: State, t: nat, call: Call, k: nat)
    ensures Run(s, Calls(t, call, k)) == Alone(Step(s, Start(t, call)), t, k)
  {
    hide Step;
    RunAppend(s, [Start(t, call)], Goes(t, k));
    assert [Start(t, call)][..0] == [];
    assert Run(s, [Start(t, call)]) == Step(Run(s, []), Start(t, call));
    RunGoes(Step(s, Start(t, call)), t, k);
  }

  // ---- The run ---------------------------------------------------------------------------

  function Src(): (src: seq<Byte>)
    ensures |src| == PIPESIZE + 1
  {
    seq(PIPESIZE + 1, i => 0)
  }

  /** Thread 0 reads and falls asleep. */
  function Reader(): seq<Action> { Calls(0, Read(1, []), 5) }

  /** Thread 1 closes the read end. */
  function Closer(): seq<Action> { Calls(1, Close(false), 4) }

  ghost predicate ReaderAsleep(s: State) {
    && |s.pipe.data| == PIPESIZE && |s.threads| == |s.begun| == 3 && !s.pipe.freed && s.lock.Free? && s.plock.Free?
    && s.pipe.writeopen && s.pipe.nread == s.pipe.nwrite == 0
    && s.threads[0].pc == Asleep(NRead) && s.threads[2] == IdleThread()
  }

  lemma ReaderSteps(s: State)
    requires |s.pipe.data| == PIPESIZE && |s.threads| == |s.begun| == 3 && !s.pipe.freed && s.lock.Free?
    requires s.plock.Free?
    requires s.pipe.writeopen && s.pipe.nread == s.pipe.nwrite == 0
    requires forall t :: 0 <= t < 3 ==> s.threads[t] == IdleThread()
    ensures Step(Step(Step(s, Start(0, Read(1, []))), Go(0)), Go(0)) == SleepingReader(s)
  {
    var s1 := Step(s, Start(0, Read(1, [])));
    assert s1 == s.(threads := s.threads[0 := Thread(Want, Read(1, []), false)], begun := s.begun[0 := |s.stored|]);
    var s2 := Step(s1, Go(0));
    assert s2 == s1.(lock := By(0), threads := s.threads[0 := Thread(Body, Read(1, []), false)]);
    var s3 := Step(s2, Go(0));
    assert s3 == SleepingReader(s);
  }

  function SleepingReader(s: State): State
    requires |s.threads| == |s.begun| == 3
  {
    s.(lock := By(0), threads := s.threads[0 := Thread(Sleep1(NRead), Read(1, []), false)],
       begun := s.begun[0 := |s.stored|])
  }

  lemma SleepSteps(s: State)
    requires |s.pipe.data| == PIPESIZE && |s.threads| == 3 && !s.pipe.freed && s.plock.Free?
    requires s.threads[0].pc == Sleep1(NRead)
    ensures var s' := Step(Step(Step(s, Go(0)), Go(0)), Go(0));
            s' == At(s.(lock := Free), 0, Asleep(NRead))
  {
    var s1 := Step(s, Go(0));
    assert s1 == At(s.(plock := By(0)), 0, Sleep2(NRead));
    var s2 := Step(s1, Go(0));
    assert s2 == At(s.(plock := By(0), lock := Free), 0, Sleep3(NRead));
  }

  lemma ReaderRun(data: seq<Byte>)
    requires |data| == PIPESIZE
    ensures var s := Run(Alloc(data, 3), Reader()); ReaderAsleep(s) && s.threads[1] == IdleThread() && s.pipe.readopen
  {
    hide Step, Run;
    var s0 := Alloc(data, 3);
    RunCalls(s0, 0, Read(1, []), 5);
    ReaderSteps(s0);
    var s1 := Step(s0, Start(0, Read(1, [])));
    var s3 := SleepingReader(s0);
    SleepSteps(s3);
    assert Alone(s1, 0, 1) == Step(s1, Go(0)) && Alone(s1, 0, 2) == s3;
    assert Alone(s1, 0, 3) == Step(s3, Go(0)) && Alone(s1, 0, 4) == Step(Step(s3, Go(0)), Go(0));
    assert Alone(s1, 0, 5) == Step(Step(Step(s3, Go(0)), Go(0)), Go(0));
  }

  /** s once pipeclose has cleared readopen. */
  function Closed(s: State, lock: Holder, pc: Pc): State
    requires |s.threads| == |s.begun| == 3
  {
    s.(pipe := s.pipe.(readopen := false), lock := lock, threads := s.threads[1 := Thread(pc, Close(false), false)],
       begun := s.begun[1 := |s.stored|])
  }

  lemma CloserStarts(s: State)
    requires ReaderAsleep(s) && s.threads[1] == IdleThread()
    ensures Step(Step(Step(s, Start(1, Close(false))), Go(1)), Go(1)) == Closed(s, By(1), Wake(NWrite, false))
  {
    var s1 := Step(s, Start(1, Close(false)));
    assert s1 == s.(threads := s.threads[1 := Thread(Want, Close(false), false)], begun := s.begun[1 := |s.stored|]);
    var s2 := Step(s1, Go(1));
    assert s2 == s1.(lock := By(1), threads := s.threads[1 := Thread(Body, Close(false), false)]);
  }

  lemma CloserWakes(s: State)
    requires ReaderAsleep(s)
    ensures Step(Closed(s, By(1), Wake(NWrite, false)), Go(1)) == Closed(s, By(1), Finish(0))
  {
    var s1 := Closed(s, By(1), Wake(NWrite, false));
    var s2 := Step(s1, Go(1));
    assert s2.threads == RouseAll(s1.threads, NWrite)[1 := Thread(Finish(0), Close(false), false)];
    assert RouseAll(s1.threads, NWrite) == s1.threads;
  }

  lemma CloserLeaves(s: State)
    requires ReaderAsleep(s)
    ensures Step(Closed(s, By(1), Finish(0)), Go(1)) == Closed(s, Free, Idle)
  {}

  lemma CloserRun(s: State)
    requires ReaderAsleep(s) && s.threads[1] == IdleThread()
    ensures ReaderAsleep(Run(s, Closer())) && !Run(s, Closer()).pipe.readopen
  {
    hide Step, Run;
    RunCalls(s, 1, Close(false), 4);
    var s1 := Step(s, Start(1, Close(false)));
    CloserStarts(s);
    CloserWakes(s);
    CloserLeaves(s);
    assert Alone(s1, 1, 1) == Step(s1, Go(1)) && Alone(s1, 1, 2) == Closed(s, By(1), Wake(NWrite, false));
    assert Alone(s1, 1, 3) == Closed(s, By(1), Finish(0)) && Alone(s1, 1, 4) == Closed(s, Free, Idle);
  }

  /** The writer holds the lock and has stored k bytes; the pipe's read end is closed or it is killed. */
  ghost predicate Filling(s: State, k: nat) {
    && |s.pipe.data| == PIPESIZE && |s.threads| == 3 && !s.pipe.freed && s.lock == By(2)
    && (!s.pipe.readopen || s.threads[2].killed)
    && s.pipe.nread == 0 && s.pipe.nwrite == k && s.threads[0].pc == Asleep(NRead)
    && s.threads[2].pc == Body && s.threads[2].call == Write(Src(), k)
  }

  lemma FillStep(s: State, k: nat)
    requires Filling(s, k) && k < PIPESIZE
    ensures Filling(Step(s, Go(2)), k + 1) && SameEnds(s, Step(s, Go(2)))
  {
    assert !Full(s.pipe);
  }

  predicate SameEnds(s: State, r: State) {
    r.pipe.readopen == s.pipe.readopen && r.pipe.writeopen == s.pipe.writeopen
  }

  lemma {:induction false} FillAll(s: State, k: nat)
    requires Filling(s, 0) && k <= PIPESIZE
    ensures Filling(Alone(s, 2, k), k) && SameEnds(s, Alone(s, 2, k))
  {
    hide Step, Filling;
    if k > 0 {
      FillAll(s, k - 1);
      FillStep(Alone(s, 2, k - 1), k - 1);
    }
  }

  lemma WriterGivesUp(s: State)
    requires Filling(s, PIPESIZE)
    ensures Drops(s, Go(2))
    ensures var r := Step(Step(s, Go(2)), Go(2)); !NobodyStranded(r) && SameEnds(s, r)
  {
    var s1 := Step(s, Go(2));
    assert s1 == At(s, 2, Finish(-1));
    var s2 := Step(s1, Go(2));
    assert s2.lock.Free? && s2.threads[0].pc == Asleep(NRead) && !Empty(s2.pipe);
    assert Dozing(s.threads[0].pc, NRead);
  }

  /** From the moment the writer has the lock. */
  lemma WriterFills(s: State)
    requires Filling(s, 0)
    ensures var r := Alone(s, 2, PIPESIZE + 2); !NobodyStranded(r) && SameEnds(s, r)
  {
    hide Step, NobodyStranded, Filling, Drops;
    FillAll(s, PIPESIZE);
    var s1 := Alone(s, 2, PIPESIZE);
    WriterGivesUp(s1);
    assert Alone(s, 2, PIPESIZE + 1) == Step(s1, Go(2));
    assert Alone(s, 2, PIPESIZE + 2) == Step(Step(s1, Go(2)), Go(2));
  }

  lemma {:induction false} AloneSplit(s: State, t: nat, k: nat)
    ensures Alone(s, t, k + 1) == Alone(Step(s, Go(t)), t, k)
  {
    hide Step;
    if k > 0 { AloneSplit(s, t, k - 1); }
  }

  // ---- The read end is closed ----------------------------------------------------------------

  /** Thread 2 writes one byte more than fits. */
  function Writer(): seq<Action> { Calls(2, Write(Src(), 0), PIPESIZE + 3) }

  lemma WriterStarts(s: State)
    requires ReaderAsleep(s) && !s.pipe.readopen
    ensures Filling(Step(Step(s, Start(2, Write(Src(), 0))), Go(2)), 0)
  {}

  lemma WriterRun(s: State)
    requires ReaderAsleep(s) && !s.pipe.readopen
    ensures !NobodyStranded(Run(s, Writer()))
  {
    hide Step, NobodyStranded, Filling, ReaderAsleep;
    RunCalls(s, 2, Write(Src(), 0), PIPESIZE + 3);
    var s1 := Step(s, Start(2, Write(Src(), 0)));
    WriterStarts(s);
    AloneSplit(s1, 2, PIPESIZE + 2);
    WriterFills(Step(s1, Go(2)));
  }

  predicate NoKills(acts: seq<Action>) { forall i :: 0 <= i < |acts| ==> !acts[i].Kill? }

  /** Without any kill: a reader asleep on a full pipe that nobody will wake. */
  lemma StrandedByClose(data: seq<Byte>) returns (acts: seq<Action>)
    requires |data| == PIPESIZE
    ensures NoKills(acts) && !NobodyStranded(Run(Alloc(data, 3), acts))
  {
    hide Run, Step, NobodyStranded;
    var s0 := Alloc(data, 3);
    acts := Reader() + Closer() + Writer();
    ReaderRun(data);
    CloserRun(Run(s0, Reader()));
    WriterRun(Run(Run(s0, Reader()), Closer()));
    RunAppend(s0, Reader(), Closer());
    RunAppend(s0, Reader() + Closer(), Writer());
  }

  // ---- The writer is killed ------------------------------------------------------------------

  /** Thread 2 starts to write, takes the lock, and its process is killed. */
  function Victim(): seq<Action> { Calls(2, Write(Src(), 0), 1) + [Kill(2)] }

  lemma VictimStarts(s: State)
    requires ReaderAsleep(s) && s.pipe.readopen
    ensures var r := Step(Step(Step(s, Start(2, Write(Src(), 0))), Go(2)), Kill(2)); Filling(r, 0) && SameEnds(s, r)
  {
    var s1 := Step(s, Start(2, Write(Src(), 0)));
    assert s1.threads == s.threads[2 := Thread(Want, Write(Src(), 0), false)] && s1.pipe == s.pipe;
    var s2 := Step(s1, Go(2));
    assert s2 == At(s1.(lock := By(2)), 2, Body);
  }

  lemma VictimRun(s: State)
    requires ReaderAsleep(s) && s.pipe.readopen
    ensures Filling(Run(s, Victim()), 0) && SameEnds(s, Run(s, Victim()))
  {
    hide Step, Filling, ReaderAsleep;
    RunCalls(s, 2, Write(Src(), 0), 1);
    var acts := Calls(2, Write(Src(), 0), 1);
    var s1 := Step(s, Start(2, Write(Src(), 0)));
    assert Alone(s1, 2, 0) == s1 && Alone(s1, 2, 1) == Step(s1, Go(2));
    assert Victim()[..|acts|] == acts;
    VictimStarts(s);
  }

  /** With both ends open throughout: the same, because of a kill. */
  lemma StrandedByKill(data: seq<Byte>) returns (acts: seq<Action>)
    requires |data| == PIPESIZE
    ensures var s := Run(Alloc(data, 3), acts); !NobodyStranded(s) && s.pipe.readopen && s.pipe.writeopen
  {
    hide Run, Step, NobodyStranded, Filling;
    var s0 := Alloc(data, 3);
    acts := Reader() + Victim() + Goes(2, PIPESIZE + 2);
    ReaderRun(data);
    var s1 := Run(s0, Reader());
    VictimRun(s1);
    var s2 := Run(s1, Victim());
    WriterFills(s2);
    RunGoes(s2, 2, PIPESIZE + 2);
    RunAppend(s0, Reader(), Victim());
    RunAppend(s0, Reader() + Victim(), Goes(2, PIPESIZE + 2));
  }
}
