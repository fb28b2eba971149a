/** A run without kills that keeps the read end open while somebody reads never drops a wakeup. */
module PipeDiscipline {
  import opened PipeSystem
  import opened PipeWakeup

  predicate Reading(th: Thread) { !th.pc.Idle? && th.call.Read? }

  predicate Closing(th: Thread) { !th.pc.Idle? && th.call == Close(false) }

  ghost predicate NoReads(threads: seq<Thread>) { forall u :: 0 <= u < |threads| ==> !Reading(threads[u]) }

  ghost predicate NoCloses(threads: seq<Thread>) { forall u :: 0 <= u < |threads| ==> !Closing(threads[u]) }

  ghost predicate Sides(p: Pipe, threads: seq<Thread>) {
    (p.readopen && NoCloses(threads)) || NoReads(threads)
  }

  /** No kill, and reads begin only while the read end is open, closing it only while nobody reads. */
  ghost predicate Tidy(s: State, a: Action) {
    match a
    case Start(t, call) =>
      && (call.Read? ==> s.pipe.readopen && NoCloses(s.threads))
      && (call == Close(false) ==> NoReads(s.threads))
    case Go(t) => true
    case Kill(t) => false
  }

  ghost predicate TidyRun(s: State, acts: seq<Action>) {
    acts == [] || (TidyRun(s, acts[..|acts| - 1]) && Tidy(Run(s, acts[..|acts| - 1]), acts[|acts| - 1]))
  }

  /** What a step of one thread does to the sides. */
  predicate SideKept(s: State, s': State, t: nat) {
    && |s'.threads| == |s.threads| && t < |s.threads|
    && (Reading(s'.threads[t]) ==> Reading(s.threads[t]) && !Closing(s'.threads[t]))
    && (Closing(s'.threads[t]) ==> Closing(s.threads[t]))
    && (s'.pipe.readopen == s.pipe.readopen || Closing(s.threads[t]))
    && (s'.pipe.readopen ==> s.pipe.readopen)
  }

  lemma SideGo(s: State, t: nat)
    requires t < |s.threads| && |s.pipe.data| == PIPESIZE
    ensures SideKept(s, DoGo(s, t), t)
  {
    hide Full, Empty, Next;
  }

  lemma SideHere(s: State, a: Action)
    requires Enabled(s, a) && Tidy(s, a)
    ensures var s' := Step(s, a);
            && |s'.threads| == |s.threads|
            && (Reading(s'.threads[a.t]) ==> Reading(s.threads[a.t]) || (s.pipe.readopen && NoCloses(s.threads)))
            && (Closing(s'.threads[a.t]) ==> Closing(s.threads[a.t]) || NoReads(s.threads))
            && (Reading(s'.threads[a.t]) ==> !Closing(s'.threads[a.t]))
            && (s'.pipe.readopen == s.pipe.readopen || Closing(s.threads[a.t]))
            && (s'.pipe.readopen ==> s.pipe.readopen)
  {
    hide DoGo, NoCloses, NoReads;
    if a.Go? { SideGo(s, a.t); }
  }

  lemma SidesStep(s: State, a: Action)
    requires Sides(s.pipe, s.threads) && Tidy(s, a)
    ensures Sides(Step(s, a).pipe, Step(s, a).threads)
  {
    hide DoGo, DoStart, DoKill, Tidy, Reading, Closing;
    if Enabled(s, a) {
      Effect(s, a);
      SideHere(s, a);
      var s' := Step(s, a);
      forall u: nat | u < |s.threads| && u != a.t
        ensures (Reading(s'.threads[u]) <==> Reading(s.threads[u]))
        ensures (Closing(s'.threads[u]) <==> Closing(s.threads[u])) {
        RouseSide(s.threads[u], if s.threads[a.t].pc.Wake? then s.threads[a.t].pc.chan else NRead);
      }
    }
  }

  lemma RouseSide(th: Thread, chan: Chan)
    ensures (Reading(Rouse(th, chan)) <==> Reading(th)) && (Closing(Rouse(th, chan)) <==> Closing(th))
  {}

  ghost predicate NoneKilled(threads: seq<Thread>) { forall u :: 0 <= u < |threads| ==> !threads[u].killed }

  lemma NoneKilledStep(s: State, a: Action)
    requires NoneKilled(s.threads) && Tidy(s, a)
    ensures NoneKilled(Step(s, a).threads)
  {
    hide Full, Empty, Put, Take;
    if Enabled(s, a) { Effect(s, a); }
  }

  lemma {:induction false} TidyInv(data: seq<Byte>, n: nat, acts: seq<Action>)
    requires |data| == PIPESIZE && TidyRun(Alloc(data, n), acts)
    ensures var s := Run(Alloc(data, n), acts); Sides(s.pipe, s.threads) && NoneKilled(s.threads)
  {
    hide Step, Tidy, Sides;
    if acts == [] {
      SidesAtFirst(data, n);
    } else {
      var s := Run(Alloc(data, n), acts[..|acts| - 1]);
      TidyInv(data, n, acts[..|acts| - 1]);
      SidesStep(s, acts[|acts| - 1]);
      NoneKilledStep(s, acts[|acts| - 1]);
    }
  }

  lemma SidesAtFirst(data: seq<Byte>, n: nat)
    requires |data| == PIPESIZE
    ensures Sides(Alloc(data, n).pipe, Alloc(data, n).threads)
  {}

  lemma TidyDropsNot(s: State, a: Action)
    requires Inv(s) && Sides(s.pipe, s.threads) && NoneKilled(s.threads)
    ensures !Drops(s, a)
  {
    hide Step, Locks, Blocked;
  }

  /** The discipline is enough: no drop, and so nobody stranded. */
  lemma {:induction false} TidyNeverDrops(data: seq<Byte>, n: nat, acts: seq<Action>)
    requires |data| == PIPESIZE && TidyRun(Alloc(data, n), acts)
    ensures NoDrops(Alloc(data, n), acts) && NobodyStranded(Run(Alloc(data, n), acts))
  {
    hide Run, Step, Alloc, Drops, Tidy, Inv, Sides, NobodyStranded;
    TidyNoDrops(data, n, acts);
    NoLostWakeup(data, n, acts);
  }

  lemma {:induction false} TidyNoDrops(data: seq<Byte>, n: nat, acts: seq<Action>)
    requires |data| == PIPESIZE && TidyRun(Alloc(data, n), acts)
    ensures NoDrops(Alloc(data, n), acts)
  {
    hide Run, Step, Alloc, Drops, Tidy, Inv, Sides;
    if acts != [] {
      var before := acts[..|acts| - 1];
      TidyNoDrops(data, n, before);
      TidyInv(data, n, before);
      RunInv(data, n, before);
      TidyDropsNot(Run(Alloc(data, n), before), acts[|acts| - 1]);
      forall k | 0 <= k < |acts| ensures !Drops(Run(Alloc(data, n), acts[..k]), acts[k]) {
        if k < |before| { assert before[..k] == acts[..k] && before[k] == acts[k]; }
      }
    }
  }
}
