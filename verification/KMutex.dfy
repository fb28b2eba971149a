/** Kernel mutexes of proc.c: kthread_mutex_lock and kthread_mutex_unlock as a step system with one
    step per shared-memory access, for any number of threads and allocated mutexes and for any
    client. Thread and mutex numbers are natural; -1 stands for nobody. */
module KMutex {

  datatype MutexState = OPEN | CLOSE

  /** `spin` is the thread that holds mutexLock. */
  datatype Mutex = Mutex(lock: nat, state: MutexState, holding: int, spin: int)

  /** The next thing a thread does inside a call. LTable..LRelease are kthread_mutex_lock,
      UTable..URelease are kthread_mutex_unlock. */
  datatype Pc =
    | LTable      // acquire(&mtable.lock)
    | LCheck      // is the caller already the holder?
    | LSpin       // acquire(&m->mutexLock)
    | LSpun       // release(&mtable.lock)
    | LXchg       // xchg(&m->lock, 1)
    | LSleep      // sleep releases mutexLock
    | LAsleep     // T_SLEEPING on m
    | LReacquire  // sleep reacquires mutexLock
    | LClose      // m->state = CLOSE
    | LHold       // m->holding = mythread()
    | LRelease    // release(&m->mutexLock); return 0
    | UTable      // acquire(&mtable.lock)
    | USpin       // acquire(&m->mutexLock)
    | USpun       // release(&mtable.lock)
    | UCheck      // is the caller the holder of a closed mutex?
    | UFail       // release(&m->mutexLock); return -1
    | UUnlock     // m->lock = 0
    | UOpen       // m->state = OPEN
    | UClear      // m->holding = 0
    | UWake       // make one sleeper runnable
    | URelease    // release(&m->mutexLock); return 0

  datatype Call = NoCall | Call(m: nat, pc: Pc)

  /** `held` is history: the mutexes whose lock call returned 0 with no matching unlock since.
      `ret` is the value returned by the last call. */
  datatype Thread = Thread(held: set<nat>, call: Call, ret: int)

  datatype State = State(mutexes: seq<Mutex>, table: int, threads: seq<Thread>)

  predicate LockPc(pc: Pc) {
    pc.LTable? || pc.LCheck? || pc.LSpin? || pc.LSpun? || pc.LXchg? || pc.LSleep? || pc.LAsleep?
    || pc.LReacquire? || pc.LClose? || pc.LHold? || pc.LRelease?
  }

  /** Points at which the thread holds mutexLock of the mutex of its call. */
  predicate SpinPc(pc: Pc) {
    !(pc.LTable? || pc.LCheck? || pc.LSpin? || pc.LAsleep? || pc.LReacquire? || pc.UTable? || pc.USpin?)
  }

  /** Points at which the thread holds mtable.lock. */
  predicate TablePc(pc: Pc) { pc.LCheck? || pc.LSpin? || pc.LSpun? || pc.USpin? || pc.USpun? }

  predicate Consistent(mu: Mutex) {
    && mu.lock <= 1
    && (mu.lock == 1 <==> mu.state == CLOSE)
    && (mu.lock == 1 <==> mu.holding != -1)
  }

  /** The fields of a mutex while thread t holds its mutexLock at pc. */
  predicate Fields(mu: Mutex, pc: Pc, t: nat) {
    match pc
    case LClose => mu.lock == 1 && mu.state == OPEN && mu.holding == -1
    case LHold => mu.lock == 1 && mu.state == CLOSE && mu.holding == -1
    case LRelease => mu.lock == 1 && mu.state == CLOSE && mu.holding == t
    case UFail => Consistent(mu) && mu.holding != t
    case UUnlock => Consistent(mu) && mu.holding == t
    case UOpen => mu.lock == 0 && mu.state == CLOSE && mu.holding == t
    case UClear => mu.lock == 0 && mu.state == OPEN && mu.holding == t
    case UWake => mu.lock == 0 && mu.state == OPEN && mu.holding == -1
    case URelease => mu.lock == 0 && mu.state == OPEN && mu.holding == -1
    case _ => Consistent(mu)
  }

  /** Whose `held` contains the mutex, when thread t is at pc under its mutexLock. */
  function OwnerAt(mu: Mutex, pc: Pc, t: nat): int {
    match pc
    case LClose => -1
    case LHold => -1
    case LRelease => -1
    case UUnlock => t
    case UOpen => t
    case UClear => t
    case UWake => t
    case URelease => t
    case _ => mu.holding
  }

  /** Whose `held` contains mutex m. */
  function Owner(s: State, m: nat): int
    requires m < |s.mutexes|
  {
    var mu := s.mutexes[m];
    if 0 <= mu.spin < |s.threads| && s.threads[mu.spin].call.Call?
      then OwnerAt(mu, s.threads[mu.spin].call.pc, mu.spin)
      else mu.holding
  }

  /** Spinlocks are held exactly by the threads whose pc says so. */
  predicate LocksInv(s: State) {
    && (s.table == -1 || 0 <= s.table < |s.threads|)
    && (forall m :: 0 <= m < |s.mutexes| ==> s.mutexes[m].spin == -1 || 0 <= s.mutexes[m].spin < |s.threads|)
    && (forall m :: 0 <= m < |s.mutexes| && s.mutexes[m].spin != -1 ==>
          var c := s.threads[s.mutexes[m].spin].call; c.Call? && c.m == m && SpinPc(c.pc))
    && (forall t :: 0 <= t < |s.threads| && s.threads[t].call.Call? ==>
          var c := s.threads[t].call;
          && c.m < |s.mutexes|
          && (SpinPc(c.pc) ==> s.mutexes[c.m].spin == t))
    && (s.table != -1 ==> var c := s.threads[s.table].call; c.Call? && TablePc(c.pc))
    && (forall t :: 0 <= t < |s.threads| && s.threads[t].call.Call? && TablePc(s.threads[t].call.pc) ==> s.table == t)
  }

  predicate FieldsInv(s: State)
    requires LocksInv(s)
  {
    forall m :: 0 <= m < |s.mutexes| ==>
      var mu := s.mutexes[m];
      if mu.spin == -1 then Consistent(mu) else Fields(mu, s.threads[mu.spin].call.pc, mu.spin)
  }

  predicate OwnersInv(s: State) {
    forall m, t :: 0 <= m < |s.mutexes| && 0 <= t < |s.threads| ==> (m in s.threads[t].held <==> Owner(s, m) == t)
  }

  predicate Inv(s: State) { LocksInv(s) && FieldsInv(s) && OwnersInv(s) }

  // ---- Steps -----------------------------------------------------------------------------

  function Goto(s: State, t: nat, pc: Pc): State
    requires t < |s.threads| && s.threads[t].call.Call?
  {
    s.(threads := s.threads[t := s.threads[t].(call := Call(s.threads[t].call.m, pc))])
  }

  function Return(s: State, t: nat, held: set<nat>, ret: int): State
    requires t < |s.threads|
  {
    s.(threads := s.threads[t := Thread(held, NoCall, ret)])
  }

  function Set(s: State, m: nat, mu: Mutex): State
    requires m < |s.mutexes|
  {
    s.(mutexes := s.mutexes[m := mu])
  }

  /** A thread outside any call enters kthread_mutex_lock or kthread_mutex_unlock. */
  function Start(s: State, t: nat, m: nat, lock: bool): State {
    if t < |s.threads| && s.threads[t].call == NoCall && m < |s.mutexes| then
      s.(threads := s.threads[t := s.threads[t].(call := Call(m, if lock then LTable else UTable))])
    else s
  }

  /** sleep ends: the thread was made runnable, by an unlock or by a kill. */
  function Wake(s: State, t: nat): State {
    if t < |s.threads| && s.threads[t].call.Call? && s.threads[t].call.pc == LAsleep then Goto(s, t, LReacquire) else s
  }

  /** One step of thread t inside its call; w is the sleeper, if any, that the scan at
      proc.c:916-921 sees first. A thread waiting for a spinlock does not move. */
  function Advance(s: State, t: nat, w: nat): State {
    if t < |s.threads| && s.threads[t].call.Call? && s.threads[t].call.m < |s.mutexes| then
      var m := s.threads[t].call.m;
      var mu := s.mutexes[m];
      match s.threads[t].call.pc
      case LTable => if s.table == -1 then Goto(s.(table := t), t, LCheck) else s
      case LCheck =>
        if mu.holding == t then Return(s.(table := -1), t, s.threads[t].held, -1) else Goto(s, t, LSpin)
      case LSpin => if mu.spin == -1 then Goto(Set(s, m, mu.(spin := t)), t, LSpun) else s
      case LSpun => Goto(s.(table := -1), t, LXchg)
      case LXchg => Goto(Set(s, m, mu.(lock := 1)), t, if mu.lock != 0 then LSleep else LClose)
      case LSleep => Goto(Set(s, m, mu.(spin := -1)), t, LAsleep)
      case LAsleep => s
      case LReacquire => if mu.spin == -1 then Goto(Set(s, m, mu.(spin := t)), t, LXchg) else s
      case LClose => Goto(Set(s, m, mu.(state := CLOSE)), t, LHold)
      case LHold => Goto(Set(s, m, mu.(holding := t)), t, LRelease)
      case LRelease => Return(Set(s, m, mu.(spin := -1)), t, s.threads[t].held + {m}, 0)
      case UTable => if s.table == -1 then Goto(s.(table := t), t, USpin) else s
      case USpin => if mu.spin == -1 then Goto(Set(s, m, mu.(spin := t)), t, USpun) else s
      case USpun => Goto(s.(table := -1), t, UCheck)
      case UCheck => Goto(s, t, if mu.state != CLOSE || mu.holding != t then UFail else UUnlock)
      case UFail => Return(Set(s, m, mu.(spin := -1)), t, s.threads[t].held, -1)
      case UUnlock => Goto(Set(s, m, mu.(lock := 0)), t, UOpen)
      case UOpen => Goto(Set(s, m, mu.(state := OPEN)), t, UClear)
      case UClear => Goto(Set(s, m, mu.(holding := -1)), t, UWake)
      case UWake => Goto(if w != t then Wake(s, w) else s, t, URelease)
      case URelease => Return(Set(s, m, mu.(spin := -1)), t, s.threads[t].held - {m}, 0)
    else s
  }

  // ---- The invariant ---------------------------------------------------------------------

  /** What a step of thread t may do to the mutex of its call, to its own record and to
      mtable.lock. */
  ghost predicate LocalChange(s: State, t: nat, m: nat, mu: Mutex, th: Thread, table: int) {
    && t < |s.threads| && m < |s.mutexes|
    && (s.threads[t].call.Call? ==> s.threads[t].call.m == m)
    && (th.call.Call? ==> th.call.m == m)
    && (if th.call.Call? && SpinPc(th.call.pc)
        then mu.spin == t && s.mutexes[m].spin in {-1, t as int}
        else mu.spin == if s.mutexes[m].spin == t then -1 else s.mutexes[m].spin)
    && (if th.call.Call? && TablePc(th.call.pc)
        then table == t && s.table in {-1, t as int}
        else table == if s.table == t then -1 else s.table)
    && (if mu.spin == -1 then Consistent(mu)
        else if mu.spin == t then th.call.Call? && Fields(mu, th.call.pc, t)
        else mu == s.mutexes[m])
    && (forall n :: n != m ==> (n in th.held <==> n in s.threads[t].held))
  }

  lemma LocalLocks(s: State, t: nat, m: nat, mu: Mutex, th: Thread, table: int)
    requires LocksInv(s) && LocalChange(s, t, m, mu, th, table)
    ensures LocksInv(State(s.mutexes[m := mu], table, s.threads[t := th]))
  {
    hide Fields, Consistent;
  }

  lemma LocalFields(s: State, t: nat, m: nat, mu: Mutex, th: Thread, table: int)
    requires LocksInv(s) && FieldsInv(s) && LocalChange(s, t, m, mu, th, table)
    requires LocksInv(State(s.mutexes[m := mu], table, s.threads[t := th]))
    ensures FieldsInv(State(s.mutexes[m := mu], table, s.threads[t := th]))
  {
    hide Fields, Consistent;
  }

  /** The change of owner of m must match the change of `held` of t. */
  lemma LocalOwners(s: State, t: nat, m: nat, mu: Mutex, th: Thread, table: int)
    requires Inv(s) && LocalChange(s, t, m, mu, th, table)
    requires LocksInv(State(s.mutexes[m := mu], table, s.threads[t := th]))
    requires var o := Owner(State(s.mutexes[m := mu], table, s.threads[t := th]), m);
             && (m in th.held <==> o == t)
             && (o == Owner(s, m) || (o in {-1, t as int} && Owner(s, m) in {-1, t as int}))
    ensures OwnersInv(State(s.mutexes[m := mu], table, s.threads[t := th]))
  {
    hide Fields, Consistent, OwnerAt;
    var s' := State(s.mutexes[m := mu], table, s.threads[t := th]);
    forall n | 0 <= n < |s.mutexes| && n != m ensures Owner(s', n) == Owner(s, n) {}
  }

  lemma Local(s: State, t: nat, m: nat, mu: Mutex, th: Thread, table: int)
    requires Inv(s) && LocalChange(s, t, m, mu, th, table)
    requires var o := Owner(State(s.mutexes[m := mu], table, s.threads[t := th]), m);
             && (m in th.held <==> o == t)
             && (o == Owner(s, m) || (o in {-1, t as int} && Owner(s, m) in {-1, t as int}))
    ensures Inv(State(s.mutexes[m := mu], table, s.threads[t := th]))
  {
    hide LocalChange, LocksInv, FieldsInv, OwnersInv, Owner;
    LocalLocks(s, t, m, mu, th, table);
    LocalFields(s, t, m, mu, th, table);
    LocalOwners(s, t, m, mu, th, table);
  }

  lemma WakeInv(s: State, t: nat)
    requires Inv(s)
    ensures Inv(Wake(s, t))
  {
    var r := Wake(s, t);
    if r != s {
      var m := s.threads[t].call.m;
      assert r == State(s.mutexes[m := s.mutexes[m]], s.table, s.threads[t := r.threads[t]]);
      assert m in s.threads[t].held <==> Owner(s, m) == t;
      Local(s, t, m, s.mutexes[m], r.threads[t], s.table);
    }
  }

  lemma StartInv(s: State, t: nat, m: nat, lock: bool)
    requires Inv(s)
    ensures Inv(Start(s, t, m, lock))
  {
    var r := Start(s, t, m, lock);
    if r != s {
      assert r == State(s.mutexes[m := s.mutexes[m]], s.table, s.threads[t := r.threads[t]]);
      assert m in s.threads[t].held <==> Owner(s, m) == t;
      Local(s, t, m, s.mutexes[m], r.threads[t], s.table);
    }
  }

  /** What the invariant says of one thread inside a call. */
  lemma InCall(s: State, t: nat)
    requires Inv(s) && t < |s.threads| && s.threads[t].call.Call?
    ensures var Call(m, pc) := s.threads[t].call;
            && m < |s.mutexes|
            && (s.table == t <==> TablePc(pc))
            && (s.mutexes[m].spin == t <==> SpinPc(pc))
            && (SpinPc(pc) ==> Fields(s.mutexes[m], pc, t) && Owner(s, m) == OwnerAt(s.mutexes[m], pc, t))
            && (s.mutexes[m].spin == -1 ==> Consistent(s.mutexes[m]) && Owner(s, m) == s.mutexes[m].holding)
            && (m in s.threads[t].held <==> Owner(s, m) == t)
  {
    hide Fields, OwnerAt;
  }

  lemma AdvanceShape(s: State, t: nat)
    requires t < |s.threads| && s.threads[t].call.Call? && s.threads[t].call.m < |s.mutexes|
    ensures var m := s.threads[t].call.m;
            var r := Advance(s, t, t);
            && |r.threads| == |s.threads| && |r.mutexes| == |s.mutexes|
            && r == State(s.mutexes[m := r.mutexes[m]], r.table, s.threads[t := r.threads[t]])
  {}

  lemma LockChange(s: State, t: nat)
    requires Inv(s)
    requires t < |s.threads| && s.threads[t].call.Call? && LockPc(s.threads[t].call.pc)
    ensures s.threads[t].call.m < |s.mutexes|
    ensures var m := s.threads[t].call.m;
            var r := Advance(s, t, t);
            && |r.threads| == |s.threads| && |r.mutexes| == |s.mutexes|
            && (r != s ==> LocalChange(s, t, m, r.mutexes[m], r.threads[t], r.table))
  {
    hide LocksInv, FieldsInv, OwnersInv, OwnerAt;
    InCall(s, t);
  }

  lemma UnlockChange(s: State, t: nat)
    requires Inv(s)
    requires t < |s.threads| && s.threads[t].call.Call? && !LockPc(s.threads[t].call.pc)
    ensures s.threads[t].call.m < |s.mutexes|
    ensures var m := s.threads[t].call.m;
            var r := Advance(s, t, t);
            && |r.threads| == |s.threads| && |r.mutexes| == |s.mutexes|
            && (r != s ==> LocalChange(s, t, m, r.mutexes[m], r.threads[t], r.table))
  {
    hide LocksInv, FieldsInv, OwnersInv, OwnerAt;
    InCall(s, t);
  }

  lemma AdvanceOwner(s: State, t: nat)
    requires Inv(s)
    requires t < |s.threads| && s.threads[t].call.Call? && s.threads[t].call.m < |s.mutexes|
    requires |Advance(s, t, t).threads| == |s.threads| && |Advance(s, t, t).mutexes| == |s.mutexes|
    ensures var m := s.threads[t].call.m;
            var r := Advance(s, t, t);
            var o := Owner(r, m);
            && (m in r.threads[t].held <==> o == t)
            && (o == Owner(s, m) || (o in {-1, t as int} && Owner(s, m) in {-1, t as int}))
  {
    hide LocksInv, FieldsInv, OwnersInv;
    InCall(s, t);
  }

  lemma AdvanceLocal(s: State, t: nat)
    requires Inv(s)
    requires t < |s.threads| && s.threads[t].call.Call?
    ensures Inv(Advance(s, t, t))
  {
    hide Inv, LocalChange, Advance, Owner;
    if LockPc(s.threads[t].call.pc) { LockChange(s, t); } else { UnlockChange(s, t); }
    AdvanceShape(s, t);
    AdvanceOwner(s, t);
    var m := s.threads[t].call.m;
    var r := Advance(s, t, t);
    if r != s {
      Local(s, t, m, r.mutexes[m], r.threads[t], r.table);
    }
  }

  lemma AdvanceInv(s: State, t: nat, w: nat)
    requires Inv(s)
    ensures Inv(Advance(s, t, w))
  {
    hide Inv;
    if t < |s.threads| && s.threads[t].call.Call? && s.threads[t].call.m < |s.mutexes| {
      if s.threads[t].call.pc == UWake && w != t {
        WakeInv(s, w);
        AdvanceLocal(Wake(s, w), t);
      } else {
        AdvanceLocal(s, t);
      }
    }
  }

  // ---- What a call does ------------------------------------------------------------------

  /** One step of a call, as its own thread sees it: the call goes on, or it returns. A lock call
      fails exactly on a mutex the thread already holds, an unlock call on one it does not. */
  predicate CallStep(th: Thread, th': Thread)
    requires th.call.Call?
  {
    if th'.call.Call? then
      && th'.call.m == th.call.m && (LockPc(th'.call.pc) <==> LockPc(th.call.pc)) && th'.held == th.held
      && th'.ret == th.ret
    else if LockPc(th.call.pc) then
      if th'.ret == 0 then th'.held == th.held + {th.call.m}
      else th'.ret == -1 && th'.held == th.held && th.call.m in th.held
    else
      if th'.ret == 0 then th.call.m in th.held && th'.held == th.held - {th.call.m}
      else th'.ret == -1 && th'.held == th.held && th.call.m !in th.held
  }

  /** Another thread sees at most its own wake-up. */
  predicate OthersStep(th: Thread, th': Thread) {
    th' == th || (th.call.Call? && th.call.pc == LAsleep && th' == th.(call := Call(th.call.m, LReacquire)))
  }

  lemma AdvanceEffect(s: State, t: nat, w: nat)
    requires Inv(s) && t < |s.threads| && s.threads[t].call.Call?
    ensures var r := Advance(s, t, w);
            && |r.threads| == |s.threads| && |r.mutexes| == |s.mutexes|
            && CallStep(s.threads[t], r.threads[t])
            && forall u :: 0 <= u < |s.threads| && u != t ==> OthersStep(s.threads[u], r.threads[u])
  {
    hide LocksInv, FieldsInv, OwnersInv;
    InCall(s, t);
    Holder(s, t);
  }

  /** The unlocked read of m->holding at proc.c:876 already tells the truth about the reader. */
  lemma Holder(s: State, t: nat)
    requires Inv(s) && t < |s.threads| && s.threads[t].call.Call?
    ensures s.threads[t].call.m < |s.mutexes|
    ensures !SpinPc(s.threads[t].call.pc) ==>
              (s.mutexes[s.threads[t].call.m].holding == t <==> s.threads[t].call.m in s.threads[t].held)
  {
    var m := s.threads[t].call.m;
    assert m in s.threads[t].held <==> Owner(s, m) == t;
  }

  // ---- Runs ------------------------------------------------------------------------------

  datatype Action = DoStart(t: nat, m: nat, lock: bool) | DoAdvance(t: nat, w: nat) | DoWake(t: nat)

  function Step(s: State, a: Action): State {
    match a
    case DoStart(t, m, lock) => Start(s, t, m, lock)
    case DoAdvance(t, w) => Advance(s, t, w)
    case DoWake(t) => Wake(s, t)
  }

  function Run(s: State, acts: seq<Action>): State {
    if acts == [] then s else Step(Run(s, acts[..|acts| - 1]), acts[|acts| - 1])
  }

  function Initial(mutexes: nat, threads: nat): State {
    State(seq(mutexes, i => Mutex(0, OPEN, -1, -1)), -1, seq(threads, i => Thread({}, NoCall, 0)))
  }

  lemma {:induction false} RunInv(mutexes: nat, threads: nat, acts: seq<Action>)
    ensures Inv(Run(Initial(mutexes, threads), acts))
  {
    hide Inv;
    if acts == [] {
      InitialInv(mutexes, threads);
    } else {
      RunInv(mutexes, threads, acts[..|acts| - 1]);
      var s := Run(Initial(mutexes, threads), acts[..|acts| - 1]);
      match acts[|acts| - 1]
      case DoStart(t, m, lock) => StartInv(s, t, m, lock);
      case DoAdvance(t, w) => AdvanceInv(s, t, w);
      case DoWake(t) => WakeInv(s, t);
    }
  }

  lemma InitialInv(mutexes: nat, threads: nat)
    ensures Inv(Initial(mutexes, threads))
  {}

  /** On every run and whatever the clients do: whenever mutexLock is free, lock, state and holding
      agree, and holding names the one thread whose lock call returned 0 without a matching
      unlock; and at all times at most one thread is such. */
  lemma MutexConsistent(mutexes: nat, threads: nat, acts: seq<Action>)
    ensures var s := Run(Initial(mutexes, threads), acts);
            forall m :: 0 <= m < |s.mutexes| ==>
              && (s.mutexes[m].spin == -1 ==>
                    && Consistent(s.mutexes[m])
                    && forall t :: 0 <= t < |s.threads| ==> (m in s.threads[t].held <==> s.mutexes[m].holding == t))
              && forall t, u ::
                   0 <= t < |s.threads| && 0 <= u < |s.threads| && m in s.threads[t].held && m in s.threads[u].held ==>
                     t == u
  {
    RunInv(mutexes, threads, acts);
    var s := Run(Initial(mutexes, threads), acts);
    forall m | 0 <= m < |s.mutexes|
      ensures s.mutexes[m].spin == -1 ==>
                && Consistent(s.mutexes[m])
                && forall t :: 0 <= t < |s.threads| ==> (m in s.threads[t].held <==> s.mutexes[m].holding == t)
      ensures forall t, u ::
                0 <= t < |s.threads| && 0 <= u < |s.threads| && m in s.threads[t].held && m in s.threads[u].held ==>
                  t == u
    {
      Exclusive(s, m);
    }
  }

  lemma Exclusive(s: State, m: nat)
    requires Inv(s) && m < |s.mutexes|
    ensures s.mutexes[m].spin == -1 ==> Consistent(s.mutexes[m])
    ensures s.mutexes[m].spin == -1 ==>
              forall t :: 0 <= t < |s.threads| ==> (m in s.threads[t].held <==> s.mutexes[m].holding == t)
    ensures forall t, u ::
              0 <= t < |s.threads| && 0 <= u < |s.threads| && m in s.threads[t].held && m in s.threads[u].held ==>
                t == u
  {
    assert forall t :: 0 <= t < |s.threads| ==> (m in s.threads[t].held <==> Owner(s, m) == t);
  }
}
