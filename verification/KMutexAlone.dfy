/** Whole calls of kthread_mutex_lock and kthread_mutex_unlock by a thread nobody interrupts, from any state in
    which the spinlocks it needs are free: how many steps they take and exactly what they leave. */
module KMutexAlone {
  import opened KMutex

  /** k steps of thread t; w is the sleeper that an unlock would see first. */
  function Steps(s: State, t: nat, w: nat, k: nat): State {
    if k == 0 then s else Advance(Steps(s, t, w, k - 1), t, w)
  }

  /** Thread t is about to do `pc` of a call on m, with mtable.lock and m's mutexLock free. */
  predicate Begins(s: State, t: nat, m: nat, pc: Pc) {
    && t < |s.threads| && m < |s.mutexes| && s.table == -1 && s.mutexes[m].spin == -1
    && s.threads[t].call == Call(m, pc)
  }

  predicate Open(mu: Mutex) { mu.lock == 0 && mu.state == OPEN && mu.holding == -1 }

  /** m as t leaves it after locking it. */
  function Locked(t: nat): Mutex { Mutex(1, CLOSE, t, -1) }

  function Returned(s: State, t: nat, m: nat, mu: Mutex, held: set<nat>, ret: int): State
    requires t < |s.threads| && m < |s.mutexes|
  {
    s.(mutexes := s.mutexes[m := mu], threads := s.threads[t := Thread(held, NoCall, ret)])
  }

  /** The state with thread t at pc of its call on m, and m's fields and mtable.lock as given. */
  function With(s: State, t: nat, m: nat, mu: Mutex, table: int, pc: Pc): State
    requires t < |s.threads| && m < |s.mutexes|
  {
    State(s.mutexes[m := mu], table, s.threads[t := s.threads[t].(call := Call(m, pc))])
  }

  /** An open mutex is locked in eight steps: 0 is returned, the caller is its holder, and nothing else
      changes. */
  lemma LockAlone(s: State, t: nat, m: nat, w: nat)
    requires Begins(s, t, m, LTable) && Open(s.mutexes[m])
    ensures Steps(s, t, w, 8) == Returned(s, t, m, Locked(t), s.threads[t].held + {m}, 0)
  {
    hide Steps;
    var mu := s.mutexes[m];
    StepsNone(s, t, w);
    assert Steps(s, t, w, 1) == With(s, t, m, mu, t, LCheck) by { OneMore(s, t, w, 0); }
    assert Steps(s, t, w, 2) == With(s, t, m, mu, t, LSpin) by { OneMore(s, t, w, 1); }
    assert Steps(s, t, w, 3) == With(s, t, m, mu.(spin := t), t, LSpun) by { OneMore(s, t, w, 2); }
    assert Steps(s, t, w, 4) == With(s, t, m, mu.(spin := t), -1, LXchg) by { OneMore(s, t, w, 3); }
    assert Steps(s, t, w, 5) == With(s, t, m, mu.(spin := t, lock := 1), -1, LClose) by { OneMore(s, t, w, 4); }
    FinishLock(s, t, m, w, 5);
  }

  /** The end of every successful lock call. */
  lemma FinishLock(s: State, t: nat, m: nat, w: nat, k: nat)
    requires t < |s.threads| && m < |s.mutexes| && Open(s.mutexes[m])
    requires Steps(s, t, w, k) == With(s, t, m, s.mutexes[m].(spin := t, lock := 1), -1, LClose) && s.table == -1
    ensures Steps(s, t, w, k + 3) == Returned(s, t, m, Locked(t), s.threads[t].held + {m}, 0)
  {
    hide Steps;
    var mu := s.mutexes[m];
    assert Steps(s, t, w, k + 1) == With(s, t, m, mu.(spin := t, lock := 1, state := CLOSE), -1, LHold) by {
      OneMore(s, t, w, k);
    }
    assert Steps(s, t, w, k + 2) == With(s, t, m, Mutex(1, CLOSE, t, t), -1, LRelease) by { OneMore(s, t, w, k + 1); }
    OneMore(s, t, w, k + 2);
  }

  lemma OneMore(s: State, t: nat, w: nat, k: nat)
    ensures Steps(s, t, w, k + 1) == Advance(Steps(s, t, w, k), t, w)
  {}

  lemma StepsNone(s: State, t: nat, w: nat)
    ensures Steps(s, t, w, 0) == s
  {}

  /** A mutex its caller already holds is refused in two steps. */
  lemma LockRefused(s: State, t: nat, m: nat, w: nat)
    requires Begins(s, t, m, LTable) && s.mutexes[m].holding == t
    ensures Steps(s, t, w, 2) == s.(threads := s.threads[t := Thread(s.threads[t].held, NoCall, -1)])
  {
    hide Steps;
    StepsNone(s, t, w);
    assert Steps(s, t, w, 1) == With(s, t, m, s.mutexes[m], t, LCheck) by { OneMore(s, t, w, 0); }
    OneMore(s, t, w, 1);
  }

  /** A mutex another thread holds puts its caller to sleep in six steps, with every spinlock free again and the
      mutex as it was. */
  lemma LockSleeps(s: State, t: nat, m: nat, w: nat)
    requires Begins(s, t, m, LTable) && s.mutexes[m].lock == 1 && s.mutexes[m].holding != t
    ensures Steps(s, t, w, 6) == With(s, t, m, s.mutexes[m], -1, LAsleep)
  {
    hide Steps;
    var mu := s.mutexes[m];
    StepsNone(s, t, w);
    assert Steps(s, t, w, 1) == With(s, t, m, mu, t, LCheck) by { OneMore(s, t, w, 0); }
    assert Steps(s, t, w, 2) == With(s, t, m, mu, t, LSpin) by { OneMore(s, t, w, 1); }
    assert Steps(s, t, w, 3) == With(s, t, m, mu.(spin := t), t, LSpun) by { OneMore(s, t, w, 2); }
    assert Steps(s, t, w, 4) == With(s, t, m, mu.(spin := t), -1, LXchg) by { OneMore(s, t, w, 3); }
    assert Steps(s, t, w, 5) == With(s, t, m, mu.(spin := t), -1, LSleep) by { OneMore(s, t, w, 4); }
    OneMore(s, t, w, 5);
  }

  /** A woken thread that finds the mutex open has it in five steps. */
  lemma WokenLocks(s: State, t: nat, m: nat, w: nat)
    requires Begins(s, t, m, LReacquire) && Open(s.mutexes[m])
    ensures Steps(s, t, w, 5) == Returned(s, t, m, Locked(t), s.threads[t].held + {m}, 0)
  {
    hide Steps;
    var mu := s.mutexes[m];
    StepsNone(s, t, w);
    assert Steps(s, t, w, 1) == With(s, t, m, mu.(spin := t), -1, LXchg) by { OneMore(s, t, w, 0); }
    assert Steps(s, t, w, 2) == With(s, t, m, mu.(spin := t, lock := 1), -1, LClose) by { OneMore(s, t, w, 1); }
    FinishLock(s, t, m, w, 2);
  }

  /** The holder unlocks its mutex in nine steps: 0 is returned, the mutex is open, and the sleeper the scan
      finds is made runnable. */
  lemma UnlockAlone(s: State, t: nat, m: nat, w: nat)
    requires Begins(s, t, m, UTable) && s.mutexes[m].state == CLOSE && s.mutexes[m].holding == t
    ensures var s' := if w != t then Wake(s, w) else s;
            Steps(s, t, w, 9) == Returned(s', t, m, Mutex(0, OPEN, -1, -1), s.threads[t].held - {m}, 0)
  {
    hide Steps;
    var mu := s.mutexes[m].(spin := t);
    StepsNone(s, t, w);
    assert Steps(s, t, w, 1) == With(s, t, m, s.mutexes[m], t, USpin) by { OneMore(s, t, w, 0); }
    assert Steps(s, t, w, 2) == With(s, t, m, mu, t, USpun) by { OneMore(s, t, w, 1); }
    assert Steps(s, t, w, 3) == With(s, t, m, mu, -1, UCheck) by { OneMore(s, t, w, 2); }
    assert Steps(s, t, w, 4) == With(s, t, m, mu, -1, UUnlock) by { OneMore(s, t, w, 3); }
    assert Steps(s, t, w, 5) == With(s, t, m, mu.(lock := 0), -1, UOpen) by { OneMore(s, t, w, 4); }
    assert Steps(s, t, w, 6) == With(s, t, m, mu.(lock := 0, state := OPEN), -1, UClear) by { OneMore(s, t, w, 5); }
    assert Steps(s, t, w, 7) == With(s, t, m, Mutex(0, OPEN, -1, t), -1, UWake) by { OneMore(s, t, w, 6); }
    WakeThenRelease(s, t, m, w);
  }

  lemma WakeThenRelease(s: State, t: nat, m: nat, w: nat)
    requires t < |s.threads| && m < |s.mutexes| && s.table == -1
    requires Steps(s, t, w, 7) == With(s, t, m, Mutex(0, OPEN, -1, t), -1, UWake)
    ensures var s' := if w != t then Wake(s, w) else s;
            Steps(s, t, w, 9) == Returned(s', t, m, Mutex(0, OPEN, -1, -1), s.threads[t].held - {m}, 0)
  {
    hide Steps;
    var s' := if w != t then Wake(s, w) else s;
    assert Steps(s, t, w, 8) == With(s', t, m, Mutex(0, OPEN, -1, t), -1, URelease) by { OneMore(s, t, w, 7); }
    OneMore(s, t, w, 8);
  }

  /** An unlock by anyone else is refused in five steps and changes nothing. */
  lemma UnlockRefused(s: State, t: nat, m: nat, w: nat)
    requires Begins(s, t, m, UTable) && (s.mutexes[m].state != CLOSE || s.mutexes[m].holding != t)
    ensures Steps(s, t, w, 5) == s.(threads := s.threads[t := Thread(s.threads[t].held, NoCall, -1)])
  {
    hide Steps;
    var mu := s.mutexes[m].(spin := t);
    StepsNone(s, t, w);
    assert Steps(s, t, w, 1) == With(s, t, m, s.mutexes[m], t, USpin) by { OneMore(s, t, w, 0); }
    assert Steps(s, t, w, 2) == With(s, t, m, mu, t, USpun) by { OneMore(s, t, w, 1); }
    assert Steps(s, t, w, 3) == With(s, t, m, mu, -1, UCheck) by { OneMore(s, t, w, 2); }
    assert Steps(s, t, w, 4) == With(s, t, m, mu, -1, UFail) by { OneMore(s, t, w, 3); }
    OneMore(s, t, w, 4);
    assert s.mutexes[m := s.mutexes[m]] == s.mutexes;
  }
}
