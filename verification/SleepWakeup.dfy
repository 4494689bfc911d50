/** sleep, wakeup and kill of proc.c over any number of processes, channels and locks.

    A channel stands for a condition that is tested and changed under a lock, and
    one lock may guard many of them, as the pipe's lock, the buffer cache's, the inode
    cache's and the log's do. A step is one statement of one process; locks are atomic
    primitives. ptable.lock passes from a process that calls sched to the scheduler,
    and from the scheduler to the process it runs. */
module SleepWakeup {
  import opened Options

  datatype Holder = Free | Scheduler | Process(p: nat)

  /** `owed` are the channels whose condition a process made true and for which it has
      yet to call wakeup. */
  datatype Pc =
    | Out(owed: set<nat>)
    /** holding lock l, free to test and change the conditions it guards */
    | InLock(l: nat, owed: set<nat>)
    /** in sleep on channel c: waiting for ptable.lock, holding both locks, the
        condition's lock released, and at last SLEEPING */
    | WantTable(c: nat) | HaveBoth(c: nat) | Marking(c: nat) | Asleep(c: nat)
    /** RUNNABLE; then running again with ptable.lock; then waiting for the
        condition's lock */
    | Runnable(c: nat) | Resumed(c: nat) | WantLock(c: nat)
    /** in wakeup's loop for channel c at slot k, holding ptable.lock, and `held` if
        it is called inside a critical section */
    | Waking(c: nat, k: nat, held: Option<nat>, owed: set<nat>)

  datatype State = State(table: Holder, lk: seq<Option<nat>>, cond: seq<bool>, pc: seq<Pc>)

  /** The number of processes and locks, and the lock that guards each channel. */
  datatype Config = Config(n: nat, locks: nat, lockOf: seq<nat>) {
    predicate Valid() { forall c :: 0 <= c < |lockOf| ==> lockOf[c] < locks }

    /** Channel c, guarded by lock l. */
    predicate Guards(l: nat, c: nat) { c < |lockOf| && lockOf[c] == l }
  }

  predicate PcOk(g: Config, pc: Pc) {
    match pc
    case Out(owed) => forall c :: c in owed ==> c < |g.lockOf|
    case InLock(l, owed) => l < g.locks && forall c :: c in owed ==> c < |g.lockOf|
    case Waking(c, _, held, owed) =>
      && c < |g.lockOf| && (held.Some? ==> held.value < g.locks) && (forall d :: d in owed ==> d < |g.lockOf|)
    case _ => pc.c < |g.lockOf|
  }

  predicate Shaped(g: Config, s: State) {
    && g.Valid() && |s.pc| == g.n && |s.lk| == g.locks && |s.cond| == |g.lockOf|
    && forall p :: 0 <= p < g.n ==> PcOk(g, s.pc[p])
  }

  datatype Action =
    | Acquire(l: nat) | Release | SetTrue(c: nat) | SetFalse(c: nat) | SetTrueUnlocked(c: nat)
    | TestFalse(c: nat) | LockTable | DropLock | GoToSleep | Tidy | Relock
    | StartWake(c: nat) | WakeNext

  /** What process p can do next; None if it has to wait or the action does not fit
      where it is. wakeup may be called without a change before it; a process that
      goes to sleep owes nobody a wakeup. */
  function Do(g: Config, s: State, p: nat, a: Action): (r: Option<State>)
    requires Shaped(g, s) && p < g.n
  {
    match (s.pc[p], a)
    case (Out(owed), Acquire(l)) =>
      if l < g.locks && s.lk[l].None?
      then Some(State(s.table, s.lk[l := Some(p)], s.cond, s.pc[p := InLock(l, owed)])) else None
    case (Out(owed), SetTrueUnlocked(c)) =>
      if c < |g.lockOf| then Some(State(s.table, s.lk, s.cond[c := true], s.pc[p := Out(owed + {c})])) else None
    case (InLock(l, owed), Release) => Some(State(s.table, s.lk[l := None], s.cond, s.pc[p := Out(owed)]))
    case (InLock(l, owed), SetTrue(c)) =>
      if g.Guards(l, c) then Some(State(s.table, s.lk, s.cond[c := true], s.pc[p := InLock(l, owed + {c})])) else None
    case (InLock(l, owed), SetFalse(c)) =>
      if g.Guards(l, c) then Some(State(s.table, s.lk, s.cond[c := false], s.pc)) else None
    case (InLock(l, owed), TestFalse(c)) =>
      if g.Guards(l, c) && !s.cond[c] && owed == {} then Some(Goto(s, p, WantTable(c))) else None
    case (WantTable(c), LockTable) =>
      if s.table.Free? then Some(State(Process(p), s.lk, s.cond, s.pc[p := HaveBoth(c)])) else None
    case (HaveBoth(c), DropLock) => Some(State(s.table, s.lk[g.lockOf[c] := None], s.cond, s.pc[p := Marking(c)]))
    case (Marking(c), GoToSleep) => Some(State(Scheduler, s.lk, s.cond, s.pc[p := Asleep(c)]))
    case (Resumed(c), Tidy) => Some(State(Free, s.lk, s.cond, s.pc[p := WantLock(c)]))
    case (WantLock(c), Relock) =>
      var l := g.lockOf[c];
      if s.lk[l].None? then Some(State(s.table, s.lk[l := Some(p)], s.cond, s.pc[p := InLock(l, {})])) else None
    case (Out(owed), StartWake(c)) =>
      if s.table.Free? && c < |g.lockOf|
      then Some(State(Process(p), s.lk, s.cond, s.pc[p := Waking(c, 0, None, owed - {c})])) else None
    case (InLock(l, owed), StartWake(c)) =>
      if s.table.Free? && c < |g.lockOf|
      then Some(State(Process(p), s.lk, s.cond, s.pc[p := Waking(c, 0, Some(l), owed - {c})])) else None
    case (Waking(c, k, held, owed), WakeNext) =>
      if k < g.n then
        Some(State(s.table, s.lk, s.cond,
                   (if s.pc[k] == Asleep(c) then s.pc[k := Runnable(c)] else s.pc)[p := Waking(c, k + 1, held, owed)]))
      else Some(State(Free, s.lk, s.cond, s.pc[p := if held.Some? then InLock(held.value, owed) else Out(owed)]))
    case _ => None
  }

  function Goto(s: State, p: nat, pc: Pc): (r: State)
    requires p < |s.pc|
  {
    State(s.table, s.lk, s.cond, s.pc[p := pc])
  }

  /** The scheduler takes or drops ptable.lock, or runs process p; kill(p) makes a
      sleeper runnable while it briefly holds ptable.lock. */
  ghost predicate SchedulerStep(g: Config, s: State, p: nat, t: State)
    requires Shaped(g, s)
  {
    || (s.table.Free? && t == State(Scheduler, s.lk, s.cond, s.pc))
    || (s.table.Scheduler? && t == State(Free, s.lk, s.cond, s.pc))
    || (s.table.Scheduler? && p < g.n && s.pc[p].Runnable? &&
        t == State(Process(p), s.lk, s.cond, s.pc[p := Resumed(s.pc[p].c)]))
    || (s.table.Free? && p < g.n && s.pc[p].Asleep? && t == Goto(s, p, Runnable(s.pc[p].c)))
  }

  ghost predicate Step(g: Config, s: State, p: nat, a: Action, t: State) {
    Shaped(g, s) && ((p < g.n && Do(g, s, p, a) == Some(t)) || SchedulerStep(g, s, p, t))
  }

  // -------------------------------------------------------------- invariants

  predicate HoldsLock(g: Config, pc: Pc, l: nat) {
    || (pc.InLock? && pc.l == l)
    || ((pc.WantTable? || pc.HaveBoth?) && g.Guards(l, pc.c))
    || (pc.Waking? && pc.held == Some(l))
  }

  predicate HoldsTable(pc: Pc) {
    pc.HaveBoth? || pc.Marking? || pc.Resumed? || pc.Waking?
  }

  predicate LocksOk(g: Config, s: State, p: nat)
    requires Shaped(g, s) && p < g.n
  {
    && (s.table == Process(p) <==> HoldsTable(s.pc[p]))
    && (forall l :: 0 <= l < g.locks ==> (s.lk[l] == Some(p) <==> HoldsLock(g, s.pc[p], l)))
  }

  /** Process p has tested channel c's condition and is about to sleep on it. */
  predicate InWindow(pc: Pc, c: nat) {
    (pc.WantTable? || pc.HaveBoth?) && pc.c == c
  }

  /** Between the test and ptable.lock the condition is still false. */
  predicate TestedFalse(s: State, p: nat)
    requires p < |s.pc|
  {
    s.pc[p].WantTable? || s.pc[p].HaveBoth? ==> s.pc[p].c < |s.cond| && !s.cond[s.pc[p].c]
  }

  /** Process q still owes channel c a wakeup that will reach slot p. */
  predicate Owes(s: State, q: nat, c: nat, p: nat)
    requires q < |s.pc|
  {
    var pc := s.pc[q];
    || ((pc.Out? || pc.InLock? || pc.Waking?) && c in pc.owed)
    || (pc.Waking? && pc.c == c && pc.k <= p)
  }

  ghost predicate WakeupDue(s: State, c: nat, p: nat) {
    exists q :: 0 <= q < |s.pc| && Owes(s, q, c, p)
  }

  /** A process that sleeps, or is about to, on a true condition is owed a wakeup. */
  ghost predicate NotForgotten(s: State, p: nat)
    requires p < |s.pc|
  {
    (s.pc[p].Asleep? || s.pc[p].Marking?) && s.pc[p].c < |s.cond| && s.cond[s.pc[p].c] ==> WakeupDue(s, s.pc[p].c, p)
  }

  ghost predicate Inv(g: Config, s: State) {
    && Shaped(g, s)
    && (s.table.Process? ==> s.table.p < g.n)
    && forall p :: 0 <= p < g.n ==> LocksOk(g, s, p) && TestedFalse(s, p) && NotForgotten(s, p)
  }

  lemma StepShaped(g: Config, s: State, p: nat, a: Action, t: State)
    requires Step(g, s, p, a, t)
    ensures Shaped(g, t)
    ensures t.table != s.table && t.table.Process? ==> t.table.p < g.n
  {
  }

  lemma DoLocks(g: Config, s: State, p: nat, a: Action, t: State, q: nat)
    requires Shaped(g, s) && Shaped(g, t) && p < g.n && q < g.n && Do(g, s, p, a) == Some(t)
    requires LocksOk(g, s, q) && LocksOk(g, s, p)
    ensures LocksOk(g, t, q)
  {
  }

  lemma SchedulerLocks(g: Config, s: State, p: nat, t: State, q: nat)
    requires Shaped(g, s) && Shaped(g, t) && SchedulerStep(g, s, p, t) && q < g.n && LocksOk(g, s, q)
    ensures LocksOk(g, t, q)
  {
  }

  /** The step makes a condition true without its lock while a process is about to
      sleep on it. The kernel takes the lock first. */
  ghost predicate Races(g: Config, s: State, t: State) {
    exists p, c, q :: RacesWith(g, s, p, c, q, t)
  }

  ghost predicate RacesWith(g: Config, s: State, p: nat, c: nat, q: nat, t: State) {
    && Shaped(g, s) && p < g.n && q < g.n && InWindow(s.pc[q], c)
    && Do(g, s, p, SetTrueUnlocked(c)) == Some(t)
  }

  lemma StepTested(g: Config, s: State, p: nat, a: Action, t: State, q: nat)
    requires Step(g, s, p, a, t) && !Races(g, s, t) && q < g.n && Shaped(g, t)
    requires LocksOk(g, s, q) && (p < g.n ==> LocksOk(g, s, p)) && TestedFalse(s, q)
    ensures TestedFalse(t, q)
  {
    if s.pc[q].WantTable? || s.pc[q].HaveBoth? {
      var c := s.pc[q].c;
      assert HoldsLock(g, s.pc[q], g.lockOf[c]) && s.lk[g.lockOf[c]] == Some(q);
      if p < g.n && a == SetTrueUnlocked(c) { assert !RacesWith(g, s, p, c, q, t); }
    }
  }

  /** A wakeup that is due stays due until it reaches its sleeper. */
  lemma StepOwes(g: Config, s: State, p: nat, a: Action, t: State, r: nat, q: nat)
    requires Step(g, s, p, a, t) && Shaped(g, t) && r < g.n && q < g.n && s.pc[q].Asleep? && Owes(s, r, s.pc[q].c, q)
    ensures t.pc[q] != s.pc[q] || Owes(t, r, s.pc[q].c, q)
  {
  }

  lemma StepOwesMarking(g: Config, s: State, p: nat, a: Action, t: State, r: nat, q: nat)
    requires Step(g, s, p, a, t) && Shaped(g, t) && r < g.n && q < g.n && s.pc[q].Marking? && Owes(s, r, s.pc[q].c, q)
    requires LocksOk(g, s, q) && LocksOk(g, s, r)
    ensures Owes(t, r, s.pc[q].c, q)
  {
  }

  lemma StepNotForgotten(g: Config, s: State, p: nat, a: Action, t: State, q: nat)
    requires Inv(g, s) && Step(g, s, p, a, t) && Shaped(g, t) && q < g.n
    ensures NotForgotten(t, q)
  {
    assert LocksOk(g, s, q) && TestedFalse(s, q) && NotForgotten(s, q);
    if (t.pc[q].Asleep? || t.pc[q].Marking?) && t.cond[t.pc[q].c] {
      var c := t.pc[q].c;
      if !s.cond[c] {
        assert Owes(t, p, c, q);
      } else {
        assert (s.pc[q].Asleep? || s.pc[q].Marking?) && s.pc[q].c == c;
        var r :| 0 <= r < g.n && Owes(s, r, c, q);
        assert LocksOk(g, s, r);
        if s.pc[q].Asleep? { StepOwes(g, s, p, a, t, r, q); } else { StepOwesMarking(g, s, p, a, t, r, q); }
        assert Owes(t, r, c, q);
      }
    }
  }

  /** Every step keeps the invariant, unless it races with a process about to sleep. */
  lemma StepInv(g: Config, s: State, p: nat, a: Action, t: State)
    requires Inv(g, s) && Step(g, s, p, a, t) && !Races(g, s, t)
    ensures Inv(g, t)
  {
    StepShaped(g, s, p, a, t);
    forall q | 0 <= q < g.n ensures LocksOk(g, t, q) && TestedFalse(t, q) && NotForgotten(t, q) {
      assert LocksOk(g, s, q) && TestedFalse(s, q);
      if p < g.n { assert LocksOk(g, s, p); }
      if SchedulerStep(g, s, p, t) { SchedulerLocks(g, s, p, t, q); } else { DoLocks(g, s, p, a, t, q); }
      StepTested(g, s, p, a, t, q);
      StepNotForgotten(g, s, p, a, t, q);
    }
  }

  // -------------------------------------------------------------------- runs

  predicate IsInit(g: Config, s: State) {
    && Shaped(g, s) && s.table.Free?
    && (forall l :: 0 <= l < g.locks ==> s.lk[l].None?)
    && (forall p :: 0 <= p < g.n ==> s.pc[p] == Out({}))
  }

  ghost predicate Advance(g: Config, s: State, t: State) {
    exists p, a :: Step(g, s, p, a, t)
  }

  ghost predicate Run(g: Config, run: seq<State>) {
    run != [] && IsInit(g, run[0]) && forall k :: 0 < k < |run| ==> Advance(g, run[k - 1], run[k])
  }

  ghost predicate NoRace(g: Config, run: seq<State>, k: nat)
    requires k < |run|
  {
    forall j :: 0 < j <= k ==> !Races(g, run[j - 1], run[j])
  }

  lemma {:induction false} RunInv(g: Config, run: seq<State>, k: nat)
    requires Run(g, run) && k < |run| && NoRace(g, run, k)
    ensures Inv(g, run[k])
  {
    if k > 0 {
      RunInv(g, run, k - 1);
      assert Advance(g, run[k - 1], run[k]);
      var p, a :| Step(g, run[k - 1], p, a, run[k]);
      StepInv(g, run[k - 1], p, a, run[k]);
    }
  }

  /** Process p is SLEEPING on a condition that holds, and no process is between
      making it true and finishing the wakeup. */
  ghost predicate LostWakeup(s: State, p: nat) {
    p < |s.pc| && s.pc[p].Asleep? && s.pc[p].c < |s.cond| && s.cond[s.pc[p].c] && !WakeupDue(s, s.pc[p].c, p)
  }

  /** No wakeup is ever lost, for any number of processes, locks and channels under
      each lock, as long as no condition is made true without its lock while a process
      is about to sleep on it. */
  lemma NoLostWakeup(g: Config, run: seq<State>, k: nat, p: nat)
    requires Run(g, run) && k < |run| && NoRace(g, run, k)
    ensures !LostWakeup(run[k], p)
  {
    RunInv(g, run, k);
    if p < g.n { assert NotForgotten(run[k], p); }
  }

  // ----------------------------------------------------------------- the race

  lemma RunDo(g: Config, run: seq<State>, p: nat, a: Action) returns (t: State)
    requires Run(g, run) && Shaped(g, run[|run| - 1]) && p < g.n && Do(g, run[|run| - 1], p, a).Some?
    ensures t == Do(g, run[|run| - 1], p, a).value && Shaped(g, t) && Run(g, run + [t])
  {
    t := Do(g, run[|run| - 1], p, a).value;
    assert Step(g, run[|run| - 1], p, a, t);
    assert Advance(g, run[|run| - 1], t);
    StepShaped(g, run[|run| - 1], p, a, t);
  }

  /** Process 0 is about to take ptable.lock to go to sleep, and process 1 is in
      wakeup's loop for the same channel. */
  predicate TooEarly(g: Config, s: State, k: nat) {
    && Shaped(g, s) && g.n >= 2 && |g.lockOf| >= 1 && s.table == Process(1) && s.cond[0]
    && s.pc[0] == WantTable(0) && s.pc[1] == Waking(0, k, None, {}) && OthersOut(s)
  }

  predicate OthersOut(s: State) { forall q :: 2 <= q < |s.pc| ==> s.pc[q] == Out({}) }

  predicate Woke(g: Config, s: State) {
    && Shaped(g, s) && g.n >= 2 && |g.lockOf| >= 1 && s.table.Free? && s.cond[0]
    && s.pc[0] == WantTable(0) && s.pc[1] == Out({}) && OthersOut(s)
  }

  /** wakeup's loop runs to its end and finds process 0 not asleep. */
  lemma {:induction false} WakeLoop(g: Config, run: seq<State>, k: nat) returns (more: seq<State>)
    requires Run(g, run) && TooEarly(g, run[|run| - 1], k) && k <= g.n
    ensures Run(g, more) && Woke(g, more[|more| - 1])
    decreases g.n - k
  {
    var t := RunDo(g, run, 1, WakeNext);
    more := run + [t];
    if k < g.n { more := WakeLoop(g, more, k + 1); }
  }

  /** Process 0 has tested the condition under the lock. */
  lemma Tested(g: Config) returns (run: seq<State>)
    requires g.Valid() && g.n >= 2 && |g.lockOf| >= 1
    ensures Run(g, run) && Shaped(g, run[|run| - 1])
    ensures var s := run[|run| - 1]; s.table.Free? && s.pc[0] == WantTable(0) && s.pc[1] == Out({}) && OthersOut(s)
  {
    var s0 := State(Free, seq(g.locks, _ => None), seq(|g.lockOf|, _ => false), seq(g.n, _ => Out({})));
    run := [s0];
    var s1 := RunDo(g, run, 0, Acquire(g.lockOf[0]));
    run := run + [s1];
    var s2 := RunDo(g, run, 0, TestFalse(0));
    run := run + [s2];
  }

  /** Then process 1 makes it true without the lock and finds nobody to wake. */
  lemma WakeupTooEarly(g: Config) returns (run: seq<State>)
    requires g.Valid() && g.n >= 2 && |g.lockOf| >= 1
    ensures Run(g, run) && Woke(g, run[|run| - 1])
  {
    run := Tested(g);
    var s1 := RunDo(g, run, 1, SetTrueUnlocked(0));
    assert s1.pc[1].owed - {0} == {};
    run := run + [s1];
    var s2 := RunDo(g, run, 1, StartWake(0));
    run := run + [s2];
    run := WakeLoop(g, run, 0);
  }

  /** The lock is needed: a process that makes the condition true without it can run
      its whole wakeup between another's test and its going to sleep. */
  lemma LostWithoutLock(g: Config) returns (run: seq<State>)
    requires g.Valid() && g.n >= 2 && |g.lockOf| >= 1
    ensures Run(g, run) && LostWakeup(run[|run| - 1], 0)
  {
    run := WakeupTooEarly(g);
    var t1 := RunDo(g, run, 0, LockTable);
    run := run + [t1];
    var t2 := RunDo(g, run, 0, DropLock);
    run := run + [t2];
    var t3 := RunDo(g, run, 0, GoToSleep);
    run := run + [t3];
    assert forall q :: 1 <= q < |t3.pc| ==> t3.pc[q] == Out({});
  }
}
