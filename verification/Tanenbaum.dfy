/** The Tanenbaum solution of the dining philosophers with its meal barrier, for any
    number of philosophers and meals. Each thread is a program counter over its
    statements; `mutex`, the semaphores and the barrier are atomic primitives. */
module Tanenbaum {
  import opened Arithmetic
  import opened Options

  /** NUM_PHILOSOPHERS, NUM_MEALS and rendezvousPoint. */
  datatype Config = Config(n: nat, m: nat, burst: nat) {
    predicate Valid() { 2 <= n && 1 <= m && 1 <= burst }

    /** tleft and tright */
    function Left(i: nat): (l: nat)
      requires i < n
      ensures l < n && (n >= 2 ==> l != i)
    {
      if i == 0 then n - 1 else i - 1
    }

    function Right(i: nat): (r: nat)
      requires i < n
      ensures r < n && (n >= 2 ==> r != i)
      ensures Left(r) == i
    {
      if i + 1 == n then 0 else i + 1
    }

    lemma Neighbours(i: nat)
      requires i < n
      ensures Left(i) == (i - 1) % n && Right(i) == (i + 1) % n && Right(Left(i)) == i
    {
      DivModUnique(n, (i - 1) / n, (i - 1) % n, if i == 0 then -1 else 0, Left(i));
      DivModUnique(n, (i + 1) / n, (i + 1) % n, if i + 1 == n then 1 else 0, Right(i));
    }
  }

  /** The rendezvous point run_tanenbaum computes. */
  function Setup(n: nat, m: nat): (c: Config)
    requires 2 <= n && 1 <= m
    ensures c.Valid() && c.n == n && c.m == m
    ensures var lo, hi := if m >= n then n else m, if m >= n then m else n;
      c.burst * lo <= hi < (c.burst + 1) * lo
  {
    Config(n, m, if m >= n then m / n else n / m)
  }

  datatype Mood = Thinking | Hungry | Eating

  /** Where a thread is: before a mutex.acquire (Top, WantReset, WantGet, WantPut),
      inside the sections it opens, at the barrier, at phil[i].acquire, eating. */
  datatype Pc =
    | Top | Check
    | Arrive | AtBarrier | WantReset | Reset
    | WantGet | SetHungry | TestSelf | LeaveGet
    | Claim | Eat
    | WantPut | SetThinking | TestRight | TestLeft | LeavePut
    | Done

  datatype State = State(
    mutex: Option<nat>,
    mood: seq<Mood>,
    meals: seq<nat>,
    phil: seq<nat>,
    pc: seq<Pc>,
    iter: seq<nat>,
    /** threads inside the barrier, and whether it has tripped and is emptying */
    inside: nat,
    draining: bool,
    /** meals per philosopher released by trips so far, and each one's share */
    line: nat,
    base: seq<nat>)

  predicate Shaped(c: Config, s: State) {
    |s.mood| == |s.meals| == |s.phil| == |s.pc| == |s.iter| == |s.base| == c.n
  }

  function Init(c: Config): (s: State)
    requires c.Valid()
    ensures Shaped(c, s)
  {
    State(None, seq(c.n, _ => Thinking), seq(c.n, _ => 0), seq(c.n, _ => 0), seq(c.n, _ => Top),
          seq(c.n, _ => 0), 0, false, 0, seq(c.n, _ => 0))
  }

  function Goto(s: State, i: nat, pc: Pc): (r: State)
    requires i < |s.pc|
  {
    s.(pc := s.pc[i := pc])
  }

  /** mutex.acquire */
  function Acquire(s: State, i: nat, pc: Pc): (r: Option<State>)
    requires i < |s.pc|
  {
    if s.mutex.None? then Some(Goto(s, i, pc).(mutex := Some(i))) else None
  }

  function Release(s: State, i: nat, pc: Pc): (r: Option<State>)
    requires i < |s.pc|
  {
    Some(Goto(s, i, pc).(mutex := None))
  }

  /** test(j) */
  function Test(c: Config, s: State, j: nat): (r: State)
    requires Shaped(c, s) && j < c.n
    ensures r == s.(mood := r.mood, phil := r.phil)
  {
    if s.mood[j] == Hungry && s.mood[c.Left(j)] != Eating && s.mood[c.Right(j)] != Eating
    then s.(mood := s.mood[j := Eating], phil := s.phil[j := s.phil[j] + 1])
    else s
  }

  /** The next atomic step of thread `i`, or None if it has to wait. */
  function Next(c: Config, s: State, i: nat): (r: Option<State>)
    requires c.Valid() && Shaped(c, s) && i < c.n
    ensures r.Some? ==> Shaped(c, r.value)
  {
    if Counting(s.pc[i]) then NextCount(c, s, i)
    else if Getting(s.pc[i]) then NextGet(c, s, i)
    else if Serving(s.pc[i]) then NextServe(c, s, i)
    else NextPut(c, s, i)
  }

  predicate Counting(pc: Pc) {
    pc.Top? || pc.Check? || pc.Arrive? || pc.AtBarrier? || pc.WantReset? || pc.Reset?
  }

  predicate Getting(pc: Pc) {
    pc.WantGet? || pc.SetHungry? || pc.TestSelf? || pc.LeaveGet? || pc.Claim? || pc.Eat?
  }

  predicate Serving(pc: Pc) {
    pc.TestRight? || pc.TestLeft?
  }

  predicate Putting(pc: Pc) {
    !Counting(pc) && !Getting(pc) && !Serving(pc)
  }

  /** The start of the loop body: the rendezvous. */
  function NextCount(c: Config, s: State, i: nat): (r: Option<State>)
    requires c.Valid() && Shaped(c, s) && i < c.n && Counting(s.pc[i])
    ensures r.Some? ==> Shaped(c, r.value)
  {
    match s.pc[i]
    case Top => Acquire(s, i, Check)
    case Check => Release(s, i, if s.meals[i] == c.burst then Arrive else WantGet)
    case Arrive =>
      if s.draining then None
      else
        var r := Goto(s, i, AtBarrier);
        Some(if s.inside + 1 == c.n
             then r.(inside := c.n, draining := true, line := s.line + c.burst)
             else r.(inside := s.inside + 1))
    case AtBarrier =>
      if !s.draining || s.inside == 0 then None
      else Some(Goto(s, i, WantReset).(inside := s.inside - 1, draining := s.inside != 1))
    case WantReset => Acquire(s, i, Reset)
    case Reset =>
      Release(s.(meals := s.meals[i := 0], base := s.base[i := s.base[i] + c.burst]), i, WantGet)
  }

  /** tget_forks and the meal. */
  function NextGet(c: Config, s: State, i: nat): (r: Option<State>)
    requires c.Valid() && Shaped(c, s) && i < c.n && Getting(s.pc[i])
    ensures r.Some? ==> Shaped(c, r.value)
  {
    match s.pc[i]
    case WantGet => Acquire(s, i, SetHungry)
    case SetHungry => Some(Goto(s, i, TestSelf).(mood := s.mood[i := Hungry]))
    case TestSelf => Some(Goto(Test(c, s, i), i, LeaveGet))
    case LeaveGet => Release(s, i, Claim)
    case Claim => if s.phil[i] == 0 then None else Some(Goto(s, i, Eat).(phil := s.phil[i := s.phil[i] - 1]))
    case Eat => Some(Goto(s, i, WantPut))
  }

  /** tput_forks offering the meal to each neighbour. */
  function NextServe(c: Config, s: State, i: nat): (r: Option<State>)
    requires c.Valid() && Shaped(c, s) && i < c.n && Serving(s.pc[i])
    ensures r.Some? ==> Shaped(c, r.value)
  {
    var right := s.pc[i].TestRight?;
    Some(Goto(Test(c, s, if right then c.Right(i) else c.Left(i)), i, if right then TestLeft else LeavePut))
  }

  /** The rest of tput_forks and the end of the loop body. */
  function NextPut(c: Config, s: State, i: nat): (r: Option<State>)
    requires c.Valid() && Shaped(c, s) && i < c.n && Putting(s.pc[i])
    ensures r.Some? ==> Shaped(c, r.value)
  {
    match s.pc[i]
    case WantPut => Acquire(s, i, SetThinking)
    case SetThinking =>
      Some(Goto(s, i, TestRight).(mood := s.mood[i := Thinking], meals := s.meals[i := s.meals[i] + 1]))
    case LeavePut =>
      Release(s.(iter := s.iter[i := s.iter[i] + 1]), i, if s.iter[i] + 1 >= c.m then Done else Top)
    case Done => None
  }

  // -------------------------------------------------------------- invariants

  predicate Locked(pc: Pc) {
    || pc.Check? || pc.Reset? || pc.SetHungry? || pc.TestSelf? || pc.LeaveGet?
    || pc.SetThinking? || pc.TestRight? || pc.TestLeft? || pc.LeavePut?
  }

  /** The mutex is held exactly by the thread inside one of its sections. */
  predicate MutexOk(s: State) {
    && (s.mutex.Some? ==> s.mutex.value < |s.pc|)
    && (forall i :: 0 <= i < |s.pc| ==> (s.mutex == Some(i) <==> Locked(s.pc[i])))
  }

  /** A philosopher's mood and semaphore, from where its thread is: phil[i] is 1
      exactly while a granted meal waits to be claimed, and 0 otherwise. */
  predicate MoodOk(s: State, i: nat)
    requires i < |s.pc| == |s.mood| == |s.phil|
  {
    match s.pc[i]
    case TestSelf => s.mood[i] == Hungry && s.phil[i] == 0
    case LeaveGet | Claim =>
      (s.mood[i] == Hungry && s.phil[i] == 0) || (s.mood[i] == Eating && s.phil[i] == 1)
    case Eat | WantPut | SetThinking => s.mood[i] == Eating && s.phil[i] == 0
    case _ => s.mood[i] == Thinking && s.phil[i] == 0
  }

  /** No two neighbours eat at the same time. */
  predicate Exclusive(c: Config, s: State)
    requires Shaped(c, s)
  {
    forall i :: 0 <= i < c.n && s.mood[i] == Eating ==> s.mood[c.Right(i)] != Eating
  }

  /** The thread holding the mutex is still going to test philosopher `i`. */
  predicate Pending(c: Config, s: State, i: nat)
    requires Shaped(c, s) && i < c.n
  {
    s.mutex.Some? && s.mutex.value < c.n &&
    var h := s.mutex.value;
    match s.pc[h]
    case TestSelf => h == i
    case TestRight => c.Right(h) == i || c.Left(h) == i
    case TestLeft => c.Left(h) == i
    case _ => false
  }

  /** Nobody stays hungry between two philosophers who are not eating. */
  predicate Served(c: Config, s: State, i: nat)
    requires Shaped(c, s) && i < c.n
  {
    s.mood[i] == Hungry ==> s.mood[c.Left(i)] == Eating || s.mood[c.Right(i)] == Eating || Pending(c, s, i)
  }

  /** Meals philosopher `i` has finished. */
  function Eaten(s: State, i: nat): (e: nat)
    requires i < |s.pc| == |s.iter|
  {
    s.iter[i] + if s.pc[i].TestRight? || s.pc[i].TestLeft? || s.pc[i].LeavePut? then 1 else 0
  }

  /** Between passing the check and finishing the meal. */
  predicate Dining(pc: Pc) {
    pc.WantGet? || pc.SetHungry? || pc.TestSelf? || pc.LeaveGet? || pc.Claim? || pc.Eat? || pc.WantPut? || pc.SetThinking?
  }

  /** Between reaching the rendezvous point and resetting the count. */
  predicate Resting(pc: Pc) {
    pc.Arrive? || pc.AtBarrier? || pc.WantReset? || pc.Reset?
  }

  predicate MealsOk(c: Config, s: State, i: nat)
    requires c.Valid() && Shaped(c, s) && i < c.n
  {
    && s.base[i] + s.meals[i] == Eaten(s, i)
    && s.meals[i] <= c.burst
    && (Dining(s.pc[i]) ==> s.meals[i] < c.burst)
    && (Resting(s.pc[i]) ==> s.meals[i] == c.burst)
    && s.line == s.base[i] + (if Released(s, i) then c.burst else 0)
    && (if s.pc[i] == Done then s.iter[i] == c.m else s.iter[i] < c.m)
  }

  /** The barrier has tripped for thread `i`, which has not yet reset its meals. */
  predicate Released(s: State, i: nat)
    requires i < |s.pc|
  {
    s.pc[i] == WantReset || s.pc[i] == Reset || (s.pc[i] == AtBarrier && s.draining)
  }

  function Count(pc: seq<Pc>, k: nat): (r: nat)
    requires k <= |pc|
    ensures r <= k
  {
    if k == 0 then 0 else Count(pc, k - 1) + if pc[k - 1] == AtBarrier then 1 else 0
  }

  predicate BarrierOk(c: Config, s: State)
    requires Shaped(c, s)
  {
    s.inside == Count(s.pc, c.n) && (if s.draining then 0 < s.inside else s.inside < c.n)
  }

  ghost predicate Inv(c: Config, s: State) {
    && c.Valid() && Shaped(c, s)
    && MutexOk(s)
    && (forall i :: 0 <= i < c.n ==> MoodOk(s, i))
    && Exclusive(c, s)
    && (forall i :: 0 <= i < c.n ==> Served(c, s, i))
    && (forall i :: 0 <= i < c.n ==> MealsOk(c, s, i))
    && BarrierOk(c, s)
  }

  ghost predicate Step(c: Config, s: State, i: nat, t: State) {
    c.Valid() && Shaped(c, s) && i < c.n && Next(c, s, i) == Some(t)
  }

  lemma {:induction false} CountZero(pc: seq<Pc>, k: nat)
    requires k <= |pc| && forall i :: 0 <= i < k ==> pc[i] != AtBarrier
    ensures Count(pc, k) == 0
  {
    if k > 0 { CountZero(pc, k - 1); }
  }

  lemma InitInv(c: Config)
    requires c.Valid()
    ensures Inv(c, Init(c))
  {
    CountZero(Init(c).pc, c.n);
  }

  lemma StepMutex(c: Config, s: State, i: nat, t: State)
    requires Step(c, s, i, t) && MutexOk(s)
    ensures MutexOk(t)
  {
    if Counting(s.pc[i]) { MutexCount(c, s, i, t); }
    else if Getting(s.pc[i]) { MutexGet(c, s, i, t); }
    else if Serving(s.pc[i]) { MutexServe(c, s, i, t); }
    else { MutexPut(c, s, i, t); }
  }

  lemma MutexCount(c: Config, s: State, i: nat, t: State)
    requires Step(c, s, i, t) && MutexOk(s) && Counting(s.pc[i])
    ensures MutexOk(t)
  {
  }

  lemma MutexGet(c: Config, s: State, i: nat, t: State)
    requires Step(c, s, i, t) && MutexOk(s) && Getting(s.pc[i])
    ensures MutexOk(t)
  {
  }

  lemma MutexServe(c: Config, s: State, i: nat, t: State)
    requires Step(c, s, i, t) && MutexOk(s) && Serving(s.pc[i])
    ensures MutexOk(t)
  {
  }

  lemma MutexPut(c: Config, s: State, i: nat, t: State)
    requires Step(c, s, i, t) && MutexOk(s) && Putting(s.pc[i])
    ensures MutexOk(t)
  {
  }

  lemma StepMood(c: Config, s: State, i: nat, t: State, j: nat)
    requires Step(c, s, i, t) && j < c.n && MutexOk(s) && MoodOk(s, i) && MoodOk(s, j)
    ensures MoodOk(t, j)
  {
    if Counting(s.pc[i]) { MoodCount(c, s, i, t, j); }
    else if Getting(s.pc[i]) { MoodGet(c, s, i, t, j); }
    else if Serving(s.pc[i]) { MoodServe(c, s, i, t, j); }
    else { MoodPut(c, s, i, t, j); }
  }

  lemma MoodCount(c: Config, s: State, i: nat, t: State, j: nat)
    requires Step(c, s, i, t) && Counting(s.pc[i]) && j < c.n && MutexOk(s) && MoodOk(s, i) && MoodOk(s, j)
    ensures MoodOk(t, j)
  {
  }

  lemma MoodGet(c: Config, s: State, i: nat, t: State, j: nat)
    requires Step(c, s, i, t) && Getting(s.pc[i]) && j < c.n && MutexOk(s) && MoodOk(s, i) && MoodOk(s, j)
    ensures MoodOk(t, j)
  {
    hide NextCount, NextServe, NextPut;
  }

  lemma MoodServe(c: Config, s: State, i: nat, t: State, j: nat)
    requires Step(c, s, i, t) && Serving(s.pc[i]) && j < c.n && MutexOk(s) && MoodOk(s, i) && MoodOk(s, j)
    ensures MoodOk(t, j)
  {
  }

  lemma MoodPut(c: Config, s: State, i: nat, t: State, j: nat)
    requires Step(c, s, i, t) && Putting(s.pc[i]) && j < c.n && MutexOk(s) && MoodOk(s, i) && MoodOk(s, j)
    ensures MoodOk(t, j)
  {
  }

  lemma StepExclusive(c: Config, s: State, i: nat, t: State)
    requires Step(c, s, i, t) && MoodOk(s, i) && Exclusive(c, s)
    ensures Exclusive(c, t)
  {
    if Counting(s.pc[i]) { ExclusiveCount(c, s, i, t); }
    else if Getting(s.pc[i]) { ExclusiveGet(c, s, i, t); }
    else if Serving(s.pc[i]) { ExclusiveServe(c, s, i, t); }
    else { ExclusivePut(c, s, i, t); }
  }

  lemma ExclusiveCount(c: Config, s: State, i: nat, t: State)
    requires Step(c, s, i, t) && Counting(s.pc[i]) && MoodOk(s, i) && Exclusive(c, s)
    ensures Exclusive(c, t)
  {
  }

  lemma ExclusiveGet(c: Config, s: State, i: nat, t: State)
    requires Step(c, s, i, t) && Getting(s.pc[i]) && MoodOk(s, i) && Exclusive(c, s)
    ensures Exclusive(c, t)
  {
  }

  lemma ExclusiveServe(c: Config, s: State, i: nat, t: State)
    requires Step(c, s, i, t) && Serving(s.pc[i]) && MoodOk(s, i) && Exclusive(c, s)
    ensures Exclusive(c, t)
  {
  }

  lemma ExclusivePut(c: Config, s: State, i: nat, t: State)
    requires Step(c, s, i, t) && Putting(s.pc[i]) && MoodOk(s, i) && Exclusive(c, s)
    ensures Exclusive(c, t)
  {
  }

  lemma StepServed(c: Config, s: State, i: nat, t: State, j: nat)
    requires Step(c, s, i, t) && j < c.n && MutexOk(s) && MoodOk(s, i) && Served(c, s, j)
    ensures Served(c, t, j)
  {
    if Counting(s.pc[i]) { ServedCount(c, s, i, t, j); }
    else if Getting(s.pc[i]) { ServedGet(c, s, i, t, j); }
    else if Serving(s.pc[i]) { ServedServe(c, s, i, t, j); }
    else { ServedPut(c, s, i, t, j); }
  }

  lemma ServedCount(c: Config, s: State, i: nat, t: State, j: nat)
    requires Step(c, s, i, t) && Counting(s.pc[i]) && j < c.n && MutexOk(s) && MoodOk(s, i) && Served(c, s, j)
    ensures Served(c, t, j)
  {
  }

  lemma ServedGet(c: Config, s: State, i: nat, t: State, j: nat)
    requires Step(c, s, i, t) && Getting(s.pc[i]) && j < c.n && MutexOk(s) && MoodOk(s, i) && Served(c, s, j)
    ensures Served(c, t, j)
  {
  }

  lemma ServedServe(c: Config, s: State, i: nat, t: State, j: nat)
    requires Step(c, s, i, t) && Serving(s.pc[i]) && j < c.n && MutexOk(s) && MoodOk(s, i) && Served(c, s, j)
    ensures Served(c, t, j)
  {
  }

  lemma ServedPut(c: Config, s: State, i: nat, t: State, j: nat)
    requires Step(c, s, i, t) && Putting(s.pc[i]) && j < c.n && MutexOk(s) && MoodOk(s, i) && Served(c, s, j)
    ensures Served(c, t, j)
  {
  }

  // ------------------------------------------------------------- the barrier

  lemma {:induction false} CountUpdate(pc: seq<Pc>, i: nat, v: Pc, k: nat)
    requires i < |pc| && k <= |pc|
    ensures Count(pc[i := v], k) == Count(pc, k)
      + (if i < k && v == AtBarrier then 1 else 0) - (if i < k && pc[i] == AtBarrier then 1 else 0)
  {
    if k > 0 { CountUpdate(pc, i, v, k - 1); }
  }

  /** If all but one thread are inside the barrier, so is every other one. */
  lemma OthersInside(pc: seq<Pc>, i: nat, j: nat)
    requires i < |pc| && j < |pc| && i != j && pc[i] != AtBarrier && Count(pc, |pc|) == |pc| - 1
    ensures pc[j] == AtBarrier
  {
    CountUpdate(pc, i, AtBarrier, |pc|);
    if pc[j] != AtBarrier {
      CountUpdate(pc[i := AtBarrier], j, AtBarrier, |pc|);
    }
  }

  /** If only one thread is inside the barrier, no other one is. */
  lemma OthersOutside(pc: seq<Pc>, i: nat, j: nat)
    requires i < |pc| && j < |pc| && i != j && pc[i] == AtBarrier && Count(pc, |pc|) == 1
    ensures pc[j] != AtBarrier
  {
    CountUpdate(pc, i, Top, |pc|);
    if pc[j] == AtBarrier {
      CountUpdate(pc[i := Top], j, Top, |pc|);
    }
  }

  lemma StepMeals(c: Config, s: State, i: nat, t: State, j: nat)
    requires Step(c, s, i, t) && j < c.n && MealsOk(c, s, i) && MealsOk(c, s, j) && BarrierOk(c, s)
    ensures MealsOk(c, t, j)
  {
    if Counting(s.pc[i]) { MealsCount(c, s, i, t, j); }
    else if Getting(s.pc[i]) { MealsGet(c, s, i, t, j); }
    else if Serving(s.pc[i]) { MealsServe(c, s, i, t, j); }
    else { MealsPut(c, s, i, t, j); }
  }

  lemma MealsBarrier(c: Config, s: State, i: nat, t: State, j: nat)
    requires Step(c, s, i, t) && (s.pc[i].Arrive? || s.pc[i].AtBarrier?)
    requires j < c.n && MealsOk(c, s, i) && MealsOk(c, s, j) && BarrierOk(c, s)
    ensures MealsOk(c, t, j)
  {
    hide NextGet, NextServe, NextPut, Test;
    if i != j && s.pc[i] == Arrive && s.inside + 1 == c.n { OthersInside(s.pc, i, j); }
    if i != j && s.pc[i] == AtBarrier && s.inside == 1 { OthersOutside(s.pc, i, j); }
  }

  lemma MealsCount(c: Config, s: State, i: nat, t: State, j: nat)
    requires Step(c, s, i, t) && Counting(s.pc[i]) && j < c.n && MealsOk(c, s, i) && MealsOk(c, s, j) && BarrierOk(c, s)
    ensures MealsOk(c, t, j)
  {
    hide NextGet, NextServe, NextPut, Test, Count;
    if s.pc[i].Arrive? || s.pc[i].AtBarrier? { MealsBarrier(c, s, i, t, j); }
  }

  lemma MealsGet(c: Config, s: State, i: nat, t: State, j: nat)
    requires Step(c, s, i, t) && Getting(s.pc[i]) && j < c.n && MealsOk(c, s, i) && MealsOk(c, s, j) && BarrierOk(c, s)
    ensures MealsOk(c, t, j)
  {
    hide NextCount, NextServe, NextPut, Test, BarrierOk;
  }

  lemma MealsServe(c: Config, s: State, i: nat, t: State, j: nat)
    requires Step(c, s, i, t) && Serving(s.pc[i]) && j < c.n && MealsOk(c, s, i) && MealsOk(c, s, j) && BarrierOk(c, s)
    ensures MealsOk(c, t, j)
  {
    hide NextCount, NextGet, NextPut, Test, BarrierOk;
  }

  lemma MealsPut(c: Config, s: State, i: nat, t: State, j: nat)
    requires Step(c, s, i, t) && Putting(s.pc[i]) && j < c.n && MealsOk(c, s, i) && MealsOk(c, s, j) && BarrierOk(c, s)
    ensures MealsOk(c, t, j)
  {
    hide NextCount, NextGet, NextServe, Test, BarrierOk;
  }

  lemma StepBarrier(c: Config, s: State, i: nat, t: State)
    requires Step(c, s, i, t) && BarrierOk(c, s)
    ensures BarrierOk(c, t)
  {
    CountUpdate(s.pc, i, t.pc[i], c.n);
    StepPc(c, s, i, t);
  }

  /** A step moves the acting thread only, and touches the barrier only there. */
  ghost predicate PcMoved(s: State, i: nat, t: State) {
    && i < |s.pc| == |t.pc|
    && t.pc == s.pc[i := t.pc[i]]
    && (!(s.pc[i].Arrive? || s.pc[i].AtBarrier?) ==>
          t.pc[i] != AtBarrier && t.inside == s.inside && t.draining == s.draining)
  }

  lemma StepPc(c: Config, s: State, i: nat, t: State)
    requires Step(c, s, i, t)
    ensures PcMoved(s, i, t)
  {
    if Counting(s.pc[i]) { PcCount(c, s, i, t); }
    else if Getting(s.pc[i]) { PcGet(c, s, i, t); }
    else if Serving(s.pc[i]) { PcServe(c, s, i, t); }
    else { PcPut(c, s, i, t); }
  }

  lemma PcCount(c: Config, s: State, i: nat, t: State)
    requires Step(c, s, i, t) && Counting(s.pc[i])
    ensures PcMoved(s, i, t)
  {
  }

  lemma PcGet(c: Config, s: State, i: nat, t: State)
    requires Step(c, s, i, t) && Getting(s.pc[i])
    ensures PcMoved(s, i, t)
  {
  }

  lemma PcServe(c: Config, s: State, i: nat, t: State)
    requires Step(c, s, i, t) && Serving(s.pc[i])
    ensures PcMoved(s, i, t)
  {
  }

  lemma PcPut(c: Config, s: State, i: nat, t: State)
    requires Step(c, s, i, t) && Putting(s.pc[i])
    ensures PcMoved(s, i, t)
  {
  }

  /** Every step of every thread keeps the invariant. */
  lemma StepInv(c: Config, s: State, i: nat, t: State)
    requires Inv(c, s) && Step(c, s, i, t)
    ensures Inv(c, t)
  {
    StepMutex(c, s, i, t);
    StepExclusive(c, s, i, t);
    StepBarrier(c, s, i, t);
    forall j | 0 <= j < c.n ensures MoodOk(t, j) && Served(c, t, j) && MealsOk(c, t, j) {
      StepMood(c, s, i, t, j);
      StepServed(c, s, i, t, j);
      StepMeals(c, s, i, t, j);
    }
  }

  // -------------------------------------------------------------------- runs

  ghost predicate Advance(c: Config, s: State, t: State) {
    exists i :: Step(c, s, i, t)
  }

  /** Any interleaving of the threads, from the start. */
  ghost predicate Run(c: Config, run: seq<State>) {
    && c.Valid() && run != [] && run[0] == Init(c)
    && forall k :: 0 < k < |run| ==> Advance(c, run[k - 1], run[k])
  }

  lemma {:induction false} RunInv(c: Config, run: seq<State>, k: nat)
    requires Run(c, run) && k < |run|
    ensures Inv(c, run[k])
  {
    if k == 0 {
      InitInv(c);
    } else {
      RunInv(c, run, k - 1);
      assert Advance(c, run[k - 1], run[k]);
      var i :| Step(c, run[k - 1], i, run[k]);
      StepInv(c, run[k - 1], i, run[k]);
    }
  }

  /** In every reachable state: neighbours never eat together; with the mutex free
      nobody is hungry without an eating neighbour; and phil[i] is 1 exactly when
      philosopher i has been granted a meal it has not claimed yet, else 0. */
  lemma Safety(c: Config, run: seq<State>, k: nat, i: nat)
    requires Run(c, run) && k < |run| && i < c.n
    ensures Shaped(c, run[k])
    ensures var s := run[k];
            && !(s.mood[i] == Eating && s.mood[c.Right(i)] == Eating)
            && !(s.mood[i] == Eating && s.mood[c.Left(i)] == Eating)
            && (s.mutex.None? && s.mood[i] == Hungry ==> s.mood[c.Left(i)] == Eating || s.mood[c.Right(i)] == Eating)
            && s.phil[i] == (if s.mood[i] == Eating && (s.pc[i].LeaveGet? || s.pc[i].Claim?) then 1 else 0)
  {
    RunInv(c, run, k);
    var s := run[k];
    assert MoodOk(s, i) && Served(c, s, i);
    c.Neighbours(i);
    assert s.mood[c.Left(i)] == Eating ==> s.mood[c.Right(c.Left(i))] != Eating;
  }

  /** No philosopher ever gets more than a burst of meals ahead of another. */
  lemma Fairness(c: Config, run: seq<State>, k: nat, i: nat, j: nat)
    requires Run(c, run) && k < |run| && i < c.n && j < c.n
    ensures Shaped(c, run[k])
    ensures Eaten(run[k], i) <= Eaten(run[k], j) + c.burst
  {
    RunInv(c, run, k);
    assert MealsOk(c, run[k], i) && MealsOk(c, run[k], j);
  }

  /** No thread can move. */
  ghost predicate Stuck(c: Config, s: State)
    requires c.Valid() && Shaped(c, s)
  {
    forall i :: 0 <= i < c.n ==> Next(c, s, i).None?
  }

  /** Whoever holds the mutex can go on. */
  lemma HolderMoves(c: Config, s: State)
    requires Inv(c, s) && s.mutex.Some?
    ensures Next(c, s, s.mutex.value).Some?
  {
    assert Locked(s.pc[s.mutex.value]);
  }

  lemma StuckMutex(c: Config, s: State)
    requires Inv(c, s) && Stuck(c, s)
    ensures s.mutex.None?
  {
    if s.mutex.Some? { HolderMoves(c, s); }
  }

  /** An eating philosopher can always go on when the mutex is free. */
  lemma EaterMoves(c: Config, s: State, e: nat)
    requires Inv(c, s) && s.mutex.None? && e < c.n && s.mood[e] == Eating
    ensures Next(c, s, e).Some?
  {
    assert MoodOk(s, e);
    assert !Locked(s.pc[e]);
  }

  lemma {:induction false} CountPositive(pc: seq<Pc>, k: nat) returns (i: nat)
    requires k <= |pc| && Count(pc, k) > 0
    ensures i < k && pc[i] == AtBarrier
  {
    if pc[k - 1] == AtBarrier { i := k - 1; } else { i := CountPositive(pc, k - 1); }
  }

  lemma DrainerMoves(c: Config, s: State)
    requires Inv(c, s) && s.draining
    ensures exists b :: 0 <= b < c.n && Next(c, s, b).Some?
  {
    var b := CountPositive(s.pc, c.n);
    assert Next(c, s, b).Some?;
  }

  /** If no thread can move, each has finished or waits for the barrier to fill. */
  lemma StuckWhere(c: Config, s: State, i: nat)
    requires Inv(c, s) && Stuck(c, s) && i < c.n
    ensures s.pc[i] == Done || (s.pc[i] == AtBarrier && !s.draining)
  {
    StuckMutex(c, s);
    assert !Locked(s.pc[i]) && Next(c, s, i).None?;
    if s.draining {
      DrainerMoves(c, s);
    } else if s.pc[i] == Claim {
      assert MoodOk(s, i) && Served(c, s, i);
      EaterMoves(c, s, if s.mood[c.Left(i)] == Eating then c.Left(i) else c.Right(i));
    }
  }

  lemma {:induction false} CountFull(pc: seq<Pc>, k: nat)
    requires k <= |pc| && forall i :: 0 <= i < k ==> pc[i] == AtBarrier
    ensures Count(pc, k) == k
  {
    if k > 0 { CountFull(pc, k - 1); }
  }

  /** No deadlock: if no thread can move, every philosopher has had all its meals.
      In particular the barrier never waits for a philosopher that has left. */
  lemma StuckIsFinished(c: Config, s: State)
    requires Inv(c, s) && Stuck(c, s)
    ensures forall i :: 0 <= i < c.n ==> s.pc[i] == Done && s.iter[i] == c.m
  {
    forall i | 0 <= i < c.n ensures s.pc[i] == Done || (s.pc[i] == AtBarrier && !s.draining) {
      StuckWhere(c, s, i);
    }
    if b :| 0 <= b < c.n && s.pc[b] == AtBarrier {
      forall j | 0 <= j < c.n ensures s.pc[j] == AtBarrier { assert MealsOk(c, s, b) && MealsOk(c, s, j); }
      CountFull(s.pc, c.n);
    }
    forall i | 0 <= i < c.n ensures s.iter[i] == c.m { assert MealsOk(c, s, i); }
  }

  // ------------------------------------------------------------- termination

  function Rank(pc: Pc): (r: nat)
    ensures r <= 17
  {
    match pc
    case Top => 0 case Check => 1 case Arrive => 2 case AtBarrier => 3 case WantReset => 4 case Reset => 5
    case WantGet => 6 case SetHungry => 7 case TestSelf => 8 case LeaveGet => 9 case Claim => 10 case Eat => 11
    case WantPut => 12 case SetThinking => 13 case TestRight => 14 case TestLeft => 15 case LeavePut => 16
    case Done => 0
  }

  function Progress(s: State, i: nat): (p: nat)
    requires i < |s.pc| == |s.iter|
  {
    17 * s.iter[i] + Rank(s.pc[i])
  }

  function Total(s: State, k: nat): (p: nat)
    requires k <= |s.pc| == |s.iter|
  {
    if k == 0 then 0 else Total(s, k - 1) + Progress(s, k - 1)
  }

  ghost predicate Progressed(s: State, i: nat, t: State)
    requires i < |s.pc| == |s.iter| == |t.pc| == |t.iter|
  {
    && Progress(t, i) > Progress(s, i)
    && forall j :: 0 <= j < |s.pc| && j != i ==> Progress(t, j) == Progress(s, j)
  }

  lemma StepProgress(c: Config, s: State, i: nat, t: State)
    requires Step(c, s, i, t)
    ensures Progressed(s, i, t)
  {
    if Counting(s.pc[i]) { ProgressCount(c, s, i, t); }
    else if Getting(s.pc[i]) { ProgressGet(c, s, i, t); }
    else if Serving(s.pc[i]) { ProgressServe(c, s, i, t); }
    else { ProgressPut(c, s, i, t); }
  }

  lemma ProgressCount(c: Config, s: State, i: nat, t: State)
    requires Step(c, s, i, t) && Counting(s.pc[i])
    ensures Progressed(s, i, t)
  {
  }

  lemma ProgressGet(c: Config, s: State, i: nat, t: State)
    requires Step(c, s, i, t) && Getting(s.pc[i])
    ensures Progressed(s, i, t)
  {
  }

  lemma ProgressServe(c: Config, s: State, i: nat, t: State)
    requires Step(c, s, i, t) && Serving(s.pc[i])
    ensures Progressed(s, i, t)
  {
  }

  lemma ProgressPut(c: Config, s: State, i: nat, t: State)
    requires Step(c, s, i, t) && Putting(s.pc[i])
    ensures Progressed(s, i, t)
  {
  }

  lemma {:induction false} TotalGrows(s: State, t: State, i: nat, k: nat)
    requires k <= |s.pc| == |s.iter| == |t.pc| == |t.iter| && i < |s.pc|
    requires Progressed(s, i, t)
    ensures Total(t, k) >= Total(s, k) + if i < k then 1 else 0
  {
    if k > 0 { TotalGrows(s, t, i, k - 1); }
  }

  lemma {:induction false} TotalBounded(c: Config, s: State, k: nat)
    requires Inv(c, s) && k <= c.n
    ensures Total(s, k) <= k * (17 * c.m)
  {
    if k > 0 {
      TotalBounded(c, s, k - 1);
      assert MealsOk(c, s, k - 1);
      assert k * (17 * c.m) == (k - 1) * (17 * c.m) + 17 * c.m;
    }
  }

  lemma {:induction false} RunTotal(c: Config, run: seq<State>, k: nat)
    requires Run(c, run) && k < |run|
    ensures Shaped(c, run[k]) && Total(run[k], c.n) >= k
  {
    RunInv(c, run, k);
    if k > 0 {
      RunTotal(c, run, k - 1);
      RunInv(c, run, k - 1);
      assert Advance(c, run[k - 1], run[k]);
      var i :| Step(c, run[k - 1], i, run[k]);
      StepProgress(c, run[k - 1], i, run[k]);
      TotalGrows(run[k - 1], run[k], i, c.n);
    }
  }

  /** Every run is finite, whatever the schedule: at most 17 steps per meal. */
  lemma RunBounded(c: Config, run: seq<State>)
    requires Run(c, run)
    ensures |run| - 1 <= c.n * (17 * c.m)
  {
    var k := |run| - 1;
    RunTotal(c, run, k);
    RunInv(c, run, k);
    TotalBounded(c, run[k], c.n);
  }

  ghost predicate AtEnd(c: Config, s: State) {
    forall t :: !Advance(c, s, t)
  }

  ghost predicate AllFed(c: Config, s: State) {
    Shaped(c, s) && forall i :: 0 <= i < c.n ==> s.pc[i] == Done && Eaten(s, i) == c.m
  }

  /** So every run that cannot be extended ends with all meals eaten. */
  lemma MaximalRunFinishes(c: Config, run: seq<State>)
    requires Run(c, run) && AtEnd(c, run[|run| - 1])
    ensures AllFed(c, run[|run| - 1])
  {
    var s := run[|run| - 1];
    RunInv(c, run, |run| - 1);
    forall i | 0 <= i < c.n ensures Next(c, s, i).None? {
      if Next(c, s, i).Some? {
        assert Step(c, s, i, Next(c, s, i).value);
        assert Advance(c, s, Next(c, s, i).value);
      }
    }
    StuckIsFinished(c, s);
  }
}
