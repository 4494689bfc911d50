/** The two fork-locking solutions of the dining philosophers: the footman, who
    seats at most n - 1, and the left-handed philosopher, who takes its forks in the
    other order. Both for any number of philosophers and meals. */
module Forks {
  import opened Options

  datatype Protocol = Footman | LeftHanded

  datatype Config = Config(p: Protocol, n: nat, m: nat) {
    predicate Valid() { 1 <= n && 1 <= m }

    /** left and right: fork i and fork (i + 1) % n. */
    function Left(i: nat): (f: nat) requires i < n { i }

    function Right(i: nat): (f: nat)
      requires i < n
      ensures f < n
    {
      if i + 1 == n then 0 else i + 1
    }

    /** get_forks takes the right fork first, get_forks_left the left one. */
    function First(i: nat): (f: nat)
      requires i < n
      ensures f < n
    {
      if p.LeftHanded? && i == n - 1 then Left(i) else Right(i)
    }

    function Second(i: nat): (f: nat)
      requires i < n
      ensures f < n
    {
      if p.LeftHanded? && i == n - 1 then Right(i) else Left(i)
    }

    /** Where the loop body starts. */
    function Start(): (pc: Pc) {
      if p.Footman? then WantSeat else WantFirst
    }
  }

  /** WantSeat and Stand are footman.acquire and footman.release. */
  datatype Pc = WantSeat | WantFirst | WantSecond | Eat | PutRight | PutLeft | Stand | Done

  /** forks[f] is the philosopher holding lock f; seats is the footman semaphore. */
  datatype State = State(forks: seq<Option<nat>>, seats: nat, pc: seq<Pc>, iter: seq<nat>)

  predicate Shaped(c: Config, s: State) {
    |s.forks| == |s.pc| == |s.iter| == c.n
  }

  function Init(c: Config): (s: State)
    requires c.Valid()
    ensures Shaped(c, s)
  {
    State(seq(c.n, _ => None), c.n - 1, seq(c.n, _ => c.Start()), seq(c.n, _ => 0))
  }

  function Goto(s: State, i: nat, pc: Pc): (r: State)
    requires i < |s.pc|
  {
    State(s.forks, s.seats, s.pc[i := pc], s.iter)
  }

  function Take(s: State, i: nat, f: nat, pc: Pc): (r: Option<State>)
    requires i < |s.pc| && f < |s.forks|
  {
    if s.forks[f].Some? then None else Some(State(s.forks[f := Some(i)], s.seats, s.pc[i := pc], s.iter))
  }

  function Put(s: State, i: nat, f: nat): (r: State)
    requires i < |s.pc| && f < |s.forks|
  {
    State(s.forks[f := None], s.seats, s.pc, s.iter)
  }

  function EndMeal(c: Config, s: State, i: nat): (r: State)
    requires Shaped(c, s) && i < c.n
  {
    State(s.forks, s.seats, s.pc[i := if s.iter[i] + 1 >= c.m then Done else c.Start()], s.iter[i := s.iter[i] + 1])
  }

  /** The next atomic step of thread `i`, or None if it has to wait. */
  function Next(c: Config, s: State, i: nat): (r: Option<State>)
    requires c.Valid() && Shaped(c, s) && i < c.n
    ensures r.Some? ==> Shaped(c, r.value)
  {
    match s.pc[i]
    case WantSeat => if s.seats == 0 then None else Some(State(s.forks, s.seats - 1, s.pc[i := WantFirst], s.iter))
    case WantFirst => Take(s, i, c.First(i), WantSecond)
    case WantSecond => Take(s, i, c.Second(i), Eat)
    case Eat => Some(Goto(s, i, PutRight))
    case PutRight => Some(Goto(Put(s, i, c.Right(i)), i, PutLeft))
    case PutLeft =>
      var r := Put(s, i, c.Left(i));
      Some(if c.p.Footman? then Goto(r, i, Stand) else EndMeal(c, r, i))
    case Stand => Some(EndMeal(c, State(s.forks, s.seats + 1, s.pc, s.iter), i))
    case Done => None
  }

  // -------------------------------------------------------------- invariants

  /** Philosopher `i` is using fork `f`. */
  predicate Holds(c: Config, s: State, i: nat, f: nat)
    requires Shaped(c, s) && i < c.n
  {
    match s.pc[i]
    case WantSecond => f == c.First(i)
    case Eat | PutRight => f == c.Left(i) || f == c.Right(i)
    case PutLeft => f == c.Left(i)
    case _ => false
  }

  predicate Agree(c: Config, s: State, i: nat, f: nat)
    requires Shaped(c, s) && i < c.n && f < c.n
  {
    s.forks[f] == Some(i) <==> Holds(c, s, i, f)
  }

  /** Each fork is held by exactly the philosopher using it, so by at most one. */
  predicate ForksOk(c: Config, s: State)
    requires Shaped(c, s)
  {
    && (forall f :: 0 <= f < c.n && s.forks[f].Some? ==> s.forks[f].value < c.n)
    && (forall i, f :: 0 <= i < c.n && 0 <= f < c.n ==> Agree(c, s, i, f))
  }

  predicate Seated(pc: Pc) { !pc.WantSeat? && !pc.Done? }

  function CountSeated(pc: seq<Pc>, k: nat): (r: nat)
    requires k <= |pc|
  {
    if k == 0 then 0 else CountSeated(pc, k - 1) + if Seated(pc[k - 1]) then 1 else 0
  }

  predicate SeatsOk(c: Config, s: State)
    requires c.Valid() && Shaped(c, s)
  {
    c.p.Footman? ==> s.seats + CountSeated(s.pc, c.n) == c.n - 1
  }

  predicate IterOk(c: Config, s: State, i: nat)
    requires Shaped(c, s) && i < c.n
  {
    && (if s.pc[i] == Done then s.iter[i] == c.m else s.iter[i] < c.m)
    && (c.p.LeftHanded? ==> !s.pc[i].WantSeat? && !s.pc[i].Stand?)
  }

  ghost predicate Inv(c: Config, s: State) {
    && c.Valid() && Shaped(c, s)
    && ForksOk(c, s)
    && SeatsOk(c, s)
    && forall i :: 0 <= i < c.n ==> IterOk(c, s, i)
  }

  ghost predicate Step(c: Config, s: State, i: nat, t: State) {
    c.Valid() && Shaped(c, s) && i < c.n && Next(c, s, i) == Some(t)
  }

  lemma {:induction false} CountUpdate(pc: seq<Pc>, i: nat, v: Pc, k: nat)
    requires i < |pc| && k <= |pc|
    ensures CountSeated(pc[i := v], k) == CountSeated(pc, k)
      + (if i < k && Seated(v) then 1 else 0) - (if i < k && Seated(pc[i]) then 1 else 0)
  {
    if k > 0 { CountUpdate(pc, i, v, k - 1); }
  }

  lemma {:induction false} CountAll(pc: seq<Pc>, k: nat, b: bool)
    requires k <= |pc| && forall i :: 0 <= i < k ==> Seated(pc[i]) == b
    ensures CountSeated(pc, k) == if b then k else 0
  {
    if k > 0 { CountAll(pc, k - 1, b); }
  }

  lemma InitInv(c: Config)
    requires c.Valid()
    ensures Inv(c, Init(c))
  {
    if c.p.Footman? { CountAll(Init(c).pc, c.n, false); }
  }

  lemma StepAgree(c: Config, s: State, i: nat, t: State, j: nat, f: nat)
    requires Step(c, s, i, t) && c.n >= 2 && j < c.n && f < c.n
    requires Agree(c, s, j, f) && Agree(c, s, i, f)
    ensures Agree(c, t, j, f)
  {
  }

  lemma StepForks(c: Config, s: State, i: nat, t: State)
    requires Step(c, s, i, t) && c.n >= 2 && ForksOk(c, s)
    ensures ForksOk(c, t)
  {
    forall j, f | 0 <= j < c.n && 0 <= f < c.n ensures Agree(c, t, j, f) {
      assert Agree(c, s, j, f) && Agree(c, s, i, f);
      StepAgree(c, s, i, t, j, f);
    }
  }

  lemma StepSeats(c: Config, s: State, i: nat, t: State)
    requires Step(c, s, i, t) && SeatsOk(c, s)
    ensures SeatsOk(c, t)
  {
    CountUpdate(s.pc, i, t.pc[i], c.n);
    assert t.pc == s.pc[i := t.pc[i]];
  }

  /** Every step of every thread keeps the invariant. */
  lemma StepInv(c: Config, s: State, i: nat, t: State)
    requires Inv(c, s) && Step(c, s, i, t) && c.n >= 2
    ensures Inv(c, t)
  {
    StepForks(c, s, i, t);
    StepSeats(c, s, i, t);
    forall j | 0 <= j < c.n ensures IterOk(c, t, j) { assert IterOk(c, s, j) && IterOk(c, s, i); }
  }

  // -------------------------------------------------------------------- runs

  ghost predicate Advance(c: Config, s: State, t: State) {
    exists i :: Step(c, s, i, t)
  }

  /** Any interleaving of the threads, from the start. */
  ghost predicate Run(c: Config, run: seq<State>) {
    && c.Valid() && run != [] && run[0] == Init(c)
    && forall k :: 0 < k < |run| ==> Advance(c, run[k - 1], run[k])
  }

  lemma {:induction false} RunInv(c: Config, run: seq<State>, k: nat)
    requires Run(c, run) && k < |run| && c.n >= 2
    ensures Inv(c, run[k])
  {
    if k == 0 {
      InitInv(c);
    } else {
      RunInv(c, run, k - 1);
      assert Advance(c, run[k - 1], run[k]);
      var i :| Step(c, run[k - 1], i, run[k]);
      StepInv(c, run[k - 1], i, run[k]);
    }
  }

  /** In every reachable state no two philosophers use one fork. */
  lemma OneHolder(c: Config, run: seq<State>, k: nat, i: nat, j: nat, f: nat)
    requires Run(c, run) && k < |run| && c.n >= 2 && i < c.n && j < c.n && f < c.n
    ensures Shaped(c, run[k])
    ensures Holds(c, run[k], i, f) && Holds(c, run[k], j, f) ==> i == j
  {
    RunInv(c, run, k);
    assert Agree(c, run[k], i, f) && Agree(c, run[k], j, f);
  }

  /** In every reachable state a philosopher that eats has forks i and (i + 1) % n, so no
      neighbour eats; one that waits for its second fork has fork (i + 1) % n, except that
      the left-handed one, the last, has fork i. */
  lemma EaterForks(c: Config, run: seq<State>, k: nat, i: nat)
    requires Run(c, run) && k < |run| && c.n >= 2 && i < c.n
    ensures Shaped(c, run[k])
    ensures run[k].pc[i] == Eat ==> run[k].forks[i] == run[k].forks[(i + 1) % c.n] == Some(i)
    ensures run[k].pc[i] == Eat ==> run[k].pc[(i + 1) % c.n] != Eat
    ensures run[k].pc[i] == WantSecond ==>
      run[k].forks[if c.p.LeftHanded? && i == c.n - 1 then i else (i + 1) % c.n] == Some(i)
  {
    RunInv(c, run, k);
    var s, r := run[k], (i + 1) % c.n;
    assert r == c.Right(i) && r != i;
    assert Agree(c, s, i, i) && Agree(c, s, i, r) && Agree(c, s, r, r);
  }

  // ---------------------------------------------------------------- deadlock

  /** No thread can move. */
  ghost predicate Stuck(c: Config, s: State)
    requires c.Valid() && Shaped(c, s)
  {
    forall i :: 0 <= i < c.n ==> Next(c, s, i).None?
  }

  /** A fork that someone waits for is held by a philosopher that holds it as its
      first fork and waits for its second. */
  lemma StuckFork(c: Config, s: State, f: nat) returns (j: nat)
    requires Inv(c, s) && Stuck(c, s) && f < c.n && s.forks[f].Some?
    ensures j < c.n && s.forks[f] == Some(j) && s.pc[j] == WantSecond && c.First(j) == f && s.forks[c.Second(j)].Some?
  {
    j := s.forks[f].value;
    assert Agree(c, s, j, f);
    assert Next(c, s, j).None?;
  }

  // Footman: whoever waits for its second fork waits for the philosopher before
  // it, so one of them means all n of them, and the footman never seats n.

  lemma {:induction false} AllWaiting(c: Config, s: State, i: nat, k: nat)
    requires Inv(c, s) && Stuck(c, s) && c.p.Footman? && i < c.n && s.pc[i] == WantSecond && k <= i
    ensures s.pc[i - k] == WantSecond
  {
    if k > 0 {
      AllWaiting(c, s, i, k - 1);
      assert Next(c, s, i - k + 1).None?;
      var j := StuckFork(c, s, i - k + 1);
    }
  }

  lemma AroundTheTable(c: Config, s: State, i: nat)
    requires Inv(c, s) && Stuck(c, s) && c.p.Footman? && i < c.n && s.pc[i] == WantSecond
    ensures s.pc[c.n - 1] == WantSecond
  {
    AllWaiting(c, s, i, i);
    assert Next(c, s, 0).None?;
    var j := StuckFork(c, s, 0);
  }

  lemma NoneWaiting(c: Config, s: State, i: nat)
    requires Inv(c, s) && Stuck(c, s) && c.p.Footman? && c.n >= 2 && i < c.n
    ensures s.pc[i] != WantSecond
  {
    if s.pc[i] == WantSecond {
      AroundTheTable(c, s, i);
      forall j | 0 <= j < c.n ensures Seated(s.pc[j]) { AllWaiting(c, s, c.n - 1, c.n - 1 - j); }
      CountAll(s.pc, c.n, true);
    }
  }

  lemma FootmanStuck(c: Config, s: State)
    requires Inv(c, s) && Stuck(c, s) && c.p.Footman? && c.n >= 2
    ensures forall i :: 0 <= i < c.n ==> s.pc[i] == Done
  {
    forall i | 0 <= i < c.n ensures s.pc[i] == Done || s.pc[i] == WantSeat {
      NoneWaiting(c, s, i);
      assert Next(c, s, i).None?;
      if s.pc[i] == WantFirst {
        var j := StuckFork(c, s, c.First(i));
      }
    }
    CountAll(s.pc, c.n, false);
    forall i | 0 <= i < c.n ensures s.pc[i] == Done { assert Next(c, s, i).None?; }
  }

  // Left-handed: everyone takes the higher-numbered of its forks first, so a chain
  // of waiting would run through ever lower forks.

  lemma {:induction false} NoForkTaken(c: Config, s: State, f: nat)
    requires Inv(c, s) && Stuck(c, s) && c.p.LeftHanded? && c.n >= 2 && f < c.n
    ensures s.forks[f].None?
  {
    if s.forks[f].Some? {
      var j := StuckFork(c, s, f);
      NoForkTaken(c, s, c.Second(j));
    }
  }

  lemma LeftHandedStuck(c: Config, s: State)
    requires Inv(c, s) && Stuck(c, s) && c.p.LeftHanded? && c.n >= 2
    ensures forall i :: 0 <= i < c.n ==> s.pc[i] == Done
  {
    forall i | 0 <= i < c.n ensures s.pc[i] == Done {
      assert Next(c, s, i).None? && IterOk(c, s, i);
      NoForkTaken(c, s, c.First(i));
      NoForkTaken(c, s, c.Second(i));
    }
  }

  // ------------------------------------------------------------- termination

  function Rank(pc: Pc): (r: nat) {
    match pc
    case WantSeat => 0 case WantFirst => 1 case WantSecond => 2 case Eat => 3
    case PutRight => 4 case PutLeft => 5 case Stand => 6 case Done => 0
  }

  function Progress(s: State, i: nat): (p: nat)
    requires i < |s.pc| == |s.iter|
  {
    8 * s.iter[i] + Rank(s.pc[i])
  }

  function Total(s: State, k: nat): (p: nat)
    requires k <= |s.pc| == |s.iter|
  {
    if k == 0 then 0 else Total(s, k - 1) + Progress(s, k - 1)
  }

  ghost predicate Progressed(s: State, i: nat, t: State)
    requires i < |s.pc| == |s.iter| == |t.pc| == |t.iter|
  {
    && Progress(t, i) > Progress(s, i)
    && forall j :: 0 <= j < |s.pc| && j != i ==> Progress(t, j) == Progress(s, j)
  }

  lemma StepProgress(c: Config, s: State, i: nat, t: State)
    requires Step(c, s, i, t)
    ensures Progressed(s, i, t)
  {
  }

  lemma {:induction false} TotalGrows(s: State, t: State, i: nat, k: nat)
    requires k <= |s.pc| == |s.iter| == |t.pc| == |t.iter| && i < |s.pc|
    requires Progressed(s, i, t)
    ensures Total(t, k) >= Total(s, k) + if i < k then 1 else 0
  {
    if k > 0 { TotalGrows(s, t, i, k - 1); }
  }

  lemma {:induction false} TotalBounded(c: Config, s: State, k: nat)
    requires Inv(c, s) && k <= c.n
    ensures Total(s, k) <= k * (8 * c.m)
  {
    if k > 0 {
      TotalBounded(c, s, k - 1);
      assert IterOk(c, s, k - 1);
      assert k * (8 * c.m) == (k - 1) * (8 * c.m) + 8 * c.m;
    }
  }

  lemma {:induction false} RunTotal(c: Config, run: seq<State>, k: nat)
    requires Run(c, run) && k < |run| && c.n >= 2
    ensures Shaped(c, run[k]) && Total(run[k], c.n) >= k
  {
    RunInv(c, run, k);
    if k > 0 {
      RunTotal(c, run, k - 1);
      assert Advance(c, run[k - 1], run[k]);
      var i :| Step(c, run[k - 1], i, run[k]);
      StepProgress(c, run[k - 1], i, run[k]);
      TotalGrows(run[k - 1], run[k], i, c.n);
    }
  }

  /** Every run is finite, whatever the schedule: at most 8 steps per meal. */
  lemma RunBounded(c: Config, run: seq<State>)
    requires Run(c, run) && c.n >= 2
    ensures |run| - 1 <= c.n * (8 * c.m)
  {
    var k := |run| - 1;
    RunTotal(c, run, k);
    RunInv(c, run, k);
    TotalBounded(c, run[k], c.n);
  }

  ghost predicate AtEnd(c: Config, s: State) {
    forall t :: !Advance(c, s, t)
  }

  ghost predicate AllFed(c: Config, s: State) {
    Shaped(c, s) && forall i :: 0 <= i < c.n ==> s.pc[i] == Done && s.iter[i] == c.m
  }

  lemma EndIsStuck(c: Config, s: State)
    requires c.Valid() && Shaped(c, s)
    ensures AtEnd(c, s) <==> Stuck(c, s)
  {
    forall i | 0 <= i < c.n && Next(c, s, i).Some? ensures exists t :: Advance(c, s, t) {
      assert Step(c, s, i, Next(c, s, i).value);
      assert Advance(c, s, Next(c, s, i).value);
    }
  }

  /** With two or more philosophers, every run that cannot be extended ends with
      all meals eaten: neither protocol deadlocks. */
  lemma MaximalRunFinishes(c: Config, run: seq<State>)
    requires Run(c, run) && c.n >= 2 && AtEnd(c, run[|run| - 1])
    ensures AllFed(c, run[|run| - 1])
  {
    var s := run[|run| - 1];
    RunInv(c, run, |run| - 1);
    EndIsStuck(c, s);
    if c.p.Footman? { FootmanStuck(c, s); } else { LeftHandedStuck(c, s); }
    forall i | 0 <= i < c.n ensures s.iter[i] == c.m { assert IterOk(c, s, i); }
  }

  /** Every run that cannot be extended ends with all meals eaten. */
  ghost predicate AlwaysFinishes(c: Config) {
    forall run :: Run(c, run) && AtEnd(c, run[|run| - 1]) ==> AllFed(c, run[|run| - 1])
  }

  /** One philosopher alone starves under both protocols: the footman has no seat
      to give, and the only fork has to be taken twice. */
  lemma LonelyPhilosopher(c: Config) returns (run: seq<State>)
    requires c.Valid() && c.n == 1
    ensures Run(c, run) && AtEnd(c, run[|run| - 1]) && !AllFed(c, run[|run| - 1])
  {
    var s := Init(c);
    if c.p.Footman? {
      run := [s];
      EndIsStuck(c, s);
      assert s.pc[0] != Done;
    } else {
      var t := Next(c, s, 0).value;
      run := [s, t];
      assert Step(c, s, 0, t);
      assert Advance(c, s, t);
      EndIsStuck(c, t);
      assert t.pc[0] != Done;
    }
  }

  /** Exactly which tables are free of deadlock. */
  lemma FinishesIffTwo(c: Config)
    requires c.Valid()
    ensures AlwaysFinishes(c) <==> c.n >= 2
  {
    if c.n >= 2 {
      forall run | Run(c, run) && AtEnd(c, run[|run| - 1]) ensures AllFed(c, run[|run| - 1]) {
        MaximalRunFinishes(c, run);
      }
    } else {
      var run := LonelyPhilosopher(c);
    }
  }
}
