/** The process table of proc.c: fork, exit, wait, kill, sleep, yield and the scheduler
    as interleaved steps of any number of processes. The table scans of allocproc, exit
    and wait take one step per slot; fork works on its new slot without ptable.lock,
    as the code does. A running process can be preempted wherever it does not hold
    ptable.lock. wakeup1, which runs entirely under the lock, is one step. */
module ProcTable {
  import opened Options

  datatype ProcState = UNUSED | EMBRYO | SLEEPING | RUNNABLE | RUNNING | ZOMBIE

  datatype Chan = NoChan | OfProc(p: nat) | Other(c: nat)

  /** Where in the kernel the process of a slot is. */
  datatype Pc =
    | Out
    | Scanning(k: nat) | Copying(np: nat) | Ready(np: nat)
    | Exiting | Locked | Adopting(k: nat)
    | WantWait | Waiting(k: nat, kids: bool) | InWait
    /** in sleep and in yield, with the place to go back to */
    | WantSleep(c: nat, back: Pc) | InSleep(back: Pc) | InYield(back: Pc)
    | Dead

  /** Where the process was before it went to sleep or was preempted. */
  function Base(pc: Pc): (r: Pc) {
    match pc
    case InYield(b) => if b.WantSleep? then b.back else b
    case InSleep(b) => b
    case WantSleep(_, b) => b
    case _ => pc
  }

  /** Kernel code that may sleep: exit closes files before it takes ptable.lock. */
  predicate MaySleep(pc: Pc) { pc.Out? || pc.Exiting? }

  /** Code that runs without ptable.lock, where a timer interrupt preempts. */
  predicate Preemptible(pc: Pc) {
    pc.Out? || pc.Copying? || pc.Ready? || pc.Exiting? || pc.WantWait? || (pc.WantSleep? && MaySleep(pc.back))
  }

  datatype Slot = Slot(state: ProcState, parent: Option<nat>, chan: Chan, killed: bool, pid: nat, pc: Pc)

  /** ptable.lock: free, held by a scheduler, or by a process. */
  datatype Holder = Free | Scheduler | Process(p: nat)

  datatype State = State(table: Holder, slots: seq<Slot>, nextpid: nat)

  /** The slot of initproc. */
  const INIT: nat := 0

  datatype Action =
    | StartFork | Scan | CopyFails | CopyDone | Publish
    | StartExit | LockExit | WakeParent | Adopt
    | StartWait | LockWait | Look | Resume
    | StartSleep(c: nat) | Sleep | Yield | Wakeup(c: nat) | Kill(q: nat)

  function Set(s: State, p: nat, x: Slot): (r: State)
    requires p < |s.slots|
  {
    State(s.table, s.slots[p := x], s.nextpid)
  }

  function SetPc(x: Slot, pc: Pc): (r: Slot) { Slot(x.state, x.parent, x.chan, x.killed, x.pid, pc) }

  function SetState(x: Slot, st: ProcState): (r: Slot) { Slot(st, x.parent, x.chan, x.killed, x.pid, x.pc) }

  function Lock(s: State, p: nat, pc: Pc): (r: Option<State>)
    requires p < |s.slots|
  {
    if s.table.Free? then Some(State(Process(p), s.slots[p := SetPc(s.slots[p], pc)], s.nextpid)) else None
  }

  function Unlock(s: State, p: nat, pc: Pc): (r: State)
    requires p < |s.slots|
  {
    State(Free, s.slots[p := SetPc(s.slots[p], pc)], s.nextpid)
  }

  /** The slots after wakeup1. */
  function Woken(slots: seq<Slot>, chan: Chan): (r: seq<Slot>)
    ensures |r| == |slots|
  {
    seq(|slots|, i requires 0 <= i < |slots| =>
      if slots[i].state == SLEEPING && slots[i].chan == chan then SetState(slots[i], RUNNABLE) else slots[i])
  }

  /** A step of the running process p; None if it has to wait or does not fit. */
  function Do(s: State, p: nat, a: Action): (r: Option<State>)
    requires p < |s.slots|
  {
    var x := s.slots[p];
    if x.state != RUNNING then None
    else if a.Resume? then Resumed(s, p)
    else if a.Yield? || a.StartSleep? || a.Sleep? then Pause(s, p, a)
    else if x.pc.Out? then Leave(s, p, a)
    else if x.pc.Scanning? || x.pc.Copying? || x.pc.Ready? then Fork(s, p, a)
    else if x.pc.Exiting? || x.pc.Locked? || x.pc.Adopting? then Exit(s, p, a)
    else if x.pc.WantWait? || x.pc.Waiting? then Wait(s, p, a)
    else None
  }

  /** yield on a timer tick, and sleep on some channel: take ptable.lock, give up the
      processor, and leave the lock to the scheduler. */
  function Pause(s: State, p: nat, a: Action): (r: Option<State>)
    requires p < |s.slots|
  {
    var x := s.slots[p];
    if a.StartSleep? then
      if MaySleep(x.pc) then Some(Set(s, p, SetPc(x, WantSleep(a.c, x.pc)))) else None
    else if !s.table.Free? then None
    else if a.Yield? && Preemptible(x.pc) then
      Some(State(Scheduler, s.slots[p := SetPc(SetState(x, RUNNABLE), InYield(x.pc))], s.nextpid))
    else if a.Sleep? && x.pc.WantSleep? then
      Some(State(Scheduler,
                 s.slots[p := Slot(SLEEPING, x.parent, Other(x.pc.c), x.killed, x.pid, InSleep(x.pc.back))], s.nextpid))
    else None
  }

  /** From outside the table code into one of its functions; exit of initproc panics. */
  function Leave(s: State, p: nat, a: Action): (r: Option<State>)
    requires p < |s.slots|
  {
    var x := s.slots[p];
    match a
    case StartFork => Lock(s, p, Scanning(0))
    case StartExit => if p == INIT then None else Some(Set(s, p, SetPc(x, Exiting)))
    case StartWait => Some(Set(s, p, SetPc(x, WantWait)))
    case _ => None
  }

  /** wakeup and kill, which take ptable.lock for the whole of their work and are
      called from anywhere else, interrupt handlers included. */
  function Outside(s: State, a: Action): (r: Option<State>) {
    if !s.table.Free? then None
    else if a.Wakeup? then Some(State(Free, Woken(s.slots, Other(a.c)), s.nextpid))
    else if a.Kill? && a.q < |s.slots| then
      var y := s.slots[a.q];
      Some(Set(s, a.q, Slot(if y.state == SLEEPING then RUNNABLE else y.state, y.parent, y.chan, true, y.pid, y.pc)))
    else None
  }

  /** allocproc's scan under the lock, then the rest of fork without it. */
  function Fork(s: State, p: nat, a: Action): (r: Option<State>)
    requires p < |s.slots|
  {
    var x := s.slots[p];
    match (x.pc, a)
    case (Scanning(k), Scan) =>
      if k >= |s.slots| then Some(Unlock(s, p, Out))
      else if s.slots[k].state != UNUSED then Some(Set(s, p, SetPc(x, Scanning(k + 1))))
      else
        var y := s.slots[k];
        Some(State(Free, s.slots[k := Slot(EMBRYO, y.parent, y.chan, y.killed, s.nextpid, InYield(Out))]
                          [p := SetPc(x, Copying(k))], s.nextpid + 1))
    case (Copying(np), CopyFails) =>
      if np < |s.slots| then
        Some(State(s.table, s.slots[np := SetPc(SetState(s.slots[np], UNUSED), Dead)][p := SetPc(x, Out)], s.nextpid))
      else None
    case (Copying(np), CopyDone) =>
      if np < |s.slots| then
        var y := s.slots[np];
        Some(State(s.table, s.slots[np := Slot(y.state, Some(p), y.chan, y.killed, y.pid, y.pc)]
                                   [p := SetPc(x, Ready(np))], s.nextpid))
      else None
    case (Ready(np), Publish) =>
      if np < |s.slots| then
        Some(State(s.table, s.slots[np := SetState(s.slots[np], RUNNABLE)][p := SetPc(x, Out)], s.nextpid))
      else None
    case _ => None
  }

  function Exit(s: State, p: nat, a: Action): (r: Option<State>)
    requires p < |s.slots|
  {
    var x := s.slots[p];
    match (x.pc, a)
    case (Exiting, LockExit) => Lock(s, p, Locked)
    case (Locked, WakeParent) =>
      var slots := if x.parent.Some? then Woken(s.slots, OfProc(x.parent.value)) else s.slots;
      Some(State(s.table, slots[p := SetPc(x, Adopting(0))], s.nextpid))
    case (Adopting(k), Adopt) =>
      if k < |s.slots| then
        var y := s.slots[k];
        if y.parent == Some(p) then
          var slots := s.slots[k := Slot(y.state, Some(INIT), y.chan, y.killed, y.pid, y.pc)];
          var slots' := if y.state == ZOMBIE then Woken(slots, OfProc(INIT)) else slots;
          Some(State(s.table, slots'[p := SetPc(slots'[p], Adopting(k + 1))], s.nextpid))
        else Some(Set(s, p, SetPc(x, Adopting(k + 1))))
      else
        Some(State(Scheduler, s.slots[p := SetPc(SetState(x, ZOMBIE), Dead)], s.nextpid))
    case _ => None
  }

  function Wait(s: State, p: nat, a: Action): (r: Option<State>)
    requires p < |s.slots|
  {
    var x := s.slots[p];
    match (x.pc, a)
    case (WantWait, LockWait) => Lock(s, p, Waiting(0, false))
    case (Waiting(k, kids), Look) =>
      if k < |s.slots| then
        var y := s.slots[k];
        if y.parent != Some(p) then Some(Set(s, p, SetPc(x, Waiting(k + 1, kids))))
        else if y.state != ZOMBIE then Some(Set(s, p, SetPc(x, Waiting(k + 1, true))))
        else Some(Unlock(State(s.table, s.slots[k := Slot(UNUSED, None, y.chan, false, 0, Dead)], s.nextpid), p, Out))
      else if !kids || x.killed then Some(Unlock(s, p, Out))
      else Some(State(Scheduler, s.slots[p := Slot(SLEEPING, x.parent, OfProc(p), x.killed, x.pid, InWait)], s.nextpid))
    case _ => None
  }

  /** Back from sched() with ptable.lock held: wait looks again, the others let go. */
  function Resumed(s: State, p: nat): (r: Option<State>)
    requires p < |s.slots|
  {
    var x := s.slots[p];
    match x.pc
    case InWait => Some(Set(s, p, Slot(x.state, x.parent, NoChan, x.killed, x.pid, Waiting(0, false))))
    case InSleep(b) => Some(Unlock(Set(s, p, Slot(x.state, x.parent, NoChan, x.killed, x.pid, x.pc)), p, b))
    case InYield(b) => Some(Unlock(s, p, b))
    case _ => None
  }

  ghost predicate SchedulerStep(s: State, p: nat, t: State) {
    || (s.table.Free? && t == State(Scheduler, s.slots, s.nextpid))
    || (s.table.Scheduler? && t == State(Free, s.slots, s.nextpid))
    || (s.table.Scheduler? && p < |s.slots| && s.slots[p].state == RUNNABLE &&
        t == State(Process(p), s.slots[p := SetState(s.slots[p], RUNNING)], s.nextpid))
  }

  ghost predicate Step(s: State, p: nat, a: Action, t: State) {
    (p < |s.slots| && Do(s, p, a) == Some(t)) || Outside(s, a) == Some(t) || SchedulerStep(s, p, t)
  }

  // -------------------------------------------------------------- invariants

  predicate Live(x: Slot) { x.state.SLEEPING? || x.state.RUNNABLE? || x.state.RUNNING? }

  /** Became RUNNABLE and has not been reaped. */
  predicate Started(x: Slot) { Live(x) || x.state.ZOMBIE? }

  predicate UnderLock(pc: Pc) { pc.Scanning? || pc.Locked? || pc.Adopting? || pc.Waiting? }

  predicate HoldsTable(x: Slot) {
    x.state.RUNNING? && (UnderLock(x.pc) || x.pc.InWait? || x.pc.InSleep? || x.pc.InYield?)
  }

  predicate AsleepInWait(x: Slot) { x.state.SLEEPING? && x.pc.InWait? }

  /** The slot a forking process is filling. */
  predicate Fills(x: Slot, np: nat) { Live(x) && (Base(x.pc) == Copying(np) || Base(x.pc) == Ready(np)) }

  /** Where a process can be, from its state. */
  predicate PcOk(x: Slot, p: nat) {
    match x.state
    case UNUSED => x.pc.Dead? && x.parent.None?
    case EMBRYO => x.pc == InYield(Out)
    case SLEEPING => (x.pc.InWait? && x.chan == OfProc(p)) || (x.pc.InSleep? && MaySleep(x.pc.back) && x.chan.Other?)
    case RUNNABLE => OffProcessor(x.pc)
    case RUNNING => OffProcessor(x.pc) || Preemptible(x.pc) || UnderLock(x.pc)
    case ZOMBIE => x.pc.Dead?
  }

  predicate OffProcessor(pc: Pc) {
    pc.InWait? || (pc.InSleep? && MaySleep(pc.back)) || (pc.InYield? && Preemptible(pc.back))
  }

  predicate SlotOk(s: State, p: nat)
    requires p < |s.slots|
  {
    var x := s.slots[p];
    && (s.table == Process(p) <==> HoldsTable(x))
    && PcOk(x, p)
    && (p == INIT ==> Live(x) && x.parent.None? && !Base(x.pc).Exiting? && !x.pc.Locked? && !x.pc.Adopting?)
    && (p != INIT && Started(x) ==> x.parent.Some?)
    && (x.parent.Some? ==> x.parent.value < |s.slots| && x.parent.value != p)
    && x.pid < s.nextpid
  }

  /** What holds between a process p and any other slot q. */
  predicate PairOk(s: State, p: nat, q: nat)
    requires p < |s.slots| && q < |s.slots|
  {
    var x, y := s.slots[p], s.slots[q];
    // a slot being filled is an embryo, and has a parent only once fork set it
    && (Fills(x, q) ==> p != q && y.state == EMBRYO && y.parent == if Base(x.pc).Ready? then Some(p) else None)
    // parents are alive
    && (y.parent == Some(p) ==> Live(x))
    // exit has handed over the children it has passed
    && (x.pc.Adopting? && q < x.pc.k ==> y.parent != Some(p))
    // wait has seen no zombie child so far, and sleeps only if there is none
    && (x.pc.Waiting? && q < x.pc.k && y.parent == Some(p) ==> y.state != ZOMBIE)
    && (AsleepInWait(x) && y.parent == Some(p) ==> y.state != ZOMBIE)
    // exit has woken its parent
    && (y.state.RUNNING? && y.pc.Adopting? && y.parent == Some(p) ==> !AsleepInWait(x))
    // process ids are unique among slots in use
    && (p != q && x.state != UNUSED && y.state != UNUSED ==> x.pid != y.pid)
  }

  /** No two processes fill the same slot. */
  predicate FillOk(s: State, p: nat, q: nat, np: nat)
    requires p < |s.slots| && q < |s.slots|
  {
    Fills(s.slots[p], np) && Fills(s.slots[q], np) ==> p == q
  }

  ghost predicate Inv(s: State) {
    && INIT < |s.slots|
    && (s.table.Process? ==> s.table.p < |s.slots|)
    && (forall p :: 0 <= p < |s.slots| ==> SlotOk(s, p))
    && (forall p, q :: 0 <= p < |s.slots| && 0 <= q < |s.slots| ==> PairOk(s, p, q))
    && (forall p, q, np :: 0 <= p < |s.slots| && 0 <= q < |s.slots| && 0 <= np < |s.slots| ==> FillOk(s, p, q, np))
  }

  /** The part of the invariant that is about the slots p, q, r and that of init. */
  predicate Around(s: State, p: nat, q: nat, r: nat)
    requires p < |s.slots| && q < |s.slots| && r < |s.slots|
  {
    && INIT < |s.slots| && SlotOk(s, INIT) && SlotOk(s, p) && SlotOk(s, q) && SlotOk(s, r)
    && PairOk(s, q, r) && PairOk(s, r, q) && PairOk(s, p, q) && PairOk(s, p, r) && PairOk(s, q, p) && PairOk(s, r, p)
  }

  lemma LeaveSlot(s: State, p: nat, a: Action, t: State, q: nat)
    requires p < |s.slots| && q < |s.slots| && s.slots[p].state.RUNNING? && s.slots[p].pc.Out? && Leave(s, p, a) == Some(t)
    requires SlotOk(s, p) && SlotOk(s, q)
    ensures |t.slots| == |s.slots| && SlotOk(t, q)
  {
  }

  lemma LeavePair(s: State, p: nat, a: Action, t: State, q: nat, r: nat)
    requires p < |s.slots| && q < |s.slots| && r < |s.slots| && s.slots[p].state.RUNNING? && s.slots[p].pc.Out?
    requires Leave(s, p, a) == Some(t) && |t.slots| == |s.slots|
    requires Around(s, p, q, r)
    ensures PairOk(t, q, r)
  {
  }

  /** wait has come to a zombie child. */
  predicate Reaps(s: State, p: nat, k: nat)
    requires p < |s.slots|
  {
    k < |s.slots| && s.slots[p].pc.Waiting? && s.slots[p].pc.k == k && s.slots[k].parent == Some(p) && s.slots[k].state.ZOMBIE?
  }

  lemma ReapSlot(s: State, p: nat, k: nat, t: State, q: nat)
    requires p < |s.slots| && q < |s.slots| && s.slots[p].state.RUNNING? && Reaps(s, p, k) && Wait(s, p, Look) == Some(t)
    requires SlotOk(s, p) && SlotOk(s, q) && SlotOk(s, INIT)
    ensures |t.slots| == |s.slots| && SlotOk(t, q)
  {
  }

  lemma ReapPair(s: State, p: nat, k: nat, t: State, q: nat, r: nat)
    requires p < |s.slots| && q < |s.slots| && r < |s.slots| && s.slots[p].state.RUNNING?
    requires Reaps(s, p, k) && Wait(s, p, Look) == Some(t) && |t.slots| == |s.slots| && Around(s, p, q, r)
    ensures PairOk(t, q, r)
  {
  }

  /** wait has looked at every slot. */
  lemma WaitEndPair(s: State, p: nat, t: State, q: nat, r: nat)
    requires p < |s.slots| && q < |s.slots| && r < |s.slots| && s.slots[p].state.RUNNING?
    requires s.slots[p].pc.Waiting? && s.slots[p].pc.k >= |s.slots|
    requires Wait(s, p, Look) == Some(t) && |t.slots| == |s.slots| && Around(s, p, q, r)
    ensures PairOk(t, q, r)
  {
  }

  lemma WaitSlot(s: State, p: nat, a: Action, t: State, q: nat)
    requires p < |s.slots| && q < |s.slots| && s.slots[p].state.RUNNING? && Wait(s, p, a) == Some(t)
    requires SlotOk(s, p) && SlotOk(s, q) && SlotOk(s, INIT)
    ensures |t.slots| == |s.slots| && SlotOk(t, q)
  {
    var pc := s.slots[p].pc;
    if a.Look? && pc.Waiting? && Reaps(s, p, pc.k) { ReapSlot(s, p, pc.k, t, q); }
  }

  lemma WaitPair(s: State, p: nat, a: Action, t: State, q: nat, r: nat)
    requires p < |s.slots| && q < |s.slots| && r < |s.slots| && s.slots[p].state.RUNNING? && Wait(s, p, a) == Some(t)
    requires |t.slots| == |s.slots| && Around(s, p, q, r)
    ensures PairOk(t, q, r)
  {
    var pc := s.slots[p].pc;
    if a.Look? && pc.Waiting? && Reaps(s, p, pc.k) { ReapPair(s, p, pc.k, t, q, r); }
    else if a.Look? && pc.Waiting? && pc.k >= |s.slots| { WaitEndPair(s, p, t, q, r); }
  }

  lemma AdoptSlot(s: State, p: nat, t: State, q: nat)
    requires p < |s.slots| && q < |s.slots| && s.slots[p].state.RUNNING? && Exit(s, p, Adopt) == Some(t)
    requires SlotOk(s, p) && SlotOk(s, q) && SlotOk(s, INIT)
    ensures |t.slots| == |s.slots| && SlotOk(t, q)
  {
  }

  lemma ExitSlot(s: State, p: nat, a: Action, t: State, q: nat)
    requires p < |s.slots| && q < |s.slots| && s.slots[p].state.RUNNING? && Exit(s, p, a) == Some(t)
    requires SlotOk(s, p) && SlotOk(s, q) && SlotOk(s, INIT)
    ensures |t.slots| == |s.slots| && SlotOk(t, q)
  {
    if a.Adopt? { AdoptSlot(s, p, t, q); }
  }

  predicate Adopts(s: State, p: nat, k: nat)
    requires p < |s.slots|
  {
    s.slots[p].state.RUNNING? && s.slots[p].pc == Adopting(k) && k < |s.slots| && s.slots[k].parent == Some(p)
  }

  lemma AdoptZombie(s: State, p: nat, k: nat, t: State, q: nat, r: nat)
    requires p < |s.slots| && q < |s.slots| && r < |s.slots| && Adopts(s, p, k) && s.slots[k].state.ZOMBIE?
    requires Exit(s, p, Adopt) == Some(t) && |t.slots| == |s.slots| && Around(s, p, q, r)
    ensures PairOk(t, q, r)
  {
  }

  lemma AdoptPair(s: State, p: nat, k: nat, t: State, q: nat, r: nat)
    requires p < |s.slots| && q < |s.slots| && r < |s.slots| && Adopts(s, p, k)
    requires Exit(s, p, Adopt) == Some(t) && |t.slots| == |s.slots| && Around(s, p, q, r)
    ensures PairOk(t, q, r)
  {
    if s.slots[k].state.ZOMBIE? { AdoptZombie(s, p, k, t, q, r); }
  }

  lemma SkipPair(s: State, p: nat, t: State, q: nat, r: nat)
    requires p < |s.slots| && q < |s.slots| && r < |s.slots| && s.slots[p].state.RUNNING?
    requires s.slots[p].pc.Adopting? && s.slots[p].pc.k < |s.slots|
    requires s.slots[s.slots[p].pc.k].parent != Some(p)
    requires Exit(s, p, Adopt) == Some(t) && |t.slots| == |s.slots| && Around(s, p, q, r)
    ensures PairOk(t, q, r)
  {
  }

  lemma DiePair(s: State, p: nat, t: State, q: nat, r: nat)
    requires p < |s.slots| && q < |s.slots| && r < |s.slots| && s.slots[p].state.RUNNING?
    requires s.slots[p].pc.Adopting? && s.slots[p].pc.k >= |s.slots|
    requires Exit(s, p, Adopt) == Some(t) && |t.slots| == |s.slots| && Around(s, p, q, r)
    ensures PairOk(t, q, r)
  {
  }

  lemma ExitPair(s: State, p: nat, a: Action, t: State, q: nat, r: nat)
    requires p < |s.slots| && q < |s.slots| && r < |s.slots| && s.slots[p].state.RUNNING? && Exit(s, p, a) == Some(t)
    requires |t.slots| == |s.slots| && Around(s, p, q, r)
    ensures PairOk(t, q, r)
  {
    var pc := s.slots[p].pc;
    if pc.Adopting? {
      if pc.k >= |s.slots| { DiePair(s, p, t, q, r); }
      else if s.slots[pc.k].parent == Some(p) { AdoptPair(s, p, pc.k, t, q, r); }
      else { SkipPair(s, p, t, q, r); }
    }
  }

  lemma ScanSlot(s: State, p: nat, a: Action, t: State, q: nat)
    requires p < |s.slots| && q < |s.slots| && s.slots[p].state.RUNNING? && s.slots[p].pc.Scanning? && Fork(s, p, a) == Some(t)
    requires SlotOk(s, p) && SlotOk(s, q) && PairOk(s, p, q)
    ensures |t.slots| == |s.slots| && SlotOk(t, q)
  {
  }

  lemma ForkSlot(s: State, p: nat, a: Action, t: State, q: nat)
    requires p < |s.slots| && q < |s.slots| && s.slots[p].state.RUNNING? && Fork(s, p, a) == Some(t)
    requires SlotOk(s, p) && SlotOk(s, q) && PairOk(s, p, q)
    ensures |t.slots| == |s.slots| && SlotOk(t, q)
  {
    if s.slots[p].pc.Scanning? { ScanSlot(s, p, a, t, q); }
  }

  lemma ScanPair(s: State, p: nat, a: Action, t: State, q: nat, r: nat)
    requires p < |s.slots| && q < |s.slots| && r < |s.slots| && s.slots[p].state.RUNNING? && s.slots[p].pc.Scanning?
    requires Fork(s, p, a) == Some(t) && |t.slots| == |s.slots| && Around(s, p, q, r) && FillOk(s, p, q, r)
    ensures PairOk(t, q, r)
  {
  }

  lemma CopyPair(s: State, p: nat, a: Action, t: State, q: nat, r: nat)
    requires p < |s.slots| && q < |s.slots| && r < |s.slots| && s.slots[p].state.RUNNING? && s.slots[p].pc.Copying?
    requires Fork(s, p, a) == Some(t) && |t.slots| == |s.slots| && Around(s, p, q, r) && FillOk(s, p, q, r)
    ensures PairOk(t, q, r)
  {
  }

  lemma ForkPair(s: State, p: nat, a: Action, t: State, q: nat, r: nat)
    requires p < |s.slots| && q < |s.slots| && r < |s.slots| && s.slots[p].state.RUNNING? && Fork(s, p, a) == Some(t)
    requires |t.slots| == |s.slots| && Around(s, p, q, r) && FillOk(s, p, q, r)
    ensures PairOk(t, q, r)
  {
    if s.slots[p].pc.Scanning? { ScanPair(s, p, a, t, q, r); }
    else if s.slots[p].pc.Copying? { CopyPair(s, p, a, t, q, r); }
  }

  predicate Pauses(a: Action) { a.Yield? || a.StartSleep? || a.Sleep? }

  lemma PauseSlot(s: State, p: nat, a: Action, t: State, q: nat)
    requires p < |s.slots| && q < |s.slots| && s.slots[p].state.RUNNING? && Pauses(a) && Pause(s, p, a) == Some(t)
    requires SlotOk(s, p) && SlotOk(s, q)
    ensures |t.slots| == |s.slots| && SlotOk(t, q)
  {
  }

  lemma PausePair(s: State, p: nat, a: Action, t: State, q: nat, r: nat)
    requires p < |s.slots| && q < |s.slots| && r < |s.slots| && s.slots[p].state.RUNNING? && Pauses(a)
    requires Pause(s, p, a) == Some(t) && |t.slots| == |s.slots| && Around(s, p, q, r)
    ensures PairOk(t, q, r)
  {
  }

  lemma ResumeSlot(s: State, p: nat, t: State, q: nat)
    requires p < |s.slots| && q < |s.slots| && s.slots[p].state.RUNNING? && Resumed(s, p) == Some(t)
    requires SlotOk(s, p) && SlotOk(s, q)
    ensures |t.slots| == |s.slots| && SlotOk(t, q)
  {
  }

  lemma ResumePair(s: State, p: nat, t: State, q: nat, r: nat)
    requires p < |s.slots| && q < |s.slots| && r < |s.slots| && s.slots[p].state.RUNNING?
    requires Resumed(s, p) == Some(t) && |t.slots| == |s.slots| && Around(s, p, q, r)
    ensures PairOk(t, q, r)
  {
  }

  /** wakeup and kill, and the scheduler's steps. */
  ghost predicate Environment(s: State, p: nat, a: Action, t: State) {
    SchedulerStep(s, p, t) || Outside(s, a) == Some(t)
  }

  lemma EnvironmentSlot(s: State, p: nat, a: Action, t: State, q: nat)
    requires Environment(s, p, a, t) && q < |s.slots| && SlotOk(s, q)
    ensures |t.slots| == |s.slots| && SlotOk(t, q)
  {
  }

  lemma EnvironmentPair(s: State, p: nat, a: Action, t: State, q: nat, r: nat)
    requires Environment(s, p, a, t) && |t.slots| == |s.slots| && q < |s.slots| && r < |s.slots|
    requires SlotOk(s, q) && SlotOk(s, r) && PairOk(s, q, r)
    ensures PairOk(t, q, r)
  {
  }

  ghost predicate FillNew(s: State, p: nat, t: State, q: nat, np: nat)
    requires q < |s.slots| == |t.slots| && np < |s.slots|
  {
    Fills(t.slots[q], np) ==> Fills(s.slots[q], np) || (q == p && s.slots[np].state == UNUSED)
  }

  lemma LeaveFill(s: State, p: nat, a: Action, t: State, q: nat, np: nat)
    requires p < |s.slots| && s.slots[p].state.RUNNING? && s.slots[p].pc.Out? && Leave(s, p, a) == Some(t)
    requires q < |s.slots| == |t.slots| && np < |s.slots| && SlotOk(s, q)
    ensures FillNew(s, p, t, q, np)
  {
  }

  lemma ForkFill(s: State, p: nat, a: Action, t: State, q: nat, np: nat)
    requires p < |s.slots| && s.slots[p].state.RUNNING? && Fork(s, p, a) == Some(t)
    requires q < |s.slots| == |t.slots| && np < |s.slots| && SlotOk(s, q)
    ensures FillNew(s, p, t, q, np)
  {
  }

  lemma ExitFill(s: State, p: nat, a: Action, t: State, q: nat, np: nat)
    requires p < |s.slots| && s.slots[p].state.RUNNING? && Exit(s, p, a) == Some(t)
    requires q < |s.slots| == |t.slots| && np < |s.slots| && SlotOk(s, q)
    ensures FillNew(s, p, t, q, np)
  {
  }

  lemma WaitFill(s: State, p: nat, a: Action, t: State, q: nat, np: nat)
    requires p < |s.slots| && s.slots[p].state.RUNNING? && Wait(s, p, a) == Some(t)
    requires q < |s.slots| == |t.slots| && np < |s.slots| && SlotOk(s, q)
    ensures FillNew(s, p, t, q, np)
  {
  }

  lemma PauseFill(s: State, p: nat, a: Action, t: State, q: nat, np: nat)
    requires p < |s.slots| && s.slots[p].state.RUNNING? && Pauses(a) && Pause(s, p, a) == Some(t)
    requires q < |s.slots| == |t.slots| && np < |s.slots|
    ensures FillNew(s, p, t, q, np)
  {
  }

  lemma ResumeFill(s: State, p: nat, t: State, q: nat, np: nat)
    requires p < |s.slots| && s.slots[p].state.RUNNING? && Resumed(s, p) == Some(t)
    requires q < |s.slots| == |t.slots| && np < |s.slots| && SlotOk(s, p)
    ensures FillNew(s, p, t, q, np)
  {
  }

  lemma EnvironmentFill(s: State, p: nat, a: Action, t: State, q: nat, np: nat)
    requires Environment(s, p, a, t) && q < |s.slots| == |t.slots| && np < |s.slots| && SlotOk(s, q)
    ensures FillNew(s, p, t, q, np)
  {
  }

  /** Only the process that finds a slot unused starts to fill it. */
  lemma FillStarts(s: State, p: nat, a: Action, t: State, q: nat, np: nat)
    requires Step(s, p, a, t) && q < |s.slots| == |t.slots| && np < |s.slots| && SlotOk(s, q)
    requires p < |s.slots| ==> SlotOk(s, p)
    ensures FillNew(s, p, t, q, np)
  {
    if Environment(s, p, a, t) { EnvironmentFill(s, p, a, t, q, np); }
    else {
      var pc := s.slots[p].pc;
      if a.Resume? { ResumeFill(s, p, t, q, np); }
      else if Pauses(a) { PauseFill(s, p, a, t, q, np); }
      else if pc.Out? { LeaveFill(s, p, a, t, q, np); }
      else if pc.Scanning? || pc.Copying? || pc.Ready? { ForkFill(s, p, a, t, q, np); }
      else if pc.Exiting? || pc.Locked? || pc.Adopting? { ExitFill(s, p, a, t, q, np); }
      else { WaitFill(s, p, a, t, q, np); }
    }
  }

  lemma StepFill(s: State, p: nat, a: Action, t: State, q: nat, r: nat, np: nat)
    requires Step(s, p, a, t) && |t.slots| == |s.slots| && q < |s.slots| && r < |s.slots| && np < |s.slots|
    requires FillOk(s, q, r, np) && PairOk(s, q, np) && PairOk(s, r, np) && SlotOk(s, q) && SlotOk(s, r)
    requires p < |s.slots| ==> SlotOk(s, p)
    ensures FillOk(t, q, r, np)
  {
    FillStarts(s, p, a, t, q, np);
    FillStarts(s, p, a, t, r, np);
  }

  lemma StepSlot(s: State, p: nat, a: Action, t: State, q: nat)
    requires Inv(s) && Step(s, p, a, t) && q < |s.slots|
    ensures |t.slots| == |s.slots| && SlotOk(t, q)
  {
    assert SlotOk(s, q) && SlotOk(s, INIT);
    if p < |s.slots| { assert SlotOk(s, p) && PairOk(s, p, q); }
    if Environment(s, p, a, t) { EnvironmentSlot(s, p, a, t, q); }
    else {
      var pc := s.slots[p].pc;
      if a.Resume? { ResumeSlot(s, p, t, q); }
      else if Pauses(a) { PauseSlot(s, p, a, t, q); }
      else if pc.Out? { LeaveSlot(s, p, a, t, q); }
      else if pc.Scanning? || pc.Copying? || pc.Ready? { ForkSlot(s, p, a, t, q); }
      else if pc.Exiting? || pc.Locked? || pc.Adopting? { ExitSlot(s, p, a, t, q); }
      else { WaitSlot(s, p, a, t, q); }
    }
  }

  lemma StepPair(s: State, p: nat, a: Action, t: State, q: nat, r: nat)
    requires Inv(s) && Step(s, p, a, t) && q < |s.slots| && r < |s.slots| && |t.slots| == |s.slots|
    ensures PairOk(t, q, r)
  {
    assert PairOk(s, q, r);
    if p < |s.slots| { assert Around(s, p, q, r) && FillOk(s, p, q, r); }
    if Environment(s, p, a, t) { EnvironmentPair(s, p, a, t, q, r); }
    else {
      var pc := s.slots[p].pc;
      if a.Resume? { ResumePair(s, p, t, q, r); }
      else if Pauses(a) { PausePair(s, p, a, t, q, r); }
      else if pc.Out? { LeavePair(s, p, a, t, q, r); }
      else if pc.Scanning? || pc.Copying? || pc.Ready? { ForkPair(s, p, a, t, q, r); }
      else if pc.Exiting? || pc.Locked? || pc.Adopting? { ExitPair(s, p, a, t, q, r); }
      else { WaitPair(s, p, a, t, q, r); }
    }
  }

  /** Every step keeps the invariant. */
  lemma StepInv(s: State, p: nat, a: Action, t: State)
    requires Inv(s) && Step(s, p, a, t)
    ensures Inv(t) && |t.slots| == |s.slots|
  {
    StepSlot(s, p, a, t, INIT);
    forall q | 0 <= q < |s.slots| ensures SlotOk(t, q) { StepSlot(s, p, a, t, q); }
    forall q, r | 0 <= q < |s.slots| && 0 <= r < |s.slots| ensures PairOk(t, q, r) { StepPair(s, p, a, t, q, r); }
    forall q, r, np | 0 <= q < |s.slots| && 0 <= r < |s.slots| && 0 <= np < |s.slots| ensures FillOk(t, q, r, np) {
      assert FillOk(s, q, r, np) && PairOk(s, q, np) && PairOk(s, r, np) && SlotOk(s, q) && SlotOk(s, r);
      if p < |s.slots| { assert SlotOk(s, p); }
      StepFill(s, p, a, t, q, r, np);
    }
    if t.table.Process? { StepHolder(s, p, a, t); }
  }

  lemma StepHolder(s: State, p: nat, a: Action, t: State)
    requires Step(s, p, a, t) && t.table.Process? && (s.table.Process? ==> s.table.p < |s.slots|)
    ensures t.table.p < |s.slots|
  {
    if Outside(s, a) != Some(t) && !SchedulerStep(s, p, t) { DoHolder(s, p, a, t); }
  }

  /** Only the process itself takes ptable.lock for itself. */
  lemma DoHolder(s: State, p: nat, a: Action, t: State)
    requires p < |s.slots| && Do(s, p, a) == Some(t) && t.table.Process?
    ensures t.table == s.table || t.table.p == p
  {
    hide Woken, SetState, SetPc;
  }

  // -------------------------------------------------------------------- runs

  /** After userinit: only init exists, runnable for the first time. */
  predicate IsInit(s: State) {
    && INIT < |s.slots| && s.table.Free? && s.nextpid == 2
    && s.slots[INIT] == Slot(RUNNABLE, None, NoChan, false, 1, InYield(Out))
    && forall p :: 0 <= p < |s.slots| && p != INIT ==> s.slots[p] == Slot(UNUSED, None, NoChan, false, 0, Dead)
  }

  ghost predicate Advance(s: State, t: State) {
    exists p, a :: Step(s, p, a, t)
  }

  /** Any interleaving of any number of processes and schedulers. */
  ghost predicate Run(run: seq<State>) {
    run != [] && IsInit(run[0]) && forall k :: 0 < k < |run| ==> Advance(run[k - 1], run[k])
  }

  lemma {:induction false} RunInv(run: seq<State>, k: nat)
    requires Run(run) && k < |run|
    ensures Inv(run[k]) && |run[k].slots| == |run[0].slots|
  {
    if k > 0 {
      RunInv(run, k - 1);
      assert Advance(run[k - 1], run[k]);
      var p, a :| Step(run[k - 1], p, a, run[k]);
      StepInv(run[k - 1], p, a, run[k]);
    }
  }

  /** In every reachable state every process that ever became runnable, except init,
      has a parent that is neither UNUSED nor ZOMBIE, and init itself is alive. */
  lemma ParentsAlive(run: seq<State>, k: nat, q: nat)
    requires Run(run) && k < |run| && q < |run[k].slots| && Started(run[k].slots[q])
    ensures q == INIT ==> Live(run[k].slots[q])
    ensures q != INIT ==>
      && run[k].slots[q].parent.Some? && run[k].slots[q].parent.value < |run[k].slots|
      && Live(run[k].slots[run[k].slots[q].parent.value])
  {
    RunInv(run, k);
    assert SlotOk(run[k], q);
    if q != INIT { assert PairOk(run[k], run[k].slots[q].parent.value, q); }
  }

  /** No process sleeps in wait while it has a zombie child to collect. */
  lemma NoZombieForgotten(run: seq<State>, k: nat, p: nat, q: nat)
    requires Run(run) && k < |run| && p < |run[k].slots| && q < |run[k].slots|
    requires run[k].slots[q].state == ZOMBIE && run[k].slots[q].parent == Some(p)
    ensures !AsleepInWait(run[k].slots[p])
  {
    RunInv(run, k);
    assert PairOk(run[k], p, q);
  }

  /** Processes in use have different pids. */
  lemma PidsDistinct(run: seq<State>, k: nat, p: nat, q: nat)
    requires Run(run) && k < |run| && p < |run[k].slots| && q < |run[k].slots| && p != q
    requires run[k].slots[p].state != UNUSED && run[k].slots[q].state != UNUSED
    ensures run[k].slots[p].pid != run[k].slots[q].pid
  {
    RunInv(run, k);
    assert PairOk(run[k], p, q);
  }

  lemma ForkLifecycle(s: State, p: nat, a: Action, t: State, q: nat)
    requires p < |s.slots| && q < |s.slots| && Fork(s, p, a) == Some(t) && SlotOk(s, p) && SlotOk(s, q) && PairOk(s, p, q)
    requires s.slots[p].state.RUNNING?
    ensures |t.slots| == |s.slots| && (Live(s.slots[q]) ==> Started(t.slots[q]))
  {
  }

  lemma ExitLifecycle(s: State, p: nat, a: Action, t: State, q: nat)
    requires p < |s.slots| && q < |s.slots| && Exit(s, p, a) == Some(t) && SlotOk(s, p) && SlotOk(s, q) && PairOk(s, p, q)
    requires s.slots[p].state.RUNNING?
    ensures |t.slots| == |s.slots| && (Live(s.slots[q]) ==> Started(t.slots[q]))
  {
  }

  lemma DoLifecycle(s: State, p: nat, a: Action, t: State, q: nat)
    requires p < |s.slots| && q < |s.slots| && Do(s, p, a) == Some(t) && SlotOk(s, p) && SlotOk(s, q) && PairOk(s, p, q)
    ensures |t.slots| == |s.slots| && (Live(s.slots[q]) ==> Started(t.slots[q]))
  {
    var pc := s.slots[p].pc;
    if !a.Resume? && !Pauses(a) {
      if pc.Scanning? || pc.Copying? || pc.Ready? { ForkLifecycle(s, p, a, t, q); }
      if pc.Exiting? || pc.Locked? || pc.Adopting? { ExitLifecycle(s, p, a, t, q); }
    }
  }

  lemma StepLifecycle(s: State, p: nat, a: Action, t: State, q: nat)
    requires Inv(s) && Step(s, p, a, t) && q < |s.slots|
    ensures |t.slots| == |s.slots| && (Live(s.slots[q]) ==> Started(t.slots[q]))
  {
    assert SlotOk(s, q);
    if p < |s.slots| && Do(s, p, a) == Some(t) {
      assert SlotOk(s, p) && PairOk(s, p, q);
      DoLifecycle(s, p, a, t, q);
    }
  }

  /** A slot that became runnable is freed only after having been a zombie. */
  lemma {:induction false} FreedThroughZombie(run: seq<State>, i: nat, j: nat, q: nat) returns (k: nat)
    requires Run(run) && i <= j < |run| && q < |run[0].slots|
    requires |run[i].slots| == |run[j].slots| == |run[0].slots|
    requires Live(run[i].slots[q]) && run[j].slots[q].state == UNUSED
    ensures i < k < j && |run[k].slots| == |run[0].slots| && run[k].slots[q].state == ZOMBIE
    decreases j - i
  {
    RunInv(run, i);
    RunInv(run, i + 1);
    assert Advance(run[i], run[i + 1]);
    var p, a :| Step(run[i], p, a, run[i + 1]);
    StepLifecycle(run[i], p, a, run[i + 1], q);
    if run[i + 1].slots[q].state == ZOMBIE { k := i + 1; } else { k := FreedThroughZombie(run, i + 1, j, q); }
  }
}
