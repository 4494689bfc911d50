/** Pipes (pipe.c): any number of readers and writers, one step per byte, under the
    pipe's lock. Putting a process to sleep releases the lock in the same step, and
    wakeup takes one step (module SleepWakeup is about why that is sound). */
module Pipe {
  import opened Arithmetic
  import opened Options

  const UINT: nat := 0x1_0000_0000

  /** PIPESIZE is a parameter; the code's 512 is one instance. */
  datatype Config = Config(n: nat, size: nat) {
    predicate Valid() { 0 < size < UINT && UINT % size == 0 }
  }

  lemma CodeSize(n: nat)
    ensures Config(n, 512).Valid()
  {
  }

  datatype Pc =
    | Idle
    | WantWrite(src: seq<int>, i: nat) | Writing(src: seq<int>, i: nat) | WriteAsleep(src: seq<int>, i: nat)
    | WantRead(n: nat) | Testing(n: nat) | Copying(n: nat, addr: seq<int>) | ReadAsleep(n: nat)

  /** A call of process p that has returned r: pipewrite of `src`, which came to byte i,
      or piperead of n bytes, which left `addr` in the reader's buffer. */
  datatype Return = Wrote(p: nat, src: seq<int>, i: nat, r: int) | Got(p: nat, n: nat, addr: seq<int>, r: int)

  /** The fields of struct pipe, the processes, and the history: all bytes that were ever
      stored, and by whom; all that were ever delivered; and the calls that returned. */
  datatype State = State(
    lock: Option<nat>, data: seq<int>, nread: nat, nwrite: nat, readopen: bool, writeopen: bool,
    pc: seq<Pc>, killed: seq<bool>, stored: seq<int>, writer: seq<nat>, delivered: seq<int>, returned: seq<Return>)

  predicate Shaped(c: Config, s: State) {
    |s.data| == c.size && |s.pc| == |s.killed| == c.n
  }

  function Full(c: Config, s: State): bool { s.nwrite == (s.nread + c.size) % UINT }

  predicate Writer(pc: Pc) { pc.WantWrite? || pc.Writing? || pc.WriteAsleep? }

  predicate Reader(pc: Pc) { pc.WantRead? || pc.Testing? || pc.Copying? || pc.ReadAsleep? }

  /** The two wakeups: of those asleep reading, and of those asleep writing. */
  function WakeReaders(pc: seq<Pc>): (r: seq<Pc>)
    ensures |r| == |pc|
  {
    seq(|pc|, i requires 0 <= i < |pc| => if pc[i].ReadAsleep? then WantRead(pc[i].n) else pc[i])
  }

  function WakeWriters(pc: seq<Pc>): (r: seq<Pc>)
    ensures |r| == |pc|
  {
    seq(|pc|, i requires 0 <= i < |pc| => if pc[i].WriteAsleep? then WantWrite(pc[i].src, pc[i].i) else pc[i])
  }

  function Go(s: State, lock: Option<nat>, pc: seq<Pc>): (r: State) {
    s.(lock := lock, pc := pc)
  }

  /** The call leaves with the lock free. */
  function Leave(s: State, pc: seq<Pc>, x: Return): (r: State) {
    s.(lock := None, pc := pc, returned := s.returned + [x])
  }

  /** The next step of process p inside pipewrite or piperead; None if it waits. */
  function Next(c: Config, s: State, p: nat): (r: Option<State>)
    requires c.Valid() && Shaped(c, s) && p < c.n
  {
    match s.pc[p]
    case Idle => None
    case WantWrite(src, i) => if s.lock.None? then Some(Go(s, Some(p), s.pc[p := Writing(src, i)])) else None
    case Writing(src, i) =>
      if i >= |src| then Some(Leave(s, WakeReaders(s.pc)[p := Idle], Wrote(p, src, i, |src|)))
      else if Full(c, s) then
        if !s.readopen || s.killed[p] then Some(Leave(s, s.pc[p := Idle], Wrote(p, src, i, -1)))
        else Some(Go(s, None, WakeReaders(s.pc)[p := WriteAsleep(src, i)]))
      else
        Some(s.(data := s.data[s.nwrite % c.size := src[i]], nwrite := (s.nwrite + 1) % UINT,
                pc := s.pc[p := Writing(src, i + 1)], stored := s.stored + [src[i]], writer := s.writer + [p]))
    case WriteAsleep(_, _) => None
    case WantRead(n) => if s.lock.None? then Some(Go(s, Some(p), s.pc[p := Testing(n)])) else None
    case Testing(n) =>
      if s.nread == s.nwrite && s.writeopen then
        if s.killed[p] then Some(Leave(s, s.pc[p := Idle], Got(p, n, [], -1)))
        else Some(Go(s, None, s.pc[p := ReadAsleep(n)]))
      else Some(Go(s, s.lock, s.pc[p := Copying(n, [])]))
    case Copying(n, addr) =>
      if |addr| >= n || s.nread == s.nwrite then
        Some(Leave(s, WakeWriters(s.pc)[p := Idle], Got(p, n, addr, |addr|)))
      else
        var b := s.data[s.nread % c.size];
        Some(s.(nread := (s.nread + 1) % UINT, pc := s.pc[p := Copying(n, addr + [b])], delivered := s.delivered + [b]))
    case ReadAsleep(_) => None
  }

  /** Calls into the pipe. An end stays open while a process is using it, so
      pipeclose comes only after the last reader, or the last writer, is out. */
  datatype Call = Write(src: seq<int>) | Read(n: nat) | CloseWrite | CloseRead | Kill

  function Do(c: Config, s: State, p: nat, a: Call): (r: Option<State>)
    requires c.Valid() && Shaped(c, s) && p < c.n
  {
    match a
    case Write(src) => if s.pc[p].Idle? && s.writeopen then Some(Go(s, s.lock, s.pc[p := WantWrite(src, 0)])) else None
    case Read(n) => if s.pc[p].Idle? && s.readopen then Some(Go(s, s.lock, s.pc[p := WantRead(n)])) else None
    case CloseWrite =>
      if s.lock.None? && s.writeopen && (forall q :: 0 <= q < c.n ==> !Writer(s.pc[q])) then
        Some(s.(writeopen := false, pc := WakeReaders(s.pc)))
      else None
    case CloseRead =>
      if s.lock.None? && s.readopen && (forall q :: 0 <= q < c.n ==> !Reader(s.pc[q])) then
        Some(s.(readopen := false, pc := WakeWriters(s.pc)))
      else None
    case Kill =>
      var x := s.pc[p];
      Some(s.(pc := s.pc[p := if x.ReadAsleep? then WantRead(x.n) else if x.WriteAsleep? then WantWrite(x.src, x.i) else x],
              killed := s.killed[p := true]))
  }

  ghost predicate Step(c: Config, s: State, p: nat, a: Option<Call>, t: State) {
    c.Valid() && Shaped(c, s) && p < c.n && (if a.None? then Next(c, s, p) else Do(c, s, p, a.value)) == Some(t)
  }

  // -------------------------------------------------------------- arithmetic

  /** Counters modulo 2^32 still select the right cell of the ring, because the ring
      size divides 2^32. */
  lemma RingIndex(c: Config, k: nat)
    requires c.Valid()
    ensures k % UINT % c.size == k % c.size
  {
    var q, r := k / UINT, k % UINT;
    var d := UINT / c.size;
    assert UINT == c.size * d;
    assert k == c.size * (d * q + r / c.size) + r % c.size;
    assert k == c.size * (k / c.size) + k % c.size;
    DivModUnique(c.size, d * q + r / c.size, r % c.size, k / c.size, k % c.size);
  }

  /** Different bytes in flight are in different cells. */
  lemma RingDistinct(c: Config, j: nat, k: nat)
    requires c.Valid() && j < k < j + c.size
    ensures j % c.size != k % c.size
  {
    var m := c.size;
    var a, b := j / m, k / m;
    assert k - j == m * b - m * a + (k % m - j % m);
    assert m * (b - a) == m * b - m * a;
    if b > a { MulAtLeast(m, b - a); } else if b < a { MulAtLeast(m, a - b); }
  }

  lemma WrapSucc(k: nat)
    ensures (k % UINT + 1) % UINT == (k + 1) % UINT
  {
  }

  lemma WrapTells(size: nat, r: nat, w: nat)
    requires size < UINT && r <= w <= r + size
    ensures w % UINT == (r % UINT + size) % UINT <==> w - r == size
    ensures r % UINT == w % UINT <==> w == r
  {
  }

  // -------------------------------------------------------------------- FIFO

  /** The ring holds exactly the bytes stored and not yet delivered, in order. */
  ghost predicate RingOk(c: Config, s: State)
    requires Shaped(c, s)
  {
    var r, w := |s.delivered|, |s.stored|;
    && r <= w <= r + c.size
    && s.nread == r % UINT && s.nwrite == w % UINT
    && s.delivered == s.stored[..r]
    && forall k :: r <= k < w ==> InCell(c, s, k)
  }

  predicate InCell(c: Config, s: State, k: nat)
    requires Shaped(c, s) && k < |s.stored|
  {
    c.size > 0 && s.data[k % c.size] == s.stored[k]
  }

  /** The wrapped counters tell a full and an empty pipe apart from all others. */
  lemma FullEmpty(c: Config, s: State)
    requires c.Valid() && Shaped(c, s) && RingOk(c, s)
    ensures Full(c, s) <==> |s.stored| - |s.delivered| == c.size
    ensures s.nread == s.nwrite <==> |s.stored| == |s.delivered|
  {
    WrapTells(c.size, |s.delivered|, |s.stored|);
  }

  lemma StoreRing(c: Config, s: State, t: State, b: int)
    requires c.Valid() && Shaped(c, s) && Shaped(c, t) && RingOk(c, s) && !Full(c, s)
    requires t.data == s.data[s.nwrite % c.size := b] && t.nread == s.nread && t.nwrite == (s.nwrite + 1) % UINT
    requires t.stored == s.stored + [b] && t.delivered == s.delivered
    ensures RingOk(c, t)
  {
    FullEmpty(c, s);
    var r, w := |s.delivered|, |s.stored|;
    RingIndex(c, w);
    WrapSucc(w);
    forall k | r <= k < w + 1 ensures InCell(c, t, k) {
      if k < w {
        assert InCell(c, s, k);
        RingDistinct(c, k, w);
      }
    }
  }

  lemma TakeRing(c: Config, s: State, t: State)
    requires c.Valid() && Shaped(c, s) && Shaped(c, t) && RingOk(c, s) && s.nread != s.nwrite
    requires t.data == s.data && t.nread == (s.nread + 1) % UINT && t.nwrite == s.nwrite
    requires t.stored == s.stored && t.delivered == s.delivered + [s.data[s.nread % c.size]]
    ensures RingOk(c, t)
  {
    FullEmpty(c, s);
    var r := |s.delivered|;
    RingIndex(c, r);
    WrapSucc(r);
    assert InCell(c, s, r);
    forall k | r + 1 <= k < |s.stored| ensures InCell(c, t, k) { assert InCell(c, s, k); }
  }

  ghost predicate SameRing(s: State, t: State) {
    t.data == s.data && t.nread == s.nread && t.nwrite == s.nwrite && t.stored == s.stored && t.delivered == s.delivered
  }

  lemma StepRing(c: Config, s: State, p: nat, a: Option<Call>, t: State)
    requires Step(c, s, p, a, t) && RingOk(c, s)
    ensures Shaped(c, t) && RingOk(c, t)
  {
    if a.None? && s.pc[p].Writing? && s.pc[p].i < |s.pc[p].src| && !Full(c, s) {
      StoreRing(c, s, t, s.pc[p].src[s.pc[p].i]);
    } else if a.None? && s.pc[p].Copying? && |s.pc[p].addr| < s.pc[p].n && s.nread != s.nwrite {
      TakeRing(c, s, t);
    } else {
      OtherRing(c, s, p, a, t);
      assert forall k :: 0 <= k < |s.stored| ==> InCell(c, t, k) == InCell(c, s, k);
    }
  }

  lemma OtherRing(c: Config, s: State, p: nat, a: Option<Call>, t: State)
    requires Step(c, s, p, a, t)
    requires !(a.None? && s.pc[p].Writing? && s.pc[p].i < |s.pc[p].src| && !Full(c, s))
    requires !(a.None? && s.pc[p].Copying? && |s.pc[p].addr| < s.pc[p].n && s.nread != s.nwrite)
    ensures Shaped(c, t) && SameRing(s, t)
  {
    hide Full;
  }

  // --------------------------------------------------------------- sleepers

  predicate Locked(pc: Pc) { pc.Writing? || pc.Testing? || pc.Copying? }

  predicate ProcOk(c: Config, s: State, p: nat)
    requires Shaped(c, s) && p < c.n
  {
    && (s.lock == Some(p) <==> Locked(s.pc[p]))
    && (Writer(s.pc[p]) ==> s.writeopen)
    && (Reader(s.pc[p]) ==> s.readopen)
  }

  /** The lock is held by a writer that will wake readers before it lets go, or by a
      reader that will wake writers. */
  predicate WriterBusy(c: Config, s: State)
    requires Shaped(c, s)
  {
    s.lock.Some? && s.lock.value < c.n && s.pc[s.lock.value].Writing?
  }

  predicate ReaderBusy(c: Config, s: State)
    requires Shaped(c, s)
  {
    s.lock.Some? && s.lock.value < c.n && s.pc[s.lock.value].Copying?
  }

  /** No writer sleeps on a condition that holds, unless a reader is at work. */
  predicate WriterOk(c: Config, s: State, p: nat)
    requires Shaped(c, s) && p < c.n
  {
    s.pc[p].WriteAsleep? ==> (Full(c, s) && s.readopen) || ReaderBusy(c, s)
  }

  /** The same for a reader. */
  predicate ReaderOk(c: Config, s: State, p: nat)
    requires Shaped(c, s) && p < c.n
  {
    s.pc[p].ReadAsleep? ==> (s.nread == s.nwrite && s.writeopen) || WriterBusy(c, s)
  }

  ghost predicate Inv(c: Config, s: State) {
    && c.Valid() && Shaped(c, s) && RingOk(c, s)
    && (s.lock.Some? ==> s.lock.value < c.n)
    && (forall p :: 0 <= p < c.n ==> ProcOk(c, s, p))
    && (forall p :: 0 <= p < c.n ==> WriterOk(c, s, p))
  }

  /** Writer p is about to return early: the pipe is full and it was killed. On this
      way out pipewrite wakes nobody. */
  predicate Quits(c: Config, s: State, p: nat)
    requires Shaped(c, s) && p < c.n
  {
    s.pc[p].Writing? && s.pc[p].i < |s.pc[p].src| && Full(c, s) && s.readopen && s.killed[p]
  }

  lemma StepProc(c: Config, s: State, p: nat, a: Option<Call>, t: State, q: nat)
    requires Step(c, s, p, a, t) && Shaped(c, t) && q < c.n && ProcOk(c, s, p) && ProcOk(c, s, q)
    ensures ProcOk(c, t, q)
  {
  }

  lemma StepWriter(c: Config, s: State, p: nat, a: Option<Call>, t: State, q: nat)
    requires Step(c, s, p, a, t) && Shaped(c, t) && q < c.n
    requires ProcOk(c, s, p) && ProcOk(c, s, q) && WriterOk(c, s, q)
    ensures WriterOk(c, t, q)
  {
  }

  /** Every step but that early return keeps every reader's promise. */
  lemma StepReader(c: Config, s: State, p: nat, a: Option<Call>, t: State, q: nat)
    requires Step(c, s, p, a, t) && Shaped(c, t) && q < c.n && !(a.None? && Quits(c, s, p) && s.pc[q].ReadAsleep?)
    requires ProcOk(c, s, p) && ProcOk(c, s, q) && ReaderOk(c, s, q)
    ensures ReaderOk(c, t, q)
  {
  }

  lemma StepInv(c: Config, s: State, p: nat, a: Option<Call>, t: State)
    requires Inv(c, s) && Step(c, s, p, a, t)
    ensures Inv(c, t)
  {
    StepRing(c, s, p, a, t);
    assert ProcOk(c, s, p);
    forall q | 0 <= q < c.n ensures ProcOk(c, t, q) && WriterOk(c, t, q) {
      assert ProcOk(c, s, q) && WriterOk(c, s, q);
      StepProc(c, s, p, a, t, q);
      StepWriter(c, s, p, a, t, q);
    }
  }

  // -------------------------------------------------------------------- runs

  /** pipealloc: both ends open, both counters 0, contents arbitrary. */
  predicate IsInit(c: Config, s: State) {
    && Shaped(c, s) && s.lock.None? && s.nread == s.nwrite == 0 && s.readopen && s.writeopen
    && (forall p :: 0 <= p < c.n ==> s.pc[p].Idle? && !s.killed[p])
    && s.stored == s.delivered == [] && s.writer == [] && s.returned == []
  }

  ghost predicate Advance(c: Config, s: State, t: State) {
    exists p, a :: Step(c, s, p, a, t)
  }

  ghost predicate Run(c: Config, run: seq<State>) {
    c.Valid() && run != [] && IsInit(c, run[0]) && forall k :: 0 < k < |run| ==> Advance(c, run[k - 1], run[k])
  }

  lemma {:induction false} RunInv(c: Config, run: seq<State>, k: nat)
    requires Run(c, run) && k < |run|
    ensures Inv(c, run[k])
  {
    if k > 0 {
      RunInv(c, run, k - 1);
      assert Advance(c, run[k - 1], run[k]);
      var p, a :| Step(c, run[k - 1], p, a, run[k]);
      StepInv(c, run[k - 1], p, a, run[k]);
    }
  }

  /** The pipe is a FIFO: what the readers together were given is always a prefix of
      what the writers together stored. */
  lemma Fifo(c: Config, run: seq<State>, k: nat)
    requires Run(c, run) && k < |run|
    ensures run[k].delivered <= run[k].stored
  {
    RunInv(c, run, k);
  }

  /** nwrite - nread modulo 2^32 is the number of bytes in flight, at most the ring
      size, however often the counters have wrapped. */
  lemma Occupancy(c: Config, run: seq<State>, k: nat)
    requires Run(c, run) && k < |run|
    ensures var s := run[k]; (s.nwrite - s.nread) % UINT == |s.stored| - |s.delivered| <= c.size
  {
    RunInv(c, run, k);
    WrapDifference(|run[k].delivered|, |run[k].stored|);
  }

  lemma WrapDifference(r: nat, w: nat)
    requires r <= w < r + UINT
    ensures (w % UINT - r % UINT) % UINT == w - r
  {
  }

  /** With the lock free, a writer sleeps although there is room or no reader left. */
  predicate WriterForgotten(c: Config, s: State, p: nat) {
    Shaped(c, s) && p < c.n && s.lock.None? && s.pc[p].WriteAsleep? && (!Full(c, s) || !s.readopen)
  }

  /** With the lock free, a reader sleeps although there are bytes or no writer left. */
  predicate ReaderForgotten(c: Config, s: State, p: nat) {
    Shaped(c, s) && p < c.n && s.lock.None? && s.pc[p].ReadAsleep? && (s.nread != s.nwrite || !s.writeopen)
  }

  /** In no run is a writer left asleep on a pipe with room, or without a reader. */
  lemma NoWriterForgotten(c: Config, run: seq<State>, k: nat, p: nat)
    requires Run(c, run) && k < |run|
    ensures !WriterForgotten(c, run[k], p)
  {
    RunInv(c, run, k);
    if p < c.n { assert WriterOk(c, run[k], p); }
  }

  /** A killed writer returns early from a full pipe while a reader sleeps. */
  ghost predicate Abandons(c: Config, s: State, t: State) {
    exists p, q :: AbandonsReader(c, s, p, q, t)
  }

  ghost predicate AbandonsReader(c: Config, s: State, p: nat, q: nat, t: State) {
    Step(c, s, p, None, t) && Quits(c, s, p) && q < c.n && s.pc[q].ReadAsleep?
  }

  /** That reader is then left asleep on a full pipe. */
  lemma AbandonForgets(c: Config, s: State, p: nat, q: nat, t: State)
    requires Inv(c, s) && AbandonsReader(c, s, p, q, t)
    ensures ReaderForgotten(c, t, q)
  {
    FullEmpty(c, s);
  }

  lemma {:induction false} ReadersOk(c: Config, run: seq<State>, k: nat, q: nat)
    requires Run(c, run) && k < |run| && q < c.n
    requires forall j :: 0 < j <= k ==> !Abandons(c, run[j - 1], run[j])
    ensures Shaped(c, run[k]) && ReaderOk(c, run[k], q)
  {
    if k > 0 {
      ReadersOk(c, run, k - 1, q);
      RunInv(c, run, k - 1);
      RunInv(c, run, k);
      var s, t := run[k - 1], run[k];
      assert Advance(c, s, t);
      var p, a :| Step(c, s, p, a, t);
      assert !AbandonsReader(c, s, p, q, t);
      assert ProcOk(c, s, p) && ProcOk(c, s, q);
      StepReader(c, s, p, a, t, q);
    }
  }

  /** No reader is forgotten as long as no killed writer returns early while a reader
      sleeps. */
  lemma NoReaderForgotten(c: Config, run: seq<State>, k: nat, q: nat)
    requires Run(c, run) && k < |run|
    requires forall j :: 0 < j <= k ==> !Abandons(c, run[j - 1], run[j])
    ensures !ReaderForgotten(c, run[k], q)
  {
    RunInv(c, run, k);
    if q < c.n { ReadersOk(c, run, k, q); }
  }

  ghost predicate ForgetsReader(c: Config, run: seq<State>) {
    exists k, q :: 0 <= k < |run| && ReaderForgotten(c, run[k], q)
  }

  ghost predicate AbandonsSome(c: Config, run: seq<State>) {
    exists j :: 0 < j < |run| && Abandons(c, run[j - 1], run[j])
  }

  /** A run forgets a reader exactly if somewhere in it a killed writer takes the early
      return while a reader sleeps. */
  lemma ForgetsIffAbandons(c: Config, run: seq<State>)
    requires Run(c, run)
    ensures ForgetsReader(c, run) <==> AbandonsSome(c, run)
  {
    hide AbandonsReader, Step, Inv, Shaped, ReaderForgotten, Quits, Full;
    if AbandonsSome(c, run) {
      var j :| 0 < j < |run| && Abandons(c, run[j - 1], run[j]);
      var p, q :| AbandonsReader(c, run[j - 1], p, q, run[j]);
      RunInv(c, run, j - 1);
      AbandonForgets(c, run[j - 1], p, q, run[j]);
    } else if ForgetsReader(c, run) {
      var k, q :| 0 <= k < |run| && ReaderForgotten(c, run[k], q);
      NoReaderForgotten(c, run, k, q);
    }
  }

  lemma LockMeansOpen(c: Config, s: State)
    requires Inv(c, s)
    ensures s.lock.Some? ==> s.readopen || s.writeopen
  {
    if s.lock.Some? { assert ProcOk(c, s, s.lock.value); }
  }

  /** Once both ends are closed, when pipeclose frees the pipe, nobody is using it. */
  lemma FreedUnused(c: Config, run: seq<State>, k: nat, p: nat)
    requires Run(c, run) && k < |run| && !run[k].readopen && !run[k].writeopen && p < c.n
    ensures Shaped(c, run[k]) && run[k].pc[p].Idle? && run[k].lock.None?
  {
    RunInv(c, run, k);
    var s := run[k];
    assert ProcOk(c, s, p);
    LockMeansOpen(c, s);
  }

  // ------------------------------------------------------------------- kills

  lemma RunStep(c: Config, run: seq<State>, p: nat, a: Option<Call>, t: State)
    requires Run(c, run) && Step(c, run[|run| - 1], p, a, t)
    ensures Run(c, run + [t])
  {
    assert Advance(c, run[|run| - 1], t);
  }

  /** Reader 0 sleeps on the empty pipe and writer 1 is about to store k bytes. */
  lemma ReaderAsleep(c: Config, src: seq<int>) returns (run: seq<State>)
    requires c.Valid() && c.n >= 2
    ensures Run(c, run)
    ensures var s := run[|run| - 1];
      && Shaped(c, s) && s.lock == Some(1) && s.nread == s.nwrite == 0 && s.readopen && s.writeopen
      && s.pc[0] == ReadAsleep(1) && s.pc[1] == Writing(src, 0)
  {
    var s0 := State(None, seq(c.size, _ => 0), 0, 0, true, true, seq(c.n, _ => Idle), seq(c.n, _ => false), [], [], [], []);
    run := [s0];
    var s1 := Do(c, s0, 0, Read(1)).value;
    RunStep(c, run, 0, Some(Read(1)), s1);
    run := run + [s1];
    var s2 := Next(c, s1, 0).value;
    RunStep(c, run, 0, None, s2);
    run := run + [s2];
    var s3 := Next(c, s2, 0).value;
    RunStep(c, run, 0, None, s3);
    run := run + [s3];
    var s4 := Do(c, s3, 1, Write(src)).value;
    RunStep(c, run, 1, Some(Write(src)), s4);
    run := run + [s4];
    var s5 := Next(c, s4, 1).value;
    RunStep(c, run, 1, None, s5);
    run := run + [s5];
  }

  /** The writer fills the pipe, one byte a step. */
  lemma WriterFills(c: Config, run: seq<State>, src: seq<int>, k: nat) returns (more: seq<State>)
    requires Run(c, run) && c.n >= 2 && |src| == c.size + 1 && k <= c.size
    requires var s := run[|run| - 1];
      && Shaped(c, s) && s.lock == Some(1) && s.nread == 0 && s.nwrite == k && s.readopen && s.writeopen
      && s.pc[0] == ReadAsleep(1) && s.pc[1] == Writing(src, k)
    ensures Run(c, more)
    ensures var s := more[|more| - 1];
      && Shaped(c, s) && s.lock == Some(1) && s.nread == 0 && s.nwrite == c.size && s.readopen && s.writeopen
      && s.pc[0] == ReadAsleep(1) && s.pc[1] == Writing(src, c.size)
    decreases c.size - k
  {
    more := run;
    if k < c.size {
      var s := run[|run| - 1];
      assert !Full(c, s);
      var t := Next(c, s, 1).value;
      assert t.nwrite == k + 1;
      RunStep(c, run, 1, None, t);
      more := WriterFills(c, run + [t], src, k + 1);
    }
  }

  /** Such a run: a writer is killed while the pipe is full, and reader 0 is left
      asleep on it. */
  lemma KilledWriterForgets(c: Config) returns (run: seq<State>)
    requires c.Valid() && c.n >= 2
    ensures Run(c, run) && ReaderForgotten(c, run[|run| - 1], 0)
  {
    var src := seq(c.size + 1, _ => 0);
    run := ReaderAsleep(c, src);
    run := WriterFills(c, run, src, 0);
    var s := run[|run| - 1];
    assert Full(c, s);
    var t := Do(c, s, 1, Kill).value;
    RunStep(c, run, 1, Some(Kill), t);
    run := run + [t];
    var u := Next(c, t, 1).value;
    RunStep(c, run, 1, None, u);
    run := run + [u];
  }
}
