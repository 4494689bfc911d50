/** What the single calls of pipewrite and piperead did: every write stored a prefix of
    its own bytes, in order, every read was given the next piece of the stream, and what
    they returned says which. */
module PipeCalls {
  import opened Options
  import opened Pipe

  // -------------------------------------------------------------------- writers

  /** The stored bytes that came from process p, in order. */
  function BytesOf(stored: seq<int>, writer: seq<nat>, p: nat): (r: seq<int>)
    requires |stored| == |writer|
  {
    if stored == [] then []
    else
      var k := |stored| - 1;
      BytesOf(stored[..k], writer[..k], p) + if writer[k] == p then [stored[k]] else []
  }

  /** What p's finished calls of pipewrite stored: of each source the bytes before the
      one it came to. */
  function Written(returned: seq<Return>, p: nat): (r: seq<int>) {
    if returned == [] then []
    else
      var x := returned[|returned| - 1];
      Written(returned[..|returned| - 1], p) + if x.Wrote? && x.p == p && x.i <= |x.src| then x.src[..x.i] else []
  }

  predicate Bounded(pc: Pc) { Writer(pc) ==> pc.i <= |pc.src| }

  /** What the call that a process is in has stored. */
  function Under(pc: Pc): (r: seq<int>) { if Writer(pc) && pc.i <= |pc.src| then pc.src[..pc.i] else [] }

  ghost predicate SentOk(c: Config, s: State, p: nat)
    requires Shaped(c, s) && p < c.n
  {
    && |s.writer| == |s.stored| && Bounded(s.pc[p])
    && BytesOf(s.stored, s.writer, p) == Written(s.returned, p) + Under(s.pc[p])
  }

  predicate Stores(c: Config, s: State, p: nat, a: Option<Call>)
    requires Shaped(c, s) && p < c.n
  {
    a.None? && s.pc[p].Writing? && s.pc[p].i < |s.pc[p].src| && !Full(c, s)
  }

  predicate Returns(s: State, t: State) { |t.returned| != |s.returned| }

  lemma StoreSent(c: Config, s: State, p: nat, t: State, q: nat)
    requires Step(c, s, p, None, t) && Stores(c, s, p, None) && Shaped(c, t) && q < c.n && SentOk(c, s, q)
    ensures SentOk(c, t, q)
  {
    var k := |s.stored|;
    assert t.stored[..k] == s.stored && t.writer[..k] == s.writer;
    if q == p {
      var src, i := s.pc[p].src, s.pc[p].i;
      assert src[..i + 1] == src[..i] + [src[i]];
    }
  }

  /** A process is in the same call, at the same byte. */
  predicate SameCall(x: Pc, y: Pc) {
    && Writer(x) == Writer(y) && (Writer(x) ==> x.src == y.src && x.i == y.i)
    && (x.Copying? || y.Copying? ==> x == y)
  }

  /** wakeup leaves sleepers in their calls. */
  lemma WakeStays(pc: seq<Pc>, q: nat)
    requires q < |pc|
    ensures SameCall(pc[q], WakeReaders(pc)[q]) && SameCall(pc[q], WakeWriters(pc)[q])
  {
  }

  /** A step of p leaves the calls of others where they are, and closing an end everyone's. */
  lemma OthersStay(c: Config, s: State, p: nat, a: Option<Call>, t: State, q: nat)
    requires Step(c, s, p, a, t) && Shaped(c, t) && q < c.n
    requires q != p || a == Some(CloseWrite) || a == Some(CloseRead)
    ensures SameCall(s.pc[q], t.pc[q])
  {
    hide Full, WakeReaders, WakeWriters;
    WakeStays(s.pc, q);
  }

  predicate SameStream(s: State, t: State) { t.stored == s.stored && t.writer == s.writer }

  /** The call that p returns from leaves its bytes in the record. */
  lemma ReturnOwn(c: Config, s: State, p: nat, a: Option<Call>, t: State)
    requires Step(c, s, p, a, t) && Returns(s, t) && Shaped(c, t) && Bounded(s.pc[p])
    ensures SameStream(s, t) && |t.returned| == |s.returned| + 1 && t.returned[..|s.returned|] == s.returned && t.pc[p].Idle?
    ensures var x := t.returned[|s.returned|];
      x.p == p && Under(s.pc[p]) == if x.Wrote? && x.i <= |x.src| then x.src[..x.i] else []
  {
    hide Full, WakeReaders, WakeWriters;
  }

  /** Any other step of p that stores nothing. */
  lemma QuietOwn(c: Config, s: State, p: nat, a: Option<Call>, t: State)
    requires Step(c, s, p, a, t) && !Stores(c, s, p, a) && !Returns(s, t) && Shaped(c, t) && Bounded(s.pc[p])
    ensures SameStream(s, t) && t.returned == s.returned
    ensures Bounded(t.pc[p]) && Under(t.pc[p]) == Under(s.pc[p])
  {
    hide Full, WakeReaders, WakeWriters;
    WakeStays(s.pc, p);
  }

  lemma StepSent(c: Config, s: State, p: nat, a: Option<Call>, t: State, q: nat)
    requires Step(c, s, p, a, t) && Shaped(c, s) && Shaped(c, t) && p < c.n && q < c.n && SentOk(c, s, p) && SentOk(c, s, q)
    ensures SentOk(c, t, q)
  {
    hide Step, Full;
    if Stores(c, s, p, a) {
      StoreSent(c, s, p, t, q);
    } else {
      if q != p { OthersStay(c, s, p, a, t, q); }
      if Returns(s, t) { ReturnOwn(c, s, p, a, t); } else { QuietOwn(c, s, p, a, t); }
    }
  }

  // -------------------------------------------------------------------- readers

  /** All bytes that finished calls of piperead were given. */
  function Received(returned: seq<Return>): (r: seq<int>) {
    if returned == [] then []
    else
      var x := returned[|returned| - 1];
      Received(returned[..|returned| - 1]) + if x.Got? then x.addr else []
  }

  /** What the call holding the lock has been given so far. */
  function Taken(s: State): (r: seq<int>) {
    if s.lock.Some? && s.lock.value < |s.pc| && s.pc[s.lock.value].Copying? then s.pc[s.lock.value].addr else []
  }

  ghost predicate TakenOk(s: State) { s.delivered == Received(s.returned) + Taken(s) }

  /** While q holds the lock, nobody else is given anything. */
  lemma LockKept(c: Config, s: State, p: nat, a: Option<Call>, t: State, q: nat)
    requires Step(c, s, p, a, t) && s.lock == Some(q) && q != p && ProcOk(c, s, p)
    ensures t.lock == Some(q) && t.delivered == s.delivered && t.returned == s.returned
  {
    hide Full, WakeReaders, WakeWriters;
  }

  // The holder of the lock moves on, takes one byte more, or returns.

  predicate Moves(s: State, t: State) { t.delivered == s.delivered && t.returned == s.returned && Taken(t) == Taken(s) }

  predicate Takes(s: State, t: State) {
    && t.returned == s.returned && |t.delivered| == |s.delivered| + 1
    && var b := [t.delivered[|s.delivered|]];
       t.delivered == s.delivered + b && Taken(t) == Taken(s) + b
  }

  predicate Leaves(s: State, t: State) {
    && t.delivered == s.delivered && |t.returned| == |s.returned| + 1 && t.returned[..|s.returned|] == s.returned
    && Taken(t) == []
    && var x := t.returned[|s.returned|];
       Taken(s) == if x.Got? then x.addr else []
  }

  lemma HolderStep(c: Config, s: State, p: nat, a: Option<Call>, t: State)
    requires Step(c, s, p, a, t) && s.lock == Some(p) && ProcOk(c, s, p)
    ensures Moves(s, t) || Takes(s, t) || Leaves(s, t)
  {
    hide Full, WakeReaders, WakeWriters;
  }

  lemma HolderTaken(c: Config, s: State, p: nat, a: Option<Call>, t: State)
    requires Step(c, s, p, a, t) && s.lock == Some(p) && ProcOk(c, s, p) && TakenOk(s)
    ensures TakenOk(t)
  {
    hide Step, Taken;
    HolderStep(c, s, p, a, t);
    assert Leaves(s, t) ==> t.returned[..|t.returned| - 1] == s.returned;
  }

  lemma FreeTaken(c: Config, s: State, p: nat, a: Option<Call>, t: State)
    requires Step(c, s, p, a, t) && s.lock.None? && ProcOk(c, s, p) && TakenOk(s)
    ensures TakenOk(t)
  {
    hide Full, WakeReaders, WakeWriters, Received;
  }

  lemma StepTaken(c: Config, s: State, p: nat, a: Option<Call>, t: State)
    requires Inv(c, s) && Step(c, s, p, a, t) && p < c.n && Shaped(c, t) && TakenOk(s)
    ensures TakenOk(t)
  {
    hide Step, RingOk, WriterOk, Full, Received;
    assert ProcOk(c, s, p);
    if s.lock.None? {
      FreeTaken(c, s, p, a, t);
    } else if s.lock == Some(p) {
      HolderTaken(c, s, p, a, t);
    } else {
      LockKept(c, s, p, a, t, s.lock.value);
      OthersStay(c, s, p, a, t, s.lock.value);
    }
  }

  // ---------------------------------------------------------------- what they return

  /** pipewrite returns the length of its source if it stored all of it, else -1;
      piperead returns how many bytes it was given, or -1 without any. */
  predicate Told(x: Return) {
    match x
    case Wrote(_, src, i, r) => if i == |src| then r == |src| else i < |src| && r == -1
    case Got(_, n, addr, r) => |addr| <= n && (r == |addr| || (addr == [] && r == -1))
  }

  /** A reader that asked for something and was told 0. */
  predicate SawEnd(x: Return) { x.Got? && x.n > 0 && x.r == 0 }

  ghost predicate EndOk(c: Config, s: State)
    requires Shaped(c, s)
  {
    && (forall j :: 0 <= j < |s.returned| ==> Told(s.returned[j]))
    && (forall j :: 0 <= j < |s.returned| && SawEnd(s.returned[j]) ==> !s.writeopen && s.nread == s.nwrite)
    && (forall p :: 0 <= p < c.n ==> CopyOk(s, p))
  }

  predicate CopyOk(s: State, p: nat)
    requires p < |s.pc|
  {
    && Bounded(s.pc[p])
    && (s.pc[p].Copying? ==> |s.pc[p].addr| <= s.pc[p].n && (s.pc[p].addr == [] && s.nread == s.nwrite ==> !s.writeopen))
  }

  lemma StepCopy(c: Config, s: State, p: nat, a: Option<Call>, t: State, q: nat)
    requires Step(c, s, p, a, t) && Shaped(c, t) && q < c.n && ProcOk(c, s, p) && ProcOk(c, s, q) && CopyOk(s, q)
    ensures CopyOk(t, q)
  {
    hide Full;
  }

  lemma StepTold(c: Config, s: State, p: nat, a: Option<Call>, t: State, j: nat)
    requires Step(c, s, p, a, t) && Shaped(c, t) && EndOk(c, s) && ProcOk(c, s, p) && j < |t.returned|
    ensures Told(t.returned[j])
    ensures SawEnd(t.returned[j]) ==> !t.writeopen && t.nread == t.nwrite
  {
    hide Full;
    assert CopyOk(s, p);
    if j < |s.returned| { assert Told(s.returned[j]); }
  }

  // ----------------------------------------------------------------------- runs

  ghost predicate CallsOk(c: Config, s: State) {
    && Inv(c, s) && TakenOk(s) && EndOk(c, s)
    && forall p :: 0 <= p < c.n ==> SentOk(c, s, p)
  }

  lemma StepCalls(c: Config, s: State, p: nat, a: Option<Call>, t: State)
    requires CallsOk(c, s) && Step(c, s, p, a, t) && p < c.n
    ensures CallsOk(c, t)
  {
    hide Step, SentOk, TakenOk, ProcOk, WriterOk, RingOk, CopyOk;
    StepInv(c, s, p, a, t);
    StepTaken(c, s, p, a, t);
    assert ProcOk(c, s, p) && SentOk(c, s, p);
    forall q | 0 <= q < c.n ensures SentOk(c, t, q) && CopyOk(t, q) {
      assert ProcOk(c, s, q) && SentOk(c, s, q) && CopyOk(s, q);
      StepSent(c, s, p, a, t, q);
      StepCopy(c, s, p, a, t, q);
    }
    forall j | 0 <= j < |t.returned| ensures Told(t.returned[j]) && (SawEnd(t.returned[j]) ==> !t.writeopen && t.nread == t.nwrite) {
      StepTold(c, s, p, a, t, j);
    }
  }

  lemma {:induction false} RunCalls(c: Config, run: seq<State>, k: nat)
    requires Run(c, run) && k < |run|
    ensures CallsOk(c, run[k])
  {
    RunInv(c, run, k);
    if k > 0 {
      RunCalls(c, run, k - 1);
      assert Advance(c, run[k - 1], run[k]);
      hide Inv, TakenOk, SentOk, EndOk, Shaped, Next, Do;
      var p, a :| Step(c, run[k - 1], p, a, run[k]);
      StepCalls(c, run[k - 1], p, a, run[k]);
    }
  }

  /** In every run, the stored bytes that came from p are what its finished calls of
      pipewrite stored followed by what the call it is in has stored: of each source a
      prefix, in order, with nothing lost, repeated or made up between the calls. */
  lemma WriterStream(c: Config, run: seq<State>, k: nat, p: nat)
    requires Run(c, run) && k < |run| && p < c.n
    ensures var s := run[k];
      && |s.writer| == |s.stored| && |s.pc| == c.n && Bounded(s.pc[p])
      && BytesOf(s.stored, s.writer, p) == Written(s.returned, p) + (if Writer(s.pc[p]) then s.pc[p].src[..s.pc[p].i] else [])
  {
    RunCalls(c, run, k);
    assert SentOk(c, run[k], p);
  }

  lemma {:induction false} ReceivedPrefix(returned: seq<Return>, j: nat)
    requires j <= |returned|
    ensures Received(returned[..j]) <= Received(returned)
    decreases |returned|
  {
    if j < |returned| {
      var front := returned[..|returned| - 1];
      assert front[..j] == returned[..j];
      ReceivedPrefix(front, j);
    } else {
      assert returned[..j] == returned;
    }
  }

  /** In every run, every finished read was given the piece of the stream that starts
      where the reads that finished before it ended. */
  lemma ReaderPiece(c: Config, run: seq<State>, k: nat, j: nat)
    requires Run(c, run) && k < |run| && j < |run[k].returned| && run[k].returned[j].Got?
    ensures var s, at := run[k], |Received(run[k].returned[..j])|;
      at + |s.returned[j].addr| <= |s.stored| && s.returned[j].addr == s.stored[at..at + |s.returned[j].addr|]
  {
    RunCalls(c, run, k);
    var s := run[k];
    var at := |Received(s.returned[..j])|;
    ReceivedPrefix(s.returned, j + 1);
    assert s.returned[..j + 1][..j] == s.returned[..j];
    assert Received(s.returned[..j + 1]) == Received(s.returned[..j]) + s.returned[j].addr;
    assert Received(s.returned[..j + 1]) <= s.delivered <= s.stored;
    assert s.returned[j].addr == Received(s.returned[..j + 1])[at..];
  }

  /** Together the reads were given everything delivered, once. */
  lemma ReaderStream(c: Config, run: seq<State>, k: nat)
    requires Run(c, run) && k < |run|
    ensures Received(run[k].returned) + Taken(run[k]) == run[k].delivered <= run[k].stored
  {
    RunCalls(c, run, k);
  }

  /** What a call returned says what it did. */
  lemma ReturnsTell(c: Config, run: seq<State>, k: nat, j: nat)
    requires Run(c, run) && k < |run| && j < |run[k].returned|
    ensures Told(run[k].returned[j])
  {
    RunCalls(c, run, k);
  }

  /** A read that asked for something and returned 0 is the end: no writer is left, and
      everything ever stored has been delivered. */
  lemma EndOfFile(c: Config, run: seq<State>, k: nat, j: nat)
    requires Run(c, run) && k < |run| && j < |run[k].returned| && SawEnd(run[k].returned[j])
    ensures !run[k].writeopen && run[k].delivered == run[k].stored
  {
    RunCalls(c, run, k);
    FullEmpty(c, run[k]);
  }
}
