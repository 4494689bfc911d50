/** What wait, kill and wakeup do for the processes of module ProcTable: who is woken,
    who may be collected, and when wait gives up. */
module ProcWaits {
  import opened Options
  import opened ProcTable

  /** A process that was killed is not asleep in wait, and wait has met no child while
      it believes that it has none. */
  predicate WaitOk(s: State, p: nat, q: nat)
    requires p < |s.slots| && q < |s.slots|
  {
    var x := s.slots[p];
    && (AsleepInWait(x) ==> !x.killed)
    && (x.pc.Waiting? && !x.pc.kids && q < x.pc.k ==> s.slots[q].parent != Some(p))
  }

  lemma WaitKeeps(s: State, p: nat, a: Action, t: State, u: nat, q: nat)
    requires p < |s.slots| && u < |s.slots| && q < |s.slots| && s.slots[p].state.RUNNING? && Wait(s, p, a) == Some(t)
    requires SlotOk(s, p) && SlotOk(s, u) && WaitOk(s, u, q)
    ensures |t.slots| == |s.slots| && WaitOk(t, u, q)
  {
  }

  lemma ExitKeeps(s: State, p: nat, a: Action, t: State, u: nat, q: nat)
    requires p < |s.slots| && u < |s.slots| && q < |s.slots| && s.slots[p].state.RUNNING? && Exit(s, p, a) == Some(t)
    requires SlotOk(s, p) && SlotOk(s, u) && WaitOk(s, u, q)
    ensures |t.slots| == |s.slots| && WaitOk(t, u, q)
  {
  }

  lemma ForkKeeps(s: State, p: nat, a: Action, t: State, u: nat, q: nat)
    requires p < |s.slots| && u < |s.slots| && q < |s.slots| && s.slots[p].state.RUNNING? && Fork(s, p, a) == Some(t)
    requires SlotOk(s, p) && SlotOk(s, u) && PairOk(s, p, u) && WaitOk(s, u, q)
    ensures |t.slots| == |s.slots| && WaitOk(t, u, q)
  {
  }

  lemma PauseKeeps(s: State, p: nat, a: Action, t: State, u: nat, q: nat)
    requires p < |s.slots| && u < |s.slots| && q < |s.slots| && s.slots[p].state.RUNNING?
    requires (Pauses(a) && Pause(s, p, a) == Some(t)) || Resumed(s, p) == Some(t) || (s.slots[p].pc.Out? && Leave(s, p, a) == Some(t))
    requires SlotOk(s, p) && SlotOk(s, u) && WaitOk(s, u, q)
    ensures |t.slots| == |s.slots| && WaitOk(t, u, q)
  {
  }

  lemma EnvironmentKeeps(s: State, p: nat, a: Action, t: State, u: nat, q: nat)
    requires Environment(s, p, a, t) && u < |s.slots| && q < |s.slots|
    requires SlotOk(s, u) && WaitOk(s, u, q)
    ensures |t.slots| == |s.slots| && WaitOk(t, u, q)
  {
  }

  lemma StepKeeps(s: State, p: nat, a: Action, t: State, u: nat, q: nat)
    requires Inv(s) && Step(s, p, a, t) && u < |s.slots| && q < |s.slots| && WaitOk(s, u, q)
    ensures |t.slots| == |s.slots| && WaitOk(t, u, q)
  {
    hide WaitOk, Fork, Exit, Wait, Pause, Resumed, Leave, Outside;
    assert SlotOk(s, u);
    if p < |s.slots| && Do(s, p, a) == Some(t) {
      assert SlotOk(s, p) && PairOk(s, p, u);
      var pc := s.slots[p].pc;
      if a.Resume? || Pauses(a) || pc.Out? { PauseKeeps(s, p, a, t, u, q); }
      else if pc.Scanning? || pc.Copying? || pc.Ready? { ForkKeeps(s, p, a, t, u, q); }
      else if pc.Exiting? || pc.Locked? || pc.Adopting? { ExitKeeps(s, p, a, t, u, q); }
      else { WaitKeeps(s, p, a, t, u, q); }
    } else {
      EnvironmentKeeps(s, p, a, t, u, q);
    }
  }

  lemma {:induction false} RunWaits(run: seq<State>, k: nat, u: nat, q: nat)
    requires Run(run) && k < |run| && u < |run[k].slots| && q < |run[k].slots|
    ensures WaitOk(run[k], u, q)
  {
    if k > 0 {
      RunInv(run, k - 1);
      RunInv(run, k);
      RunWaits(run, k - 1, u, q);
      assert Advance(run[k - 1], run[k]);
      var p, a :| Step(run[k - 1], p, a, run[k]);
      StepKeeps(run[k - 1], p, a, run[k], u, q);
    }
  }

  /** In no run is a process that was killed left asleep in wait. */
  lemma KilledNotWaiting(run: seq<State>, k: nat, p: nat)
    requires Run(run) && k < |run| && p < |run[k].slots| && run[k].slots[p].killed
    ensures !AsleepInWait(run[k].slots[p])
  {
    RunWaits(run, k, p, p);
  }

  /** In every run, wait returns without having collected a child only in a process that
      was killed or has no children. */
  lemma WaitGivesUp(run: seq<State>, k: nat, p: nat, t: State, q: nat)
    requires Run(run) && k < |run| && p < |run[k].slots| && q < |run[k].slots|
    requires run[k].slots[p].pc.Waiting? && Do(run[k], p, Look) == Some(t) && |t.slots| == |run[k].slots| && t.slots[p].pc.Out?
    requires forall r :: 0 <= r < |t.slots| ==> t.slots[r].state == run[k].slots[r].state
    ensures run[k].slots[p].killed || run[k].slots[q].parent != Some(p)
  {
    RunWaits(run, k, p, q);
    var s := run[k];
    var i := s.slots[p].pc.k;
    if i < |s.slots| { assert t.slots[i].state == s.slots[i].state; }
  }

  /** Zombie q is still one, or p, its parent, has collected it in wait. */
  predicate KeptOrCollected(s: State, p: nat, t: State, q: nat)
    requires q < |s.slots| == |t.slots|
  {
    || t.slots[q].state == ZOMBIE
    || (t.slots[q].state == UNUSED && t.slots[q].parent == None && p < |s.slots|
        && s.slots[q].parent == Some(p) && s.slots[p].pc.Waiting?)
  }

  lemma ForkZombie(s: State, p: nat, a: Action, t: State, q: nat)
    requires p < |s.slots| && q < |s.slots| && s.slots[p].state.RUNNING? && Fork(s, p, a) == Some(t)
    requires SlotOk(s, p) && PairOk(s, p, q) && s.slots[q].state == ZOMBIE
    ensures |t.slots| == |s.slots| && KeptOrCollected(s, p, t, q)
  {
  }

  lemma ExitZombie(s: State, p: nat, a: Action, t: State, q: nat)
    requires p < |s.slots| && q < |s.slots| && s.slots[p].state.RUNNING? && Exit(s, p, a) == Some(t) && s.slots[q].state == ZOMBIE
    ensures |t.slots| == |s.slots| && KeptOrCollected(s, p, t, q)
  {
  }

  /** A zombie stays one until its own parent collects it in wait, which empties the slot. */
  lemma ZombieKept(s: State, p: nat, a: Action, t: State, q: nat)
    requires Inv(s) && Step(s, p, a, t) && q < |s.slots| && s.slots[q].state == ZOMBIE
    ensures |t.slots| == |s.slots| && KeptOrCollected(s, p, t, q)
  {
    hide Fork, Exit;
    if p < |s.slots| && Do(s, p, a) == Some(t) {
      assert SlotOk(s, p) && PairOk(s, p, q);
      var pc := s.slots[p].pc;
      if !a.Resume? && !Pauses(a) {
        if pc.Scanning? || pc.Copying? || pc.Ready? { ForkZombie(s, p, a, t, q); }
        if pc.Exiting? || pc.Locked? || pc.Adopting? { ExitZombie(s, p, a, t, q); }
      }
    }
  }

  /** After wakeup nobody sleeps on the channel; whoever did can run, and nothing else has
      changed. After kill the process is marked, and cannot be asleep. */
  lemma WakeupAndKill(s: State, a: Action, t: State, q: nat)
    requires Outside(s, a) == Some(t) && q < |s.slots|
    ensures |t.slots| == |s.slots| && t.nextpid == s.nextpid && t.table == s.table
    ensures a.Wakeup? ==>
      if s.slots[q].state == SLEEPING && s.slots[q].chan == Other(a.c) then t.slots[q] == s.slots[q].(state := RUNNABLE)
      else t.slots[q] == s.slots[q]
    ensures a.Kill? && q == a.q ==> t.slots[q].killed && t.slots[q].state != SLEEPING && t.slots[q].parent == s.slots[q].parent
    ensures a.Kill? && q == a.q && s.slots[q].state != SLEEPING ==> t.slots[q] == s.slots[q].(killed := true)
    ensures a.Kill? && q != a.q ==> t.slots[q] == s.slots[q]
  {
  }
}
