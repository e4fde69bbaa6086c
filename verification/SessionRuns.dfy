/** What the sessions of src/network/network.c keep over whole runs of the protocol: who is active, whose input a shell
    gets, and when the queue is served. */
module SessionRuns {
  import opened Options
  import opened SessionProtocol

  // ---------- who is active, and whose input it is ----------

  // At most one session is active and it is the front; the freed sessions followed by the queued ones are all that
  // were accepted, in the order of acceptance.
  lemma OneActiveAndConserved(steps: seq<Step>, s: State)
    requires After(START, steps) == Some(s)
    ensures forall i :: 0 <= i < |s.queue| && s.queue[i].status == Active ==> i == 0
    ensures s.freed + Ids(s.queue) == UpTo(s.accepted)
  {
    RunKeeps(steps);
  }

  // Every input comes from the session that the shell was last refreshed for or from the one that the next refresh is
  // for; refreshes are for ever later sessions.
  lemma InputBelongs(steps: seq<Step>, s: State)
    requires After(START, steps) == Some(s)
    ensures Belong(s.trace, Pending(s)) && InOrder(s.trace)
  {
    RunKeeps(steps);
  }

  // ---------- when a shell has one owner ----------

  // The active session writes before the shell has been refreshed for it.
  predicate Stray(s: State, step: Step) {
    step == Write && Pending(s).Some?
  }

  // Step k of the run is such a write.
  ghost predicate StrayAt(steps: seq<Step>, k: nat)
    requires k < |steps|
  {
    After(START, steps[..k]).Some? && Stray(After(START, steps[..k]).value, steps[k])
  }

  ghost predicate NoStray(steps: seq<Step>) {
    forall k :: 0 <= k < |steps| ==> !StrayAt(steps, k)
  }

  lemma NoStrayOneMore(steps: seq<Step>)
    requires steps != []
    ensures NoStray(steps) <==> NoStray(steps[..|steps| - 1]) && !StrayAt(steps, |steps| - 1)
  {
    var n := |steps| - 1;
    forall k | 0 <= k < n
      ensures StrayAt(steps, k) <==> StrayAt(steps[..n], k)
    {
      assert steps[..n][..k] == steps[..k];
    }
  }

  lemma OneOwnerAfter(trace: seq<Event>, e: Event)
    ensures OneOwner(trace + [e]) <==> OneOwner(trace) && (e.Input? ==> Owner(trace) == Some(e.id))
  {
    var t := trace + [e];
    OwnedAtEnd(trace, e);
    forall k | 0 <= k < |trace|
      ensures OwnedAt(t, k) <==> OwnedAt(trace, k)
    {
      OwnedInPrefix(trace, e, k);
    }
    if OneOwner(t) {
      assert OwnedAt(t, |trace|);
      forall k | 0 <= k < |trace|
        ensures OwnedAt(trace, k)
      {
        assert OwnedAt(t, k);
      }
    }
  }

  lemma StrayBreaksOwnership(s: State, step: Step)
    requires Inv(s) && Enabled(s, step)
    ensures OneOwner(Next(s, step).trace) <==> OneOwner(s.trace) && !Stray(s, step)
  {
    var r := Next(s, step);
    if step == Write {
      OneOwnerAfter(s.trace, s.writing.value);
      OwnerIsRefreshed(s.trace);
    } else if step == StartShell {
      OneOwnerAfter(s.trace, Refresh(s.queue[0].id));
    } else if step == Gc {
      var n := CollectedIs(s);
      assert r.trace == s.trace;
    } else {
      assert r.trace == s.trace;
    }
  }

  // All input between two refreshes of the shell comes from the session of the first one if and only if no session
  // writes between its activation and the refresh for it.
  lemma {:induction false} OneOwnerPerShellIff(steps: seq<Step>, s: State)
    requires After(START, steps) == Some(s)
    ensures OneOwner(s.trace) <==> NoStray(steps)
    decreases |steps|
  {
    if steps != [] {
      var n := |steps| - 1;
      var init := steps[..n];
      var before := After(START, init).value;
      OneOwnerPerShellIff(init, before);
      RunKeeps(init);
      StrayBreaksOwnership(before, steps[n]);
      NoStrayOneMore(steps);
    }
  }

  // A run in which it happens: the second session is activated and writes to the shell of the first.
  lemma StrayWriteIsPossible() returns (steps: seq<Step>, s: State)
    ensures After(START, steps) == Some(s) && !OneOwner(s.trace)
    ensures s.trace == [Refresh(0), Input(1, "stop\n")]
  {
    steps, s := SecondSession();
    steps, s := Taken(steps, s, Receive(0, "stop\n"));
    steps, s := Taken(steps, s, Write);
    assert !OwnedAt(s.trace, 1) by {
      assert s.trace[..1] == [Refresh(0)];
    }
  }

  // The first session has exited, and gc has set the second one active.
  lemma SecondSession() returns (steps: seq<Step>, s: State)
    ensures After(START, steps) == Some(s) && s.phase == Marked && s.shellRuns && s.writing == None
    ensures s.queue == [Session(1, Active)] && s.ended == {0} && s.trace == [Refresh(0)]
  {
    steps, s := FirstSession();
    steps, s := Taken(steps, s, Create);
    steps, s := Taken(steps, s, Queue);
    assert s.queue == [Session(0, Active), Session(1, Waiting)];
    steps, s := Taken(steps, s, Exit(0));
    assert s.queue == [Session(0, Exited), Session(1, Waiting)];
    assert s.queue[1..] == [Session(1, Waiting)];
    ghost var c := s.(queue := [Session(1, Waiting)], freed := s.freed + [0]);
    assert Collected(s) == Collected(c) == c;
    steps, s := Taken(steps, s, Gc);
  }

  lemma Taken(steps: seq<Step>, s: State, step: Step) returns (longer: seq<Step>, t: State)
    requires After(START, steps) == Some(s) && Enabled(s, step)
    ensures longer == steps + [step] && t == Next(s, step) && After(START, longer) == Some(t)
  {
    AfterOneMore(START, steps, step);
    longer, t := steps + [step], Next(s, step);
  }

  // server_refresh with nothing in between
  lemma ShellTaken(steps: seq<Step>, s: State) returns (longer: seq<Step>, t: State)
    requires After(START, steps) == Some(s) && s.phase == Marked && s.queue != []
    ensures After(START, longer) == Some(t)
    ensures t == s.(phase := Open, shellRuns := true, spawned := true, trace := s.trace + [Refresh(s.queue[0].id)])
  {
    longer, t := Taken(steps, s, StopShell);
    longer, t := Taken(longer, t, StartShell);
    longer, t := Taken(longer, t, ShellCreated(true));
  }

  // gc waits, and the first session has been queued and has its shell.
  lemma FirstSession() returns (steps: seq<Step>, s: State)
    ensures After(START, steps) == Some(s)
    ensures s == START.(gcWaits := true, queue := [Session(0, Active)], accepted := 1, shellRuns := true,
                        trace := [Refresh(0)])
  {
    steps, s := Taken([], START, GcStarts);
    steps, s := Taken(steps, s, Create);
    steps, s := Taken(steps, s, Queue);
    steps, s := ShellTaken(steps, s);
  }

  // ---------- when the queue is served ----------

  // It is empty and the shell is off, or a session whose thread lives is active in front, and the shell runs unless
  // its thread could not be created.
  predicate Served(s: State) {
    if s.queue == [] then !s.shellRuns
    else s.queue[0].status == Active && s.queue[0].id !in s.ended && s.shellRuns == s.spawned
  }

  // While gc sleeps with no signal on its way, the queue is served if and only if the front session did not exit
  // before gc first waited, nor before it was queued.
  lemma SleepingGcServesIff(steps: seq<Step>, s: State)
    requires After(START, steps) == Some(s) && s.phase == Open && s.gcWaits && !s.signalled
    ensures Served(s) <==> s.queue == [] || (s.queue[0].id !in s.missed && s.queue[0].id !in s.early)
  {
    RunKeeps(steps);
    if s.queue != [] {
      assert StatusTells(s.ended, s.early, s.queue[0]);
    }
  }

  // Until the mutex is given back, the queue stays as it is.
  ghost predicate HeldDuring(s: State, steps: seq<Step>) {
    forall k :: 0 <= k < |steps| && After(s, steps[..k]).Some? ==> After(s, steps[..k]).value.phase != Open
  }

  lemma {:induction false} HeldKeepsQueue(s: State, steps: seq<Step>, t: State)
    requires Inv(s) && HeldDuring(s, steps) && After(s, steps) == Some(t)
    ensures Inv(t) && t.queue == s.queue && t.early == s.early
    decreases |steps|
  {
    if steps != [] {
      var n := |steps| - 1;
      var init := steps[..n];
      forall k | 0 <= k < n
        ensures init[..k] == steps[..k]
      {
      }
      var before := After(s, init).value;
      HeldKeepsQueue(s, init, before);
      assert before.phase != Open;
      StepKeeps(before, steps[n]);
    }
  }

  // After every round of gc, whatever comes in between, the queue is served if and only if the front session did not
  // exit before it was queued: exits before the first wait are made good by any wake-up.
  lemma GcRoundServesIff(steps: seq<Step>, s: State, round: seq<Step>, t: State)
    requires After(START, steps) == Some(s) && Enabled(s, Gc)
    requires HeldDuring(Next(s, Gc), round) && After(Next(s, Gc), round) == Some(t) && t.phase == Open
    ensures Served(t) <==> t.queue == [] || t.queue[0].id !in t.early
  {
    RunKeeps(steps);
    StepKeeps(s, Gc);
    HeldKeepsQueue(Next(s, Gc), round, t);
    var n := CollectedIs(s);
    if t.queue != [] {
      assert StatusTells(t.ended, t.early, t.queue[0]);
    }
  }

  ghost predicate Unmarked(s: State) {
    s.gcWaits && s.missed == {} && s.early == {} && s.created != Some(Exited)
  }

  lemma StepLeavesUnmarked(s: State, step: Step)
    requires Unmarked(s) && Enabled(s, step) && step != CreatedExits
    ensures Unmarked(Next(s, step))
  {
    if step.Gc? {
      var n := CollectedIs(s);
    }
  }

  lemma {:induction false} RunLeavesUnmarked(steps: seq<Step>, s: State)
    requires steps != [] && steps[0] == GcStarts && CreatedExits !in steps
    requires After(START, steps) == Some(s)
    ensures Unmarked(s)
    decreases |steps|
  {
    var n := |steps| - 1;
    var init := steps[..n];
    var before := After(START, init).value;
    if n > 0 {
      RunLeavesUnmarked(init, before);
      StepLeavesUnmarked(before, steps[n]);
    } else {
      assert before == START;
    }
  }

  // With gc waiting from the start and no session exiting before it is queued, the queue is served whenever the mutex
  // is free and no signal is on its way.
  lemma {:induction false} NothingIsMissed(steps: seq<Step>, s: State)
    requires steps != [] && steps[0] == GcStarts && CreatedExits !in steps
    requires After(START, steps) == Some(s)
    ensures s.phase == Open && !s.signalled ==> Served(s)
  {
    RunLeavesUnmarked(steps, s);
    if s.phase == Open && !s.signalled {
      SleepingGcServesIff(steps, s);
    }
  }

  // The session in front has been given the shell, but its thread has ended.
  predicate Orphaned(s: State) {
    s.phase == Open && s.queue != [] && s.queue[0].status == Active && s.queue[0].id in s.ended
  }

  lemma StepLeavesOrphan(s: State, step: Step)
    requires Inv(s) && Orphaned(s) && Enabled(s, step)
    ensures var t := Next(s, step); Inv(t) && Orphaned(t) && t.queue[0] == s.queue[0] && t.trace == s.trace
  {
    StepKeeps(s, step);
  }

  // Such a session keeps the shell for good: whatever happens, it stays in front, no other session is ever activated,
  // and nobody's input reaches the shell any more.
  lemma {:induction false} OrphanKeepsShell(s: State, steps: seq<Step>, t: State)
    requires Inv(s) && Orphaned(s) && After(s, steps) == Some(t)
    ensures Inv(t) && Orphaned(t) && t.queue[0] == s.queue[0] && t.trace == s.trace && !Served(t)
    decreases |steps|
  {
    if steps != [] {
      var n := |steps| - 1;
      var before := After(s, steps[..n]).value;
      OrphanKeepsShell(s, steps[..n], before);
      StepLeavesOrphan(before, steps[n]);
    }
  }

  // A run to such a state: the session exits before it is queued, into an empty queue; another one waits behind it.
  lemma EarlyExitBlocks() returns (steps: seq<Step>, s: State)
    ensures After(START, steps) == Some(s)
    ensures s.gcWaits && !s.signalled && |s.queue| == 2 && Orphaned(s)
  {
    steps, s := EarlyExitQueued();
    steps, s := Taken(steps, s, Create);
    steps, s := Taken(steps, s, Queue);
    assert Collected(s) == s;
    steps, s := Taken(steps, s, Gc);
  }

  lemma EarlyExitQueued() returns (steps: seq<Step>, s: State)
    ensures After(START, steps) == Some(s) && s.gcWaits && s.created == None && s.accepted == 1
    ensures s.queue == [Session(0, Active)] && Orphaned(s)
  {
    steps, s := Taken([], START, GcStarts);
    steps, s := Taken(steps, s, Create);
    steps, s := Taken(steps, s, CreatedExits);
    steps, s := Taken(steps, s, Queue);
    steps, s := ShellTaken(steps, s);
  }

  // A run to the other failure: the session exits before gc waits for the first time, and gc is not woken for it.
  lemma MissedExitBlocks() returns (steps: seq<Step>, s: State)
    ensures After(START, steps) == Some(s)
    ensures s.phase == Open && s.gcWaits && !s.signalled && s.queue != [] && !Served(s)
  {
    steps, s := Taken([], START, Create);
    steps, s := Taken(steps, s, Queue);
    steps, s := ShellTaken(steps, s);
    steps, s := Taken(steps, s, Exit(0));
    steps, s := Taken(steps, s, GcStarts);
  }
}
