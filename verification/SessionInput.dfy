/** What the sessions of src/network/network.c write to the shell, over whole runs of the protocol (540-555). */
module SessionInput {
  import opened Options
  import opened SessionProtocol

  // Step j of the run is input from that session, active while a shell runs, and w is what becomes of it: a newline and
  // a terminator when it starts with a carriage return, and otherwise the input itself.
  ghost predicate ReceivedAt(steps: seq<Step>, j: nat, id: nat, w: string)
    requires j < |steps|
  {
    && steps[j].Receive? && After(START, steps[..j]).Some?
    && var s, i, data := After(START, steps[..j]).value, steps[j].at, steps[j].data;
       && i < |s.queue| && s.queue[i].id == id && s.queue[i].status == Active && s.shellRuns
       && w == if |data| > 0 && data[0] == '\r' then "\n\0" else data
  }

  ghost predicate WasReceived(steps: seq<Step>, e: Event) {
    e.Input? ==> exists j :: 0 <= j < |steps| && ReceivedAt(steps, j, e.id, e.data)
  }

  lemma StillReceived(steps: seq<Step>, n: nat, e: Event)
    requires n <= |steps| && WasReceived(steps[..n], e)
    ensures WasReceived(steps, e)
  {
    if e.Input? {
      var j :| 0 <= j < n && ReceivedAt(steps[..n], j, e.id, e.data);
      assert steps[..n][..j] == steps[..j];
      assert ReceivedAt(steps, j, e.id, e.data);
    }
  }

  // What a step adds to the trace: a refresh, or what was about to be written, or nothing
  lemma TraceGrows(s: State, step: Step)
    requires Enabled(s, step)
    ensures step == Write ==> Next(s, step).trace == s.trace + [s.writing.value]
    ensures step == StartShell ==> Next(s, step).trace == s.trace + [Refresh(s.queue[0].id)]
    ensures step != Write && step != StartShell ==> Next(s, step).trace == s.trace
  {
  }

  lemma WritingComes(s: State, step: Step)
    requires Enabled(s, step)
    ensures var w := Next(s, step).writing;
      w.None? || w == s.writing || (step.Receive? && w == Received(s, step.at, step.data).writing)
  {
  }

  // All that goes to the shell, or is about to, is what a session sent while it was active and a shell ran.
  lemma {:induction false} InputWasReceived(steps: seq<Step>, s: State)
    requires After(START, steps) == Some(s)
    ensures forall k :: 0 <= k < |s.trace| ==> WasReceived(steps, s.trace[k])
    ensures s.writing.Some? ==> WasReceived(steps, s.writing.value)
    decreases |steps|
  {
    if steps != [] {
      var n := |steps| - 1;
      var before := After(START, steps[..n]).value;
      InputWasReceived(steps[..n], before);
      TraceGrows(before, steps[n]);
      if before.writing.Some? {
        StillReceived(steps, n, before.writing.value);
      }
      forall k | 0 <= k < |s.trace|
        ensures WasReceived(steps, s.trace[k])
      {
        if k < |before.trace| {
          assert s.trace[k] == before.trace[k];
          StillReceived(steps, n, before.trace[k]);
        }
      }
      NewWriting(steps, before);
    }
  }

  lemma NewWriting(steps: seq<Step>, before: State)
    requires steps != [] && After(START, steps[..|steps| - 1]) == Some(before)
    requires Enabled(before, steps[|steps| - 1])
    requires before.writing.Some? ==> WasReceived(steps, before.writing.value)
    ensures var w := Next(before, steps[|steps| - 1]).writing; w.Some? ==> WasReceived(steps, w.value)
  {
    var n := |steps| - 1;
    var w := Next(before, steps[n]).writing;
    WritingComes(before, steps[n]);
    if w.Some? && w != before.writing {
      assert ReceivedAt(steps, n, w.value.id, w.value.data);
    }
  }
}
