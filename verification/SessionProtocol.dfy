/** The sessions of src/network/network.c as a protocol: the main thread accepts and queues them, each session's own
    thread takes input and exits, and the gc thread frees the ones that have exited and hands the shell on. A step is
    what a thread does between two operations on shared state that another thread can see or come between: conn_receive
    reads the status and run_flag without the mutex, so activating a session and refreshing the shell for it are
    several steps of the one who holds the mutex. */
module SessionProtocol {
  import opened Options

  datatype Status = Active | Waiting | Exited

  datatype Session = Session(id: nat, status: Status)

  // What goes to the shell: server_refresh on behalf of a session, and input from a session, written to its pipe
  datatype Event = Refresh(id: nat) | Input(id: nat, data: string)

  // Whether the mutex is free; if not, how far its holder has come in handing the shell to the front session: it has
  // set the session active, it has stopped the old shell, it has set run_flag for the new one
  datatype Phase = Open | Marked | Stopped | Starting

  datatype State = State(
    queue: seq<Session>,      // session_queue, front first
    created: Option<Status>,  // the session whose thread runs but which is not queued yet
    accepted: nat,            // how many sessions have been queued; also the number of the next one
    freed: seq<nat>,          // the sessions that gc has freed, in order
    phase: Phase,
    writing: Option<Event>,   // input that has passed the tests of conn_receive and is about to be written
    gcWaits: bool,            // the gc thread has reached its first wait
    signalled: bool,          // a signal has been sent to the waiting gc thread, which has not run since
    shellRuns: bool,          // run_flag of src/server/cmdline.c
    spawned: bool,            // the last refresh could create the shell's thread
    missed: set<nat>,         // sessions whose exit was signalled before gc waited
    ended: set<nat>,          // sessions whose thread has returned
    early: set<nat>,          // those of them whose thread returned before they were queued
    trace: seq<Event>
  )

  const START: State := State([], None, 0, [], Open, None, false, false, false, true, {}, {}, {}, [])

  datatype Step =
    | Create                              // pthread_create for a new session
    | CreatedExits                        // its thread exits before it is queued
    | Queue                               // queue_push, and activation when it is the only one
    | Exit(at: nat)                       // the thread of the session at that place of the queue exits
    | Receive(at: nat, data: string)      // conn_receive in the thread of that session, up to the write
    | Write                               // the write
    | GcStarts                            // gc takes the mutex and waits for the first time
    | Gc                                  // gc wakes up, for a signal or for none, frees, and activates the front
    | StopShell                           // the first half of server_refresh
    | StartShell                          // run_flag is set again
    | ShellCreated(ok: bool)              // pthread_create for the shell; the mutex is given back

  // ---------- the steps ----------

  // pthread_cond_signal is lost when nobody waits.
  function Signal(s: State, id: nat): State {
    if s.gcWaits then s.(signalled := true) else s.(missed := s.missed + {id})
  }

  function WithStatus(q: seq<Session>, i: nat, status: Status): seq<Session>
    requires i < |q|
  {
    q[i := q[i].(status := status)]
  }

  // Free the exited sessions at the front
  function Collected(s: State): (r: State)
    ensures r == s.(queue := r.queue, freed := r.freed)
    decreases |s.queue|
  {
    if s.queue != [] && s.queue[0].status == Exited then
      Collected(s.(queue := s.queue[1..], freed := s.freed + [s.queue[0].id]))
    else s
  }

  // The front session is set active; the shell is still as it was.
  function MarkedFront(s: State): State
    requires s.queue != []
  {
    s.(queue := WithStatus(s.queue, 0, Active), phase := Marked)
  }

  // Activate the session at the front, or stop the shell when there is none
  function HandedOn(s: State): State {
    if s.queue == [] then s.(shellRuns := false)
    else if s.queue[0].status == Waiting then MarkedFront(s)
    else s
  }

  // The thread of the session is between the tests and the write.
  predicate Writes(s: State, i: nat)
    requires i < |s.queue|
  {
    s.writing.Some? && s.writing.value.id == s.queue[i].id
  }

  predicate Enabled(s: State, step: Step) {
    match step
    case Create => s.created == None
    case CreatedExits => s.phase == Open && s.created == Some(Waiting)
    case Queue => s.phase == Open && s.created.Some?
    case Exit(i) => s.phase == Open && i < |s.queue| && s.queue[i].id !in s.ended && !Writes(s, i)
    case Receive(i, _) => i < |s.queue| && s.queue[i].id !in s.ended && !Writes(s, i)
    case Write => s.writing.Some?
    case GcStarts => s.phase == Open && !s.gcWaits
    case Gc => s.phase == Open && s.gcWaits
    case StopShell => s.phase == Marked
    case StartShell => s.phase == Stopped && s.queue != []
    case ShellCreated(_) => s.phase == Starting
  }

  function Queued(s: State, status: Status): State {
    var t := s.(queue := s.queue + [Session(s.accepted, status)], created := None, accepted := s.accepted + 1);
    if s.queue == [] then MarkedFront(t) else t
  }

  // Input passes the tests only from an active session, and only while the shell runs.
  function Received(s: State, i: nat, data: string): State
    requires i < |s.queue|
  {
    if s.queue[i].status == Active && s.shellRuns then
      s.(writing := Some(Input(s.queue[i].id, if data != "" && data[0] == '\r' then "\n\0" else data)))
    else s
  }

  function Next(s: State, step: Step): State
    requires Enabled(s, step)
  {
    match step
    case Create => s.(created := Some(Waiting))
    case CreatedExits =>
      Signal(s.(created := Some(Exited), ended := s.ended + {s.accepted}, early := s.early + {s.accepted}), s.accepted)
    case Queue => Queued(s, s.created.value)
    case Exit(i) =>
      Signal(s.(queue := WithStatus(s.queue, i, Exited), ended := s.ended + {s.queue[i].id}), s.queue[i].id)
    case Receive(i, data) => Received(s, i, data)
    case Write => s.(writing := None, trace := s.trace + [s.writing.value])
    case GcStarts => s.(gcWaits := true)
    case Gc => HandedOn(Collected(s).(signalled := false))
    case StopShell => s.(phase := Stopped, shellRuns := false)
    case StartShell => s.(phase := Starting, shellRuns := true, trace := s.trace + [Refresh(s.queue[0].id)])
    case ShellCreated(ok) => s.(phase := Open, shellRuns := ok, spawned := ok)
  }

  // The state after a run of steps, when each of them is enabled where it comes
  function After(s: State, steps: seq<Step>): Option<State> {
    if steps == [] then Some(s)
    else
      match After(s, steps[..|steps| - 1])
      case None => None
      case Some(t) => if Enabled(t, steps[|steps| - 1]) then Some(Next(t, steps[|steps| - 1])) else None
  }

  lemma AfterOneMore(s: State, steps: seq<Step>, step: Step)
    requires After(s, steps).Some? && Enabled(After(s, steps).value, step)
    ensures After(s, steps + [step]) == Some(Next(After(s, steps).value, step))
  {
    assert (steps + [step])[..|steps|] == steps;
  }

  // ---------- what every state keeps ----------

  function Ids(q: seq<Session>): seq<nat> {
    seq(|q|, i requires 0 <= i < |q| => q[i].id)
  }

  function UpTo(n: nat): seq<nat> {
    seq(n, i => i)
  }

  // The session that the shell was last refreshed for
  function Owner(trace: seq<Event>): Option<nat> {
    if trace == [] then None
    else
      match trace[|trace| - 1]
      case Refresh(id) => Some(id)
      case Input(_, _) => Owner(trace[..|trace| - 1])
  }

  // The session of the first refresh from position k on, or pending when none comes
  function NextOwner(trace: seq<Event>, k: nat, pending: Option<nat>): Option<nat>
    requires k <= |trace|
    decreases |trace| - k
  {
    if k == |trace| then pending
    else if trace[k].Refresh? then Some(trace[k].id)
    else NextOwner(trace, k + 1, pending)
  }

  // The session that a refresh is under way for
  function Pending(s: State): Option<nat> {
    if (s.phase == Marked || s.phase == Stopped) && s.queue != [] then Some(s.queue[0].id) else None
  }

  // Every input comes from the session that the shell was last refreshed for.
  ghost predicate OwnedAt(trace: seq<Event>, k: nat)
    requires k < |trace|
  {
    trace[k].Input? ==> Owner(trace[..k]) == Some(trace[k].id)
  }

  ghost predicate OneOwner(trace: seq<Event>) {
    forall k {:trigger OwnedAt(trace, k)} :: 0 <= k < |trace| ==> OwnedAt(trace, k)
  }

  // Every input comes from that session or from the one of the next refresh.
  ghost predicate BelongsAt(trace: seq<Event>, pending: Option<nat>, k: nat)
    requires k < |trace|
  {
    OwnedAt(trace, k) || NextOwner(trace, k, pending) == Some(trace[k].id)
  }

  ghost predicate Belong(trace: seq<Event>, pending: Option<nat>) {
    forall k {:trigger BelongsAt(trace, pending, k)} :: 0 <= k < |trace| ==> BelongsAt(trace, pending, k)
  }

  // Refreshes happen for ever later sessions, so no session gets a second one.
  ghost predicate InOrder(trace: seq<Event>) {
    forall j, k :: 0 <= j < k < |trace| && trace[j].Refresh? && trace[k].Refresh? ==> trace[j].id < trace[k].id
  }

  // Conservation: the freed sessions and the queued ones are the accepted ones, in order.
  ghost predicate Conserved(s: State) {
    s.freed + Ids(s.queue) == UpTo(s.accepted)
  }

  // Only the front may be active, and the front does not wait.
  ghost predicate FrontLeads(q: seq<Session>) {
    && (forall i :: 0 < i < |q| ==> q[i].status != Active)
    && (q != [] ==> q[0].status != Waiting)
  }

  // The shell belongs to the front, once it has been refreshed, and is off when there is none.
  ghost predicate ShellFollows(s: State) {
    && (s.queue == [] ==> !s.shellRuns && s.phase == Open)
    && (s.phase != Open ==> s.queue[0].status == Active)
    && (s.queue != [] && Pending(s) == None ==> Owner(s.trace) == Some(s.queue[0].id))
    && (s.phase == Open && s.queue != [] ==> s.shellRuns == s.spawned)
    && (s.phase == Stopped ==> !s.shellRuns)
  }

  // Only the front session, whose thread lives, can be about to write.
  ghost predicate WriterLeads(s: State) {
    s.writing.Some? ==>
      && s.writing.value.Input?
      && s.queue != [] && s.queue[0].status == Active
      && s.writing.value.id == s.queue[0].id && s.queue[0].id !in s.ended
  }

  // A pending refresh is for a later session than all before.
  ghost predicate TraceKept(s: State) {
    && Belong(s.trace, Pending(s))
    && InOrder(s.trace)
    && (forall k :: 0 <= k < |s.trace| ==> s.trace[k].id < s.accepted)
    && (s.queue != [] ==> forall k :: 0 <= k < |s.trace| ==> s.trace[k].id <= s.queue[0].id)
    && (Pending(s).Some? ==> forall k :: 0 <= k < |s.trace| && s.trace[k].Refresh? ==> s.trace[k].id < s.queue[0].id)
  }

  // What the status of a session says about its thread. Only a session that ended before it was queued can be active
  // with no thread.
  ghost predicate StatusTells(ended: set<nat>, early: set<nat>, p: Session) {
    match p.status
    case Active => p.id in ended ==> p.id in early
    case Waiting => p.id !in ended
    case Exited => p.id in ended
  }

  ghost predicate MarksKept(s: State) {
    && s.created != Some(Active)
    && (s.accepted in s.ended <==> s.created == Some(Exited))
    && (s.accepted in s.ended ==> s.accepted in s.early)
    && (forall id :: id in s.ended ==> id <= s.accepted)
    && s.early <= s.ended && s.missed <= s.ended
    && (forall i :: 0 <= i < |s.queue| ==> StatusTells(s.ended, s.early, s.queue[i]))
  }

  // An exited session at the front is known to gc or has been missed.
  ghost predicate FrontKnown(s: State) {
    && (s.signalled ==> s.gcWaits)
    && (s.queue != [] && s.queue[0].status == Exited && !s.signalled ==> s.queue[0].id in s.missed)
  }

  ghost predicate Inv(s: State) {
    && Conserved(s) && FrontLeads(s.queue) && ShellFollows(s) && WriterLeads(s)
    && TraceKept(s) && MarksKept(s) && FrontKnown(s)
  }

  // ---------- proofs ----------

  // The sessions in the queue carry consecutive numbers.
  lemma QueuedIds(s: State, i: nat)
    requires Conserved(s) && i < |s.queue|
    ensures s.queue[i].id == |s.freed| + i && |s.freed| + |s.queue| == s.accepted
  {
    assert (s.freed + Ids(s.queue))[|s.freed| + i] == s.queue[i].id;
    assert |s.freed + Ids(s.queue)| == s.accepted;
  }

  // What freeing the exited front sessions leaves
  ghost predicate IsCollected(s: State, r: State, n: nat) {
    && n <= |s.queue|
    && r == s.(queue := s.queue[n..], freed := s.freed + Ids(s.queue[..n]))
    && (forall i :: 0 <= i < n ==> s.queue[i].status == Exited)
    && (n < |s.queue| ==> s.queue[n].status != Exited)
  }

  lemma IdsOfConcat(a: seq<Session>, b: seq<Session>)
    ensures Ids(a + b) == Ids(a) + Ids(b)
  {
  }

  lemma CollectOneMore(s: State, t: State, r: State, m: nat)
    requires s.queue != [] && s.queue[0].status == Exited
    requires t == s.(queue := s.queue[1..], freed := s.freed + [s.queue[0].id]) && IsCollected(t, r, m)
    ensures IsCollected(s, r, m + 1)
  {
    var front := [s.queue[0]];
    assert s.queue[..m + 1] == front + t.queue[..m] && s.queue[m + 1..] == t.queue[m..];
    IdsOfConcat(front, t.queue[..m]);
    assert Ids(front) == [s.queue[0].id];
    assert (s.freed + Ids(front)) + Ids(t.queue[..m]) == s.freed + (Ids(front) + Ids(t.queue[..m]));
    forall i | 0 <= i < m + 1
      ensures s.queue[i].status == Exited
    {
      assert i > 0 ==> s.queue[i] == t.queue[i - 1];
    }
  }

  lemma {:induction false} CollectedIs(s: State) returns (n: nat)
    ensures IsCollected(s, Collected(s), n)
    decreases |s.queue|
  {
    if s.queue != [] && s.queue[0].status == Exited {
      var t := s.(queue := s.queue[1..], freed := s.freed + [s.queue[0].id]);
      var m := CollectedIs(t);
      CollectOneMore(s, t, Collected(t), m);
      n := m + 1;
    } else {
      n := 0;
      assert s.queue[0..] == s.queue && Ids(s.queue[..0]) == [];
    }
  }

  lemma OwnerAfter(trace: seq<Event>, e: Event)
    ensures Owner(trace + [e]) == match e case Refresh(id) => Some(id) case Input(_, _) => Owner(trace)
  {
    assert (trace + [e])[..|trace|] == trace;
  }

  // The owner is a session of some refresh.
  lemma {:induction false} OwnerIsRefreshed(trace: seq<Event>)
    ensures Owner(trace).Some? ==> exists k :: 0 <= k < |trace| && trace[k] == Refresh(Owner(trace).value)
  {
    if trace != [] && trace[|trace| - 1].Input? {
      OwnerIsRefreshed(trace[..|trace| - 1]);
    }
  }

  lemma {:induction false} NextOwnerAfter(trace: seq<Event>, e: Event, k: nat, pending: Option<nat>)
    requires k <= |trace|
    ensures NextOwner(trace + [e], k, pending) == NextOwner(trace, k, if e.Refresh? then Some(e.id) else pending)
    decreases |trace| - k
  {
    if k < |trace| {
      NextOwnerAfter(trace, e, k + 1, pending);
    }
  }

  lemma OwnedInPrefix(trace: seq<Event>, e: Event, k: nat)
    requires k < |trace|
    ensures OwnedAt(trace + [e], k) <==> OwnedAt(trace, k)
  {
    assert (trace + [e])[..k] == trace[..k];
  }

  lemma OwnedAtEnd(trace: seq<Event>, e: Event)
    ensures OwnedAt(trace + [e], |trace|) <==> (e.Input? ==> Owner(trace) == Some(e.id))
  {
    assert (trace + [e])[..|trace|] == trace;
  }

  // One more event: a refresh settles what was pending.
  lemma BelongAfter(trace: seq<Event>, pending: Option<nat>, e: Event, next: Option<nat>)
    requires Belong(trace, pending)
    requires if e.Refresh? then pending == Some(e.id) else next == pending
    requires e.Input? ==> Owner(trace) == Some(e.id) || pending == Some(e.id)
    ensures Belong(trace + [e], next)
  {
    var t := trace + [e];
    forall k | 0 <= k < |t|
      ensures BelongsAt(t, next, k)
    {
      if k < |trace| {
        assert BelongsAt(trace, pending, k);
        OwnedInPrefix(trace, e, k);
        NextOwnerAfter(trace, e, k, next);
      } else {
        OwnedAtEnd(trace, e);
        assert NextOwner(t, |t|, next) == next;
      }
    }
  }

  // A refresh that becomes pending changes nothing for the inputs before.
  lemma {:induction false} NextOwnerPending(trace: seq<Event>, k: nat, pending: Option<nat>)
    requires k <= |trace|
    ensures NextOwner(trace, k, None).Some? ==> NextOwner(trace, k, pending) == NextOwner(trace, k, None)
    decreases |trace| - k
  {
    if k < |trace| {
      NextOwnerPending(trace, k + 1, pending);
    }
  }

  lemma BelongPending(trace: seq<Event>, pending: Option<nat>)
    requires Belong(trace, None)
    ensures Belong(trace, pending)
  {
    forall k | 0 <= k < |trace|
      ensures BelongsAt(trace, pending, k)
    {
      assert BelongsAt(trace, None, k);
      NextOwnerPending(trace, k, pending);
    }
  }

  // A session is set active, and its refresh is pending.
  lemma MarkKeeps(s: State)
    requires s.queue != [] && s.phase == Open && s.writing == None
    requires Conserved(s) && MarksKept(s) && (s.signalled ==> s.gcWaits)
    requires forall i :: 0 < i < |s.queue| ==> s.queue[i].status != Active
    requires s.queue[0].status != Active && (s.queue[0].status == Exited ==> s.queue[0].id in s.early)
    requires Belong(s.trace, None) && InOrder(s.trace)
    requires forall k :: 0 <= k < |s.trace| ==> s.trace[k].id < s.queue[0].id
    ensures Inv(MarkedFront(s))
  {
    var r := MarkedFront(s);
    assert Ids(r.queue) == Ids(s.queue);
    QueuedIds(s, 0);
    BelongPending(s.trace, Pending(r));
  }

  // A session joins the queue.
  lemma PushKeeps(s: State)
    requires Inv(s) && Enabled(s, Queue)
    ensures var t := s.(queue := s.queue + [Session(s.accepted, s.created.value)], created := None,
                        accepted := s.accepted + 1);
      && Conserved(t) && MarksKept(t)
      && (s.queue != [] ==> Inv(t))
  {
    var t := s.(queue := s.queue + [Session(s.accepted, s.created.value)], created := None, accepted := s.accepted + 1);
    assert Ids(t.queue) == Ids(s.queue) + [s.accepted];
    assert UpTo(t.accepted) == UpTo(s.accepted) + [s.accepted];
    assert Conserved(t);
    forall i | 0 <= i < |s.queue|
      ensures s.queue[i].id < s.accepted
    {
      QueuedIds(s, i);
    }
  }

  lemma QueueKeeps(s: State)
    requires Inv(s) && Enabled(s, Queue)
    ensures Inv(Next(s, Queue))
  {
    PushKeeps(s);
    if s.queue == [] {
      MarkKeeps(s.(queue := s.queue + [Session(s.accepted, s.created.value)], created := None,
                   accepted := s.accepted + 1));
    }
  }

  lemma ExitKeeps(s: State, i: nat)
    requires Inv(s) && Enabled(s, Exit(i))
    ensures Inv(Next(s, Exit(i)))
  {
    var r := Next(s, Exit(i));
    assert Ids(r.queue) == Ids(s.queue);
    forall j | 0 <= j < |s.queue|
      ensures s.queue[j].id == |s.freed| + j && s.queue[j].id < s.accepted
    {
      QueuedIds(s, j);
    }
  }

  lemma WriteKeeps(s: State)
    requires Inv(s) && Enabled(s, Write)
    ensures Inv(Next(s, Write))
  {
    var e := s.writing.value;
    BelongAfter(s.trace, Pending(s), e, Pending(s));
    OwnerAfter(s.trace, e);
    QueuedIds(s, 0);
  }

  lemma StartShellKeeps(s: State)
    requires Inv(s) && Enabled(s, StartShell)
    ensures Inv(Next(s, StartShell))
  {
    var e := Refresh(s.queue[0].id);
    BelongAfter(s.trace, Pending(s), e, None);
    OwnerAfter(s.trace, e);
    QueuedIds(s, 0);
  }

  lemma CollectKeeps(s: State, r: State, n: nat)
    requires Inv(s) && IsCollected(s, r, n)
    ensures Conserved(r)
    ensures forall i :: 0 < i < |r.queue| ==> r.queue[i].status != Active
    ensures n > 0 && r.queue != [] ==> r.queue[0].status == Waiting && s.queue[0].id < r.queue[0].id
    ensures MarksKept(r.(signalled := false))
  {
    assert Ids(s.queue) == Ids(s.queue[..n]) + Ids(s.queue[n..]);
    assert s.freed + Ids(s.queue[..n]) + Ids(s.queue[n..]) == s.freed + Ids(s.queue);
    if n > 0 && n < |s.queue| {
      QueuedIds(s, 0);
      QueuedIds(s, n);
    }
  }

  lemma GcKeeps(s: State)
    requires Inv(s) && Enabled(s, Gc)
    ensures Inv(Next(s, Gc))
  {
    var c := Collected(s);
    var n := CollectedIs(s);
    CollectKeeps(s, c, n);
    if c.queue != [] && n > 0 {
      MarkKeeps(c.(signalled := false));
    } else if c.queue != [] {
      assert c.queue == s.queue;
    }
  }

  lemma CreatedExitsKeeps(s: State)
    requires Inv(s) && Enabled(s, CreatedExits)
    ensures Inv(Next(s, CreatedExits))
  {
    forall i | 0 <= i < |s.queue|
      ensures s.queue[i].id < s.accepted
    {
      QueuedIds(s, i);
    }
  }

  lemma ReceiveKeeps(s: State, i: nat, data: string)
    requires Inv(s) && Enabled(s, Receive(i, data))
    ensures Inv(Next(s, Receive(i, data)))
  {
  }

  lemma ShellStepKeeps(s: State, step: Step)
    requires Inv(s) && Enabled(s, step) && (step.StopShell? || step.StartShell? || step.ShellCreated?)
    ensures Inv(Next(s, step))
  {
    if step.StartShell? {
      StartShellKeeps(s);
    }
  }

  lemma StepKeeps(s: State, step: Step)
    requires Inv(s) && Enabled(s, step)
    ensures Inv(Next(s, step))
  {
    match step
    case CreatedExits => CreatedExitsKeeps(s);
    case Queue => QueueKeeps(s);
    case Exit(i) => ExitKeeps(s, i);
    case Receive(i, data) => ReceiveKeeps(s, i, data);
    case Write => WriteKeeps(s);
    case Gc => GcKeeps(s);
    case Create =>
    case GcStarts =>
    case _ => ShellStepKeeps(s, step);
  }

  lemma {:induction false} RunKeeps(steps: seq<Step>)
    ensures After(START, steps).Some? ==> Inv(After(START, steps).value)
  {
    if steps == [] {
      assert START.freed + Ids(START.queue) == UpTo(0);
    } else {
      var init := steps[..|steps| - 1];
      RunKeeps(init);
      if After(START, steps).Some? {
        StepKeeps(After(START, init).value, steps[|steps| - 1]);
      }
    }
  }
}
