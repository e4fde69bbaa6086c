/** The game supervisor of src/server/game-server.c: game_start and game_stop, called from any thread, and the wait
    thread, which keeps one server process running. Every step is what a thread does between two points where others
    can come in; the mutex is held over several of them. */
module Supervisor {
  import opened Options

  // Where a wait thread stands: before it reads running_flag, before it takes the mutex, before it calls waitpid with
  // what server_pid then holds, in waitpid, or returned
  datatype Place = AtCheck | AtLock | AtWait | InWait(pid: int) | Done

  // Who holds the mutex from one step to the next: game_start before and after pthread_create, or game_stop, which
  // waits for the thread to return
  datatype Holder = Free | Starting | Started | Stopping

  datatype State = State(
    running: bool,        // running_flag
    serverPid: int,       // server_pid
    joinable: nat,        // wait_thread_id: the thread that game_stop joins
    holder: Holder,
    threads: seq<Place>,  // every wait thread there ever was
    alive: set<int>,      // the child processes that run
    zombies: set<int>,    // those that have exited and have not been waited for
    forks: nat,           // how many children there ever were
    reaps: nat            // how many have been waited for
  )

  const START: State := State(false, -1, 0, Free, [], {}, {}, 0, 0)

  datatype Step =
    | StartIdle                         // game_start when the server runs already
    | StartBegin                        // game_start sets the flag
    | Create                            // pthread_create succeeds
    | CreateFails
    | StartEnd                          // game_start gives the mutex back
    | StopIdle                          // game_stop when the server does not run
    | StopBegin                         // game_stop clears the flag
    | StopEnd                           // pthread_join returns
    | Check(thread: nat)                // the loop condition
    | Fork(thread: nat, pid: int)       // run_server succeeds
    | ForkFails(thread: nat)
    | CallWait(thread: nat)
    | Exit(pid: int)                    // a child exits
    | WaitReturns(thread: nat)

  predicate At(s: State, thread: nat, place: Place) {
    thread < |s.threads| && s.threads[thread] == place
  }

  predicate Enabled(s: State, step: Step) {
    match step
    case StartIdle => s.holder == Free && s.running
    case StartBegin => s.holder == Free && !s.running
    case Create => s.holder == Starting
    case CreateFails => s.holder == Starting
    case StartEnd => s.holder == Started
    case StopIdle => s.holder == Free && !s.running
    case StopBegin => s.holder == Free && s.running
    case StopEnd => s.holder == Stopping && At(s, s.joinable, Done)
    case Check(t) => At(s, t, AtCheck)
    case Fork(t, pid) => At(s, t, AtLock) && s.holder == Free && pid > 0 && pid !in s.alive + s.zombies
    case ForkFails(t) => At(s, t, AtLock) && s.holder == Free
    case CallWait(t) => At(s, t, AtWait)
    case Exit(pid) => pid in s.alive
    case WaitReturns(t) => t < |s.threads| && s.threads[t].InWait? && s.threads[t].pid !in s.alive
  }

  function Moved(s: State, thread: nat, place: Place): State
    requires thread < |s.threads|
  {
    s.(threads := s.threads[thread := place])
  }

  function Next(s: State, step: Step): State
    requires Enabled(s, step)
  {
    match step
    case StartIdle => s
    case StartBegin => s.(running := true, holder := Starting)
    case Create => s.(threads := s.threads + [AtCheck], joinable := |s.threads|, holder := Started)
    case CreateFails => s.(running := false, holder := Free)
    case StartEnd => s.(holder := Free)
    case StopIdle => s
    case StopBegin => s.(running := false, holder := Stopping)
    case StopEnd => s.(holder := Free)
    case Check(t) => Moved(s, t, if s.running then AtLock else Done)
    case Fork(t, pid) => Moved(s, t, AtWait).(serverPid := pid, alive := s.alive + {pid}, forks := s.forks + 1)
    case ForkFails(t) => Moved(s, t, AtCheck).(serverPid := -1)
    case CallWait(t) => Moved(s, t, InWait(s.serverPid))
    case Exit(pid) => s.(alive := s.alive - {pid}, zombies := s.zombies + {pid})
    case WaitReturns(t) =>
      var pid := s.threads[t].pid;
      // Without such a child, waitpid fails and nothing is reaped.
      if pid in s.zombies then Moved(s, t, AtCheck).(zombies := s.zombies - {pid}, reaps := s.reaps + 1)
      else Moved(s, t, AtCheck)
  }

  // The state after a run of steps, when each of them is enabled where it comes
  function After(s: State, steps: seq<Step>): Option<State>
    decreases |steps|
  {
    if steps == [] then Some(s)
    else if Enabled(s, steps[0]) then After(Next(s, steps[0]), steps[1..])
    else None
  }

  // ---------- what every state keeps ----------

  predicate Lives(s: State, thread: nat) {
    thread < |s.threads| && s.threads[thread] != Done
  }

  ghost predicate Quiet(s: State) {
    && (forall t: nat :: !Lives(s, t))
    && s.alive == {} && s.zombies == {}
  }

  // The thread has a child, which is the one server_pid names.
  predicate HasChild(s: State, thread: nat) {
    thread < |s.threads| && (s.threads[thread] == AtWait || s.threads[thread] == InWait(s.serverPid))
  }

  predicate Childless(s: State) {
    s.alive == {} && s.zombies == {} && s.forks == s.reaps
  }

  predicate WithOneChild(s: State) {
    && ((s.alive == {s.serverPid} && s.zombies == {}) || (s.alive == {} && s.zombies == {s.serverPid}))
    && s.forks == s.reaps + 1
  }

  ghost predicate Inv(s: State) {
    && (forall t: nat :: Lives(s, t) ==> t == s.joinable)
    && (s.holder == Starting || s.holder == Started ==> s.running)
    && (s.holder == Stopping ==> !s.running && s.joinable < |s.threads|)
    && (s.holder != Stopping ==> (Lives(s, s.joinable) <==> s.running && s.holder != Starting))
    && (if HasChild(s, s.joinable) then WithOneChild(s)
        else Childless(s) && (s.joinable < |s.threads| ==> !s.threads[s.joinable].InWait?))
  }

  lemma ExitKeeps(s: State, pid: int)
    requires Inv(s) && pid in s.alive
    ensures s.alive == {pid} && Next(s, Exit(pid)).alive == {} && Next(s, Exit(pid)).zombies == {pid}
    ensures Inv(Next(s, Exit(pid)))
  {
    var t := Next(s, Exit(pid));
    assert forall u: nat :: Lives(t, u) <==> Lives(s, u);
    assert HasChild(s, s.joinable) && HasChild(t, t.joinable);
  }

  lemma WaitKeeps(s: State, thread: nat)
    requires Inv(s) && Enabled(s, WaitReturns(thread))
    ensures thread == s.joinable && s.alive == {} && s.zombies == {s.threads[thread].pid}
    ensures Inv(Next(s, WaitReturns(thread)))
  {
    var t := Next(s, WaitReturns(thread));
    assert Lives(s, thread);
    assert HasChild(s, thread);
    assert !HasChild(t, thread);
    assert forall u: nat :: Lives(t, u) <==> Lives(s, u);
    assert t.zombies == {};
  }

  lemma StepKeeps(s: State, step: Step)
    requires Inv(s) && Enabled(s, step)
    ensures Inv(Next(s, step))
  {
    var t := Next(s, step);
    match step
    case Exit(pid) => ExitKeeps(s, pid);
    case WaitReturns(thread) => WaitKeeps(s, thread);
    case Create =>
      assert forall u: nat :: !Lives(s, u);
      assert forall u: nat :: Lives(t, u) ==> Lives(s, u) || u == |s.threads|;
      assert !HasChild(s, s.joinable) && !HasChild(t, t.joinable);
    case Check(thread) =>
      assert Lives(s, thread);
      assert forall u: nat :: Lives(t, u) ==> Lives(s, u);
    case Fork(thread, pid) =>
      assert Lives(s, thread);
      assert forall u: nat :: Lives(t, u) ==> Lives(s, u);
    case ForkFails(thread) =>
      assert Lives(s, thread);
      assert forall u: nat :: Lives(t, u) ==> Lives(s, u);
    case CallWait(thread) =>
      assert Lives(s, thread);
      assert forall u: nat :: Lives(t, u) ==> Lives(s, u);
    case _ =>
      assert forall u: nat :: Lives(t, u) <==> Lives(s, u);
      assert HasChild(t, t.joinable) <==> HasChild(s, s.joinable);
  }

  lemma {:induction false} RunKeeps(s: State, steps: seq<Step>)
    requires Inv(s) && After(s, steps).Some?
    ensures Inv(After(s, steps).value)
    decreases |steps|
  {
    if steps != [] {
      StepKeeps(s, steps[0]);
      RunKeeps(Next(s, steps[0]), steps[1..]);
    }
  }

  // ---------- safety ----------

  ghost predicate AtMostOneOfEach(s: State) {
    && (forall t: nat, u: nat :: Lives(s, t) && Lives(s, u) ==> t == u)
    && |s.alive + s.zombies| <= 1
  }

  // Over every run there is at most one wait thread and at most one child; a wait thread only ever waits for the child
  // it has forked itself; and while the mutex is free, the server does not run exactly when no wait thread lives,
  // and then there is no child either.
  lemma SupervisorIsSafe(steps: seq<Step>)
    requires After(START, steps).Some?
    ensures var s := After(START, steps).value;
      && AtMostOneOfEach(s)
      && (forall t: nat :: Lives(s, t) && s.threads[t].InWait? ==> s.alive + s.zombies == {s.threads[t].pid})
      && (s.holder == Free ==> (!s.running <==> forall t: nat :: !Lives(s, t)))
      && (s.holder == Free && !s.running ==> Quiet(s))
  {
    assert Inv(START);
    RunKeeps(START, steps);
    var s := After(START, steps).value;
    assert s.alive + s.zombies == {} || s.alive + s.zombies == {s.serverPid};
    forall t: nat | Lives(s, t) && s.threads[t].InWait?
      ensures s.alive + s.zombies == {s.threads[t].pid}
    {
      assert HasChild(s, s.joinable);
    }
  }

  lemma {:induction false} AfterLast(s: State, steps: seq<Step>, last: Step)
    requires After(s, steps + [last]).Some?
    ensures After(s, steps).Some? && Enabled(After(s, steps).value, last)
    ensures After(s, steps + [last]).value == Next(After(s, steps).value, last)
    decreases |steps|
  {
    if steps == [] {
      assert (steps + [last])[1..] == [];
    } else {
      assert (steps + [last])[1..] == steps[1..] + [last];
      AfterLast(Next(s, steps[0]), steps[1..], last);
    }
  }

  // When game_stop returns, whichever way it went, neither a wait thread nor a child exists.
  lemma StopLeavesNothing(steps: seq<Step>, last: Step)
    requires After(START, steps + [last]).Some? && (last == StopEnd || last == StopIdle)
    ensures Quiet(After(START, steps + [last]).value)
  {
    AfterLast(START, steps, last);
    assert Inv(START);
    RunKeeps(START, steps);
    SupervisorIsSafe(steps + [last]);
  }

  // The server is never forked again before the last one has been waited for.
  lemma ForksAndWaitsAlternate(steps: seq<Step>)
    requires After(START, steps).Some?
    ensures var s := After(START, steps).value;
      s.forks == s.reaps + |s.alive + s.zombies| && s.reaps <= s.forks <= s.reaps + 1
  {
    assert Inv(START);
    RunKeeps(START, steps);
    var s := After(START, steps).value;
    assert s.alive + s.zombies == {} || s.alive + s.zombies == {s.serverPid};
  }

  // ---------- whether game_stop returns ----------

  // How many steps are left at most until game_stop returns
  function Left(s: State): nat
    requires s.joinable < |s.threads|
  {
    |s.alive| +
    match s.threads[s.joinable]
    case AtWait => 4
    case InWait(_) => 3
    case AtCheck => 2
    case Done => 1
    case AtLock => 0
  }

  predicate Blocked(s: State) {
    s.holder == Stopping && At(s, s.joinable, AtLock)
  }

  // Some step can be taken.
  ghost function SomeStep(s: State): (step: Step)
    requires Inv(s) && s.holder == Stopping && !Blocked(s)
    ensures Enabled(s, step)
  {
    var t := s.joinable;
    match s.threads[t]
    case AtWait => CallWait(t)
    case InWait(pid) => if pid in s.alive then Exit(pid) else WaitReturns(t)
    case AtCheck => Check(t)
    case Done => StopEnd
  }

  lemma StoppingStep(s: State, step: Step)
    requires Inv(s) && s.holder == Stopping && Enabled(s, step)
    ensures !Blocked(s) && !Blocked(Next(s, step))
    ensures step == StopEnd || (Next(s, step).holder == Stopping && Left(Next(s, step)) < Left(s))
  {
    match step
    case Check(t) => assert Lives(s, t);
    case CallWait(t) => assert Lives(s, t);
    case WaitReturns(t) => WaitKeeps(s, t);
    case Exit(pid) => ExitKeeps(s, pid);
    case StopEnd =>
    case Fork(t, _) =>
    case ForkFails(t) =>
  }

  // While game_stop holds the mutex, everything stands still for ever if and only if the wait thread was between its
  // look at the flag and the mutex.
  lemma StopBlocksIff(steps: seq<Step>)
    requires After(START, steps).Some? && After(START, steps).value.holder == Stopping
    ensures var s := After(START, steps).value; Blocked(s) <==> forall step :: !Enabled(s, step)
  {
    assert Inv(START);
    RunKeeps(START, steps);
    var s := After(START, steps).value;
    if Blocked(s) {
      forall step | Enabled(s, step)
        ensures false
      {
        StoppingStep(s, step);
      }
    } else {
      var step := SomeStep(s);
    }
  }

  // Otherwise game_stop returns: every run from here that has not come to its return yet is short, and it can go on.
  lemma {:induction false} StopReturnsSoon(s: State, steps: seq<Step>)
    requires Inv(s) && s.holder == Stopping && !Blocked(s)
    requires After(s, steps).Some? && StopEnd !in steps
    ensures |steps| < Left(s) <= 5
    ensures var t := After(s, steps).value; Inv(t) && t.holder == Stopping && !Blocked(t) && Enabled(t, SomeStep(t))
    decreases |steps|
  {
    if HasChild(s, s.joinable) {
      assert |s.alive| <= 1;
    }
    if steps != [] {
      StoppingStep(s, steps[0]);
      StepKeeps(s, steps[0]);
      StopReturnsSoon(Next(s, steps[0]), steps[1..]);
    }
  }

  // A run that comes to the blocked state
  lemma StopCanBlock()
    ensures var end := After(START, [StartBegin, Create, StartEnd, Check(0), StopBegin]);
      end.Some? && Blocked(end.value) && forall step :: !Enabled(end.value, step)
  {
    var steps := [StartBegin, Create, StartEnd, Check(0), StopBegin];
    var s1 := Next(START, StartBegin);
    var s2 := Next(s1, Create);
    var s3 := Next(s2, StartEnd);
    var s4 := Next(s3, Check(0));
    assert steps[1..][1..][1..] == [Check(0), StopBegin];
    assert steps[1..][1..] == [StartEnd, Check(0), StopBegin];
    assert steps[1..] == [Create, StartEnd, Check(0), StopBegin];
    assert [Check(0), StopBegin][1..] == [StopBegin];
    assert After(s4, [StopBegin]) == Some(Next(s4, StopBegin));
    assert After(s3, [Check(0), StopBegin]) == Some(Next(s4, StopBegin));
    StopBlocksIff(steps);
  }

  // ---------- the functions themselves ----------

  // The static fields of game-server.c. Each method is the code between two points where other threads can come in,
  // and takes one step of the protocol; what the operating system answers is a parameter.
  class Game {
    var runningFlag: bool
    var serverPid: int
    var waitThreadId: nat
    ghost var state: State

    ghost predicate Valid()
      reads this
    {
      && Inv(state)
      && runningFlag == state.running && serverPid == state.serverPid && waitThreadId == state.joinable
    }

    constructor ()
      ensures Valid() && state == START
    {
      runningFlag, serverPid, waitThreadId := false, -1, 0;
      state := START;
    }

    ghost method Take(step: Step)
      requires Inv(state) && Enabled(state, step)
      modifies this`state
      ensures Inv(state) && state == Next(old(state), step)
    {
      StepKeeps(state, step);
      state := Next(state, step);
    }

    // game_start up to pthread_create; when the server runs already, all of game_start
    method StartBegin() returns (create: bool)
      requires Valid() && state.holder == Free
      modifies this
      ensures Valid() && create == !old(runningFlag)
      ensures state == Next(old(state), if create then Step.StartBegin else StartIdle)
    {
      create := !runningFlag;
      if create {
        runningFlag := true;
        Take(Step.StartBegin);
      }
    }

    // pthread_create and what follows; created is the new thread, if there is one.
    method StartCreate(created: Option<nat>) returns (ok: bool)
      requires Valid() && state.holder == Starting
      requires created.Some? ==> created.value == |state.threads|
      modifies this
      ensures Valid() && ok == created.Some? == runningFlag
      ensures state == Next(old(state), if ok then Create else CreateFails)
    {
      ok := created.Some?;
      if created.Some? {
        waitThreadId := created.value;
        Take(Create);
      } else {
        runningFlag := false;
        Take(CreateFails);
      }
    }

    // game_stop up to pthread_join, the thread to join; when the server does not run, all of game_stop
    method StopBegin() returns (join: Option<nat>)
      requires Valid() && state.holder == Free
      modifies this
      ensures Valid() && !runningFlag && join.Some? == old(runningFlag)
      ensures state == Next(old(state), if join.Some? then Step.StopBegin else StopIdle)
      ensures match join
        case Some(t) => forall u: nat :: Lives(state, u) <==> u == t
        case None => Quiet(state)
    {
      join := None;
      if runningFlag {
        runningFlag := false;
        join := Some(waitThreadId);
        Take(Step.StopBegin);
      }
    }

    // pthread_join has returned.
    method StopEnd()
      requires Valid() && Enabled(state, Step.StopEnd)
      modifies this
      ensures Valid() && state == Next(old(state), Step.StopEnd)
      ensures Quiet(state)
    {
      Take(Step.StopEnd);
    }

    // The loop condition of wait_thread
    method Check(ghost thread: nat) returns (again: bool)
      requires Valid() && At(state, thread, AtCheck)
      modifies this
      ensures Valid() && state == Next(old(state), Step.Check(thread))
      ensures again <==> At(state, thread, AtLock)
      ensures !again <==> At(state, thread, Done)
    {
      again := runningFlag;
      Take(Step.Check(thread));
    }

    // The critical section of wait_thread; pid is what fork answers.
    method RunServer(ghost thread: nat, pid: int) returns (ok: bool)
      requires Valid() && At(state, thread, AtLock) && state.holder == Free
      requires pid == -1 || (pid > 0 && pid !in state.alive + state.zombies)
      modifies this
      ensures Valid() && ok == (pid != -1) && serverPid == pid
      ensures state == Next(old(state), if ok then Fork(thread, pid) else ForkFails(thread))
      ensures ok ==> state.alive == {pid} && old(state).alive + old(state).zombies == {}
    {
      assert Lives(state, thread);
      serverPid := pid;
      if serverPid == -1 {
        Take(ForkFails(thread));
        return false;
      }
      Take(Fork(thread, pid));
      ok := true;
    }

    // The argument of waitpid is read without the mutex, and still names the thread's own child.
    method CallWait(ghost thread: nat) returns (pid: int)
      requires Valid() && At(state, thread, AtWait)
      modifies this
      ensures Valid() && state == Next(old(state), Step.CallWait(thread))
      ensures state.alive + state.zombies == {pid} && At(state, thread, InWait(pid))
    {
      assert Lives(state, thread);
      pid := serverPid;
      Take(Step.CallWait(thread));
    }
  }
}
