/** The session queue of src/network/network.c on the heap: a ring of session objects, the shell switch of
    src/server/cmdline.c, and the code that reads and changes them. Each method is one step of SessionProtocol. */
module SessionServer {
  import opened Options
  import opened Seqs
  import opened Rings
  import opened SessionProtocol

  class Peer {
    const id: nat
    var status: Status

    constructor (id: nat)
      ensures this.id == id && status == Waiting
    {
      this.id := id;
      status := Waiting;
    }
  }

  // cmdline_start and cmdline_stop: whether the shell's thread runs, and in which mode
  class Shell {
    var runFlag: bool
    var mcMode: bool

    constructor ()
      ensures !runFlag
    {
      runFlag := false;
      mcMode := false;
    }

    // cmdline_start up to pthread_create; when the shell runs already, all of it
    method Begin() returns (create: bool)
      modifies this
      ensures runFlag && create == !old(runFlag)
      ensures mcMode == if create then false else old(mcMode)
    {
      create := !runFlag;
      if create {
        mcMode := false;
        runFlag := true;
      }
    }

    // pthread_create and what follows; spawned says whether it succeeds.
    method Created(spawned: bool) returns (ok: bool)
      requires runFlag
      modifies this
      ensures runFlag == ok == spawned && mcMode == old(mcMode)
    {
      ok := spawned;
      if !spawned {
        runFlag := false;
      }
    }

    method Stop()
      modifies this
      ensures !runFlag && mcMode == old(mcMode)
    {
      if runFlag {
        runFlag := false;
      }
    }
  }

  class Server {
    const queue: Ring<Peer>
    const shell: Shell
    ghost var state: State

    // Node i of the ring carries session i of the protocol state.
    ghost predicate Carries(i: nat)
      requires i < |queue.nodes| && i < |state.queue|
      reads this, queue, queue.Items()
    {
      queue.Items()[i].id == state.queue[i].id && queue.Items()[i].status == state.queue[i].status
    }

    ghost predicate QueueValid()
      reads this, queue, queue.nodes, queue.Items()
    {
      && queue.Valid()
      && Distinct(queue.Items())
      && |state.queue| == |queue.nodes|
      && (forall i {:trigger Carries(i)} :: 0 <= i < |state.queue| ==> Carries(i))
    }

    ghost predicate Valid()
      reads this, queue, queue.nodes, queue.Items(), shell
    {
      QueueValid() && shell.runFlag == state.shellRuns
    }

    constructor ()
      ensures Valid() && state == START && fresh(queue) && fresh(shell)
    {
      queue := new Ring();
      shell := new Shell();
      state := START;
    }

    // A step that leaves the queue as it is
    ghost method Take(next: State)
      requires QueueValid() && next.queue == state.queue && next.shellRuns == shell.runFlag
      modifies `state
      ensures Valid() && state == next
    {
      ghost var s := state;
      assert forall i {:trigger Carries(i)} :: 0 <= i < |s.queue| ==> Carries(i);
      state := next;
      forall i | 0 <= i < |state.queue|
        ensures Carries(i)
      {
        assert old(Carries(i));
      }
    }

    // network_main from the lock on: the session is queued, and activated when it is the front. Then server_refresh
    // follows, or the mutex is given back.
    method Accept(p: Peer) returns (refresh: bool)
      requires Valid() && p !in queue.Items()
      requires Enabled(state, Step.Queue) && state.created == Some(p.status) && p.id == state.accepted
      modifies this, queue, queue.nodes, p
      ensures Valid() && state == Next(old(state), Step.Queue)
      ensures queue.Items() == old(queue.Items()) + [p] && (refresh <==> state.phase == Marked)
    {
      ghost var before, s := queue.Items(), state;
      assert forall i {:trigger Carries(i)} :: 0 <= i < |s.queue| ==> Carries(i);
      queue.Push(p);
      AppendedIsDistinct(before, p);
      var front: Node<Peer> := queue.head;
      OneSlotEach(queue.Items(), 0, |before|);
      assert queue.Items()[0] == front.item;
      refresh := p == front.item;
      if refresh {
        p.status := Active;
      }
      state := Next(s, Step.Queue);
      forall i | 0 <= i < |state.queue|
        ensures Carries(i)
      {
        if i < |before| {
          assert old(Carries(i));
          OneSlotEach(queue.Items(), i, |before|);
        }
      }
    }

    // server_refresh, step by step

    method StopShell()
      requires Valid() && Enabled(state, Step.StopShell)
      modifies this, shell
      ensures Valid() && state == Next(old(state), Step.StopShell)
    {
      shell.Stop();
      Take(Next(state, Step.StopShell));
    }

    method StartShell()
      requires Valid() && Enabled(state, Step.StartShell)
      modifies this, shell
      ensures Valid() && state == Next(old(state), Step.StartShell)
    {
      var create := shell.Begin();
      Take(Next(state, Step.StartShell));
    }

    method ShellCreated(spawned: bool)
      requires Valid() && Enabled(state, Step.ShellCreated(spawned)) && state.shellRuns
      modifies this, shell
      ensures Valid() && state == Next(old(state), Step.ShellCreated(spawned))
    {
      var ok := shell.Created(spawned);
      Take(Next(state, Step.ShellCreated(spawned)));
    }

    // The end of session_thread: the status is set and gc is signalled.
    method ExitSession(p: Peer, ghost at: nat)
      requires Valid() && at < |queue.nodes| && p == queue.Items()[at]
      requires Enabled(state, Exit(at))
      modifies this, p
      ensures Valid() && state == Next(old(state), Exit(at))
    {
      assert forall i {:trigger Carries(i)} :: 0 <= i < |state.queue| ==> Carries(i);
      p.status := Exited;
      state := Next(state, Exit(at));
      forall i | 0 <= i < |state.queue|
        ensures Carries(i)
      {
        assert old(Carries(i));
        OneSlotEach(queue.Items(), i, at);
      }
    }

    // conn_receive up to the write, without the mutex: what is to be written to the shell, and whether the session is
    // to be told that it has to wait
    method Receive(p: Peer, data: string, ghost at: nat) returns (passed: Option<string>, wait: bool)
      requires Valid() && at < |queue.nodes| && p == queue.Items()[at]
      requires Enabled(state, Step.Receive(at, data))
      modifies this
      ensures Valid() && state == Next(old(state), Step.Receive(at, data))
      ensures wait <==> state.queue[at].status != Active
      ensures passed.Some? <==> !wait && state.shellRuns
      ensures passed.Some? ==> passed.value == if |data| > 0 && data[0] == '\r' then "\n\0" else data
      ensures match passed
        case Some(w) => state == old(state).(writing := Some(Input(p.id, w)))
        case None => state == old(state)
    {
      assert Carries(at);
      passed := None;
      wait := p.status != Active;
      if !wait && shell.runFlag {
        passed := Some(if data != "" && data[0] == '\r' then "\n\0" else data);
      }
      Take(Next(state, Step.Receive(at, data)));
    }

    // The write itself
    method Write(p: Peer, w: string)
      requires Valid() && state.writing == Some(Input(p.id, w))
      modifies this
      ensures Valid() && state == Next(old(state), Step.Write)
      ensures state.trace == old(state.trace) + [Input(p.id, w)]
    {
      Take(Next(state, Step.Write));
    }

    // What conn_receive does under the mutex for a session that was not active: the session that is told that another
    // one waits. A session that has been activated in the meantime is told so itself.
    method Notify() returns (urged: Option<nat>)
      requires Valid() && state.phase == Open && state.queue != []
      ensures urged == if state.queue[0].status == Active then Some(state.queue[0].id) else None
    {
      var front: Node<Peer> := queue.head;
      assert Carries(0) && queue.Items()[0] == front.item;
      urged := if front.item.status == Active then Some(front.item.id) else None;
    }

    // One round of gc_thread from its wake-up to server_refresh, or to the next wait
    method CollectAndHandOn() returns (refresh: bool, n: nat)
      requires Valid() && Enabled(state, Step.Gc)
      modifies this, queue, queue.nodes, shell, queue.Items()
      ensures Valid() && state == Next(old(state), Step.Gc)
      ensures n <= |old(queue.Items())| && queue.Items() == old(queue.Items())[n..]
      ensures refresh <==> state.phase == Marked
    {
      n := Collect();
      refresh := HandOn();
    }

    method Collect() returns (n: nat)
      requires Valid()
      modifies this, queue, queue.nodes
      ensures Valid() && state == Collected(old(state)).(signalled := false)
      ensures n <= |old(queue.Items())| && queue.Items() == old(queue.Items())[n..]
      ensures forall p :: p in queue.Items() ==> p in old(queue.Items())
    {
      n := FreeExited();
      Take(state.(signalled := false));
    }

    // The release loop: queue_pop while the front has exited
    method FreeExited() returns (n: nat)
      requires Valid()
      modifies this, queue, queue.nodes
      ensures Valid() && state == Collected(old(state))
      ensures n <= |old(queue.Items())| && queue.Items() == old(queue.Items())[n..]
    {
      n := 0;
      while queue.head != null
        invariant Valid() && Collected(state) == Collected(old(state))
        invariant n <= |old(queue.Items())| && queue.Items() == old(queue.Items())[n..]
        invariant |queue.nodes| == |queue.Items()| && n <= |old(queue.nodes)| && queue.nodes == old(queue.nodes)[n..]
        decreases |queue.nodes|
      {
        var front: Node<Peer> := queue.head;
        assert Carries(0);
        assert queue.Items()[0] == front.item;
        if front.item.status != Exited {
          break;
        }
        PopFront();
        n := n + 1;
      }
    }

    method PopFront()
      requires Valid() && queue.head != null
      modifies this, queue, queue.nodes
      ensures Valid() && queue.nodes == old(queue.nodes)[1..]
      ensures queue.Items() == old(queue.Items())[1..]
      ensures old(state.queue) != []
      ensures var s := old(state); state == s.(queue := s.queue[1..], freed := s.freed + [s.queue[0].id])
    {
      ghost var before, s := queue.Items(), state;
      assert forall i {:trigger Carries(i)} :: 0 <= i < |s.queue| ==> Carries(i);
      var p := queue.Pop();
      assert queue.Items() == before[1..];
      WithoutIsDistinct(before, 0);
      assert Without(before, 0) == before[1..];
      state := s.(queue := s.queue[1..], freed := s.freed + [s.queue[0].id]);
      forall i | 0 <= i < |state.queue|
        ensures Carries(i)
      {
        assert old(Carries(i + 1));
      }
    }

    // The activation of the first session, or server_close_cmd when there is none
    method HandOn() returns (refresh: bool)
      requires Valid() && state.phase == Open
      modifies this, shell, queue.Items()
      ensures Valid() && state == HandedOn(old(state)) && (refresh <==> state.phase == Marked)
    {
      ghost var s := state;
      assert forall i {:trigger Carries(i)} :: 0 <= i < |s.queue| ==> Carries(i);
      refresh := false;
      if queue.head != null {
        var front: Node<Peer> := queue.head;
        assert queue.Items()[0] == front.item;
        assert Carries(0);
        if front.item.status == Waiting {
          front.item.status := Active;
          refresh := true;
        }
      } else {
        shell.Stop();
      }
      state := HandedOn(s);
      forall i | 0 <= i < |state.queue|
        ensures Carries(i)
      {
        assert old(Carries(i));
        OneSlotEach(queue.Items(), 0, i);
      }
    }
  }

  // The newline loop of send_thread: what goes to the channel for a buffer that was read from the shell
  method SendTranslated(buf: string) returns (sent: string)
    ensures sent == Translated(buf)
  {
    sent := "";
    var start, end := 0, 0;
    while end < |buf|
      invariant 0 <= start <= end <= |buf|
      invariant sent + buf[start..end] == Translated(buf[..end])
    {
      assert buf[..end + 1][..end] == buf[..end];
      assert buf[start..end + 1] == buf[start..end] + [buf[end]];
      if buf[end] == '\n' {
        sent := sent + buf[start..end];
        sent := sent + "\r";
        start := end;
      }
      end := end + 1;
    }
    assert buf[..end] == buf;
    sent := sent + buf[start..end];
  }

  // A carriage return goes in front of every newline.
  function Translated(s: string): string {
    if s == "" then ""
    else
      var n := |s| - 1;
      Translated(s[..n]) + (if s[n] == '\n' then "\r\n" else [s[n]])
  }

  predicate Returned(t: string) {
    forall i :: 0 <= i < |t| && t[i] == '\n' ==> i > 0 && t[i - 1] == '\r'
  }

  lemma ReturnedOneMore(t: string, c: char)
    requires Returned(t)
    ensures Returned(t + "\r\n")
    ensures c != '\n' ==> Returned(t + [c])
  {
  }

  // Every newline that is sent has a carriage return right before it.
  lemma {:induction false} NewlinesAreReturned(s: string)
    ensures Returned(Translated(s))
  {
    if s != "" {
      var n := |s| - 1;
      NewlinesAreReturned(s[..n]);
      ReturnedOneMore(Translated(s[..n]), s[n]);
    }
  }

  lemma OneMoreCharacter(s: string, t: string, c: char)
    ensures Translated(s + [c]) == Translated(s) + (if c == '\n' then "\r\n" else [c])
    ensures c != '\n' ==> Restored(t + [c]) == Restored(t) + [c]
    ensures Restored(t + "\r\n") == Restored(t) + "\n"
  {
    assert (s + [c])[..|s|] == s && (t + [c])[..|t|] == t;
    assert (t + "\r\n")[..|t + "\r\n"| - 2] == t;
  }

  // The last character of a text in which every newline has its carriage return, with that
  lemma LastReturned(t: string) returns (init: string, last: char)
    requires Returned(t) && t != ""
    ensures Returned(init) && |init| < |t|
    ensures t == init + (if last == '\n' then "\r\n" else [last])
  {
    last := t[|t| - 1];
    init := if last == '\n' then t[..|t| - 2] else t[..|t| - 1];
  }

  // Nothing else with these two properties: a text in which every newline has its carriage return and which restores to
  // s is what is sent for s.
  lemma {:induction false} TranslationIsTheOnlyOne(s: string, t: string)
    requires Restored(t) == s && Returned(t)
    ensures t == Translated(s)
    decreases |t|
  {
    if t != "" {
      var init, last := LastReturned(t);
      TranslationIsTheOnlyOne(Restored(init), init);
      OneMoreCharacter(Restored(init), init, last);
    }
  }

  // Take one carriage return away in front of every newline.
  function Restored(s: string): string {
    if s == "" then ""
    else
      var n := |s| - 1;
      if n > 0 && s[n] == '\n' && s[n - 1] == '\r' then Restored(s[..n - 1]) + "\n" else Restored(s[..n]) + [s[n]]
  }

  // Nothing is lost on the way: the text can be restored, whatever carriage returns it holds itself.
  lemma {:induction false} TranslationIsReversible(s: string)
    ensures Restored(Translated(s)) == s
  {
    if s != "" {
      var n := |s| - 1;
      var init := Translated(s[..n]);
      TranslationIsReversible(s[..n]);
      var t := Translated(s);
      if s[n] == '\n' {
        assert t[..|t| - 2] == init && t[|t| - 1] == '\n' && t[|t| - 2] == '\r';
      } else {
        assert t[..|t| - 1] == init;
      }
    }
  }
}
