/**
 The timeout queue, a singly linked list of heap nodes with a pointer to the earliest,
 and the part of the Android event handler's poll loop that serves it.
 */
module TimeoutQueues {
  import opened Folding
  import opened TimeoutSpec

  class Timeout {
    const port: Port
    var timeout: int
    var next: Timeout?

    constructor (port: Port, timeout: int, next: Timeout?)
      ensures this.port == port && this.timeout == timeout && this.next == next
    {
      this.port := port;
      this.timeout := timeout;
      this.next := next;
    }
  }

  /** The node at an index, null behind the last. */
  ghost function NodeAt(nodes: seq<Timeout>, i: nat): Timeout? {
    if i < |nodes| then nodes[i] else null
  }

  ghost predicate Distinct(nodes: seq<Timeout>) {
    forall i, j :: 0 <= i < j < |nodes| ==> nodes[i] != nodes[j]
  }

  /** Each node's pointer leads to the next one. */
  ghost predicate Chained(nodes: seq<Timeout>)
    reads nodes
  {
    forall i {:trigger nodes[i].next} :: 0 <= i < |nodes| ==> nodes[i].next == NodeAt(nodes, i + 1)
  }

  /** The entries are what the nodes hold. */
  ghost predicate Holds(nodes: seq<Timeout>, entries: seq<Entry>)
    reads nodes
  {
    && |entries| == |nodes|
    && (forall i {:trigger nodes[i].timeout} {:trigger entries[i]} :: 0 <= i < |nodes| ==>
          entries[i] == Entry(nodes[i].port, nodes[i].timeout))
  }

  ghost predicate Owns(live: set<Timeout>, nodes: seq<Timeout>) {
    && (forall node :: node in live ==> node in nodes)
    && (forall i :: 0 <= i < |nodes| ==> nodes[i] in live)
  }

  /** Taking a node out of the list and deleting it. */
  lemma OwnsWithout(live: set<Timeout>, nodes: seq<Timeout>, k: nat)
    requires Distinct(nodes) && Owns(live, nodes) && k < |nodes|
    ensures Distinct(nodes[..k] + nodes[k + 1..])
    ensures Owns(live - {nodes[k]}, nodes[..k] + nodes[k + 1..])
  {
    var rest := nodes[..k] + nodes[k + 1..];
    assert forall i :: 0 <= i < |rest| ==> rest[i] == nodes[if i < k then i else i + 1];
    forall node | node in live - {nodes[k]} ensures node in rest {
      var i :| 0 <= i < |nodes| && nodes[i] == node;
      assert rest[if i < k then i else i - 1] == node;
    }
  }

  /** A list whose k-th node is bypassed is a list without that node. */
  lemma ChainedWithout(nodes: seq<Timeout>, k: nat)
    requires k < |nodes|
    requires forall i {:trigger nodes[i].next} :: 0 <= i < |nodes| ==>
               nodes[i].next == NodeAt(nodes, if i + 1 == k then k + 1 else i + 1)
    ensures Chained(nodes[..k] + nodes[k + 1..])
  {
    var rest := nodes[..k] + nodes[k + 1..];
    forall i | 0 <= i < |rest| ensures rest[i].next == NodeAt(rest, i + 1) {
      assert nodes[if i < k then i else i + 1].next == rest[i].next;
    }
  }

  lemma HoldsWithout(nodes: seq<Timeout>, entries: seq<Entry>, k: nat)
    requires k < |nodes| && Holds(nodes, entries)
    ensures Holds(nodes[..k] + nodes[k + 1..], Without(entries, k))
  {
    var rest := nodes[..k] + nodes[k + 1..];
    forall i | 0 <= i < |rest| ensures Without(entries, k)[i] == Entry(rest[i].port, rest[i].timeout) {
      assert entries[if i < k then i else i + 1] == Without(entries, k)[i];
    }
  }

  lemma ChainedPrepend(node: Timeout, nodes: seq<Timeout>)
    requires Chained(nodes) && node.next == NodeAt(nodes, 0)
    ensures Chained([node] + nodes)
  {
    var more := [node] + nodes;
    forall i | 0 <= i < |more| ensures more[i].next == NodeAt(more, i + 1) {
      if i > 0 {
        assert nodes[i - 1].next == NodeAt(nodes, i);
      }
    }
  }

  lemma HoldsPrepend(node: Timeout, nodes: seq<Timeout>, entries: seq<Entry>)
    requires Holds(nodes, entries)
    ensures Holds([node] + nodes, [Entry(node.port, node.timeout)] + entries)
  {
  }

  lemma OwnsPrepend(live: set<Timeout>, node: Timeout, nodes: seq<Timeout>)
    requires Distinct(nodes) && Owns(live, nodes) && node !in nodes
    ensures Distinct([node] + nodes) && Owns(live + {node}, [node] + nodes)
  {
    assert [node] + nodes == [node] + nodes[..];
  }

  class TimeoutQueue {
    var nextTimeout: Timeout?
    var timeouts: Timeout?
    /** The list, from `timeouts` on. */
    ghost var nodes: seq<Timeout>
    /** What the nodes hold. */
    ghost var entries: seq<Entry>
    /** The nodes that are allocated and not yet deleted. */
    ghost var live: set<Timeout>

    ghost predicate LinkedNow()
      reads this, nodes
    {
      && timeouts == NodeAt(nodes, 0)
      && Distinct(nodes) && Chained(nodes) && Holds(nodes, entries) && Owns(live, nodes)
    }

    /** The list is in order; kept folded. */
    ghost predicate Linked()
      reads this, nodes
    {
      && |entries| == |nodes|
      && forall level: int {:trigger Look(level)} :: Look(level) && level == TIMEOUT_LIST_FOLD ==> LinkedNow()
    }

    ghost predicate ValidNow()
      reads this, nodes
    {
      && Linked()
      && QueueOk(entries)
      && nextTimeout == if nodes == [] then null else nodes[Earliest(entries)]
    }

    /** The list is in order and the pointer is at the first node with the earliest deadline;
        kept folded. */
    ghost predicate Valid()
      reads this, nodes
    {
      forall level: int {:trigger Look(level)} :: Look(level) && level == TIMEOUT_QUEUE_FOLD ==> ValidNow()
    }

    constructor ()
      ensures Valid() && nodes == [] && entries == [] && live == {}
    {
      nextTimeout := null;
      timeouts := null;
      nodes := [];
      entries := [];
      live := {};
    }

    predicate HasTimeout()
      requires Valid()
      reads this, nodes
      ensures HasTimeout() <==> entries != []
    {
      assert Look(TIMEOUT_QUEUE_FOLD);
      nextTimeout != null
    }

    function CurrentTimeout(): (deadline: int)
      requires Valid() && HasTimeout()
      reads this, nodes
      ensures deadline == entries[Earliest(entries)].deadline
    {
      assert Look(TIMEOUT_QUEUE_FOLD) && Look(TIMEOUT_LIST_FOLD);
      nextTimeout.timeout
    }

    function CurrentPort(): (port: Port)
      requires Valid() && HasTimeout()
      reads this, nodes
      ensures port == entries[Earliest(entries)].port
    {
      assert Look(TIMEOUT_QUEUE_FOLD) && Look(TIMEOUT_LIST_FOLD);
      nextTimeout.port
    }

    /** Looks for a port's node, remembering the node before it. */
    method Find(port: Port) returns (last: Timeout?, current: Timeout?, ghost k: nat)
      requires Linked()
      ensures k == IndexOf(entries, port)
      ensures current == NodeAt(nodes, k)
      ensures last == if k == 0 then null else nodes[k - 1]
    {
      assert Look(TIMEOUT_LIST_FOLD);
      last := null;
      current := timeouts;
      k := 0;
      while current != null && current.port != port
        invariant k <= |nodes| && current == NodeAt(nodes, k)
        invariant last == if k == 0 then null else nodes[k - 1]
        invariant forall i :: 0 <= i < k ==> entries[i].port != port
        decreases |nodes| - k
      {
        assert nodes[k].next == NodeAt(nodes, k + 1);
        assert entries[k].port == nodes[k].port;
        last := current;
        current := current.next;
        k := k + 1;
      }
      assert k < |nodes| ==> entries[k].port == nodes[k].port;
      IndexOfIs(entries, port, k);
    }

    /** Makes what points to the k-th node point behind it. */
    method Bypass(last: Timeout?, current: Timeout, ghost k: nat)
      requires LinkedNow() && k < |nodes| && current == nodes[k]
      requires last == if k == 0 then null else nodes[k - 1]
      modifies this`timeouts, nodes
      ensures timeouts == (if k == 0 then NodeAt(nodes, 1) else NodeAt(nodes, 0)) && Holds(nodes, entries)
      ensures forall i {:trigger nodes[i].next} :: 0 <= i < |nodes| ==>
                nodes[i].next == NodeAt(nodes, if i + 1 == k then k + 1 else i + 1)
    {
      assert nodes[k].next == NodeAt(nodes, k + 1);
      if last != null {
        last.next := current.next;
      } else {
        timeouts := current.next;
      }
    }

    /** Unlinks and deletes the k-th node. */
    method Remove(last: Timeout?, current: Timeout, ghost k: nat)
      requires Linked() && k < |nodes| && current == nodes[k]
      requires last == if k == 0 then null else nodes[k - 1]
      modifies this`timeouts, this`nodes, this`entries, this`live, nodes
      ensures Linked() && nodes == old(nodes[..k] + nodes[k + 1..])
      ensures entries == Without(old(entries), k)
    {
      assert Look(TIMEOUT_LIST_FOLD);
      OwnsWithout(live, nodes, k);
      Bypass(last, current, k);
      ChainedWithout(nodes, k);
      HoldsWithout(nodes, entries, k);
      nodes := nodes[..k] + nodes[k + 1..];
      entries := Without(entries, k);
      live := live - {current};
    }

    /** Changes the k-th node's deadline. */
    method Replace(current: Timeout, timeout: int, ghost k: nat)
      requires Linked() && k < |nodes| && current == nodes[k]
      modifies current, this`entries
      ensures Linked() && entries == old(entries)[k := Entry(old(entries)[k].port, timeout)]
    {
      assert Look(TIMEOUT_LIST_FOLD);
      current.timeout := timeout;
      entries := entries[k := Entry(current.port, timeout)];
      assert Chained(nodes) && Holds(nodes, entries);
    }

    /** Adds a node in front. */
    method Prepend(port: Port, timeout: int)
      requires Linked()
      modifies this`timeouts, this`nodes, this`entries, this`live
      ensures Linked() && |nodes| > 0 && fresh(nodes[0]) && nodes[1..] == old(nodes)
      ensures entries == [Entry(port, timeout)] + old(entries)
    {
      assert Look(TIMEOUT_LIST_FOLD);
      var node := new Timeout(port, timeout, timeouts);
      ChainedPrepend(node, nodes);
      HoldsPrepend(node, nodes, entries);
      OwnsPrepend(live, node, nodes);
      timeouts := node;
      nodes := [node] + nodes;
      entries := [Entry(port, timeout)] + entries;
      live := live + {node};
    }

    /** Resets the pointer to the first node with the earliest deadline. */
    method FindNext()
      requires Linked() && QueueOk(entries)
      modifies this`nextTimeout
      ensures Valid()
    {
      assert Look(TIMEOUT_LIST_FOLD);
      nextTimeout := null;
      var current := timeouts;
      ghost var i, best := 0, 0;
      while current != null
        invariant i <= |nodes| && current == NodeAt(nodes, i)
        invariant i == 0 ==> nextTimeout == null
        invariant i > 0 ==> best < i && nextTimeout == nodes[best] && IsEarliestOf(entries, i, best)
        decreases |nodes| - i
      {
        assert nodes[i].next == NodeAt(nodes, i + 1);
        assert entries[i].deadline == nodes[i].timeout;
        if i > 0 {
          EarliestStep(entries, i, best);
        }
        if nextTimeout == null || current.timeout < nextTimeout.timeout {
          nextTimeout := current;
          best := i;
        }
        current := current.next;
        i := i + 1;
      }
      if nodes != [] {
        EarliestUnique(entries, best, Earliest(entries));
      }
    }

    /** Changes the list. */
    method Change(port: Port, timeout: int)
      requires Linked()
      modifies this, nodes
      ensures Linked() && entries == Update(old(entries), port, timeout)
      ensures forall i :: 0 <= i < |nodes| ==> nodes[i] in old(nodes) || fresh(nodes[i])
    {
      var last, current, k := Find(port);
      if current != null {
        if timeout < 0 {
          Remove(last, current, k);
        } else {
          Replace(current, timeout, k);
        }
      } else if timeout >= 0 {
        Prepend(port, timeout);
      }
    }

    /** Sets, replaces or (given a negative timeout) cancels a port's deadline. */
    method UpdateTimeout(port: Port, timeout: int)
      requires Valid()
      modifies this, nodes
      ensures Valid() && entries == Update(old(entries), port, timeout)
      ensures forall i :: 0 <= i < |nodes| ==> nodes[i] in old(nodes) || fresh(nodes[i])
    {
      assert Look(TIMEOUT_QUEUE_FOLD);
      UpdateOk(entries, port, timeout);
      Change(port, timeout);
      FindNext();
    }

    method RemoveCurrent()
      requires Valid() && HasTimeout()
      modifies this, nodes
      ensures Valid() && entries == Without(old(entries), Earliest(old(entries)))
      ensures forall i :: 0 <= i < |nodes| ==> nodes[i] in old(nodes) || fresh(nodes[i])
    {
      assert Look(TIMEOUT_QUEUE_FOLD);
      ghost var q, k := entries, Earliest(entries);
      assert IndexOf(q, q[k].port) == k;
      UpdateTimeout(CurrentPort(), -1);
    }

    /** Deletes every node. */
    method Destroy()
      requires Valid()
      modifies this, nodes
      ensures Valid() && live == {}
    {
      while HasTimeout()
        invariant Valid()
        invariant forall i :: 0 <= i < |nodes| ==> nodes[i] in old(nodes) || fresh(nodes[i])
        decreases |entries|
      {
        RemoveCurrent();
      }
      assert Look(TIMEOUT_QUEUE_FOLD) && Look(TIMEOUT_LIST_FOLD);
    }
  }

  /** One turn of the poll loop as the outside decides it: the clock before and after the wait,
      whether the wait succeeded, the timer messages that came in, and whether a message to shut
      down was among them. */
  datatype Turn = Turn(before: int, woken: bool, now: int, messages: seq<Event>, shutdown: bool)

  predicate TurnOk(turn: Turn) {
    forall i :: 0 <= i < |turn.messages| ==> turn.messages[i].Message?
  }

  /** The events of a turn: a failed wait handles nothing. */
  function EventsOf(turn: Turn): seq<Event> {
    if turn.woken then [WakeUp(turn.now)] + turn.messages else []
  }

  predicate Stops(turn: Turn) {
    turn.woken && turn.shutdown
  }

  function AllEvents(turns: seq<Turn>): seq<Event> {
    if turns == [] then [] else AllEvents(turns[..|turns| - 1]) + EventsOf(turns[|turns| - 1])
  }

  /** The timeouts given to the system's wait, turn by turn. */
  function Waits(turns: seq<Turn>): (waits: seq<int>)
    ensures |waits| == |turns|
  {
    if turns == [] then []
    else
      var n := |turns| - 1;
      Waits(turns[..n]) + [Wait(After(AllEvents(turns[..n])), turns[n].before)]
  }

  lemma OneMoreTurn(turns: seq<Turn>, n: nat)
    requires n < |turns|
    ensures AllEvents(turns[..n + 1]) == AllEvents(turns[..n]) + EventsOf(turns[n])
    ensures Waits(turns[..n + 1]) == Waits(turns[..n]) + [Wait(After(AllEvents(turns[..n])), turns[n].before)]
  {
    assert turns[..n + 1][..n] == turns[..n];
  }

  lemma {:induction false} WaitsAt(turns: seq<Turn>, n: nat)
    requires n < |turns|
    ensures Waits(turns)[n] == Wait(After(AllEvents(turns[..n])), turns[n].before)
    decreases |turns|
  {
    if n >= |turns| - 1 {
    } else {
      WaitsAt(turns[..|turns| - 1], n);
      assert turns[..|turns| - 1][..n] == turns[..n];
    }
  }

  /** Every wait ends at the first deadline that is still to come, or before it if that is out of
      range, and is no wait at all while a deadline has passed. */
  lemma EveryWaitIsShort(turns: seq<Turn>, n: nat)
    requires n < |turns|
    ensures var q, now, wait := After(AllEvents(turns[..n])), turns[n].before, Waits(turns)[n];
            && (wait == INFINITY_TIMEOUT <==> q == [])
            && (wait == 0 <==> Overdue(q, now))
            && (forall i :: 0 <= i < |q| ==> now + wait <= q[i].deadline || q[i].deadline <= now)
            && (0 < wait < MAX_INT32 ==> exists i :: 0 <= i < |q| && now + wait == q[i].deadline)
  {
    WaitsAt(turns, n);
    WaitIsShort(After(AllEvents(turns[..n])), turns[n].before);
  }

  /** The ports told over a run, in order. */
  function Posts(run: seq<Event>): seq<Port> {
    if run == [] then [] else Posts(run[..|run| - 1]) + Told(After(run[..|run| - 1]), run[|run| - 1])
  }

  /** One more event in a run. */
  lemma OneMore(run: seq<Event>, e: Event)
    ensures After(run + [e]) == Next(After(run), e)
    ensures Posts(run + [e]) == Posts(run) + Told(After(run), e)
  {
    assert (run + [e])[..|run|] == run;
  }

  lemma QuietWakeUp(run: seq<Event>, now: int)
    requires After(run) == [] || After(run)[Earliest(After(run))].deadline > now
    ensures After(run + [WakeUp(now)]) == After(run) && Posts(run + [WakeUp(now)]) == Posts(run)
  {
    OneMore(run, WakeUp(now));
  }

  lemma TellingWakeUp(run: seq<Event>, now: int)
    requires After(run) != [] && After(run)[Earliest(After(run))].deadline <= now
    ensures After(run + [WakeUp(now)]) == Without(After(run), Earliest(After(run)))
    ensures Posts(run + [WakeUp(now)]) == Posts(run) + [After(run)[Earliest(After(run))].port]
  {
    OneMore(run, WakeUp(now));
  }

  class TimerHandler {
    const queue: TimeoutQueue
    /** The ports told so far. */
    var posted: seq<Port>
    var shutdown: bool
    ghost var run: seq<Event>

    ghost predicate ValidNow()
      reads `posted, `run, queue, queue.nodes
    {
      queue.Valid() && queue.entries == After(run) && posted == Posts(run)
    }

    /** The queue and the posts are what the events so far make of them; kept folded. */
    ghost predicate Valid()
      reads `posted, `run, queue, queue.nodes
    {
      forall level: int {:trigger Look(level)} :: Look(level) && level == TIMER_FOLD ==> ValidNow()
    }

    constructor ()
      ensures Valid() && run == [] && fresh(queue) && queue.nodes == [] && !shutdown
    {
      shutdown := false;
      queue := new TimeoutQueue();
      posted := [];
      run := [];
    }

    lemma PostedSoFar()
      requires Valid()
      ensures posted == Posts(run)
    {
      assert Look(TIMER_FOLD);
    }

    /** How long to wait, before the cap: up to the earliest deadline, if there is one. */
    method GetTimeout(now: int) returns (millis: int)
      requires Valid()
      ensures After(run) == [] ==> millis == INFINITY_TIMEOUT
      ensures After(run) != [] ==>
                var first := After(run)[Earliest(After(run))].deadline;
                millis == if first < now then 0 else first - now
      ensures (if millis > MAX_INT32 then MAX_INT32 else millis) == Wait(After(run), now)
    {
      assert Look(TIMER_FOLD);
      if !queue.HasTimeout() {
        return INFINITY_TIMEOUT;
      }
      millis := queue.CurrentTimeout() - now;
      if millis < 0 {
        millis := 0;
      }
    }

    /** Tells the port with the earliest deadline, which makes the run up to now `later`. */
    method TellCurrent(ghost later: seq<Event>)
      requires queue.Valid() && queue.entries != []
      requires After(later) == Without(queue.entries, Earliest(queue.entries))
      requires Posts(later) == posted + [queue.entries[Earliest(queue.entries)].port]
      modifies `posted, `run, queue, queue.nodes
      ensures Valid() && run == later
      ensures forall i :: 0 <= i < |queue.nodes| ==> queue.nodes[i] in old(queue.nodes) || fresh(queue.nodes[i])
    {
      posted := posted + [queue.CurrentPort()];
      queue.RemoveCurrent();
      run := later;
    }

    method HandleTimeout(now: int)
      requires Valid()
      modifies `posted, `run, queue, queue.nodes
      ensures Valid() && run == old(run) + [WakeUp(now)]
      ensures forall i :: 0 <= i < |queue.nodes| ==> queue.nodes[i] in old(queue.nodes) || fresh(queue.nodes[i])
    {
      assert Look(TIMER_FOLD);
      if queue.HasTimeout() {
        var millis := queue.CurrentTimeout() - now;
        if millis <= 0 {
          TellingWakeUp(run, now);
          TellCurrent(run + [WakeUp(now)]);
          return;
        }
      }
      QuietWakeUp(run, now);
      run := run + [WakeUp(now)];
    }

    /** Sets or cancels a deadline, which makes the run up to now `later`. */
    method TakeUpdate(port: Port, timeout: int, ghost later: seq<Event>)
      requires queue.Valid() && After(later) == Update(queue.entries, port, timeout) && Posts(later) == posted
      modifies `run, queue, queue.nodes
      ensures Valid() && run == later
      ensures forall i :: 0 <= i < |queue.nodes| ==> queue.nodes[i] in old(queue.nodes) || fresh(queue.nodes[i])
    {
      queue.UpdateTimeout(port, timeout);
      run := later;
    }

    method HandleMessage(port: Port, timeout: int)
      requires Valid()
      modifies `posted, `run, queue, queue.nodes
      ensures Valid() && run == old(run) + [Message(port, timeout)]
      ensures forall i :: 0 <= i < |queue.nodes| ==> queue.nodes[i] in old(queue.nodes) || fresh(queue.nodes[i])
    {
      assert Look(TIMER_FOLD);
      OneMore(run, Message(port, timeout));
      assert Posts(run) + [] == Posts(run);
      TakeUpdate(port, timeout, run + [Message(port, timeout)]);
    }

    /** The timer messages of one turn, in order. */
    method HandleMessages(messages: seq<Event>)
      requires Valid() && forall i :: 0 <= i < |messages| ==> messages[i].Message?
      modifies `posted, `run, queue, queue.nodes
      ensures Valid() && run == old(run) + messages
      ensures forall i :: 0 <= i < |queue.nodes| ==> queue.nodes[i] in old(queue.nodes) || fresh(queue.nodes[i])
    {
      var i := 0;
      while i < |messages|
        invariant 0 <= i <= |messages|
        invariant Valid() && run == old(run) + messages[..i]
        invariant forall j :: 0 <= j < |queue.nodes| ==> queue.nodes[j] in old(queue.nodes) || fresh(queue.nodes[j])
      {
        HandleMessage(messages[i].port, messages[i].timeout);
        assert messages[..i + 1] == messages[..i] + [messages[i]];
        i := i + 1;
      }
      assert messages[..i] == messages;
    }

    /** What a wake-up brings: the timeout, then the messages, then perhaps the end. */
    method HandleWoken(turn: Turn)
      requires Valid() && TurnOk(turn) && turn.woken
      modifies this, queue, queue.nodes
      ensures Valid() && run == old(run) + EventsOf(turn)
      ensures shutdown <==> old(shutdown) || turn.shutdown
      ensures forall i :: 0 <= i < |queue.nodes| ==> queue.nodes[i] in old(queue.nodes) || fresh(queue.nodes[i])
    {
      HandleTimeout(turn.now);
      HandleMessages(turn.messages);
      assert (old(run) + [WakeUp(turn.now)]) + turn.messages == old(run) + EventsOf(turn);
      if turn.shutdown {
        shutdown := true;
      }
    }

    /** How long the system is told to wait. */
    method GetMillis(now: int) returns (millis: int)
      requires Valid()
      ensures millis == Wait(After(run), now)
    {
      millis := GetTimeout(now);
      if millis > MAX_INT32 {
        millis := MAX_INT32;
      }
    }

    /** One turn of the loop; `millis` is what the system is told to wait. */
    method HandleTurn(turn: Turn) returns (millis: int)
      requires Valid() && TurnOk(turn)
      modifies this, queue, queue.nodes
      ensures millis == Wait(After(old(run)), turn.before)
      ensures Valid() && run == old(run) + EventsOf(turn)
      ensures shutdown <==> old(shutdown) || Stops(turn)
      ensures forall i :: 0 <= i < |queue.nodes| ==> queue.nodes[i] in old(queue.nodes) || fresh(queue.nodes[i])
    {
      millis := GetMillis(turn.before);
      if turn.woken {
        HandleWoken(turn);
      } else {
        assert run == run + EventsOf(turn);
      }
    }

    /** The loop has taken `n` turns; kept folded. */
    ghost predicate Taken(turns: seq<Turn>, n: nat, waits: seq<int>)
      requires n <= |turns|
      reads `run
    {
      forall level: int {:trigger Look(level)} :: Look(level) && level == POLL_FOLD ==>
        run == AllEvents(turns[..n]) && waits == Waits(turns[..n])
    }

    method TakeTurn(turns: seq<Turn>, n: nat, waits: seq<int>) returns (more: seq<int>)
      requires n < |turns| && TurnOk(turns[n]) && Valid() && Taken(turns, n, waits) && !shutdown
      modifies this, queue, queue.nodes
      ensures Valid() && Taken(turns, n + 1, more) && (shutdown <==> Stops(turns[n]))
      ensures forall i :: 0 <= i < |queue.nodes| ==> queue.nodes[i] in old(queue.nodes) || fresh(queue.nodes[i])
    {
      assert Look(POLL_FOLD);
      var millis := HandleTurn(turns[n]);
      more := waits + [millis];
      OneMoreTurn(turns, n);
    }

    /** The loop: the first `n` turns, up to the one in which it is shut down. */
    method Poll(turns: seq<Turn>) returns (waits: seq<int>, n: nat)
      requires Valid() && run == [] && !shutdown && forall i :: 0 <= i < |turns| ==> TurnOk(turns[i])
      modifies this, queue, queue.nodes
      ensures n <= |turns| && forall i :: 0 <= i < n - 1 ==> !Stops(turns[i])
      ensures (shutdown <==> n > 0 && Stops(turns[n - 1])) && (n < |turns| ==> shutdown)
      ensures Valid() && run == AllEvents(turns[..n]) && posted == Posts(AllEvents(turns[..n]))
      ensures waits == Waits(turns[..n])
    {
      waits, n := [], 0;
      while n < |turns| && !shutdown
        invariant 0 <= n <= |turns| && Valid() && Taken(turns, n, waits)
        invariant shutdown <==> n > 0 && Stops(turns[n - 1])
        invariant forall i :: 0 <= i < n - 1 ==> !Stops(turns[i])
        invariant forall j :: 0 <= j < |queue.nodes| ==> queue.nodes[j] in old(queue.nodes) || fresh(queue.nodes[j])
      {
        waits := TakeTurn(turns, n, waits);
        n := n + 1;
      }
      assert Look(POLL_FOLD);
      PostedSoFar();
    }
  }
}
