/**
 Tokens over whole runs of the event handler: what every port has been told and has not
 returned yet, against the tokens its descriptor has left.  Clients that return only what
 they were told never break the bounds that the handler asserts.
 */
module EpollTokens {
  import opened Ports
  import opened EpollSpec
  import opened EpollFacts

  /** The posts that a port has not returned a token for, by record and port. */
  type Owed = map<(RecordId, Port), int>

  function Owes(owed: Owed, r: RecordId, p: Port): int {
    if (r, p) in owed then owed[(r, p)] else 0
  }

  function Put(owed: Owed, r: RecordId, p: Port, n: int): Owed {
    owed[(r, p) := n]
  }

  /** Each port of the set has been told once more. */
  function Charge(owed: Owed, r: RecordId, ports: set<Port>): Owed {
    owed + map p | p in ports :: (r, p) := Owes(owed, r, p) + 1
  }

  /** The books after the posts of an event. */
  function AfterEvent(h: Handler, owed: Owed, e: Event): Owed {
    var posts := EventPosts(h, e);
    if posts == [] || !e.Ready? then owed else Charge(owed, e.record, Receivers(posts[0]))
  }

  /** The books after a command: tokens come back, or the port gives up the descriptor. */
  function AfterMessage(h: Handler, owed: Owed, m: Message): Owed {
    match m
    case ForSocket(fd, listening, port, command) =>
      var r := GetDescriptorInfo(h, fd, listening).sockets[fd];
      (match command
       case ReturnTokenCommand(count) => Put(owed, r, port, Owes(owed, r, port) - count)
       case Close(_) => Put(owed, r, port, 0)
       case _ => owed)
    case _ => owed
  }

  // ----- the books balance -----

  ghost predicate DescriptorBalanced(d: Descriptor, owed: Owed, r: RecordId) {
    match d
    case Single(port, tokens, _) =>
      && tokens + Owes(owed, r, port) == SINGLE_TOKEN_COUNT
      && (forall p :: p != port ==> Owes(owed, r, p) == 0)
      && (port == 0 ==> Owes(owed, r, port) == 0)
    case Multiple(listeners) =>
      && (forall p :: p in listeners.ports ==> listeners.ports[p].tokens + Owes(owed, r, p) == TOKEN_COUNT)
      && (forall p :: p !in listeners.ports ==> Owes(owed, r, p) == 0)
  }

  ghost predicate Balanced(h: Handler, owed: Owed) {
    var balanced :=
      && (forall r {:trigger h.records[r]} :: r in h.records ==> DescriptorBalanced(h.records[r].descriptor, owed, r))
      && (forall r, p :: r >= h.nextRecord ==> Owes(owed, r, p) == 0);
    balanced
  }

  /** A change to one record and to what is owed on it. */
  lemma BalancedElsewhere(h: Handler, g: Handler, owed: Owed, after: Owed, r: RecordId)
    requires Balanced(h, owed) && r in h.records && r < h.nextRecord && OthersKept(h, g, r)
    requires forall q, p :: q != r ==> Owes(after, q, p) == Owes(owed, q, p)
    requires DescriptorBalanced(g.records[r].descriptor, after, r)
    ensures Balanced(g, after)
  {
    forall q | q in g.records ensures DescriptorBalanced(g.records[q].descriptor, after, q) {
      if q != r {
        assert DescriptorBalanced(h.records[q].descriptor, owed, q);
      }
    }
  }

  // ----- events -----

  lemma ChargeOwes(owed: Owed, r: RecordId, ports: set<Port>)
    ensures forall q, p :: Owes(Charge(owed, r, ports), q, p) ==
                           Owes(owed, q, p) + if q == r && p in ports then 1 else 0
  {
  }

  lemma NotifyBalances(d: Descriptor, owed: Owed, r: RecordId)
    requires DescriptorOk(d) && Mask(d) != NOTHING && DescriptorBalanced(d, owed, r)
    ensures DescriptorBalanced(Notify(d).1, Charge(owed, r, {Notify(d).0}), r)
  {
    ChargeOwes(owed, r, {Notify(d).0});
    if d.Multiple? {
      NextNotifyOk(d.listeners, false);
      var p := d.listeners.ring[0];
      assert p in d.listeners.ring;
    }
  }

  lemma BroadcastBalances(d: Descriptor, owed: Owed, r: RecordId)
    requires DescriptorOk(d) && Mask(d) != NOTHING && DescriptorBalanced(d, owed, r)
    ensures DescriptorBalanced(Broadcast(d), Charge(owed, r, PortsOf(d)), r)
  {
    ChargeOwes(owed, r, PortsOf(d));
  }

  /** One record's descriptor has changed, and with it what is owed on that record alone. */
  ghost predicate OneCharged(h: Handler, g: Handler, r: RecordId, d: Descriptor, ports: set<Port>, owed: Owed, after: Owed) {
    && r in h.records && r < h.nextRecord && OthersKept(h, g, r)
    && g.records[r].descriptor == d && after == Charge(owed, r, ports)
  }

  lemma ErrorCharges(h: Handler, owed: Owed, e: Event)
    requires HandlerOk(h) && EventOk(h, e) && Telling(e) && e.error
    ensures e.record in h.records
    ensures var d := h.records[e.record].descriptor;
            && OneCharged(h, HandleEvent(h, e), e.record, Broadcast(d), PortsOf(d), owed, AfterEvent(h, owed, e))
            && DescriptorOk(d) && Mask(d) != NOTHING
  {
    assert RegisteredOk(h, e.record);
    ErrorKeepsOkIff(h, e);
    assert EventPosts(h, e) == [ToldAll(PortsOf(h.records[e.record].descriptor))];
  }

  lemma OrdinaryCharges(h: Handler, owed: Owed, e: Event)
    requires HandlerOk(h) && EventOk(h, e) && Telling(e) && !e.error
    ensures e.record in h.records
    ensures var d := h.records[e.record].descriptor;
            && OneCharged(h, HandleEvent(h, e), e.record, Notify(d).1, {Notify(d).0}, owed, AfterEvent(h, owed, e))
            && DescriptorOk(d) && Mask(d) != NOTHING
  {
    var r := e.record;
    assert RegisteredOk(h, r);
    OrdinaryKeepsOk(h, e);
    ChangeOk(h, r, Notify(h.records[r].descriptor).1);
  }

  lemma ChargedBalances(
    h: Handler, g: Handler, r: RecordId, d: Descriptor, ports: set<Port>, owed: Owed, after: Owed)
    requires Balanced(h, owed) && OneCharged(h, g, r, d, ports, owed, after) && DescriptorBalanced(d, after, r)
    ensures Balanced(g, after)
  {
    ChargeOwes(owed, r, ports);
    BalancedElsewhere(h, g, owed, after, r);
  }

  /** An event costs each port it is told to one token. */
  lemma EventBalances(h: Handler, owed: Owed, e: Event)
    requires HandlerOk(h) && EventOk(h, e) && Balanced(h, owed)
    ensures Balanced(HandleEvent(h, e), AfterEvent(h, owed, e))
  {
    if Telling(e) {
      var r, g, after := e.record, HandleEvent(h, e), AfterEvent(h, owed, e);
      var d := h.records[r].descriptor;
      if e.error {
        ErrorCharges(h, owed, e);
        BroadcastBalances(d, owed, r);
        ChargedBalances(h, g, r, Broadcast(d), PortsOf(d), owed, after);
      } else {
        OrdinaryCharges(h, owed, e);
        NotifyBalances(d, owed, r);
        ChargedBalances(h, g, r, Notify(d).1, {Notify(d).0}, owed, after);
      }
    }
  }

  /** A client returns only tokens for posts it was told about. */
  ghost predicate Faithful(h: Handler, owed: Owed, m: Message) {
    m.ForSocket? ==>
      var g := GetDescriptorInfo(h, m.fd, m.listening);
      var r := g.sockets[m.fd];
      && r in g.records && CommandAllowed(g.records[r].descriptor, m.port, m.command)
      && (m.command.ReturnTokenCommand? ==> m.command.count <= Owes(owed, r, m.port))
  }

  lemma NewRecordBalances(h: Handler, owed: Owed, fd: Fd, listening: bool)
    requires HandlerOk(h) && Balanced(h, owed)
    ensures Balanced(GetDescriptorInfo(h, fd, listening), owed)
  {
    var g := GetDescriptorInfo(h, fd, listening);
    forall r | r in g.records ensures DescriptorBalanced(g.records[r].descriptor, owed, r) {
      if r in h.records {
        assert DescriptorBalanced(h.records[r].descriptor, owed, r);
      } else {
        assert r == h.nextRecord;
      }
    }
  }

  /** Faithful clients never break the bound on tokens. */
  lemma FaithfulIsOk(h: Handler, owed: Owed, m: Message)
    requires HandlerOk(h) && Balanced(h, owed) && Faithful(h, owed, m)
    ensures MessageOk(h, m)
  {
    if m.ForSocket? {
      NewRecordBalances(h, owed, m.fd, m.listening);
      var g := GetDescriptorInfo(h, m.fd, m.listening);
      assert DescriptorBalanced(g.records[g.sockets[m.fd]].descriptor, owed, g.sockets[m.fd]);
    }
  }

  lemma PutOwes(owed: Owed, r: RecordId, port: Port, n: int)
    ensures forall q, p :: Owes(Put(owed, r, port, n), q, p) == if q == r && p == port then n else Owes(owed, q, p)
  {
    forall q, p
      ensures Owes(Put(owed, r, port, n), q, p) == if q == r && p == port then n else Owes(owed, q, p)
    {
      assert (q, p) == (r, port) <==> q == r && p == port;
    }
  }

  /** What a command does to one descriptor keeps its books in order. */
  lemma CommandBalances(d: Descriptor, owed: Owed, r: RecordId, port: Port, command: Command)
    requires DescriptorOk(d) && DescriptorBalanced(d, owed, r) && CommandAllowed(d, port, command)
    ensures command.ReturnTokenCommand? ==>
              DescriptorBalanced(WithTokens(d, port, command.count), Put(owed, r, port, Owes(owed, r, port) - command.count), r)
    ensures command.SetEventMask? ==> DescriptorBalanced(WithMask(d, port, command.mask), owed, r)
    ensures command.Close? && d.Multiple? ==> DescriptorBalanced(WithoutPort(d, port), Put(owed, r, port, 0), r)
  {
    if command.ReturnTokenCommand? {
      PutOwes(owed, r, port, Owes(owed, r, port) - command.count);
    } else if command.Close? {
      PutOwes(owed, r, port, 0);
    }
  }

  /** Making the record first changes nothing. */
  lemma FoundFirst(h: Handler, owed: Owed, m: Message)
    requires m.ForSocket?
    ensures var g := GetDescriptorInfo(h, m.fd, m.listening);
            && HandleMessage(g, m) == HandleMessage(h, m)
            && AfterMessage(g, owed, m) == AfterMessage(h, owed, m)
            && (MessageOk(g, m) <==> MessageOk(h, m))
  {
    var g := GetDescriptorInfo(h, m.fd, m.listening);
    assert GetDescriptorInfo(g, m.fd, m.listening) == g;
  }

  /** Every command of a faithful client keeps the books in order. */
  lemma MessageBalances(h: Handler, owed: Owed, m: Message)
    requires HandlerOk(h) && Balanced(h, owed) && Faithful(h, owed, m)
    ensures Balanced(HandleMessage(h, m), AfterMessage(h, owed, m))
  {
    if m.ForSocket? {
      NewRecordBalances(h, owed, m.fd, m.listening);
      GetDescriptorInfoOk(h, m.fd, m.listening);
      FaithfulIsOk(h, owed, m);
      FoundFirst(h, owed, m);
      SocketMessageBalances(GetDescriptorInfo(h, m.fd, m.listening), owed, AfterMessage(h, owed, m), m);
    }
  }

  /** A changed descriptor that balances keeps the whole in balance. */
  lemma ChangeBalances(g: Handler, owed: Owed, after: Owed, r: RecordId, d: Descriptor)
    requires HandlerOk(g) && Balanced(g, owed) && r in g.records
    requires DescriptorOk(d) && d.Single? == g.records[r].descriptor.Single? && DescriptorBalanced(d, after, r)
    requires forall q, p :: q != r ==> Owes(after, q, p) == Owes(owed, q, p)
    ensures Balanced(Change(g, r, d), after)
  {
    ChangeOk(g, r, d);
    BalancedElsewhere(g, Change(g, r, d), owed, after, r);
  }

  lemma SocketMessageBalances(g: Handler, owed: Owed, after: Owed, m: Message)
    requires HandlerOk(g) && Balanced(g, owed) && m.ForSocket? && m.fd in g.sockets
    requires MessageOk(g, m) && after == AfterMessage(g, owed, m)
    ensures Balanced(HandleMessage(g, m), after)
  {
    var r := g.sockets[m.fd];
    var d := g.records[r].descriptor;
    assert DescriptorBalanced(d, owed, r);
    CommandBalances(d, owed, r, m.port, m.command);
    CommandKeepsDescriptorOk(d, m.port, m.command);
    match m.command
    case ReturnTokenCommand(count) =>
      PutOwes(owed, r, m.port, Owes(owed, r, m.port) - count);
      ChangeBalances(g, owed, after, r, WithTokens(d, m.port, count));
    case SetEventMask(mask) =>
      ChangeBalances(g, owed, after, r, WithMask(d, m.port, mask));
    case Close(closeSafe) =>
      ChangeOk(g, r, WithoutPort(d, m.port));
      CloseBalances(g, owed, after, r, m.port, closeSafe);
    case _ =>
  }

  lemma CloseBalances(g: Handler, owed: Owed, after: Owed, r: RecordId, port: Port, closeSafe: bool)
    requires HandlerOk(g) && Balanced(g, owed) && r in g.records && r < g.nextRecord
    requires after == Put(owed, r, port, 0)
    requires OthersKept(g, Change(g, r, WithoutPort(g.records[r].descriptor, port)), r)
    requires Change(g, r, WithoutPort(g.records[r].descriptor, port)).records[r].descriptor ==
             WithoutPort(g.records[r].descriptor, port)
    requires g.records[r].descriptor.Multiple? ==> DescriptorBalanced(WithoutPort(g.records[r].descriptor, port), after, r)
    ensures var d := g.records[r].descriptor;
            var closed := Change(g, r, WithoutPort(d, port));
            Balanced(if d.Single? || closeSafe then Delete(closed, r) else closed, after)
  {
    var d := g.records[r].descriptor;
    var closed := Change(g, r, WithoutPort(d, port));
    PutOwes(owed, r, port, 0);
    if d.Single? || closeSafe {
      forall q | q in Delete(closed, r).records ensures DescriptorBalanced(closed.records[q].descriptor, after, q) {
        assert DescriptorBalanced(g.records[q].descriptor, owed, q);
      }
    } else {
      BalancedElsewhere(g, closed, owed, after, r);
    }
  }

  // ----- whole runs -----

  function AfterBatch(h: Handler, owed: Owed, batch: seq<Event>): Owed
    decreases |batch|
  {
    if batch == [] then owed else AfterBatch(HandleEvent(h, batch[0]), AfterEvent(h, owed, batch[0]), batch[1..])
  }

  function AfterMessages(h: Handler, owed: Owed, messages: seq<Message>): Owed
    decreases |messages|
  {
    if messages == [] then owed
    else AfterMessages(HandleMessage(h, messages[0]), AfterMessage(h, owed, messages[0]), messages[1..])
  }

  function AfterTurn(h: Handler, owed: Owed, turn: Turn): Owed {
    var after := AfterBatch(h, owed, turn.batch);
    if Interrupt in turn.batch then AfterMessages(HandleBatch(h, turn.batch), after, turn.messages) else after
  }

  ghost predicate AllFaithful(h: Handler, owed: Owed, messages: seq<Message>)
    decreases |messages|
  {
    messages != [] ==>
      && Faithful(h, owed, messages[0])
      && AllFaithful(HandleMessage(h, messages[0]), AfterMessage(h, owed, messages[0]), messages[1..])
  }

  lemma {:induction false} BatchBalances(h: Handler, owed: Owed, batch: seq<Event>)
    requires HandlerOk(h) && BatchOk(h, batch) && Balanced(h, owed)
    ensures Balanced(HandleBatch(h, batch), AfterBatch(h, owed, batch))
    decreases |batch|
  {
    if batch == [] {
    } else {
      assert EventOk(h, batch[0]);
      EventBalances(h, owed, batch[0]);
      BatchStep(h, batch);
      BatchBalances(HandleEvent(h, batch[0]), AfterEvent(h, owed, batch[0]), batch[1..]);
    }
  }

  lemma {:induction false} MessagesBalance(h: Handler, owed: Owed, messages: seq<Message>)
    requires HandlerOk(h) && Balanced(h, owed) && AllFaithful(h, owed, messages)
    ensures MessagesOk(h, messages)
    ensures Balanced(HandleMessages(h, messages), AfterMessages(h, owed, messages))
    decreases |messages|
  {
    if messages == [] {
    } else {
      FaithfulIsOk(h, owed, messages[0]);
      MessageBalances(h, owed, messages[0]);
      MessageKeepsOk(h, messages[0]);
      MessagesBalance(HandleMessage(h, messages[0]), AfterMessage(h, owed, messages[0]), messages[1..]);
    }
  }

  /** A run of the poll loop whose clients return only tokens for what they were told. */
  ghost predicate FaithfulRun(states: seq<Handler>, books: seq<Owed>, turns: seq<Turn>) {
    && |states| == |books| == |turns| + 1
    && states[0] == EMPTY_HANDLER && books[0] == map[]
    && forall i :: 0 <= i < |turns| ==>
         && BatchOk(states[i], turns[i].batch)
         && AllFaithful(HandleBatch(states[i], turns[i].batch), AfterBatch(states[i], books[i], turns[i].batch),
                        turns[i].messages)
         && states[i + 1] == HandleTurn(states[i], turns[i])
         && books[i + 1] == AfterTurn(states[i], books[i], turns[i])
  }

  lemma TurnBalances(h: Handler, owed: Owed, turn: Turn)
    requires HandlerOk(h) && Balanced(h, owed) && BatchOk(h, turn.batch)
    requires AllFaithful(HandleBatch(h, turn.batch), AfterBatch(h, owed, turn.batch), turn.messages)
    ensures HandlerOk(HandleTurn(h, turn)) && Balanced(HandleTurn(h, turn), AfterTurn(h, owed, turn))
    ensures MessagesOk(HandleBatch(h, turn.batch), turn.messages)
  {
    BatchBalances(h, owed, turn.batch);
    BatchKeepsOk(h, turn.batch, |turn.batch|);
    assert turn.batch[..|turn.batch|] == turn.batch;
    MessagesBalance(HandleBatch(h, turn.batch), AfterBatch(h, owed, turn.batch), turn.messages);
    MessagesKeepOk(HandleBatch(h, turn.batch), turn.messages);
  }

  /** In every state of such a run the books balance. */
  lemma {:induction false} FaithfulRunBalances(states: seq<Handler>, books: seq<Owed>, turns: seq<Turn>, i: nat)
    requires FaithfulRun(states, books, turns) && i <= |turns|
    ensures HandlerOk(states[i]) && Balanced(states[i], books[i])
    ensures i < |turns| ==> MessagesOk(HandleBatch(states[i], turns[i].batch), turns[i].messages)
  {
    if i == 0 {
    } else {
      FaithfulRunBalances(states, books, turns, i - 1);
      assert states[i - 1 + 1] == HandleTurn(states[i - 1], turns[i - 1]);
      TurnBalances(states[i - 1], books[i - 1], turns[i - 1]);
    }
    if i < |turns| {
      TurnBalances(states[i], books[i], turns[i]);
    }
  }

  /** Faithful clients meet every demand that the handler asserts, so such a run is one of those
      in which the kernel's interest list always agrees with the masks. */
  lemma FaithfulRunIsPollRun(states: seq<Handler>, books: seq<Owed>, turns: seq<Turn>)
    requires FaithfulRun(states, books, turns)
    ensures PollRun(states, turns)
  {
    forall i | 0 <= i < |turns| ensures MessagesOk(HandleBatch(states[i], turns[i].batch), turns[i].messages) {
      FaithfulRunBalances(states, books, turns, i);
    }
  }
}
