/**
 The kernel's interest list follows the descriptors: every command and every event
 keeps each live descriptor registered with its current mask exactly when that mask
 is not empty, so a registration never collides with an existing one, and no event
 reaches a record that has been deleted.
 */
module EpollFacts {
  import opened Folding
  import opened Ports
  import opened EpollSpec

  // ----- one descriptor changes -----

  /** Everything but record `r` and its registration is as before. */
  ghost predicate OthersKept(h: Handler, g: Handler, r: RecordId)
    requires r in h.records
  {
    && g.sockets == h.sockets && g.nextRecord == h.nextRecord
    && g.records.Keys == h.records.Keys
    && g.records[r].fd == h.records[r].fd
    && (forall q :: q in h.records && q != r ==> g.records[q] == h.records[q])
    && (forall fd :: fd != h.records[r].fd ==> (fd in g.epoll <==> fd in h.epoll))
    && (forall fd :: fd in h.epoll && fd != h.records[r].fd ==> g.epoll[fd] == h.epoll[fd])
  }

  /** A change to one record that registers it correctly keeps the whole handler in order. */
  lemma OthersKeptOk(h: Handler, g: Handler, r: RecordId)
    requires HandlerOk(h) && r in h.records && OthersKept(h, g, r)
    requires DescriptorOk(g.records[r].descriptor) && RegisteredOk(g, r) && g.failedAdds == 0
    ensures HandlerOk(g)
  {
    forall q | q in g.records ensures RegisteredOk(g, q) {
      if q != r {
        assert RegisteredOk(h, q);
        assert h.records[q].fd != h.records[r].fd;
      }
    }
    assert RecordsOk(g);
  }

  /** The registration follows the new mask, whatever it was before. */
  lemma ChangeOk(h: Handler, r: RecordId, d: Descriptor)
    requires HandlerOk(h) && r in h.records
    requires DescriptorOk(d) && d.Single? == h.records[r].descriptor.Single?
    ensures HandlerOk(Change(h, r, d)) && OthersKept(h, Change(h, r, d), r)
    ensures Change(h, r, d).records[r].descriptor == d
  {
    var g := Change(h, r, d);
    assert RegisteredOk(h, r);
    assert h.records[r].fd in h.sockets;
    assert g.failedAdds == 0 && g.records[r].descriptor == d;
    assert RegisteredOk(g, r);
    OthersKeptOk(h, g, r);
  }

  // ----- commands -----

  lemma GetDescriptorInfoOk(h: Handler, fd: Fd, listening: bool)
    requires HandlerOk(h)
    ensures var g := GetDescriptorInfo(h, fd, listening);
            HandlerOk(g) && fd in g.sockets && g.sockets[fd] in g.records && g.records[g.sockets[fd]].fd == fd
  {
    var g := GetDescriptorInfo(h, fd, listening);
    if fd !in h.sockets {
      assert h.nextRecord !in h.records;
      forall q | q in g.records ensures RegisteredOk(g, q) {
        if q in h.records {
          assert RegisteredOk(h, q);
        }
      }
      assert RecordsOk(g);
    }
  }

  lemma DeleteOk(h: Handler, r: RecordId)
    requires HandlerOk(h) && r in h.records && Mask(h.records[r].descriptor) == NOTHING
    ensures HandlerOk(Delete(h, r))
  {
    var g := Delete(h, r);
    assert RegisteredOk(h, r);
    forall q | q in g.records ensures RegisteredOk(g, q) {
      assert RegisteredOk(h, q);
    }
    assert RecordsOk(g);
  }

  lemma CommandKeepsDescriptorOk(d: Descriptor, port: Port, command: Command)
    requires DescriptorOk(d) && CommandOk(d, port, command)
    ensures command.ReturnTokenCommand? ==> DescriptorOk(WithTokens(d, port, command.count))
    ensures command.SetEventMask? ==> DescriptorOk(WithMask(d, port, command.mask))
    ensures command.Close? ==> DescriptorOk(WithoutPort(d, port))
    ensures command.Close? && (d.Single? || command.closeSafe) ==> Mask(WithoutPort(d, port)) == NOTHING
  {
    match d
    case Single(_, _, _) =>
    case Multiple(listeners) =>
      match command
      case ReturnTokenCommand(count) => ReturnTokensOk(listeners, port, count, false);
      case SetEventMask(mask) => SetPortOk(listeners, port, mask == READING);
      case Close(closeSafe) =>
        RemovePortOk(listeners, port);
        var after := RemovePort(listeners, port);
        EmptyOrHasMember(after.ring);
        if closeSafe {
          assert after.ports.Keys == {};
          assert forall p :: p !in after.ring;
        }
      case _ =>
  }

  /** Every command keeps the registration invariant; no EPOLL_CTL_ADD fails. */
  lemma MessageKeepsOk(h: Handler, m: Message)
    requires HandlerOk(h) && MessageOk(h, m)
    ensures HandlerOk(HandleMessage(h, m))
  {
    if m.ForSocket? {
      GetDescriptorInfoOk(h, m.fd, m.listening);
      var g := GetDescriptorInfo(h, m.fd, m.listening);
      var r := g.sockets[m.fd];
      var d := g.records[r].descriptor;
      CommandKeepsDescriptorOk(d, m.port, m.command);
      match m.command
      case ReturnTokenCommand(count) => ChangeOk(g, r, WithTokens(d, m.port, count));
      case SetEventMask(mask) => ChangeOk(g, r, WithMask(d, m.port, mask));
      case Close(closeSafe) =>
        ChangeOk(g, r, WithoutPort(d, m.port));
        if d.Single? || closeSafe {
          DeleteOk(Change(g, r, WithoutPort(d, m.port)), r);
        }
      case _ =>
    }
  }

  // ----- events -----

  /** Some listener has a token to spare, so a broadcast leaves the mask as it is. */
  ghost predicate SurvivesBroadcast(d: Descriptor) {
    match d
    case Single(_, tokens, _) => tokens != 1
    case Multiple(listeners) => exists p :: p in listeners.ports && listeners.ports[p].reading && listeners.ports[p].tokens > 1
  }

  lemma BroadcastMask(d: Descriptor)
    requires DescriptorOk(d) && Mask(d) != NOTHING
    ensures DescriptorOk(Broadcast(d))
    ensures Mask(Broadcast(d)) == (if SurvivesBroadcast(d) then Mask(d) else NOTHING)
  {
    match d
    case Single(_, _, _) =>
    case Multiple(listeners) =>
      NotifyAllOk(listeners, false);
      var after := NotifyAll(listeners, false);
      WantsInIffSomeReady(after);
      if p :| p in listeners.ports && listeners.ports[p].reading && listeners.ports[p].tokens > 1 {
        assert p in after.ports && after.ports[p].IsReady();
      }
      if p :| p in after.ports && after.ports[p].IsReady() {
        assert listeners.ports[p].reading && listeners.ports[p].tokens > 1;
      }
  }

  /** What the kernel reports: a registered pointer, and only conditions that were asked for;
      errors and hang-ups are reported unasked. */
  ghost predicate Reported(h: Handler, e: Event) {
    e.Ready? ==>
      && e.record in h.records
      && var fd := h.records[e.record].fd;
         && fd in h.epoll && h.epoll[fd].record == e.record
         && (e.inReady ==> h.epoll[fd].interest.inEvent) && (e.outReady ==> h.epoll[fd].interest.outEvent)
  }

  /** An error that is broadcast leaves a token to go on with. */
  ghost predicate Harmless(h: Handler, e: Event)
    requires e.Ready? ==> e.record in h.records
  {
    e.Ready? && e.error && e.inReady ==> SurvivesBroadcast(h.records[e.record].descriptor)
  }

  ghost predicate EventOk(h: Handler, e: Event) {
    Reported(h, e) && Harmless(h, e)
  }

  /** An error event changes tokens without looking at the registration, of whatever shape it is:
      the registration stays right if and only if a token is left. */
  lemma ErrorKeepsOkIff(h: Handler, e: Event)
    requires HandlerOk(h) && Reported(h, e) && e.Ready? && e.error
    ensures OthersKept(h, HandleEvent(h, e), e.record)
    ensures HandlerOk(HandleEvent(h, e)) <==> Harmless(h, e)
  {
    var g, d := HandleEvent(h, e), h.records[e.record].descriptor;
    assert RegisteredOk(h, e.record);
    BroadcastMask(d);
    if Harmless(h, e) {
      OthersKeptOk(h, g, e.record);
    } else {
      assert !RegisteredOk(g, e.record);
    }
  }

  /** No registration fails on the way. */
  lemma OrdinaryAddsNothingTwice(h: Handler, e: Event)
    requires HandlerOk(h) && Reported(h, e) && e.Ready?
    ensures Change(h, e.record, Notify(h.records[e.record].descriptor).1).failedAdds == h.failedAdds
  {
    OrdinaryKeepsOk(h, Ready(e.record, e.inReady, e.outReady, true, false));
  }

  /** Any other event finds a port to notify. */
  lemma OrdinaryKeepsOk(h: Handler, e: Event)
    requires HandlerOk(h) && Reported(h, e) && e.Ready? && !e.error
    ensures Notify(h.records[e.record].descriptor).0 != 0
    ensures HandlerOk(HandleEvent(h, e)) && OthersKept(h, HandleEvent(h, e), e.record)
  {
    var d := h.records[e.record].descriptor;
    assert RegisteredOk(h, e.record);
    if d.Multiple? {
      NextNotifyOk(d.listeners, false);
      var p := d.listeners.ring[0];
      assert p in d.listeners.ring;
    }
    ChangeOk(h, e.record, Notify(d).1);
  }

  /** Every event leaves all other records and registrations alone and keeps the invariant; what it
      posts goes to real ports. */
  lemma EventKeepsOk(h: Handler, e: Event)
    requires HandlerOk(h) && EventOk(h, e) && e.Ready?
    ensures HandlerOk(HandleEvent(h, e)) && OthersKept(h, HandleEvent(h, e), e.record)
    ensures |EventPosts(h, e)| == (if Telling(e) then 1 else 0)
    ensures Telling(e) ==> Real(EventPosts(h, e)[0])
  {
    if e.error {
      ErrorKeepsOkIff(h, e);
      assert RegisteredOk(h, e.record);
      BroadcastReachesSomebody(h.records[e.record].descriptor);
    } else {
      OrdinaryKeepsOk(h, e);
    }
  }

  /** A post about an event goes to at least one port, and never to port 0. */
  ghost predicate Real(post: Post) {
    match post
    case Told(port, _, _, _) => port != 0
    case ToldAll(ports) => ports != {} && 0 !in ports
    case Destroyed(port) => port != 0
  }

  lemma BroadcastReachesSomebody(d: Descriptor)
    requires DescriptorOk(d) && Mask(d) != NOTHING
    ensures PortsOf(d) != {} && 0 !in PortsOf(d)
  {
    match d
    case Single(port, _, _) => assert port in PortsOf(d);
    case Multiple(listeners) =>
      var p := listeners.ring[0];
      assert p in listeners.ring && p in listeners.ports.Keys;
  }

  function HandleBatch(h: Handler, batch: seq<Event>): Handler
    decreases |batch|
  {
    if batch == [] then h else HandleBatch(HandleEvent(h, batch[0]), batch[1..])
  }

  /** A batch names each registered descriptor at most once. */
  ghost predicate BatchOk(h: Handler, batch: seq<Event>) {
    && (forall i :: 0 <= i < |batch| ==> EventOk(h, batch[i]))
    && (forall i, j :: 0 <= i < j < |batch| && batch[i].Ready? && batch[j].Ready? ==>
          batch[i].record != batch[j].record)
  }

  lemma BatchStep(h: Handler, batch: seq<Event>)
    requires HandlerOk(h) && BatchOk(h, batch) && batch != []
    ensures HandlerOk(HandleEvent(h, batch[0])) && BatchOk(HandleEvent(h, batch[0]), batch[1..])
  {
    var e, g := batch[0], HandleEvent(h, batch[0]);
    assert EventOk(h, e);
    if e.Ready? {
      EventKeepsOk(h, e);
      forall i | 0 <= i < |batch[1..]| ensures EventOk(g, batch[1..][i]) {
        var f := batch[i + 1];
        assert EventOk(h, f) && batch[1..][i] == f;
        if f.Ready? {
          assert f.record != e.record && h.records[f.record].fd != h.records[e.record].fd;
        }
      }
    } else {
      forall i | 0 <= i < |batch[1..]| ensures EventOk(g, batch[1..][i]) {
        assert EventOk(h, batch[i + 1]);
      }
    }
  }

  /**
   When the k-th event of a batch is handled, its record is still alive and is still registered
   as it was reported; after the batch the registration invariant holds.
   */
  lemma {:induction false} BatchKeepsOk(h: Handler, batch: seq<Event>, k: nat)
    requires HandlerOk(h) && BatchOk(h, batch) && k <= |batch|
    ensures HandlerOk(HandleBatch(h, batch[..k]))
    ensures k < |batch| ==> EventOk(HandleBatch(h, batch[..k]), batch[k])
    decreases k
  {
    if k == 0 {
      assert batch[..0] == [];
      assert batch != [] ==> EventOk(h, batch[0]);
    } else {
      BatchStep(h, batch);
      BatchKeepsOk(HandleEvent(h, batch[0]), batch[1..], k - 1);
      assert batch[..k][1..] == batch[1..][..k - 1];
    }
  }

  /** What a batch posts, event by event. */
  function BatchPosts(h: Handler, batch: seq<Event>): seq<Post>
    decreases |batch|
  {
    if batch == [] then [] else EventPosts(h, batch[0]) + BatchPosts(HandleEvent(h, batch[0]), batch[1..])
  }

  lemma Associate<T>(a: seq<T>, b: seq<T>, c: seq<T>)
    ensures (a + b) + c == a + (b + c)
  {
  }

  /** Handling the batch from its i-th event on leads to `end` and to `total` posts; kept folded. */
  ghost predicate BatchLeft(h: Handler, posted: seq<Post>, batch: seq<Event>, i: nat, end: Handler, total: seq<Post>)
    requires i <= |batch|
  {
    forall level: int {:trigger Look(level)} :: Look(level) && level == BATCH_FOLD ==>
      && HandlerOk(h) && BatchOk(h, batch[i..])
      && HandleBatch(h, batch[i..]) == end
      && posted + BatchPosts(h, batch[i..]) == total
  }

  lemma BatchLeftStep(h: Handler, posted: seq<Post>, batch: seq<Event>, i: nat, end: Handler, total: seq<Post>)
    requires i < |batch| && BatchLeft(h, posted, batch, i, end, total)
    ensures HandlerOk(h) && EventOk(h, batch[i])
    ensures BatchLeft(HandleEvent(h, batch[i]), posted + EventPosts(h, batch[i]), batch, i + 1, end, total)
  {
    assert Look(BATCH_FOLD);
    assert batch[i..][0] == batch[i] && batch[i..][1..] == batch[i + 1..];
    BatchStep(h, batch[i..]);
    Associate(posted, EventPosts(h, batch[i]), BatchPosts(HandleEvent(h, batch[i]), batch[i + 1..]));
  }

  lemma BatchLeftEnds(h: Handler, posted: seq<Post>, batch: seq<Event>, end: Handler, total: seq<Post>)
    ensures HandlerOk(h) && BatchOk(h, batch) ==>
              BatchLeft(h, posted, batch, 0, HandleBatch(h, batch), posted + BatchPosts(h, batch))
    ensures BatchLeft(h, posted, batch, |batch|, end, total) ==> HandlerOk(h) && h == end && posted == total
  {
    assert Look(BATCH_FOLD);
    assert batch[0..] == batch && batch[|batch|..] == [];
  }

  /** How many events of a batch have something to tell: an error only where there is something to read. */
  function TellingCount(batch: seq<Event>): nat {
    if batch == [] then 0
    else
      var tells :=
        match batch[0]
        case Ready(_, inReady, outReady, hangup, error) => inReady || (!error && (outReady || hangup))
        case _ => false;
      (if tells then 1 else 0) + TellingCount(batch[1..])
  }

  /** Every event of a batch that is passed on makes one post, errors to all ports of the descriptor,
      and no post goes to port 0 or to nobody. */
  lemma {:induction false} EveryEventIsTold(h: Handler, batch: seq<Event>)
    requires HandlerOk(h) && BatchOk(h, batch)
    ensures |BatchPosts(h, batch)| == TellingCount(batch)
    ensures forall i :: 0 <= i < |BatchPosts(h, batch)| ==> Real(BatchPosts(h, batch)[i])
    decreases |batch|
  {
    if batch == [] {
    } else {
      assert EventOk(h, batch[0]);
      if batch[0].Ready? {
        EventKeepsOk(h, batch[0]);
      }
      BatchStep(h, batch);
      EveryEventIsTold(HandleEvent(h, batch[0]), batch[1..]);
    }
  }

  // ----- whole runs of the poll loop -----

  /** One turn: a batch of events and, if it held an interrupt, the waiting commands. */
  datatype Turn = Turn(batch: seq<Event>, messages: seq<Message>)

  function HandleMessages(h: Handler, messages: seq<Message>): Handler
    decreases |messages|
  {
    if messages == [] then h else HandleMessages(HandleMessage(h, messages[0]), messages[1..])
  }

  function MessagesPosts(messages: seq<Message>): seq<Post>
    decreases |messages|
  {
    if messages == [] then [] else MessagePosts(messages[0]) + MessagesPosts(messages[1..])
  }

  function HandleTurn(h: Handler, turn: Turn): Handler {
    var after := HandleBatch(h, turn.batch);
    if Interrupt in turn.batch then HandleMessages(after, turn.messages) else after
  }

  function TurnPosts(h: Handler, turn: Turn): seq<Post> {
    BatchPosts(h, turn.batch) + if Interrupt in turn.batch then MessagesPosts(turn.messages) else []
  }

  ghost predicate MessagesOk(h: Handler, messages: seq<Message>)
    decreases |messages|
  {
    messages != [] ==> MessageOk(h, messages[0]) && MessagesOk(HandleMessage(h, messages[0]), messages[1..])
  }

  lemma {:induction false} MessagesKeepOk(h: Handler, messages: seq<Message>)
    requires HandlerOk(h) && MessagesOk(h, messages)
    ensures HandlerOk(HandleMessages(h, messages))
    decreases |messages|
  {
    if messages == [] {
    } else {
      MessageKeepsOk(h, messages[0]);
      MessagesKeepOk(HandleMessage(h, messages[0]), messages[1..]);
    }
  }

  /** Handling the messages from the i-th on leads to `end` and to `total` posts; kept folded. */
  ghost predicate MessagesLeft(
    h: Handler, posted: seq<Post>, messages: seq<Message>, i: nat, end: Handler, total: seq<Post>)
    requires i <= |messages|
  {
    forall level: int {:trigger Look(level)} :: Look(level) && level == BATCH_FOLD ==>
      && HandlerOk(h) && MessagesOk(h, messages[i..])
      && HandleMessages(h, messages[i..]) == end
      && posted + MessagesPosts(messages[i..]) == total
  }

  lemma MessagesLeftStep(
    h: Handler, posted: seq<Post>, messages: seq<Message>, i: nat, end: Handler, total: seq<Post>)
    requires i < |messages| && MessagesLeft(h, posted, messages, i, end, total)
    ensures HandlerOk(h) && MessageOk(h, messages[i])
    ensures MessagesLeft(HandleMessage(h, messages[i]), posted + MessagePosts(messages[i]), messages, i + 1, end, total)
  {
    assert Look(BATCH_FOLD);
    assert messages[i..][0] == messages[i] && messages[i..][1..] == messages[i + 1..];
    MessageKeepsOk(h, messages[i]);
    Associate(posted, MessagePosts(messages[i]), MessagesPosts(messages[i + 1..]));
  }

  lemma MessagesLeftEnds(h: Handler, posted: seq<Post>, messages: seq<Message>, end: Handler, total: seq<Post>)
    ensures HandlerOk(h) && MessagesOk(h, messages) ==>
              MessagesLeft(h, posted, messages, 0, HandleMessages(h, messages), posted + MessagesPosts(messages))
    ensures MessagesLeft(h, posted, messages, |messages|, end, total) ==> HandlerOk(h) && h == end && posted == total
  {
    assert Look(BATCH_FOLD);
    assert messages[0..] == messages && messages[|messages|..] == [];
  }

  const EMPTY_HANDLER: Handler := Handler(map[], map[], map[], 0, 0)

  /** A run of the poll loop from its start. */
  ghost predicate PollRun(states: seq<Handler>, turns: seq<Turn>) {
    && |states| == |turns| + 1
    && states[0] == EMPTY_HANDLER
    && forall i :: 0 <= i < |turns| ==>
         && BatchOk(states[i], turns[i].batch)
         && MessagesOk(HandleBatch(states[i], turns[i].batch), turns[i].messages)
         && states[i + 1] == HandleTurn(states[i], turns[i])
  }

  /** In every state of every run the kernel's interest list agrees with the masks. */
  lemma {:induction false} PollRunKeepsOk(states: seq<Handler>, turns: seq<Turn>, i: nat)
    requires PollRun(states, turns) && i <= |turns|
    ensures HandlerOk(states[i])
  {
    if i == 0 {
    } else {
      PollRunKeepsOk(states, turns, i - 1);
      var h, turn := states[i - 1], turns[i - 1];
      assert states[i - 1 + 1] == HandleTurn(h, turn);
      BatchKeepsOk(h, turn.batch, |turn.batch|);
      assert turn.batch[..|turn.batch|] == turn.batch;
      MessagesKeepOk(HandleBatch(h, turn.batch), turn.messages);
    }
  }

  /** Commands handled before the batch could delete a record that the batch still names. */
  lemma CommandsFirstWouldDangle(h: Handler, e: Event, port: Port)
    requires HandlerOk(h) && EventOk(h, e) && e.Ready? && h.records[e.record].descriptor.Single?
    ensures var close := ForSocket(h.records[e.record].fd, false, port, Close(false));
            e.record !in HandleMessage(h, close).records
  {
    assert RegisteredOk(h, e.record);
  }

  // ----- a run with a harmful error -----

  const SOCKET: Fd := 3
  const PORT: Port := 7

  /** A socket that has been told n times and has returned nothing. */
  function ToldTimes(n: int): Handler {
    Handler(map[SOCKET := 0], map[0 := Record(SOCKET, Single(PORT, SINGLE_TOKEN_COUNT - n, READING))],
            map[SOCKET := Registration(READING, 0, true)], 1, 0)
  }

  const ASK: Turn := Turn([Interrupt], [ForSocket(SOCKET, false, PORT, SetEventMask(READING))])
  const READABLE: Turn := Turn([Ready(0, true, false, false, false)], [])

  lemma AskedFor()
    ensures MessagesOk(EMPTY_HANDLER, ASK.messages) && HandleTurn(EMPTY_HANDLER, ASK) == ToldTimes(0)
  {
    var m := ASK.messages[0];
    assert ASK.messages[1..] == [];
    assert MessageOk(EMPTY_HANDLER, m);
    assert ASK.batch[1..] == [] && HandleBatch(EMPTY_HANDLER, ASK.batch) == EMPTY_HANDLER;
    var g := HandleMessage(EMPTY_HANDLER, m);
    assert g == ToldTimes(0);
    assert HandleMessages(EMPTY_HANDLER, ASK.messages) == HandleMessages(g, []);
  }

  lemma ToldOnceMore(n: nat)
    requires n + 1 < SINGLE_TOKEN_COUNT
    ensures BatchOk(ToldTimes(n), READABLE.batch) && HandleTurn(ToldTimes(n), READABLE) == ToldTimes(n + 1)
  {
    var h := ToldTimes(n);
    var e := READABLE.batch[0];
    assert READABLE.batch[1..] == [];
    assert HandleEvent(h, e) == ToldTimes(n + 1);
    assert HandleBatch(h, READABLE.batch) == HandleBatch(ToldTimes(n + 1), []);
  }

  /** Fifteen readable turns leave one token. */
  lemma RunToLastToken(states: seq<Handler>, turns: seq<Turn>)
    requires |states| == SINGLE_TOKEN_COUNT + 1 && |turns| == SINGLE_TOKEN_COUNT
    requires states[0] == EMPTY_HANDLER && turns[0] == ASK
    requires forall i :: 1 <= i <= SINGLE_TOKEN_COUNT ==> states[i] == ToldTimes(i - 1)
    requires forall i :: 1 <= i < SINGLE_TOKEN_COUNT ==> turns[i] == READABLE
    ensures PollRun(states, turns)
  {
    forall i | 0 <= i < |turns|
      ensures BatchOk(states[i], turns[i].batch)
      ensures MessagesOk(HandleBatch(states[i], turns[i].batch), turns[i].messages)
      ensures states[i + 1] == HandleTurn(states[i], turns[i])
    {
      if i == 0 {
        AskedFor();
        assert ASK.batch[1..] == [];
      } else {
        ToldOnceMore(i - 1);
      }
    }
  }

  /** On a socket's last token, an error event leaves the registration behind, so a returned token
      adds the descriptor a second time. */
  lemma LastTokenGoes(h: Handler, e: Event)
    requires HandlerOk(h) && Reported(h, e) && Telling(e) && e.error
    requires h.records[e.record].descriptor.Single? && h.records[e.record].descriptor.tokens == 1
    ensures var record := h.records[e.record];
            var returned := ForSocket(record.fd, false, record.descriptor.port, ReturnTokenCommand(1));
            HandleMessage(HandleEvent(h, e), returned).failedAdds == 1
  {
    var g, record := HandleEvent(h, e), h.records[e.record];
    assert RegisteredOk(h, e.record);
    assert g.sockets[record.fd] == e.record && g.records[e.record].fd in g.epoll;
    assert Mask(g.records[e.record].descriptor) == NOTHING;
  }

  lemma RunOf(states: seq<Handler>, turns: seq<Turn>)
    requires turns == [ASK] + seq(SINGLE_TOKEN_COUNT - 1, _ => READABLE)
    requires states == [EMPTY_HANDLER] + seq(SINGLE_TOKEN_COUNT, i => ToldTimes(i))
    ensures PollRun(states, turns) && states[|turns|] == ToldTimes(SINGLE_TOKEN_COUNT - 1)
  {
    RunToLastToken(states, turns);
  }

  /** The failing case: a run that leaves a socket its last token, an error event that takes it, and
      a returned token, for which EPOLL_CTL_ADD finds the socket registered already. */
  lemma ErrorThenAddFails() returns (states: seq<Handler>, turns: seq<Turn>, e: Event)
    ensures PollRun(states, turns) && Reported(states[|turns|], e) && e.Ready? && e.error
    ensures HandleMessage(HandleEvent(states[|turns|], e), ForSocket(SOCKET, false, PORT, ReturnTokenCommand(1))).failedAdds == 1
  {
    turns := [ASK] + seq(SINGLE_TOKEN_COUNT - 1, _ => READABLE);
    states := [EMPTY_HANDLER] + seq(SINGLE_TOKEN_COUNT, i => ToldTimes(i));
    e := Ready(0, true, false, false, true);
    RunOf(states, turns);
    PollRunKeepsOk(states, turns, |turns|);
    LastTokenGoes(states[|turns|], e);
  }
}
