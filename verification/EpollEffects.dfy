/**
 What each event and each command does, said of the descriptor it is for: who is told what,
 what a port has asked for, what the kernel watches, and that no other descriptor is touched.
 */
module EpollEffects {
  import opened Ports
  import opened PortHistory
  import opened EpollSpec
  import opened EpollFacts

  // ----- what the kernel watches -----

  /** The descriptor with some number, as it is kept. */
  ghost predicate Has(h: Handler, fd: Fd, d: Descriptor) {
    fd in h.sockets && h.sockets[fd] in h.records && h.records[h.sockets[fd]] == Record(fd, d)
  }

  /** The kernel watches a socket with one port for what the port has asked for, while it has tokens,
      and tells changes only; a listening one for connections while some reading port has tokens. */
  ghost predicate Watched(h: Handler, fd: Fd, d: Descriptor)
    requires Has(h, fd, d)
  {
    match d
    case Single(_, tokens, mask) =>
      && (fd in h.epoll <==> tokens > 0 && (mask.inEvent || mask.outEvent))
      && (fd in h.epoll ==> h.epoll[fd] == Registration(mask, h.sockets[fd], true))
    case Multiple(listeners) =>
      && (fd in h.epoll <==> exists p :: p in listeners.ports && listeners.ports[p].reading && listeners.ports[p].tokens > 0)
      && (fd in h.epoll ==> h.epoll[fd] == Registration(Interest(true, false), h.sockets[fd], false))
  }

  lemma KernelWatches(h: Handler, fd: Fd, d: Descriptor)
    requires HandlerOk(h) && Has(h, fd, d)
    ensures Watched(h, fd, d)
  {
    assert RegisteredOk(h, h.sockets[fd]);
    match d
    case Single(_, _, mask) =>
    case Multiple(listeners) =>
      WantsInIffSomeReady(listeners);
      if p :| p in listeners.ports && listeners.ports[p].reading && listeners.ports[p].tokens > 0 {
        assert listeners.ports[p].IsReady();
      }
  }

  /** In every state of every run the kernel watches what the ports ask for, and nothing else. */
  lemma PollRunWatches(states: seq<Handler>, turns: seq<Turn>, i: nat)
    requires PollRun(states, turns) && i <= |turns|
    ensures forall fd, d :: Has(states[i], fd, d) ==> Watched(states[i], fd, d)
    ensures forall fd :: fd in states[i].epoll ==> fd in states[i].sockets
  {
    PollRunKeepsOk(states, turns, i);
    forall fd, d | Has(states[i], fd, d) ensures Watched(states[i], fd, d) {
      KernelWatches(states[i], fd, d);
    }
  }

  // ----- events -----

  /** Who is told next. */
  function NextPort(d: Descriptor): Port
    requires d.Multiple? ==> d.listeners.ring != []
  {
    match d
    case Single(port, _, _) => port
    case Multiple(listeners) => listeners.ring[0]
  }

  /** What a reported event posts: nothing without a condition; an error, if there is something to
      read, to every port; anything else to the next port, with the conditions that were reported. */
  lemma EventIsTold(h: Handler, e: Event)
    requires HandlerOk(h) && Reported(h, e) && e.Ready?
    ensures var d := h.records[e.record].descriptor;
            && (d.Multiple? ==> d.listeners.ring != []) && NextPort(d) != 0
            && (!e.error ==>
                  EventPosts(h, e) == if e.inReady || e.outReady || e.hangup
                                      then [Told(NextPort(d), e.inReady, e.outReady, e.hangup)] else [])
            && (e.error ==>
                  EventPosts(h, e) == if e.inReady
                                      then [ToldAll(if d.Single? then {d.port} else d.listeners.ports.Keys)] else [])
  {
    assert RegisteredOk(h, e.record);
    BroadcastReachesSomebody(h.records[e.record].descriptor);
    OrdinaryKeepsOk(h, e.(error := false));
  }

  /** Some ports of a descriptor have paid a token each; nothing else about it has changed. */
  ghost predicate Paid(d: Descriptor, after: Descriptor, ports: set<Port>) {
    match d
    case Single(port, tokens, mask) => after == Single(port, tokens - (if port in ports then 1 else 0), mask)
    case Multiple(listeners) =>
      && after.Multiple? && after.listeners.ports.Keys == listeners.ports.Keys
      && forall p :: p in listeners.ports ==>
           after.listeners.ports[p] ==
           PortState(listeners.ports[p].reading, listeners.ports[p].tokens - if p in ports then 1 else 0)
  }

  lemma ErrorIsPaid(h: Handler, e: Event)
    requires HandlerOk(h) && Reported(h, e) && e.Ready? && e.error && e.inReady
    ensures var d := h.records[e.record].descriptor;
            Paid(d, HandleEvent(h, e).records[e.record].descriptor, if d.Single? then {d.port} else d.listeners.ports.Keys)
  {
  }

  lemma OrdinaryIsPaid(h: Handler, e: Event)
    requires HandlerOk(h) && Reported(h, e) && e.Ready? && !e.error && (e.inReady || e.outReady || e.hangup)
    requires h.records[e.record].descriptor.Multiple? ==> h.records[e.record].descriptor.listeners.ring != []
    ensures var d := h.records[e.record].descriptor;
            Paid(d, HandleEvent(h, e).records[e.record].descriptor, {NextPort(d)})
  {
    var r := e.record;
    var d := h.records[r].descriptor;
    if d.Multiple? {
      NextNotifyOk(d.listeners, false);
      NextNotifyNotifies(d.listeners);
    }
    ChangeOk(h, r, Notify(d).1);
    assert HandleEvent(h, e) == Change(h, r, Notify(d).1);
  }

  /** Whoever is told about an event pays a token for it; nothing else changes, here or elsewhere,
      but the registration. */
  lemma EventIsPaid(h: Handler, e: Event)
    requires HandlerOk(h) && Reported(h, e) && e.Ready?
    ensures OthersKept(h, HandleEvent(h, e), e.record)
    ensures EventPosts(h, e) == [] ==> HandleEvent(h, e) == h
    ensures forall post :: EventPosts(h, e) == [post] ==>
              Paid(h.records[e.record].descriptor, HandleEvent(h, e).records[e.record].descriptor, Receivers(post))
  {
    EventIsTold(h, e);
    if e.error {
      ErrorKeepsOkIff(h, e);
      if e.inReady {
        ErrorIsPaid(h, e);
      }
    } else {
      OrdinaryKeepsOk(h, e);
      if e.inReady || e.outReady || e.hangup {
        OrdinaryIsPaid(h, e);
      }
    }
  }

  /** Where the kernel refuses a registration, it keeps the old one, and every port pays for being told so. */
  lemma RefusedAddIsPaid(h: Handler, r: RecordId)
    requires r in h.records && h.records[r].fd in h.epoll
    requires DescriptorOk(h.records[r].descriptor) && Mask(h.records[r].descriptor) != NOTHING
    ensures var g, d := AddToEpoll(h, r), h.records[r].descriptor;
            && OthersKept(h, g, r) && g.epoll == h.epoll && g.failedAdds == h.failedAdds + 1
            && Paid(d, g.records[r].descriptor, if d.Single? then {d.port} else d.listeners.ports.Keys)
  {
    BroadcastReachesSomebody(h.records[r].descriptor);
  }

  // ----- batches -----

  /** A record is as it was reported when its event is handled. */
  lemma {:induction false} RecordsWait(h: Handler, batch: seq<Event>, k: nat)
    requires HandlerOk(h) && BatchOk(h, batch) && k < |batch| && batch[k].Ready?
    ensures batch[k].record in h.records && batch[k].record in HandleBatch(h, batch[..k]).records
    ensures HandleBatch(h, batch[..k]).records[batch[k].record] == h.records[batch[k].record]
    decreases k
  {
    assert EventOk(h, batch[k]);
    if k == 0 {
    } else {
      var g := HandleEvent(h, batch[0]);
      assert EventOk(h, batch[0]);
      if batch[0].Ready? {
        EventKeepsOk(h, batch[0]);
      }
      BatchStep(h, batch);
      RecordsWait(g, batch[1..], k - 1);
      assert batch[..k][1..] == batch[1..][..k - 1];
    }
  }

  /** What the events of a batch post, each as if it were alone. */
  function Announced(h: Handler, batch: seq<Event>): seq<Post> {
    if batch == [] then [] else EventPosts(h, batch[0]) + Announced(h, batch[1..])
  }

  lemma {:induction false} AnnouncedAlike(h: Handler, g: Handler, batch: seq<Event>)
    requires forall i :: 0 <= i < |batch| && batch[i].Ready? ==>
               && batch[i].record in h.records && batch[i].record in g.records
               && h.records[batch[i].record] == g.records[batch[i].record]
    ensures Announced(h, batch) == Announced(g, batch)
  {
    if batch == [] {
    } else {
      AnnouncedAlike(h, g, batch[1..]);
    }
  }

  /** A batch posts, in order, what each of its events posts by itself: no event changes what
      another one tells, or to whom. */
  lemma {:induction false} BatchIsAnnounced(h: Handler, batch: seq<Event>)
    requires HandlerOk(h) && BatchOk(h, batch)
    ensures BatchPosts(h, batch) == Announced(h, batch)
    decreases |batch|
  {
    if batch == [] {
    } else {
      var g, rest := HandleEvent(h, batch[0]), batch[1..];
      BatchStep(h, batch);
      BatchIsAnnounced(g, rest);
      assert EventOk(h, batch[0]);
      if batch[0].Ready? {
        EventKeepsOk(h, batch[0]);
      }
      forall i | 0 <= i < |rest| && rest[i].Ready?
        ensures rest[i].record in h.records && rest[i].record in g.records
        ensures h.records[rest[i].record] == g.records[rest[i].record]
      {
        assert EventOk(h, batch[i + 1]) && rest[i] == batch[i + 1];
      }
      AnnouncedAlike(h, g, rest);
    }
  }

  // ----- commands -----

  /** Every other descriptor and what the kernel watches of it are as before. */
  ghost predicate OthersUntouched(h: Handler, g: Handler, fd: Fd) {
    && (forall f, d :: f != fd ==> (Has(g, f, d) <==> Has(h, f, d)))
    && (forall f :: f != fd ==> (f in g.sockets <==> f in h.sockets))
    && (forall f :: f != fd ==> (f in g.epoll <==> f in h.epoll))
    && (forall f :: f != fd && f in h.epoll ==> g.epoll[f] == h.epoll[f])
  }

  /** The descriptor a command is for: the one that is kept, or a new one with all its tokens. */
  ghost predicate Meant(h: Handler, fd: Fd, listening: bool, d: Descriptor) {
    if fd in h.sockets then Has(h, fd, d)
    else if listening then d.Multiple? && d.listeners == Listeners(map[], [])
    else d == Single(0, SINGLE_TOKEN_COUNT, Interest(false, false))
  }

  lemma FoundIsMeant(h: Handler, fd: Fd, listening: bool, d: Descriptor)
    requires HandlerOk(h) && Meant(h, fd, listening, d)
    ensures var g := GetDescriptorInfo(h, fd, listening);
            HandlerOk(g) && Has(g, fd, d) && OthersUntouched(h, g, fd)
  {
    GetDescriptorInfoOk(h, fd, listening);
  }

  /** A changed descriptor is the only one that changes. */
  lemma ChangeTouchesOne(h: Handler, fd: Fd, d: Descriptor, after: Descriptor)
    requires HandlerOk(h) && Has(h, fd, d) && DescriptorOk(after) && after.Single? == d.Single?
    ensures var g := Change(h, h.sockets[fd], after);
            HandlerOk(g) && Has(g, fd, after) && Watched(g, fd, after) && OthersUntouched(h, g, fd)
  {
    var r := h.sockets[fd];
    ChangeOk(h, r, after);
    var g := Change(h, r, after);
    KernelWatches(g, fd, after);
    forall f, e | f != fd ensures Has(g, f, e) <==> Has(h, f, e) {
      if f in h.sockets {
        assert h.sockets[f] in h.records && h.records[h.sockets[f]].fd == f;
      }
    }
  }

  lemma UntouchedTwice(h: Handler, g: Handler, k: Handler, fd: Fd)
    requires OthersUntouched(h, g, fd) && OthersUntouched(g, k, fd)
    ensures OthersUntouched(h, k, fd)
  {
  }

  /** The mask of a descriptor after it has been set. */
  ghost predicate MaskSet(d: Descriptor, after: Descriptor, port: Port, mask: Interest) {
    match d
    case Single(_, tokens, _) => after == Single(port, tokens, mask)
    case Multiple(listeners) =>
      && after.Multiple? && port in after.listeners.ports
      && after.listeners.ports[port] ==
         PortState(mask.inEvent, if port in listeners.ports then listeners.ports[port].tokens else TOKEN_COUNT)
      && OthersAsBefore(listeners, after.listeners, port) && InItsPlace(listeners, after.listeners, port)
  }

  /** Setting a mask sets it: the port has asked for exactly that, its tokens and every other port are
      as before, and the kernel watches accordingly. */
  lemma MaskIsSet(h: Handler, fd: Fd, listening: bool, port: Port, mask: Interest, d: Descriptor) returns (after: Descriptor)
    requires HandlerOk(h) && Meant(h, fd, listening, d)
    requires MessageOk(h, ForSocket(fd, listening, port, SetEventMask(mask)))
    ensures var g := HandleMessage(h, ForSocket(fd, listening, port, SetEventMask(mask)));
            && Has(g, fd, after) && MaskSet(d, after, port, mask)
            && Watched(g, fd, after) && OthersUntouched(h, g, fd)
    ensures MessagePosts(ForSocket(fd, listening, port, SetEventMask(mask))) == []
  {
    FoundIsMeant(h, fd, listening, d);
    var g := GetDescriptorInfo(h, fd, listening);
    after := WithMask(d, port, mask);
    CommandKeepsDescriptorOk(d, port, SetEventMask(mask));
    ChangeTouchesOne(g, fd, d, after);
    UntouchedTwice(h, g, Change(g, g.sockets[fd], after), fd);
    if d.Multiple? {
      SetPortSets(d.listeners, port, mask == READING);
    }
  }

  ghost predicate TokensAdded(d: Descriptor, after: Descriptor, port: Port, count: nat) {
    match d
    case Single(p, tokens, mask) => after == Single(p, tokens + count, mask)
    case Multiple(listeners) =>
      && after.Multiple? && port in after.listeners.ports && port in listeners.ports
      && after.listeners.ports[port] == PortState(listeners.ports[port].reading, listeners.ports[port].tokens + count)
      && OthersAsBefore(listeners, after.listeners, port) && InItsPlace(listeners, after.listeners, port)
  }

  /** Returned tokens come back to the port, nothing else changes, and the kernel watches accordingly. */
  lemma TokensComeBack(h: Handler, fd: Fd, listening: bool, port: Port, count: nat, d: Descriptor) returns (after: Descriptor)
    requires HandlerOk(h) && Meant(h, fd, listening, d)
    requires MessageOk(h, ForSocket(fd, listening, port, ReturnTokenCommand(count)))
    ensures var g := HandleMessage(h, ForSocket(fd, listening, port, ReturnTokenCommand(count)));
            && Has(g, fd, after) && TokensAdded(d, after, port, count)
            && Watched(g, fd, after) && OthersUntouched(h, g, fd)
    ensures MessagePosts(ForSocket(fd, listening, port, ReturnTokenCommand(count))) == []
  {
    FoundIsMeant(h, fd, listening, d);
    var g := GetDescriptorInfo(h, fd, listening);
    after := WithTokens(d, port, count);
    CommandKeepsDescriptorOk(d, port, ReturnTokenCommand(count));
    ChangeTouchesOne(g, fd, d, after);
    UntouchedTwice(h, g, Change(g, g.sockets[fd], after), fd);
    if d.Multiple? {
      ReturnTokensReturns(d.listeners, port, count);
    }
  }

  /** A listening socket that others have open loses one port, and the kernel watches accordingly. */
  lemma PortIsTakenOff(h: Handler, fd: Fd, listening: bool, port: Port, d: Descriptor) returns (after: Descriptor)
    requires HandlerOk(h) && Meant(h, fd, listening, d) && d.Multiple?
    requires MessageOk(h, ForSocket(fd, listening, port, Close(false)))
    ensures var g := HandleMessage(h, ForSocket(fd, listening, port, Close(false)));
            && Has(g, fd, after) && after.Multiple? && port !in after.listeners.ports && port !in after.listeners.ring
            && OthersAsBefore(d.listeners, after.listeners, port)
            && Watched(g, fd, after) && OthersUntouched(h, g, fd)
    ensures MessagePosts(ForSocket(fd, listening, port, Close(false))) == [Destroyed(port)]
  {
    FoundIsMeant(h, fd, listening, d);
    var g := GetDescriptorInfo(h, fd, listening);
    after := WithoutPort(d, port);
    CommandKeepsDescriptorOk(d, port, Close(false));
    ChangeTouchesOne(g, fd, d, after);
    UntouchedTwice(h, g, Change(g, g.sockets[fd], after), fd);
    RemovePortRemoves(d.listeners, port);
  }

  lemma DeleteTouchesOne(h: Handler, fd: Fd, d: Descriptor)
    requires HandlerOk(h) && Has(h, fd, d) && fd !in h.epoll
    ensures var g := Delete(h, h.sockets[fd]);
            && fd !in g.sockets && h.sockets[fd] !in g.records && fd !in g.epoll && OthersUntouched(h, g, fd)
  {
    var g := Delete(h, h.sockets[fd]);
    forall f, e | f != fd ensures Has(g, f, e) <==> Has(h, f, e) {
      if f in h.sockets {
        assert h.sockets[f] in h.records && h.records[h.sockets[f]].fd == f;
      }
    }
  }

  /** A socket with one port, or one that nobody else has open, is forgotten by the kernel and by the
      handler, and its port hears that it is gone. */
  lemma SocketIsClosed(h: Handler, fd: Fd, listening: bool, port: Port, closeSafe: bool, d: Descriptor)
    requires HandlerOk(h) && Meant(h, fd, listening, d) && (d.Single? || closeSafe)
    requires MessageOk(h, ForSocket(fd, listening, port, Close(closeSafe)))
    ensures var g := HandleMessage(h, ForSocket(fd, listening, port, Close(closeSafe)));
            && fd !in g.sockets && fd !in g.epoll && OthersUntouched(h, g, fd)
            && (fd in h.sockets ==> h.sockets[fd] !in g.records)
    ensures MessagePosts(ForSocket(fd, listening, port, Close(closeSafe))) == [Destroyed(port)]
  {
    FoundIsMeant(h, fd, listening, d);
    var g := GetDescriptorInfo(h, fd, listening);
    var after := WithoutPort(d, port);
    CommandKeepsDescriptorOk(d, port, Close(closeSafe));
    ChangeTouchesOne(g, fd, d, after);
    var k := Change(g, g.sockets[fd], after);
    assert RegisteredOk(k, k.sockets[fd]);
    DeleteTouchesOne(k, fd, after);
    UntouchedTwice(h, g, k, fd);
    UntouchedTwice(h, k, Delete(k, k.sockets[fd]), fd);
    ChangeOk(g, g.sockets[fd], after);
  }

  /** Shutting down one direction of a socket leaves the descriptor as it is. */
  lemma ShutdownChangesNothing(h: Handler, fd: Fd, listening: bool, port: Port, command: Command, d: Descriptor)
    requires HandlerOk(h) && Meant(h, fd, listening, d) && (command.ShutdownRead? || command.ShutdownWrite?)
    ensures var g := HandleMessage(h, ForSocket(fd, listening, port, command));
            Has(g, fd, d) && Watched(g, fd, d) && OthersUntouched(h, g, fd)
    ensures MessagePosts(ForSocket(fd, listening, port, command)) == []
  {
    FoundIsMeant(h, fd, listening, d);
    KernelWatches(GetDescriptorInfo(h, fd, listening), fd, d);
  }

  // ----- turns -----

  lemma {:induction false} BatchKeepsSockets(h: Handler, batch: seq<Event>)
    requires HandlerOk(h) && BatchOk(h, batch)
    ensures HandleBatch(h, batch).sockets == h.sockets && HandleBatch(h, batch).records.Keys == h.records.Keys
    decreases |batch|
  {
    if batch == [] {
    } else {
      assert EventOk(h, batch[0]);
      if batch[0].Ready? {
        EventKeepsOk(h, batch[0]);
      }
      BatchStep(h, batch);
      BatchKeepsSockets(HandleEvent(h, batch[0]), batch[1..]);
    }
  }

  /** Commands wait for an interrupt: without one no descriptor comes or goes, and the posts of a turn
      are those of its events. */
  lemma CommandsWait(h: Handler, turn: Turn)
    requires HandlerOk(h) && BatchOk(h, turn.batch) && Interrupt !in turn.batch
    ensures HandleTurn(h, turn).sockets == h.sockets && HandleTurn(h, turn).records.Keys == h.records.Keys
    ensures TurnPosts(h, turn) == Announced(h, turn.batch)
  {
    BatchKeepsSockets(h, turn.batch);
    BatchIsAnnounced(h, turn.batch);
  }
}
