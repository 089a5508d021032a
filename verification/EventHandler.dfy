/**
 The event handler of the Linux embedder: a table of descriptor objects, the kernel's
 interest list and the loops over events and commands.  The handler owns its descriptors;
 what they hold, with the table and the interest list, is a state of `EpollSpec`.
 */
module EventHandlers {
  import opened Folding
  import opened Ports
  import opened EpollSpec
  import opened EpollFacts
  import opened Descriptors

  lemma OneMoreSeen<T>(s: seq<T>, i: nat, x: T)
    requires i < |s|
    ensures x in s[..i + 1] <==> x in s[..i] || x == s[i]
  {
    assert s[..i + 1] == s[..i] + [s[i]];
  }

  lemma AllSeen<T>(s: seq<T>)
    ensures s[..|s|] == s
  {
  }

  class EventHandlerImplementation {
    var sockets: map<Fd, RecordId>
    /** The descriptor objects that have not been deleted. */
    var infos: map<RecordId, DescriptorInfo>
    var epoll: map<Fd, Registration>
    var nextRecord: RecordId
    var failedAdds: nat
    var shutdown: bool
    var posted: seq<Post>
    /** The objects that the descriptors are, or were, made of. */
    ghost var owned: set<object>

    ghost predicate Apart()
      reads this`infos, this`owned, owned
    {
      && this !in owned
      && (forall r {:trigger infos[r]} :: r in infos ==>
            infos[r] in owned && infos[r].repr <= owned && infos[r].Valid())
      && (forall q, r {:trigger infos[q], infos[r]} :: q in infos && r in infos && q != r ==> infos[q].repr !! infos[r].repr)
    }

    /** The descriptors are in order and share no object; kept folded. */
    ghost predicate Owns()
      reads this`infos, this`owned, owned
    {
      && this !in owned && (forall r :: r in infos ==> infos[r] in owned)
      && forall level: int {:trigger Look(level)} :: Look(level) && level == HANDLER_FOLD ==> Apart()
    }

    /** What the objects amount to. */
    ghost function State(): Handler
      reads this`sockets, this`infos, this`epoll, this`nextRecord, this`failedAdds, infos.Values
    {
      Handler(sockets, map r | r in infos :: Record(infos[r].fd, infos[r].view), epoll, nextRecord, failedAdds)
    }

    constructor ()
      ensures Owns() && fresh(owned) && State() == EMPTY_HANDLER && !shutdown && posted == []
      ensures HandlerOk(State())
    {
      sockets, infos, epoll := map[], map[], map[];
      nextRecord, failedAdds := 0, 0;
      shutdown, posted := false, [];
      owned := {};
    }

    // ----- one descriptor changes -----

    /** After one descriptor has changed itself, everything else is as it was. */
    twostate lemma OnlyOneChanged(r: RecordId)
      requires old(Owns()) && r in old(infos) && infos == old(infos)
      requires sockets == old(sockets) && epoll == old(epoll)
      requires nextRecord == old(nextRecord) && failedAdds == old(failedAdds)
      requires infos[r].Valid() && fresh(infos[r].repr - old(infos[r].repr))
      requires unchanged(old(owned) - old(infos[r].repr))
      requires owned == old(owned) + infos[r].repr
      ensures Owns() && State() == Update(old(State()), r, infos[r].view)
    {
      assert Look(HANDLER_FOLD);
      forall q | q in infos && q != r
        ensures infos[q].Valid() && infos[q].repr == old(infos[q].repr) && infos[q].view == old(infos[q].view)
      {
        assert old(infos[q].repr) !! old(infos[r].repr);
      }
    }

    /** The descriptor operations, on the r-th descriptor. */
    method SetPortAndMask(r: RecordId, port: Port, mask: Interest)
      requires Owns() && r in infos && CommandAllowed(infos[r].view, port, SetEventMask(mask))
      modifies this`owned, owned
      ensures Owns() && infos == old(infos) && fresh(owned - old(owned))
      ensures State() == Update(old(State()), r, WithMask(old(infos[r].view), port, mask))
    {
      assert Look(HANDLER_FOLD);
      infos[r].SetPortAndMask(port, mask);
      owned := owned + infos[r].repr;
      OnlyOneChanged(r);
    }

    method RemovePort(r: RecordId, port: Port)
      requires Owns() && r in infos
      modifies this`owned, owned
      ensures Owns() && infos == old(infos) && fresh(owned - old(owned))
      ensures State() == Update(old(State()), r, WithoutPort(old(infos[r].view), port))
    {
      assert Look(HANDLER_FOLD);
      infos[r].RemovePort(port);
      owned := owned + infos[r].repr;
      OnlyOneChanged(r);
    }

    method ReturnTokens(r: RecordId, port: Port, count: nat)
      requires Owns() && r in infos && CommandAllowed(infos[r].view, port, ReturnTokenCommand(count))
      modifies this`owned, owned
      ensures Owns() && infos == old(infos) && fresh(owned - old(owned))
      ensures State() == Update(old(State()), r, WithTokens(old(infos[r].view), port, count))
    {
      assert Look(HANDLER_FOLD);
      infos[r].ReturnTokens(port, count);
      owned := owned + infos[r].repr;
      OnlyOneChanged(r);
    }

    method NextNotifyDartPort(r: RecordId) returns (port: Port)
      requires Owns() && r in infos
      modifies this`owned, owned
      ensures Owns() && infos == old(infos) && fresh(owned - old(owned))
      ensures State() == Update(old(State()), r, Notify(old(infos[r].view)).1)
      ensures port == Notify(old(infos[r].view)).0
    {
      assert Look(HANDLER_FOLD);
      port := infos[r].NextNotifyDartPort();
      owned := owned + infos[r].repr;
      OnlyOneChanged(r);
    }

    /** Tells every port of a descriptor. */
    method NotifyAllDartPorts(r: RecordId)
      requires Owns() && r in infos
      modifies this`owned, this`posted, owned
      ensures Owns() && infos == old(infos) && fresh(owned - old(owned))
      ensures State() == Update(old(State()), r, Broadcast(old(infos[r].view)))
      ensures posted == old(posted) + [ToldAll(PortsOf(old(infos[r].view)))]
    {
      assert Look(HANDLER_FOLD);
      var told := infos[r].NotifyAllDartPorts();
      owned := owned + infos[r].repr;
      posted := posted + [ToldAll(set p | p in told)];
      assert (set p | p in told) == PortsOf(old(infos[r].view));
      OnlyOneChanged(r);
    }

    method IsListeningSocket(r: RecordId) returns (listening: bool)
      requires Owns() && r in infos
      ensures listening <==> infos[r].view.Multiple?
    {
      assert Look(HANDLER_FOLD);
      listening := infos[r].IsListeningSocket();
    }

    method Mask(r: RecordId) returns (mask: Interest)
      requires Owns() && r in infos
      ensures mask == EpollSpec.Mask(infos[r].view)
    {
      assert Look(HANDLER_FOLD);
      mask := infos[r].Mask();
    }

    // ----- registration -----

    method RemoveFromEpollInstance(r: RecordId)
      requires Owns() && r in infos
      modifies this`epoll
      ensures Owns() && State() == RemoveFromEpoll(old(State()), r)
    {
      epoll := epoll - {infos[r].fd};
    }

    /** The kernel has the descriptor already: its ports are told so. */
    method RefuseAdd(r: RecordId)
      requires Owns() && r in infos && infos[r].fd in epoll
      modifies this`failedAdds, this`owned, this`posted, owned
      ensures Owns() && infos == old(infos) && fresh(owned - old(owned))
      ensures State() == AddToEpoll(old(State()), r) && failedAdds == old(failedAdds) + 1
      ensures posted == old(posted) + [ToldAll(PortsOf(old(infos[r].view)))]
    {
      NotifyAllDartPorts(r);
      failedAdds := failedAdds + 1;
    }

    method Register(r: RecordId)
      requires Owns() && r in infos && infos[r].fd !in epoll
      modifies this`epoll
      ensures Owns() && State() == AddToEpoll(old(State()), r)
    {
      var mask := Mask(r);
      var listening := IsListeningSocket(r);
      epoll := epoll[infos[r].fd := Registration(mask, r, !listening)];
    }

    /** Registers a descriptor; if the kernel refuses, its ports are told so. */
    method AddToEpollInstance(r: RecordId)
      requires Owns() && r in infos
      modifies this`epoll, this`failedAdds, this`owned, this`posted, owned
      ensures Owns() && infos == old(infos) && fresh(owned - old(owned))
      ensures State() == AddToEpoll(old(State()), r)
      ensures posted == old(posted) +
                if failedAdds == old(failedAdds) then [] else [ToldAll(PortsOf(old(infos[r].view)))]
    {
      if infos[r].fd in epoll {
        RefuseAdd(r);
      } else {
        Register(r);
      }
    }

    method UpdateEpollInstance(oldMask: Interest, r: RecordId)
      requires Owns() && r in infos
      modifies this`epoll, this`failedAdds, this`owned, this`posted, owned
      ensures Owns() && infos == old(infos) && fresh(owned - old(owned))
      ensures State() == UpdateEpoll(old(State()), oldMask, r)
      ensures posted == old(posted) +
                if failedAdds == old(failedAdds) then [] else [ToldAll(PortsOf(old(infos[r].view)))]
    {
      var newMask := Mask(r);
      if oldMask != NOTHING && newMask == NOTHING {
        RemoveFromEpollInstance(r);
      } else if oldMask == NOTHING && newMask != NOTHING {
        AddToEpollInstance(r);
      } else if oldMask != NOTHING && newMask != NOTHING && oldMask != newMask {
        RemoveFromEpollInstance(r);
        AddToEpollInstance(r);
      }
    }

    /** The descriptor object for a file descriptor, made on first use. */
    method FindDescriptorInfo(fd: Fd, listening: bool) returns (r: RecordId)
      requires Owns() && HandlerOk(State())
      modifies this`sockets, this`infos, this`nextRecord, this`owned
      ensures Owns() && fresh(owned - old(owned))
      ensures State() == GetDescriptorInfo(old(State()), fd, listening)
      ensures HandlerOk(State()) && fd in sockets && sockets[fd] == r && r in infos && infos[r].fd == fd
    {
      GetDescriptorInfoOk(State(), fd, listening);
      assert nextRecord !in State().records;
      if fd !in sockets {
        Allocate(fd, listening);
      }
      r := sockets[fd];
      assert r in State().records && State().records[r].fd == fd;
    }

    /** A new descriptor leaves the others as they were. */
    twostate lemma OneAdded(new info: DescriptorInfo)
      requires old(Owns()) && old(nextRecord) !in old(infos) && infos == old(infos)[old(nextRecord) := info]
      requires info.Valid() && fresh(info.repr) && this !in info.repr && unchanged(old(owned))
      requires owned == old(owned) + info.repr
      ensures Owns()
      ensures forall r :: r in old(infos) ==> infos[r].fd == old(infos[r].fd) && infos[r].view == old(infos[r].view)
    {
      assert Look(HANDLER_FOLD);
      forall q | q in old(infos) ensures infos[q].Valid() && infos[q].repr == old(infos[q].repr) {
        assert old(infos[q].Valid());
      }
    }

    method Allocate(fd: Fd, listening: bool)
      requires Owns() && fd !in sockets && nextRecord !in infos
      modifies this`sockets, this`infos, this`nextRecord, this`owned
      ensures Owns() && fresh(owned - old(owned))
      ensures State() == GetDescriptorInfo(old(State()), fd, listening)
    {
      var info := new DescriptorInfo(fd, listening);
      sockets := sockets[fd := nextRecord];
      infos := infos[nextRecord := info];
      nextRecord := nextRecord + 1;
      owned := owned + info.repr;
      OneAdded(info);
    }

    // ----- commands -----

    /** Returns tokens and brings the registration up to date. */
    method TakeTokens(r: RecordId, port: Port, count: nat)
      requires Owns() && r in infos && CommandAllowed(infos[r].view, port, ReturnTokenCommand(count))
      modifies this`epoll, this`failedAdds, this`owned, this`posted, owned
      ensures Owns() && infos == old(infos) && fresh(owned - old(owned))
      ensures State() == Change(old(State()), r, WithTokens(old(infos[r].view), port, count))
      ensures failedAdds == old(failedAdds) ==> posted == old(posted)
    {
      var oldMask := Mask(r);
      ReturnTokens(r, port, count);
      UpdateEpollInstance(oldMask, r);
    }

    /** Sets a port's mask and brings the registration up to date. */
    method TakeMask(r: RecordId, port: Port, mask: Interest)
      requires Owns() && r in infos && CommandAllowed(infos[r].view, port, SetEventMask(mask))
      modifies this`epoll, this`failedAdds, this`owned, this`posted, owned
      ensures Owns() && infos == old(infos) && fresh(owned - old(owned))
      ensures State() == Change(old(State()), r, WithMask(old(infos[r].view), port, mask))
      ensures failedAdds == old(failedAdds) ==> posted == old(posted)
    {
      var oldMask := Mask(r);
      SetPortAndMask(r, port, mask);
      UpdateEpollInstance(oldMask, r);
    }

    /** Takes a port off a descriptor and brings the registration up to date. */
    method TakeOff(r: RecordId, port: Port)
      requires Owns() && r in infos
      modifies this`epoll, this`failedAdds, this`owned, this`posted, owned
      ensures Owns() && infos == old(infos) && fresh(owned - old(owned))
      ensures State() == Change(old(State()), r, WithoutPort(old(infos[r].view), port))
      ensures failedAdds == old(failedAdds) ==> posted == old(posted)
    {
      var oldMask := Mask(r);
      RemovePort(r, port);
      UpdateEpollInstance(oldMask, r);
    }

    /** Deletes a descriptor object. */
    method DeleteInfo(r: RecordId)
      requires Owns() && r in infos
      modifies this`sockets, this`infos
      ensures Owns() && State() == Delete(old(State()), r)
    {
      assert Look(HANDLER_FOLD);
      sockets := sockets - {infos[r].fd};
      infos := infos - {r};
      assert Apart();
    }

    /** Takes a port off a descriptor and deletes the object when nobody else has it open. */
    method CloseDescriptor(r: RecordId, port: Port, closeSafe: bool)
      requires Owns() && r in infos
      modifies this`sockets, this`infos, this`epoll, this`failedAdds, this`owned, this`posted, owned
      ensures Owns() && fresh(owned - old(owned))
      ensures var d := old(infos[r].view);
              var closed := Change(old(State()), r, WithoutPort(d, port));
              State() == if d.Single? || closeSafe then Delete(closed, r) else closed
      ensures failedAdds == old(failedAdds) ==> posted == old(posted)
    {
      var listening := IsListeningSocket(r);
      TakeOff(r, port);
      if !listening || closeSafe {
        DeleteInfo(r);
      }
    }

    method HandleCommand(r: RecordId, port: Port, command: Command)
      requires Owns() && r in infos && CommandAllowed(infos[r].view, port, command)
      modifies this`sockets, this`infos, this`epoll, this`failedAdds, this`posted, this`owned, owned
      ensures Owns() && fresh(owned - old(owned))
      ensures State() == AfterCommand(old(State()), r, port, command)
      ensures failedAdds == old(failedAdds) ==> posted == old(posted) + if command.Close? then [Destroyed(port)] else []
    {
      match command
      case ShutdownRead =>
      case ShutdownWrite =>
      case ReturnTokenCommand(count) => TakeTokens(r, port, count);
      case SetEventMask(mask) => TakeMask(r, port, mask);
      case Close(closeSafe) =>
        CloseDescriptor(r, port, closeSafe);
        posted := posted + [Destroyed(port)];
    }

    method HandleSocketMessage(fd: Fd, listening: bool, port: Port, command: Command)
      requires Owns() && HandlerOk(State()) && MessageOk(State(), ForSocket(fd, listening, port, command))
      modifies this`sockets, this`infos, this`epoll, this`nextRecord, this`failedAdds, this`posted, this`owned, owned
      ensures Owns() && fresh(owned - old(owned))
      ensures State() == HandleMessage(old(State()), ForSocket(fd, listening, port, command))
      ensures posted == old(posted) + MessagePosts(ForSocket(fd, listening, port, command))
      ensures HandlerOk(State())
    {
      MessageKeepsOk(State(), ForSocket(fd, listening, port, command));
      var r := FindDescriptorInfo(fd, listening);
      HandleCommand(r, port, command);
    }

    /** Handles the i-th message. */
    method HandleOneMessage(messages: seq<Message>, i: nat, ghost end: Handler, ghost total: seq<Post>)
      requires Owns() && i < |messages|
      requires MessagesLeft(State(), posted, messages, i, end, total)
      modifies this`sockets, this`infos, this`epoll, this`nextRecord, this`failedAdds, this`shutdown, this`posted,
               this`owned, owned
      ensures Owns() && fresh(owned - old(owned))
      ensures MessagesLeft(State(), posted, messages, i + 1, end, total)
      ensures shutdown == (old(shutdown) || messages[i] == Shutdown)
    {
      MessagesLeftStep(State(), posted, messages, i, end, total);
      var message := messages[i];
      if message.ForSocket? {
        HandleSocketMessage(message.fd, message.listening, message.port, message.command);
      } else {
        assert posted + [] == posted;
        if message.Shutdown? {
          shutdown := true;
        }
      }
    }

    /** Handles the commands read from the interrupt pipe, in order. */
    method HandleInterruptFd(messages: seq<Message>)
      requires Owns() && HandlerOk(State()) && MessagesOk(State(), messages)
      modifies this`sockets, this`infos, this`epoll, this`nextRecord, this`failedAdds, this`shutdown, this`posted,
               this`owned, owned
      ensures Owns() && fresh(owned - old(owned)) && HandlerOk(State())
      ensures State() == HandleMessages(old(State()), messages)
      ensures posted == old(posted) + MessagesPosts(messages)
      ensures shutdown <==> old(shutdown) || Shutdown in messages
    {
      ghost var end, total := HandleMessages(State(), messages), posted + MessagesPosts(messages);
      MessagesLeftEnds(State(), posted, messages, end, total);
      var i := 0;
      while i < |messages|
        invariant 0 <= i <= |messages|
        invariant Owns() && fresh(owned - old(owned))
        invariant MessagesLeft(State(), posted, messages, i, end, total)
        invariant shutdown <==> old(shutdown) || Shutdown in messages[..i]
      {
        HandleOneMessage(messages, i, end, total);
        OneMoreSeen(messages, i, Shutdown);
        i := i + 1;
      }
      MessagesLeftEnds(State(), posted, messages, end, total);
      AllSeen(messages);
    }

    // ----- events -----

    /** Tells the next port of a descriptor and brings the registration up to date. */
    method TellNext(r: RecordId) returns (port: Port)
      requires Owns() && r in infos
      modifies this`epoll, this`failedAdds, this`posted, this`owned, owned
      ensures Owns() && infos == old(infos) && fresh(owned - old(owned))
      ensures State() == Change(old(State()), r, Notify(old(infos[r].view)).1)
      ensures port == Notify(old(infos[r].view)).0
      ensures failedAdds == old(failedAdds) ==> posted == old(posted)
    {
      var oldMask := Mask(r);
      port := NextNotifyDartPort(r);
      UpdateEpollInstance(oldMask, r);
    }

    /** Tells the next port of a descriptor about an event. */
    method TellEvent(e: Event)
      requires Owns() && HandlerOk(State()) && e.Ready? && Reported(State(), e)
      modifies this`epoll, this`failedAdds, this`posted, this`owned, owned
      ensures Owns() && infos == old(infos) && fresh(owned - old(owned))
      ensures State() == Change(old(State()), e.record, Notify(old(infos[e.record].view)).1)
      ensures posted == old(posted) + [Told(Notify(old(infos[e.record].view)).0, e.inReady, e.outReady, e.hangup)]
    {
      OrdinaryAddsNothingTwice(State(), e);
      var port := TellNext(e.record);
      posted := posted + [Told(port, e.inReady, e.outReady, e.hangup)];
    }

    /** One ready descriptor: an error is broadcast, anything else goes to the next port. */
    method HandleReady(e: Event)
      requires Owns() && HandlerOk(State()) && e.Ready? && Reported(State(), e)
      modifies this`epoll, this`failedAdds, this`posted, this`owned, owned
      ensures Owns() && infos == old(infos) && fresh(owned - old(owned))
      ensures State() == HandleEvent(old(State()), e)
      ensures posted == old(posted) + EventPosts(old(State()), e)
    {
      if Telling(e) {
        if e.error {
          NotifyAllDartPorts(e.record);
        } else {
          TellEvent(e);
        }
      }
    }

    /** Handles the i-th event of a batch; an interrupt is only noted. */
    method HandleOneEvent(events: seq<Event>, i: nat, ghost end: Handler, ghost total: seq<Post>)
      returns (interrupt: bool)
      requires Owns() && i < |events| && BatchLeft(State(), posted, events, i, end, total)
      modifies this`epoll, this`failedAdds, this`posted, this`owned, owned
      ensures Owns() && fresh(owned - old(owned))
      ensures BatchLeft(State(), posted, events, i + 1, end, total)
      ensures interrupt <==> events[i] == Interrupt
    {
      BatchLeftStep(State(), posted, events, i, end, total);
      interrupt := false;
      match events[i]
      case Interrupt => interrupt := true;
      case Timer =>
      case Ready(_, _, _, _, _) => HandleReady(events[i]);
    }

    /** All events of a batch, in order. */
    method HandleAllEvents(events: seq<Event>) returns (interruptSeen: bool)
      requires Owns() && HandlerOk(State()) && BatchOk(State(), events)
      modifies this`epoll, this`failedAdds, this`posted, this`owned, owned
      ensures Owns() && fresh(owned - old(owned)) && HandlerOk(State())
      ensures State() == HandleBatch(old(State()), events)
      ensures posted == old(posted) + BatchPosts(old(State()), events)
      ensures interruptSeen <==> Interrupt in events
    {
      interruptSeen := false;
      ghost var end, total := HandleBatch(State(), events), posted + BatchPosts(State(), events);
      BatchLeftEnds(State(), posted, events, end, total);
      var i := 0;
      while i < |events|
        invariant 0 <= i <= |events|
        invariant Owns() && fresh(owned - old(owned))
        invariant BatchLeft(State(), posted, events, i, end, total)
        invariant interruptSeen <==> Interrupt in events[..i]
      {
        var interrupt := HandleOneEvent(events, i, end, total);
        interruptSeen := interruptSeen || interrupt;
        OneMoreSeen(events, i, Interrupt);
        i := i + 1;
      }
      BatchLeftEnds(State(), posted, events, end, total);
      AllSeen(events);
    }

    /**
     Handles one batch of events; commands wait until the batch is through.  Every
     event finds its descriptor object alive.
     */
    method HandleEvents(events: seq<Event>, messages: seq<Message>)
      requires Owns() && HandlerOk(State()) && BatchOk(State(), events)
      requires MessagesOk(HandleBatch(State(), events), messages)
      modifies this, owned
      ensures Owns() && fresh(owned - old(owned)) && HandlerOk(State())
      ensures State() == HandleTurn(old(State()), Turn(events, messages))
      ensures posted == old(posted) + TurnPosts(old(State()), Turn(events, messages))
    {
      ghost var told := BatchPosts(State(), events);
      var interruptSeen := HandleAllEvents(events);
      Associate(old(posted), told, if interruptSeen then MessagesPosts(messages) else []);
      if interruptSeen {
        HandleInterruptFd(messages);
      } else {
        assert told + [] == told;
      }
    }
  }
}
