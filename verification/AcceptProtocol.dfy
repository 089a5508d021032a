/**
 The life of a listening socket on Windows, as a protocol between the Dart threads
 that take accepted connections and the event handler thread that completes accepts,
 obeys commands, and deletes the socket.  Each action is one step that the socket's
 lock makes atomic; the test before deletion takes no lock and is a step of its own.
 */
module AcceptProtocol {
  import opened Wrappers
  import Ports

  type Client = int
  type Port = Ports.Port

  // ----- one socket -----

  datatype Socket = Socket(pending: int, accepted: seq<Client>, closing: bool)

  const FRESH: Socket := Socket(0, [], false)

  /** The system took on one more accept, or did not. */
  function IssueAccept(s: Socket, ok: bool): Socket {
    if ok then s.(pending := s.pending + 1) else s
  }

  /** An accept is done: its connection joins the queue unless it cannot be used. */
  function AcceptComplete(s: Socket, client: Client, usable: bool): Socket {
    s.(accepted := if usable && !s.closing then s.accepted + [client] else s.accepted,
       pending := s.pending - 1)
  }

  /** The oldest accepted connection; an open socket asks for another one. */
  function Accept(s: Socket, ok: bool): (Option<Client>, Socket) {
    var rest := if s.accepted == [] then s else s.(accepted := s.accepted[1..]);
    (if s.accepted == [] then None else Some(s.accepted[0]),
     if s.closing then rest else IssueAccept(rest, ok))
  }

  /** Closing drops every connection that nobody has taken. */
  function Close(s: Socket): Socket {
    if s.closing then s else s.(closing := true, accepted := [])
  }

  predicate IsClosed(s: Socket) {
    s.closing && s.pending <= 0
  }

  // ----- everybody who holds on to it -----

  /** What the event handler thread is about to do with the socket. */
  datatype Thread = Idle | Dispatching | Checking

  datatype State = State(
    socket: Socket,
    deleted: bool,
    users: set<Port>,       // ports that have not closed the socket yet
    inFlight: nat,          // accepts the system will still complete, once each
    thread: Thread,
    starter: bool,          // a thread that failed to start accepting has yet to look again
    issued: nat,
    refused: nat,           // completed accepts whose connection was closed at once
    queued: seq<Client>,    // connections that ever joined the queue
    taken: seq<Client>,     // connections handed to Dart
    dropped: seq<Client>)   // connections closed because nobody took them

  datatype Action =
    | Issue(port: Port, ok: bool)
    | Take(port: Port, ok: bool)
    | Complete(client: Client, usable: bool)
    | Dispatch
    | Command(port: Port)
    | CloseCommand(port: Port)
    | DeleteIfClosed
    | GiveUp(port: Port)
    | DeleteIfNonePending

  /** A socket can be reached by a port that has not closed it, by the completion of an accept,
      and by the event handler thread until it lets go. */
  predicate Enabled(s: State, a: Action) {
    match a
    case Issue(port, _) => port in s.users
    case Take(port, _) => port in s.users
    case Complete(_, _) => s.thread.Idle? && s.inFlight > 0
    case Dispatch => s.thread.Dispatching?
    case Command(port) => s.thread.Idle? && port in s.users
    case CloseCommand(port) => s.thread.Idle? && port in s.users
    case DeleteIfClosed => s.thread.Checking?
    case GiveUp(port) => s.users == {port}
    case DeleteIfNonePending => s.starter
  }

  function Next(s: State, a: Action): State
    requires Enabled(s, a)
  {
    match a
    case Issue(_, ok) =>
      s.(socket := IssueAccept(s.socket, ok),
         inFlight := s.inFlight + (if ok then 1 else 0),
         issued := s.issued + (if ok then 1 else 0))
    case Take(_, ok) =>
      var (client, socket) := Accept(s.socket, ok);
      var more := if ok && !s.socket.closing then 1 else 0;
      s.(socket := socket,
         inFlight := s.inFlight + more,
         issued := s.issued + more,
         taken := if client.Some? then s.taken + [client.value] else s.taken)
    case Complete(client, usable) =>
      var joins := usable && !s.socket.closing;
      s.(socket := AcceptComplete(s.socket, client, usable),
         inFlight := s.inFlight - 1,
         thread := Dispatching,
         queued := if joins then s.queued + [client] else s.queued,
         refused := s.refused + (if joins then 0 else 1))
    case Dispatch =>
      s.(thread := Checking)
    case Command(_) =>
      s.(thread := Checking)
    case CloseCommand(port) =>
      var users := s.users - {port};
      var closes := users == {} && !s.socket.closing;
      s.(users := users,
         thread := Checking,
         socket := if closes then Close(s.socket) else s.socket,
         dropped := if closes then s.dropped + s.socket.accepted else s.dropped)
    case DeleteIfClosed =>
      s.(thread := Idle, deleted := s.deleted || IsClosed(s.socket))
    case GiveUp(_) =>
      s.(users := {}, socket := Close(s.socket), dropped := s.dropped + s.socket.accepted, starter := true)
    case DeleteIfNonePending =>
      s.(starter := false, deleted := s.deleted || s.socket.pending <= 0)
  }

  function Initial(users: set<Port>): State {
    State(FRESH, false, users, 0, Idle, false, 0, 0, [], [], [])
  }

  /** Where a sequence of actions leads, if each is possible in its turn. */
  function Run(s: State, actions: seq<Action>): Option<State>
    decreases |actions|
  {
    if actions == [] then Some(s)
    else if Enabled(s, actions[0]) then Run(Next(s, actions[0]), actions[1..])
    else None
  }

  /** Nobody gave up starting. */
  predicate Started(actions: seq<Action>) {
    forall i :: 0 <= i < |actions| ==> !actions[i].GiveUp?
  }

  // ----- what every step keeps -----

  ghost predicate Invariant(s: State) {
    && s.socket.pending == s.inFlight && !s.starter
    && (s.socket.closing <==> s.users == {})
    && (s.socket.closing ==> s.socket.accepted == [])
    && (s.deleted ==> IsClosed(s.socket) && s.thread.Idle?)
    && (s.thread.Idle? ==> (s.deleted <==> IsClosed(s.socket)))
    && s.issued == s.inFlight + s.refused + |s.queued|
    && s.queued == s.taken + s.dropped + s.socket.accepted
    && (s.dropped != [] ==> s.socket.closing)
  }

  lemma NextKeepsInvariant(s: State, a: Action)
    requires Invariant(s) && Enabled(s, a) && !a.GiveUp?
    ensures Invariant(Next(s, a))
  {
    var n := Next(s, a);
    match a {
      case Take(port, ok) =>
        assert port in s.users;
        assert n.queued == n.taken + n.dropped + n.socket.accepted;
      case Complete(client, usable) =>
        assert n.queued == n.taken + n.dropped + n.socket.accepted;
      case Issue(port, _) => assert port in s.users;
      case Command(port) => assert port in s.users;
      case CloseCommand(port) => assert port in s.users;
      case _ =>
    }
  }

  lemma {:induction false} RunKeepsInvariant(s: State, actions: seq<Action>)
    requires Invariant(s) && Started(actions) && Run(s, actions).Some?
    ensures Invariant(Run(s, actions).value)
    decreases |actions|
  {
    if actions == [] {
    } else {
      NextKeepsInvariant(s, actions[0]);
      RunKeepsInvariant(Next(s, actions[0]), actions[1..]);
    }
  }

  /** In every run the counters are right, connections are handed out in order and none is lost,
      a closed socket keeps none, and it is deleted as soon as the event handler thread has
      let go of it and no accept is in flight. */
  lemma EveryRun(users: set<Port>, actions: seq<Action>)
    requires users != {} && Started(actions) && Run(Initial(users), actions).Some?
    ensures Invariant(Run(Initial(users), actions).value)
  {
    RunKeepsInvariant(Initial(users), actions);
  }

  /** Whatever can still happen, happens to a socket that has not been deleted. */
  lemma DeletedIsOutOfReach(users: set<Port>, actions: seq<Action>, a: Action)
    requires users != {} && Started(actions) && Run(Initial(users), actions).Some?
    requires Enabled(Run(Initial(users), actions).value, a)
    ensures !Run(Initial(users), actions).value.deleted
  {
    EveryRun(users, actions);
  }

  // ----- what the history of actions alone says -----

  function Last(actions: seq<Action>): Action
    requires actions != []
  {
    actions[|actions| - 1]
  }

  function Front(actions: seq<Action>): seq<Action>
    requires actions != []
  {
    actions[..|actions| - 1]
  }

  /** The accepts the system took on: for starting, and for every connection asked for. */
  function TakenOn(actions: seq<Action>): nat {
    if actions == [] then 0
    else TakenOn(Front(actions)) + if (Last(actions).Issue? || Last(actions).Take?) && Last(actions).ok then 1 else 0
  }

  function Completed(actions: seq<Action>): nat {
    if actions == [] then 0 else Completed(Front(actions)) + if Last(actions).Complete? then 1 else 0
  }

  /** The ports that have not closed the socket. */
  function Left(users: set<Port>, actions: seq<Action>): set<Port> {
    if actions == [] then users
    else Left(users, Front(actions)) - if Last(actions).CloseCommand? then {Last(actions).port} else {}
  }

  /** The usable connections that arrived while somebody had the socket open. */
  function Arrived(users: set<Port>, actions: seq<Action>): seq<Client> {
    if actions == [] then []
    else
      var last := Last(actions);
      Arrived(users, Front(actions)) +
      if last.Complete? && last.usable && Left(users, Front(actions)) != {} then [last.client] else []
  }

  /** How many connections have been asked for when there was one. */
  function HandedOut(users: set<Port>, actions: seq<Action>): (n: nat)
    ensures n <= |Arrived(users, actions)|
  {
    if actions == [] then 0
    else
      var before := HandedOut(users, Front(actions));
      if Last(actions).Take? && before < |Arrived(users, Front(actions))| then before + 1 else before
  }

  /** A state is what the history says. */
  ghost predicate Follows(users: set<Port>, actions: seq<Action>, s: State) {
    var arrived, n := Arrived(users, actions), HandedOut(users, actions);
    && s.users == Left(users, actions)
    && s.issued == TakenOn(actions) && s.inFlight + Completed(actions) == TakenOn(actions)
    && s.queued == arrived && s.taken == arrived[..n]
    && (if s.socket.closing then s.dropped == arrived[n..] else s.dropped == [] && s.socket.accepted == arrived[n..])
  }

  /** The last of several actions. */
  lemma {:induction false} RunLast(s: State, actions: seq<Action>)
    requires actions != [] && Run(s, actions).Some?
    ensures Run(s, Front(actions)).Some? && Enabled(Run(s, Front(actions)).value, Last(actions))
    ensures Run(s, actions).value == Next(Run(s, Front(actions)).value, Last(actions))
    decreases |actions|
  {
    if |actions| == 1 {
      assert Front(actions) == [] && actions[1..] == [];
    } else {
      RunLast(Next(s, actions[0]), actions[1..]);
      assert Front(actions)[1..] == Front(actions[1..]);
    }
  }

  lemma FollowsTake(users: set<Port>, actions: seq<Action>, s: State)
    requires actions != [] && Follows(users, Front(actions), s) && Invariant(s)
    requires Enabled(s, Last(actions)) && Last(actions).Take?
    ensures Follows(users, actions, Next(s, Last(actions)))
  {
    assert Last(actions).port in s.users;
    var arrived, n := Arrived(users, Front(actions)), HandedOut(users, Front(actions));
    assert Arrived(users, actions) == arrived;
    if n < |arrived| {
      assert arrived[..n + 1] == arrived[..n] + [arrived[n]] && arrived[n..][1..] == arrived[n + 1..];
    }
  }

  lemma FollowsComplete(users: set<Port>, actions: seq<Action>, s: State)
    requires actions != [] && Follows(users, Front(actions), s) && Invariant(s)
    requires Enabled(s, Last(actions)) && Last(actions).Complete?
    ensures Follows(users, actions, Next(s, Last(actions)))
  {
    var arrived, n := Arrived(users, Front(actions)), HandedOut(users, Front(actions));
    var more := Arrived(users, actions)[|arrived|..];
    assert Arrived(users, actions) == arrived + more;
    assert (arrived + more)[..n] == arrived[..n] && (arrived + more)[n..] == arrived[n..] + more;
  }

  lemma FollowsOther(users: set<Port>, actions: seq<Action>, s: State)
    requires actions != [] && Follows(users, Front(actions), s) && Invariant(s)
    requires Enabled(s, Last(actions))
    requires !Last(actions).Take? && !Last(actions).Complete? && !Last(actions).GiveUp?
    ensures Follows(users, actions, Next(s, Last(actions)))
  {
    assert Arrived(users, actions) == Arrived(users, Front(actions));
    if Last(actions).Issue? || Last(actions).CloseCommand? {
      assert Last(actions).port in s.users;
    }
  }

  lemma FollowsOneMore(users: set<Port>, actions: seq<Action>, s: State)
    requires actions != [] && Follows(users, Front(actions), s) && Invariant(s)
    requires Enabled(s, Last(actions)) && !Last(actions).GiveUp?
    ensures Follows(users, actions, Next(s, Last(actions)))
  {
    match Last(actions)
    case Take(_, _) => FollowsTake(users, actions, s);
    case Complete(_, _) => FollowsComplete(users, actions, s);
    case _ => FollowsOther(users, actions, s);
  }

  /** In every run: how many accepts are in flight, who has the socket open, and which connections
      arrived, were handed out, wait or were dropped is what the history says. */
  lemma {:induction false} RunFollowsHistory(users: set<Port>, actions: seq<Action>)
    requires users != {} && Started(actions) && Run(Initial(users), actions).Some?
    ensures Follows(users, actions, Run(Initial(users), actions).value)
    ensures Run(Initial(users), actions).value.socket.closing <==> Left(users, actions) == {}
    decreases |actions|
  {
    EveryRun(users, actions);
    if actions == [] {
    } else {
      RunLast(Initial(users), actions);
      RunFollowsHistory(users, Front(actions));
      EveryRun(users, Front(actions));
      FollowsOneMore(users, actions, Run(Initial(users), Front(actions)).value);
    }
  }

  // ----- giving up -----

  /** Some run from here has a thread look at a socket that has been deleted. */
  ghost predicate MayTouchDeleted(s: State) {
    exists more, a :: Run(s, more).Some? && Run(s, more).value.deleted && Enabled(Run(s, more).value, a)
  }

  /** The event handler thread finishes what it is doing and then every accept in flight. */
  function Finishing(thread: Thread, inFlight: nat): seq<Action>
    decreases inFlight, if thread.Idle? then 0 else if thread.Checking? then 1 else 2
  {
    match thread
    case Dispatching => [Dispatch] + Finishing(Checking, inFlight)
    case Checking => [DeleteIfClosed] + Finishing(Idle, inFlight)
    case Idle => if inFlight == 0 then [] else [Complete(0, true)] + Finishing(Dispatching, inFlight - 1)
  }

  /** Left alone, the event handler thread deletes a closing socket. */
  lemma {:induction false} FinishingDeletes(s: State)
    requires s.socket.closing && s.socket.pending == s.inFlight && (s.inFlight > 0 || !s.thread.Idle?)
    ensures var end := Run(s, Finishing(s.thread, s.inFlight));
            end.Some? && end.value.deleted && end.value.starter == s.starter
    decreases s.inFlight, if s.thread.Idle? then 0 else if s.thread.Checking? then 1 else 2
  {
    var actions := Finishing(s.thread, s.inFlight);
    var next := Next(s, actions[0]);
    assert actions[1..] == Finishing(next.thread, next.inFlight);
    if next.inFlight > 0 || !next.thread.Idle? {
      FinishingDeletes(next);
    }
  }

  lemma RunOne(s: State, a: Action, rest: seq<Action>)
    requires Enabled(s, a)
    ensures Run(s, [a] + rest) == Run(Next(s, a), rest)
  {
    assert ([a] + rest)[1..] == rest;
  }

  /** An accept that completes after the start gave up has the socket deleted before the starter looks. */
  lemma LateCompletionDeletes(s: State)
    requires s.thread.Idle? && s.inFlight == 1 && s.socket.pending == 1 && s.starter && s.socket.closing
    ensures var end := Run(s, [Complete(0, true), Dispatch, DeleteIfClosed]);
            end.Some? && end.value.deleted && Enabled(end.value, DeleteIfNonePending)
  {
    var completed := Next(s, Complete(0, true));
    var dispatched := Next(completed, Dispatch);
    RunOne(s, Complete(0, true), [Dispatch, DeleteIfClosed]);
    RunOne(completed, Dispatch, [DeleteIfClosed]);
    RunOne(dispatched, DeleteIfClosed, []);
    assert [Complete(0, true)] + [Dispatch, DeleteIfClosed] == [Complete(0, true), Dispatch, DeleteIfClosed];
    assert [Dispatch] + [DeleteIfClosed] == [Dispatch, DeleteIfClosed];
    assert [DeleteIfClosed] + [] == [DeleteIfClosed];
  }

  /** The failing case: an accept is in flight when the start is given up; its completion deletes
      the socket, and the starter still has to look at it. */
  lemma GivingUpTooEarly()
    ensures var end := Run(Initial({1}), [Issue(1, true), GiveUp(1), Complete(0, true), Dispatch, DeleteIfClosed]);
            end.Some? && end.value.deleted && Enabled(end.value, DeleteIfNonePending)
  {
    var start := Initial({1});
    var issued := Next(start, Issue(1, true));
    var gaveUp := Next(issued, GiveUp(1));
    var late := [Complete(0, true), Dispatch, DeleteIfClosed];
    RunOne(start, Issue(1, true), [GiveUp(1)] + late);
    RunOne(issued, GiveUp(1), late);
    assert [Issue(1, true)] + ([GiveUp(1)] + late) == [Issue(1, true), GiveUp(1), Complete(0, true), Dispatch, DeleteIfClosed];
    LateCompletionDeletes(gaveUp);
  }

  /** Giving up is safe exactly when nothing is in flight and the event handler thread is handling
      neither a completion nor a command for the socket. */
  lemma GivingUpIsSafeIff(users: set<Port>, actions: seq<Action>, port: Port)
    requires users != {} && Started(actions) && Run(Initial(users), actions).Some?
    requires Enabled(Run(Initial(users), actions).value, GiveUp(port))
    ensures var s := Run(Initial(users), actions).value;
            MayTouchDeleted(Next(s, GiveUp(port))) <==> s.inFlight > 0 || !s.thread.Idle?
  {
    EveryRun(users, actions);
    var s := Run(Initial(users), actions).value;
    assert port in s.users;
    var t := Next(s, GiveUp(port));
    if s.inFlight > 0 || !s.thread.Idle? {
      FinishingDeletes(t);
      var more := Finishing(t.thread, t.inFlight);
      assert Enabled(Run(t, more).value, DeleteIfNonePending);
    } else {
      forall more, a | Run(t, more).Some? && Enabled(Run(t, more).value, a)
        ensures !Run(t, more).value.deleted
      {
        OnlyTheStarterLooks(t, more);
      }
    }
  }

  lemma NothingLeft(s: State, more: seq<Action>)
    requires (forall a :: !Enabled(s, a)) && Run(s, more).Some?
    ensures more == []
  {
  }

  lemma OnlyTheStarterLooks(t: State, more: seq<Action>)
    requires t.users == {} && t.inFlight == 0 && t.thread.Idle? && t.starter && !t.deleted
    requires Run(t, more).Some?
    ensures more == [] || (forall a :: !Enabled(Run(t, more).value, a))
  {
    if more != [] {
      NothingLeft(Next(t, more[0]), more[1..]);
    }
  }
}
