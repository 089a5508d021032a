/**
 One isolate's debugger message queue as a protocol between three parties: the
 connection thread that adds commands and asks for interrupts, the VM threads that
 post service messages, and the isolate itself, which runs the message loop while it
 is paused.  Each action below is one step that the queue's monitor makes atomic.
 */
module DebuggerProtocol {

  /** Commands are remembered by what matters here: do they resume the isolate? */
  datatype Command = Command(id: int, resumes: bool)

  type ServiceId = int

  const MAX_INT32: int := 0x7FFF_FFFF

  /** Where the isolate is. */
  datatype Place =
    | Running                     // not in the message loop
    | Checking                    // holds the lock, about to look for service messages
    | Serving                     // has let go of the lock to handle service messages
    | Draining                    // holds the lock, handling queued commands
    | Waiting(notified: bool)     // waits on the monitor

  datatype State = State(
    place: Place,
    queue: seq<Command>,
    isRunning: bool,
    isInterrupted: bool,
    callback: bool,                 // the VM has been asked to call NotifyIsolate
    service: seq<ServiceId>,        // service messages not yet handled
    posted: set<ServiceId>,         // enqueued, the poster has not looked at the callback yet
    calls: set<ServiceId>,          // NotifyIsolate has been decided on but has not run yet
    added: seq<Command>,
    handled: seq<Command>,
    interrupts: nat,                // issued since the loop was last left
    exits: nat)

  const INITIAL: State := State(Running, [], true, false, false, [], {}, {}, [], [], 0, 0)

  /** The isolate holds the queue's lock. */
  predicate Locked(s: State) {
    s.place.Checking? || s.place.Draining?
  }

  datatype Action =
    | AddMessage(command: Command, length: int)
    | InterruptIsolate
    | PostService(id: ServiceId)
    | LookAtCallback(id: ServiceId)
    | NotifyIsolate(id: ServiceId)
    | EnterLoop
    | CheckService
    | Serve(count: nat, resume: bool)
    | HandleOne
    | Wake

  predicate Enabled(s: State, a: Action) {
    match a
    case AddMessage(_, _) => !Locked(s)
    case InterruptIsolate => !Locked(s)
    case PostService(id) => id !in s.service && id !in s.posted && id !in s.calls
    case LookAtCallback(id) => id in s.posted
    case NotifyIsolate(id) => id in s.calls && !Locked(s)
    case EnterLoop => s.place.Running?
    case CheckService => s.place.Checking?
    case Serve(count, _) => s.place.Serving? && count <= |s.service|
    case HandleOne => s.place.Draining?
    case Wake => s.place.Waiting? && s.place.notified
  }

  /** Monitor::Notify */
  function Notified(p: Place): Place {
    if p.Waiting? then Waiting(true) else p
  }

  /** The end of MessageLoop. */
  function Exit(s: State): State {
    s.(place := Running, callback := false, isInterrupted := false, isRunning := true,
       interrupts := 0, exits := s.exits + 1)
  }

  function Next(s: State, a: Action): State
    requires Enabled(s, a)
  {
    match a
    case AddMessage(command, length) =>
      if 0 < length < MAX_INT32 then
        s.(queue := s.queue + [command], added := s.added + [command],
           place := if s.queue == [] then Notified(s.place) else s.place)
      else s
    case InterruptIsolate =>
      if s.isRunning && !s.isInterrupted then s.(isInterrupted := true, interrupts := s.interrupts + 1) else s
    case PostService(id) => s.(service := s.service + [id], posted := s.posted + {id})
    case LookAtCallback(id) =>
      s.(posted := s.posted - {id}, calls := if s.callback then s.calls + {id} else s.calls)
    case NotifyIsolate(id) => s.(calls := s.calls - {id}, place := Notified(s.place))
    case EnterLoop => s.(place := Checking, isRunning := false, callback := true)
    case CheckService => s.(place := if s.service != [] then Serving else Draining)
    case Serve(count, resume) =>
      var after := s.(service := s.service[count..]);
      if resume then Exit(after) else after.(place := Checking)
    case HandleOne =>
      if s.queue == [] then s.(place := Waiting(false))
      else
        var after := s.(queue := s.queue[1..], handled := s.handled + [s.queue[0]]);
        if s.queue[0].resumes then Exit(after) else after
    case Wake => s.(place := Checking)
  }

  // ----- what every step keeps -----

  /** A service message whose poster has still to call NotifyIsolate. */
  predicate CallOutstanding(s: State, id: ServiceId) {
    id in s.posted || id in s.calls
  }

  ghost predicate Invariant(s: State) {
    && (s.isRunning <==> s.place.Running?)
    && (s.callback <==> !s.place.Running?)
    && (s.place == Waiting(false) ==> s.queue == [])
    && (s.place == Waiting(false) || s.place == Draining ==>
          forall id :: id in s.service ==> CallOutstanding(s, id))
    && s.interrupts == (if s.isInterrupted then 1 else 0)
    && s.added == s.handled + s.queue
  }

  lemma NextKeepsInvariant(s: State, a: Action)
    requires Invariant(s) && Enabled(s, a)
    ensures Invariant(Next(s, a))
  {
    match a
    case HandleOne =>
      if s.queue != [] {
        assert s.handled + s.queue == (s.handled + [s.queue[0]]) + s.queue[1..];
      }
    case AddMessage(command, _) =>
      assert (s.handled + s.queue) + [command] == s.handled + (s.queue + [command]);
    case Serve(count, resume) =>
    case _ =>
  }

  /** The i-th action leads from one state to the next. */
  ghost predicate StepOk(states: seq<State>, actions: seq<Action>, i: nat)
    requires i < |actions| < |states|
  {
    Enabled(states[i], actions[i]) && states[i + 1] == Next(states[i], actions[i])
  }

  /** A run of the protocol, in any interleaving. */
  ghost predicate Run(states: seq<State>, actions: seq<Action>) {
    && |states| == |actions| + 1
    && states[0] == INITIAL
    && forall i {:trigger StepOk(states, actions, i)} :: 0 <= i < |actions| ==> StepOk(states, actions, i)
  }

  lemma {:induction false} RunKeepsInvariant(states: seq<State>, actions: seq<Action>, i: nat)
    requires Run(states, actions) && i <= |actions|
    ensures Invariant(states[i])
  {
    if i == 0 {
    } else {
      RunKeepsInvariant(states, actions, i - 1);
      assert StepOk(states, actions, i - 1);
      NextKeepsInvariant(states[i - 1], actions[i - 1]);
    }
  }

  // ----- no lost wakeup -----

  /**
   An isolate that waits and has not been notified has handled every command, and
   whoever posted a service message it has not handled has still to notify it.
   */
  lemma NoLostWakeup(states: seq<State>, actions: seq<Action>, i: nat)
    requires Run(states, actions) && i <= |actions| && states[i].place == Waiting(false)
    ensures states[i].handled == states[i].added
    ensures forall id :: id in states[i].service ==> CallOutstanding(states[i], id)
    ensures states[i].posted == {} && states[i].calls == {} ==> states[i].service == []
  {
    RunKeepsInvariant(states, actions, i);
    var s := states[i];
    assert s.handled + [] == s.handled;
    if s.service != [] {
      var id := s.service[0];
      assert id in s.service && CallOutstanding(s, id);
    }
  }

  /** The outstanding call can be made at once, and it wakes the isolate. */
  lemma OutstandingCallWakes(s: State, id: ServiceId)
    requires Invariant(s) && s.place == Waiting(false) && CallOutstanding(s, id)
    ensures id in s.calls ==> Enabled(s, NotifyIsolate(id)) && Enabled(Next(s, NotifyIsolate(id)), Wake)
    ensures id in s.posted ==>
              && Enabled(s, LookAtCallback(id))
              && var looked := Next(s, LookAtCallback(id));
                 Enabled(looked, NotifyIsolate(id)) && Enabled(Next(looked, NotifyIsolate(id)), Wake)
  {
  }

  // ----- what the history of actions alone says -----

  /** The commands of acceptable length, in the order they came. */
  function Commands(actions: seq<Action>): seq<Command> {
    if actions == [] then []
    else
      var last := actions[|actions| - 1];
      Commands(actions[..|actions| - 1]) +
      if last.AddMessage? && 0 < last.length < MAX_INT32 then [last.command] else []
  }

  /** The service messages, in the order they were posted. */
  function Posted(actions: seq<Action>): seq<ServiceId> {
    if actions == [] then []
    else
      var last := actions[|actions| - 1];
      Posted(actions[..|actions| - 1]) + if last.PostService? then [last.id] else []
  }

  /** How many service messages have been handled. */
  function Served(actions: seq<Action>): nat {
    if actions == [] then 0
    else
      var last := actions[|actions| - 1];
      Served(actions[..|actions| - 1]) + if last.Serve? then last.count else 0
  }

  /** The latest word about a service message is that it was posted. */
  predicate LookDue(actions: seq<Action>, id: ServiceId) {
    actions != [] &&
    var last := actions[|actions| - 1];
    last == PostService(id) || (last != LookAtCallback(id) && LookDue(actions[..|actions| - 1], id))
  }

  /** A poster has looked at the callback while the isolate was in the loop, and has not called since. */
  ghost predicate CallDue(states: seq<State>, actions: seq<Action>, n: nat, id: ServiceId)
    requires n <= |actions| < |states|
  {
    n > 0 && (
    || (actions[n - 1] == LookAtCallback(id) && !states[n - 1].place.Running?)
    || (actions[n - 1] != NotifyIsolate(id) && CallDue(states, actions, n - 1, id)))
  }

  lemma OneMoreAction(actions: seq<Action>, n: nat)
    requires n < |actions|
    ensures actions[..n + 1] != [] && actions[..n + 1][n] == actions[n] && actions[..n + 1][..n] == actions[..n]
  {
  }

  /** In every run commands are handled in the order of the history, and the rest of it is queued. */
  lemma {:induction false} CommandsFollowHistory(states: seq<State>, actions: seq<Action>, i: nat)
    requires Run(states, actions) && i <= |actions|
    ensures states[i].handled + states[i].queue == Commands(actions[..i])
  {
    if i == 0 {
    } else {
      CommandsFollowHistory(states, actions, i - 1);
      OneMoreAction(actions, i - 1);
      assert StepOk(states, actions, i - 1);
      var s, t := states[i - 1], states[i];
      RunKeepsInvariant(states, actions, i - 1);
      RunKeepsInvariant(states, actions, i);
      assert t.added == s.added + Commands(actions[..i])[|Commands(actions[..i - 1])|..];
    }
  }

  lemma DropAndAppend(posted: seq<ServiceId>, served: nat, more: seq<ServiceId>)
    requires served <= |posted|
    ensures (posted + more)[served..] == posted[served..] + more
  {
  }

  lemma DropMore(posted: seq<ServiceId>, served: nat, count: nat)
    requires served + count <= |posted|
    ensures posted[served + count..] == posted[served..][count..]
  {
  }

  lemma ServiceStep(s: State, a: Action)
    requires Enabled(s, a)
    ensures a.Serve? ==> a.count <= |s.service|
    ensures Next(s, a).service == if a.Serve? then s.service[a.count..] else s.service + if a.PostService? then [a.id] else []
  {
  }

  /** In every run service messages are handled in the order in which they were posted. */
  lemma {:induction false} ServiceFollowsHistory(states: seq<State>, actions: seq<Action>, i: nat)
    requires Run(states, actions) && i <= |actions|
    ensures Served(actions[..i]) <= |Posted(actions[..i])|
    ensures states[i].service == Posted(actions[..i])[Served(actions[..i])..]
  {
    if i == 0 {
    } else {
      ServiceFollowsHistory(states, actions, i - 1);
      OneMoreAction(actions, i - 1);
      var a, before := actions[i - 1], actions[..i - 1];
      assert StepOk(states, actions, i - 1);
      ServiceStep(states[i - 1], a);
      if a.Serve? {
        DropMore(Posted(before), Served(before), a.count);
        assert Posted(before) + [] == Posted(before);
      } else {
        DropAndAppend(Posted(before), Served(before), if a.PostService? then [a.id] else []);
      }
    }
  }

  /** In every run the history says whose posters have still to look at the callback, or to call. */
  lemma {:induction false} PostersFollowHistory(states: seq<State>, actions: seq<Action>, i: nat, id: ServiceId)
    requires Run(states, actions) && i <= |actions|
    ensures id in states[i].posted <==> LookDue(actions[..i], id)
    ensures id in states[i].calls <==> CallDue(states, actions, i, id)
  {
    if i == 0 {
    } else {
      PostersFollowHistory(states, actions, i - 1, id);
      OneMoreAction(actions, i - 1);
      RunKeepsInvariant(states, actions, i - 1);
      assert StepOk(states, actions, i - 1);
    }
  }

  /** The isolate leaves the message loop at the i-th action. */
  predicate Leaves(states: seq<State>, i: nat)
    requires i + 1 < |states|
  {
    !states[i].place.Running? && states[i + 1].place.Running?
  }

  /** The i-th action hands the isolate a request to resume: a service message is one, or the next
      command of the history. */
  predicate Resumes(states: seq<State>, actions: seq<Action>, i: nat)
    requires i < |states| && i < |actions|
  {
    match actions[i]
    case Serve(_, resume) => resume
    case HandleOne =>
      var commands, n := Commands(actions[..i]), |states[i].handled|;
      n < |commands| && commands[n].resumes
    case _ => false
  }

  lemma ResumesNext(states: seq<State>, actions: seq<Action>, i: nat)
    requires Run(states, actions) && i < |actions|
    ensures actions[i].HandleOne? ==>
              (Resumes(states, actions, i) <==> states[i].queue != [] && states[i].queue[0].resumes)
  {
    CommandsFollowHistory(states, actions, i);
    var s := states[i];
    assert s.queue != [] ==> (s.handled + s.queue)[|s.handled|] == s.queue[0];
  }

  /** The isolate enters the loop when it asks to, and leaves it exactly on a request to resume. */
  lemma LeavesIff(states: seq<State>, actions: seq<Action>, i: nat)
    requires Run(states, actions) && i < |actions|
    ensures states[i].place.Running? && !states[i + 1].place.Running? <==> actions[i].EnterLoop?
    ensures Leaves(states, i) <==> Resumes(states, actions, i)
    ensures states[i + 1].exits == states[i].exits + if Leaves(states, i) then 1 else 0
  {
    assert StepOk(states, actions, i);
    ResumesNext(states, actions, i);
  }

  /** The isolate starts to wait exactly when it has handled every command of the history, and is
      notified exactly when a command is accepted or a poster calls. */
  lemma WaitsIff(states: seq<State>, actions: seq<Action>, i: nat)
    requires Run(states, actions) && i < |actions|
    ensures !states[i].place.Waiting? && states[i + 1].place.Waiting? <==>
              actions[i].HandleOne? && states[i].handled == Commands(actions[..i])
    ensures states[i].place == Waiting(false) ==>
              (states[i + 1].place == Waiting(true) <==>
                 actions[i].NotifyIsolate? || (actions[i].AddMessage? && 0 < actions[i].length < MAX_INT32))
    ensures states[i].place == Waiting(false) ==> states[i + 1].place.Waiting?
  {
    CommandsFollowHistory(states, actions, i);
    RunKeepsInvariant(states, actions, i);
    assert StepOk(states, actions, i);
    var s := states[i];
    assert s.queue == [] ==> s.handled + s.queue == s.handled;
  }

  // ----- interrupts -----

  /** An interrupt has been asked for since the isolate last left the loop. */
  ghost predicate AskedSinceExit(states: seq<State>, actions: seq<Action>, n: nat)
    requires n <= |actions| < |states|
  {
    n > 0 && !Leaves(states, n - 1) && (actions[n - 1].InterruptIsolate? || AskedSinceExit(states, actions, n - 1))
  }

  lemma {:induction false} InterruptedIffAsked(states: seq<State>, actions: seq<Action>, i: nat)
    requires Run(states, actions) && i <= |actions|
    ensures states[i].place.Running? ==> (states[i].isInterrupted <==> AskedSinceExit(states, actions, i))
  {
    RunKeepsInvariant(states, actions, i);
    if i == 0 {
    } else {
      InterruptedIffAsked(states, actions, i - 1);
      RunKeepsInvariant(states, actions, i - 1);
      assert StepOk(states, actions, i - 1);
    }
  }

  /** In every run an interrupt is issued exactly when one is asked for while the isolate is outside
      the loop, the first time since it last left it; so at most one between two exits. */
  lemma InterruptsAreSparse(states: seq<State>, actions: seq<Action>, i: nat)
    requires Run(states, actions) && i <= |actions|
    ensures states[i].interrupts <= 1
    ensures states[i].place.Running? ==> states[i].interrupts == if AskedSinceExit(states, actions, i) then 1 else 0
    ensures i < |actions| ==>
              (states[i + 1].interrupts == states[i].interrupts + 1 <==>
                 actions[i].InterruptIsolate? && states[i].place.Running? && !AskedSinceExit(states, actions, i))
    ensures i < |actions| && states[i + 1].interrupts < states[i].interrupts ==> Leaves(states, i)
  {
    RunKeepsInvariant(states, actions, i);
    InterruptedIffAsked(states, actions, i);
    if i < |actions| {
      assert StepOk(states, actions, i);
    }
  }

  // ----- a drain is a run of HandleOne steps -----

  /** How many commands a drain handles: up to and including the first that resumes. */
  function DrainLength(queue: seq<Command>): (n: nat)
    ensures n <= |queue|
    ensures forall i :: 0 <= i < n - 1 ==> !queue[i].resumes
    ensures n < |queue| ==> n > 0 && queue[n - 1].resumes
  {
    if queue == [] then 0
    else if queue[0].resumes then 1
    else 1 + DrainLength(queue[1..])
  }

  /** Whether a drain ends with a resume request. */
  predicate DrainResumes(queue: seq<Command>) {
    DrainLength(queue) > 0 && queue[DrainLength(queue) - 1].resumes
  }

  function HandleMany(s: State, n: nat): State
    decreases n
  {
    if n == 0 || !s.place.Draining? then s else HandleMany(Next(s, HandleOne), n - 1)
  }

  lemma OneOffTheFront(handled: seq<Command>, queue: seq<Command>, n: nat)
    requires 0 < n <= |queue|
    ensures handled + queue[..n] == (handled + [queue[0]]) + queue[1..][..n - 1]
    ensures queue[n..] == queue[1..][n - 1..]
  {
    assert queue[..n] == [queue[0]] + queue[1..][..n - 1];
  }

  /** Draining handles exactly the commands up to the first resume, in order, and leaves the loop there. */
  lemma {:induction false} DrainStopsAtResume(s: State)
    requires s.place == Draining
    ensures var n := DrainLength(s.queue);
            var t := HandleMany(s, n);
            && t.handled == s.handled + s.queue[..n]
            && t.queue == s.queue[n..]
            && (if DrainResumes(s.queue) then t.place == Running && t.exits == s.exits + 1
                else t.place == Draining && t.queue == [])
    decreases |s.queue|
  {
    if s.queue != [] {
      var n := DrainLength(s.queue);
      var next := Next(s, HandleOne);
      OneOffTheFront(s.handled, s.queue, n);
      if s.queue[0].resumes {
        assert HandleMany(next, 0) == next;
      } else {
        DrainStopsAtResume(next);
      }
    } else {
      assert s.handled + s.queue[..0] == s.handled;
    }
  }
}
