/**
 A descriptor that several ports listen on: a table from ports to entries and a
 circular list of the entries that are ready.  Every method is proved against the
 operation of the same name on the abstract state of `Ports`.
 */
module DescriptorInfos {
  import opened Folding
  import opened Ports
  import opened CircularLists

  /** The event mask 1 << kInEvent. */
  const IN_EVENT := 1

  /** Listeners ask for read events or for nothing. */
  function IsReadingMask(mask: int): bool
    requires mask == IN_EVENT || mask == 0
  {
    mask == IN_EVENT
  }

  class PortEntry {
    const dartPort: Port
    var isReading: bool
    var tokenCount: int

    ghost function State(): PortState
      reads this
    {
      PortState(isReading, tokenCount)
    }

    predicate IsReady()
      reads this
      ensures IsReady() == State().IsReady()
    {
      tokenCount > 0 && isReading
    }

    constructor (port: Port, reading: bool)
      ensures dartPort == port && State() == PortState(reading, TOKEN_COUNT)
    {
      dartPort := port;
      isReading := reading;
      tokenCount := TOKEN_COUNT;
    }
  }

  class DescriptorInfoMultiple {
    const disableTokens: bool
    var tokensMap: map<Port, PortEntry>
    const activeReaders: CircularLinkedList<PortEntry>

    ghost var listeners: Listeners

    /** The port table holds what the abstract state says. */
    ghost predicate TableOk()
      reads this, tokensMap.Values
    {
      var consistent :=
        && tokensMap.Keys == listeners.ports.Keys
        && (forall p {:trigger tokensMap[p].dartPort} :: p in tokensMap ==> tokensMap[p].dartPort == p)
        && (forall p {:trigger tokensMap[p].State()} :: p in tokensMap ==> tokensMap[p].State() == listeners.ports[p]);
      consistent
    }

    /** The circular list holds the entries of the ring, in order. */
    ghost predicate ListOk()
      reads this, activeReaders
    {
      Tracks(activeReaders.nodes, listeners.ring, tokensMap)
    }

    ghost predicate Valid()
      reads this, activeReaders, activeReaders.nodes, tokensMap.Values
    {
      activeReaders.Valid() && TableOk() && ListOk() && ListenersOk(listeners)
    }

    constructor (disableTokens: bool)
      ensures Valid() && this.disableTokens == disableTokens
      ensures fresh(activeReaders) && listeners == Listeners(map[], []) && activeReaders.nodes == []
    {
      this.disableTokens := disableTokens;
      tokensMap := map[];
      activeReaders := new CircularLinkedList<PortEntry>();
      listeners := Listeners(map[], []);
    }

    // ----- the list against the ring -----

    /** Puts a port's entry at the end of the list. */
    method Activate(port: Port, entry: PortEntry)
      requires activeReaders.Valid() && ListOk()
      requires port in tokensMap && tokensMap[port] == entry
      modifies this`listeners, activeReaders, activeReaders.nodes
      ensures activeReaders.Valid() && ListOk()
      ensures listeners == old(listeners).(ring := old(listeners.ring) + [port])
      ensures forall i :: 0 <= i < |activeReaders.nodes| ==>
                activeReaders.nodes[i] in old(activeReaders.nodes) || fresh(activeReaders.nodes[i])
    {
      ghost var nodes := activeReaders.nodes;
      var wasEmpty := activeReaders.Add(entry);
      assert forall i :: 0 <= i < |nodes| ==> activeReaders.nodes[i] == activeReaders.nodes[..|nodes|][i];
      listeners := listeners.(ring := listeners.ring + [port]);
    }

    /** Takes a port's entry off the list. */
    method Deactivate(port: Port, entry: PortEntry)
      requires activeReaders.Valid() && ListOk()
      requires port in tokensMap && tokensMap[port] == entry
      requires forall p {:trigger tokensMap[p].dartPort} :: p in tokensMap ==> tokensMap[p].dartPort == p
      modifies this`listeners, activeReaders, activeReaders.nodes
      ensures activeReaders.Valid() && ListOk()
      ensures listeners == old(listeners).(ring := Without(old(listeners.ring), port))
      ensures forall i :: 0 <= i < |activeReaders.nodes| ==> activeReaders.nodes[i] in old(activeReaders.nodes)
    {
      ghost var ring, nodes := listeners.ring, activeReaders.nodes;
      ghost var k := activeReaders.Remove(entry);
      TracksRemoved(nodes, ring, tokensMap, port, k);
      DroppedWithin(nodes, k);
      listeners := listeners.(ring := Without(ring, port));
    }

    // ----- the table against the abstract ports -----

    /** After a change to one port's entry the table is compared at that port only. */
    twostate lemma EntryChanged(port: Port)
      requires old(TableOk()) && tokensMap == old(tokensMap) && port in tokensMap
      requires listeners.ports == old(listeners.ports)[port := tokensMap[port].State()]
      requires forall e :: e in tokensMap.Values && e != tokensMap[port] ==> unchanged(e)
      ensures TableOk()
    {
      forall p | p in tokensMap ensures tokensMap[p].State() == listeners.ports[p] {
        if p != port {
          assert tokensMap[p].dartPort == p && tokensMap[port].dartPort == port;
          assert tokensMap[p] in tokensMap.Values;
          assert old(tokensMap[p].State()) == old(listeners.ports[p]);
        }
      }
      forall p | p in tokensMap ensures tokensMap[p].dartPort == p {
        assert old(tokensMap[p].dartPort) == p;
      }
    }

    /** A new entry leaves the others as they were. */
    twostate lemma EntryAdded(port: Port)
      requires old(TableOk()) && port in tokensMap && port !in old(tokensMap)
      requires tokensMap == old(tokensMap)[port := tokensMap[port]] && tokensMap[port].dartPort == port
      requires listeners.ports == old(listeners.ports)[port := tokensMap[port].State()]
      requires forall e :: e in old(tokensMap.Values) ==> unchanged(e)
      ensures TableOk()
    {
      forall p | p in tokensMap && p != port
        ensures tokensMap[p].State() == listeners.ports[p] && tokensMap[p].dartPort == p
      {
        assert old(tokensMap[p]) in old(tokensMap.Values);
        assert old(tokensMap[p].State()) == old(listeners.ports[p]) && old(tokensMap[p].dartPort) == p;
      }
    }

    /** Removing an entry leaves the others as they were. */
    twostate lemma EntryRemoved(port: Port)
      requires old(TableOk())
      requires tokensMap == old(tokensMap) - {port} && listeners.ports == old(listeners.ports) - {port}
      requires forall e :: e in old(tokensMap.Values) ==> unchanged(e)
      ensures TableOk()
    {
      forall p | p in tokensMap
        ensures tokensMap[p].State() == listeners.ports[p] && tokensMap[p].dartPort == p
      {
        assert old(tokensMap[p]) in old(tokensMap.Values);
        assert old(tokensMap[p].State()) == old(listeners.ports[p]) && old(tokensMap[p].dartPort) == p;
      }
    }

    /** Gives a registered port a new token count. */
    method SetTokens(port: Port, tokens: int)
      requires TableOk() && port in tokensMap
      modifies this`listeners, tokensMap[port]
      ensures TableOk()
      ensures tokensMap[port].State() == old(tokensMap[port].State()).(tokens := tokens)
      ensures listeners == old(listeners).(ports := old(listeners.ports)[port := tokensMap[port].State()])
    {
      tokensMap[port].tokenCount := tokens;
      listeners := listeners.(ports := listeners.ports[port := tokensMap[port].State()]);
      EntryChanged(port);
    }

    /** Gives a registered port a new interest. */
    method SetReading(port: Port, reading: bool)
      requires TableOk() && port in tokensMap
      modifies this`listeners, tokensMap[port]
      ensures TableOk()
      ensures tokensMap[port].State() == old(tokensMap[port].State()).(reading := reading)
      ensures listeners == old(listeners).(ports := old(listeners.ports)[port := tokensMap[port].State()])
    {
      tokensMap[port].isReading := reading;
      listeners := listeners.(ports := listeners.ports[port := tokensMap[port].State()]);
      EntryChanged(port);
    }

    // ----- the operations -----

    method Register(port: Port, reading: bool)
      requires Valid() && port !in tokensMap
      modifies this`tokensMap, this`listeners, activeReaders, activeReaders.nodes
      ensures Valid()
      ensures listeners == SetPort(old(listeners), port, reading)
      ensures port in tokensMap && tokensMap == old(tokensMap)[port := tokensMap[port]] && fresh(tokensMap[port])
      ensures forall i :: 0 <= i < |activeReaders.nodes| ==>
                activeReaders.nodes[i] in old(activeReaders.nodes) || fresh(activeReaders.nodes[i])
    {
      SetPortOk(listeners, port, reading);
      var pentry := new PortEntry(port, reading);
      tokensMap := tokensMap[port := pentry];
      listeners := listeners.(ports := listeners.ports[port := PortState(reading, TOKEN_COUNT)]);
      EntryAdded(port);
      if pentry.IsReady() {
        Activate(port, pentry);
      }
    }

    /** Changes what a registered port is interested in. */
    method Reregister(port: Port, reading: bool)
      requires Valid() && port in tokensMap
      modifies this`listeners, activeReaders, activeReaders.nodes, tokensMap.Values
      ensures Valid()
      ensures listeners == SetPort(old(listeners), port, reading)
      ensures forall i :: 0 <= i < |activeReaders.nodes| ==>
                activeReaders.nodes[i] in old(activeReaders.nodes) || fresh(activeReaders.nodes[i])
    {
      SetPortOk(listeners, port, reading);
      var pentry := tokensMap[port];
      assert pentry.State() == listeners.ports[port] && pentry in tokensMap.Values;
      var wasReady := pentry.IsReady();
      SetReading(port, reading);
      var isReady := pentry.IsReady();
      FollowReadiness(port, pentry, wasReady, isReady);
    }

    /** An entry joins or leaves the list as it becomes ready or stops being so. */
    method FollowReadiness(port: Port, pentry: PortEntry, wasReady: bool, isReady: bool)
      requires activeReaders.Valid() && ListOk() && port in tokensMap && tokensMap[port] == pentry
      requires forall p {:trigger tokensMap[p].dartPort} :: p in tokensMap ==> tokensMap[p].dartPort == p
      modifies this`listeners, activeReaders, activeReaders.nodes
      ensures activeReaders.Valid() && ListOk()
      ensures var ring := old(listeners.ring);
              listeners == old(listeners).(ring := if wasReady && !isReady then Without(ring, port)
                                                   else if !wasReady && isReady then ring + [port] else ring)
      ensures forall i :: 0 <= i < |activeReaders.nodes| ==>
                activeReaders.nodes[i] in old(activeReaders.nodes) || fresh(activeReaders.nodes[i])
    {
      if wasReady && !isReady {
        Deactivate(port, pentry);
      } else if !wasReady && isReady {
        Activate(port, pentry);
      }
    }

    /** Registers a port, or changes what a registered port is interested in. */
    method SetPortAndMask(port: Port, mask: int)
      requires Valid() && (mask == IN_EVENT || mask == 0)
      modifies this`tokensMap, this`listeners, activeReaders, activeReaders.nodes, tokensMap.Values
      ensures Valid()
      ensures listeners == SetPort(old(listeners), port, IsReadingMask(mask))
      ensures port in tokensMap && tokensMap == old(tokensMap)[port := tokensMap[port]]
      ensures port !in old(tokensMap) ==> fresh(tokensMap[port])
      ensures port in old(tokensMap) ==> tokensMap == old(tokensMap)
      ensures forall i :: 0 <= i < |activeReaders.nodes| ==>
                activeReaders.nodes[i] in old(activeReaders.nodes) || fresh(activeReaders.nodes[i])
    {
      var reading := IsReadingMask(mask);
      if port !in tokensMap {
        Register(port, reading);
      } else {
        Reregister(port, reading);
        assert tokensMap == tokensMap[port := tokensMap[port]];
      }
    }

    /** Forgets a port; a port that was never registered is ignored. */
    method RemovePort(port: Port)
      requires Valid()
      modifies this`tokensMap, this`listeners, activeReaders, activeReaders.nodes
      ensures Valid()
      ensures listeners == Ports.RemovePort(old(listeners), port)
      ensures tokensMap == old(tokensMap) - {port}
      ensures forall i :: 0 <= i < |activeReaders.nodes| ==> activeReaders.nodes[i] in old(activeReaders.nodes)
    {
      if port in tokensMap {
        RemovePortOk(listeners, port);
        var pentry := tokensMap[port];
        assert pentry.State() == listeners.ports[port];
        if pentry.IsReady() {
          Deactivate(port, pentry);
        }
        ghost var table := tokensMap;
        tokensMap := tokensMap - {port};
        listeners := listeners.(ports := listeners.ports - {port});
        EntryRemoved(port);
        TracksFewer(activeReaders.nodes, listeners.ring, table, port);
      }
    }

    method RemoveAllPorts()
      requires Valid()
      modifies this`tokensMap, this`listeners, activeReaders, activeReaders.nodes
      ensures Valid()
      ensures listeners == Listeners(map[], [])
      ensures tokensMap == map[] && activeReaders.nodes == []
    {
      activeReaders.RemoveAll();
      tokensMap := map[];
      listeners := Listeners(map[], []);
    }

    /** The head of the ring leaves or goes to the back. */
    method TurnHead(leaves: bool)
      requires activeReaders.Valid() && ListOk() && listeners.ring != []
      modifies this`listeners, activeReaders, activeReaders.nodes
      ensures activeReaders.Valid() && ListOk()
      ensures var ring := old(listeners.ring);
              listeners == old(listeners).(ring := if leaves then ring[1..] else ring[1..] + [ring[0]])
      ensures forall i :: 0 <= i < |activeReaders.nodes| ==> activeReaders.nodes[i] in old(activeReaders.nodes)
    {
      ghost var ring := listeners.ring;
      if leaves {
        activeReaders.RemoveHead();
        listeners := listeners.(ring := ring[1..]);
      } else {
        activeReaders.Rotate();
        listeners := listeners.(ring := ring[1..] + [ring[0]]);
      }
    }

    /** A port pays one token, unless tokens are disabled. */
    method SpendToken(port: Port, pentry: PortEntry)
      requires TableOk() && port in tokensMap && pentry == tokensMap[port]
      modifies this`listeners, pentry
      ensures TableOk()
      ensures pentry.tokenCount == old(pentry.tokenCount) - (if disableTokens then 0 else 1)
      ensures listeners == old(listeners).(ports := old(listeners.ports)[port := pentry.State()])
      ensures pentry.State() == old(listeners.ports[port]).(tokens := pentry.tokenCount)
    {
      assert pentry.State() == listeners.ports[port];
      if disableTokens {
        assert listeners.ports == listeners.ports[port := pentry.State()];
      } else {
        SetTokens(port, pentry.tokenCount - 1);
      }
    }

    /** The port whose turn it is, or 0; it pays one token and goes to the back. */
    method NextNotifyDartPort() returns (port: Port)
      requires Valid()
      modifies this`listeners, activeReaders, activeReaders.nodes, tokensMap.Values
      ensures old(listeners.ring) != [] ==> old(listeners.ring)[0] in old(listeners.ports)
      ensures Valid()
      ensures (port, listeners) == NextNotify(old(listeners), disableTokens)
      ensures forall i :: 0 <= i < |activeReaders.nodes| ==> activeReaders.nodes[i] in old(activeReaders.nodes)
    {
      NextNotifyOk(listeners, disableTokens);
      if !activeReaders.HasHead() {
        return 0;
      }
      var leaves;
      port, leaves := SpendHead();
      TurnHead(leaves);
    }

    /** The port at the head of the ring pays a token. */
    method SpendHead() returns (port: Port, leaves: bool)
      requires Valid() && listeners.ring != []
      modifies this`listeners, tokensMap.Values
      ensures activeReaders.Valid() && TableOk() && ListOk()
      ensures var (p, after) := NextNotify(old(listeners), disableTokens);
              && port == p && listeners == Listeners(after.ports, old(listeners.ring))
              && after.ring == if leaves then listeners.ring[1..] else listeners.ring[1..] + [listeners.ring[0]]
    {
      var pentry := HeadEntry();
      port := pentry.dartPort;
      SpendToken(port, pentry);
      leaves := pentry.tokenCount <= 0;
      NotifiedHead(old(listeners), disableTokens, pentry.State());
    }

    /** The table entry of the port at the head of the ring. */
    method HeadEntry() returns (pentry: PortEntry)
      requires Valid() && listeners.ring != []
      ensures var port := listeners.ring[0];
              && pentry.dartPort == port && port in tokensMap && pentry == tokensMap[port] && pentry in tokensMap.Values
              && port in listeners.ports && pentry.State() == listeners.ports[port]
    {
      NextNotifyOk(listeners, disableTokens);
      pentry := activeReaders.Head();
      ghost var port := listeners.ring[0];
      assert pentry == tokensMap[port] && tokensMap[port].dartPort == port;
    }

    /** Returns tokens to a registered port. */
    method ReturnTokens(port: Port, count: nat)
      requires Valid() && port in listeners.ports
      modifies this`listeners, activeReaders, activeReaders.nodes, tokensMap.Values
      ensures Valid()
      ensures listeners == Ports.ReturnTokens(old(listeners), port, count, disableTokens)
      ensures forall i :: 0 <= i < |activeReaders.nodes| ==>
                activeReaders.nodes[i] in old(activeReaders.nodes) || fresh(activeReaders.nodes[i])
    {
      ReturnTokensOk(listeners, port, count, disableTokens);
      var pentry := tokensMap[port];
      assert pentry.State() == listeners.ports[port] && pentry in tokensMap.Values;
      var wasReady := pentry.IsReady();
      if !disableTokens {
        SetTokens(port, pentry.tokenCount + count);
      }
      var isReady := pentry.tokenCount > 0 && pentry.IsReady();
      if !wasReady && isReady {
        Activate(port, pentry);
      }
      assert listeners.ports == Ports.ReturnTokens(old(listeners), port, count, disableTokens).ports;
    }

    /** One port of a broadcast pays its token and, out of tokens, leaves the ring. */
    method PayToken(port: Port)
      requires activeReaders.Valid() && TableOk() && ListOk() && port in tokensMap
      modifies this`listeners, activeReaders, activeReaders.nodes, tokensMap.Values
      ensures activeReaders.Valid() && TableOk() && ListOk()
      ensures port in old(listeners.ports)
      ensures var before := old(listeners.ports)[port];
              var after := Spend(before, disableTokens);
              listeners == Listeners(old(listeners.ports)[port := after],
                                     if before.IsReady() && after.tokens <= 0
                                     then Without(old(listeners.ring), port) else old(listeners.ring))
      ensures forall i :: 0 <= i < |activeReaders.nodes| ==> activeReaders.nodes[i] in old(activeReaders.nodes)
    {
      var pentry := tokensMap[port];
      assert pentry.State() == listeners.ports[port] && pentry in tokensMap.Values;
      var wasReady := pentry.IsReady();
      if !disableTokens {
        SetTokens(port, pentry.tokenCount - 1);
      }
      assert listeners.ports == old(listeners.ports)[port := Spend(old(listeners.ports)[port], disableTokens)];
      if wasReady && pentry.tokenCount <= 0 {
        Deactivate(port, pentry);
      }
    }

    /** `Valid`, kept folded. */
    ghost predicate Folded()
      reads this, activeReaders, activeReaders.nodes, tokensMap.Values
    {
      forall level: int {:trigger Look(level)} :: Look(level) && level == PORTS_FOLD ==> Valid()
    }

    method NotifyOne(port: Port, ghost d: Listeners, ghost served: set<Port>)
      requires Folded() && port in tokensMap && port !in served
      requires Reached(listeners, d, served, disableTokens)
      modifies this`listeners, activeReaders, activeReaders.nodes, tokensMap.Values
      ensures Folded()
      ensures Reached(listeners, d, served + {port}, disableTokens)
      ensures forall i :: 0 <= i < |activeReaders.nodes| ==> activeReaders.nodes[i] in old(activeReaders.nodes)
    {
      assert Look(PORTS_FOLD);
      PayToken(port);
      ReachedStep(old(listeners), listeners, d, served, port, disableTokens);
    }

    /** Notifies the table's next port. */
    method NotifyNext(waiting: set<Port>, ghost d: Listeners, ghost served: set<Port>, ghost posted: seq<Port>)
      returns (port: Port)
      requires Folded() && waiting != {} && waiting == tokensMap.Keys - served && served <= tokensMap.Keys
      requires Reached(listeners, d, served, disableTokens) && Collected(posted, served)
      modifies this`listeners, activeReaders, activeReaders.nodes, tokensMap.Values
      ensures Folded() && Reached(listeners, d, served + {port}, disableTokens)
      ensures Collected(posted + [port], served + {port})
      ensures waiting - {port} == tokensMap.Keys - (served + {port}) && served + {port} <= tokensMap.Keys
      ensures |waiting - {port}| < |waiting|
      ensures forall i :: 0 <= i < |activeReaders.nodes| ==> activeReaders.nodes[i] in old(activeReaders.nodes)
    {
      port := FirstOf(waiting);
      CollectedOneMore(posted, served, port);
      ServedOneMore(tokensMap.Keys, served, port);
      NotifyOne(port, d, served);
    }

    /** The loop over the table. */
    method NotifyEach(ghost d: Listeners) returns (posted: seq<Port>)
      requires Folded() && Reached(listeners, d, {}, disableTokens)
      modifies this`listeners, activeReaders, activeReaders.nodes, tokensMap.Values
      ensures Folded() && Reached(listeners, d, tokensMap.Keys, disableTokens)
      ensures forall i :: 0 <= i < |activeReaders.nodes| ==> activeReaders.nodes[i] in old(activeReaders.nodes)
      ensures Collected(posted, tokensMap.Keys)
    {
      posted := [];
      var waiting := tokensMap.Keys;
      ghost var served: set<Port> := {};
      while waiting != {}
        invariant Folded() && waiting == tokensMap.Keys - served && served <= tokensMap.Keys
        invariant Reached(listeners, d, served, disableTokens)
        invariant Collected(posted, served)
        invariant forall i :: 0 <= i < |activeReaders.nodes| ==> activeReaders.nodes[i] in old(activeReaders.nodes)
        decreases |waiting|
      {
        var port := NotifyNext(waiting, d, served, posted);
        posted := posted + [port];
        served := served + {port};
        waiting := waiting - {port};
      }
      assert served == tokensMap.Keys;
    }

    /** Notifies every registered port once, in the order of the table. */
    method NotifyAllDartPorts() returns (posted: seq<Port>)
      requires Valid()
      modifies this`listeners, activeReaders, activeReaders.nodes, tokensMap.Values
      ensures Valid()
      ensures listeners == NotifyAll(old(listeners), disableTokens)
      ensures Enumerates(posted, old(listeners.ports.Keys))
      ensures forall i :: 0 <= i < |activeReaders.nodes| ==> activeReaders.nodes[i] in old(activeReaders.nodes)
    {
      ReachedNone(listeners, disableTokens);
      posted := NotifyEach(listeners);
      assert Look(PORTS_FOLD);
      ReachedAll(listeners, old(listeners), tokensMap.Keys, disableTokens);
    }

    /** The event mask the descriptor is to be watched for. */
    method Mask() returns (mask: int)
      requires Valid()
      ensures mask == if WantsIn(listeners) then IN_EVENT else 0
      ensures mask != 0 <==> exists p :: p in listeners.ports && listeners.ports[p].IsReady()
    {
      WantsInIffSomeReady(listeners);
      mask := if activeReaders.HasHead() then IN_EVENT else 0;
    }
  }

  /** The head has paid, and goes to the back or leaves. */
  lemma NotifiedHead(d: Listeners, disableTokens: bool, after: PortState)
    requires d.ring != [] && d.ring[0] in d.ports
    requires after == d.ports[d.ring[0]].(tokens := d.ports[d.ring[0]].tokens - if disableTokens then 0 else 1)
    ensures NextNotify(d, disableTokens) ==
            (d.ring[0], Listeners(d.ports[d.ring[0] := after],
                                  if after.tokens <= 0 then d.ring[1..] else d.ring[1..] + [d.ring[0]]))
  {
  }

  lemma ServedOneMore(ports: set<Port>, served: set<Port>, port: Port)
    requires served <= ports && port in ports - served
    ensures (ports - served) - {port} == ports - (served + {port}) && served + {port} <= ports
    ensures |(ports - served) - {port}| < |ports - served|
  {
  }

  lemma NoMember(ports: set<Port>)
    ensures ports == {} || exists p :: p in ports
  {
    if !exists p :: p in ports {
      assert forall p :: p in ports <==> p in {};
    }
  }

  /** The table's next entry; which one comes first depends on the hash. */
  method FirstOf(ports: set<Port>) returns (p: Port)
    requires ports != {}
    ensures p in ports
  {
    NoMember(ports);
    p :| p in ports;
  }

  /** The sequence holds exactly the ports of the set, each once. */
  ghost predicate Enumerates(posted: seq<Port>, ports: set<Port>) {
    var complete := NoDuplicates(posted) && forall p :: p in posted <==> p in ports;
    complete
  }

  /** `Enumerates`, kept folded. */
  ghost predicate Collected(posted: seq<Port>, ports: set<Port>) {
    forall level: int {:trigger Look(level)} :: Look(level) && level == PORTS_FOLD ==> Enumerates(posted, ports)
  }

  lemma CollectedOneMore(posted: seq<Port>, ports: set<Port>, p: Port)
    requires Collected(posted, ports) && p !in ports
    ensures Collected(posted + [p], ports + {p})
  {
    assert Look(PORTS_FOLD);
    NoDuplicatesAppend(posted, p);
  }

  /** A broadcast that has reached only the ports in `served`. */
  ghost function Partial(d: Listeners, served: set<Port>, disableTokens: bool): Listeners {
    var ports := map p | p in d.ports :: if p in served then Spend(d.ports[p], disableTokens) else d.ports[p];
    Listeners(ports, Supplied(d.ring, ports))
  }

  lemma {:induction false} SuppliedAll(ring: seq<Port>, ports: map<Port, PortState>)
    requires forall p :: p in ring ==> p in ports && ports[p].tokens > 0
    ensures Supplied(ring, ports) == ring
  {
    if ring == [] {
    } else {
      var first := ring[0];
      assert first in ring && first in ports && ports[first].tokens > 0;
      SuppliedAll(ring[1..], ports);
      assert Supplied(ring, ports) == [ring[0]] + ring[1..];
    }
  }

  /** The state `l` is that of a broadcast from `d` that has reached the ports in `served`. */
  ghost predicate Reached(l: Listeners, d: Listeners, served: set<Port>, disableTokens: bool) {
    forall level: int {:trigger Look(level)} :: Look(level) && level == PORTS_FOLD ==>
      ListenersOk(d) && l == Partial(d, served, disableTokens)
  }

  lemma ReachedNone(d: Listeners, disableTokens: bool)
    requires ListenersOk(d)
    ensures Reached(d, d, {}, disableTokens)
  {
    assert Partial(d, {}, disableTokens).ports == d.ports;
    SuppliedAll(d.ring, d.ports);
  }

  lemma ReachedAll(l: Listeners, d: Listeners, served: set<Port>, disableTokens: bool)
    requires Reached(l, d, served, disableTokens) && served == l.ports.Keys
    ensures l == NotifyAll(d, disableTokens) && l.ports.Keys == d.ports.Keys
  {
    assert Look(PORTS_FOLD);
    assert Partial(d, served, disableTokens).ports == NotifyAll(d, disableTokens).ports;
  }

  lemma ReachedStep(l: Listeners, m: Listeners, d: Listeners, served: set<Port>, p: Port, disableTokens: bool)
    requires Reached(l, d, served, disableTokens) && p in l.ports && p !in served
    requires var after := Spend(l.ports[p], disableTokens);
             m == Listeners(l.ports[p := after],
                            if l.ports[p].IsReady() && after.tokens <= 0 then Without(l.ring, p) else l.ring)
    ensures Reached(m, d, served + {p}, disableTokens) && ListenersOk(m)
  {
    assert Look(PORTS_FOLD);
    PartialStep(d, served, p, disableTokens);
    SuppliedMembers(d.ring, m.ports);
  }

  lemma {:induction false} SuppliedSame(ring: seq<Port>, ports: map<Port, PortState>, p: Port, state: PortState)
    requires p in ports && (p !in ring || (ports[p].tokens > 0 && state.tokens > 0))
    ensures Supplied(ring, ports[p := state]) == Supplied(ring, ports)
  {
    if ring == [] {
    } else {
      SuppliedSame(ring[1..], ports, p, state);
    }
  }

  lemma {:induction false} SuppliedLess(ring: seq<Port>, ports: map<Port, PortState>, p: Port, state: PortState)
    requires NoDuplicates(ring) && p in ring && p in ports && ports[p].tokens > 0 && state.tokens <= 0
    ensures Supplied(ring, ports[p := state]) == Without(Supplied(ring, ports), p)
  {
    NoDuplicatesTail(ring);
    var tail := ring[1..];
    if ring[0] == p {
      SuppliedSame(tail, ports, p, state);
      assert ([p] + Supplied(tail, ports))[1..] == Supplied(tail, ports);
    } else {
      SuppliedLess(tail, ports, p, state);
      var first, rest := ring[0], Supplied(tail, ports);
      assert ports[p := state].Keys == ports.Keys;
      if first in ports && ports[first].tokens > 0 {
        assert Supplied(ring, ports) == [first] + rest;
        assert ([first] + rest)[1..] == rest;
      } else {
        assert Supplied(ring, ports) == [] + rest == rest;
      }
    }
  }

  /** Serving one more port spends its token, and it leaves the ring if that was the last. */
  lemma PartialStep(d: Listeners, served: set<Port>, p: Port, disableTokens: bool)
    requires ListenersOk(d) && p in d.ports && p !in served
    ensures var before, after := Partial(d, served, disableTokens), Partial(d, served + {p}, disableTokens);
            && before.ports[p] == d.ports[p]
            && after.ports == before.ports[p := Spend(d.ports[p], disableTokens)]
            && after.ring == if d.ports[p].IsReady() && Spend(d.ports[p], disableTokens).tokens <= 0
                             then Without(before.ring, p) else before.ring
  {
    var before, after := Partial(d, served, disableTokens), Partial(d, served + {p}, disableTokens);
    assert after.ports == before.ports[p := Spend(d.ports[p], disableTokens)];
    if d.ports[p].IsReady() && Spend(d.ports[p], disableTokens).tokens <= 0 {
      SuppliedLess(d.ring, before.ports, p, Spend(d.ports[p], disableTokens));
    } else {
      SuppliedSame(d.ring, before.ports, p, Spend(d.ports[p], disableTokens));
    }
  }

  /** The nodes hold the entries of the ring's ports, in order. */
  ghost predicate Tracks(nodes: seq<Node<PortEntry>>, ring: seq<Port>, table: map<Port, PortEntry>) {
    var consistent :=
      && |nodes| == |ring|
      && (forall i :: 0 <= i < |ring| ==> ring[i] in table && nodes[i].t == table[ring[i]]);
    consistent
  }

  lemma TracksFewer(nodes: seq<Node<PortEntry>>, ring: seq<Port>, table: map<Port, PortEntry>, p: Port)
    requires Tracks(nodes, ring, table) && p !in ring
    ensures Tracks(nodes, ring, table - {p})
  {
    forall i | 0 <= i < |ring| ensures ring[i] in table - {p} {
      assert ring[i] in ring;
    }
  }

  lemma TracksWithout(nodes: seq<Node<PortEntry>>, ring: seq<Port>, table: map<Port, PortEntry>, k: nat)
    requires Tracks(nodes, ring, table) && k < |ring|
    requires forall i :: 0 <= i < k ==> ring[i] != ring[k]
    ensures Tracks(nodes[..k] + nodes[k + 1..], Without(ring, ring[k]), table)
  {
    WithoutAt(ring, k);
    var rest, left := ring[..k] + ring[k + 1..], nodes[..k] + nodes[k + 1..];
    forall i | 0 <= i < |rest| ensures rest[i] in table && left[i].t == table[rest[i]] {
      var j := if i < k then i else i + 1;
      assert rest[i] == ring[j] && left[i] == nodes[j];
    }
  }

  /** Taking a port's first entry off the list, if it is there. */
  lemma TracksRemoved(nodes: seq<Node<PortEntry>>, ring: seq<Port>, table: map<Port, PortEntry>, port: Port, k: int)
    requires Tracks(nodes, ring, table) && port in table && FirstAt(nodes, table[port], k)
    requires forall p {:trigger table[p].dartPort} :: p in table ==> table[p].dartPort == p
    ensures Tracks(Dropped(nodes, k), Without(ring, port), table)
  {
    if k == -1 {
      WithoutNothing(ring, port);
    } else {
      assert table[ring[k]].dartPort == ring[k] && table[port].dartPort == port;
      TracksWithout(nodes, ring, table, k);
    }
  }

  lemma {:induction false} WithoutAt(ring: seq<Port>, k: nat)
    requires k < |ring| && forall i :: 0 <= i < k ==> ring[i] != ring[k]
    ensures Without(ring, ring[k]) == ring[..k] + ring[k + 1..]
  {
    if k == 0 {
    } else {
      WithoutAt(ring[1..], k - 1);
    }
  }

  lemma {:induction false} WithoutNothing(ring: seq<Port>, p: Port)
    requires forall i :: 0 <= i < |ring| ==> ring[i] != p
    ensures Without(ring, p) == ring
  {
    if ring == [] {
    } else {
      WithoutNothing(ring[1..], p);
    }
  }
}
