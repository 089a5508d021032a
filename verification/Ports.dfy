/**
 Flow control of one descriptor that several ports listen on: which ports are
 registered, how many tokens each has left, and in which order the ready ones
 take turns.  This is the abstract state; `DescriptorInfo` implements it.
 */
module Ports {

  type Port = int

  const TOKEN_COUNT: nat := 4

  datatype PortState = PortState(reading: bool, tokens: int) {
    predicate IsReady() {
      tokens > 0 && reading
    }
  }

  /** `ring` lists the ready ports, the next one to be notified first. */
  datatype Listeners = Listeners(ports: map<Port, PortState>, ring: seq<Port>)

  predicate NoDuplicates(ring: seq<Port>) {
    forall i, j :: 0 <= i < j < |ring| ==> ring[i] != ring[j]
  }

  /** The ring holds exactly the ready ports, each once. */
  ghost predicate ListenersOk(d: Listeners) {
    // Naming the conjunction lets the verifier carry it around as one fact.
    var inStep := NoDuplicates(d.ring) && forall p :: p in d.ring <==> p in d.ports && d.ports[p].IsReady();
    inStep
  }

  // ----- operations -----

  function Without(ring: seq<Port>, p: Port): seq<Port> {
    if ring == [] then []
    else if ring[0] == p then ring[1..]
    else [ring[0]] + Without(ring[1..], p)
  }

  function SetPort(d: Listeners, p: Port, reading: bool): Listeners {
    if p !in d.ports then
      var state := PortState(reading, TOKEN_COUNT);
      Listeners(d.ports[p := state], if state.IsReady() then d.ring + [p] else d.ring)
    else
      var before, after := d.ports[p], d.ports[p].(reading := reading);
      Listeners(d.ports[p := after],
                if before.IsReady() && !after.IsReady() then Without(d.ring, p)
                else if !before.IsReady() && after.IsReady() then d.ring + [p]
                else d.ring)
  }

  function RemovePort(d: Listeners, p: Port): Listeners {
    if p !in d.ports then d
    else Listeners(d.ports - {p}, if d.ports[p].IsReady() then Without(d.ring, p) else d.ring)
  }

  function Spend(state: PortState, disableTokens: bool): PortState {
    if disableTokens then state else state.(tokens := state.tokens - 1)
  }

  /** The port to notify, or 0 if none is ready, and the state afterwards. */
  function NextNotify(d: Listeners, disableTokens: bool): (Port, Listeners) {
    if d.ring == [] || d.ring[0] !in d.ports then (0, d)
    else
      var p := d.ring[0];
      var after := Spend(d.ports[p], disableTokens);
      (p, Listeners(d.ports[p := after],
                    if after.tokens <= 0 then d.ring[1..] else d.ring[1..] + [p]))
  }

  /** The ports of a ring that still have tokens. */
  function Supplied(ring: seq<Port>, ports: map<Port, PortState>): seq<Port> {
    if ring == [] then []
    else (if ring[0] in ports && ports[ring[0]].tokens > 0 then [ring[0]] else []) + Supplied(ring[1..], ports)
  }

  /** Every registered port is notified, whether ready or not. */
  function NotifyAll(d: Listeners, disableTokens: bool): Listeners {
    var after := map p | p in d.ports :: Spend(d.ports[p], disableTokens);
    Listeners(after, Supplied(d.ring, after))
  }

  function ReturnTokens(d: Listeners, p: Port, count: int, disableTokens: bool): Listeners
    requires p in d.ports
  {
    var before := d.ports[p];
    var after := if disableTokens then before else before.(tokens := before.tokens + count);
    Listeners(d.ports[p := after], if !before.IsReady() && after.IsReady() then d.ring + [p] else d.ring)
  }

  /** Whether the descriptor is to be watched for reading. */
  predicate WantsIn(d: Listeners) {
    d.ring != []
  }

  // ----- every operation keeps the ring in step with the port table -----

  lemma NoDuplicatesCons(p: Port, ring: seq<Port>)
    requires NoDuplicates(ring) && p !in ring
    ensures NoDuplicates([p] + ring)
  {
    assert forall i :: 0 < i < |[p] + ring| ==> ([p] + ring)[i] == ring[i - 1];
  }

  lemma {:induction false} WithoutMembers(ring: seq<Port>, p: Port)
    requires NoDuplicates(ring)
    ensures NoDuplicates(Without(ring, p))
    ensures forall q :: q in Without(ring, p) <==> q in ring && q != p
  {
    if ring == [] {
    } else {
      var tail := ring[1..];
      WithoutMembers(tail, p);
      assert forall q :: q in ring <==> q == ring[0] || q in tail;
      NoDuplicatesCons(ring[0], Without(tail, p));
    }
  }

  lemma {:induction false} SuppliedMembers(ring: seq<Port>, ports: map<Port, PortState>)
    requires NoDuplicates(ring)
    ensures NoDuplicates(Supplied(ring, ports))
    ensures forall q :: q in Supplied(ring, ports) <==> q in ring && q in ports && ports[q].tokens > 0
  {
    if ring == [] {
    } else {
      var tail := ring[1..];
      SuppliedMembers(tail, ports);
      assert forall q :: q in ring <==> q == ring[0] || q in tail;
    }
  }

  lemma EmptyOrHasMember(ring: seq<Port>)
    ensures ring == [] || exists p :: p in ring
  {
    if ring != [] {
      var p := ring[0];
      assert p in ring;
    }
  }

  lemma NoDuplicatesAppend(ring: seq<Port>, p: Port)
    requires NoDuplicates(ring) && p !in ring
    ensures NoDuplicates(ring + [p])
    ensures forall q :: q in ring + [p] <==> q in ring || q == p
  {
  }

  lemma NoDuplicatesTail(ring: seq<Port>)
    requires NoDuplicates(ring) && ring != []
    ensures NoDuplicates(ring[1..]) && ring[0] !in ring[1..]
    ensures forall q :: q in ring[1..] <==> q in ring && q != ring[0]
  {
    assert forall q :: q in ring <==> q == ring[0] || q in ring[1..];
  }

  lemma SetPortOk(d: Listeners, p: Port, reading: bool)
    requires ListenersOk(d)
    ensures ListenersOk(SetPort(d, p, reading))
  {
    WithoutMembers(d.ring, p);
    if p !in d.ring {
      NoDuplicatesAppend(d.ring, p);
    }
  }

  lemma RemovePortOk(d: Listeners, p: Port)
    requires ListenersOk(d)
    ensures ListenersOk(RemovePort(d, p))
  {
    WithoutMembers(d.ring, p);
  }

  lemma NextNotifyOk(d: Listeners, disableTokens: bool)
    requires ListenersOk(d)
    ensures d.ring != [] ==> d.ring[0] in d.ports
    ensures ListenersOk(NextNotify(d, disableTokens).1)
  {
    if d.ring != [] {
      assert d.ring[0] in d.ring;
      NoDuplicatesTail(d.ring);
      NoDuplicatesAppend(d.ring[1..], d.ring[0]);
    }
  }

  lemma NotifyAllOk(d: Listeners, disableTokens: bool)
    requires ListenersOk(d)
    ensures ListenersOk(NotifyAll(d, disableTokens))
  {
    SuppliedMembers(d.ring, NotifyAll(d, disableTokens).ports);
  }

  lemma ReturnTokensOk(d: Listeners, p: Port, count: int, disableTokens: bool)
    requires ListenersOk(d) && p in d.ports && count >= 0
    ensures ListenersOk(ReturnTokens(d, p, count, disableTokens))
  {
    if p !in d.ring {
      NoDuplicatesAppend(d.ring, p);
    }
  }

  /** Asking for read events is the union of what the ready ports ask for. */
  lemma WantsInIffSomeReady(d: Listeners)
    requires ListenersOk(d)
    ensures WantsIn(d) <==> exists p :: p in d.ports && d.ports[p].IsReady()
  {
    if d.ring != [] {
      var p := d.ring[0];
      assert p in d.ring && p in d.ports && d.ports[p].IsReady();
    }
  }

  // ----- taking turns -----

  /** `n` notifications in a row: the ports notified and the state afterwards. */
  function Rounds(d: Listeners, n: nat, disableTokens: bool): (seq<Port>, Listeners)
    decreases n
  {
    if n == 0 then ([], d)
    else
      var (p, after) := NextNotify(d, disableTokens);
      var (posted, final) := Rounds(after, n - 1, disableTokens);
      ([p] + posted, final)
  }

  lemma FirstThenRest(ring: seq<Port>, turned: seq<Port>, n: nat)
    requires 0 < n <= |ring| && ring[1..] <= turned
    ensures [ring[0]] + turned[..n - 1] == ring[..n]
  {
    assert turned[..n - 1] == ring[1..][..n - 1];
  }

  lemma NextNotifyTurns(d: Listeners, disableTokens: bool)
    requires ListenersOk(d) && d.ring != []
    ensures var (p, after) := NextNotify(d, disableTokens); p == d.ring[0] && d.ring[1..] <= after.ring
  {
    assert d.ring[0] in d.ring;
  }

  /** The first round notifies every ready port once, in ring order. */
  lemma {:induction false} RoundRobin(d: Listeners, n: nat, disableTokens: bool)
    requires ListenersOk(d) && n <= |d.ring|
    ensures Rounds(d, n, disableTokens).0 == d.ring[..n]
    decreases n
  {
    if n == 0 {
    } else {
      RoundsStep(d, n, disableTokens);
      NextNotifyOk(d, disableTokens);
      var after := NextNotify(d, disableTokens).1;
      NextNotifyTurns(d, disableTokens);
      RoundRobin(after, n - 1, disableTokens);
      FirstThenRest(d.ring, after.ring, n);
    }
  }

  lemma TurnOnce(ring: seq<Port>, turned: seq<Port>, n: nat)
    requires 0 < n <= |ring| && turned == ring[1..] + [ring[0]]
    ensures turned[n - 1..] + turned[..n - 1] == ring[n..] + ring[..n]
  {
    assert turned[n - 1..] == ring[n..] + [ring[0]];
    assert turned[..n - 1] == ring[1..n];
    assert ring[..n] == [ring[0]] + ring[1..n];
  }

  /** Without tokens the ring only turns: after a full round it is as it was. */
  lemma {:induction false} TurnsRing(d: Listeners, n: nat)
    requires ListenersOk(d) && n <= |d.ring|
    ensures Rounds(d, n, true).1.ring == d.ring[n..] + d.ring[..n]
    decreases n
  {
    if n == 0 {
    } else {
      RoundsStep(d, n, true);
      NextNotifyOk(d, true);
      var after := NextNotify(d, true).1;
      var first := d.ring[0];
      assert first in d.ring && d.ports[first].tokens > 0;
      TurnsRing(after, n - 1);
      TurnOnce(d.ring, after.ring, n);
    }
  }

  // ----- tokens -----

  /** The notifications that the ready ports can still take. */
  function Supply(ring: seq<Port>, ports: map<Port, PortState>): int {
    if ring == [] then 0
    else (if ring[0] in ports then ports[ring[0]].tokens else 0) + Supply(ring[1..], ports)
  }

  lemma {:induction false} SupplyAppend(ring: seq<Port>, p: Port, ports: map<Port, PortState>)
    requires p in ports
    ensures Supply(ring + [p], ports) == Supply(ring, ports) + ports[p].tokens
  {
    if ring == [] {
      assert ring + [p] == [p];
    } else {
      assert (ring + [p])[1..] == ring[1..] + [p];
      SupplyAppend(ring[1..], p, ports);
    }
  }

  lemma {:induction false} SupplyElsewhere(ring: seq<Port>, p: Port, state: PortState, ports: map<Port, PortState>)
    requires p !in ring
    ensures Supply(ring, ports[p := state]) == Supply(ring, ports)
  {
    if ring == [] {
    } else {
      SupplyElsewhere(ring[1..], p, state, ports);
    }
  }

  lemma {:induction false} SupplyPositive(ring: seq<Port>, ports: map<Port, PortState>)
    requires forall p :: p in ring ==> p in ports && ports[p].tokens > 0
    ensures Supply(ring, ports) >= |ring|
  {
    if ring == [] {
    } else {
      var p := ring[0];
      assert p in ring;
      assert Supply(ring, ports) == ports[p].tokens + Supply(ring[1..], ports);
      SupplyPositive(ring[1..], ports);
    }
  }

  /** A notification takes exactly one token out of the supply. */
  lemma NextNotifySpends(d: Listeners)
    requires ListenersOk(d) && d.ring != []
    ensures d.ring[0] in d.ports
    ensures var after := NextNotify(d, false).1; Supply(after.ring, after.ports) == Supply(d.ring, d.ports) - 1
  {
    NextNotifyOk(d, false);
    NoDuplicatesTail(d.ring);
    var p := d.ring[0];
    assert p in d.ring;
    var state := Spend(d.ports[p], false);
    SupplyElsewhere(d.ring[1..], p, state, d.ports);
    SupplyAppend(d.ring[1..], p, d.ports[p := state]);
  }

  function TokensOf(d: Listeners, p: Port): int {
    if p in d.ring && p in d.ports then d.ports[p].tokens else 0
  }

  /** The notified port has one token less to spend, the others as many as before. */
  lemma NotifiedPays(d: Listeners, p: Port)
    requires ListenersOk(d) && d.ring != []
    ensures d.ring[0] in d.ports
    ensures var (q, after) := NextNotify(d, false);
            && after.ports.Keys == d.ports.Keys
            && TokensOf(after, p) == TokensOf(d, p) - if p == q then 1 else 0
  {
    NextNotifyOk(d, false);
    NoDuplicatesTail(d.ring);
    var (q, after) := NextNotify(d, false);
    assert q in d.ring;
    if p != q {
      assert p in after.ring <==> p in d.ring;
    }
  }

  /** The first of several notifications, and the rest. */
  lemma RoundsStep(d: Listeners, n: nat, disableTokens: bool)
    requires n > 0
    ensures var (q, after) := NextNotify(d, disableTokens);
            && Rounds(d, n, disableTokens).0 == [q] + Rounds(after, n - 1, disableTokens).0
            && Rounds(d, n, disableTokens).1 == Rounds(after, n - 1, disableTokens).1
  {
  }

  lemma WantsInIffSupplied(d: Listeners)
    requires ListenersOk(d)
    ensures WantsIn(d) <==> Supply(d.ring, d.ports) > 0
  {
    SupplyPositive(d.ring, d.ports);
  }

  /**
   Exactly as many calls as the ready ports have tokens find a port before the
   descriptor is no longer watched.
   */
  lemma {:induction false} SupplyRunsOut(d: Listeners, n: nat)
    requires ListenersOk(d) && n <= Supply(d.ring, d.ports)
    ensures var final := Rounds(d, n, false).1;
            && Supply(final.ring, final.ports) == Supply(d.ring, d.ports) - n
            && (WantsIn(final) <==> n < Supply(d.ring, d.ports))
    decreases n
  {
    WantsInIffSupplied(d);
    if n == 0 {
    } else {
      RoundsStep(d, n, false);
      NextNotifyOk(d, false);
      NextNotifySpends(d);
      SupplyRunsOut(NextNotify(d, false).1, n - 1);
    }
  }

  function Times(posted: seq<Port>, p: Port): nat {
    if posted == [] then 0 else (if posted[0] == p then 1 else 0) + Times(posted[1..], p)
  }

  /** By the time the supply has run out, each port was notified as often as it had tokens. */
  lemma {:induction false} EveryTokenNotifies(d: Listeners, n: nat, p: Port)
    requires ListenersOk(d) && n <= Supply(d.ring, d.ports)
    ensures var (posted, final) := Rounds(d, n, false);
            Times(posted, p) + TokensOf(final, p) == TokensOf(d, p)
    decreases n
  {
    if n == 0 {
    } else {
      WantsInIffSupplied(d);
      RoundsStep(d, n, false);
      NextNotifyOk(d, false);
      NextNotifySpends(d);
      NotifiedPays(d, p);
      var (q, after) := NextNotify(d, false);
      EveryTokenNotifies(after, n - 1, p);
      var posted := Rounds(after, n - 1, false).0;
      assert ([q] + posted)[1..] == posted;
    }
  }

  // ----- conservation of tokens over a whole run -----

  datatype Operation =
    | OpSetPort(port: Port, reading: bool)
    | OpRemovePort(port: Port)
    | OpRemoveAllPorts
    | OpNextNotify
    | OpNotifyAll
    | OpReturnTokens(port: Port, count: nat)

  /** The state with a count, per registered port, of notifications and returned tokens. */
  datatype Account = Account(d: Listeners, posted: map<Port, nat>, returned: map<Port, nat>)

  function Count(counts: map<Port, nat>, p: Port): nat {
    if p in counts then counts[p] else 0
  }

  /** Tokens are returned only by registered ports; a faithful client returns only what it got. */
  predicate Allowed(a: Account, op: Operation) {
    op.OpReturnTokens? ==>
      op.port in a.d.ports && Count(a.returned, op.port) + op.count <= Count(a.posted, op.port)
  }

  /** One operation, with tokens enabled. */
  ghost function Perform(a: Account, op: Operation): Account
    requires ListenersOk(a.d) && Allowed(a, op)
  {
    match op
    case OpSetPort(p, reading) =>
      if p in a.d.ports then a.(d := SetPort(a.d, p, reading))
      else Account(SetPort(a.d, p, reading), a.posted[p := 0], a.returned[p := 0])
    case OpRemovePort(p) => a.(d := RemovePort(a.d, p))
    case OpRemoveAllPorts => a.(d := Listeners(map[], []))
    case OpNextNotify =>
      NextNotifyOk(a.d, false);
      var (p, after) := NextNotify(a.d, false);
      if a.d.ring == [] then a else a.(d := after, posted := a.posted[p := Count(a.posted, p) + 1])
    case OpNotifyAll =>
      a.(d := NotifyAll(a.d, false), posted := map p | p in a.d.ports :: Count(a.posted, p) + 1)
    case OpReturnTokens(p, count) =>
      Account(ReturnTokens(a.d, p, count, false), a.posted, a.returned[p := Count(a.returned, p) + count])
  }

  /** Every registered port's tokens are what it started with, less posted, plus returned. */
  ghost predicate Balanced(a: Account) {
    && ListenersOk(a.d)
    && forall p :: p in a.d.ports ==>
         && a.d.ports[p].tokens == TOKEN_COUNT - Count(a.posted, p) + Count(a.returned, p)
         && Count(a.returned, p) <= Count(a.posted, p)
  }

  lemma PerformBalances(a: Account, op: Operation)
    requires Balanced(a) && Allowed(a, op)
    ensures Balanced(Perform(a, op))
    ensures op.OpNextNotify? ==> forall p :: p in a.d.ring ==> Perform(a, op).d.ports[p].tokens >= 0
  {
    match op
    case OpSetPort(p, reading) => SetPortOk(a.d, p, reading);
    case OpRemovePort(p) => RemovePortOk(a.d, p);
    case OpRemoveAllPorts =>
    case OpNextNotify => NextNotifyOk(a.d, false);
    case OpNotifyAll => NotifyAllOk(a.d, false);
    case OpReturnTokens(p, count) => ReturnTokensOk(a.d, p, count, false);
  }

  /** A run: each state leads to the next by an allowed operation. */
  ghost predicate Run(states: seq<Account>, ops: seq<Operation>) {
    && |states| == |ops| + 1
    && states[0] == Account(Listeners(map[], []), map[], map[])
    && forall i :: 0 <= i < |ops| ==>
         ListenersOk(states[i].d) && Allowed(states[i], ops[i]) && states[i + 1] == Perform(states[i], ops[i])
  }

  /** In every state of every run the books balance, so no port ever exceeds its tokens. */
  lemma {:induction false} RunBalances(states: seq<Account>, ops: seq<Operation>, i: nat)
    requires Run(states, ops) && i <= |ops|
    ensures Balanced(states[i])
    ensures forall p :: p in states[i].d.ports ==> states[i].d.ports[p].tokens <= TOKEN_COUNT
  {
    if i == 0 {
    } else {
      RunBalances(states, ops, i - 1);
      assert states[i - 1 + 1] == Perform(states[i - 1], ops[i - 1]);
      PerformBalances(states[i - 1], ops[i - 1]);
    }
  }
}
