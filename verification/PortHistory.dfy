/**
 What each operation on the listeners of a descriptor does, port by port, and what a whole
 run of operations amounts to: who is registered and reads is what was last asked for, and
 whoever has waited longest is notified next.
 */
module PortHistory {
  import opened Ports

  // ----- single operations -----

  /** A ring with one port left out. */
  function Except(ring: seq<Port>, p: Port): seq<Port> {
    if ring == [] then []
    else (if ring[0] == p then [] else [ring[0]]) + Except(ring[1..], p)
  }

  lemma {:induction false} ExceptAbsent(ring: seq<Port>, p: Port)
    requires p !in ring
    ensures Except(ring, p) == ring
  {
    if ring == [] {
    } else {
      ExceptAbsent(ring[1..], p);
    }
  }

  lemma {:induction false} ExceptAppend(ring: seq<Port>, p: Port)
    ensures Except(ring + [p], p) == Except(ring, p)
  {
    if ring == [] {
      assert [p][1..] == [];
    } else {
      assert (ring + [p])[0] == ring[0] && (ring + [p])[1..] == ring[1..] + [p];
      ExceptAppend(ring[1..], p);
    }
  }

  lemma {:induction false} WithoutIsExcept(ring: seq<Port>, p: Port)
    requires NoDuplicates(ring)
    ensures Without(ring, p) == Except(ring, p)
  {
    if ring == [] {
    } else if ring[0] == p {
      NoDuplicatesTail(ring);
      ExceptAbsent(ring[1..], p);
    } else {
      WithoutIsExcept(ring[1..], p);
    }
  }

  /** The other ports are as they were, in the table and in the order of the ring. */
  ghost predicate OthersAsBefore(d: Listeners, after: Listeners, p: Port) {
    && (forall q :: q != p ==> (q in after.ports <==> q in d.ports))
    && (forall q :: q != p && q in d.ports ==> after.ports[q] == d.ports[q])
    && Except(after.ring, p) == Except(d.ring, p)
  }

  /** A port keeps its place in the ring while it is ready, and joins at the end. */
  ghost predicate InItsPlace(d: Listeners, after: Listeners, p: Port) {
    p in after.ring ==> after.ring == if p in d.ring then d.ring else d.ring + [p]
  }

  /** Setting a mask sets it: the port is registered with what was asked for and keeps its tokens, or
      has all of them if it is new; it is in the ring exactly if it can be notified. */
  lemma SetPortSets(d: Listeners, p: Port, reading: bool)
    requires ListenersOk(d)
    ensures var after := SetPort(d, p, reading);
            && p in after.ports && after.ports[p].reading == reading
            && after.ports[p].tokens == (if p in d.ports then d.ports[p].tokens else TOKEN_COUNT)
            && (p in after.ring <==> reading && after.ports[p].tokens > 0)
            && OthersAsBefore(d, after, p) && InItsPlace(d, after, p)
  {
    SetPortOk(d, p, reading);
    WithoutMembers(d.ring, p);
    WithoutIsExcept(d.ring, p);
    ExceptAppend(d.ring, p);
    ExceptAbsent(Without(d.ring, p), p);
  }

  /** Removing a port forgets it and nothing else. */
  lemma RemovePortRemoves(d: Listeners, p: Port)
    requires ListenersOk(d)
    ensures var after := RemovePort(d, p);
            p !in after.ports && p !in after.ring && OthersAsBefore(d, after, p)
  {
    RemovePortOk(d, p);
    WithoutMembers(d.ring, p);
    WithoutIsExcept(d.ring, p);
    ExceptAbsent(Without(d.ring, p), p);
  }

  /** Returned tokens are added to those of the port, which then is in the ring if it reads and has any. */
  lemma ReturnTokensReturns(d: Listeners, p: Port, count: nat)
    requires ListenersOk(d) && p in d.ports
    ensures var after := ReturnTokens(d, p, count, false);
            && p in after.ports && after.ports[p] == PortState(d.ports[p].reading, d.ports[p].tokens + count)
            && (p in after.ring <==> d.ports[p].reading && d.ports[p].tokens + count > 0)
            && OthersAsBefore(d, after, p) && InItsPlace(d, after, p)
  {
    ReturnTokensOk(d, p, count, false);
    ExceptAppend(d.ring, p);
  }

  /** The port at the head of the ring pays a token and goes to the back while it has any left. */
  lemma NextNotifyNotifies(d: Listeners)
    requires ListenersOk(d) && d.ring != []
    ensures var (p, after) := NextNotify(d, false);
            && p == d.ring[0] && p in d.ports && p in after.ports
            && after.ports[p] == PortState(d.ports[p].reading, d.ports[p].tokens - 1)
            && OthersAsBefore(d, after, p)
            && (p in after.ring <==> d.ports[p].tokens > 1)
            && (p in after.ring ==> after.ring[|after.ring| - 1] == p)
  {
    NextNotifyOk(d, false);
    NoDuplicatesTail(d.ring);
    var p := d.ring[0];
    assert p in d.ring;
    ExceptAbsent(d.ring[1..], p);
    ExceptAppend(d.ring[1..], p);
  }

  // ----- order in the ring -----

  /** One port comes before another in the ring. */
  ghost predicate Before(ring: seq<Port>, p: Port, q: Port) {
    exists i, j :: 0 <= i < j < |ring| && ring[i] == p && ring[j] == q
  }

  lemma BeforeInTail(ring: seq<Port>, p: Port, q: Port)
    requires ring != []
    ensures Before(ring, p, q) <==> (ring[0] == p && q in ring[1..]) || Before(ring[1..], p, q)
  {
    var tail := ring[1..];
    if Before(ring, p, q) {
      var i, j :| 0 <= i < j < |ring| && ring[i] == p && ring[j] == q;
      assert tail[j - 1] == q;
      if i > 0 {
        assert tail[i - 1] == p;
      }
    }
    if Before(tail, p, q) {
      var i, j :| 0 <= i < j < |tail| && tail[i] == p && tail[j] == q;
      assert ring[i + 1] == p && ring[j + 1] == q;
    }
    if ring[0] == p && q in tail {
      var j :| 0 <= j < |tail| && tail[j] == q;
      assert ring[0] == p && ring[j + 1] == q;
    }
  }

  lemma BeforeAppend(ring: seq<Port>, x: Port, p: Port, q: Port)
    requires Before(ring + [x], p, q)
    ensures Before(ring, p, q) || (q == x && p in ring)
  {
    var longer := ring + [x];
    var i, j :| 0 <= i < j < |longer| && longer[i] == p && longer[j] == q;
    assert ring[i] == p;
    if j < |ring| {
      assert ring[j] == q;
    }
  }

  /** Leaving ports out does not change the order of the others. */
  ghost predicate Keeps(ring: seq<Port>, after: seq<Port>) {
    && (forall p :: p in after ==> p in ring)
    && (forall p, q {:trigger Before(after, p, q)} :: Before(after, p, q) ==> Before(ring, p, q))
  }

  lemma KeepsCons(x: Port, ring: seq<Port>, after: seq<Port>)
    requires Keeps(ring, after)
    ensures Keeps([x] + ring, after) && Keeps([x] + ring, [x] + after)
  {
    var longer, with := [x] + ring, [x] + after;
    assert longer[1..] == ring && with[1..] == after;
    forall p, q | Before(after, p, q) ensures Before(longer, p, q) {
      BeforeInTail(longer, p, q);
    }
    forall p, q | Before(with, p, q) ensures Before(longer, p, q) {
      BeforeInTail(with, p, q);
      BeforeInTail(longer, p, q);
    }
  }

  lemma {:induction false} WithoutKeeps(ring: seq<Port>, p: Port)
    ensures Keeps(ring, Without(ring, p))
  {
    if ring == [] {
    } else {
      assert ring == [ring[0]] + ring[1..];
      assert Keeps(ring[1..], ring[1..]);
      WithoutKeeps(ring[1..], p);
      KeepsCons(ring[0], ring[1..], Without(ring[1..], p));
      KeepsCons(ring[0], ring[1..], ring[1..]);
    }
  }

  lemma {:induction false} SuppliedKeeps(ring: seq<Port>, ports: map<Port, PortState>)
    ensures Keeps(ring, Supplied(ring, ports))
  {
    if ring == [] {
    } else {
      assert ring == [ring[0]] + ring[1..];
      SuppliedKeeps(ring[1..], ports);
      KeepsCons(ring[0], ring[1..], Supplied(ring[1..], ports));
      assert [] + Supplied(ring[1..], ports) == Supplied(ring[1..], ports);
    }
  }

  /** Every port pays a token; those that have none left leave the ring, the others keep their order. */
  lemma NotifyAllNotifies(d: Listeners)
    requires ListenersOk(d)
    ensures var after := NotifyAll(d, false);
            && after.ports.Keys == d.ports.Keys && Keeps(d.ring, after.ring)
            && (forall p :: p in d.ports ==> after.ports[p] == PortState(d.ports[p].reading, d.ports[p].tokens - 1))
            && (forall p :: p in after.ring <==> p in d.ports && d.ports[p].reading && d.ports[p].tokens > 1)
  {
    NotifyAllOk(d, false);
    SuppliedKeeps(d.ring, NotifyAll(d, false).ports);
  }

  // ----- whole runs -----

  lemma RunStep(states: seq<Account>, ops: seq<Operation>, i: nat)
    requires Run(states, ops) && i < |ops|
    ensures Balanced(states[i]) && Allowed(states[i], ops[i]) && states[i + 1] == Perform(states[i], ops[i])
  {
    RunBalances(states, ops, i);
  }

  /** What a port has asked for last. */
  datatype Wish = Unregistered | Wants(reading: bool)

  function Asked(ops: seq<Operation>, p: Port): Wish {
    if ops == [] then Unregistered
    else
      var last := ops[|ops| - 1];
      match last
      case OpSetPort(port, reading) => if port == p then Wants(reading) else Asked(ops[..|ops| - 1], p)
      case OpRemovePort(port) => if port == p then Unregistered else Asked(ops[..|ops| - 1], p)
      case OpRemoveAllPorts => Unregistered
      case _ => Asked(ops[..|ops| - 1], p)
  }

  /** What the table holds for a port. */
  function Registered(d: Listeners, p: Port): Wish {
    if p in d.ports then Wants(d.ports[p].reading) else Unregistered
  }

  lemma RegisteredStep(a: Account, op: Operation, p: Port)
    requires Balanced(a) && Allowed(a, op)
    ensures Registered(Perform(a, op).d, p) ==
            match op
            case OpSetPort(port, reading) => if port == p then Wants(reading) else Registered(a.d, p)
            case OpRemovePort(port) => if port == p then Unregistered else Registered(a.d, p)
            case OpRemoveAllPorts => Unregistered
            case _ => Registered(a.d, p)
  {
    if op.OpNextNotify? && a.d.ring != [] {
      NextNotifyNotifies(a.d);
    }
  }

  /** In every run a port is registered and reads exactly if that is what it asked for last. */
  lemma {:induction false} TableIsAsked(states: seq<Account>, ops: seq<Operation>, i: nat, p: Port)
    requires Run(states, ops) && i <= |ops|
    ensures Registered(states[i].d, p) == Asked(ops[..i], p)
  {
    if i == 0 {
    } else {
      TableIsAsked(states, ops, i - 1, p);
      RunStep(states, ops, i - 1);
      RegisteredStep(states[i - 1], ops[i - 1], p);
      assert ops[..i][i - 1] == ops[i - 1] && ops[..i][..i - 1] == ops[..i - 1];
    }
  }

  // ----- who has waited longest is next -----

  predicate Ready(d: Listeners, p: Port) {
    p in d.ports && d.ports[p].reading && d.ports[p].tokens > 0
  }

  /** The port is told alone by the n-th operation. */
  ghost predicate ToldBy(states: seq<Account>, ops: seq<Operation>, n: nat, p: Port)
    requires n < |ops| < |states|
  {
    ops[n].OpNextNotify? && Count(states[n + 1].posted, p) > Count(states[n].posted, p)
  }

  /** Since when, counted in operations, a port has been ready without being told alone. */
  ghost function WaitsSince(states: seq<Account>, ops: seq<Operation>, n: nat, p: Port): nat
    requires n <= |ops| < |states|
  {
    if n == 0 then 0
    else if !Ready(states[n - 1].d, p) || ToldBy(states, ops, n - 1, p) then n
    else WaitsSince(states, ops, n - 1, p)
  }

  lemma {:induction false} WaitsSinceBound(states: seq<Account>, ops: seq<Operation>, n: nat, p: Port)
    requires n <= |ops| < |states|
    ensures WaitsSince(states, ops, n, p) <= n
  {
    if n == 0 {
    } else {
      WaitsSinceBound(states, ops, n - 1, p);
    }
  }

  /** The ports of a ring after an operation: those that stay, and one that joins at the end. */
  ghost predicate Moves(a: Account, op: Operation, kept: seq<Port>, joined: seq<Port>) {
    && Keeps(a.d.ring, kept) && |joined| <= 1
    && (op.OpNextNotify? && a.d.ring != [] ==> a.d.ring[0] !in kept)
    && (forall p :: p in joined ==> (op.OpNextNotify? && a.d.ring != [] && a.d.ring[0] == p) || !Ready(a.d, p))
  }

  lemma KeepsAll(ring: seq<Port>)
    ensures Keeps(ring, ring)
  {
  }

  lemma KeepsTail(ring: seq<Port>)
    requires ring != []
    ensures Keeps(ring, ring[1..])
  {
    KeepsAll(ring[1..]);
    KeepsCons(ring[0], ring[1..], ring[1..]);
    assert ring == [ring[0]] + ring[1..];
  }

  lemma RingMoves(a: Account, op: Operation) returns (kept: seq<Port>, joined: seq<Port>)
    requires Balanced(a) && Allowed(a, op)
    ensures Perform(a, op).d.ring == kept + joined && Moves(a, op, kept, joined)
  {
    var d, ring := a.d, Perform(a, op).d.ring;
    KeepsAll(d.ring);
    kept, joined := ring, [];
    match op
    case OpSetPort(p, reading) =>
      WithoutKeeps(d.ring, p);
      if p !in d.ring && Ready(Perform(a, op).d, p) {
        kept, joined := d.ring, [p];
      }
    case OpRemovePort(p) => WithoutKeeps(d.ring, p);
    case OpRemoveAllPorts => assert Keeps(d.ring, []);
    case OpNextNotify =>
      if d.ring != [] {
        NextNotifyNotifies(d);
        NoDuplicatesTail(d.ring);
        KeepsTail(d.ring);
        kept, joined := d.ring[1..], ring[|d.ring| - 1..];
      }
    case OpNotifyAll => SuppliedKeeps(d.ring, Perform(a, op).d.ports);
    case OpReturnTokens(p, count) =>
      if p !in d.ring && Ready(Perform(a, op).d, p) {
        kept, joined := d.ring, [p];
      }
  }

  /** In every run the ports of the ring stand in the order in which they began to wait. */
  lemma {:induction false} RingIsByWaiting(states: seq<Account>, ops: seq<Operation>, i: nat)
    requires Run(states, ops) && i <= |ops|
    ensures forall p, q :: Before(states[i].d.ring, p, q) ==>
              WaitsSince(states, ops, i, p) < WaitsSince(states, ops, i, q)
  {
    if i == 0 {
    } else {
      RingIsByWaiting(states, ops, i - 1);
      forall p, q | Before(states[i].d.ring, p, q)
        ensures WaitsSince(states, ops, i, p) < WaitsSince(states, ops, i, q)
      {
        WaitingStep(states, ops, i - 1, p, q);
      }
    }
  }

  /** A port that stays in the ring goes on waiting. */
  lemma StaysWaiting(states: seq<Account>, ops: seq<Operation>, i: nat, p: Port)
    requires Run(states, ops) && i < |ops| && p in states[i].d.ring
    requires ops[i].OpNextNotify? ==> p != states[i].d.ring[0]
    ensures WaitsSince(states, ops, i + 1, p) == WaitsSince(states, ops, i, p) <= i
  {
    RunStep(states, ops, i);
    WaitsSinceBound(states, ops, i, p);
  }

  /** A port that joins the ring begins to wait. */
  lemma BeginsToWait(states: seq<Account>, ops: seq<Operation>, i: nat, p: Port)
    requires Run(states, ops) && i < |ops|
    requires !Ready(states[i].d, p) || (ops[i].OpNextNotify? && states[i].d.ring != [] && states[i].d.ring[0] == p)
    ensures WaitsSince(states, ops, i + 1, p) == i + 1
  {
    RunStep(states, ops, i);
    if Ready(states[i].d, p) {
      NextNotifyNotifies(states[i].d);
    }
  }

  lemma WaitingStep(states: seq<Account>, ops: seq<Operation>, i: nat, p: Port, q: Port)
    requires Run(states, ops) && i < |ops| && Before(states[i + 1].d.ring, p, q)
    requires Before(states[i].d.ring, p, q) ==> WaitsSince(states, ops, i, p) < WaitsSince(states, ops, i, q)
    ensures WaitsSince(states, ops, i + 1, p) < WaitsSince(states, ops, i + 1, q)
  {
    RunStep(states, ops, i);
    var kept, joined := RingMoves(states[i], ops[i]);
    if joined != [] {
      assert joined == [joined[0]];
      BeforeAppend(kept, joined[0], p, q);
    } else {
      assert kept + joined == kept;
    }
    if Before(kept, p, q) {
      assert p in kept && q in kept;
      StaysWaiting(states, ops, i, p);
      StaysWaiting(states, ops, i, q);
    } else {
      StaysWaiting(states, ops, i, p);
      BeginsToWait(states, ops, i, q);
    }
  }

  /** Whoever is told next has waited longer than any other port that is ready. */
  lemma LongestWaitingIsNext(states: seq<Account>, ops: seq<Operation>, i: nat, p: Port)
    requires Run(states, ops) && i <= |ops| && Ready(states[i].d, p)
    ensures var (first, _) := NextNotify(states[i].d, false);
            Ready(states[i].d, first) && (first != p ==> WaitsSince(states, ops, i, first) < WaitsSince(states, ops, i, p))
  {
    RunBalances(states, ops, i);
    RingIsByWaiting(states, ops, i);
    var d := states[i].d;
    assert d.ports[p].IsReady() && p in d.ring;
    NextNotifyNotifies(d);
    assert d.ring[0] in d.ring;
    if d.ring[0] != p {
      var j :| 0 <= j < |d.ring| && d.ring[j] == p;
      assert Before(d.ring, d.ring[0], p);
    }
  }
}
