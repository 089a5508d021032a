/**
 Timers as a list of ports with their deadlines, the map from port to deadline that
 the list stands for, and whole runs of the poll loop over it.
 */
module TimeoutSpec {
  import Ports

  type Port = Ports.Port

  datatype Entry = Entry(port: Port, deadline: int)

  const INFINITY_TIMEOUT: int := -1
  const MAX_INT32: int := 0x7FFF_FFFF

  ghost predicate QueueOk(q: seq<Entry>) {
    && (forall i :: 0 <= i < |q| ==> q[i].deadline >= 0)
    && (forall i, j :: 0 <= i < j < |q| ==> q[i].port != q[j].port)
  }

  /** Where a port's entry is, |q| if it has none. */
  function IndexOf(q: seq<Entry>, port: Port): (k: nat)
    ensures k <= |q|
    ensures k < |q| ==> q[k].port == port
    ensures forall i :: 0 <= i < k ==> q[i].port != port
  {
    if q == [] || q[0].port == port then 0 else 1 + IndexOf(q[1..], port)
  }

  lemma IndexOfIs(q: seq<Entry>, port: Port, k: nat)
    requires k <= |q| && (k < |q| ==> q[k].port == port)
    requires forall i :: 0 <= i < k ==> q[i].port != port
    ensures k == IndexOf(q, port)
  {
    var j := IndexOf(q, port);
    if j < k {
      assert false;
    }
  }

  function Without(q: seq<Entry>, k: nat): seq<Entry>
    requires k < |q|
  {
    q[..k] + q[k + 1..]
  }

  /** A negative timeout cancels; any other replaces the port's deadline or adds one. */
  function Update(q: seq<Entry>, port: Port, timeout: int): seq<Entry> {
    var k := IndexOf(q, port);
    if k < |q| then
      if timeout < 0 then Without(q, k) else q[k := Entry(port, timeout)]
    else
      if timeout < 0 then q else [Entry(port, timeout)] + q
  }

  // ----- the map a queue stands for -----

  /** The deadline that is set for a port. */
  datatype Setting = Unset | Set(deadline: int)

  function Lookup(q: seq<Entry>, port: Port): Setting {
    var k := IndexOf(q, port);
    if k < |q| then Set(q[k].deadline) else Unset
  }

  lemma LookupEntry(q: seq<Entry>, k: nat)
    requires QueueOk(q) && k < |q|
    ensures Lookup(q, q[k].port) == Set(q[k].deadline)
  {
  }

  lemma LookupAbsent(q: seq<Entry>, port: Port)
    requires forall i :: 0 <= i < |q| ==> q[i].port != port
    ensures Lookup(q, port) == Unset
  {
  }

  /** What the entries at an index have in common after one was taken out. */
  lemma LookupWithout(q: seq<Entry>, k: nat, other: Port)
    requires QueueOk(q) && k < |q|
    ensures QueueOk(Without(q, k))
    ensures Lookup(Without(q, k), other) == if other == q[k].port then Unset else Lookup(q, other)
  {
    var rest := Without(q, k);
    assert forall i :: 0 <= i < |rest| ==> rest[i] == q[if i < k then i else i + 1];
    var j := IndexOf(q, other);
    if other == q[k].port || j == |q| {
      LookupAbsent(rest, other);
    } else {
      var i := if j < k then j else j - 1;
      assert rest[i] == q[j];
      LookupEntry(rest, i);
    }
  }

  /** Updating the list updates the map: only the given port's deadline changes. */
  lemma UpdateRefinesMap(q: seq<Entry>, port: Port, timeout: int)
    requires QueueOk(q)
    ensures QueueOk(Update(q, port, timeout))
    ensures forall other :: Lookup(Update(q, port, timeout), other) ==
                            if other != port then Lookup(q, other)
                            else if timeout < 0 then Unset else Set(timeout)
  {
    var k := IndexOf(q, port);
    var r := Update(q, port, timeout);
    forall other ensures Lookup(r, other) == (if other != port then Lookup(q, other)
                                              else if timeout < 0 then Unset else Set(timeout)) {
      var j := IndexOf(q, other);
      if k < |q| && timeout < 0 {
        LookupWithout(q, k, other);
      } else if k < |q| {
        if j < |q| {
          LookupEntry(r, j);
        } else {
          LookupAbsent(r, other);
        }
      } else if timeout >= 0 {
        if other == port {
          LookupEntry(r, 0);
        } else if j < |q| {
          assert r[j + 1] == q[j];
          LookupEntry(r, j + 1);
        } else {
          LookupAbsent(r, other);
        }
      }
    }
    if k < |q| && timeout < 0 {
      LookupWithout(q, k, port);
    }
  }

  lemma UpdateOk(q: seq<Entry>, port: Port, timeout: int)
    requires QueueOk(q)
    ensures QueueOk(Update(q, port, timeout))
  {
    UpdateRefinesMap(q, port, timeout);
  }

  // ----- the next timeout -----

  /** The first entry with the earliest deadline among the first n. */
  ghost predicate IsEarliestOf(q: seq<Entry>, n: nat, k: nat) {
    && k < n <= |q|
    && (forall i :: 0 <= i < n ==> q[k].deadline <= q[i].deadline)
    && (forall i :: 0 <= i < k ==> q[k].deadline < q[i].deadline)
  }

  ghost predicate IsEarliest(q: seq<Entry>, k: nat) {
    IsEarliestOf(q, |q|, k)
  }

  /** Looking at one more entry. */
  lemma EarliestStep(q: seq<Entry>, n: nat, k: nat)
    requires n < |q| && IsEarliestOf(q, n, k)
    ensures IsEarliestOf(q, n + 1, if q[n].deadline < q[k].deadline then n else k)
  {
  }

  function Earliest(q: seq<Entry>): (k: nat)
    requires q != []
    ensures IsEarliest(q, k)
  {
    if |q| == 1 then 0
    else
      var k := Earliest(q[1..]) + 1;
      if q[0].deadline <= q[k].deadline then 0 else k
  }

  lemma EarliestUnique(q: seq<Entry>, k: nat, j: nat)
    requires IsEarliest(q, k) && IsEarliest(q, j)
    ensures k == j
  {
    assert q[k].deadline == q[j].deadline;
  }

  // ----- one turn of the poll loop -----

  /** How long to wait at time `now`. */
  function Wait(q: seq<Entry>, now: int): int {
    if q == [] then INFINITY_TIMEOUT
    else
      var millis := q[Earliest(q)].deadline - now;
      if millis < 0 then 0 else if millis > MAX_INT32 then MAX_INT32 else millis
  }

  /** Whether some deadline has passed. */
  ghost predicate Overdue(q: seq<Entry>, now: int) {
    exists i :: 0 <= i < |q| && q[i].deadline <= now
  }

  /** The loop never blocks while a deadline has passed, nor sleeps past one, nor wakes up before the next
      unless that is out of range. */
  lemma WaitIsShort(q: seq<Entry>, now: int)
    ensures Wait(q, now) == INFINITY_TIMEOUT <==> q == []
    ensures Wait(q, now) == 0 <==> Overdue(q, now)
    ensures forall i :: 0 <= i < |q| ==> now + Wait(q, now) <= q[i].deadline || q[i].deadline <= now
    ensures 0 < Wait(q, now) < MAX_INT32 ==> exists i :: 0 <= i < |q| && now + Wait(q, now) == q[i].deadline
    ensures Wait(q, now) <= MAX_INT32
  {
    if q != [] {
      var k := Earliest(q);
      assert q[k].deadline <= now ==> Overdue(q, now);
    }
  }

  /** The port that is told at time `now`, if any, and what stays in the queue. */
  function Due(q: seq<Entry>, now: int): (posts: seq<Port>)
    ensures |posts| <= 1
  {
    if q != [] && q[Earliest(q)].deadline <= now then [q[Earliest(q)].port] else []
  }

  function AfterTimeout(q: seq<Entry>, now: int): seq<Entry> {
    if Due(q, now) == [] then q else Without(q, Earliest(q))
  }

  lemma DueIffOverdue(q: seq<Entry>, now: int)
    ensures Due(q, now) != [] <==> Overdue(q, now)
  {
    if q != [] {
      var k := Earliest(q);
      assert q[k].deadline <= now ==> Overdue(q, now);
    }
  }

  // ----- whole runs -----

  /** What the event handler thread sees: timer messages, and wake-ups at some time. */
  datatype Event = Message(port: Port, timeout: int) | WakeUp(now: int)

  function Next(q: seq<Entry>, e: Event): seq<Entry> {
    match e
    case Message(port, timeout) => Update(q, port, timeout)
    case WakeUp(now) => AfterTimeout(q, now)
  }

  function Told(q: seq<Entry>, e: Event): seq<Port> {
    if e.WakeUp? then Due(q, e.now) else []
  }

  /** The queue after a run from an empty one. */
  function After(run: seq<Event>): seq<Entry> {
    if run == [] then [] else Next(After(run[..|run| - 1]), run[|run| - 1])
  }

  /** The ports that are told at the i-th event of a run. */
  function ToldAt(run: seq<Event>, i: nat): (posts: seq<Port>)
    requires i < |run|
    ensures |posts| <= 1
  {
    Told(After(run[..i]), run[i])
  }

  /** A port's deadline as the history alone says it: the latest message about the port set it,
      and the port was not told since. */
  ghost function Pending(run: seq<Event>, n: nat, port: Port): Setting
    requires n <= |run|
  {
    if n == 0 then Unset
    else if run[n - 1].Message? && run[n - 1].port == port then
      if run[n - 1].timeout < 0 then Unset else Set(run[n - 1].timeout)
    else if ToldAt(run, n - 1) == [port] then Unset
    else Pending(run, n - 1, port)
  }

  lemma AfterTimeoutRefines(q: seq<Entry>, now: int)
    requires QueueOk(q)
    ensures QueueOk(AfterTimeout(q, now))
    ensures forall port :: Lookup(AfterTimeout(q, now), port) ==
                           if Due(q, now) == [port] then Unset else Lookup(q, port)
  {
    if Due(q, now) != [] {
      var k := Earliest(q);
      forall port ensures Lookup(AfterTimeout(q, now), port) ==
                          if Due(q, now) == [port] then Unset else Lookup(q, port) {
        LookupWithout(q, k, port);
      }
      LookupWithout(q, k, 0);
    }
  }

  /** In every run the queue holds exactly the deadlines that the history leaves pending. */
  lemma {:induction false} QueueIsPending(run: seq<Event>, n: nat)
    requires n <= |run|
    ensures QueueOk(After(run[..n]))
    ensures forall port :: Lookup(After(run[..n]), port) == Pending(run, n, port)
  {
    if n == 0 {
    } else {
      QueueIsPending(run, n - 1);
      var q, e := After(run[..n - 1]), run[n - 1];
      assert run[..n][..n - 1] == run[..n - 1];
      match e {
        case Message(port, timeout) =>
          UpdateRefinesMap(q, port, timeout);
        case WakeUp(now) =>
          AfterTimeoutRefines(q, now);
      }
    }
  }

  /** A port is told only when its pending deadline has passed and no pending deadline is
      earlier; nobody is told only when no pending deadline has passed. */
  lemma ToldInTime(run: seq<Event>, n: nat)
    requires n < |run| && run[n].WakeUp?
    ensures forall port :: ToldAt(run, n) == [port] ==>
              && Pending(run, n, port).Set? && Pending(run, n, port).deadline <= run[n].now
              && (forall other :: Pending(run, n, other).Set? ==>
                    Pending(run, n, port).deadline <= Pending(run, n, other).deadline)
    ensures ToldAt(run, n) == [] ==>
              forall other :: Pending(run, n, other).Set? ==> Pending(run, n, other).deadline > run[n].now
  {
    QueueIsPending(run, n);
    var q := After(run[..n]);
    if q != [] {
      LookupEntry(q, Earliest(q));
    }
    forall other ensures Pending(run, n, other).Set? ==>
                           IndexOf(q, other) < |q| && q[IndexOf(q, other)].deadline == Pending(run, n, other).deadline {
      assert Lookup(q, other) == Pending(run, n, other);
    }
  }

  lemma PendingWakeUp(run: seq<Event>, n: nat, port: Port)
    requires n < |run| && run[n].WakeUp?
    ensures Pending(run, n + 1, port) == if ToldAt(run, n) == [port] then Unset else Pending(run, n, port)
  {
  }

  /** Without messages a deadline stays pending until its port is told, at some event `told`. */
  lemma {:induction false} PendingStays(run: seq<Event>, n: nat, m: nat, port: Port) returns (told: int)
    requires n <= m <= |run| && forall i :: n <= i < m ==> run[i].WakeUp?
    ensures told == -1 ==> Pending(run, m, port) == Pending(run, n, port)
    ensures told != -1 ==> n <= told < m && ToldAt(run, told) == [port] && Pending(run, m, port) == Unset
    decreases m
  {
    told := -1;
    if n >= m {
    } else {
      told := PendingStays(run, n, m - 1, port);
      PendingWakeUp(run, m - 1, port);
      if ToldAt(run, m - 1) == [port] {
        told := m - 1;
      }
    }
  }

  /** Between messages, ports are told in the order of their deadlines. */
  lemma ToldInOrder(run: seq<Event>, i: nat, j: nat, first: Port, second: Port)
    requires i < j < |run| && forall k :: i <= k <= j ==> run[k].WakeUp?
    requires ToldAt(run, i) == [first] && ToldAt(run, j) == [second]
    ensures Pending(run, i, first).Set? && Pending(run, j, second).Set?
    ensures Pending(run, i, first).deadline <= Pending(run, j, second).deadline
  {
    ToldInTime(run, i);
    ToldInTime(run, j);
    var told := PendingStays(run, i, j, second);
  }

  /** How many deadlines are at or before `t`. */
  function Late(q: seq<Entry>, t: int): nat {
    if q == [] then 0 else (if q[0].deadline <= t then 1 else 0) + Late(q[1..], t)
  }

  lemma {:induction false} LateConcat(a: seq<Entry>, b: seq<Entry>, t: int)
    ensures Late(a + b, t) == Late(a, t) + Late(b, t)
  {
    if a == [] {
      assert a + b == b;
    } else {
      LateConcat(a[1..], b, t);
      assert (a + b)[1..] == a[1..] + b;
    }
  }

  lemma LateAt(q: seq<Entry>, k: nat, t: int)
    requires k < |q|
    ensures Late(q, t) == Late(Without(q, k), t) + if q[k].deadline <= t then 1 else 0
  {
    assert q == q[..k] + ([q[k]] + q[k + 1..]);
    LateConcat(q[..k], [q[k]] + q[k + 1..], t);
    LateConcat([q[k]], q[k + 1..], t);
    LateConcat(q[..k], q[k + 1..], t);
  }

  lemma {:induction false} LateIsZero(q: seq<Entry>, t: int)
    requires forall i :: 0 <= i < |q| ==> q[i].deadline > t
    ensures Late(q, t) == 0
  {
    if q == [] {
    } else {
      LateIsZero(q[1..], t);
    }
  }

  /** A wake-up at or after `t` takes out one of the deadlines up to `t`, while there are any. */
  lemma WakeUpTakesOne(q: seq<Entry>, now: int, t: int)
    requires t <= now
    ensures Late(AfterTimeout(q, now), t) == if Late(q, t) == 0 then 0 else Late(q, t) - 1
  {
    if q != [] {
      var k := Earliest(q);
      LateAt(q, k, t);
      if q[k].deadline > t {
        LateIsZero(q, t);
        if q[k].deadline <= now {
          LateAt(q, k, t);
        }
      }
    }
  }

  lemma {:induction false} AfterWakeUp(run: seq<Event>, n: nat)
    requires n < |run| && run[n].WakeUp?
    ensures After(run[..n + 1]) == AfterTimeout(After(run[..n]), run[n].now)
  {
    assert run[..n + 1][..n] == run[..n];
  }

  lemma {:induction false} WakeUpsTakeAll(run: seq<Event>, n: nat, m: nat, t: int)
    requires n <= m <= |run| && forall i :: n <= i < m ==> run[i].WakeUp? && run[i].now >= t
    ensures Late(After(run[..m]), t) ==
            if Late(After(run[..n]), t) <= m - n then 0 else Late(After(run[..n]), t) - (m - n)
    decreases m
  {
    if n >= m {
    } else {
      WakeUpsTakeAll(run, n, m - 1, t);
      AfterWakeUp(run, m - 1);
      WakeUpTakesOne(After(run[..m - 1]), run[m - 1].now, t);
    }
  }

  /** As many wake-ups as there are deadlines up to `t` tell every port with such a deadline. */
  lemma EveryDeadlineIsTold(run: seq<Event>, n: nat, m: nat, t: int, port: Port)
    requires n <= m <= |run| && forall i :: n <= i < m ==> run[i].WakeUp? && run[i].now >= t
    requires Late(After(run[..n]), t) <= m - n
    requires Pending(run, n, port).Set? && Pending(run, n, port).deadline <= t
    ensures exists i :: n <= i < m && ToldAt(run, i) == [port]
  {
    var told := PendingStays(run, n, m, port);
    WakeUpsTakeAll(run, n, m, t);
    QueueIsPending(run, m);
    var q := After(run[..m]);
    assert Lookup(q, port) == Pending(run, m, port);
    if Pending(run, m, port).Set? {
      LateAt(q, IndexOf(q, port), t);
    }
  }
}
