/**
 Deadlines that fall together: the timer queue holds the newest deadline first, so that of
 several ports with the same deadline the one whose deadline was set last is told first.
 */
module TimeoutOrder {
  import opened TimeoutSpec

  /** Since when, counted in events, a deadline has been set for a port. */
  ghost function SetSince(run: seq<Event>, n: nat, port: Port): nat
    requires n <= |run|
  {
    if n == 0 then 0 else if Pending(run, n - 1, port).Unset? then n else SetSince(run, n - 1, port)
  }

  lemma {:induction false} SetSinceBound(run: seq<Event>, n: nat, port: Port)
    requires n <= |run|
    ensures SetSince(run, n, port) <= n
  {
    if n == 0 {
    } else {
      SetSinceBound(run, n - 1, port);
    }
  }

  /** A later entry of the queue has its deadline for longer. */
  ghost predicate NewestFirst(run: seq<Event>, n: nat, q: seq<Entry>)
    requires n <= |run|
  {
    forall i, j :: 0 <= i < j < |q| ==> SetSince(run, n, q[i].port) > SetSince(run, n, q[j].port)
  }

  lemma SetAlready(run: seq<Event>, n: nat, q: seq<Entry>, k: nat)
    requires n < |run| && q == After(run[..n]) && k < |q|
    ensures SetSince(run, n + 1, q[k].port) == SetSince(run, n, q[k].port) <= n
  {
    QueueIsPending(run, n);
    LookupEntry(q, k);
    SetSinceBound(run, n, q[k].port);
  }

  lemma SetNow(run: seq<Event>, n: nat, port: Port)
    requires n < |run| && IndexOf(After(run[..n]), port) == |After(run[..n])|
    ensures SetSince(run, n + 1, port) == n + 1
  {
    QueueIsPending(run, n);
    assert Lookup(After(run[..n]), port) == Pending(run, n, port);
  }

  /** Entries taken out leave the others in order. */
  lemma NewestFirstWithout(run: seq<Event>, n: nat, q: seq<Entry>, k: nat)
    requires n <= |run| && NewestFirst(run, n, q) && k < |q|
    ensures NewestFirst(run, n, Without(q, k))
  {
    var rest := Without(q, k);
    forall i, j | 0 <= i < j < |rest| ensures SetSince(run, n, rest[i].port) > SetSince(run, n, rest[j].port) {
      assert rest[i] == q[if i < k then i else i + 1] && rest[j] == q[if j < k then j else j + 1];
    }
  }

  lemma NewestFirstInFront(run: seq<Event>, n: nat, q: seq<Entry>, e: Entry)
    requires n <= |run| && NewestFirst(run, n, q)
    requires forall j :: 0 <= j < |q| ==> SetSince(run, n, e.port) > SetSince(run, n, q[j].port)
    ensures NewestFirst(run, n, [e] + q)
  {
    var longer := [e] + q;
    forall i, j | 0 <= i < j < |longer| ensures SetSince(run, n, longer[i].port) > SetSince(run, n, longer[j].port) {
      assert longer[j] == q[j - 1];
    }
  }

  /** The ages of what was in the queue do not change. */
  lemma NewestFirstStill(run: seq<Event>, n: nat, q: seq<Entry>)
    requires n < |run| && q == After(run[..n]) && NewestFirst(run, n, q)
    ensures NewestFirst(run, n + 1, q)
    ensures forall k :: 0 <= k < |q| ==> SetSince(run, n + 1, q[k].port) <= n
  {
    forall k | 0 <= k < |q| ensures SetSince(run, n + 1, q[k].port) == SetSince(run, n, q[k].port) <= n {
      SetAlready(run, n, q, k);
    }
  }

  lemma NewestFirstUpdate(run: seq<Event>, n: nat, q: seq<Entry>, port: Port, timeout: int)
    requires n < |run| && q == After(run[..n]) && NewestFirst(run, n + 1, q)
    requires forall k :: 0 <= k < |q| ==> SetSince(run, n + 1, q[k].port) <= n
    ensures NewestFirst(run, n + 1, Update(q, port, timeout))
  {
    var k := IndexOf(q, port);
    if k < |q| && timeout < 0 {
      NewestFirstWithout(run, n + 1, q, k);
    } else if k < |q| {
      NewestFirstAlike(run, n + 1, q, q[k := Entry(port, timeout)]);
    } else if timeout >= 0 {
      SetNow(run, n, port);
      NewestFirstInFront(run, n + 1, q, Entry(port, timeout));
    }
  }

  lemma NewestFirstAlike(run: seq<Event>, n: nat, q: seq<Entry>, r: seq<Entry>)
    requires n <= |run| && NewestFirst(run, n, q) && |r| == |q| && forall i :: 0 <= i < |q| ==> r[i].port == q[i].port
    ensures NewestFirst(run, n, r)
  {
  }

  lemma NewestFirstStep(run: seq<Event>, n: nat)
    requires n < |run| && NewestFirst(run, n, After(run[..n]))
    ensures NewestFirst(run, n + 1, After(run[..n + 1]))
  {
    var q := After(run[..n]);
    assert run[..n + 1][..n] == run[..n];
    NewestFirstStill(run, n, q);
    match run[n]
    case WakeUp(now) =>
      if Due(q, now) != [] {
        NewestFirstWithout(run, n + 1, q, Earliest(q));
      }
    case Message(port, timeout) => NewestFirstUpdate(run, n, q, port, timeout);
  }

  lemma {:induction false} QueueIsNewestFirst(run: seq<Event>, n: nat)
    requires n <= |run|
    ensures NewestFirst(run, n, After(run[..n]))
  {
    if n == 0 {
    } else {
      QueueIsNewestFirst(run, n - 1);
      NewestFirstStep(run, n - 1);
    }
  }

  /** Of the deadlines that fall together, the one that was set last is told first. */
  lemma NewestIsToldFirst(run: seq<Event>, n: nat, port: Port, other: Port)
    requires n < |run| && run[n].WakeUp? && ToldAt(run, n) == [port] && other != port
    requires Pending(run, n, other) == Pending(run, n, port)
    ensures SetSince(run, n, port) > SetSince(run, n, other)
  {
    QueueIsPending(run, n);
    QueueIsNewestFirst(run, n);
    var q := After(run[..n]);
    var k := Earliest(q);
    LookupEntry(q, k);
    assert Lookup(q, other) == Pending(run, n, other) && Lookup(q, port) == Pending(run, n, port);
    assert q[IndexOf(q, other)].port == other;
  }
}
