/**
 A circular doubly linked list, kept as heap nodes.  `nodes` lists them from the
 head on.
 */
module CircularLists {
  import opened Folding

  class Node<T> {
    const t: T
    var next: Node?<T>
    var prev: Node?<T>

    constructor (t: T)
      ensures this.t == t && next == null && prev == null
    {
      this.t := t;
      next := null;
      prev := null;
    }
  }

  function After(i: nat, n: nat): nat
    requires i < n
  {
    if i + 1 == n then 0 else i + 1
  }

  function Before(i: nat, n: nat): nat
    requires i < n
  {
    if i == 0 then n - 1 else i - 1
  }

  /** Where the i-th of the remaining elements was before the k-th was taken out. */
  function Shift(i: nat, k: nat): nat {
    if i < k then i else i + 1
  }

  lemma NeighboursAfterUnlink(i: nat, k: nat, n: nat)
    requires n > 1 && i < n - 1 && k < n
    ensures Shift(After(i, n - 1), k) ==
            if After(Shift(i, k), n) == k then After(k, n) else After(Shift(i, k), n)
    ensures Shift(Before(i, n - 1), k) ==
            if Before(Shift(i, k), n) == k then Before(k, n) else Before(Shift(i, k), n)
    ensures After(Shift(i, k), n) == k <==> Shift(i, k) == Before(k, n)
    ensures Before(Shift(i, k), n) == k <==> Shift(i, k) == After(k, n)
  {
  }

  lemma NeighboursMeet(k: nat, n: nat)
    requires k < n
    ensures forall j :: 0 <= j < n ==> (After(j, n) == k <==> j == Before(k, n))
    ensures forall j :: 0 <= j < n ==> (Before(j, n) == k <==> j == After(k, n))
  {
  }

  /** Distinct nodes, each linked to its neighbours around the ring. */
  ghost predicate IsRing<T>(nodes: seq<Node<T>>)
    reads nodes
  {
    var ring :=
      && (forall i, j :: 0 <= i < j < |nodes| ==> nodes[i] != nodes[j])
      && (forall i {:trigger nodes[i].next} :: 0 <= i < |nodes| ==> nodes[i].next == nodes[After(i, |nodes|)])
      && (forall i {:trigger nodes[i].prev} :: 0 <= i < |nodes| ==> nodes[i].prev == nodes[Before(i, |nodes|)]);
    ring
  }

  /** `IsRing`, kept folded. */
  ghost predicate Ring<T>(nodes: seq<Node<T>>)
    reads nodes
  {
    forall level: int {:trigger Look(level)} :: Look(level) && level == RING_FOLD ==> IsRing(nodes)
  }

  /** The k-th node of a ring has been bypassed by its neighbours. */
  ghost predicate Bypassed<T>(nodes: seq<Node<T>>, k: nat)
    requires k < |nodes|
    reads nodes
  {
    var n := |nodes|;
    var bypassed :=
      && (forall i, j :: 0 <= i < j < n ==> nodes[i] != nodes[j])
      && (forall j {:trigger nodes[j].next} :: 0 <= j < n && j != k ==>
            nodes[j].next == nodes[if After(j, n) == k then After(k, n) else After(j, n)])
      && (forall j {:trigger nodes[j].prev} :: 0 <= j < n && j != k ==>
            nodes[j].prev == nodes[if Before(j, n) == k then Before(k, n) else Before(j, n)]);
    bypassed
  }

  lemma BypassedNeighbours<T>(nodes: seq<Node<T>>, k: nat, i: nat)
    requires |nodes| > 1 && k < |nodes| && i < |nodes| - 1 && Bypassed(nodes, k)
    ensures var rest := nodes[..k] + nodes[k + 1..];
            && rest[i].next == rest[After(i, |rest|)]
            && rest[i].prev == rest[Before(i, |rest|)]
  {
    var n, rest := |nodes|, nodes[..k] + nodes[k + 1..];
    NeighboursAfterUnlink(i, k, n);
    assert rest[i] == nodes[Shift(i, k)];
    assert rest[After(i, n - 1)] == nodes[Shift(After(i, n - 1), k)];
    assert rest[Before(i, n - 1)] == nodes[Shift(Before(i, n - 1), k)];
  }

  /** What is left after the k-th node has been bypassed is a ring in the same order. */
  lemma BypassedIsRing<T>(nodes: seq<Node<T>>, k: nat)
    requires |nodes| > 1 && k < |nodes| && Bypassed(nodes, k)
    ensures IsRing(nodes[..k] + nodes[k + 1..])
  {
    var rest := nodes[..k] + nodes[k + 1..];
    forall i | 0 <= i < |rest|
      ensures rest[i].next == rest[After(i, |rest|)] && rest[i].prev == rest[Before(i, |rest|)]
    {
      BypassedNeighbours(nodes, k, i);
    }
  }

  /** The first node that holds an element is at index k, or there is none and k is -1. */
  ghost predicate FirstAt<T>(nodes: seq<Node<T>>, item: T, k: int) {
    var first :=
      && -1 <= k < |nodes|
      && (forall i :: 0 <= i < (if k == -1 then |nodes| else k) ==> nodes[i].t != item)
      && (k >= 0 ==> nodes[k].t == item);
    first
  }

  /** The nodes without the k-th. */
  ghost function Dropped<T>(nodes: seq<T>, k: int): seq<T> {
    if 0 <= k < |nodes| then nodes[..k] + nodes[k + 1..] else nodes
  }

  lemma DroppedWithin<T>(nodes: seq<T>, k: int)
    ensures forall i :: 0 <= i < |Dropped(nodes, k)| ==> Dropped(nodes, k)[i] in nodes
  {
  }

  class CircularLinkedList<T(==)> {
    var head: Node?<T>
    ghost var nodes: seq<Node<T>>

    ghost predicate Valid()
      reads this, nodes
    {
      head == (if nodes == [] then null else nodes[0]) && Ring(nodes)
    }

    constructor ()
      ensures Valid() && nodes == []
    {
      head := null;
      nodes := [];
    }

    /** Links a new node between the last node and the head. */
    method Append(e: Node<T>)
      requires Valid() && nodes != [] && e !in nodes
      modifies this`nodes, e, nodes
      ensures Valid() && nodes == old(nodes) + [e]
    {
      assert Look(RING_FOLD);
      ghost var before, n := nodes, |nodes|;
      assert before[0].prev == before[n - 1];
      e.prev := head.prev;
      e.next := head;
      e.prev.next := e;
      head.prev := e;
      nodes := before + [e];
      forall i | 0 <= i < n + 1
        ensures nodes[i].next == nodes[After(i, n + 1)]
        ensures nodes[i].prev == nodes[Before(i, n + 1)]
      {
        if i < n {
          assert old(before[i].next) == before[After(i, n)];
          assert old(before[i].prev) == before[Before(i, n)];
        }
      }
    }

    /** Adds an element at the end, just before the head. */
    method Add(t: T) returns (wasEmpty: bool)
      requires Valid()
      modifies this, nodes
      ensures Valid()
      ensures wasEmpty <==> old(nodes) == []
      ensures |nodes| == |old(nodes)| + 1 && nodes[..|old(nodes)|] == old(nodes)
      ensures fresh(nodes[|old(nodes)|]) && nodes[|old(nodes)|].t == t
    {
      var e := new Node(t);
      if head == null {
        e.next := e;
        e.prev := e;
        head := e;
        nodes := [e];
        wasEmpty := true;
      } else {
        Append(e);
        wasEmpty := false;
      }
    }

    /** Links the k-th node's neighbours to each other. */
    method Bypass(current: Node<T>, ghost k: nat)
      requires Valid() && k < |nodes| && current == nodes[k] && |nodes| > 1
      modifies nodes
      ensures Bypassed(nodes, k)
      ensures current.next == nodes[After(k, |nodes|)]
    {
      assert Look(RING_FOLD);
      ghost var n := |nodes|;
      NeighboursMeet(k, n);
      assert nodes[k].next == nodes[After(k, n)] && nodes[k].prev == nodes[Before(k, n)];
      var next := current.next;
      var prev := current.prev;
      prev.next := next;
      next.prev := prev;
    }

    /** Unlinks the k-th node; the list keeps its order. */
    method Unlink(current: Node<T>, ghost k: nat)
      requires Valid() && k < |nodes| && current == nodes[k] && |nodes| > 1
      modifies this, nodes
      ensures Valid() && nodes == old(nodes)[..k] + old(nodes)[k + 1..]
    {
      assert Look(RING_FOLD);
      Bypass(current, k);
      BypassedIsRing(nodes, k);
      if current == head {
        assert k == 0;
        head := head.next;
      }
      nodes := nodes[..k] + nodes[k + 1..];
    }

    method RemoveHead()
      requires Valid() && nodes != []
      modifies this, nodes
      ensures Valid()
      ensures nodes == old(nodes)[1..]
    {
      assert Look(RING_FOLD);
      var e := head;
      assert nodes[0].next == nodes[After(0, |nodes|)];
      if e.next == e {
        assert |nodes| == 1;
        head := null;
        nodes := [];
      } else {
        Unlink(e, 0);
      }
    }

    /** Removes the first occurrence of an element; `k` says where it was, or -1. */
    method Remove(item: T) returns (ghost k: int)
      requires Valid()
      modifies this, nodes
      ensures Valid()
      ensures FirstAt(old(nodes), item, k) && nodes == Dropped(old(nodes), k)
    {
      if head == null {
        return -1;
      }
      assert Look(RING_FOLD);
      assert nodes[0].next == nodes[After(0, |nodes|)];
      if head == head.next {
        assert |nodes| == 1;
        if head.t == item {
          head := null;
          nodes := [];
          return 0;
        }
        return -1;
      }
      var current := head;
      k := 0;
      while true
        invariant 0 <= k < |nodes| && current == nodes[k] && |nodes| > 1
        invariant Valid() && unchanged(this) && unchanged(nodes)
        invariant forall i :: 0 <= i < k ==> nodes[i].t != item
        decreases |nodes| - k
      {
        if current.t == item {
          Unlink(current, k);
          return;
        }
        assert nodes[k].next == nodes[After(k, |nodes|)];
        current := current.next;
        k := k + 1;
        if current == head {
          return -1;
        }
      }
    }

    method RemoveAll()
      requires Valid()
      modifies this, nodes
      ensures Valid() && nodes == []
    {
      while head != null
        invariant Valid()
        invariant |nodes| <= |old(nodes)| && nodes == old(nodes)[|old(nodes)| - |nodes|..]
        decreases |nodes|
      {
        RemoveHead();
      }
    }

    method Head() returns (t: T)
      requires Valid() && nodes != []
      ensures t == nodes[0].t
    {
      t := head.t;
    }

    predicate HasHead()
      reads this
    {
      head != null
    }

    /** The next element becomes the head. */
    method Rotate()
      requires Valid()
      modifies this
      ensures Valid()
      ensures old(nodes) == [] ==> nodes == []
      ensures old(nodes) != [] ==> nodes == old(nodes)[1..] + [old(nodes)[0]]
    {
      if head != null {
        assert Look(RING_FOLD);
        ghost var before, n := nodes, |nodes|;
        assert before[0].next == before[After(0, n)];
        head := head.next;
        nodes := before[1..] + [before[0]];
        forall i | 0 <= i < n
          ensures nodes[i].next == nodes[After(i, n)]
          ensures nodes[i].prev == nodes[Before(i, n)]
        {
          var j := After(i, n);
          assert nodes[i] == before[j];
          assert before[j].next == before[After(j, n)];
          assert before[j].prev == before[Before(j, n)];
        }
      }
    }
  }
}
