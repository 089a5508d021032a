/**
 The message serializer of the JavaScript side: an object graph, cycles and sharing
 included, is turned into a tree in which every list and map carries a number and a
 second visit is written as a reference to that number.
 */
module SerializerSpec {
  import opened Wrappers

  type Ref = nat

  /** A JavaScript value; lists and maps live in the heap, everything else is itself.  A local port
      whose receive port is undefined, as decoding can make one, holds None. */
  datatype Value =
    | Null
    | Undefined
    | Str(s: string)
    | Num(n: real)
    | Bool(b: bool)
    | LocalPort(receivePortId: Option<int>)
    | DartPort(isolateId: int, portId: int)
    | Object(ref: Ref)

  datatype Node =
    | List(elements: seq<Value>)
    | Map(keys: seq<string>, values: seq<Value>)

  type Heap = map<Ref, Node>

  function Children(node: Node): seq<Value> {
    match node
    case List(elements) => elements
    case Map(_, values) => values
  }

  predicate NodeOk(heap: Heap, node: Node) {
    && (node.Map? ==> |node.keys| == |node.values|)
    && (node.Map? ==> forall i, j :: 0 <= i < j < |node.keys| ==> node.keys[i] != node.keys[j])
    && (forall v :: v in Children(node) ==> v.Object? ==> v.ref in heap)
  }

  /** No dangling references, and the property names of an object are distinct. */
  predicate HeapOk(heap: Heap) {
    forall r {:trigger heap[r]} :: r in heap ==> NodeOk(heap, heap[r])
  }

  predicate ValueOk(heap: Heap, v: Value) {
    v.Object? ==> v.ref in heap
  }

  /** The serialized form; `WThrow` stands where reading the id of an undefined receive port throws. */
  datatype Wire =
    | WNull
    | WStr(s: string)
    | WNum(n: real)
    | WBool(b: bool)
    | WLocalPort(receivePortId: int)
    | WDartPort(isolateId: int, portId: int)
    | WThrow
    | WRef(id: nat)
    | WList(id: nat, elements: seq<Wire>)
    | WMap(id: nat, keys: seq<string>, values: seq<Wire>)

  // ----- serialization -----

  function IndexOf(visited: seq<Ref>, r: Ref): (i: int)
    ensures -1 <= i < |visited|
    ensures i >= 0 ==> visited[i] == r && r !in visited[..i]
    ensures i == -1 <==> r !in visited
  {
    if visited == [] then -1
    else
      var n := |visited| - 1;
      var i := IndexOf(visited[..n], r);
      if i != -1 then i
      else if visited[n] == r then n
      else -1
  }

  function Unvisited(heap: Heap, visited: seq<Ref>): nat {
    |heap.Keys - set r | r in visited|
  }

  lemma UnvisitedShrinks(heap: Heap, visited: seq<Ref>, longer: seq<Ref>)
    requires visited <= longer
    ensures Unvisited(heap, longer) <= Unvisited(heap, visited)
  {
    var seen, seenMore := set r | r in visited, set r | r in longer;
    assert seen <= seenMore by {
      forall r | r in visited ensures r in longer {
        var i :| 0 <= i < |visited| && visited[i] == r;
        assert longer[i] == r;
      }
    }
    SubsetSize(heap.Keys - seenMore, heap.Keys - seen);
  }

  lemma SubsetSize(a: set<Ref>, b: set<Ref>)
    requires a <= b
    ensures |a| <= |b|
  {
    assert b == a + (b - a);
  }

  lemma UnvisitedDrops(heap: Heap, visited: seq<Ref>, r: Ref)
    requires r in heap && r !in visited
    ensures Unvisited(heap, visited + [r]) < Unvisited(heap, visited)
  {
    var before := heap.Keys - set q | q in visited;
    assert heap.Keys - (set q | q in visited + [r]) == before - {r};
    assert r in before;
  }

  /** A list or map written out in full. */
  function Expanded(node: Node, id: nat, wires: seq<Wire>): Wire {
    match node
    case List(_) => WList(id, wires)
    case Map(keys, _) => WMap(id, keys, wires)
  }

  /** The wire form of a value, and the list of visited objects afterwards. */
  function Ser(heap: Heap, v: Value, visited: seq<Ref>): (result: (Wire, seq<Ref>))
    requires HeapOk(heap) && ValueOk(heap, v)
    ensures visited <= result.1
    decreases Unvisited(heap, visited), 0
  {
    match v
    case Null => (WNull, visited)
    case Undefined => (WNull, visited)
    case Str(s) => (WStr(s), visited)
    case Num(n) => (WNum(n), visited)
    case Bool(b) => (WBool(b), visited)
    case LocalPort(Some(id)) => (WLocalPort(id), visited)
    case LocalPort(None) => (WThrow, visited)
    case DartPort(isolateId, portId) => (WDartPort(isolateId, portId), visited)
    case Object(r) =>
      var id := IndexOf(visited, r);
      if id != -1 then (WRef(id), visited)
      else
        UnvisitedDrops(heap, visited, r);
        assert NodeOk(heap, heap[r]);
        var (wires, after) := SerAll(heap, Children(heap[r]), visited + [r]);
        (Expanded(heap[r], |visited|, wires), after)
  }

  /** The wire forms of several values, one after the other. */
  function SerAll(heap: Heap, vs: seq<Value>, visited: seq<Ref>): (result: (seq<Wire>, seq<Ref>))
    requires HeapOk(heap) && forall v :: v in vs ==> ValueOk(heap, v)
    ensures visited <= result.1 && |result.0| == |vs|
    decreases Unvisited(heap, visited), |vs| + 1
  {
    if vs == [] then ([], visited)
    else
      var n := |vs| - 1;
      var (wires, between) := SerAll(heap, vs[..n], visited);
      UnvisitedShrinks(heap, visited, between);
      var (wire, after) := Ser(heap, vs[n], between);
      (wires + [wire], after)
  }

  /** Serializing one more value at the end. */
  lemma SerAllLast(heap: Heap, vs: seq<Value>, visited: seq<Ref>)
    requires vs != [] && HeapOk(heap) && forall v :: v in vs ==> ValueOk(heap, v)
    ensures var n := |vs| - 1;
            var (wires, between) := SerAll(heap, vs[..n], visited);
            var (wire, after) := Ser(heap, vs[n], between);
            SerAll(heap, vs, visited) == (wires + [wire], after)
  {
  }

  // ----- numbering -----

  /**
   The next free number after a wire value, if lists and maps in it are numbered in
   the order in which they are met, from `next` on, and references look only back.
   */
  function Numbered(w: Wire, next: nat): (after: int)
    ensures after == -1 || next <= after
    decreases w
  {
    match w
    case WRef(id) => if id < next then next else -1
    case WList(id, elements) => if id == next then NumberedAll(elements, next + 1) else -1
    case WMap(id, _, values) => if id == next then NumberedAll(values, next + 1) else -1
    case _ => next
  }

  function NumberedAll(ws: seq<Wire>, next: nat): (after: int)
    ensures after == -1 || next <= after
    decreases ws
  {
    if ws == [] then next
    else
      var n := |ws| - 1;
      var between := NumberedAll(ws[..n], next);
      if between == -1 then -1 else Numbered(ws[n], between)
  }

  lemma NumberedOneMore(ws: seq<Wire>, w: Wire, next: nat)
    requires NumberedAll(ws, next) != -1
    ensures NumberedAll(ws + [w], next) == Numbered(w, NumberedAll(ws, next))
  {
    assert (ws + [w])[..|ws|] == ws;
  }

  /** Objects are numbered 0, 1, 2, ... in the order they are first met, each once. */
  lemma {:induction false} SerIsNumbered(heap: Heap, v: Value, visited: seq<Ref>)
    requires HeapOk(heap) && ValueOk(heap, v)
    ensures var (w, after) := Ser(heap, v, visited); Numbered(w, |visited|) == |after|
    decreases Unvisited(heap, visited), 0
  {
    if v.Object? && IndexOf(visited, v.ref) == -1 {
      UnvisitedDrops(heap, visited, v.ref);
      assert NodeOk(heap, heap[v.ref]);
      SerAllIsNumbered(heap, Children(heap[v.ref]), visited + [v.ref]);
    }
  }

  lemma {:induction false} SerAllIsNumbered(heap: Heap, vs: seq<Value>, visited: seq<Ref>)
    requires HeapOk(heap) && forall v :: v in vs ==> ValueOk(heap, v)
    ensures var (ws, after) := SerAll(heap, vs, visited); NumberedAll(ws, |visited|) == |after|
    decreases Unvisited(heap, visited), |vs| + 1
  {
    if vs == [] {
    } else {
      var n := |vs| - 1;
      var (wires, between) := SerAll(heap, vs[..n], visited);
      SerAllIsNumbered(heap, vs[..n], visited);
      UnvisitedShrinks(heap, visited, between);
      SerIsNumbered(heap, vs[n], between);
      SerAllLast(heap, vs, visited);
      NumberedOneMore(wires, Ser(heap, vs[n], between).0, |visited|);
    }
  }
}
