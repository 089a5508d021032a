/**
 The decoder for serialized messages, which knows no references, and when decoding
 gives back what was serialized.
 */
module Deserializers {
  import opened Wrappers
  import opened SerializerSpec
  import opened SerializerFacts

  /** A freshly built JavaScript value; a port whose receiver is gone holds None. */
  datatype Tree =
    | TNull
    | TUndefined
    | TStr(s: string)
    | TNum(n: real)
    | TBool(b: bool)
    | TLocalPort(receivePortId: Option<int>)
    | TDartPort(isolateId: int, portId: int)
    | TList(elements: seq<Tree>)
    | TMap(fields: map<string, Tree>)

  datatype Result<+T> = Ok(value: T) | Thrown(message: string)

  const PROTO := "__proto__"

  /** `object[key] = value`: writing to __proto__ sets the prototype, not a property. */
  function Assign(fields: map<string, Tree>, key: string, value: Tree): map<string, Tree> {
    if key == PROTO then fields else fields[key := value]
  }

  /** `open` holds the ids of the receive ports that have not been closed. */
  function Deser(w: Wire, open: set<int>): Result<Tree>
    decreases w, 0
  {
    match w
    case WNull => Ok(TNull)
    case WStr(s) => Ok(TStr(s))
    case WNum(n) => Ok(TNum(n))
    case WBool(b) => Ok(TBool(b))
    case WLocalPort(id) => Ok(TLocalPort(if id in open then Some(id) else None))
    case WDartPort(isolateId, portId) => Ok(TDartPort(isolateId, portId))
    case WThrow => Thrown("unimplemented")
    case WRef(_) => Thrown("unimplemented")
    case WList(_, elements) =>
      (match DeserElements(w, |elements|, open)
       case Ok(trees) => Ok(TList(trees))
       case Thrown(message) => Thrown(message))
    case WMap(_, keys, _) =>
      (match DeserFields(w, |keys|, open)
       case Ok(fields) => Ok(TMap(fields))
       case Thrown(message) => Thrown(message))
  }

  /** The first n elements of a list. */
  function DeserElements(w: Wire, n: nat, open: set<int>): (r: Result<seq<Tree>>)
    requires w.WList? && n <= |w.elements|
    ensures r.Ok? ==> |r.value| == n
    decreases w, 0, n
  {
    if n == 0 then Ok([])
    else
      match DeserElements(w, n - 1, open)
      case Thrown(message) => Thrown(message)
      case Ok(trees) =>
        match Deser(w.elements[n - 1], open)
        case Thrown(message) => Thrown(message)
        case Ok(tree) => Ok(trees + [tree])
  }

  /** The first n properties of a map; a missing value reads as undefined. */
  function DeserFields(w: Wire, n: nat, open: set<int>): Result<map<string, Tree>>
    requires w.WMap? && n <= |w.keys|
    decreases w, 0, n
  {
    if n == 0 then Ok(map[])
    else
      match DeserFields(w, n - 1, open)
      case Thrown(message) => Thrown(message)
      case Ok(fields) =>
        match if n <= |w.values| then Deser(w.values[n - 1], open) else Ok(TUndefined)
        case Thrown(message) => Thrown(message)
        case Ok(tree) => Ok(Assign(fields, w.keys[n - 1], tree))
  }

  // ----- decoding succeeds exactly on wire forms without references -----

  /** As serialized: complete, and a map has as many values as keys, which are distinct. */
  predicate WireOk(w: Wire)
    decreases w
  {
    match w
    case WList(_, elements) => forall i :: 0 <= i < |elements| ==> WireOk(elements[i])
    case WMap(_, keys, values) =>
      && |keys| == |values|
      && (forall i, j :: 0 <= i < j < |keys| ==> keys[i] != keys[j])
      && (forall i :: 0 <= i < |values| ==> WireOk(values[i]))
    case WThrow => false
    case _ => true
  }

  lemma {:induction false} DepictionIsWireOk(heap: Heap, names: seq<Ref>, v: Value, w: Wire)
    requires HeapOk(heap) && Depicts(heap, names, v, w) && !Throws(w)
    ensures WireOk(w)
    decreases w
  {
    if IsExpansion(w) {
      DepictsParts(heap, names, v, w);
      assert NodeOk(heap, heap[v.ref]);
      forall i | 0 <= i < |Parts(w)| ensures WireOk(Parts(w)[i]) {
        DepictionIsWireOk(heap, names, Children(heap[v.ref])[i], Parts(w)[i]);
      }
    }
  }

  lemma {:induction false} DecodesIffNoRefs(w: Wire, open: set<int>)
    requires WireOk(w)
    ensures Deser(w, open).Ok? <==> NoRefs(w)
    decreases w, 1
  {
    match w
    case WList(_, elements) => ElementsDecode(w, |elements|, open);
    case WMap(_, keys, _) => FieldsDecode(w, |keys|, open);
    case _ =>
  }

  lemma {:induction false} ElementsDecode(w: Wire, n: nat, open: set<int>)
    requires WireOk(w) && w.WList? && n <= |w.elements|
    ensures DeserElements(w, n, open).Ok? <==> forall i :: 0 <= i < n ==> NoRefs(w.elements[i])
    decreases w, 0, n
  {
    if n == 0 {
    } else {
      ElementsDecode(w, n - 1, open);
      DecodesIffNoRefs(w.elements[n - 1], open);
    }
  }

  lemma {:induction false} FieldsDecode(w: Wire, n: nat, open: set<int>)
    requires WireOk(w) && w.WMap? && n <= |w.keys|
    ensures DeserFields(w, n, open).Ok? <==> forall i :: 0 <= i < n ==> NoRefs(w.values[i])
    decreases w, 0, n
  {
    if n == 0 {
    } else {
      FieldsDecode(w, n - 1, open);
      DecodesIffNoRefs(w.values[n - 1], open);
    }
  }

  // ----- and then gives back an equal value -----

  /** Structural equality of a graph value and a decoded tree, undefined read as null. */
  ghost predicate Equal(heap: Heap, v: Value, t: Tree)
    decreases t
  {
    match t
    case TNull => v.Null? || v.Undefined?
    case TUndefined => false
    case TStr(s) => v == Str(s)
    case TNum(n) => v == Num(n)
    case TBool(b) => v == Bool(b)
    case TLocalPort(id) => id.Some? && v == LocalPort(id)
    case TDartPort(isolateId, portId) => v == DartPort(isolateId, portId)
    case TList(elements) =>
      && v.Object? && v.ref in heap && heap[v.ref].List?
      && |heap[v.ref].elements| == |elements|
      && forall i :: 0 <= i < |elements| ==> Equal(heap, heap[v.ref].elements[i], elements[i])
    case TMap(fields) =>
      && v.Object? && v.ref in heap && heap[v.ref].Map?
      && var keys, values := heap[v.ref].keys, heap[v.ref].values;
         && |keys| == |values|
         && fields.Keys == (set k | k in keys)
         && forall i :: 0 <= i < |keys| && keys[i] in fields ==> Equal(heap, values[i], fields[keys[i]])
  }

  /** Every local port is open, and no object has a property of its own called __proto__. */
  predicate Survives(w: Wire, open: set<int>)
    decreases w
  {
    match w
    case WLocalPort(id) => id in open
    case WThrow => false
    case WList(_, elements) => forall i :: 0 <= i < |elements| ==> Survives(elements[i], open)
    case WMap(_, keys, values) => PROTO !in keys && forall i :: 0 <= i < |values| ==> Survives(values[i], open)
    case _ => true
  }

  lemma {:induction false} DecodedElement(w: Wire, n: nat, open: set<int>, i: nat)
    requires w.WList? && i < n <= |w.elements| && DeserElements(w, n, open).Ok?
    ensures Deser(w.elements[i], open).Ok?
    ensures DeserElements(w, n, open).value[i] == Deser(w.elements[i], open).value
    decreases n
  {
    if i >= n - 1 {
    } else {
      DecodedElement(w, n - 1, open, i);
    }
  }

  lemma {:induction false} DecodedKeys(w: Wire, n: nat, open: set<int>)
    requires w.WMap? && n <= |w.keys| && DeserFields(w, n, open).Ok?
    ensures DeserFields(w, n, open).value.Keys == (set k | k in w.keys[..n]) - {PROTO}
    decreases n
  {
    if n == 0 {
    } else {
      DecodedKeys(w, n - 1, open);
      assert w.keys[..n] == w.keys[..n - 1] + [w.keys[n - 1]];
    }
  }

  lemma {:induction false} DecodedField(w: Wire, n: nat, open: set<int>, i: nat)
    requires WireOk(w) && w.WMap? && i < n <= |w.keys| && DeserFields(w, n, open).Ok? && w.keys[i] != PROTO
    ensures Deser(w.values[i], open).Ok?
    ensures w.keys[i] in DeserFields(w, n, open).value
    ensures DeserFields(w, n, open).value[w.keys[i]] == Deser(w.values[i], open).value
    decreases n
  {
    if i >= n - 1 {
    } else {
      DecodedField(w, n - 1, open, i);
      assert w.keys[i] != w.keys[n - 1];
    }
  }

  lemma {:induction false} DecodedEqualIff(heap: Heap, names: seq<Ref>, v: Value, w: Wire, open: set<int>)
    requires HeapOk(heap) && Depicts(heap, names, v, w) && NoRefs(w) && !Throws(w)
    ensures Deser(w, open).Ok?
    ensures Equal(heap, v, Deser(w, open).value) <==> Survives(w, open)
    decreases w
  {
    DepictionIsWireOk(heap, names, v, w);
    DecodesIffNoRefs(w, open);
    match w
    case WList(_, elements) => DecodedListEqualIff(heap, names, v, w, open);
    case WMap(_, keys, values) => DecodedMapEqualIff(heap, names, v, w, open);
    case _ =>
  }

  lemma {:induction false} DecodedListEqualIff(heap: Heap, names: seq<Ref>, v: Value, w: Wire, open: set<int>)
    requires HeapOk(heap) && Depicts(heap, names, v, w) && NoRefs(w) && !Throws(w) && w.WList? && Deser(w, open).Ok?
    ensures Equal(heap, v, Deser(w, open).value) <==> Survives(w, open)
    decreases w, 0
  {
    DepictsParts(heap, names, v, w);
    var elements, trees := heap[v.ref].elements, DeserElements(w, |w.elements|, open).value;
    forall i | 0 <= i < |trees| ensures Equal(heap, elements[i], trees[i]) <==> Survives(w.elements[i], open) {
      DecodedElement(w, |w.elements|, open, i);
      DecodedEqualIff(heap, names, elements[i], w.elements[i], open);
    }
  }

  lemma {:induction false} DecodedFieldEqualIff(
    heap: Heap, names: seq<Ref>, v: Value, w: Wire, open: set<int>, i: nat)
    requires HeapOk(heap) && Depicts(heap, names, v, w) && NoRefs(w) && !Throws(w) && w.WMap? && WireOk(w)
    requires i < |w.keys| && w.keys[i] != PROTO && DeserFields(w, |w.keys|, open).Ok?
    ensures var fields := DeserFields(w, |w.keys|, open).value;
            && w.keys[i] in fields
            && (Equal(heap, heap[v.ref].values[i], fields[w.keys[i]]) <==> Survives(w.values[i], open))
    decreases w, 0
  {
    DepictsParts(heap, names, v, w);
    DecodedField(w, |w.keys|, open, i);
    DecodedEqualIff(heap, names, heap[v.ref].values[i], w.values[i], open);
  }

  lemma {:induction false} DecodedMapEqualIff(heap: Heap, names: seq<Ref>, v: Value, w: Wire, open: set<int>)
    requires HeapOk(heap) && Depicts(heap, names, v, w) && NoRefs(w) && !Throws(w) && w.WMap? && Deser(w, open).Ok? && WireOk(w)
    ensures Equal(heap, v, Deser(w, open).value) <==> Survives(w, open)
    decreases w, 1
  {
    var fields := DeserFields(w, |w.keys|, open).value;
    DecodedKeys(w, |w.keys|, open);
    assert w.keys[..|w.keys|] == w.keys;
    if PROTO in w.keys {
      assert PROTO in (set k | k in w.keys) && PROTO !in fields.Keys;
    } else {
      assert fields.Keys == set k | k in w.keys;
      forall i | 0 <= i < |w.keys|
        ensures w.keys[i] in fields
        ensures Equal(heap, heap[v.ref].values[i], fields[w.keys[i]]) <==> Survives(w.values[i], open)
      {
        DecodedFieldEqualIff(heap, names, v, w, open, i);
      }
    }
  }

  /** The same condition, said of the graph: along every path. */
  ghost predicate Portable(heap: Heap, v: Value, open: set<int>) {
    forall path: Path :: Follow(heap, v, path).Some? ==>
      var u := Follow(heap, v, path).value;
      && (u.LocalPort? ==> u.receivePortId.Some? && u.receivePortId.value in open)
      && (u.Object? && u.ref in heap && heap[u.ref].Map? ==> PROTO !in heap[u.ref].keys)
  }

  lemma {:induction false} SurvivesAt(w: Wire, open: set<int>, path: Path)
    requires Survives(w, open) && At(w, path).Some?
    ensures Survives(At(w, path).value, open)
    decreases |path|
  {
    if path == [] {
    } else {
      SurvivesAt(Parts(w)[path[0]], open, path[1..]);
    }
  }

  lemma {:induction false} PortableSurvives(heap: Heap, names: seq<Ref>, v: Value, w: Wire, open: set<int>)
    requires Depicts(heap, names, v, w) && Portable(heap, v, open)
    ensures Survives(w, open)
    decreases w
  {
    assert Follow(heap, v, []) == Some(v);
    if IsExpansion(w) {
      DepictsParts(heap, names, v, w);
      forall i | 0 <= i < |Parts(w)| ensures Survives(Parts(w)[i], open) {
        var u := Children(heap[v.ref])[i];
        forall path: Path | Follow(heap, u, path).Some? ensures Follow(heap, v, [i] + path) == Follow(heap, u, path) {
          assert ([i] + path)[1..] == path;
        }
        assert Portable(heap, u, open);
        PortableSurvives(heap, names, u, Parts(w)[i], open);
      }
    }
  }

  lemma SurvivesIffPortable(heap: Heap, names: seq<Ref>, v: Value, w: Wire, open: set<int>)
    requires HeapOk(heap) && Depicts(heap, names, v, w) && NoRefs(w)
    ensures Survives(w, open) <==> Portable(heap, v, open)
  {
    if Survives(w, open) {
      forall path: Path | Follow(heap, v, path).Some?
        ensures var u := Follow(heap, v, path).value;
                && (u.LocalPort? ==> u.receivePortId.Some? && u.receivePortId.value in open)
                && (u.Object? && u.ref in heap && heap[u.ref].Map? ==> PROTO !in heap[u.ref].keys)
      {
        EveryPathIsThere(heap, names, v, w, path);
        AtFollows(heap, names, v, w, path);
        SurvivesAt(w, open, path);
      }
    }
    if Portable(heap, v, open) {
      PortableSurvives(heap, names, v, w, open);
    }
  }

  /** Serializing a message and decoding it. */
  function Copy(heap: Heap, v: Value, open: set<int>): Result<Tree>
    requires HeapOk(heap) && ValueOk(heap, v)
  {
    if Throws(Serialized(heap, v)) then Thrown("TypeError") else Deser(Serialized(heap, v), open)
  }

  /**
   Copying a message succeeds exactly when nothing in it is reached along two paths and every
   local port in it has a receive port; and then the copy is equal exactly when every local port
   is still open and no object has a property of its own named __proto__.
   */
  lemma RoundTrip(heap: Heap, v: Value, open: set<int>)
    requires HeapOk(heap) && ValueOk(heap, v)
    ensures Copy(heap, v, open).Ok? <==> !Shared(heap, v) && !Detached(heap, v)
    ensures Copy(heap, v, open).Ok? ==> (Equal(heap, v, Copy(heap, v, open).value) <==> Portable(heap, v, open))
  {
    var w, names := Serialized(heap, v), Names(heap, v);
    SerializedWell(heap, v);
    ThrowsIffDetached(heap, v);
    NoRefsIffTree(heap, v);
    if !Throws(w) {
      DepictionIsWireOk(heap, names, v, w);
      DecodesIffNoRefs(w, open);
      if NoRefs(w) {
        DecodedEqualIff(heap, names, v, w, open);
        SurvivesIffPortable(heap, names, v, w, open);
      }
    }
  }

  lemma SerAllOfOne(heap: Heap, v: Value, visited: seq<Ref>)
    requires HeapOk(heap) && ValueOk(heap, v)
    ensures var (w, after) := Ser(heap, v, visited); SerAll(heap, [v], visited) == ([w], after)
  {
    assert [v][..0] == [];
    var none: seq<Wire> := [];
    assert SerAll(heap, [], visited) == (none, visited);
    assert none + [Ser(heap, v, visited).0] == [Ser(heap, v, visited).0];
  }

  const PROTO_HEAP: Heap := map[0 := Map([PROTO], [Bool(true)])]

  /** An object with one property, named __proto__, comes back empty. */
  lemma ProtoPropertyIsLost()
    ensures HeapOk(PROTO_HEAP)
    ensures Deser(Serialized(PROTO_HEAP, Object(0)), {}) == Ok(TMap(map[]))
    ensures !Equal(PROTO_HEAP, Object(0), TMap(map[]))
  {
    assert NodeOk(PROTO_HEAP, PROTO_HEAP[0]);
    var wire := WMap(0, [PROTO], [WBool(true)]);
    SerAllOfOne(PROTO_HEAP, Bool(true), [0]);
    assert Serialized(PROTO_HEAP, Object(0)) == wire by {
      assert [] + [0] == [0];
    }
    assert DeserFields(wire, 0, {}) == Ok(map[]);
    assert DeserFields(wire, 1, {}) == Ok(map[]);
    assert PROTO in [PROTO] && PROTO in (set k | k in [PROTO]);
  }
}
