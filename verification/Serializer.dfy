/**
 The serializer and the decoder as they run: a growing list of visited objects, and
 loops that fill in the parts of lists and maps.
 */
module Serializers {
  import opened Folding
  import opened Wrappers
  import opened SerializerSpec
  import opened SerializerFacts
  import opened Deserializers

  /** The first i parts have become `wires`, and `visited` is the list of visited objects since;
      kept folded. */
  ghost predicate SoFar(heap: Heap, parts: seq<Value>, i: nat, start: seq<Ref>, wires: seq<Wire>, visited: seq<Ref>)
    requires i <= |parts| && HeapOk(heap) && forall v :: v in parts ==> ValueOk(heap, v)
  {
    forall level: int {:trigger Look(level)} :: Look(level) && level == PARTS_FOLD ==>
      (wires, visited) == SerAll(heap, parts[..i], start)
  }

  lemma SoFarStep(heap: Heap, parts: seq<Value>, i: nat, start: seq<Ref>, wires: seq<Wire>, visited: seq<Ref>)
    requires i < |parts| && HeapOk(heap) && forall v :: v in parts ==> ValueOk(heap, v)
    requires SoFar(heap, parts, i, start, wires, visited)
    ensures var (wire, after) := Ser(heap, parts[i], visited);
            SoFar(heap, parts, i + 1, start, wires + [wire], after)
  {
    assert Look(PARTS_FOLD);
    assert parts[..i + 1][..i] == parts[..i];
    SerAllLast(heap, parts[..i + 1], start);
  }

  /** What the earlier parts become does not depend on the later ones. */
  lemma {:induction false} EarlierParts(heap: Heap, parts: seq<Value>, i: nat, start: seq<Ref>)
    requires i <= |parts| && HeapOk(heap) && forall v :: v in parts ==> ValueOk(heap, v)
    ensures SerAll(heap, parts[..i], start).0 == SerAll(heap, parts, start).0[..i]
    decreases |parts|
  {
    if i == |parts| {
      assert parts[..i] == parts;
    } else {
      var n := |parts| - 1;
      EarlierParts(heap, parts[..n], i, start);
      assert parts[..n][..i] == parts[..i];
      SerAllLast(heap, parts, start);
    }
  }

  predicate SomeThrows(wires: seq<Wire>) {
    exists i :: 0 <= i < |wires| && Throws(wires[i])
  }

  /** An exception in one part is an exception of the whole. */
  lemma PartThrows(heap: Heap, parts: seq<Value>, i: nat, start: seq<Ref>, wires: seq<Wire>, visited: seq<Ref>)
    requires i < |parts| && HeapOk(heap) && forall v :: v in parts ==> ValueOk(heap, v)
    requires SoFar(heap, parts, i, start, wires, visited) && Throws(Ser(heap, parts[i], visited).0)
    ensures SomeThrows(SerAll(heap, parts, start).0)
  {
    assert Look(PARTS_FOLD);
    assert parts[..i + 1][..i] == parts[..i];
    SerAllLast(heap, parts[..i + 1], start);
    EarlierParts(heap, parts, i + 1, start);
    assert SerAll(heap, parts, start).0[i] == SerAll(heap, parts[..i + 1], start).0[i];
  }

  lemma ExpandedThrows(node: Node, id: nat, wires: seq<Wire>)
    ensures Throws(Expanded(node, id, wires)) <==> SomeThrows(wires)
  {
  }

  lemma ChildrenOk(heap: Heap, r: Ref)
    requires HeapOk(heap) && r in heap
    ensures forall v :: v in Children(heap[r]) ==> ValueOk(heap, v)
  {
    assert NodeOk(heap, heap[r]);
  }

  lemma {:induction false} FirstVisit(heap: Heap, r: Ref, visited: seq<Ref>, wires: seq<Wire>, after: seq<Ref>)
    requires HeapOk(heap) && r in heap && IndexOf(visited, r) == -1
    requires forall v :: v in Children(heap[r]) ==> ValueOk(heap, v)
    requires (wires, after) == SerAll(heap, Children(heap[r]), visited + [r])
    ensures Ser(heap, Object(r), visited) == (Expanded(heap[r], |visited|, wires), after)
  {
  }

  class Serializer {
    const heap: Heap
    var visited: seq<Ref>

    constructor (heap: Heap)
      ensures this.heap == heap && visited == []
    {
      this.heap := heap;
      visited := [];
    }

    /** Array.indexOf: the first position of an object, or -1. */
    method FindVisited(r: Ref) returns (id: int)
      ensures id == IndexOf(visited, r)
    {
      id := 0;
      while id < |visited|
        invariant 0 <= id <= |visited|
        invariant r !in visited[..id]
      {
        if visited[id] == r {
          return;
        }
        id := id + 1;
      }
      id := -1;
    }

    /** Serializes the parts of a list or map, in order, up to the first exception. */
    method SerializeParts(parts: seq<Value>) returns (r: Result<seq<Wire>>)
      requires HeapOk(heap) && forall v :: v in parts ==> ValueOk(heap, v)
      modifies this`visited
      ensures r.Thrown? <==> SomeThrows(SerAll(heap, parts, old(visited)).0)
      ensures r.Ok? ==> (r.value, visited) == SerAll(heap, parts, old(visited))
      decreases Unvisited(heap, visited), 2
    {
      var values := new Wire[|parts|](_ => WNull);
      var i := 0;
      assert parts[..0] == [];
      while i < |parts|
        invariant 0 <= i <= |parts| && old(visited) <= visited
        invariant SoFar(heap, parts, i, old(visited), values[..i], visited)
        invariant !SomeThrows(values[..i])
      {
        UnvisitedShrinks(heap, old(visited), visited);
        SoFarStep(heap, parts, i, old(visited), values[..i], visited);
        ghost var before, between := values[..i], visited;
        var value := DoSerialize(parts[i]);
        if value.Thrown? {
          PartThrows(heap, parts, i, old(visited), before, between);
          return Thrown(value.message);
        }
        values[i] := value.value;
        assert values[..i + 1] == before + [value.value];
        i := i + 1;
      }
      assert Look(PARTS_FOLD);
      assert parts[..i] == parts && values[..i] == values[..];
      r := Ok(values[..]);
    }

    /** Serializes an object on its first visit; later visits become references. */
    method CheckedSerialization(r: Ref) returns (w: Result<Wire>)
      requires HeapOk(heap) && r in heap
      modifies this`visited
      ensures w.Thrown? <==> Throws(Ser(heap, Object(r), old(visited)).0)
      ensures w.Ok? ==> (w.value, visited) == Ser(heap, Object(r), old(visited))
      decreases Unvisited(heap, visited), 0
    {
      var id := FindVisited(r);
      if id != -1 {
        return Ok(WRef(id));
      }
      id := |visited|;
      UnvisitedDrops(heap, visited, r);
      ChildrenOk(heap, r);
      ghost var (all, after) := SerAll(heap, Children(heap[r]), visited + [r]);
      FirstVisit(heap, r, visited, all, after);
      ExpandedThrows(heap[r], id, all);
      visited := visited + [r];
      var wires := SerializeParts(Children(heap[r]));
      if wires.Thrown? {
        return Thrown(wires.message);
      }
      w := Ok(Expanded(heap[r], id, wires.value));
    }

    method DoSerialize(message: Value) returns (w: Result<Wire>)
      requires HeapOk(heap) && ValueOk(heap, message)
      modifies this`visited
      ensures w.Thrown? <==> Throws(Ser(heap, message, old(visited)).0)
      ensures w.Ok? ==> (w.value, visited) == Ser(heap, message, old(visited))
      decreases Unvisited(heap, visited), 1
    {
      match message
      case Null => w := Ok(WNull);
      case Undefined => w := Ok(WNull);
      case Str(s) => w := Ok(WStr(s));
      case Num(n) => w := Ok(WNum(n));
      case Bool(b) => w := Ok(WBool(b));
      case LocalPort(id) => w := if id.Some? then Ok(WLocalPort(id.value)) else Thrown("TypeError");
      case DartPort(isolateId, portId) => w := Ok(WDartPort(isolateId, portId));
      case Object(r) => w := CheckedSerialization(r);
    }
  }

  /** serialize(message) */
  method Serialize(heap: Heap, message: Value) returns (w: Result<Wire>)
    requires HeapOk(heap) && ValueOk(heap, message)
    ensures w.Thrown? <==> Detached(heap, message)
    ensures w.Ok? ==> w.value == Serialized(heap, message)
  {
    var serializer := new Serializer(heap);
    w := serializer.DoSerialize(message);
    ThrowsIffDetached(heap, message);
  }

  method DeserializeList(w: Wire, open: set<int>) returns (r: Result<Tree>)
    requires w.WList?
    ensures r == Deser(w, open)
    decreases w, 0
  {
    var length := |w.elements|;
    var result := new Tree[length](_ => TUndefined);
    var i := 0;
    while i < length
      invariant 0 <= i <= length
      invariant DeserElements(w, i, open) == Ok(result[..i])
    {
      var element := DeserializeHelper(w.elements[i], open);
      if element.Thrown? {
        ElementThrows(w, i, length, open);
        return Thrown(element.message);
      }
      result[i] := element.value;
      assert result[..i + 1] == result[..i] + [result[i]];
      i := i + 1;
    }
    assert result[..i] == result[..];
    r := Ok(TList(result[..]));
  }

  method DeserializeMap(w: Wire, open: set<int>) returns (r: Result<Tree>)
    requires w.WMap?
    ensures r == Deser(w, open)
    decreases w, 0
  {
    var fields: map<string, Tree> := map[];
    var i := 0;
    while i < |w.keys|
      invariant 0 <= i <= |w.keys|
      invariant DeserFields(w, i, open) == Ok(fields)
    {
      var value := Ok(TUndefined);
      if i < |w.values| {
        value := DeserializeHelper(w.values[i], open);
      }
      if value.Thrown? {
        FieldThrows(w, i, |w.keys|, open);
        return Thrown(value.message);
      }
      fields := Assign(fields, w.keys[i], value.value);
      i := i + 1;
    }
    r := Ok(TMap(fields));
  }

  method DeserializeHelper(w: Wire, open: set<int>) returns (r: Result<Tree>)
    ensures r == Deser(w, open)
    decreases w
  {
    match w
    case WNull => r := Ok(TNull);
    case WStr(s) => r := Ok(TStr(s));
    case WNum(n) => r := Ok(TNum(n));
    case WBool(b) => r := Ok(TBool(b));
    case WLocalPort(id) => r := Ok(TLocalPort(if id in open then Some(id) else None));
    case WDartPort(isolateId, portId) => r := Ok(TDartPort(isolateId, portId));
    case WList(_, _) => r := DeserializeList(w, open);
    case WMap(_, _, _) => r := DeserializeMap(w, open);
    case WThrow => r := Thrown("unimplemented");
    case WRef(_) => r := Thrown("unimplemented");
  }

  /** An exception in one element is the exception of the whole list. */
  lemma {:induction false} ElementThrows(w: Wire, i: nat, n: nat, open: set<int>)
    requires w.WList? && i < n <= |w.elements|
    requires DeserElements(w, i, open).Ok? && Deser(w.elements[i], open).Thrown?
    ensures DeserElements(w, n, open) == Thrown(Deser(w.elements[i], open).message)
    decreases n
  {
    if i >= n - 1 {
    } else {
      ElementThrows(w, i, n - 1, open);
    }
  }

  lemma {:induction false} FieldThrows(w: Wire, i: nat, n: nat, open: set<int>)
    requires w.WMap? && i < n <= |w.keys| && i < |w.values|
    requires DeserFields(w, i, open).Ok? && Deser(w.values[i], open).Thrown?
    ensures DeserFields(w, n, open) == Thrown(Deser(w.values[i], open).message)
    decreases n
  {
    if i >= n - 1 {
    } else {
      FieldThrows(w, i, n - 1, open);
    }
  }

  /** LocalSendPortSync.callSync: a message is copied by serializing and decoding it. */
  method CopyMessage(heap: Heap, message: Value, open: set<int>) returns (r: Result<Tree>)
    requires HeapOk(heap) && ValueOk(heap, message)
    ensures r.Ok? <==> !Shared(heap, message) && !Detached(heap, message)
    ensures r.Ok? ==> (Equal(heap, message, r.value) <==> Portable(heap, message, open))
  {
    RoundTrip(heap, message, open);
    ThrowsIffDetached(heap, message);
    var w := Serialize(heap, message);
    if w.Thrown? {
      return Thrown(w.message);
    }
    r := DeserializeHelper(w.value, open);
  }
}
