/**
 What the serialized form means: every wire value depicts the value it was made from,
 the visited objects are exactly the reachable ones, and the form is free of
 references exactly when nothing is reached along two different paths.
 */
module SerializerFacts {
  import opened Wrappers
  import opened SerializerSpec

  // ----- a wire value depicts a value of the graph -----

  /** `names[id]` is the object that the number `id` stands for. */
  ghost predicate Depicts(heap: Heap, names: seq<Ref>, v: Value, w: Wire)
    decreases w
  {
    match w
    case WNull => v.Null? || v.Undefined?
    case WStr(s) => v == Str(s)
    case WNum(n) => v == Num(n)
    case WBool(b) => v == Bool(b)
    case WLocalPort(id) => v == LocalPort(Some(id))
    case WThrow => v == LocalPort(None)
    case WDartPort(isolateId, portId) => v == DartPort(isolateId, portId)
    case WRef(id) => v.Object? && id < |names| && names[id] == v.ref
    case WList(id, elements) =>
      && v.Object? && id < |names| && names[id] == v.ref
      && v.ref in heap && heap[v.ref].List?
      && DepictsAll(heap, names, heap[v.ref].elements, elements)
    case WMap(id, keys, values) =>
      && v.Object? && id < |names| && names[id] == v.ref
      && v.ref in heap && heap[v.ref].Map? && heap[v.ref].keys == keys && |keys| == |values|
      && DepictsAll(heap, names, heap[v.ref].values, values)
  }

  ghost predicate DepictsAll(heap: Heap, names: seq<Ref>, vs: seq<Value>, ws: seq<Wire>)
    decreases ws
  {
    |vs| == |ws| && forall i :: 0 <= i < |ws| ==> Depicts(heap, names, vs[i], ws[i])
  }

  lemma PrefixNames(a: seq<Ref>, b: seq<Ref>, c: seq<Ref>)
    requires a <= b && b <= c
    ensures a <= c
  {
    assert a == b[..|a|] == c[..|b|][..|a|] == c[..|a|];
  }

  lemma LeafDepicts(heap: Heap, v: Value, visited: seq<Ref>, names: seq<Ref>)
    requires HeapOk(heap) && !v.Object?
    ensures Depicts(heap, names, v, Ser(heap, v, visited).0)
  {
  }

  /** The names begin with the objects visited so far and the one being visited. */
  lemma NamedNext(visited: seq<Ref>, r: Ref, after: seq<Ref>, names: seq<Ref>)
    requires visited + [r] <= after && after <= names
    ensures |visited| < |names| && names[|visited|] == r
  {
    PrefixNames(visited + [r], after, names);
    assert names[|visited|] == (visited + [r])[|visited|];
  }

  lemma {:induction false} SerDepicts(heap: Heap, v: Value, visited: seq<Ref>, names: seq<Ref>)
    requires HeapOk(heap) && ValueOk(heap, v)
    requires Ser(heap, v, visited).1 <= names
    ensures Depicts(heap, names, v, Ser(heap, v, visited).0)
    decreases Unvisited(heap, visited), 0
  {
    if !v.Object? {
      LeafDepicts(heap, v, visited, names);
    } else {
      var r, id := v.ref, IndexOf(visited, v.ref);
      if id == -1 {
        UnvisitedDrops(heap, visited, r);
        assert NodeOk(heap, heap[r]);
        SerAllDepicts(heap, Children(heap[r]), visited + [r], names);
        NamedNext(visited, r, SerAll(heap, Children(heap[r]), visited + [r]).1, names);
      } else {
        assert names[id] == visited[id];
      }
    }
  }

  lemma DepictsOneMore(heap: Heap, names: seq<Ref>, vs: seq<Value>, ws: seq<Wire>, w: Wire)
    requires vs != [] && DepictsAll(heap, names, vs[..|vs| - 1], ws) && Depicts(heap, names, vs[|vs| - 1], w)
    ensures DepictsAll(heap, names, vs, ws + [w])
  {
    forall i | 0 <= i < |vs| ensures Depicts(heap, names, vs[i], (ws + [w])[i]) {
      if i < |vs| - 1 {
        assert Depicts(heap, names, vs[..|vs| - 1][i], ws[i]);
      }
    }
  }

  lemma {:induction false} SerAllDepicts(heap: Heap, vs: seq<Value>, visited: seq<Ref>, names: seq<Ref>)
    requires HeapOk(heap) && forall v :: v in vs ==> ValueOk(heap, v)
    requires SerAll(heap, vs, visited).1 <= names
    ensures DepictsAll(heap, names, vs, SerAll(heap, vs, visited).0)
    decreases Unvisited(heap, visited), |vs| + 1
  {
    if vs == [] {
    } else {
      var n := |vs| - 1;
      var (wires, between) := SerAll(heap, vs[..n], visited);
      SerAllLast(heap, vs, visited);
      PrefixNames(between, Ser(heap, vs[n], between).1, names);
      SerAllDepicts(heap, vs[..n], visited, names);
      UnvisitedShrinks(heap, visited, between);
      SerDepicts(heap, vs[n], between, names);
      DepictsOneMore(heap, names, vs, wires, Ser(heap, vs[n], between).0);
    }
  }

  // ----- no object is visited twice -----

  ghost predicate Distinct(names: seq<Ref>) {
    forall i, j :: 0 <= i < j < |names| ==> names[i] != names[j]
  }

  lemma {:induction false} SerDistinct(heap: Heap, v: Value, visited: seq<Ref>)
    requires HeapOk(heap) && ValueOk(heap, v) && Distinct(visited)
    ensures Distinct(Ser(heap, v, visited).1)
    decreases Unvisited(heap, visited), 0
  {
    if v.Object? && IndexOf(visited, v.ref) == -1 {
      UnvisitedDrops(heap, visited, v.ref);
      assert NodeOk(heap, heap[v.ref]);
      SerAllDistinct(heap, Children(heap[v.ref]), visited + [v.ref]);
    }
  }

  lemma {:induction false} SerAllDistinct(heap: Heap, vs: seq<Value>, visited: seq<Ref>)
    requires HeapOk(heap) && (forall v :: v in vs ==> ValueOk(heap, v)) && Distinct(visited)
    ensures Distinct(SerAll(heap, vs, visited).1)
    decreases Unvisited(heap, visited), |vs| + 1
  {
    if vs == [] {
    } else {
      var n := |vs| - 1;
      var between := SerAll(heap, vs[..n], visited).1;
      SerAllDistinct(heap, vs[..n], visited);
      UnvisitedShrinks(heap, visited, between);
      SerDistinct(heap, vs[n], between);
      SerAllLast(heap, vs, visited);
    }
  }

  // ----- positions -----

  type Path = seq<nat>

  function Follow(heap: Heap, v: Value, path: Path): Option<Value>
    decreases |path|
  {
    if path == [] then Some(v)
    else if !v.Object? || v.ref !in heap || path[0] >= |Children(heap[v.ref])| then None
    else Follow(heap, Children(heap[v.ref])[path[0]], path[1..])
  }

  function Parts(w: Wire): (parts: seq<Wire>)
    ensures parts != [] ==> forall i :: 0 <= i < |parts| ==> parts[i] < w
  {
    match w
    case WList(_, elements) => elements
    case WMap(_, _, values) => values
    case _ => []
  }

  function At(w: Wire, path: Path): Option<Wire>
    decreases |path|
  {
    if path == [] then Some(w)
    else if path[0] >= |Parts(w)| then None
    else At(Parts(w)[path[0]], path[1..])
  }

  predicate IsExpansion(w: Wire) {
    w.WList? || w.WMap?
  }

  lemma DepictsParts(heap: Heap, names: seq<Ref>, v: Value, w: Wire)
    requires Depicts(heap, names, v, w) && IsExpansion(w)
    ensures v.Object? && v.ref in heap && w.id < |names| && names[w.id] == v.ref
    ensures DepictsAll(heap, names, Children(heap[v.ref]), Parts(w))
  {
  }

  /** A position in the wire form is the same path in the graph, and depicts what is there. */
  lemma {:induction false} AtFollows(heap: Heap, names: seq<Ref>, v: Value, w: Wire, path: Path)
    requires Depicts(heap, names, v, w) && At(w, path).Some?
    ensures Follow(heap, v, path).Some?
    ensures Depicts(heap, names, Follow(heap, v, path).value, At(w, path).value)
    decreases |path|
  {
    if path == [] {
    } else {
      DepictsParts(heap, names, v, w);
      AtFollows(heap, names, Children(heap[v.ref])[path[0]], Parts(w)[path[0]], path[1..]);
    }
  }

  // ----- numbers and positions -----

  /** The numbers of the i-th part follow those of the parts before it. */
  lemma {:induction false} PartRange(ws: seq<Wire>, next: nat, i: nat)
    requires NumberedAll(ws, next) != -1 && i < |ws|
    ensures var start := NumberedAll(ws[..i], next);
            && start != -1 && next <= start
            && Numbered(ws[i], start) != -1
            && Numbered(ws[i], start) == NumberedAll(ws[..i + 1], next) <= NumberedAll(ws, next)
    decreases |ws|
  {
    var n := |ws| - 1;
    if i < n {
      PartRange(ws[..n], next, i);
      assert ws[..n][..i] == ws[..i] && ws[..n][..i + 1] == ws[..i + 1];
    } else {
      assert ws[..i + 1] == ws;
    }
  }

  lemma {:induction false} PartsApart(ws: seq<Wire>, next: nat, i: nat, j: nat)
    requires NumberedAll(ws, next) != -1 && i < j <= |ws|
    ensures NumberedAll(ws[..i + 1], next) != -1 && NumberedAll(ws[..j], next) != -1
    ensures NumberedAll(ws[..i + 1], next) <= NumberedAll(ws[..j], next)
    decreases j - i
  {
    if j == |ws| {
      assert ws[..j] == ws;
      PartRange(ws, next, i);
    } else {
      PartRange(ws, next, j);
    }
    if i + 1 < j {
      PartsApart(ws, next, i, j - 1);
      PartRange(ws, next, j - 1);
    } else {
      PartRange(ws, next, i);
    }
  }

  lemma NumberedParts(w: Wire, next: nat)
    requires Numbered(w, next) != -1 && IsExpansion(w)
    ensures w.id == next && Numbered(w, next) == NumberedAll(Parts(w), next + 1)
  {
  }

  /** Numbers inside a wire value lie between its first and its next free one. */
  lemma {:induction false} IdInRange(w: Wire, next: nat, path: Path)
    requires Numbered(w, next) != -1 && At(w, path).Some?
    ensures IsExpansion(At(w, path).value) ==> next <= At(w, path).value.id < Numbered(w, next)
    ensures At(w, path).value.WRef? ==> At(w, path).value.id < Numbered(w, next)
    decreases |path|
  {
    if IsExpansion(w) {
      NumberedParts(w, next);
    }
    if path != [] {
      var i, parts := path[0], Parts(w);
      PartRange(parts, next + 1, i);
      IdInRange(parts[i], NumberedAll(parts[..i], next + 1), path[1..]);
    }
  }

  lemma TailsDiffer(p: Path, q: Path)
    requires p != [] && q != [] && p != q && p[0] == q[0]
    ensures p[1..] != q[1..]
  {
    assert p == [p[0]] + p[1..] && q == [q[0]] + q[1..];
  }

  /** Different positions have different numbers. */
  lemma {:induction false} IdsDiffer(w: Wire, next: nat, p: Path, q: Path)
    requires Numbered(w, next) != -1 && p != q
    requires At(w, p).Some? && IsExpansion(At(w, p).value) && At(w, q).Some? && IsExpansion(At(w, q).value)
    ensures At(w, p).value.id != At(w, q).value.id
    decreases |p| + |q|
  {
    var parts := Parts(w);
    if p == [] {
      InnerId(w, next, q);
    } else if q == [] {
      InnerId(w, next, p);
    } else {
      NumberedParts(w, next);
      var i, j := p[0], q[0];
      PartRange(parts, next + 1, i);
      PartRange(parts, next + 1, j);
      if i == j {
        TailsDiffer(p, q);
        IdsDiffer(parts[i], NumberedAll(parts[..i], next + 1), p[1..], q[1..]);
      } else if i < j {
        IdsApart(parts, next + 1, i, p[1..], j, q[1..]);
      } else {
        IdsApart(parts, next + 1, j, q[1..], i, p[1..]);
      }
    }
  }

  /** Numbers in an earlier part are smaller than numbers in a later one. */
  lemma IdsApart(ws: seq<Wire>, next: nat, i: nat, p: Path, j: nat, q: Path)
    requires NumberedAll(ws, next) != -1 && i < j < |ws|
    requires At(ws[i], p).Some? && IsExpansion(At(ws[i], p).value)
    requires At(ws[j], q).Some? && IsExpansion(At(ws[j], q).value)
    ensures At(ws[i], p).value.id < At(ws[j], q).value.id
  {
    PartRange(ws, next, i);
    PartRange(ws, next, j);
    IdInRange(ws[i], NumberedAll(ws[..i], next), p);
    IdInRange(ws[j], NumberedAll(ws[..j], next), q);
    PartsApart(ws, next, i, j);
  }

  /** Numbers below the root of a wire value are larger than the root's. */
  lemma InnerId(w: Wire, next: nat, path: Path)
    requires Numbered(w, next) != -1 && path != [] && At(w, path).Some? && IsExpansion(At(w, path).value)
    ensures IsExpansion(w) && w.id == next && At(w, path).value.id > next
  {
    var i, parts := path[0], Parts(w);
    NumberedParts(w, next);
    PartRange(parts, next + 1, i);
    IdInRange(parts[i], NumberedAll(parts[..i], next + 1), path[1..]);
  }

  /** Every number that has been given out belongs to some position. */
  lemma {:induction false} PositionOf(w: Wire, next: nat, id: nat) returns (path: Path)
    requires Numbered(w, next) != -1 && next <= id < Numbered(w, next)
    ensures At(w, path).Some? && IsExpansion(At(w, path).value) && At(w, path).value.id == id
    decreases w, 0
  {
    NumberedParts(w, next);
    if id == next {
      path := [];
    } else {
      var parts := Parts(w);
      var i, inner := PositionAmong(w, parts, next + 1, id);
      path := [i] + inner;
      assert path[1..] == inner;
    }
  }

  lemma {:induction false} PositionAmong(w: Wire, ws: seq<Wire>, next: nat, id: nat) returns (i: nat, path: Path)
    requires NumberedAll(ws, next) != -1 && next <= id < NumberedAll(ws, next)
    requires forall k :: 0 <= k < |ws| ==> ws[k] < w
    ensures i < |ws| && At(ws[i], path).Some? && IsExpansion(At(ws[i], path).value) && At(ws[i], path).value.id == id
    decreases w, 0, |ws|
  {
    var n := |ws| - 1;
    var between := NumberedAll(ws[..n], next);
    if id < between {
      i, path := PositionAmong(w, ws[..n], next, id);
    } else {
      i := n;
      path := PositionOf(ws[n], between, id);
    }
  }

  // ----- the visited objects are the reachable ones -----

  function Serialized(heap: Heap, v: Value): Wire
    requires HeapOk(heap) && ValueOk(heap, v)
  {
    Ser(heap, v, []).0
  }

  function Names(heap: Heap, v: Value): seq<Ref>
    requires HeapOk(heap) && ValueOk(heap, v)
  {
    Ser(heap, v, []).1
  }

  /** The facts about a whole message that everything below rests on. */
  lemma SerializedWell(heap: Heap, v: Value)
    requires HeapOk(heap) && ValueOk(heap, v)
    ensures Depicts(heap, Names(heap, v), v, Serialized(heap, v))
    ensures Numbered(Serialized(heap, v), 0) == |Names(heap, v)|
    ensures Distinct(Names(heap, v))
  {
    SerDepicts(heap, v, [], Names(heap, v));
    SerIsNumbered(heap, v, []);
    SerDistinct(heap, v, []);
  }

  ghost predicate Reachable(heap: Heap, v: Value, r: Ref) {
    exists path: Path :: Follow(heap, v, path) == Some(Object(r))
  }

  /** Where the object with a given number is written out in full. */
  lemma ExpansionOf(heap: Heap, v: Value, id: nat) returns (path: Path)
    requires HeapOk(heap) && ValueOk(heap, v) && id < |Names(heap, v)|
    ensures At(Serialized(heap, v), path).Some?
    ensures var w := At(Serialized(heap, v), path).value;
            && IsExpansion(w) && w.id == id
            && Follow(heap, v, path) == Some(Object(Names(heap, v)[id]))
            && Depicts(heap, Names(heap, v), Object(Names(heap, v)[id]), w)
  {
    SerializedWell(heap, v);
    path := PositionOf(Serialized(heap, v), 0, id);
    AtFollows(heap, Names(heap, v), v, Serialized(heap, v), path);
  }

  /** What a numbered object refers to has a number too. */
  lemma NamesClosed(heap: Heap, v: Value, r: Ref, i: nat)
    requires HeapOk(heap) && ValueOk(heap, v) && r in Names(heap, v)
    requires r in heap && i < |Children(heap[r])| && Children(heap[r])[i].Object?
    ensures Children(heap[r])[i].ref in Names(heap, v)
  {
    var names := Names(heap, v);
    var id :| 0 <= id < |names| && names[id] == r;
    var path := ExpansionOf(heap, v, id);
    var w := At(Serialized(heap, v), path).value;
    DepictsParts(heap, names, Object(r), w);
    assert Depicts(heap, names, Children(heap[r])[i], Parts(w)[i]);
  }

  lemma {:induction false} ReachedIsNamed(heap: Heap, v: Value, u: Value, path: Path, r: Ref)
    requires HeapOk(heap) && ValueOk(heap, v)
    requires u.Object? ==> u.ref in Names(heap, v)
    requires Follow(heap, u, path) == Some(Object(r))
    ensures r in Names(heap, v)
    decreases |path|
  {
    if path == [] {
    } else {
      if Children(heap[u.ref])[path[0]].Object? {
        NamesClosed(heap, v, u.ref, path[0]);
      }
      ReachedIsNamed(heap, v, Children(heap[u.ref])[path[0]], path[1..], r);
    }
  }

  /** Exactly the reachable lists and maps are visited. */
  lemma VisitedIffReachable(heap: Heap, v: Value, r: Ref)
    requires HeapOk(heap) && ValueOk(heap, v)
    ensures r in Names(heap, v) <==> Reachable(heap, v, r)
  {
    var names := Names(heap, v);
    if r in names {
      var id :| 0 <= id < |names| && names[id] == r;
      var path := ExpansionOf(heap, v, id);
    }
    if Reachable(heap, v, r) {
      var path :| Follow(heap, v, path) == Some(Object(r));
      SerializedWell(heap, v);
      ReachedIsNamed(heap, v, v, path, r);
    }
  }

  // ----- when serializing throws -----

  /** Somewhere in the wire form an exception was thrown, so it never came about. */
  predicate Throws(w: Wire)
    decreases w
  {
    match w
    case WThrow => true
    case WList(_, elements) => exists i :: 0 <= i < |elements| && Throws(elements[i])
    case WMap(_, _, values) => exists i :: 0 <= i < |values| && Throws(values[i])
    case _ => false
  }

  lemma {:induction false} FindThrow(w: Wire) returns (path: Path)
    requires Throws(w)
    ensures At(w, path) == Some(WThrow)
    decreases w
  {
    if w.WThrow? {
      path := [];
    } else {
      var i :| 0 <= i < |Parts(w)| && Throws(Parts(w)[i]);
      var inner := FindThrow(Parts(w)[i]);
      path := [i] + inner;
      assert path[1..] == inner;
    }
  }

  lemma {:induction false} ThrowsAbove(w: Wire, path: Path)
    requires At(w, path).Some? && Throws(At(w, path).value)
    ensures Throws(w)
    decreases |path|
  {
    if path == [] {
    } else {
      ThrowsAbove(Parts(w)[path[0]], path[1..]);
      assert Throws(Parts(w)[path[0]]);
    }
  }

  /** Some local port that the message leads to has no receive port. */
  ghost predicate Detached(heap: Heap, v: Value) {
    exists path: Path :: Follow(heap, v, path) == Some(LocalPort(None))
  }

  /** A port that is reached is a part of an object that is reached. */
  lemma {:induction false} PartOfReached(heap: Heap, v: Value, path: Path, u: Value) returns (r: Ref, i: nat)
    requires path != [] && Follow(heap, v, path) == Some(u)
    ensures Reachable(heap, v, r) && r in heap && i < |Children(heap[r])| && Children(heap[r])[i] == u
    decreases |path|
  {
    var child := Children(heap[v.ref])[path[0]];
    if |path| == 1 {
      assert path[1..] == [] && Follow(heap, v, []) == Some(v);
      r, i := v.ref, path[0];
      assert v == Object(r);
    } else {
      r, i := PartOfReached(heap, child, path[1..], u);
      var p: Path :| Follow(heap, child, p) == Some(Object(r));
      var q: Path := [path[0]] + p;
      assert q[1..] == p && Follow(heap, v, q) == Some(Object(r));
    }
  }

  /** Serializing throws if and only if the message leads to a local port without a receive port,
      along whatever path, through shared objects and cycles too. */
  lemma ThrowsIffDetached(heap: Heap, v: Value)
    requires HeapOk(heap) && ValueOk(heap, v)
    ensures Throws(Serialized(heap, v)) <==> Detached(heap, v)
  {
    var w, names := Serialized(heap, v), Names(heap, v);
    SerializedWell(heap, v);
    if Throws(w) {
      var path := FindThrow(w);
      AtFollows(heap, names, v, w, path);
    }
    if Detached(heap, v) {
      var path: Path :| Follow(heap, v, path) == Some(LocalPort(None));
      if path == [] {
        assert Depicts(heap, names, LocalPort(None), w);
      } else {
        var r, i := PartOfReached(heap, v, path, LocalPort(None));
        VisitedIffReachable(heap, v, r);
        var id :| 0 <= id < |names| && names[id] == r;
        var there := ExpansionOf(heap, v, id);
        var x := At(w, there).value;
        DepictsParts(heap, names, Object(r), x);
        assert Depicts(heap, names, LocalPort(None), Parts(x)[i]);
        assert Throws(Parts(x)[i]);
        ThrowsAbove(w, there);
      }
    }
  }

  // ----- references mean sharing -----

  predicate NoRefs(w: Wire)
    decreases w
  {
    match w
    case WRef(_) => false
    case WList(_, elements) => forall i :: 0 <= i < |elements| ==> NoRefs(elements[i])
    case WMap(_, _, values) => forall i :: 0 <= i < |values| ==> NoRefs(values[i])
    case _ => true
  }

  lemma {:induction false} FindRef(w: Wire) returns (path: Path)
    requires !NoRefs(w)
    ensures At(w, path).Some? && At(w, path).value.WRef?
    decreases w
  {
    if w.WRef? {
      path := [];
    } else {
      var i :| 0 <= i < |Parts(w)| && !NoRefs(Parts(w)[i]);
      var inner := FindRef(Parts(w)[i]);
      path := [i] + inner;
      assert path[1..] == inner;
    }
  }

  /** Without references the wire form has a position for every path of the graph. */
  lemma {:induction false} EveryPathIsThere(heap: Heap, names: seq<Ref>, v: Value, w: Wire, path: Path)
    requires Depicts(heap, names, v, w) && NoRefs(w) && Follow(heap, v, path).Some?
    ensures At(w, path).Some? && NoRefs(At(w, path).value)
    decreases |path|
  {
    if path == [] {
    } else {
      assert IsExpansion(w);
      DepictsParts(heap, names, v, w);
      EveryPathIsThere(heap, names, Children(heap[v.ref])[path[0]], Parts(w)[path[0]], path[1..]);
    }
  }

  /** Some list or map is reached along two different paths. */
  ghost predicate Shared(heap: Heap, v: Value) {
    exists p: Path, q: Path ::
      p != q && Follow(heap, v, p).Some? && Follow(heap, v, p) == Follow(heap, v, q) && Follow(heap, v, p).value.Object?
  }

  lemma RefMeansShared(heap: Heap, v: Value)
    requires HeapOk(heap) && ValueOk(heap, v) && !NoRefs(Serialized(heap, v))
    ensures Shared(heap, v)
  {
    var w, names := Serialized(heap, v), Names(heap, v);
    SerializedWell(heap, v);
    var p := FindRef(w);
    IdInRange(w, 0, p);
    AtFollows(heap, names, v, w, p);
    var q := ExpansionOf(heap, v, At(w, p).value.id);
    assert p != q;
  }

  lemma SharedMeansRef(heap: Heap, v: Value)
    requires HeapOk(heap) && ValueOk(heap, v) && Shared(heap, v)
    ensures !NoRefs(Serialized(heap, v))
  {
    var w, names := Serialized(heap, v), Names(heap, v);
    SerializedWell(heap, v);
    var p: Path, q: Path :|
      p != q && Follow(heap, v, p).Some? && Follow(heap, v, p) == Follow(heap, v, q) && Follow(heap, v, p).value.Object?;
    if NoRefs(w) {
      EveryPathIsThere(heap, names, v, w, p);
      EveryPathIsThere(heap, names, v, w, q);
      AtFollows(heap, names, v, w, p);
      AtFollows(heap, names, v, w, q);
      IdsDiffer(w, 0, p, q);
    }
  }

  /** The wire form has a reference exactly when something is reached along two paths. */
  lemma NoRefsIffTree(heap: Heap, v: Value)
    requires HeapOk(heap) && ValueOk(heap, v)
    ensures NoRefs(Serialized(heap, v)) <==> !Shared(heap, v)
  {
    if Shared(heap, v) {
      SharedMeansRef(heap, v);
    } else if !NoRefs(Serialized(heap, v)) {
      RefMeansShared(heap, v);
    }
  }
}
