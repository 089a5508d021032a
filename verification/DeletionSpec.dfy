/**
 Recursive deletion as a plain recursion over the directory tree: which paths are removed,
 in which order, and whether it goes through to the end.
 */
module DeletionSpec {
  import opened Wrappers
  import opened FileSystems
  import opened ListingSpec
  import opened ListingFacts

  /** The paths removed, in order, and whether everything was. */
  datatype Deletion = Deletion(removed: seq<string>, ok: bool)

  const NOT_DONE := Deletion([], false)

  /** What the path names has been removed, as a file or, with a separator, as a directory. */
  predicate Taken(gone: seq<string>, path: string) {
    path in gone || path + "/" in gone
  }

  /** `lstat`, once `gone` has been removed. */
  function LstatNow(fs: FileSystem, gone: seq<string>, path: string): Option<Kind> {
    if Taken(gone, path) then None else Answer(fs, path)
  }

  /** `unlink`: directories stay, and so do the paths that the system refuses to remove. */
  function UnlinkKind(info: Option<Kind>, stuck: set<string>, path: string): Deletion {
    if info.None? || info.value.Directory? || path in stuck then NOT_DONE else Deletion([path], true)
  }

  /** What looking at an entry by its path shows now; the dots of a directory stay to the end. */
  function SeenNow(fs: FileSystem, gone: seq<string>, e: Dirent, path: string): Option<Kind> {
    if !e.IsDot() && Taken(gone, Truncated(path)) then None else Seen(fs, e, path)
  }

  /** A dot is left alone; only its type may have to be looked at. */
  predicate DotOk(fs: FileSystem, e: Dirent, path: string) {
    e.typeKnown || (|path| <= PATH_MAX && Seen(fs, e, path).Some? && Seen(fs, e, path).value.Directory?)
  }

  /** The i-th entry of a directory. */
  function DeleteEntry(fs: FileSystem, stuck: set<string>, gone: seq<string>, d: DirId, i: nat, prefix: string): Deletion
    requires WellFormed(fs) && d < |fs.dirs| && i < |fs.dirs[d].entries|
    decreases |fs.dirs| - d, |fs.dirs[d].entries| - i, 1
  {
    var e := fs.dirs[d].entries[i];
    var path := prefix + e.name;
    if e.IsDot() then Deletion([], DotOk(fs, e, path))
    else if |path| > PATH_MAX then NOT_DONE
    else
      var kind: Option<Kind> := if e.typeKnown then Some(e.kind) else SeenNow(fs, gone, e, path);
      match kind
      case None => NOT_DONE
      case Some(Special) => NOT_DONE
      case Some(Directory(_)) => DeleteNamed(fs, stuck, gone, d, i, prefix)
      case Some(_) => UnlinkKind(SeenNow(fs, gone, e, path), stuck, Truncated(path))
  }

  /** The i-th entry, which has been taken for a directory: its path decides. */
  function DeleteNamed(fs: FileSystem, stuck: set<string>, gone: seq<string>, d: DirId, i: nat, prefix: string): Deletion
    requires WellFormed(fs) && d < |fs.dirs| && i < |fs.dirs[d].entries| && !fs.dirs[d].entries[i].IsDot()
    decreases |fs.dirs| - d, |fs.dirs[d].entries| - i, 0
  {
    var e := fs.dirs[d].entries[i];
    var path := prefix + e.name;
    match SeenNow(fs, gone, e, path)
    case None => NOT_DONE
    case Some(Special) => NOT_DONE
    case Some(Directory(_)) =>
      if |path| < PATH_MAX then
        EntryWellFormed(fs, d, i);
        DeleteDirectory(fs, stuck, gone, e.kind.dir, path)
      else NOT_DONE
    case Some(kind) => UnlinkKind(Some(kind), stuck, Truncated(path))
  }

  /** The entries of an open directory from the i-th on, and then the directory itself. */
  function DeleteFrom(fs: FileSystem, stuck: set<string>, gone: seq<string>, d: DirId, i: nat, prefix: string): Deletion
    requires WellFormed(fs) && d < |fs.dirs| && i <= |fs.dirs[d].entries|
    decreases |fs.dirs| - d, |fs.dirs[d].entries| - i, 2
  {
    if i == |fs.dirs[d].entries| then RemoveDirectory(fs, stuck, gone, d, prefix)
    else
      var first := DeleteEntry(fs, stuck, gone, d, i, prefix);
      if !first.ok then first
      else
        var rest := DeleteFrom(fs, stuck, gone + first.removed, d, i + 1, prefix);
        Deletion(first.removed + rest.removed, rest.ok)
  }

  /** Nothing is left in a directory. */
  predicate Emptied(fs: FileSystem, gone: seq<string>, d: DirId, prefix: string)
    requires d < |fs.dirs|
  {
    forall j :: 0 <= j < |fs.dirs[d].entries| && !fs.dirs[d].entries[j].IsDot() ==>
      Taken(gone, prefix + fs.dirs[d].entries[j].name)
  }

  /** `remove`, of a directory that has been read to its end. */
  function RemoveDirectory(fs: FileSystem, stuck: set<string>, gone: seq<string>, d: DirId, prefix: string): Deletion
    requires d < |fs.dirs|
  {
    var path := Truncated(prefix);
    if fs.dirs[d].torn || path in stuck || path in gone || !Emptied(fs, gone, d, prefix) then NOT_DONE
    else Deletion([path], true)
  }

  function DeleteDirectory(fs: FileSystem, stuck: set<string>, gone: seq<string>, d: DirId, path: string): Deletion
    requires WellFormed(fs) && d < |fs.dirs|
    decreases |fs.dirs| - d, |fs.dirs[d].entries| + 1
  {
    if |path + "/"| > PATH_MAX || Truncated(path + "/") in fs.lost || !fs.dirs[d].readable then NOT_DONE
    else DeleteFrom(fs, stuck, gone, d, 0, path + "/")
  }

  /** What a path names decides what is done; links are never followed. */
  function DeletePath(fs: FileSystem, stuck: set<string>, gone: seq<string>, path: string): Deletion
    requires WellFormed(fs)
  {
    match LstatNow(fs, gone, Truncated(path))
    case None => NOT_DONE
    case Some(Special) => NOT_DONE
    case Some(Directory(d)) =>
      if |path| < PATH_MAX && d < |fs.dirs| then DeleteDirectory(fs, stuck, gone, d, path) else NOT_DONE
    case Some(kind) => UnlinkKind(Some(kind), stuck, Truncated(path))
  }

  // ----- what one entry amounts to -----

  /** The options of a listing that goes where deletion goes. */
  const TREE := Options(true, false)

  lemma EntryRemoves(fs: FileSystem, stuck: set<string>, gone: seq<string>, d: DirId, i: nat, prefix: string)
    requires WellFormed(fs) && d < |fs.dirs| && i < |fs.dirs[d].entries|
    ensures var e := fs.dirs[d].entries[i];
            var path := prefix + e.name;
            var one := DeleteEntry(fs, stuck, gone, d, i, prefix);
            if e.kind.Directory? && !e.IsDot() && |path| < PATH_MAX then
              && d < e.kind.dir < |fs.dirs|
              && (one == DeleteFrom(fs, stuck, gone, e.kind.dir, 0, path + "/") || one == NOT_DONE)
            else
              one.removed == [] ||
              (&& one == Deletion([Truncated(path)], true) && !e.IsDot() && |path| <= PATH_MAX
               && SeenNow(fs, gone, e, path).Some? && !SeenNow(fs, gone, e, path).value.Directory?
               && Truncated(path) !in stuck)
  {
    EntryWellFormed(fs, d, i);
    var e := fs.dirs[d].entries[i];
    var path := prefix + e.name;
    if e.kind.Directory? && !e.IsDot() && |path| < PATH_MAX {
      DirectoryEntry(fs, stuck, gone, d, i, prefix);
    }
  }

  /** A directory whose path is whole is emptied, or left alone. */
  lemma DirectoryEntry(fs: FileSystem, stuck: set<string>, gone: seq<string>, d: DirId, i: nat, prefix: string)
    requires WellFormed(fs) && d < |fs.dirs| && i < |fs.dirs[d].entries|
    requires fs.dirs[d].entries[i].kind.Directory? && !fs.dirs[d].entries[i].IsDot()
    requires |prefix + fs.dirs[d].entries[i].name| < PATH_MAX
    ensures var e := fs.dirs[d].entries[i];
            var path := prefix + e.name;
            && d < e.kind.dir < |fs.dirs|
            && DeleteEntry(fs, stuck, gone, d, i, prefix) ==
               if path in fs.lost || Taken(gone, path) || Truncated(path + "/") in fs.lost || !fs.dirs[e.kind.dir].readable
               then NOT_DONE
               else DeleteFrom(fs, stuck, gone, e.kind.dir, 0, path + "/")
  {
    EntryWellFormed(fs, d, i);
    var e := fs.dirs[d].entries[i];
    var path := prefix + e.name;
    assert DeleteEntry(fs, stuck, gone, d, i, prefix) ==
           if SeenNow(fs, gone, e, path).None? then NOT_DONE else DeleteNamed(fs, stuck, gone, d, i, prefix);
    assert DeleteNamed(fs, stuck, gone, d, i, prefix) ==
           if SeenNow(fs, gone, e, path).None? then NOT_DONE else DeleteDirectory(fs, stuck, gone, e.kind.dir, path);
  }

  /** One entry and the rest. */
  lemma DeleteStep(
    fs: FileSystem, stuck: set<string>, gone: seq<string>, d: DirId, i: nat, prefix: string, first: Deletion)
    requires WellFormed(fs) && d < |fs.dirs| && i < |fs.dirs[d].entries|
    requires first == DeleteEntry(fs, stuck, gone, d, i, prefix)
    ensures var rest := DeleteFrom(fs, stuck, gone + first.removed, d, i + 1, prefix);
            DeleteFrom(fs, stuck, gone, d, i, prefix) ==
            if first.ok then Deletion(first.removed + rest.removed, rest.ok) else first
  {
  }

  /** What is removed from the i-th entry on is removed for that entry or after it. */
  lemma RemovedWhere(
    fs: FileSystem, stuck: set<string>, gone: seq<string>, d: DirId, i: nat, prefix: string, path: string)
    requires WellFormed(fs) && d < |fs.dirs| && i <= |fs.dirs[d].entries|
    requires path in DeleteFrom(fs, stuck, gone, d, i, prefix).removed
    ensures if i == |fs.dirs[d].entries| then path == Truncated(prefix)
            else
              var first := DeleteEntry(fs, stuck, gone, d, i, prefix);
              path in first.removed ||
              (first.ok && path in DeleteFrom(fs, stuck, gone + first.removed, d, i + 1, prefix).removed)
  {
  }

  /** What is removed can be read back from the buffer. */
  lemma {:induction false} RemovedIsShort(
    fs: FileSystem, stuck: set<string>, gone: seq<string>, d: DirId, i: nat, prefix: string, path: string)
    requires WellFormed(fs) && d < |fs.dirs| && i <= |fs.dirs[d].entries|
    requires path in DeleteFrom(fs, stuck, gone, d, i, prefix).removed
    ensures |path| < PATH_MAX
    decreases |fs.dirs| - d, |fs.dirs[d].entries| - i
  {
    if i == |fs.dirs[d].entries| {
    } else {
      var e := fs.dirs[d].entries[i];
      var first := DeleteEntry(fs, stuck, gone, d, i, prefix);
      EntryRemoves(fs, stuck, gone, d, i, prefix);
      if path !in first.removed {
        RemovedIsShort(fs, stuck, gone + first.removed, d, i + 1, prefix, path);
      } else if e.kind.Directory? && |prefix + e.name| < PATH_MAX {
        RemovedIsShort(fs, stuck, gone, e.kind.dir, 0, prefix + e.name + "/", path);
      }
    }
  }

  // ----- no path is removed twice -----

  ghost predicate Distinct(removed: seq<string>) {
    forall j, k :: 0 <= j < k < |removed| ==> removed[j] != removed[k]
  }

  ghost predicate Apart(a: seq<string>, b: seq<string>) {
    forall j, k :: 0 <= j < |a| && 0 <= k < |b| ==> a[j] != b[k]
  }

  lemma ApartConcat(a: seq<string>, b: seq<string>, c: seq<string>)
    requires Apart(a, b) && Apart(a + b, c) && Distinct(b) && Distinct(c)
    ensures Apart(a, b + c) && Distinct(b + c)
  {
    forall k, j | 0 <= j < |a| && 0 <= k < |b + c| ensures a[j] != (b + c)[k] {
      if k >= |b| {
        assert (a + b)[j] != c[k - |b|];
      }
    }
    forall j, k | 0 <= j < k < |b + c| ensures (b + c)[j] != (b + c)[k] {
      if j < |b| <= k {
        assert (a + b)[|a| + j] != c[k - |b|];
      }
    }
  }

  lemma ApartOne(a: seq<string>, path: string)
    requires path !in a
    ensures Apart(a, [path]) && Distinct([path])
  {
  }

  /** Whether deletion goes through or not, no path is removed twice. */
  lemma {:induction false} RemovesNothingTwice(
    fs: FileSystem, stuck: set<string>, gone: seq<string>, d: DirId, i: nat, prefix: string)
    requires WellFormed(fs) && d < |fs.dirs| && i <= |fs.dirs[d].entries|
    ensures var removed := DeleteFrom(fs, stuck, gone, d, i, prefix).removed;
            Distinct(removed) && Apart(gone, removed)
    decreases |fs.dirs| - d, |fs.dirs[d].entries| - i
  {
    if i == |fs.dirs[d].entries| {
    } else {
      var e := fs.dirs[d].entries[i];
      var first := DeleteEntry(fs, stuck, gone, d, i, prefix);
      EntryRemoves(fs, stuck, gone, d, i, prefix);
      if e.kind.Directory? && !e.IsDot() && |prefix + e.name| < PATH_MAX {
        RemovesNothingTwice(fs, stuck, gone, e.kind.dir, 0, prefix + e.name + "/");
      } else if first.removed != [] {
        ApartOne(gone, Truncated(prefix + e.name));
      }
      assert Distinct(first.removed) && Apart(gone, first.removed);
      if first.ok {
        RemovesNothingTwice(fs, stuck, gone + first.removed, d, i + 1, prefix);
        ApartConcat(gone, first.removed, DeleteFrom(fs, stuck, gone + first.removed, d, i + 1, prefix).removed);
      }
    }
  }

  // ----- a directory goes after everything in it -----

  /** `path` is that of an entry, as far as it can be read back, or goes on behind it. */
  ghost predicate Under(prefix: string, name: string, path: string) {
    path == Truncated(prefix + name) || prefix + name + "/" <= path
  }

  /** Everything removed for a directory starts with its path, as far as that can be read back. */
  lemma {:induction false} RemovedIsUnder(
    fs: FileSystem, stuck: set<string>, gone: seq<string>, d: DirId, i: nat, prefix: string, path: string)
    requires WellFormed(fs) && d < |fs.dirs| && i <= |fs.dirs[d].entries| && |prefix| <= PATH_MAX
    requires path in DeleteFrom(fs, stuck, gone, d, i, prefix).removed
    ensures Truncated(prefix) <= path
    decreases |fs.dirs| - d, |fs.dirs[d].entries| - i
  {
    if i == |fs.dirs[d].entries| {
    } else {
      var e := fs.dirs[d].entries[i];
      var first := DeleteEntry(fs, stuck, gone, d, i, prefix);
      EntryRemoves(fs, stuck, gone, d, i, prefix);
      if path !in first.removed {
        RemovedIsUnder(fs, stuck, gone + first.removed, d, i + 1, prefix, path);
      } else {
        TruncatedGrows(prefix, e.name);
        if e.kind.Directory? && |prefix + e.name| < PATH_MAX {
          RemovedIsUnder(fs, stuck, gone, e.kind.dir, 0, prefix + e.name + "/", path);
          TruncatedGrows(prefix + e.name, "/");
          PrefixOfPrefix(Truncated(prefix), Truncated(prefix + e.name), Truncated(prefix + e.name + "/"));
          PrefixOfPrefix(Truncated(prefix), Truncated(prefix + e.name + "/"), path);
        }
      }
    }
  }

  lemma TruncatedGrows(path: string, more: string)
    requires |path| <= PATH_MAX
    ensures Truncated(path) <= Truncated(path + more)
  {
  }

  lemma PrefixOfPrefix(a: string, b: string, c: string)
    requires a <= b && b <= c
    ensures a <= c
  {
    assert a == b[..|a|] == c[..|a|];
  }

  lemma EntryRemovedUnder(
    fs: FileSystem, stuck: set<string>, gone: seq<string>, d: DirId, i: nat, prefix: string, path: string)
    requires WellFormed(fs) && d < |fs.dirs| && i < |fs.dirs[d].entries|
    requires path in DeleteEntry(fs, stuck, gone, d, i, prefix).removed
    ensures Under(prefix, fs.dirs[d].entries[i].name, path)
  {
    var e := fs.dirs[d].entries[i];
    var here := prefix + e.name;
    EntryRemoves(fs, stuck, gone, d, i, prefix);
    if e.kind.Directory? && !e.IsDot() && |here| < PATH_MAX {
      RemovedIsUnder(fs, stuck, gone, e.kind.dir, 0, here + "/", path);
      RemovedIsShort(fs, stuck, gone, e.kind.dir, 0, here + "/", path);
      if |here + "/"| == PATH_MAX {
        assert Truncated(here + "/") == here;
      }
    }
  }

  /** What is removed from the i-th entry on is under one of these entries, or the directory itself. */
  lemma {:induction false} LaterRemovedUnder(
    fs: FileSystem, stuck: set<string>, gone: seq<string>, d: DirId, i: nat, prefix: string, path: string) returns (j: nat)
    requires WellFormed(fs) && d < |fs.dirs| && i <= |fs.dirs[d].entries|
    requires path in DeleteFrom(fs, stuck, gone, d, i, prefix).removed && path != Truncated(prefix)
    ensures i <= j < |fs.dirs[d].entries| && Under(prefix, fs.dirs[d].entries[j].name, path)
    decreases |fs.dirs[d].entries| - i
  {
    var first := DeleteEntry(fs, stuck, gone, d, i, prefix);
    if path in first.removed {
      EntryRemovedUnder(fs, stuck, gone, d, i, prefix, path);
      j := i;
    } else {
      j := LaterRemovedUnder(fs, stuck, gone + first.removed, d, i + 1, prefix, path);
    }
  }

  /** Nothing removed later lies under a directory removed earlier. */
  ghost predicate InsideFirst(removed: seq<string>) {
    forall j, k :: 0 <= j < k < |removed| && EndsWithSeparator(removed[j]) ==> !(removed[j] <= removed[k])
  }

  lemma DifferentNames(fs: FileSystem, d: DirId, i: nat, j: nat)
    requires WellFormed(fs) && d < |fs.dirs| && i < |fs.dirs[d].entries| && j < |fs.dirs[d].entries| && i != j
    ensures fs.dirs[d].entries[i].name != fs.dirs[d].entries[j].name
  {
    assert DirectoryOk(fs, d);
  }

  /** A name of one character is cut to nothing, and the path to the directory itself. */
  lemma NothingCutToPrefix(fs: FileSystem, prefix: string, name: string)
    requires EndsWithSeparator(prefix) && |name| == 1
    ensures var kind := Lstat(fs, prefix + name[..|name| - 1]);
            kind.Some? ==> kind.value.Directory?
  {
    assert prefix + name[..|name| - 1] == prefix;
  }

  lemma NameEndsPath(prefix: string, name: string)
    requires NameOk(name)
    ensures !EndsWithSeparator(prefix + name)
  {
    assert (prefix + name)[|prefix + name| - 1] == name[|name| - 1];
  }

  lemma NoSeparatorInName(prefix: string, name: string, n: nat)
    requires NameOk(name) && |prefix| <= n < |Truncated(prefix + name)|
    ensures Truncated(prefix + name)[n] != '/'
  {
    assert Truncated(prefix + name)[n] == name[n - |prefix|];
  }

  /** A path that is cut and unlinked is that of another entry of the same directory. */
  lemma CutIsSibling(fs: FileSystem, d: DirId, i: nat, prefix: string) returns (k: nat)
    requires Rooted(fs, d, prefix) && i < |fs.dirs[d].entries|
    requires var path := prefix + fs.dirs[d].entries[i].name;
             |path| == PATH_MAX && Lstat(fs, Truncated(path)).Some? && !Lstat(fs, Truncated(path)).value.Directory?
    ensures k < |fs.dirs[d].entries| && k != i
    ensures var e, other := fs.dirs[d].entries[i], fs.dirs[d].entries[k];
            && |e.name| > 1 && other.name == e.name[..|e.name| - 1] && !other.IsDot()
            && prefix + other.name == Truncated(prefix + e.name)
            && Lstat(fs, Truncated(prefix + e.name)) == Some(other.kind)
            && !EndsWithSeparator(Truncated(prefix + e.name))
  {
    var e := fs.dirs[d].entries[i];
    EntryWellFormed(fs, d, i);
    var short := e.name[..|e.name| - 1];
    assert Truncated(prefix + e.name) == prefix + short;
    if |e.name| == 1 {
      NothingCutToPrefix(fs, prefix, e.name);
    }
    JoinLooksUp(fs, prefix, d, short);
    k := FoundIsNamed(fs.dirs[d].entries, short);
    EntryWellFormed(fs, d, k);
    NameEndsPath(prefix, short);
  }

  /** Only a directory is removed under a path that ends in a separator. */
  lemma EndsInside(
    fs: FileSystem, stuck: set<string>, gone: seq<string>, d: DirId, i: nat, prefix: string, path: string)
    requires Rooted(fs, d, prefix) && i < |fs.dirs[d].entries|
    requires path in DeleteEntry(fs, stuck, gone, d, i, prefix).removed && EndsWithSeparator(path)
    ensures prefix + fs.dirs[d].entries[i].name + "/" <= path
  {
    var e := fs.dirs[d].entries[i];
    var here := prefix + e.name;
    EntryRemoves(fs, stuck, gone, d, i, prefix);
    EntryRemovedUnder(fs, stuck, gone, d, i, prefix, path);
    EntryWellFormed(fs, d, i);
    if path == Truncated(here) {
      if |here| < PATH_MAX {
        NameEndsPath(prefix, e.name);
      } else {
        var k := CutIsSibling(fs, d, i, prefix);
      }
    }
  }

  /** What goes on behind one name is not under another. */
  lemma NotUnder(prefix: string, a: string, b: string, path: string)
    requires NameOk(a) && NameOk(b) && a != b && prefix + a + "/" <= path
    ensures !Under(prefix, b, path)
  {
    ThroughLonger(prefix, a, path);
    if prefix + b + "/" <= path {
      ThroughLonger(prefix, b, path);
      ThroughOneName(prefix, a, b, path);
    } else if path == Truncated(prefix + b) {
      NoSeparatorInName(prefix, b, |prefix + a|);
    }
  }

  /** An earlier directory is not above a later path of the same parent. */
  lemma NotAbove(
    fs: FileSystem, stuck: set<string>, gone: seq<string>, d: DirId, i: nat, prefix: string, earlier: string, later: string)
    requires Rooted(fs, d, prefix) && i < |fs.dirs[d].entries|
    requires var first := DeleteEntry(fs, stuck, gone, d, i, prefix);
             && earlier in first.removed && EndsWithSeparator(earlier)
             && later in DeleteFrom(fs, stuck, gone + first.removed, d, i + 1, prefix).removed
    ensures !(earlier <= later)
  {
    var name := fs.dirs[d].entries[i].name;
    var first := DeleteEntry(fs, stuck, gone, d, i, prefix);
    EndsInside(fs, stuck, gone, d, i, prefix, earlier);
    EntryWellFormed(fs, d, i);
    if earlier <= later && later != Truncated(prefix) {
      PrefixOfPrefix(prefix + name + "/", earlier, later);
      var j := LaterRemovedUnder(fs, stuck, gone + first.removed, d, i + 1, prefix, later);
      EntryWellFormed(fs, d, j);
      DifferentNames(fs, d, i, j);
      NotUnder(prefix, name, fs.dirs[d].entries[j].name, later);
    }
  }

  lemma RootedBelow(fs: FileSystem, d: DirId, i: nat, prefix: string)
    requires Rooted(fs, d, prefix) && i < |fs.dirs[d].entries|
    requires fs.dirs[d].entries[i].kind.Directory? && !fs.dirs[d].entries[i].IsDot()
    ensures Rooted(fs, fs.dirs[d].entries[i].kind.dir, prefix + fs.dirs[d].entries[i].name + "/")
  {
    EntryWellFormed(fs, d, i);
    JoinNamesEntry(fs, prefix, d, i);
  }

  /** Every directory is removed after everything that is removed inside it. */
  lemma {:induction false} DirectoriesGoLast(
    fs: FileSystem, stuck: set<string>, gone: seq<string>, d: DirId, i: nat, prefix: string)
    requires Rooted(fs, d, prefix) && i <= |fs.dirs[d].entries|
    ensures InsideFirst(DeleteFrom(fs, stuck, gone, d, i, prefix).removed)
    decreases |fs.dirs| - d, |fs.dirs[d].entries| - i
  {
    if i == |fs.dirs[d].entries| {
    } else {
      var e := fs.dirs[d].entries[i];
      var first := DeleteEntry(fs, stuck, gone, d, i, prefix);
      EntryRemoves(fs, stuck, gone, d, i, prefix);
      if e.kind.Directory? && !e.IsDot() && |prefix + e.name| < PATH_MAX {
        RootedBelow(fs, d, i, prefix);
        DirectoriesGoLast(fs, stuck, gone, e.kind.dir, 0, prefix + e.name + "/");
      }
      assert InsideFirst(first.removed);
      if first.ok {
        var rest := DeleteFrom(fs, stuck, gone + first.removed, d, i + 1, prefix);
        DirectoriesGoLast(fs, stuck, gone + first.removed, d, i + 1, prefix);
        forall j, k | 0 <= j < |first.removed| && 0 <= k < |rest.removed| && EndsWithSeparator(first.removed[j])
          ensures !(first.removed[j] <= rest.removed[k])
        {
          NotAbove(fs, stuck, gone, d, i, prefix, first.removed[j], rest.removed[k]);
        }
        InsideFirstThen(first.removed, rest.removed);
      }
    }
  }

  lemma InsideFirstThen(a: seq<string>, b: seq<string>)
    requires InsideFirst(a) && InsideFirst(b)
    requires forall j, k :: 0 <= j < |a| && 0 <= k < |b| && EndsWithSeparator(a[j]) ==> !(a[j] <= b[k])
    ensures InsideFirst(a + b)
  {
    forall j, k | 0 <= j < k < |a + b| && EndsWithSeparator((a + b)[j]) ensures !((a + b)[j] <= (a + b)[k]) {
      if k < |a| {
        assert !(a[j] <= a[k]);
      } else if j < |a| {
        assert !(a[j] <= b[k - |a|]);
      } else {
        assert !(b[j - |a|] <= b[k - |a|]);
      }
    }
  }

  // ----- nothing outside the tree, nothing behind a link -----

  /** How a removed entry is spelled: directories with their separator. */
  ghost predicate Spells(
    fs: FileSystem, d: DirId, prefix: string, trail: seq<nat>, path: string)
    requires Trail(fs, TREE, d, [], trail)
  {
    path == TrailPath(fs, TREE, d, prefix, [], trail) || path == TrailPath(fs, TREE, d, prefix, [], trail) + "/"
  }

  lemma LongerTrail(fs: FileSystem, d: DirId, i: nat, prefix: string, trail: seq<nat>)
    requires WellFormed(fs) && d < |fs.dirs| && i < |fs.dirs[d].entries|
    requires var e := fs.dirs[d].entries[i]; !e.IsDot() && e.kind.Directory? && Trail(fs, TREE, e.kind.dir, [], trail)
    ensures var e := fs.dirs[d].entries[i];
            && Trail(fs, TREE, d, [], [i] + trail)
            && TrailPath(fs, TREE, d, prefix, [], [i] + trail) ==
               TrailPath(fs, TREE, e.kind.dir, prefix + e.name + "/", [], trail)
  {
    assert ([i] + trail)[1..] == trail;
  }

  lemma LongerSpells(fs: FileSystem, d: DirId, i: nat, prefix: string, trail: seq<nat>, path: string)
    requires WellFormed(fs) && d < |fs.dirs| && i < |fs.dirs[d].entries|
    requires var e := fs.dirs[d].entries[i];
             && !e.IsDot() && e.kind.Directory? && Trail(fs, TREE, e.kind.dir, [], trail)
             && Spells(fs, e.kind.dir, prefix + e.name + "/", trail, path)
    ensures Trail(fs, TREE, d, [], [i] + trail) && Spells(fs, d, prefix, [i] + trail, path)
  {
    LongerTrail(fs, d, i, prefix, trail);
  }

  /** What is removed for an entry that is not entered is that entry or another of its directory. */
  lemma EntryInTree(
    fs: FileSystem, stuck: set<string>, gone: seq<string>, d: DirId, i: nat, prefix: string, path: string)
    returns (trail: seq<nat>)
    requires Rooted(fs, d, prefix) && i < |fs.dirs[d].entries|
    requires path in DeleteEntry(fs, stuck, gone, d, i, prefix).removed && path == Truncated(prefix + fs.dirs[d].entries[i].name)
    requires var e := fs.dirs[d].entries[i]; !(e.kind.Directory? && !e.IsDot() && |prefix + e.name| < PATH_MAX)
    ensures Trail(fs, TREE, d, [], trail) && Spells(fs, d, prefix, trail, path)
  {
    EntryRemoves(fs, stuck, gone, d, i, prefix);
    if |prefix + fs.dirs[d].entries[i].name| < PATH_MAX {
      trail := [i];
    } else {
      var k := CutIsSibling(fs, d, i, prefix);
      trail := [k];
    }
  }

  lemma DirectoryInTree(fs: FileSystem, d: DirId, i: nat, prefix: string)
    requires WellFormed(fs) && d < |fs.dirs| && i < |fs.dirs[d].entries| && !fs.dirs[d].entries[i].IsDot()
    requires |prefix + fs.dirs[d].entries[i].name| < PATH_MAX
    ensures Trail(fs, TREE, d, [], [i])
    ensures Spells(fs, d, prefix, [i], Truncated(prefix + fs.dirs[d].entries[i].name + "/"))
  {
    var here := prefix + fs.dirs[d].entries[i].name;
    assert |here + "/"| == PATH_MAX ==> Truncated(here + "/") == here;
  }

  /** Every path that is removed, whether deletion goes through or not, is that of an entry in the
      tree, reached without following a link, or of the directory itself. */
  lemma {:induction false} RemovedIsInTree(
    fs: FileSystem, stuck: set<string>, gone: seq<string>, d: DirId, i: nat, prefix: string, path: string)
    returns (trail: seq<nat>)
    requires Rooted(fs, d, prefix) && i <= |fs.dirs[d].entries|
    requires path in DeleteFrom(fs, stuck, gone, d, i, prefix).removed && path != Truncated(prefix)
    ensures Trail(fs, TREE, d, [], trail) && Spells(fs, d, prefix, trail, path)
    decreases |fs.dirs| - d, |fs.dirs[d].entries| - i
  {
    RemovedWhere(fs, stuck, gone, d, i, prefix, path);
    var e := fs.dirs[d].entries[i];
    var here := prefix + e.name;
    var first := DeleteEntry(fs, stuck, gone, d, i, prefix);
    EntryRemoves(fs, stuck, gone, d, i, prefix);
    if path !in first.removed {
      trail := RemovedIsInTree(fs, stuck, gone + first.removed, d, i + 1, prefix, path);
    } else if e.kind.Directory? && !e.IsDot() && |here| < PATH_MAX {
      if path == Truncated(here + "/") {
        trail := [i];
        DirectoryInTree(fs, d, i, prefix);
      } else {
        RootedBelow(fs, d, i, prefix);
        var inner := RemovedIsInTree(fs, stuck, gone, e.kind.dir, 0, here + "/", path);
        trail := [i] + inner;
        LongerSpells(fs, d, i, prefix, inner, path);
      }
    } else {
      trail := EntryInTree(fs, stuck, gone, d, i, prefix, path);
    }
  }

  // ----- a path that fills the buffer -----

  /** The entry's path is cut to that of another entry, which can be removed in its place. */
  ghost predicate Mistaken(
    fs: FileSystem, stuck: set<string>, gone: seq<string>, d: DirId, i: nat, prefix: string, k: nat)
    requires d < |fs.dirs| && i < |fs.dirs[d].entries|
  {
    && k < |fs.dirs[d].entries|
    && var e, other := fs.dirs[d].entries[i], fs.dirs[d].entries[k];
       var path := prefix + other.name;
       && !e.IsDot() && |prefix + e.name| == PATH_MAX
       && |e.name| > 1 && other.name == e.name[..|e.name| - 1]
       && !other.kind.Directory? && path !in fs.lost && path !in stuck && !Taken(gone, path)
       && (if e.typeKnown then !e.kind.Special? && (e.kind.Directory? ==> !other.kind.Special?) else !other.kind.Special?)
  }

  lemma MistakenRemoves(
    fs: FileSystem, stuck: set<string>, gone: seq<string>, d: DirId, i: nat, prefix: string, k: nat)
    requires Rooted(fs, d, prefix) && i < |fs.dirs[d].entries| && Mistaken(fs, stuck, gone, d, i, prefix, k)
    ensures DeleteEntry(fs, stuck, gone, d, i, prefix) == Deletion([prefix + fs.dirs[d].entries[k].name], true)
  {
    var e, other := fs.dirs[d].entries[i], fs.dirs[d].entries[k];
    EntryWellFormed(fs, d, k);
    assert Truncated(prefix + e.name) == prefix + other.name;
    JoinNamesEntry(fs, prefix, d, k);
    assert SeenNow(fs, gone, e, prefix + e.name) == Some(other.kind);
  }

  /** Deleting an entry removes something other than that entry and what is in it if and only if its
      path fills the buffer and the cut path is that of another entry that can be unlinked. */
  lemma RemovesAnotherIff(
    fs: FileSystem, stuck: set<string>, gone: seq<string>, d: DirId, i: nat, prefix: string)
    requires Rooted(fs, d, prefix) && i < |fs.dirs[d].entries|
    ensures var removed := DeleteEntry(fs, stuck, gone, d, i, prefix).removed;
            (exists p :: p in removed && !Through(prefix, fs.dirs[d].entries[i].name, p)) <==>
            (exists k: nat :: Mistaken(fs, stuck, gone, d, i, prefix, k))
  {
    var e := fs.dirs[d].entries[i];
    var removed := DeleteEntry(fs, stuck, gone, d, i, prefix).removed;
    if k: nat :| Mistaken(fs, stuck, gone, d, i, prefix, k) {
      MistakenRemoves(fs, stuck, gone, d, i, prefix, k);
      var p := prefix + fs.dirs[d].entries[k].name;
      assert p in removed && !Through(prefix, e.name, p);
    } else if p :| p in removed && !Through(prefix, e.name, p) {
      EntryRemoves(fs, stuck, gone, d, i, prefix);
      EntryRemovedUnder(fs, stuck, gone, d, i, prefix, p);
      if prefix + e.name + "/" <= p {
        ThroughLonger(prefix, e.name, p);
      }
      var k := CutIsSibling(fs, d, i, prefix);
      assert Mistaken(fs, stuck, gone, d, i, prefix, k);
    }
  }

  /** Two files, one with a path of PATH_MAX characters and one with the same path but for the last. */
  const LONG_PAIR: FileSystem :=
    FileSystem([Contents(true, [Dirent(LONG_NAME, true, Regular), Dirent(LONG_NAME[..PATH_MAX - 2], true, Regular)], false)],
               0, 0, {})

  /** The failing case: the shorter one goes in place of the longer one, and the deletion fails. */
  lemma WrongFileGoes()
    ensures Rooted(LONG_PAIR, 0, "/")
    ensures DeleteFrom(LONG_PAIR, {}, [], 0, 0, "/") == Deletion(["/" + LONG_NAME[..PATH_MAX - 2]], false)
  {
    OnlyFiles(LONG_PAIR);
    var short := LONG_NAME[..PATH_MAX - 2];
    assert Mistaken(LONG_PAIR, {}, [], 0, 0, "/", 1);
    MistakenRemoves(LONG_PAIR, {}, [], 0, 0, "/", 1);
    assert [] + ["/" + short] == ["/" + short];
    assert DeleteEntry(LONG_PAIR, {}, ["/" + short], 0, 1, "/") == NOT_DONE;
  }

  // ----- when deletion goes through -----

  lemma TakenStays(gone: seq<string>, more: seq<string>, path: string)
    requires Taken(gone, path)
    ensures Taken(gone + more, path)
  {
  }

  /** A deletion that goes through has taken every entry of the directory under its own path. */
  lemma {:induction false} TakesAll(
    fs: FileSystem, stuck: set<string>, gone: seq<string>, d: DirId, i: nat, prefix: string, j: nat)
    requires WellFormed(fs) && d < |fs.dirs| && i <= |fs.dirs[d].entries|
    requires DeleteFrom(fs, stuck, gone, d, i, prefix).ok
    requires j < |fs.dirs[d].entries| && !fs.dirs[d].entries[j].IsDot()
    ensures Taken(gone + DeleteFrom(fs, stuck, gone, d, i, prefix).removed, prefix + fs.dirs[d].entries[j].name)
    decreases |fs.dirs[d].entries| - i
  {
    if i == |fs.dirs[d].entries| {
      TakenStays(gone, [Truncated(prefix)], prefix + fs.dirs[d].entries[j].name);
    } else {
      var first := DeleteEntry(fs, stuck, gone, d, i, prefix);
      DeleteStep(fs, stuck, gone, d, i, prefix, first);
      TakesAll(fs, stuck, gone + first.removed, d, i + 1, prefix, j);
      Regrouped(gone, first.removed, DeleteFrom(fs, stuck, gone + first.removed, d, i + 1, prefix).removed);
    }
  }

  lemma Regrouped(a: seq<string>, b: seq<string>, c: seq<string>)
    ensures (a + b) + c == a + (b + c)
  {
  }

  ghost predicate Short(gone: seq<string>) {
    forall k :: 0 <= k < |gone| ==> |gone[k]| < PATH_MAX
  }

  /** So no entry has a path that fills the buffer. */
  lemma FitsWhole(fs: FileSystem, stuck: set<string>, gone: seq<string>, d: DirId, i: nat, prefix: string, j: nat)
    requires WellFormed(fs) && d < |fs.dirs| && i <= |fs.dirs[d].entries| && Short(gone)
    requires DeleteFrom(fs, stuck, gone, d, i, prefix).ok
    requires j < |fs.dirs[d].entries| && !fs.dirs[d].entries[j].IsDot()
    ensures |prefix + fs.dirs[d].entries[j].name| < PATH_MAX
  {
    TakesAll(fs, stuck, gone, d, i, prefix, j);
    var removed := DeleteFrom(fs, stuck, gone, d, i, prefix).removed;
    forall p | p in gone + removed ensures |p| < PATH_MAX {
      if p in removed {
        RemovedIsShort(fs, stuck, gone, d, i, prefix, p);
      }
    }
  }

  /** A deletion that goes through ends with the directory itself. */
  lemma {:induction false} RemovesItself(
    fs: FileSystem, stuck: set<string>, gone: seq<string>, d: DirId, i: nat, prefix: string)
    requires WellFormed(fs) && d < |fs.dirs| && i <= |fs.dirs[d].entries|
    requires DeleteFrom(fs, stuck, gone, d, i, prefix).ok
    ensures Truncated(prefix) in DeleteFrom(fs, stuck, gone, d, i, prefix).removed && !fs.dirs[d].torn
    decreases |fs.dirs[d].entries| - i
  {
    if i == |fs.dirs[d].entries| {
    } else {
      RemovesItself(fs, stuck, gone + DeleteEntry(fs, stuck, gone, d, i, prefix).removed, d, i + 1, prefix);
    }
  }

  /** Every dot whose type has to be looked at can be. */
  ghost predicate DotsFit(fs: FileSystem, d: DirId, i: nat, prefix: string)
    requires d < |fs.dirs|
  {
    forall j :: i <= j < |fs.dirs[d].entries| && fs.dirs[d].entries[j].IsDot() ==>
      DotOk(fs, fs.dirs[d].entries[j], prefix + fs.dirs[d].entries[j].name)
  }

  /** A directory can be read to its end, looking at its dots if need be, and then be removed. */
  ghost predicate Removable(fs: FileSystem, stuck: set<string>, d: DirId, i: nat, prefix: string)
    requires d < |fs.dirs|
  {
    Truncated(prefix) !in stuck && !fs.dirs[d].torn && DotsFit(fs, d, i, prefix)
  }

  /** What stands in the way of removing an entry: a special file, a path that does not fit whole or
      cannot be looked at, a directory that cannot be read, a path that the system refuses to remove. */
  ghost predicate InTheWay(fs: FileSystem, stuck: set<string>, e: Dirent, path: string) {
    || |path| >= PATH_MAX || path in fs.lost
    || match e.kind
       case Special => true
       case Directory(sub) =>
         || sub >= |fs.dirs| || !fs.dirs[sub].readable || Truncated(path + "/") in fs.lost
         || !Removable(fs, stuck, sub, 0, path + "/")
       case _ => path in stuck
  }

  ghost predicate Obstacle(fs: FileSystem, stuck: set<string>, d: DirId, prefix: string, trail: seq<nat>)
    requires Trail(fs, TREE, d, [], trail)
  {
    InTheWay(fs, stuck, Last(fs, TREE, d, [], trail), TrailPath(fs, TREE, d, prefix, [], trail))
  }

  /** No entry of the tree, at any depth, is in the way. */
  ghost predicate Unobstructed(fs: FileSystem, stuck: set<string>, d: DirId, i: nat, prefix: string) {
    forall trail: seq<nat> :: Trail(fs, TREE, d, [], trail) && trail[0] >= i ==> !Obstacle(fs, stuck, d, prefix, trail)
  }

  /** The trails through the i-th entry are that entry and, for a directory, the trails inside it. */
  lemma TrailsThrough(fs: FileSystem, stuck: set<string>, d: DirId, i: nat, prefix: string)
    requires WellFormed(fs) && d < |fs.dirs| && i < |fs.dirs[d].entries|
    ensures var e := fs.dirs[d].entries[i];
            var path := prefix + e.name;
            Unobstructed(fs, stuck, d, i, prefix) <==>
              && (!e.IsDot() ==> !InTheWay(fs, stuck, e, path))
              && (e.kind.Directory? && !e.IsDot() ==> Unobstructed(fs, stuck, e.kind.dir, 0, path + "/"))
              && Unobstructed(fs, stuck, d, i + 1, prefix)
  {
    var e := fs.dirs[d].entries[i];
    var path := prefix + e.name;
    EntryWellFormed(fs, d, i);
    if Unobstructed(fs, stuck, d, i, prefix) {
      if !e.IsDot() {
        assert Trail(fs, TREE, d, [], [i]) && !Obstacle(fs, stuck, d, prefix, [i]);
      }
      if e.kind.Directory? && !e.IsDot() {
        forall inner: seq<nat> | Trail(fs, TREE, e.kind.dir, [], inner)
          ensures !Obstacle(fs, stuck, e.kind.dir, path + "/", inner)
        {
          TrailInto(fs, TREE, d, i, prefix, [], inner);
          assert !Obstacle(fs, stuck, d, prefix, [i] + inner);
        }
      }
    }
    if && (!e.IsDot() ==> !InTheWay(fs, stuck, e, path))
       && (e.kind.Directory? && !e.IsDot() ==> Unobstructed(fs, stuck, e.kind.dir, 0, path + "/"))
       && Unobstructed(fs, stuck, d, i + 1, prefix)
    {
      forall trail: seq<nat> | Trail(fs, TREE, d, [], trail) && trail[0] >= i
        ensures !Obstacle(fs, stuck, d, prefix, trail)
      {
        if trail[0] == i && |trail| > 1 {
          assert !Obstacle(fs, stuck, e.kind.dir, path + "/", trail[1..]);
        }
      }
    }
  }

  /** Nothing that is still to be deleted has been removed: neither the directory, nor an entry from
      the i-th on whose path is whole. */
  ghost predicate Untouched(fs: FileSystem, gone: seq<string>, d: DirId, i: nat, prefix: string)
    requires d < |fs.dirs|
  {
    && Short(gone) && Truncated(prefix) !in gone
    && forall j, k :: i <= j < |fs.dirs[d].entries| && 0 <= k < |gone| && !fs.dirs[d].entries[j].IsDot()
                      && |prefix + fs.dirs[d].entries[j].name| < PATH_MAX ==>
                        !Under(prefix, fs.dirs[d].entries[j].name, gone[k])
  }

  /** The entries before the i-th have been removed. */
  ghost predicate DoneBefore(fs: FileSystem, gone: seq<string>, d: DirId, i: nat, prefix: string)
    requires d < |fs.dirs| && i <= |fs.dirs[d].entries|
  {
    forall j :: 0 <= j < i && !fs.dirs[d].entries[j].IsDot() ==> Taken(gone, prefix + fs.dirs[d].entries[j].name)
  }

  lemma NotTaken(fs: FileSystem, gone: seq<string>, d: DirId, i: nat, prefix: string)
    requires d < |fs.dirs| && i < |fs.dirs[d].entries| && !fs.dirs[d].entries[i].IsDot()
    requires Untouched(fs, gone, d, i, prefix) && |prefix + fs.dirs[d].entries[i].name| < PATH_MAX
    ensures !Taken(gone, prefix + fs.dirs[d].entries[i].name)
  {
    var path := prefix + fs.dirs[d].entries[i].name;
    assert Under(prefix, fs.dirs[d].entries[i].name, path) && Under(prefix, fs.dirs[d].entries[i].name, path + "/");
  }

  /** When an entry with a whole path is removed. */
  lemma EntryDeletesIff(fs: FileSystem, stuck: set<string>, gone: seq<string>, d: DirId, i: nat, prefix: string)
    requires WellFormed(fs) && d < |fs.dirs| && i < |fs.dirs[d].entries| && !fs.dirs[d].entries[i].IsDot()
    requires |prefix + fs.dirs[d].entries[i].name| < PATH_MAX
    requires !Taken(gone, prefix + fs.dirs[d].entries[i].name)
    ensures var e := fs.dirs[d].entries[i];
            var path := prefix + e.name;
            && (e.kind.Directory? ==> d < e.kind.dir < |fs.dirs|)
            && (DeleteEntry(fs, stuck, gone, d, i, prefix).ok <==>
                  if e.kind.Directory? then
                    && path !in fs.lost && Truncated(path + "/") !in fs.lost && fs.dirs[e.kind.dir].readable
                    && DeleteFrom(fs, stuck, gone, e.kind.dir, 0, path + "/").ok
                  else !InTheWay(fs, stuck, e, path))
  {
    EntryWellFormed(fs, d, i);
    if fs.dirs[d].entries[i].kind.Directory? {
      DirectoryEntry(fs, stuck, gone, d, i, prefix);
    }
  }

  lemma UnderInside(prefix: string, name: string, inner: string, path: string)
    requires Under(prefix + name + "/", inner, path) && |prefix + name + "/" + inner| < PATH_MAX
    ensures Under(prefix, name, path)
  {
    var inside := prefix + name + "/";
    assert inside <= inside + inner <= inside + inner + "/";
    if path != inside + inner {
      PrefixOfPrefix(inside, inside + inner + "/", path);
    }
  }

  /** Inside a directory that has not been touched nothing has been. */
  lemma UntouchedInside(fs: FileSystem, gone: seq<string>, d: DirId, i: nat, prefix: string)
    requires WellFormed(fs) && d < |fs.dirs| && i < |fs.dirs[d].entries| && !fs.dirs[d].entries[i].IsDot()
    requires fs.dirs[d].entries[i].kind.Directory? && fs.dirs[d].entries[i].kind.dir < |fs.dirs|
    requires Untouched(fs, gone, d, i, prefix) && |prefix + fs.dirs[d].entries[i].name| < PATH_MAX
    ensures Untouched(fs, gone, fs.dirs[d].entries[i].kind.dir, 0, prefix + fs.dirs[d].entries[i].name + "/")
  {
    var e := fs.dirs[d].entries[i];
    var here := prefix + e.name;
    var inside := here + "/";
    forall k | 0 <= k < |gone| ensures gone[k] != Truncated(inside) {
      assert !Under(prefix, e.name, gone[k]);
      assert |inside| == PATH_MAX ==> Truncated(inside) == here;
    }
    forall j, k | 0 <= j < |fs.dirs[e.kind.dir].entries| && 0 <= k < |gone|
                  && |inside + fs.dirs[e.kind.dir].entries[j].name| < PATH_MAX
      ensures !Under(inside, fs.dirs[e.kind.dir].entries[j].name, gone[k])
    {
      assert !Under(prefix, e.name, gone[k]);
      if Under(inside, fs.dirs[e.kind.dir].entries[j].name, gone[k]) {
        UnderInside(prefix, e.name, fs.dirs[e.kind.dir].entries[j].name, gone[k]);
      }
    }
  }

  lemma UnderOne(prefix: string, a: string, b: string, path: string)
    requires NameOk(a) && NameOk(b) && a != b && Under(prefix, a, path)
    requires |prefix + a| < PATH_MAX && |prefix + b| < PATH_MAX
    ensures !Under(prefix, b, path)
  {
    if prefix + a + "/" <= path {
      NotUnder(prefix, a, b, path);
    } else if prefix + b + "/" <= path {
      NotUnder(prefix, b, a, path);
    } else {
      assert a == (prefix + a)[|prefix|..] && b == (prefix + b)[|prefix|..];
    }
  }

  /** Removing one entry leaves the others untouched. */
  lemma UntouchedNext(fs: FileSystem, stuck: set<string>, gone: seq<string>, d: DirId, i: nat, prefix: string)
    requires WellFormed(fs) && d < |fs.dirs| && i < |fs.dirs[d].entries| && !fs.dirs[d].entries[i].IsDot()
    requires Untouched(fs, gone, d, i, prefix) && |prefix + fs.dirs[d].entries[i].name| < PATH_MAX
    ensures Untouched(fs, gone + DeleteEntry(fs, stuck, gone, d, i, prefix).removed, d, i + 1, prefix)
  {
    var name := fs.dirs[d].entries[i].name;
    var removed := DeleteEntry(fs, stuck, gone, d, i, prefix).removed;
    EntryWellFormed(fs, d, i);
    forall p | p in removed
      ensures |p| < PATH_MAX && p != Truncated(prefix)
      ensures forall j :: i < j < |fs.dirs[d].entries| && |prefix + fs.dirs[d].entries[j].name| < PATH_MAX ==>
                !Under(prefix, fs.dirs[d].entries[j].name, p)
    {
      EntryRemovedUnder(fs, stuck, gone, d, i, prefix, p);
      EntryRemovedShort(fs, stuck, gone, d, i, prefix, p);
      forall j | i < j < |fs.dirs[d].entries| && |prefix + fs.dirs[d].entries[j].name| < PATH_MAX
        ensures !Under(prefix, fs.dirs[d].entries[j].name, p)
      {
        EntryWellFormed(fs, d, j);
        DifferentNames(fs, d, i, j);
        UnderOne(prefix, name, fs.dirs[d].entries[j].name, p);
      }
    }
  }

  lemma EntryRemovedShort(
    fs: FileSystem, stuck: set<string>, gone: seq<string>, d: DirId, i: nat, prefix: string, path: string)
    requires WellFormed(fs) && d < |fs.dirs| && i < |fs.dirs[d].entries|
    requires path in DeleteEntry(fs, stuck, gone, d, i, prefix).removed
    ensures |path| < PATH_MAX
  {
    var e := fs.dirs[d].entries[i];
    EntryRemoves(fs, stuck, gone, d, i, prefix);
    if e.kind.Directory? && !e.IsDot() && |prefix + e.name| < PATH_MAX {
      RemovedIsShort(fs, stuck, gone, e.kind.dir, 0, prefix + e.name + "/", path);
    }
  }

  /** An entry with a whole path that goes is taken under that path. */
  lemma EntryTaken(fs: FileSystem, stuck: set<string>, gone: seq<string>, d: DirId, i: nat, prefix: string)
    requires WellFormed(fs) && d < |fs.dirs| && i < |fs.dirs[d].entries| && !fs.dirs[d].entries[i].IsDot()
    requires |prefix + fs.dirs[d].entries[i].name| < PATH_MAX && DeleteEntry(fs, stuck, gone, d, i, prefix).ok
    ensures var e := fs.dirs[d].entries[i];
            var path := prefix + e.name;
            var removed := DeleteEntry(fs, stuck, gone, d, i, prefix).removed;
            && Taken(removed, path) && path !in fs.lost && !e.kind.Special?
            && (if e.kind.Directory? then
                  && d < e.kind.dir < |fs.dirs| && fs.dirs[e.kind.dir].readable
                  && DeleteEntry(fs, stuck, gone, d, i, prefix) == DeleteFrom(fs, stuck, gone, e.kind.dir, 0, path + "/")
                  && Truncated(path + "/") in removed
                else removed == [path])
  {
    var e := fs.dirs[d].entries[i];
    var path := prefix + e.name;
    if e.kind.Directory? {
      DirectoryEntry(fs, stuck, gone, d, i, prefix);
      RemovesItself(fs, stuck, gone, e.kind.dir, 0, path + "/");
      assert |path + "/"| == PATH_MAX ==> Truncated(path + "/") == path;
    }
  }

  lemma DoneNext(fs: FileSystem, stuck: set<string>, gone: seq<string>, d: DirId, i: nat, prefix: string)
    requires WellFormed(fs) && d < |fs.dirs| && i < |fs.dirs[d].entries| && !fs.dirs[d].entries[i].IsDot()
    requires |prefix + fs.dirs[d].entries[i].name| < PATH_MAX && DeleteEntry(fs, stuck, gone, d, i, prefix).ok
    requires DoneBefore(fs, gone, d, i, prefix)
    ensures DoneBefore(fs, gone + DeleteEntry(fs, stuck, gone, d, i, prefix).removed, d, i + 1, prefix)
  {
    EntryTaken(fs, stuck, gone, d, i, prefix);
  }

  /** Deletion goes on from the i-th entry to the end. */
  ghost predicate GoesThrough(fs: FileSystem, stuck: set<string>, gone: seq<string>, d: DirId, i: nat, prefix: string)
    requires WellFormed(fs) && d < |fs.dirs| && i <= |fs.dirs[d].entries|
  {
    DeleteFrom(fs, stuck, gone, d, i, prefix).ok <==>
      Removable(fs, stuck, d, i, prefix) && Unobstructed(fs, stuck, d, i, prefix)
  }

  lemma ThroughDot(fs: FileSystem, stuck: set<string>, gone: seq<string>, d: DirId, i: nat, prefix: string)
    requires WellFormed(fs) && d < |fs.dirs| && i < |fs.dirs[d].entries| && fs.dirs[d].entries[i].IsDot()
    requires GoesThrough(fs, stuck, gone, d, i + 1, prefix)
    ensures GoesThrough(fs, stuck, gone, d, i, prefix)
  {
    TrailsThrough(fs, stuck, d, i, prefix);
    assert gone + [] == gone;
  }

  lemma ThroughNothing(fs: FileSystem, stuck: set<string>, gone: seq<string>, d: DirId, i: nat, prefix: string)
    requires WellFormed(fs) && d < |fs.dirs| && i < |fs.dirs[d].entries| && !fs.dirs[d].entries[i].IsDot()
    requires Short(gone) && |prefix + fs.dirs[d].entries[i].name| >= PATH_MAX
    ensures GoesThrough(fs, stuck, gone, d, i, prefix)
  {
    TrailsThrough(fs, stuck, d, i, prefix);
    if DeleteFrom(fs, stuck, gone, d, i, prefix).ok {
      FitsWhole(fs, stuck, gone, d, i, prefix, i);
    }
  }

  lemma ThroughEntry(fs: FileSystem, stuck: set<string>, gone: seq<string>, d: DirId, i: nat, prefix: string)
    requires WellFormed(fs) && d < |fs.dirs| && i < |fs.dirs[d].entries| && !fs.dirs[d].entries[i].IsDot()
    requires |prefix + fs.dirs[d].entries[i].name| < PATH_MAX && !Taken(gone, prefix + fs.dirs[d].entries[i].name)
    requires var e := fs.dirs[d].entries[i];
             e.kind.Directory? ==>
               d < e.kind.dir < |fs.dirs| && GoesThrough(fs, stuck, gone, e.kind.dir, 0, prefix + e.name + "/")
    requires var first := DeleteEntry(fs, stuck, gone, d, i, prefix);
             first.ok ==> GoesThrough(fs, stuck, gone + first.removed, d, i + 1, prefix)
    ensures GoesThrough(fs, stuck, gone, d, i, prefix)
  {
    TrailsThrough(fs, stuck, d, i, prefix);
    EntryDeletesIff(fs, stuck, gone, d, i, prefix);
  }

  lemma {:induction false} DeletesFromIff(
    fs: FileSystem, stuck: set<string>, gone: seq<string>, d: DirId, i: nat, prefix: string)
    requires WellFormed(fs) && d < |fs.dirs| && i <= |fs.dirs[d].entries|
    requires Untouched(fs, gone, d, i, prefix) && DoneBefore(fs, gone, d, i, prefix)
    ensures GoesThrough(fs, stuck, gone, d, i, prefix)
    decreases |fs.dirs| - d, |fs.dirs[d].entries| - i
  {
    if i == |fs.dirs[d].entries| {
    } else if fs.dirs[d].entries[i].IsDot() {
      DeletesFromIff(fs, stuck, gone, d, i + 1, prefix);
      ThroughDot(fs, stuck, gone, d, i, prefix);
    } else if |prefix + fs.dirs[d].entries[i].name| >= PATH_MAX {
      ThroughNothing(fs, stuck, gone, d, i, prefix);
    } else {
      var e := fs.dirs[d].entries[i];
      var first := DeleteEntry(fs, stuck, gone, d, i, prefix);
      NotTaken(fs, gone, d, i, prefix);
      EntryWellFormed(fs, d, i);
      if e.kind.Directory? {
        UntouchedInside(fs, gone, d, i, prefix);
        DeletesFromIff(fs, stuck, gone, e.kind.dir, 0, prefix + e.name + "/");
      }
      if first.ok {
        UntouchedNext(fs, stuck, gone, d, i, prefix);
        DoneNext(fs, stuck, gone, d, i, prefix);
        DeletesFromIff(fs, stuck, gone + first.removed, d, i + 1, prefix);
      }
      ThroughEntry(fs, stuck, gone, d, i, prefix);
    }
  }

  /** Deletion goes through if and only if no entry of the tree is in the way and the directory
      itself can be read to its end and removed. */
  lemma DeletesIff(fs: FileSystem, stuck: set<string>, d: DirId, prefix: string)
    requires WellFormed(fs) && d < |fs.dirs|
    ensures DeleteFrom(fs, stuck, [], d, 0, prefix).ok <==>
            Removable(fs, stuck, d, 0, prefix) && Unobstructed(fs, stuck, d, 0, prefix)
  {
    DeletesFromIff(fs, stuck, [], d, 0, prefix);
  }

  /** With a named pipe read first, nothing is removed even if the system would refuse nothing. */
  lemma SpecialFileStopsDeletion()
    ensures WellFormed(FIFO_FIRST) && DirAt(FIFO_FIRST, "/") == Some(0)
    ensures DeleteFrom(FIFO_FIRST, {}, [], 0, 0, "/") == NOT_DONE
  {
    FifoFirstWellFormed();
    assert DeleteEntry(FIFO_FIRST, {}, [], 0, 0, "/") == NOT_DONE;
  }

  // ----- what a deletion that goes through removes -----

  /** The path under which the entry at the end of a trail is removed. */
  ghost function Gone(fs: FileSystem, d: DirId, prefix: string, trail: seq<nat>): string
    requires Trail(fs, TREE, d, [], trail)
  {
    var path := TrailPath(fs, TREE, d, prefix, [], trail);
    if Last(fs, TREE, d, [], trail).kind.Directory? then Truncated(path + "/") else path
  }

  /** A deletion that goes through removes every entry of the tree, at every depth. */
  lemma {:induction false} RemovesTheTree(
    fs: FileSystem, stuck: set<string>, gone: seq<string>, d: DirId, i: nat, prefix: string, trail: seq<nat>)
    requires WellFormed(fs) && d < |fs.dirs| && i <= |fs.dirs[d].entries| && Short(gone)
    requires DeleteFrom(fs, stuck, gone, d, i, prefix).ok
    requires Trail(fs, TREE, d, [], trail) && i <= trail[0]
    ensures Gone(fs, d, prefix, trail) in DeleteFrom(fs, stuck, gone, d, i, prefix).removed
    decreases |fs.dirs| - d, |fs.dirs[d].entries| - i
  {
    var e := fs.dirs[d].entries[i];
    var first := DeleteEntry(fs, stuck, gone, d, i, prefix);
    if trail[0] > i {
      ShortNext(fs, stuck, gone, d, i, prefix);
      RemovesTheTree(fs, stuck, gone + first.removed, d, i + 1, prefix, trail);
    } else {
      FitsWhole(fs, stuck, gone, d, i, prefix, i);
      EntryTaken(fs, stuck, gone, d, i, prefix);
      if |trail| > 1 {
        RemovesTheTree(fs, stuck, gone, e.kind.dir, 0, prefix + e.name + "/", trail[1..]);
      }
    }
  }

  lemma ShortNext(fs: FileSystem, stuck: set<string>, gone: seq<string>, d: DirId, i: nat, prefix: string)
    requires WellFormed(fs) && d < |fs.dirs| && i < |fs.dirs[d].entries| && Short(gone)
    ensures Short(gone + DeleteEntry(fs, stuck, gone, d, i, prefix).removed)
  {
    var removed := DeleteEntry(fs, stuck, gone, d, i, prefix).removed;
    forall k | 0 <= k < |removed| ensures |removed[k]| < PATH_MAX {
      EntryRemovedShort(fs, stuck, gone, d, i, prefix, removed[k]);
    }
  }

  /** It removes as many paths as a listing is meant to name, and the directory itself. */
  lemma {:induction false} RemovesAsMany(
    fs: FileSystem, stuck: set<string>, gone: seq<string>, d: DirId, i: nat, prefix: string)
    requires WellFormed(fs) && d < |fs.dirs| && i <= |fs.dirs[d].entries| && Short(gone)
    requires DeleteFrom(fs, stuck, gone, d, i, prefix).ok
    ensures |DeleteFrom(fs, stuck, gone, d, i, prefix).removed| == |Promised(fs, TREE, d, i, prefix, [])| + 1
    decreases |fs.dirs| - d, |fs.dirs[d].entries| - i
  {
    if i == |fs.dirs[d].entries| {
    } else {
      var e := fs.dirs[d].entries[i];
      var first := DeleteEntry(fs, stuck, gone, d, i, prefix);
      ShortNext(fs, stuck, gone, d, i, prefix);
      RemovesAsMany(fs, stuck, gone + first.removed, d, i + 1, prefix);
      if e.IsDot() {
        EntryWellFormed(fs, d, i);
      } else {
        FitsWhole(fs, stuck, gone, d, i, prefix, i);
        EntryTaken(fs, stuck, gone, d, i, prefix);
        if e.kind.Directory? {
          RemovesAsMany(fs, stuck, gone, e.kind.dir, 0, prefix + e.name + "/");
        }
      }
    }
  }

  /** The visible entry that a positive count stands for. */
  lemma {:induction false} SomeVisible(entries: seq<Dirent>, i: nat) returns (j: nat)
    requires i <= |entries| && VisibleFrom(entries, i) > 0
    ensures i <= j < |entries| && !entries[j].IsDot()
    decreases |entries| - i
  {
    if !entries[i].IsDot() {
      j := i;
    } else {
      j := SomeVisible(entries, i + 1);
    }
  }

  /** Where deletion goes through a listing would tell every entry. */
  lemma DeletedIsTold(fs: FileSystem, stuck: set<string>, gone: seq<string>, d: DirId, i: nat, prefix: string)
    requires Rooted(fs, d, prefix) && i < |fs.dirs[d].entries| && Short(gone)
    requires DeleteFrom(fs, stuck, gone, d, i, prefix).ok && VisibleFrom(fs.dirs[d].entries, i) > 0
    ensures Told(fs, TREE, d, i, prefix, [])
  {
    var e := fs.dirs[d].entries[i];
    if e.IsDot() {
      var j := SomeVisible(fs.dirs[d].entries, i);
      FitsWhole(fs, stuck, gone, d, i, prefix, j);
      EntryWellFormed(fs, d, j);
      DotsAreSkipped(fs, TREE, d, i, prefix, []);
    } else {
      FitsWhole(fs, stuck, gone, d, i, prefix, i);
      EntryTaken(fs, stuck, gone, d, i, prefix);
    }
  }

  lemma {:induction false} DeletedIsUnhindered(
    fs: FileSystem, stuck: set<string>, gone: seq<string>, d: DirId, i: nat, prefix: string)
    requires Rooted(fs, d, prefix) && i <= |fs.dirs[d].entries| && Short(gone)
    requires DeleteFrom(fs, stuck, gone, d, i, prefix).ok
    ensures Unhindered(fs, TREE, d, i, prefix, [])
    decreases |fs.dirs| - d, |fs.dirs[d].entries| - i
  {
    if VisibleFrom(fs.dirs[d].entries, i) == 0 {
    } else {
      var e := fs.dirs[d].entries[i];
      var first := DeleteEntry(fs, stuck, gone, d, i, prefix);
      DeletedIsTold(fs, stuck, gone, d, i, prefix);
      ShortNext(fs, stuck, gone, d, i, prefix);
      DeletedIsUnhindered(fs, stuck, gone + first.removed, d, i + 1, prefix);
      if GoesInto(fs, TREE, d, i, prefix, []) {
        GoneInto(fs, TREE, d, i, prefix, []);
        RootedInside(fs, TREE, d, i, prefix, []);
        EntryTaken(fs, stuck, gone, d, i, prefix);
        DeletedIsUnhindered(fs, stuck, gone, e.kind.dir, 0, prefix + e.name + "/");
      }
    }
  }

  /** A deletion that goes through is announced by the recursive listing that follows no links: it
      names exactly what is removed, each path once, the directory itself apart. */
  lemma ListingAnnouncesDeletion(fs: FileSystem, stuck: set<string>, d: DirId, prefix: string)
    requires Rooted(fs, d, prefix) && DeleteFrom(fs, stuck, [], d, 0, prefix).ok
    ensures var listed := Named(ListFrom(fs, TREE, d, 0, prefix, []));
            var removed := DeleteFrom(fs, stuck, [], d, 0, prefix).removed;
            && listed == Promised(fs, TREE, d, 0, prefix, [])
            && |removed| == |listed| + 1 && Distinct(removed)
            && forall p :: p in listed ==> Taken(removed, p)
  {
    DeletedIsUnhindered(fs, stuck, [], d, 0, prefix);
    ListingCompleteIff(fs, TREE, d, 0, prefix, []);
    RemovesAsMany(fs, stuck, [], d, 0, prefix);
    RemovesNothingTwice(fs, stuck, [], d, 0, prefix);
    forall p | p in Promised(fs, TREE, d, 0, prefix, []) ensures Taken(DeleteFrom(fs, stuck, [], d, 0, prefix).removed, p) {
      PromisedIsTaken(fs, stuck, [], d, 0, prefix, p);
    }
  }

  lemma {:induction false} PromisedIsTaken(
    fs: FileSystem, stuck: set<string>, gone: seq<string>, d: DirId, i: nat, prefix: string, path: string)
    requires WellFormed(fs) && d < |fs.dirs| && i <= |fs.dirs[d].entries| && Short(gone)
    requires DeleteFrom(fs, stuck, gone, d, i, prefix).ok
    requires path in Promised(fs, TREE, d, i, prefix, [])
    ensures Taken(DeleteFrom(fs, stuck, gone, d, i, prefix).removed, path)
    decreases |fs.dirs| - d, |fs.dirs[d].entries| - i
  {
    var e := fs.dirs[d].entries[i];
    var here := prefix + e.name;
    var first := DeleteEntry(fs, stuck, gone, d, i, prefix);
    if path in Promised(fs, TREE, d, i + 1, prefix, []) {
      ShortNext(fs, stuck, gone, d, i, prefix);
      PromisedIsTaken(fs, stuck, gone + first.removed, d, i + 1, prefix, path);
    } else {
      EntryWellFormed(fs, d, i);
      FitsWhole(fs, stuck, gone, d, i, prefix, i);
      EntryTaken(fs, stuck, gone, d, i, prefix);
      if path != here {
        PromisedIsTaken(fs, stuck, gone, e.kind.dir, 0, here + "/", path);
      }
    }
  }
}
