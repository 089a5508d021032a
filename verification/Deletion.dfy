/**
 Recursive deletion as it runs: one path buffer that grows by a name and a separator on the
 way down and is cut back after each entry.  `gone` is what has been removed so far.
 */
module Deletions {
  import opened Wrappers
  import opened Folding
  import opened FileSystems
  import opened ListingSpec
  import opened ListingState
  import opened ListingFacts
  import opened PathBuffers
  import opened DeletionSpec

  /** The buffer holds a path, and the system reads as much of it as fits. */
  ghost predicate Holds(buffer: PathBuffer, path: string)
    reads buffer, buffer.data
  {
    && buffer.Valid() && '\0' !in path && |path| <= PATH_MAX
    && buffer.Contents() == Stored(path) && buffer.Text() == Truncated(path)
  }

  /** What can be said of the buffer after an entry, done or not: it can be cut back. */
  ghost predicate CanReset(buffer: PathBuffer, path: string)
    reads buffer, buffer.data
  {
    && buffer.Valid() && '\0' !in path && |path| <= PATH_MAX
    && buffer.data[..|path|] == Stored(path)
  }

  lemma CanResetShorter(buffer: PathBuffer, path: string, more: string)
    requires CanReset(buffer, path + more)
    ensures CanReset(buffer, path)
  {
    StoredGrows(path, more);
    assert buffer.data[..|path|] == buffer.data[..|path + more|][..|path|] == Stored(path + more)[..|path|];
  }

  method CutBack(buffer: PathBuffer, length: nat, ghost path: string)
    requires CanReset(buffer, path) && length == |path|
    modifies buffer`length, buffer.data
    ensures Holds(buffer, path)
  {
    buffer.Reset(length);
  }

  /** Appends a name or a separator to the path in the buffer; what does not fit is refused. */
  method Append(buffer: PathBuffer, name: string, ghost path: string) returns (ok: bool)
    requires Holds(buffer, path) && '\0' !in name && name != ""
    modifies buffer`length, buffer.data
    ensures CanReset(buffer, path)
    ensures ok <==> |path + name| <= PATH_MAX
    ensures ok ==> Holds(buffer, path + name)
  {
    ok := buffer.Add(name);
    if ok {
      StoredGrows(path, name);
    }
  }

  /** unlink, of the path in the buffer. */
  method Unlink(fs: FileSystem, stuck: set<string>, gone: seq<string>, buffer: PathBuffer)
    returns (ok: bool, removed: seq<string>)
    requires buffer.Valid()
    ensures Deletion(removed, ok) == UnlinkKind(LstatNow(fs, gone, buffer.Text()), stuck, buffer.Text())
  {
    var path := buffer.AsString();
    var info := LstatNow(fs, gone, path);
    if info.None? || info.value.Directory? || path in stuck {
      return false, [];
    }
    return true, [path];
  }

  method DeleteFile(fs: FileSystem, stuck: set<string>, gone: seq<string>, buffer: PathBuffer, name: string, ghost path: string)
    returns (ok: bool, removed: seq<string>)
    requires Holds(buffer, path) && NameOk(name)
    modifies buffer`length, buffer.data
    ensures CanReset(buffer, path)
    ensures var shown := Truncated(path + name);
            Deletion(removed, ok) ==
            if |path + name| > PATH_MAX then NOT_DONE else UnlinkKind(LstatNow(fs, gone, shown), stuck, shown)
  {
    ok := Append(buffer, name, path);
    if !ok {
      return false, [];
    }
    ok, removed := Unlink(fs, stuck, gone, buffer);
  }

  /** The directories a path can still lead down to. */
  ghost function Rank(fs: FileSystem, path: string): nat {
    if |path| >= PATH_MAX then 0
    else
      match Lstat(fs, path)
      case Some(Directory(d)) => if d < |fs.dirs| then |fs.dirs| - d else 0
      case _ => 0
  }

  /** Looking at an entry that is no dot by its path shows what the specification says. */
  lemma SeenIsAnswerNow(fs: FileSystem, gone: seq<string>, d: DirId, i: nat, prefix: string)
    requires Rooted(fs, d, prefix) && i < |fs.dirs[d].entries| && !fs.dirs[d].entries[i].IsDot()
    requires |prefix + fs.dirs[d].entries[i].name| <= PATH_MAX
    ensures var e := fs.dirs[d].entries[i];
            LstatNow(fs, gone, Truncated(prefix + e.name)) == SeenNow(fs, gone, e, prefix + e.name)
  {
    SeenIsAnswer(fs, d, i, prefix);
  }

  /** A directory inside another leads down to fewer directories. */
  lemma RankBelow(fs: FileSystem, d: DirId, i: nat, prefix: string)
    requires Rooted(fs, d, prefix) && i < |fs.dirs[d].entries| && !fs.dirs[d].entries[i].IsDot()
    ensures Rank(fs, prefix + fs.dirs[d].entries[i].name) < |fs.dirs| - d
  {
    EntryWellFormed(fs, d, i);
    JoinNamesEntry(fs, prefix, d, i);
  }

  /** An entry that has been taken for a directory is deleted by its path. */
  lemma DeletedByPath(fs: FileSystem, stuck: set<string>, gone: seq<string>, d: DirId, i: nat, prefix: string)
    requires Rooted(fs, d, prefix) && i < |fs.dirs[d].entries| && !fs.dirs[d].entries[i].IsDot()
    requires |prefix + fs.dirs[d].entries[i].name| <= PATH_MAX
    ensures DeleteNamed(fs, stuck, gone, d, i, prefix) == DeletePath(fs, stuck, gone, prefix + fs.dirs[d].entries[i].name)
  {
    SeenIsAnswerNow(fs, gone, d, i, prefix);
    EntryWellFormed(fs, d, i);
    var e := fs.dirs[d].entries[i];
    ByKind(fs, stuck, gone, d, i, prefix, SeenNow(fs, gone, e, prefix + e.name));
  }

  lemma ByKind(
    fs: FileSystem, stuck: set<string>, gone: seq<string>, d: DirId, i: nat, prefix: string, info: Option<Kind>)
    requires WellFormed(fs) && d < |fs.dirs| && i < |fs.dirs[d].entries| && !fs.dirs[d].entries[i].IsDot()
    requires var e := fs.dirs[d].entries[i];
             var path := prefix + e.name;
             && SeenNow(fs, gone, e, path) == info == LstatNow(fs, gone, Truncated(path))
             && (|path| < PATH_MAX && info.Some? ==> info.value == e.kind)
             && (e.kind.Directory? ==> e.kind.dir < |fs.dirs|)
    ensures DeleteNamed(fs, stuck, gone, d, i, prefix) == DeletePath(fs, stuck, gone, prefix + fs.dirs[d].entries[i].name)
  {
    match info
    case None =>
    case Some(Special) =>
    case Some(Regular) =>
    case Some(SymLink(_, _)) =>
    case Some(Directory(_)) =>
  }

  /** A directory inside the one being read; dots are left alone. */
  method DeleteDir(
    fs: FileSystem, stuck: set<string>, gone: seq<string>, buffer: PathBuffer, name: string,
    ghost d: DirId, ghost i: nat, ghost prefix: string)
    returns (ok: bool, removed: seq<string>)
    requires Rooted(fs, d, prefix) && i < |fs.dirs[d].entries| && fs.dirs[d].entries[i].name == name
    requires Holds(buffer, prefix)
    modifies buffer`length, buffer.data
    ensures CanReset(buffer, prefix)
    ensures Deletion(removed, ok) ==
            if fs.dirs[d].entries[i].IsDot() then Deletion([], true)
            else if |prefix + name| > PATH_MAX then NOT_DONE
            else DeleteNamed(fs, stuck, gone, d, i, prefix)
    decreases |fs.dirs| - d, 1
  {
    if name == "." || name == ".." {
      return true, [];
    }
    EntryWellFormed(fs, d, i);
    ok := Append(buffer, name, prefix);
    if !ok {
      return false, [];
    }
    DeletedByPath(fs, stuck, gone, d, i, prefix);
    RankBelow(fs, d, i, prefix);
    ok, removed := DeleteRecursively(fs, stuck, gone, buffer, prefix + name);
    CanResetShorter(buffer, prefix, name);
  }

  /** The type of an entry, found by its path if the directory does not tell. */
  method TypeOfEntry(
    fs: FileSystem, gone: seq<string>, buffer: PathBuffer, e: Dirent, length: nat,
    ghost d: DirId, ghost i: nat, ghost prefix: string)
    returns (kind: Option<Kind>)
    requires Rooted(fs, d, prefix) && i < |fs.dirs[d].entries| && fs.dirs[d].entries[i] == e
    requires Holds(buffer, prefix) && length == |prefix|
    modifies buffer`length, buffer.data
    ensures CanReset(buffer, prefix) && (kind.Some? ==> Holds(buffer, prefix))
    ensures var path := prefix + e.name;
            kind == if e.typeKnown then Some(e.kind)
                    else if |path| > PATH_MAX then None
                    else if e.IsDot() then Seen(fs, e, path)
                    else SeenNow(fs, gone, e, path)
  {
    if e.typeKnown {
      return Some(e.kind);
    }
    EntryWellFormed(fs, d, i);
    var ok := Append(buffer, e.name, prefix);
    if !ok {
      return None;
    }
    SeenIsAnswer(fs, d, i, prefix);
    var path := buffer.AsString();
    kind := if e.IsDot() then Answer(fs, path) else LstatNow(fs, gone, path);
    if kind.Some? {
      CutBack(buffer, length, prefix);
    }
  }

  /** A dot looks like a directory whatever happens. */
  lemma DotSeen(fs: FileSystem, d: DirId, i: nat, prefix: string)
    requires Rooted(fs, d, prefix) && i < |fs.dirs[d].entries| && fs.dirs[d].entries[i].IsDot()
    ensures var e := fs.dirs[d].entries[i];
            var path := prefix + e.name;
            && e.kind.Directory?
            && (|path| <= PATH_MAX && Seen(fs, e, path).Some? ==> Seen(fs, e, path).value.Directory?)
  {
    var e := fs.dirs[d].entries[i];
    EntryWellFormed(fs, d, i);
    if |prefix + e.name| == PATH_MAX {
      assert Truncated(prefix + e.name) == prefix + e.name[..|e.name| - 1];
      CutDot(fs, prefix, d, e);
    }
  }

  /** One entry of an open directory. */
  method HandleEntry(
    fs: FileSystem, stuck: set<string>, gone: seq<string>, buffer: PathBuffer, e: Dirent, length: nat,
    ghost d: DirId, ghost i: nat, ghost prefix: string)
    returns (ok: bool, removed: seq<string>)
    requires Rooted(fs, d, prefix) && i < |fs.dirs[d].entries| && fs.dirs[d].entries[i] == e
    requires Holds(buffer, prefix) && length == |prefix|
    modifies buffer`length, buffer.data
    ensures CanReset(buffer, prefix)
    ensures Deletion(removed, ok) == DeleteEntry(fs, stuck, gone, d, i, prefix)
    decreases |fs.dirs| - d, 2
  {
    EntryWellFormed(fs, d, i);
    if e.IsDot() {
      DotSeen(fs, d, i, prefix);
    } else if |prefix + e.name| <= PATH_MAX {
      SeenIsAnswerNow(fs, gone, d, i, prefix);
    }
    var kind := TypeOfEntry(fs, gone, buffer, e, length, d, i, prefix);
    match kind
    case None => ok, removed := false, [];
    case Some(Directory(_)) => ok, removed := DeleteDir(fs, stuck, gone, buffer, e.name, d, i, prefix);
    case Some(Regular) => ok, removed := DeleteFile(fs, stuck, gone, buffer, e.name, prefix);
    case Some(SymLink(_, _)) => ok, removed := DeleteFile(fs, stuck, gone, buffer, e.name, prefix);
    case Some(Special) => ok, removed := false, [];
  }

  /** The entries from the i-th on are all that is left of the whole; kept folded. */
  ghost predicate Left(
    fs: FileSystem, stuck: set<string>, gone: seq<string>, d: DirId, i: nat, prefix: string,
    removed: seq<string>, whole: Deletion)
    requires WellFormed(fs) && d < |fs.dirs| && i <= |fs.dirs[d].entries|
  {
    forall level: int {:trigger Look(level)} :: Look(level) && level == DELETION_FOLD ==>
      var rest := DeleteFrom(fs, stuck, gone + removed, d, i, prefix);
      Deletion(removed + rest.removed, rest.ok) == whole
  }

  lemma LeftStart(fs: FileSystem, stuck: set<string>, gone: seq<string>, d: DirId, prefix: string)
    requires WellFormed(fs) && d < |fs.dirs|
    ensures Left(fs, stuck, gone, d, 0, prefix, [], DeleteFrom(fs, stuck, gone, d, 0, prefix))
  {
    assert gone + [] == gone;
    var whole := DeleteFrom(fs, stuck, gone, d, 0, prefix);
    assert [] + whole.removed == whole.removed;
  }

  lemma LeftStep(
    fs: FileSystem, stuck: set<string>, gone: seq<string>, d: DirId, i: nat, prefix: string,
    removed: seq<string>, whole: Deletion)
    requires WellFormed(fs) && d < |fs.dirs| && i < |fs.dirs[d].entries|
    requires Left(fs, stuck, gone, d, i, prefix, removed, whole)
    ensures var one := DeleteEntry(fs, stuck, gone + removed, d, i, prefix);
            && (one.ok ==> Left(fs, stuck, gone, d, i + 1, prefix, removed + one.removed, whole))
            && (!one.ok ==> whole == Deletion(removed + one.removed, false))
  {
    assert Look(DELETION_FOLD);
    var one := DeleteEntry(fs, stuck, gone + removed, d, i, prefix);
    DeleteStep(fs, stuck, gone + removed, d, i, prefix, one);
    assert (gone + removed) + one.removed == gone + (removed + one.removed);
    var rest := DeleteFrom(fs, stuck, gone + (removed + one.removed), d, i + 1, prefix);
    assert (removed + one.removed) + rest.removed == removed + (one.removed + rest.removed);
  }

  lemma NothingButItself(
    fs: FileSystem, stuck: set<string>, gone: seq<string>, d: DirId, prefix: string, removed: seq<string>, whole: Deletion)
    requires WellFormed(fs) && d < |fs.dirs|
    requires Left(fs, stuck, gone, d, |fs.dirs[d].entries|, prefix, removed, whole)
    ensures var last := RemoveDirectory(fs, stuck, gone + removed, d, prefix);
            whole == Deletion(removed + last.removed, last.ok)
  {
    assert Look(DELETION_FOLD);
  }

  /** remove, of the directory that has been read: one that is not empty stays. */
  method Remove(fs: FileSystem, stuck: set<string>, gone: seq<string>, buffer: PathBuffer, d: DirId, ghost prefix: string)
    returns (ok: bool, removed: seq<string>)
    requires Holds(buffer, prefix) && EndsWithSeparator(prefix) && d < |fs.dirs| && !fs.dirs[d].torn
    ensures Deletion(removed, ok) == RemoveDirectory(fs, stuck, gone, d, prefix)
  {
    var path := buffer.AsString();
    var inside := if buffer.length < PATH_MAX then path else path + "/";
    assert inside == prefix;
    if path in stuck || path in gone || !Emptied(fs, gone, d, inside) {
      return false, [];
    }
    return true, [path];
  }

  /** The loop over an open directory, which ends with the directory itself. */
  method DeleteOpened(
    fs: FileSystem, stuck: set<string>, gone: seq<string>, buffer: PathBuffer, d: DirId, ghost prefix: string)
    returns (ok: bool, removed: seq<string>)
    requires Rooted(fs, d, prefix) && Holds(buffer, prefix)
    modifies buffer`length, buffer.data
    ensures CanReset(buffer, prefix)
    ensures Deletion(removed, ok) == DeleteFrom(fs, stuck, gone, d, 0, prefix)
    decreases |fs.dirs| - d, 3
  {
    var length := buffer.length;
    ghost var whole := DeleteFrom(fs, stuck, gone, d, 0, prefix);
    removed := [];
    LeftStart(fs, stuck, gone, d, prefix);
    var i := 0;
    while i < |fs.dirs[d].entries|
      invariant 0 <= i <= |fs.dirs[d].entries| && length == |prefix|
      invariant Holds(buffer, prefix)
      invariant Left(fs, stuck, gone, d, i, prefix, removed, whole)
    {
      LeftStep(fs, stuck, gone, d, i, prefix, removed, whole);
      var one;
      ok, one := HandleEntry(fs, stuck, gone + removed, buffer, fs.dirs[d].entries[i], length, d, i, prefix);
      removed := removed + one;
      if !ok {
        return;
      }
      CutBack(buffer, length, prefix);
      i := i + 1;
    }
    NothingButItself(fs, stuck, gone, d, prefix, removed, whole);
    if fs.dirs[d].torn {
      assert removed + [] == removed;
      return false, removed;
    }
    var last;
    ok, last := Remove(fs, stuck, gone + removed, buffer, d, prefix);
    removed := removed + last;
  }

  /** What opendir finds at a path that names neither a file nor a link. */
  lemma OpensItOrNothing(fs: FileSystem, path: string)
    requires WellFormed(fs) && Lstat(fs, path).Some? && (Lstat(fs, path).value.Directory? || Lstat(fs, path).value.Special?)
    requires |path| < PATH_MAX
    ensures match Lstat(fs, path).value
            case Directory(d) => d < |fs.dirs| && Rooted(fs, d, path + "/") && DirAt(fs, Truncated(path + "/")) == Some(d)
            case _ => DirAt(fs, Truncated(path + "/")) == None
  {
    assert |path + "/"| == PATH_MAX ==> Truncated(path + "/") == path;
    if Lstat(fs, path).value.Directory? {
      LstatDirAt(fs, path);
      LstatOpens(fs, path);
      DirAtInRange(fs, path + "/");
    } else {
      SpecialOpensNothing(fs, path);
    }
  }

  /** Deletes what the path in the buffer names. */
  method DeleteRecursively(
    fs: FileSystem, stuck: set<string>, gone: seq<string>, buffer: PathBuffer, ghost path: string)
    returns (ok: bool, removed: seq<string>)
    requires WellFormed(fs) && Holds(buffer, path)
    modifies buffer`length, buffer.data
    ensures CanReset(buffer, path)
    ensures Deletion(removed, ok) == DeletePath(fs, stuck, gone, path)
    decreases Rank(fs, path), 4
  {
    var name := buffer.AsString();
    var info := LstatNow(fs, gone, name);
    if info.None? {
      return false, [];
    }
    if info.value.Regular? || info.value.SymLink? {
      ok, removed := Unlink(fs, stuck, gone, buffer);
      return;
    }
    ok := Append(buffer, "/", path);
    if !ok {
      return false, [];
    }
    OpensItOrNothing(fs, path);
    var target := buffer.AsString();
    if !CanOpen(fs, target) {
      return false, [];
    }
    ok, removed := DeleteOpened(fs, stuck, gone, buffer, DirAt(fs, target).value, path + "/");
    CanResetShorter(buffer, path, "/");
  }

  /** Directory::Delete, recursive. */
  method Delete(fs: FileSystem, stuck: set<string>, dirName: string) returns (ok: bool, removed: seq<string>)
    requires WellFormed(fs) && '\0' !in dirName
    ensures Deletion(removed, ok) == if |dirName| > PATH_MAX then NOT_DONE else DeletePath(fs, stuck, [], dirName)
  {
    var buffer := new PathBuffer();
    ok := buffer.Add(dirName);
    assert "" + dirName == dirName;
    if !ok {
      return false, [];
    }
    ok, removed := DeleteRecursively(fs, stuck, [], buffer, dirName);
  }
}
