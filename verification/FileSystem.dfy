/**
 A fixed, finite file system: directories, regular files, symbolic links and
 special files, together with the three operating-system calls that the
 directory lister makes on path strings (`opendir`, `lstat`, `stat`).

 Directories are numbered.  Physical sub-directories (everything but `.` and
 `..`) have a larger number than the directory that contains them, which is
 how an acyclic directory tree can always be numbered.  Symbolic links may
 point anywhere, so following links can run in cycles.
 */
module FileSystems {
  import opened Wrappers

  type DirId = nat

  /** What identifies a symbolic link to the operating system. */
  datatype LinkId = LinkId(dev: int, ino: int)

  /** Where a symbolic link leads once every further link has been followed. */
  datatype Target = ToDirectory(dir: DirId) | ToFile | ToSpecial | Broken

  datatype Kind =
    | Directory(dir: DirId)
    | Regular
    | SymLink(id: LinkId, target: Target)
    | Special

  /** One `readdir` result.  Some file systems do not report the entry's type. */
  datatype Dirent = Dirent(name: string, typeKnown: bool, kind: Kind) {
    predicate IsDot() {
      name == "." || name == ".."
    }
  }

  /** What is read of a directory; the reading of a torn one fails after its last entry. */
  datatype Contents = Contents(readable: bool, entries: seq<Dirent>, torn: bool)

  /** `lost` holds the paths that cannot be looked at: what they name has gone since it was read, or
      a directory on the way may not be searched. */
  datatype FileSystem = FileSystem(dirs: seq<Contents>, root: DirId, cwd: DirId, lost: set<string>)

  predicate NameOk(name: string) {
    name != "" && '/' !in name && '\0' !in name
  }

  predicate KindOk(fs: FileSystem, d: DirId, e: Dirent) {
    match e.kind
    case Directory(sub) => sub < |fs.dirs| && (e.IsDot() || d < sub)
    case SymLink(_, ToDirectory(t)) => t < |fs.dirs| && !e.IsDot()
    case _ => !e.IsDot()
  }

  /** The names in a directory are proper and distinct, and lead to numbered directories. */
  predicate DirectoryOk(fs: FileSystem, d: DirId)
    requires d < |fs.dirs|
  {
    var entries := fs.dirs[d].entries;
    && (forall i :: 0 <= i < |entries| ==> NameOk(entries[i].name) && KindOk(fs, d, entries[i]))
    && (forall i, j :: 0 <= i < j < |entries| ==> entries[i].name != entries[j].name)
  }

  ghost predicate WellFormed(fs: FileSystem) {
    && fs.root < |fs.dirs|
    && fs.cwd < |fs.dirs|
    && forall d: DirId {:trigger DirectoryOk(fs, d)} :: d < |fs.dirs| ==> DirectoryOk(fs, d)
  }

  lemma EntryWellFormed(fs: FileSystem, d: DirId, i: nat)
    requires WellFormed(fs) && d < |fs.dirs| && i < |fs.dirs[d].entries|
    ensures NameOk(fs.dirs[d].entries[i].name) && KindOk(fs, d, fs.dirs[d].entries[i])
  {
    assert DirectoryOk(fs, d);
  }

  // ----- path resolution -----

  /** The non-empty components of a path, split at slashes. */
  function Components(path: string): seq<string> {
    if path == "" then []
    else if path[|path| - 1] == '/' then Components(path[..|path| - 1])
    else
      var k := ComponentStart(path);
      Components(path[..k]) + [path[k..]]
  }

  /** Where the last component of a path that does not end in a slash begins. */
  function ComponentStart(path: string): (k: nat)
    ensures k <= |path|
    ensures '/' !in path[k..]
    ensures k == 0 || path[k - 1] == '/'
    ensures path != "" && path[|path| - 1] != '/' ==> k < |path|
  {
    if path == "" || path[|path| - 1] == '/' then |path|
    else
      var k := ComponentStart(path[..|path| - 1]);
      assert path[k..] == path[..|path| - 1][k..] + [path[|path| - 1]];
      k
  }

  function Find(entries: seq<Dirent>, name: string): Option<Kind> {
    if entries == [] then None
    else if entries[0].name == name then Some(entries[0].kind)
    else Find(entries[1..], name)
  }

  /** The directory that a path component leads to, links followed. */
  function Enter(fs: FileSystem, d: DirId, name: string): Option<DirId>
    requires d < |fs.dirs|
  {
    match Find(fs.dirs[d].entries, name)
    case Some(Directory(sub)) => Some(sub)
    case Some(SymLink(_, ToDirectory(t))) => Some(t)
    case _ => None
  }

  function Walk(fs: FileSystem, start: DirId, components: seq<string>): Option<DirId>
    decreases |components|
  {
    if components == [] then Some(start)
    else
      var n := |components| - 1;
      match Walk(fs, start, components[..n])
      case None => None
      case Some(d) => if d < |fs.dirs| then Enter(fs, d, components[n]) else None
  }

  function Start(fs: FileSystem, path: string): DirId
    requires path != ""
  {
    if path[0] == '/' then fs.root else fs.cwd
  }

  /** The directory a path names, all links followed: what `opendir` opens. */
  function DirAt(fs: FileSystem, path: string): Option<DirId> {
    if path == "" then None else Walk(fs, Start(fs, path), Components(path))
  }

  /** What a path names, the last link not followed. */
  function Lstat(fs: FileSystem, path: string): Option<Kind> {
    if path == "" then None
    else if path[|path| - 1] == '/' then
      match DirAt(fs, path)
      case Some(d) => Some(Directory(d))
      case None => None
    else
      var components := Components(path);
      var n := |components| - 1;
      match Walk(fs, Start(fs, path), components[..n])
      case None => None
      case Some(d) => if d < |fs.dirs| then Find(fs.dirs[d].entries, components[n]) else None
  }

  /** `lstat`: what a path names, if it can be looked at. */
  function Answer(fs: FileSystem, path: string): Option<Kind> {
    if path in fs.lost then None else Lstat(fs, path)
  }

  /** `stat`: what a path names, links followed; fails on a broken link. */
  function Stat(fs: FileSystem, path: string): Option<Kind> {
    match Lstat(fs, path)
    case Some(SymLink(_, ToDirectory(d))) => Some(Directory(d))
    case Some(SymLink(_, ToFile)) => Some(Regular)
    case Some(SymLink(_, ToSpecial)) => Some(Special)
    case Some(SymLink(_, Broken)) => None
    case other => other
  }

  // ----- appending one name to a directory's path -----

  predicate EndsWithSeparator(path: string) {
    path != "" && path[|path| - 1] == '/'
  }

  lemma {:induction false} ComponentStartAppend(prefix: string, name: string)
    requires EndsWithSeparator(prefix) && '/' !in name
    ensures ComponentStart(prefix + name) == |prefix|
  {
    if name == "" {
      assert prefix + name == prefix;
    } else {
      var n := |name| - 1;
      assert (prefix + name)[..|prefix + name| - 1] == prefix + name[..n];
      ComponentStartAppend(prefix, name[..n]);
    }
  }

  lemma ComponentsAppend(prefix: string, name: string)
    requires EndsWithSeparator(prefix) && NameOk(name)
    ensures Components(prefix + name) == Components(prefix) + [name]
    ensures Components(prefix + name + "/") == Components(prefix) + [name]
  {
    ComponentStartAppend(prefix, name);
    assert (prefix + name)[..|prefix|] == prefix;
    assert (prefix + name)[|prefix|..] == name;
    assert (prefix + name + "/")[..|prefix + name|] == prefix + name;
  }

  lemma {:induction false} FindEntry(entries: seq<Dirent>, i: nat)
    requires i < |entries|
    requires forall j, k :: 0 <= j < k < |entries| ==> entries[j].name != entries[k].name
    ensures Find(entries, entries[i].name) == Some(entries[i].kind)
  {
    if i == 0 {
    } else {
      FindEntry(entries[1..], i - 1);
    }
  }

  lemma {:induction false} WalkInRange(fs: FileSystem, start: DirId, components: seq<string>)
    requires WellFormed(fs) && start < |fs.dirs|
    ensures Walk(fs, start, components).Some? ==> Walk(fs, start, components).value < |fs.dirs|
    decreases |components|
  {
    if components == [] {
    } else {
      var n := |components| - 1;
      WalkInRange(fs, start, components[..n]);
      match Walk(fs, start, components[..n])
      case None =>
      case Some(d) =>
        assert DirectoryOk(fs, d);
        if Find(fs.dirs[d].entries, components[n]).Some? {
          var i := FoundIsNamed(fs.dirs[d].entries, components[n]);
        }
    }
  }

  /** Joining the name of an entry to its directory's path names that entry. */
  lemma JoinNamesEntry(fs: FileSystem, prefix: string, d: DirId, i: nat)
    requires WellFormed(fs) && d < |fs.dirs| && i < |fs.dirs[d].entries|
    requires EndsWithSeparator(prefix) && DirAt(fs, prefix) == Some(d)
    ensures var e := fs.dirs[d].entries[i];
            && Lstat(fs, prefix + e.name) == Some(e.kind)
            && DirAt(fs, prefix + e.name) == Enter(fs, d, e.name)
            && DirAt(fs, prefix + e.name + "/") == Enter(fs, d, e.name)
            && (e.kind.Directory? ==> Enter(fs, d, e.name) == Some(e.kind.dir))
            && (e.kind.SymLink? && e.kind.target.ToDirectory? ==>
                  Enter(fs, d, e.name) == Some(e.kind.target.dir))
  {
    var e := fs.dirs[d].entries[i];
    var path := prefix + e.name;
    assert DirectoryOk(fs, d);
    ComponentsAppend(prefix, e.name);
    FindEntry(fs.dirs[d].entries, i);
    var base := Components(prefix);
    assert (base + [e.name])[..|base|] == base;
    assert Start(fs, path) == Start(fs, prefix) == Start(fs, path + "/");
    assert path[|path| - 1] != '/' by {
      assert path[|path| - 1] == e.name[|e.name| - 1];
    }
  }

  /** Joining any name to a directory's path looks that name up in the directory. */
  lemma JoinLooksUp(fs: FileSystem, prefix: string, d: DirId, name: string)
    requires WellFormed(fs) && d < |fs.dirs| && NameOk(name)
    requires EndsWithSeparator(prefix) && DirAt(fs, prefix) == Some(d)
    ensures Lstat(fs, prefix + name) == Find(fs.dirs[d].entries, name)
  {
    var path, base := prefix + name, Components(prefix);
    ComponentsAppend(prefix, name);
    assert (base + [name])[..|base|] == base;
    assert path[|path| - 1] == name[|name| - 1];
  }

  /** What is found under a name is an entry of that name. */
  lemma {:induction false} FoundIsNamed(entries: seq<Dirent>, name: string) returns (i: nat)
    requires Find(entries, name).Some?
    ensures i < |entries| && entries[i].name == name && entries[i].kind == Find(entries, name).value
  {
    if entries[0].name == name {
      i := 0;
    } else {
      var j := FoundIsNamed(entries[1..], name);
      i := j + 1;
    }
  }

  /** A dot that loses its last character still names a directory, if anything. */
  lemma CutDot(fs: FileSystem, prefix: string, d: DirId, e: Dirent)
    requires WellFormed(fs) && d < |fs.dirs| && e.IsDot()
    requires EndsWithSeparator(prefix) && DirAt(fs, prefix) == Some(d)
    ensures var kind := Lstat(fs, prefix + e.name[..|e.name| - 1]);
            kind.Some? ==> kind.value.Directory?
  {
    if e.name == "." {
      assert prefix + "."[..0] == prefix;
    } else {
      assert ".."[..1] == ".";
      JoinLooksUp(fs, prefix, d, ".");
      if Find(fs.dirs[d].entries, ".").Some? {
        var i := FoundIsNamed(fs.dirs[d].entries, ".");
        EntryWellFormed(fs, d, i);
      }
    }
  }

  lemma DirAtInRange(fs: FileSystem, path: string)
    requires WellFormed(fs)
    ensures DirAt(fs, path).Some? ==> DirAt(fs, path).value < |fs.dirs|
  {
    if path != "" {
      WalkInRange(fs, Start(fs, path), Components(path));
    }
  }

  /** A path that names a directory, or a link to one, opens it. */
  lemma LstatOpens(fs: FileSystem, path: string)
    requires Lstat(fs, path).Some?
    ensures match Lstat(fs, path).value
            case Directory(d) => DirAt(fs, path) == Some(d)
            case SymLink(_, ToDirectory(d)) => DirAt(fs, path) == Some(d)
            case _ => true
  {
  }

  /** A path that names a special file opens nothing. */
  lemma SpecialOpensNothing(fs: FileSystem, path: string)
    requires Lstat(fs, path) == Some(Special)
    ensures DirAt(fs, path) == None && DirAt(fs, path + "/") == None
  {
    assert (path + "/")[..|path|] == path;
    assert Start(fs, path + "/") == Start(fs, path);
  }

  /** A path that names a directory opens that directory with a separator behind it. */
  lemma LstatDirAt(fs: FileSystem, path: string)
    requires WellFormed(fs) && Lstat(fs, path).Some? && Lstat(fs, path).value.Directory?
    ensures DirAt(fs, path + "/") == Some(Lstat(fs, path).value.dir)
  {
    assert (path + "/")[..|path|] == path;
    assert Start(fs, path + "/") == Start(fs, path);
  }
}
