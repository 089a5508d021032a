/**
 How a listing reports: as what each entry is shown, links followed or not, and exactly which
 errors are reported.  Both are said of the file system alone.
 */
module ListingReports {
  import opened Wrappers
  import opened FileSystems
  import opened ListingSpec
  import opened ListingFacts

  // ----- the ways down, links included -----

  /** The directory that something is, or leads to. */
  function LeadsTo(kind: Kind): Option<DirId> {
    match kind
    case Directory(sub) => Some(sub)
    case SymLink(_, ToDirectory(t)) => Some(t)
    case _ => None
  }

  /** A way down through directories and links to directories, by entry numbers. */
  ghost predicate Way(fs: FileSystem, d: DirId, trail: seq<nat>)
    decreases |trail|
  {
    && trail != [] && d < |fs.dirs| && trail[0] < |fs.dirs[d].entries|
    && !fs.dirs[d].entries[trail[0]].IsDot()
    && (|trail| > 1 ==>
          var next := LeadsTo(fs.dirs[d].entries[trail[0]].kind);
          next.Some? && Way(fs, next.value, trail[1..]))
  }

  /** The links that a way goes through, its last entry not counted. */
  ghost function Links(fs: FileSystem, d: DirId, trail: seq<nat>): seq<LinkId>
    requires Way(fs, d, trail)
    decreases |trail|
  {
    if |trail| == 1 then []
    else
      var kind := fs.dirs[d].entries[trail[0]].kind;
      (if kind.SymLink? then [kind.id] else []) + Links(fs, LeadsTo(kind).value, trail[1..])
  }

  /** Links are gone through only if they are to be followed, each of them once. */
  ghost predicate Followable(opts: Options, chain: seq<LinkId>, links: seq<LinkId>) {
    && (links != [] ==> opts.followLinks)
    && (forall i :: 0 <= i < |links| ==> links[i] !in chain)
    && (forall i, j :: 0 <= i < j < |links| ==> links[i] != links[j])
  }

  lemma FollowableStep(opts: Options, chain: seq<LinkId>, id: LinkId, links: seq<LinkId>)
    ensures Followable(opts, chain, [id] + links) <==>
            opts.followLinks && id !in chain && Followable(opts, [id] + chain, links)
  {
    var longer := [id] + links;
    assert longer[0] == id && forall i :: 0 <= i < |links| ==> longer[i + 1] == links[i];
    if Followable(opts, [id] + chain, links) {
      forall i | 0 <= i < |links| ensures links[i] !in chain && links[i] != id {
        assert links[i] !in [id] + chain;
      }
    }
  }

  /** A listing can go a way exactly if no link on it is gone through twice, or at all without being asked. */
  lemma {:induction false} TrailIff(fs: FileSystem, opts: Options, d: DirId, chain: seq<LinkId>, trail: seq<nat>)
    ensures Trail(fs, opts, d, chain, trail) <==> Way(fs, d, trail) && Followable(opts, chain, Links(fs, d, trail))
    decreases |trail|
  {
    if trail != [] && d < |fs.dirs| && trail[0] < |fs.dirs[d].entries| && |trail| > 1 {
      var kind := fs.dirs[d].entries[trail[0]].kind;
      if LeadsTo(kind).Some? {
        var next, rest := LeadsTo(kind).value, trail[1..];
        if kind.SymLink? {
          TrailIff(fs, opts, next, [kind.id] + chain, rest);
          if Way(fs, next, rest) {
            FollowableStep(opts, chain, kind.id, Links(fs, next, rest));
          }
        } else {
          TrailIff(fs, opts, next, chain, rest);
          if Way(fs, next, rest) {
            assert [] + Links(fs, next, rest) == Links(fs, next, rest);
          }
        }
      }
    }
  }

  // ----- as what an entry is shown -----

  /** The item for something of a kind: a link is shown as what it leads to, if links are to be followed
      and this one has not been on the way. */
  function ShownAs(opts: Options, links: seq<LinkId>, kind: Kind, path: string): Item {
    match kind
    case Regular => File(path)
    case Directory(_) => Dir(path)
    case Special => Done
    case SymLink(id, target) =>
      if !opts.followLinks || id in links then Link(path)
      else
        match target
        case ToFile => File(path)
        case ToDirectory(_) => Dir(path)
        case Broken => Link(path)
        case ToSpecial => Done
  }

  lemma {:induction false} ShownByKind(
    fs: FileSystem, opts: Options, d: DirId, i: nat, prefix: string, chain: seq<LinkId>, trail: seq<nat>)
    requires WellFormed(fs) && Trail(fs, opts, d, chain, trail) && i <= trail[0]
    requires Clear(fs, opts, d, i, prefix, chain, trail)
    requires |TrailPath(fs, opts, d, prefix, chain, trail)| < PATH_MAX
    requires !Shown(fs, opts, d, prefix, chain, trail).Error?
    ensures Way(fs, d, trail)
    ensures Shown(fs, opts, d, prefix, chain, trail) ==
            ShownAs(opts, chain + Links(fs, d, trail), Last(fs, opts, d, chain, trail).kind,
                    TrailPath(fs, opts, d, prefix, chain, trail))
    decreases |trail|
  {
    TrailIff(fs, opts, d, chain, trail);
    var e := fs.dirs[d].entries[trail[0]];
    assert Passes(fs, opts, d, trail[0], prefix, chain);
    if |trail| == 1 {
      JudgedByKind(fs, opts, e, prefix + e.name, chain);
      assert chain + [] == chain;
    } else {
      var v := Classify(e, chain, opts.followLinks);
      ClearIsInside(fs, opts, d, prefix, chain, trail);
      ShownByKind(fs, opts, v.dir, 0, prefix + e.name + "/", v.chain, trail[1..]);
      SameLinks(chain, if e.kind.SymLink? then [e.kind.id] else [], Links(fs, v.dir, trail[1..]));
    }
  }

  /** Which links have been on the way does not depend on where they are counted. */
  lemma SameLinks(chain: seq<LinkId>, crossed: seq<LinkId>, links: seq<LinkId>)
    ensures forall id :: id in (crossed + chain) + links <==> id in chain + (crossed + links)
  {
  }

  // ----- which errors are reported -----

  /** An entry with a path that fits cannot be looked at. */
  ghost predicate CannotLook(fs: FileSystem, opts: Options, e: Dirent, path: string) {
    && (!e.typeKnown || (e.kind.SymLink? && opts.followLinks))
    && (Truncated(path) in fs.lost || (|path| >= PATH_MAX && Lstat(fs, Truncated(path)).None?))
  }

  /** The i-th entry, or the end of its directory, is reported as an error, under this path. */
  ghost predicate FailsAt(fs: FileSystem, opts: Options, d: DirId, i: nat, prefix: string, chain: seq<LinkId>, shown: string)
    requires WellFormed(fs) && d < |fs.dirs| && i <= |fs.dirs[d].entries|
  {
    if i == |fs.dirs[d].entries| then fs.dirs[d].torn && shown == Truncated(prefix)
    else
      var e := fs.dirs[d].entries[i];
      var path := prefix + e.name;
      && shown == Truncated(path)
      && (|| |path| > PATH_MAX
          || CannotLook(fs, opts, e, path)
          || (opts.recursive && Judge(fs, opts, e, path, chain).Descend? && !Enters(fs, opts, d, i, prefix, chain)))
  }

  /** Along a trail of directories that are gone into, with nothing in the way, something fails. */
  ghost predicate Fails(
    fs: FileSystem, opts: Options, d: DirId, i: nat, prefix: string, chain: seq<LinkId>, trail: seq<nat>, shown: string)
    requires WellFormed(fs)
    decreases |trail|
  {
    && trail != [] && d < |fs.dirs| && i <= trail[0] <= |fs.dirs[d].entries|
    && (forall j :: i <= j < trail[0] ==> Passes(fs, opts, d, j, prefix, chain))
    && if |trail| == 1 then FailsAt(fs, opts, d, trail[0], prefix, chain, shown)
       else
         && trail[0] < |fs.dirs[d].entries| && Passes(fs, opts, d, trail[0], prefix, chain)
         && GoesInto(fs, opts, d, trail[0], prefix, chain)
         && var e := fs.dirs[d].entries[trail[0]];
            var v := Judge(fs, opts, e, prefix + e.name, chain);
            Fails(fs, opts, v.dir, 0, prefix + e.name + "/", v.chain, trail[1..], shown)
  }

  lemma FailureIsListed(fs: FileSystem, opts: Options, d: DirId, i: nat, prefix: string, chain: seq<LinkId>, shown: string)
    requires WellFormed(fs) && d < |fs.dirs| && i <= |fs.dirs[d].entries|
    requires FailsAt(fs, opts, d, i, prefix, chain, shown)
    ensures Error(shown) in ListFrom(fs, opts, d, i, prefix, chain)
  {
    if i < |fs.dirs[d].entries| && |prefix + fs.dirs[d].entries[i].name| <= PATH_MAX {
      ItemOrigin(fs, opts, d, i, prefix, chain, Error(shown));
    }
  }

  lemma {:induction false} FailuresAreListed(
    fs: FileSystem, opts: Options, d: DirId, i: nat, prefix: string, chain: seq<LinkId>, trail: seq<nat>, shown: string)
    requires WellFormed(fs) && Fails(fs, opts, d, i, prefix, chain, trail, shown)
    ensures Error(shown) in ListFrom(fs, opts, d, i, prefix, chain)
    decreases |trail|, trail[0] - i
  {
    if i < trail[0] {
      FailuresAreListed(fs, opts, d, i + 1, prefix, chain, trail, shown);
      ListedBehind(fs, opts, d, i, prefix, chain, Error(shown));
    } else if |trail| == 1 {
      FailureIsListed(fs, opts, d, i, prefix, chain, shown);
    } else {
      var e := fs.dirs[d].entries[i];
      var v := Judge(fs, opts, e, prefix + e.name, chain);
      GoneInto(fs, opts, d, i, prefix, chain);
      FailuresAreListed(fs, opts, v.dir, 0, prefix + e.name + "/", v.chain, trail[1..], shown);
      ListedInside(fs, opts, d, i, prefix, chain, Error(shown));
    }
  }

  /** Where the listing of a directory ends early, its error is the failure there. */
  lemma EarlyErrorFails(fs: FileSystem, opts: Options, d: DirId, i: nat, prefix: string, chain: seq<LinkId>, item: Item)
    requires WellFormed(fs) && d < |fs.dirs| && i <= |fs.dirs[d].entries|
    requires i < |fs.dirs[d].entries| ==> !Passes(fs, opts, d, i, prefix, chain)
    requires item in ListFrom(fs, opts, d, i, prefix, chain)
    ensures item.Error? && FailsAt(fs, opts, d, i, prefix, chain, item.path)
  {
  }

  /** An error that an entry brings about and that is not from inside it is the failure of the entry. */
  lemma HereErrorFails(fs: FileSystem, opts: Options, d: DirId, i: nat, prefix: string, chain: seq<LinkId>, item: Item)
    requires WellFormed(fs) && d < |fs.dirs| && i < |fs.dirs[d].entries| && Passes(fs, opts, d, i, prefix, chain)
    requires item.Error? && ComesFrom(fs, opts, d, i, prefix, chain, item) && !GoesInto(fs, opts, d, i, prefix, chain)
    ensures FailsAt(fs, opts, d, i, prefix, chain, item.path)
  {
  }

  lemma FailsBehind(
    fs: FileSystem, opts: Options, d: DirId, i: nat, prefix: string, chain: seq<LinkId>, trail: seq<nat>, shown: string)
    requires WellFormed(fs) && d < |fs.dirs| && i < |fs.dirs[d].entries| && Passes(fs, opts, d, i, prefix, chain)
    requires Fails(fs, opts, d, i + 1, prefix, chain, trail, shown)
    ensures Fails(fs, opts, d, i, prefix, chain, trail, shown)
  {
  }

  lemma FailsInside(
    fs: FileSystem, opts: Options, d: DirId, i: nat, prefix: string, chain: seq<LinkId>, inner: seq<nat>, shown: string)
    requires WellFormed(fs) && d < |fs.dirs| && i < |fs.dirs[d].entries| && Passes(fs, opts, d, i, prefix, chain)
    requires GoesInto(fs, opts, d, i, prefix, chain)
    requires var e := fs.dirs[d].entries[i];
             var v := Judge(fs, opts, e, prefix + e.name, chain);
             Fails(fs, opts, v.dir, 0, prefix + e.name + "/", v.chain, inner, shown)
    ensures Fails(fs, opts, d, i, prefix, chain, [i] + inner, shown)
  {
    assert ([i] + inner)[1..] == inner;
  }

  lemma {:induction false} ListedErrorsFail(
    fs: FileSystem, opts: Options, d: DirId, i: nat, prefix: string, chain: seq<LinkId>, item: Item)
    returns (trail: seq<nat>)
    requires WellFormed(fs) && d < |fs.dirs| && i <= |fs.dirs[d].entries|
    requires item in ListFrom(fs, opts, d, i, prefix, chain) && item.Error?
    ensures Fails(fs, opts, d, i, prefix, chain, trail, item.path)
    decreases Unused(fs, chain), |fs.dirs| - d, |fs.dirs[d].entries| - i
  {
    trail := [i];
    if i == |fs.dirs[d].entries| || !Passes(fs, opts, d, i, prefix, chain) {
      EarlyErrorFails(fs, opts, d, i, prefix, chain, item);
    } else {
      ItemOrigin(fs, opts, d, i, prefix, chain, item);
      if item in ListFrom(fs, opts, d, i + 1, prefix, chain) {
        trail := ListedErrorsFail(fs, opts, d, i + 1, prefix, chain, item);
        FailsBehind(fs, opts, d, i, prefix, chain, trail, item.path);
      } else if GoesInto(fs, opts, d, i, prefix, chain) {
        var e := fs.dirs[d].entries[i];
        var v := Judge(fs, opts, e, prefix + e.name, chain);
        GoneInto(fs, opts, d, i, prefix, chain);
        var inner := ListedErrorsFail(fs, opts, v.dir, 0, prefix + e.name + "/", v.chain, item);
        FailsInside(fs, opts, d, i, prefix, chain, inner, item.path);
        trail := [i] + inner;
      } else {
        HereErrorFails(fs, opts, d, i, prefix, chain, item);
      }
    }
  }

  /** An error is reported under a path if and only if something fails there: a path that does not fit, an
      entry that cannot be looked at, a directory that cannot be gone into or not be read to its end. */
  lemma ErrorIff(fs: FileSystem, opts: Options, d: DirId, prefix: string, chain: seq<LinkId>, shown: string)
    requires WellFormed(fs) && d < |fs.dirs|
    ensures Error(shown) in ListFrom(fs, opts, d, 0, prefix, chain) <==>
            exists trail :: Fails(fs, opts, d, 0, prefix, chain, trail, shown)
  {
    if Error(shown) in ListFrom(fs, opts, d, 0, prefix, chain) {
      var trail := ListedErrorsFail(fs, opts, d, 0, prefix, chain, Error(shown));
      assert Fails(fs, opts, d, 0, prefix, chain, trail, shown);
    }
    if trail :| Fails(fs, opts, d, 0, prefix, chain, trail, shown) {
      FailuresAreListed(fs, opts, d, 0, prefix, chain, trail, shown);
    }
  }
}
