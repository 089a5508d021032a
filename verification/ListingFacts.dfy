/**
 What the reference listing says about the file system: which items it holds, when every item is
 true, and when every entry is reported.
 */
module ListingFacts {
  import opened Wrappers
  import opened FileSystems
  import opened ListingSpec

  // ----- which entries are reported -----

  /** A way down from a directory, by entry numbers; followed links count as directories. */
  ghost predicate Trail(fs: FileSystem, opts: Options, d: DirId, chain: seq<LinkId>, trail: seq<nat>)
    decreases |trail|
  {
    && trail != [] && d < |fs.dirs| && trail[0] < |fs.dirs[d].entries|
    && var e := fs.dirs[d].entries[trail[0]];
       && !e.IsDot()
       && (|trail| > 1 ==>
             var v := Classify(e, chain, opts.followLinks);
             v.Descend? && Trail(fs, opts, v.dir, v.chain, trail[1..]))
  }

  /** The names along a trail, joined. */
  ghost function TrailPath(
    fs: FileSystem, opts: Options, d: DirId, prefix: string, chain: seq<LinkId>, trail: seq<nat>): string
    requires Trail(fs, opts, d, chain, trail)
    decreases |trail|
  {
    var e := fs.dirs[d].entries[trail[0]];
    if |trail| == 1 then prefix + e.name
    else
      var v := Classify(e, chain, opts.followLinks);
      TrailPath(fs, opts, v.dir, prefix + e.name + "/", v.chain, trail[1..])
  }

  /** The entry at the end of a trail. */
  ghost function Last(fs: FileSystem, opts: Options, d: DirId, chain: seq<LinkId>, trail: seq<nat>): Dirent
    requires Trail(fs, opts, d, chain, trail)
    decreases |trail|
  {
    var e := fs.dirs[d].entries[trail[0]];
    if |trail| == 1 then e
    else
      var v := Classify(e, chain, opts.followLinks);
      Last(fs, opts, v.dir, v.chain, trail[1..])
  }

  function ItemOf(v: Verdict, path: string): Item {
    match v
    case ReportFile => File(path)
    case ReportLink => Link(path)
    case ReportError => Error(path)
    case Descend(_, _) => Dir(path)
    case _ => Done
  }

  /** The item for the entry at the end of a trail: under its joined path, as far as that fits. */
  ghost function Shown(
    fs: FileSystem, opts: Options, d: DirId, prefix: string, chain: seq<LinkId>, trail: seq<nat>): Item
    requires Trail(fs, opts, d, chain, trail)
    decreases |trail|
  {
    var e := fs.dirs[d].entries[trail[0]];
    var path := prefix + e.name;
    if |trail| == 1 then ItemOf(Judge(fs, opts, e, path, chain), Truncated(path))
    else
      var v := Classify(e, chain, opts.followLinks);
      Shown(fs, opts, v.dir, path + "/", v.chain, trail[1..])
  }

  /** Reading the i-th entry does not end the listing of its directory. */
  ghost predicate Passes(fs: FileSystem, opts: Options, d: DirId, i: nat, prefix: string, chain: seq<LinkId>)
    requires d < |fs.dirs| && i < |fs.dirs[d].entries|
  {
    var path := prefix + fs.dirs[d].entries[i].name;
    |path| <= PATH_MAX && !Judge(fs, opts, fs.dirs[d].entries[i], path, chain).Stop?
  }

  /** The listing goes into the directory that the i-th entry is, or leads to. */
  ghost predicate GoesInto(fs: FileSystem, opts: Options, d: DirId, i: nat, prefix: string, chain: seq<LinkId>)
    requires WellFormed(fs) && d < |fs.dirs| && i < |fs.dirs[d].entries|
  {
    && opts.recursive
    && Judge(fs, opts, fs.dirs[d].entries[i], prefix + fs.dirs[d].entries[i].name, chain).Descend?
    && Enters(fs, opts, d, i, prefix, chain)
  }

  lemma GoneInto(fs: FileSystem, opts: Options, d: DirId, i: nat, prefix: string, chain: seq<LinkId>)
    requires WellFormed(fs) && d < |fs.dirs| && i < |fs.dirs[d].entries|
    requires GoesInto(fs, opts, d, i, prefix, chain)
    ensures var e := fs.dirs[d].entries[i];
            var v := Classify(e, chain, opts.followLinks);
            && Judge(fs, opts, e, prefix + e.name, chain) == v && v.Descend? && v.dir < |fs.dirs|
            && (Unused(fs, v.chain) < Unused(fs, chain) || (v.chain == chain && d < v.dir))
            && ListInside(fs, opts, d, i, prefix, chain) == ListFrom(fs, opts, v.dir, 0, prefix + e.name + "/", v.chain)
  {
    var e := fs.dirs[d].entries[i];
    JudgedByKind(fs, opts, e, prefix + e.name, chain);
    DescendDecreases(fs, d, i, chain, opts.followLinks);
  }

  /** On no level does an entry up to the trail's end the listing, and every directory on it is entered. */
  ghost predicate Clear(
    fs: FileSystem, opts: Options, d: DirId, i: nat, prefix: string, chain: seq<LinkId>, trail: seq<nat>)
    requires WellFormed(fs) && Trail(fs, opts, d, chain, trail)
    decreases |trail|
  {
    var e := fs.dirs[d].entries[trail[0]];
    && (forall j :: i <= j <= trail[0] ==> Passes(fs, opts, d, j, prefix, chain))
    && (|trail| > 1 ==>
          var v := Classify(e, chain, opts.followLinks);
          && GoesInto(fs, opts, d, trail[0], prefix, chain)
          && Clear(fs, opts, v.dir, 0, prefix + e.name + "/", v.chain, trail[1..]))
  }

  /** What one entry adds to a listing, its own item first, and the rest. */
  lemma ListStep(fs: FileSystem, opts: Options, d: DirId, i: nat, prefix: string, chain: seq<LinkId>)
    requires WellFormed(fs) && d < |fs.dirs| && i < |fs.dirs[d].entries|
    requires Passes(fs, opts, d, i, prefix, chain)
    ensures var path := prefix + fs.dirs[d].entries[i].name;
            var v := Judge(fs, opts, fs.dirs[d].entries[i], path, chain);
            ListFrom(fs, opts, d, i, prefix, chain) ==
            (if v.Skip? then [] else [ItemOf(v, Truncated(path))])
            + ((if v.Descend? then ListInside(fs, opts, d, i, prefix, chain) else [])
               + ListFrom(fs, opts, d, i + 1, prefix, chain))
  {
    var rest := ListFrom(fs, opts, d, i + 1, prefix, chain);
    assert [] + rest == rest;
  }

  /** What is not listed behind an entry is listed for it. */
  ghost predicate ComesFrom(
    fs: FileSystem, opts: Options, d: DirId, i: nat, prefix: string, chain: seq<LinkId>, item: Item)
    requires WellFormed(fs) && d < |fs.dirs| && i < |fs.dirs[d].entries|
  {
    var path := prefix + fs.dirs[d].entries[i].name;
    var v := Judge(fs, opts, fs.dirs[d].entries[i], path, chain);
    || (item == ItemOf(v, Truncated(path)) && !v.Skip?)
    || (v.Descend? && item in ListInside(fs, opts, d, i, prefix, chain))
  }

  lemma ItemOrigin(fs: FileSystem, opts: Options, d: DirId, i: nat, prefix: string, chain: seq<LinkId>, item: Item)
    requires WellFormed(fs) && d < |fs.dirs| && i < |fs.dirs[d].entries|
    requires Passes(fs, opts, d, i, prefix, chain)
    ensures item in ListFrom(fs, opts, d, i, prefix, chain) <==>
            || ComesFrom(fs, opts, d, i, prefix, chain, item)
            || item in ListFrom(fs, opts, d, i + 1, prefix, chain)
  {
    ListStep(fs, opts, d, i, prefix, chain);
  }

  /** Where the listing of a directory ends early, there is at most an error. */
  lemma EndsEarly(fs: FileSystem, opts: Options, d: DirId, i: nat, prefix: string, chain: seq<LinkId>)
    requires WellFormed(fs) && d < |fs.dirs| && i <= |fs.dirs[d].entries|
    requires i < |fs.dirs[d].entries| ==> !Passes(fs, opts, d, i, prefix, chain)
    ensures var items := ListFrom(fs, opts, d, i, prefix, chain);
            items == [] || (|items| == 1 && items[0].Error?)
  {
  }

  /** Every entry at every depth that nothing hides has its item in the listing. */
  lemma {:induction false} ClearEntriesAreListed(
    fs: FileSystem, opts: Options, d: DirId, i: nat, prefix: string, chain: seq<LinkId>, trail: seq<nat>)
    requires WellFormed(fs) && Trail(fs, opts, d, chain, trail) && i <= trail[0]
    requires Clear(fs, opts, d, i, prefix, chain, trail)
    ensures Shown(fs, opts, d, prefix, chain, trail) in ListFrom(fs, opts, d, i, prefix, chain)
    decreases |trail|, trail[0] - i
  {
    assert Passes(fs, opts, d, i, prefix, chain);
    if i < trail[0] {
      ClearBehind(fs, opts, d, i, prefix, chain, trail);
      ClearEntriesAreListed(fs, opts, d, i + 1, prefix, chain, trail);
      ListedBehind(fs, opts, d, i, prefix, chain, Shown(fs, opts, d, prefix, chain, trail));
    } else if |trail| > 1 {
      ClearIsInside(fs, opts, d, prefix, chain, trail);
      var e := fs.dirs[d].entries[i];
      var v := Classify(e, chain, opts.followLinks);
      ClearEntriesAreListed(fs, opts, v.dir, 0, prefix + e.name + "/", v.chain, trail[1..]);
      ListedInside(fs, opts, d, i, prefix, chain, Shown(fs, opts, v.dir, prefix + e.name + "/", v.chain, trail[1..]));
    } else {
      assert trail == [i];
      ClearHere(fs, opts, d, i, prefix, chain);
    }
  }

  lemma ListedBehind(
    fs: FileSystem, opts: Options, d: DirId, i: nat, prefix: string, chain: seq<LinkId>, item: Item)
    requires WellFormed(fs) && d < |fs.dirs| && i < |fs.dirs[d].entries| && Passes(fs, opts, d, i, prefix, chain)
    requires item in ListFrom(fs, opts, d, i + 1, prefix, chain)
    ensures item in ListFrom(fs, opts, d, i, prefix, chain)
  {
    ItemOrigin(fs, opts, d, i, prefix, chain, item);
  }

  lemma ListedInside(
    fs: FileSystem, opts: Options, d: DirId, i: nat, prefix: string, chain: seq<LinkId>, item: Item)
    requires WellFormed(fs) && d < |fs.dirs| && i < |fs.dirs[d].entries| && Passes(fs, opts, d, i, prefix, chain)
    requires Judge(fs, opts, fs.dirs[d].entries[i], prefix + fs.dirs[d].entries[i].name, chain).Descend?
    requires item in ListInside(fs, opts, d, i, prefix, chain)
    ensures item in ListFrom(fs, opts, d, i, prefix, chain)
  {
    ItemOrigin(fs, opts, d, i, prefix, chain, item);
  }

  /** The way on from the first entry of a clear trail. */
  lemma ClearIsInside(
    fs: FileSystem, opts: Options, d: DirId, prefix: string, chain: seq<LinkId>, trail: seq<nat>)
    requires WellFormed(fs) && Trail(fs, opts, d, chain, trail) && |trail| > 1
    requires Clear(fs, opts, d, trail[0], prefix, chain, trail)
    ensures var e := fs.dirs[d].entries[trail[0]];
            var v := Classify(e, chain, opts.followLinks);
            && v.Descend? && v.dir < |fs.dirs| && Trail(fs, opts, v.dir, v.chain, trail[1..])
            && Clear(fs, opts, v.dir, 0, prefix + e.name + "/", v.chain, trail[1..])
            && Shown(fs, opts, d, prefix, chain, trail) ==
               Shown(fs, opts, v.dir, prefix + e.name + "/", v.chain, trail[1..])
            && Judge(fs, opts, e, prefix + e.name, chain).Descend?
            && ListInside(fs, opts, d, trail[0], prefix, chain) ==
               ListFrom(fs, opts, v.dir, 0, prefix + e.name + "/", v.chain)
  {
    GoneInto(fs, opts, d, trail[0], prefix, chain);
  }

  lemma TrailInto(
    fs: FileSystem, opts: Options, d: DirId, i: nat, prefix: string, chain: seq<LinkId>, inner: seq<nat>)
    requires WellFormed(fs) && d < |fs.dirs| && i < |fs.dirs[d].entries| && !fs.dirs[d].entries[i].IsDot()
    requires var v := Classify(fs.dirs[d].entries[i], chain, opts.followLinks);
             v.Descend? && Trail(fs, opts, v.dir, v.chain, inner)
    ensures var e := fs.dirs[d].entries[i];
            var v := Classify(e, chain, opts.followLinks);
            var trail := [i] + inner;
            && Trail(fs, opts, d, chain, trail)
            && TrailPath(fs, opts, d, prefix, chain, trail) ==
               TrailPath(fs, opts, v.dir, prefix + e.name + "/", v.chain, inner)
            && Shown(fs, opts, d, prefix, chain, trail) ==
               Shown(fs, opts, v.dir, prefix + e.name + "/", v.chain, inner)
            && Last(fs, opts, d, chain, trail) == Last(fs, opts, v.dir, v.chain, inner)
  {
    assert ([i] + inner)[1..] == inner;
  }

  lemma ClearHere(fs: FileSystem, opts: Options, d: DirId, i: nat, prefix: string, chain: seq<LinkId>)
    requires WellFormed(fs) && d < |fs.dirs| && i < |fs.dirs[d].entries| && !fs.dirs[d].entries[i].IsDot()
    requires Passes(fs, opts, d, i, prefix, chain)
    ensures var path := prefix + fs.dirs[d].entries[i].name;
            && Trail(fs, opts, d, chain, [i])
            && Clear(fs, opts, d, i, prefix, chain, [i])
            && Shown(fs, opts, d, prefix, chain, [i]) ==
               ItemOf(Judge(fs, opts, fs.dirs[d].entries[i], path, chain), Truncated(path))
            && Shown(fs, opts, d, prefix, chain, [i]) in ListFrom(fs, opts, d, i, prefix, chain)
  {
    ItemOrigin(fs, opts, d, i, prefix, chain, Shown(fs, opts, d, prefix, chain, [i]));
  }

  lemma ClearBehind(
    fs: FileSystem, opts: Options, d: DirId, i: nat, prefix: string, chain: seq<LinkId>, trail: seq<nat>)
    requires WellFormed(fs) && Trail(fs, opts, d, chain, trail) && i < trail[0]
    ensures Clear(fs, opts, d, i, prefix, chain, trail) <==>
            Passes(fs, opts, d, i, prefix, chain) && Clear(fs, opts, d, i + 1, prefix, chain, trail)
  {
  }

  lemma ClearInto(
    fs: FileSystem, opts: Options, d: DirId, i: nat, prefix: string, chain: seq<LinkId>, inner: seq<nat>)
    requires WellFormed(fs) && d < |fs.dirs| && i < |fs.dirs[d].entries| && !fs.dirs[d].entries[i].IsDot()
    requires Passes(fs, opts, d, i, prefix, chain) && GoesInto(fs, opts, d, i, prefix, chain)
    requires var v := Classify(fs.dirs[d].entries[i], chain, opts.followLinks);
             && v.Descend? && Trail(fs, opts, v.dir, v.chain, inner)
             && Clear(fs, opts, v.dir, 0, prefix + fs.dirs[d].entries[i].name + "/", v.chain, inner)
    ensures Trail(fs, opts, d, chain, [i] + inner) && Clear(fs, opts, d, i, prefix, chain, [i] + inner)
  {
    assert ([i] + inner)[1..] == inner;
  }

  /** A directory's path, as far as a listing is concerned. */
  ghost predicate Rooted(fs: FileSystem, d: DirId, prefix: string) {
    WellFormed(fs) && d < |fs.dirs| && EndsWithSeparator(prefix) && DirAt(fs, prefix) == Some(d)
  }

  /** A dot is never reported; at most it cannot be looked at. */
  lemma DotsAreSkipped(fs: FileSystem, opts: Options, d: DirId, i: nat, prefix: string, chain: seq<LinkId>)
    requires Rooted(fs, d, prefix) && i < |fs.dirs[d].entries| && fs.dirs[d].entries[i].IsDot()
    requires |prefix + fs.dirs[d].entries[i].name| <= PATH_MAX
    ensures var e := fs.dirs[d].entries[i];
            var v := Judge(fs, opts, e, prefix + e.name, chain);
            v.Skip? || v.ReportError?
  {
    var e := fs.dirs[d].entries[i];
    EntryWellFormed(fs, d, i);
    if |prefix + e.name| == PATH_MAX {
      assert Truncated(prefix + e.name) == prefix + e.name[..|e.name| - 1];
      CutDot(fs, prefix, d, e);
    }
  }

  lemma RootedInside(fs: FileSystem, opts: Options, d: DirId, i: nat, prefix: string, chain: seq<LinkId>)
    requires Rooted(fs, d, prefix) && i < |fs.dirs[d].entries| && GoesInto(fs, opts, d, i, prefix, chain)
    ensures var e := fs.dirs[d].entries[i];
            Rooted(fs, Classify(e, chain, opts.followLinks).dir, prefix + e.name + "/") && !e.IsDot()
  {
    GoneInto(fs, opts, d, i, prefix, chain);
    JoinNamesEntry(fs, prefix, d, i);
    EntryWellFormed(fs, d, i);
  }

  /** Nothing but errors is reported that is not the item of an entry which nothing hides. */
  lemma {:induction false} ListedEntriesAreClear(
    fs: FileSystem, opts: Options, d: DirId, i: nat, prefix: string, chain: seq<LinkId>, item: Item)
    returns (trail: seq<nat>)
    requires Rooted(fs, d, prefix) && i <= |fs.dirs[d].entries|
    requires item in ListFrom(fs, opts, d, i, prefix, chain) && !item.Error?
    ensures Trail(fs, opts, d, chain, trail) && i <= trail[0]
    ensures Clear(fs, opts, d, i, prefix, chain, trail) && Shown(fs, opts, d, prefix, chain, trail) == item
    decreases Unused(fs, chain), |fs.dirs| - d, |fs.dirs[d].entries| - i
  {
    if i == |fs.dirs[d].entries| || !Passes(fs, opts, d, i, prefix, chain) {
      EndsEarly(fs, opts, d, i, prefix, chain);
    }
    var e := fs.dirs[d].entries[i];
    var path := prefix + e.name;
    var v := Judge(fs, opts, e, path, chain);
    ItemOrigin(fs, opts, d, i, prefix, chain, item);
    if item in ListFrom(fs, opts, d, i + 1, prefix, chain) {
      trail := ListedEntriesAreClear(fs, opts, d, i + 1, prefix, chain, item);
      ClearBehind(fs, opts, d, i, prefix, chain, trail);
    } else {
      if e.IsDot() {
        DotsAreSkipped(fs, opts, d, i, prefix, chain);
      }
      if item == ItemOf(v, Truncated(path)) {
        trail := [i];
        ClearHere(fs, opts, d, i, prefix, chain);
      } else {
        GoneInto(fs, opts, d, i, prefix, chain);
        RootedInside(fs, opts, d, i, prefix, chain);
        var inner := ListedEntriesAreClear(fs, opts, v.dir, 0, path + "/", v.chain, item);
        TrailInto(fs, opts, d, i, prefix, chain, inner);
        ClearInto(fs, opts, d, i, prefix, chain, inner);
        trail := [i] + inner;
      }
    }
  }

  ghost predicate ClearlyShown(
    fs: FileSystem, opts: Options, d: DirId, prefix: string, chain: seq<LinkId>, trail: seq<nat>, item: Item)
    requires WellFormed(fs)
  {
    && Trail(fs, opts, d, chain, trail)
    && Clear(fs, opts, d, 0, prefix, chain, trail)
    && Shown(fs, opts, d, prefix, chain, trail) == item
  }

  /** The items of a listing, errors apart, are those of the entries that nothing hides: for all
      options, at every depth, behind followed links too. */
  lemma ListedIff(fs: FileSystem, opts: Options, d: DirId, prefix: string, chain: seq<LinkId>, item: Item)
    requires Rooted(fs, d, prefix) && !item.Error?
    ensures item in ListFrom(fs, opts, d, 0, prefix, chain) <==>
            exists trail :: ClearlyShown(fs, opts, d, prefix, chain, trail, item)
  {
    if item in ListFrom(fs, opts, d, 0, prefix, chain) {
      var trail := ListedEntriesAreClear(fs, opts, d, 0, prefix, chain, item);
      assert ClearlyShown(fs, opts, d, prefix, chain, trail, item);
    }
    if trail :| ClearlyShown(fs, opts, d, prefix, chain, trail, item) {
      ClearEntriesAreListed(fs, opts, d, 0, prefix, chain, trail);
    }
  }

  // ----- an entry and its own path -----

  /** `path` is the given prefix, a name, and nothing or something behind a separator. */
  ghost predicate Through(prefix: string, name: string, path: string) {
    && prefix + name <= path
    && (|path| > |prefix + name| ==> path[|prefix + name|] == '/')
  }

  lemma SlashBehind(prefix: string, a: string, b: string, path: string)
    requires |a| < |b| && Through(prefix, a, path) && Through(prefix, b, path)
    ensures '/' in b
  {
    assert path[|prefix + a|] == (prefix + b)[|prefix + a|] == b[|a|];
  }

  /** A path goes through one name only. */
  lemma ThroughOneName(prefix: string, a: string, b: string, path: string)
    requires NameOk(a) && NameOk(b) && Through(prefix, a, path) && Through(prefix, b, path)
    ensures a == b
  {
    if |a| < |b| {
      SlashBehind(prefix, a, b, path);
    } else if |b| < |a| {
      SlashBehind(prefix, b, a, path);
    } else {
      assert a == (prefix + a)[|prefix|..] && b == (prefix + b)[|prefix|..];
    }
  }

  lemma ThroughLonger(prefix: string, name: string, path: string)
    requires prefix + name + "/" <= path
    ensures Through(prefix, name, path)
  {
    assert (prefix + name + "/")[|prefix + name|] == '/';
  }

  lemma {:induction false} TrailIsThrough(
    fs: FileSystem, opts: Options, d: DirId, prefix: string, chain: seq<LinkId>, trail: seq<nat>)
    requires Trail(fs, opts, d, chain, trail)
    ensures var e := fs.dirs[d].entries[trail[0]];
            && Through(prefix, e.name, TrailPath(fs, opts, d, prefix, chain, trail))
            && (|trail| == 1 <==> TrailPath(fs, opts, d, prefix, chain, trail) == prefix + e.name)
    decreases |trail|
  {
    var e := fs.dirs[d].entries[trail[0]];
    if |trail| == 1 {
    } else {
      var v := Classify(e, chain, opts.followLinks);
      TrailIsThrough(fs, opts, v.dir, prefix + e.name + "/", v.chain, trail[1..]);
      ThroughLonger(prefix, e.name, TrailPath(fs, opts, d, prefix, chain, trail));
    }
  }

  /** Only one entry of a directory lies on the path of a trail. */
  lemma SameEntry(
    fs: FileSystem, opts: Options, d: DirId, prefix: string, chain: seq<LinkId>, trail: seq<nat>, j: nat)
    requires WellFormed(fs) && Trail(fs, opts, d, chain, trail) && j < |fs.dirs[d].entries|
    requires Through(prefix, fs.dirs[d].entries[j].name, TrailPath(fs, opts, d, prefix, chain, trail))
    ensures j == trail[0]
  {
    TrailIsThrough(fs, opts, d, prefix, chain, trail);
    EntryWellFormed(fs, d, j);
    EntryWellFormed(fs, d, trail[0]);
    ThroughOneName(prefix, fs.dirs[d].entries[j].name, fs.dirs[d].entries[trail[0]].name,
                   TrailPath(fs, opts, d, prefix, chain, trail));
    assert DirectoryOk(fs, d);
  }

  /** A path is that of one entry only. */
  lemma {:induction false} SameTrail(
    fs: FileSystem, opts: Options, d: DirId, prefix: string, chain: seq<LinkId>, a: seq<nat>, b: seq<nat>)
    requires WellFormed(fs) && Trail(fs, opts, d, chain, a) && Trail(fs, opts, d, chain, b)
    requires TrailPath(fs, opts, d, prefix, chain, a) == TrailPath(fs, opts, d, prefix, chain, b)
    ensures a == b
    decreases |a|
  {
    TrailIsThrough(fs, opts, d, prefix, chain, a);
    TrailIsThrough(fs, opts, d, prefix, chain, b);
    SameEntry(fs, opts, d, prefix, chain, b, a[0]);
    if |a| == 1 {
    } else {
      var e := fs.dirs[d].entries[a[0]];
      var v := Classify(e, chain, opts.followLinks);
      SameTrail(fs, opts, v.dir, prefix + e.name + "/", v.chain, a[1..], b[1..]);
    }
    assert a == [a[0]] + a[1..] && b == [b[0]] + b[1..];
  }

  /** A clear entry's path fits, and its item shows as much of it as can be read back. */
  lemma {:induction false} ClearPathFits(
    fs: FileSystem, opts: Options, d: DirId, i: nat, prefix: string, chain: seq<LinkId>, trail: seq<nat>)
    requires WellFormed(fs) && Trail(fs, opts, d, chain, trail) && i <= trail[0]
    requires Clear(fs, opts, d, i, prefix, chain, trail)
    ensures var path := TrailPath(fs, opts, d, prefix, chain, trail);
            var item := Shown(fs, opts, d, prefix, chain, trail);
            |path| <= PATH_MAX && !item.Done? && item.path == Truncated(path)
    decreases |trail|
  {
    var e := fs.dirs[d].entries[trail[0]];
    assert Passes(fs, opts, d, trail[0], prefix, chain);
    if |trail| == 1 {
    } else {
      var v := Classify(e, chain, opts.followLinks);
      ClearPathFits(fs, opts, v.dir, 0, prefix + e.name + "/", v.chain, trail[1..]);
    }
  }

  ghost predicate Reports(items: seq<Item>, path: string) {
    exists k :: 0 <= k < |items| && !items[k].Done? && !items[k].Error? && items[k].path == path
  }

  /** Nothing hides the entry, it can be looked at, and its path does not fill the buffer. */
  ghost predicate Unhidden(
    fs: FileSystem, opts: Options, d: DirId, prefix: string, chain: seq<LinkId>, trail: seq<nat>)
    requires WellFormed(fs) && Trail(fs, opts, d, chain, trail)
  {
    && Clear(fs, opts, d, 0, prefix, chain, trail)
    && !Shown(fs, opts, d, prefix, chain, trail).Error?
    && |TrailPath(fs, opts, d, prefix, chain, trail)| < PATH_MAX
  }

  /** `path` is what is left of the path of an entry that fills the buffer. */
  ghost predicate CutTo(
    fs: FileSystem, opts: Options, d: DirId, prefix: string, chain: seq<LinkId>, trail: seq<nat>, path: string)
    requires WellFormed(fs)
  {
    && Trail(fs, opts, d, chain, trail)
    && Clear(fs, opts, d, 0, prefix, chain, trail)
    && !Shown(fs, opts, d, prefix, chain, trail).Error?
    && |TrailPath(fs, opts, d, prefix, chain, trail)| == PATH_MAX
    && Truncated(TrailPath(fs, opts, d, prefix, chain, trail)) == path
  }

  /** An entry's path is reported if and only if nothing hides the entry, or the path of another one
      is cut down to it. */
  lemma ReportedIff(
    fs: FileSystem, opts: Options, d: DirId, prefix: string, chain: seq<LinkId>, trail: seq<nat>)
    requires Rooted(fs, d, prefix) && Trail(fs, opts, d, chain, trail)
    ensures var path := TrailPath(fs, opts, d, prefix, chain, trail);
            Reports(ListFrom(fs, opts, d, 0, prefix, chain), path) <==>
            || Unhidden(fs, opts, d, prefix, chain, trail)
            || exists other :: CutTo(fs, opts, d, prefix, chain, other, path)
  {
    var items, path := ListFrom(fs, opts, d, 0, prefix, chain), TrailPath(fs, opts, d, prefix, chain, trail);
    if Reports(items, path) {
      var k :| 0 <= k < |items| && !items[k].Done? && !items[k].Error? && items[k].path == path;
      var found := ListedEntriesAreClear(fs, opts, d, 0, prefix, chain, items[k]);
      ClearPathFits(fs, opts, d, 0, prefix, chain, found);
      if |TrailPath(fs, opts, d, prefix, chain, found)| < PATH_MAX {
        SameTrail(fs, opts, d, prefix, chain, found, trail);
      } else {
        assert CutTo(fs, opts, d, prefix, chain, found, path);
      }
    }
    if Unhidden(fs, opts, d, prefix, chain, trail) {
      ReportedAs(fs, opts, d, prefix, chain, trail);
    } else if other :| CutTo(fs, opts, d, prefix, chain, other, path) {
      ReportedAs(fs, opts, d, prefix, chain, other);
    }
  }

  lemma ReportedAs(fs: FileSystem, opts: Options, d: DirId, prefix: string, chain: seq<LinkId>, trail: seq<nat>)
    requires WellFormed(fs) && Trail(fs, opts, d, chain, trail) && Clear(fs, opts, d, 0, prefix, chain, trail)
    requires !Shown(fs, opts, d, prefix, chain, trail).Error?
    ensures Reports(ListFrom(fs, opts, d, 0, prefix, chain), Truncated(TrailPath(fs, opts, d, prefix, chain, trail)))
  {
    var items := ListFrom(fs, opts, d, 0, prefix, chain);
    ClearEntriesAreListed(fs, opts, d, 0, prefix, chain, trail);
    ClearPathFits(fs, opts, d, 0, prefix, chain, trail);
    var k :| 0 <= k < |items| && items[k] == Shown(fs, opts, d, prefix, chain, trail);
  }

  // ----- when every item is true -----

  /** What it means for an item to be true of the file system. */
  ghost predicate TrueOf(fs: FileSystem, item: Item) {
    match item
    case File(path) => Stat(fs, path) == Some(Regular)
    case Dir(path) => DirAt(fs, path).Some?
    case Link(path) => Lstat(fs, path).Some? && Lstat(fs, path).value.SymLink?
    case Error(path) => |path| == PATH_MAX - 1 || path in fs.lost || Unreadable(fs, path)
    case Done => false
  }

  /** The path is that of a directory that cannot be read, or not to its end. */
  ghost predicate Unreadable(fs: FileSystem, path: string) {
    && DirAt(fs, path).Some? && DirAt(fs, path).value < |fs.dirs|
    && (!fs.dirs[DirAt(fs, path).value].readable || fs.dirs[DirAt(fs, path).value].torn)
  }

  /** The item is true of a path that names something of this kind. */
  ghost predicate TrueOfKind(kind: Kind, item: Item) {
    match item
    case File(_) => kind.Regular? || (kind.SymLink? && kind.target.ToFile?)
    case Dir(_) => kind.Directory? || (kind.SymLink? && kind.target.ToDirectory?)
    case Link(_) => kind.SymLink?
    case _ => false
  }

  lemma KindIsTrue(fs: FileSystem, item: Item, kind: Kind)
    requires !item.Done? && Lstat(fs, item.path) == Some(kind) && TrueOfKind(kind, item)
    ensures TrueOf(fs, item)
  {
    LstatOpens(fs, item.path);
  }

  /** An item by what a path names is true of that path. */
  lemma LookedAtIsTrue(fs: FileSystem, opts: Options, e: Dirent, path: string, kind: Kind, chain: seq<LinkId>)
    requires Lstat(fs, path) == Some(kind)
    ensures var v := Classify(e.(kind := kind), chain, opts.followLinks);
            v.Skip? || v.Stop? || TrueOf(fs, ItemOf(v, path))
  {
    var v := Classify(e.(kind := kind), chain, opts.followLinks);
    if !v.Skip? && !v.Stop? {
      assert TrueOfKind(kind, ItemOf(v, path));
      KindIsTrue(fs, ItemOf(v, path), kind);
    }
  }

  /** The item of an entry is true if the path is whole, or was looked at. */
  lemma EntryItemIsTrue(fs: FileSystem, opts: Options, d: DirId, i: nat, prefix: string, chain: seq<LinkId>)
    requires Rooted(fs, d, prefix) && i < |fs.dirs[d].entries|
    requires var e := fs.dirs[d].entries[i];
             |prefix + e.name| < PATH_MAX || (|prefix + e.name| == PATH_MAX && Consulted(e, opts))
    ensures var e := fs.dirs[d].entries[i];
            var v := Judge(fs, opts, e, prefix + e.name, chain);
            v.Skip? || v.Stop? || TrueOf(fs, ItemOf(v, Truncated(prefix + e.name)))
  {
    var e := fs.dirs[d].entries[i];
    var path := prefix + e.name;
    var v := Judge(fs, opts, e, path, chain);
    if v.ReportError? {
      assert |Truncated(path)| == PATH_MAX - 1 || path in fs.lost;
    } else if |path| < PATH_MAX {
      JudgedByKind(fs, opts, e, path, chain);
      JoinNamesEntry(fs, prefix, d, i);
      LookedAtIsTrue(fs, opts, e, path, e.kind, chain);
    } else {
      LookedAtIsTrue(fs, opts, e, Truncated(path), Seen(fs, e, path).value, chain);
    }
  }

  /** The entry's path fills the buffer and its type is taken from the directory. */
  ghost predicate Misnamed(
    fs: FileSystem, opts: Options, d: DirId, prefix: string, chain: seq<LinkId>, trail: seq<nat>)
    requires WellFormed(fs)
  {
    && Trail(fs, opts, d, chain, trail)
    && Clear(fs, opts, d, 0, prefix, chain, trail)
    && |TrailPath(fs, opts, d, prefix, chain, trail)| == PATH_MAX
    && !Consulted(Last(fs, opts, d, chain, trail), opts)
  }

  lemma {:induction false} ClearItemIsTrue(
    fs: FileSystem, opts: Options, d: DirId, i: nat, prefix: string, chain: seq<LinkId>, trail: seq<nat>)
    requires Rooted(fs, d, prefix) && Trail(fs, opts, d, chain, trail) && i <= trail[0]
    requires Clear(fs, opts, d, i, prefix, chain, trail)
    requires |TrailPath(fs, opts, d, prefix, chain, trail)| == PATH_MAX ==> Consulted(Last(fs, opts, d, chain, trail), opts)
    ensures TrueOf(fs, Shown(fs, opts, d, prefix, chain, trail))
    decreases |trail|
  {
    var e := fs.dirs[d].entries[trail[0]];
    assert Passes(fs, opts, d, trail[0], prefix, chain);
    if |trail| == 1 {
      EntryItemIsTrue(fs, opts, d, trail[0], prefix, chain);
    } else {
      RootedInside(fs, opts, d, trail[0], prefix, chain);
      var v := Classify(e, chain, opts.followLinks);
      ClearItemIsTrue(fs, opts, v.dir, 0, prefix + e.name + "/", v.chain, trail[1..]);
    }
  }

  /** The error where the listing of a directory ends early is true. */
  lemma EarlyErrorIsTrue(
    fs: FileSystem, opts: Options, d: DirId, i: nat, prefix: string, chain: seq<LinkId>, item: Item)
    requires Rooted(fs, d, prefix) && i <= |fs.dirs[d].entries|
    requires i < |fs.dirs[d].entries| ==> !Passes(fs, opts, d, i, prefix, chain)
    requires item in ListFrom(fs, opts, d, i, prefix, chain)
    ensures TrueOf(fs, item)
  {
    if i < |fs.dirs[d].entries| {
      assert item == Error(Truncated(prefix + fs.dirs[d].entries[i].name));
    } else {
      assert item == Error(Truncated(prefix));
    }
  }

  /** The error for a directory that is not entered is true. */
  lemma InsideErrorIsTrue(
    fs: FileSystem, opts: Options, d: DirId, i: nat, prefix: string, chain: seq<LinkId>, item: Item)
    requires Rooted(fs, d, prefix) && i < |fs.dirs[d].entries| && Passes(fs, opts, d, i, prefix, chain)
    requires !GoesInto(fs, opts, d, i, prefix, chain)
    requires Judge(fs, opts, fs.dirs[d].entries[i], prefix + fs.dirs[d].entries[i].name, chain).Descend?
    requires item in ListInside(fs, opts, d, i, prefix, chain)
    ensures TrueOf(fs, item)
  {
    var e := fs.dirs[d].entries[i];
    var path := prefix + e.name;
    assert item == Error(Truncated(path));
    if |path| < PATH_MAX && path !in fs.lost {
      DescendsTo(fs, opts, d, i, prefix, chain);
      assert Unreadable(fs, path);
    }
  }

  /** The directory to descend to is the one that the path opens. */
  lemma DescendsTo(fs: FileSystem, opts: Options, d: DirId, i: nat, prefix: string, chain: seq<LinkId>)
    requires Rooted(fs, d, prefix) && i < |fs.dirs[d].entries|
    requires |prefix + fs.dirs[d].entries[i].name| < PATH_MAX
    requires Judge(fs, opts, fs.dirs[d].entries[i], prefix + fs.dirs[d].entries[i].name, chain).Descend?
    ensures var e := fs.dirs[d].entries[i];
            var v := Judge(fs, opts, e, prefix + e.name, chain);
            DirAt(fs, prefix + e.name) == Some(v.dir) && v.dir < |fs.dirs|
  {
    var e := fs.dirs[d].entries[i];
    JudgedByKind(fs, opts, e, prefix + e.name, chain);
    DescendDecreases(fs, d, i, chain, opts.followLinks);
    JoinNamesEntry(fs, prefix, d, i);
  }

  /** Errors are always true: the path was too long, could not be looked at, or cannot be read. */
  lemma {:induction false} ErrorsAreTrue(
    fs: FileSystem, opts: Options, d: DirId, i: nat, prefix: string, chain: seq<LinkId>, item: Item)
    requires Rooted(fs, d, prefix) && i <= |fs.dirs[d].entries|
    requires item in ListFrom(fs, opts, d, i, prefix, chain) && item.Error?
    ensures TrueOf(fs, item)
    decreases Unused(fs, chain), |fs.dirs| - d, |fs.dirs[d].entries| - i
  {
    if i == |fs.dirs[d].entries| || !Passes(fs, opts, d, i, prefix, chain) {
      EarlyErrorIsTrue(fs, opts, d, i, prefix, chain, item);
    } else {
      var path := prefix + fs.dirs[d].entries[i].name;
      var v := Judge(fs, opts, fs.dirs[d].entries[i], path, chain);
      ItemOrigin(fs, opts, d, i, prefix, chain, item);
      if item in ListFrom(fs, opts, d, i + 1, prefix, chain) {
        ErrorsAreTrue(fs, opts, d, i + 1, prefix, chain, item);
      } else if v.ReportError? {
        assert |Truncated(path)| == PATH_MAX - 1 || path in fs.lost;
      } else if GoesInto(fs, opts, d, i, prefix, chain) {
        GoneInto(fs, opts, d, i, prefix, chain);
        RootedInside(fs, opts, d, i, prefix, chain);
        ErrorsAreTrue(fs, opts, v.dir, 0, path + "/", v.chain, item);
      } else {
        InsideErrorIsTrue(fs, opts, d, i, prefix, chain, item);
      }
    }
  }

  /** What the path names is of the kind that the entry has. */
  ghost predicate NamesAlike(fs: FileSystem, e: Dirent, path: string) {
    match e.kind
    case Regular => Stat(fs, path) == Some(Regular)
    case Directory(_) => DirAt(fs, path).Some?
    case SymLink(_, _) => Lstat(fs, path).Some? && Lstat(fs, path).value.SymLink?
    case Special => false
  }

  lemma AlikeHere(fs: FileSystem, opts: Options, e: Dirent, path: string, chain: seq<LinkId>)
    requires !Consulted(e, opts) && !e.IsDot() && !Judge(fs, opts, e, path, chain).Stop?
    ensures TrueOf(fs, ItemOf(Judge(fs, opts, e, path, chain), Truncated(path))) <==> NamesAlike(fs, e, Truncated(path))
  {
    match e.kind
    case Regular =>
    case Directory(_) =>
    case SymLink(_, _) =>
  }

  /** The item of an entry whose type is taken from the directory is true if the cut path names alike. */
  lemma {:induction false} TrueIfAlike(
    fs: FileSystem, opts: Options, d: DirId, i: nat, prefix: string, chain: seq<LinkId>, trail: seq<nat>)
    requires WellFormed(fs) && Trail(fs, opts, d, chain, trail) && i <= trail[0]
    requires Clear(fs, opts, d, i, prefix, chain, trail) && !Consulted(Last(fs, opts, d, chain, trail), opts)
    ensures TrueOf(fs, Shown(fs, opts, d, prefix, chain, trail)) <==>
            NamesAlike(fs, Last(fs, opts, d, chain, trail), Truncated(TrailPath(fs, opts, d, prefix, chain, trail)))
    decreases |trail|
  {
    var e := fs.dirs[d].entries[trail[0]];
    assert Passes(fs, opts, d, trail[0], prefix, chain);
    if |trail| == 1 {
      AlikeHere(fs, opts, e, prefix + e.name, chain);
    } else {
      var v := Classify(e, chain, opts.followLinks);
      TrueIfAlike(fs, opts, v.dir, 0, prefix + e.name + "/", v.chain, trail[1..]);
    }
  }

  /** Every item is true, or that of an entry whose path is cut and whose type was not looked up. */
  lemma TrueOrMisnamed(
    fs: FileSystem, opts: Options, d: DirId, prefix: string, chain: seq<LinkId>, item: Item)
    requires Rooted(fs, d, prefix) && item in ListFrom(fs, opts, d, 0, prefix, chain) && !TrueOf(fs, item)
    ensures exists trail :: Misnamed(fs, opts, d, prefix, chain, trail)
                            && Shown(fs, opts, d, prefix, chain, trail) == item
  {
    if item.Error? {
      ErrorsAreTrue(fs, opts, d, 0, prefix, chain, item);
    } else {
      var trail := ListedEntriesAreClear(fs, opts, d, 0, prefix, chain, item);
      if !Misnamed(fs, opts, d, prefix, chain, trail) {
        ClearPathFits(fs, opts, d, 0, prefix, chain, trail);
        ClearItemIsTrue(fs, opts, d, 0, prefix, chain, trail);
      }
    }
  }

  /** Every item of a listing is true if and only if, for each entry that is reached, has a path which
      fills the buffer and has its type taken from the directory, the cut path names something alike. */
  lemma ListingTrueIff(fs: FileSystem, opts: Options, d: DirId, prefix: string, chain: seq<LinkId>)
    requires Rooted(fs, d, prefix)
    ensures (forall item :: item in ListFrom(fs, opts, d, 0, prefix, chain) ==> TrueOf(fs, item)) <==>
            (forall trail :: Misnamed(fs, opts, d, prefix, chain, trail) ==>
               NamesAlike(fs, Last(fs, opts, d, chain, trail), Truncated(TrailPath(fs, opts, d, prefix, chain, trail))))
  {
    forall trail | Misnamed(fs, opts, d, prefix, chain, trail)
      ensures Shown(fs, opts, d, prefix, chain, trail) in ListFrom(fs, opts, d, 0, prefix, chain)
      ensures TrueOf(fs, Shown(fs, opts, d, prefix, chain, trail)) <==>
              NamesAlike(fs, Last(fs, opts, d, chain, trail), Truncated(TrailPath(fs, opts, d, prefix, chain, trail)))
    {
      ClearEntriesAreListed(fs, opts, d, 0, prefix, chain, trail);
      TrueIfAlike(fs, opts, d, 0, prefix, chain, trail);
    }
    forall item | item in ListFrom(fs, opts, d, 0, prefix, chain) && !TrueOf(fs, item)
      ensures exists trail :: Misnamed(fs, opts, d, prefix, chain, trail)
                              && Shown(fs, opts, d, prefix, chain, trail) == item
    {
      TrueOrMisnamed(fs, opts, d, prefix, chain, item);
    }
  }

  // ----- when every entry is reported -----

  function VisibleFrom(entries: seq<Dirent>, i: nat): nat
    requires i <= |entries|
    decreases |entries| - i
  {
    if i == |entries| then 0 else (if entries[i].IsDot() then 0 else 1) + VisibleFrom(entries, i + 1)
  }

  /** The paths of the entries that a listing is meant to name, in order: it goes on past special
      files, and no path is too long. */
  function Promised(fs: FileSystem, opts: Options, d: DirId, i: nat, prefix: string, chain: seq<LinkId>): seq<string>
    requires WellFormed(fs) && d < |fs.dirs| && i <= |fs.dirs[d].entries|
    decreases Unused(fs, chain), |fs.dirs| - d, |fs.dirs[d].entries| - i
  {
    if i == |fs.dirs[d].entries| then []
    else
      var e := fs.dirs[d].entries[i];
      (if e.IsDot() then [] else [prefix + e.name])
      + (PromisedInside(fs, opts, d, i, prefix, chain) + Promised(fs, opts, d, i + 1, prefix, chain))
  }

  function PromisedInside(fs: FileSystem, opts: Options, d: DirId, i: nat, prefix: string, chain: seq<LinkId>): seq<string>
    requires WellFormed(fs) && d < |fs.dirs| && i < |fs.dirs[d].entries|
    decreases Unused(fs, chain), |fs.dirs| - d, |fs.dirs[d].entries| - i, 0
  {
    var path := prefix + fs.dirs[d].entries[i].name;
    var v := Classify(fs.dirs[d].entries[i], chain, opts.followLinks);
    if v.Descend? && opts.recursive && path !in fs.lost then
      DescendDecreases(fs, d, i, chain, opts.followLinks);
      if fs.dirs[v.dir].readable then Promised(fs, opts, v.dir, 0, path + "/", v.chain) else []
    else []
  }

  /** A dot is passed over, and any other entry is reported under its own path. */
  ghost predicate Told(fs: FileSystem, opts: Options, d: DirId, i: nat, prefix: string, chain: seq<LinkId>)
    requires d < |fs.dirs| && i < |fs.dirs[d].entries|
  {
    var e := fs.dirs[d].entries[i];
    && Passes(fs, opts, d, i, prefix, chain)
    && (e.IsDot() ||
        (|prefix + e.name| < PATH_MAX && !Judge(fs, opts, e, prefix + e.name, chain).ReportError?))
  }

  /** In no directory of the walk is an entry, up to the last visible one, a special file, a link
      to one, an entry that cannot be looked at, or one with a path that does not fit whole. */
  ghost predicate Unhindered(
    fs: FileSystem, opts: Options, d: DirId, i: nat, prefix: string, chain: seq<LinkId>)
    requires WellFormed(fs) && d < |fs.dirs| && i <= |fs.dirs[d].entries|
    decreases Unused(fs, chain), |fs.dirs| - d, |fs.dirs[d].entries| - i
  {
    VisibleFrom(fs.dirs[d].entries, i) > 0 ==>
      var e := fs.dirs[d].entries[i];
      && Told(fs, opts, d, i, prefix, chain)
      && (GoesInto(fs, opts, d, i, prefix, chain) ==>
            (GoneInto(fs, opts, d, i, prefix, chain);
             var v := Classify(e, chain, opts.followLinks);
             Unhindered(fs, opts, v.dir, 0, prefix + e.name + "/", v.chain)))
      && Unhindered(fs, opts, d, i + 1, prefix, chain)
  }

  /** The paths that a listing names, errors apart. */
  function Named(items: seq<Item>): seq<string> {
    if items == [] then []
    else (if items[0].Error? || items[0].Done? then [] else [items[0].path]) + Named(items[1..])
  }

  lemma {:induction false} NamedConcat(a: seq<Item>, b: seq<Item>)
    ensures Named(a + b) == Named(a) + Named(b)
  {
    if a == [] {
      assert a + b == b;
    } else {
      assert (a + b)[1..] == a[1..] + b;
      NamedConcat(a[1..], b);
    }
  }

  lemma NamedOne(item: Item)
    ensures Named([item]) == if item.Error? || item.Done? then [] else [item.path]
  {
    assert Named([item][1..]) == [];
  }

  /** What one entry adds to the names, and the rest. */
  ghost function NamedHere(fs: FileSystem, opts: Options, d: DirId, i: nat, prefix: string, chain: seq<LinkId>): seq<string>
    requires d < |fs.dirs| && i < |fs.dirs[d].entries|
  {
    var path := prefix + fs.dirs[d].entries[i].name;
    var v := Judge(fs, opts, fs.dirs[d].entries[i], path, chain);
    if v.Skip? || v.Stop? || v.ReportError? then [] else [Truncated(path)]
  }

  ghost function NamedInside(fs: FileSystem, opts: Options, d: DirId, i: nat, prefix: string, chain: seq<LinkId>): seq<string>
    requires WellFormed(fs) && d < |fs.dirs| && i < |fs.dirs[d].entries|
  {
    if GoesInto(fs, opts, d, i, prefix, chain) then Named(ListInside(fs, opts, d, i, prefix, chain)) else []
  }

  lemma NamedStep(fs: FileSystem, opts: Options, d: DirId, i: nat, prefix: string, chain: seq<LinkId>)
    requires WellFormed(fs) && d < |fs.dirs| && i < |fs.dirs[d].entries|
    requires Passes(fs, opts, d, i, prefix, chain)
    ensures Named(ListFrom(fs, opts, d, i, prefix, chain)) ==
            NamedHere(fs, opts, d, i, prefix, chain)
            + (NamedInside(fs, opts, d, i, prefix, chain) + Named(ListFrom(fs, opts, d, i + 1, prefix, chain)))
  {
    var path := prefix + fs.dirs[d].entries[i].name;
    var v := Judge(fs, opts, fs.dirs[d].entries[i], path, chain);
    var rest := ListFrom(fs, opts, d, i + 1, prefix, chain);
    var inside := if v.Descend? then ListInside(fs, opts, d, i, prefix, chain) else [];
    ListStep(fs, opts, d, i, prefix, chain);
    NamedConcat(if v.Skip? then [] else [ItemOf(v, Truncated(path))], inside + rest);
    NamedOne(ItemOf(v, Truncated(path)));
    NamedConcat(inside, rest);
    NamedInsideIs(fs, opts, d, i, prefix, chain);
  }

  lemma NamedInsideIs(fs: FileSystem, opts: Options, d: DirId, i: nat, prefix: string, chain: seq<LinkId>)
    requires WellFormed(fs) && d < |fs.dirs| && i < |fs.dirs[d].entries|
    ensures var v := Judge(fs, opts, fs.dirs[d].entries[i], prefix + fs.dirs[d].entries[i].name, chain);
            Named(if v.Descend? then ListInside(fs, opts, d, i, prefix, chain) else []) ==
            NamedInside(fs, opts, d, i, prefix, chain)
  {
    NamedOne(Error(Truncated(prefix + fs.dirs[d].entries[i].name)));
  }

  /** Where the listing of a directory ends early nothing is named. */
  lemma NamesNothing(fs: FileSystem, opts: Options, d: DirId, i: nat, prefix: string, chain: seq<LinkId>)
    requires WellFormed(fs) && d < |fs.dirs| && i <= |fs.dirs[d].entries|
    requires i < |fs.dirs[d].entries| ==> !Passes(fs, opts, d, i, prefix, chain)
    ensures Named(ListFrom(fs, opts, d, i, prefix, chain)) == []
  {
    var items := ListFrom(fs, opts, d, i, prefix, chain);
    EndsEarly(fs, opts, d, i, prefix, chain);
    if items != [] {
      NamedOne(items[0]);
      assert items == [items[0]];
    }
  }

  /** A directory whose remaining entries are dots names nothing more. */
  lemma {:induction false} OnlyDotsLeft(
    fs: FileSystem, opts: Options, d: DirId, i: nat, prefix: string, chain: seq<LinkId>)
    requires Rooted(fs, d, prefix) && i <= |fs.dirs[d].entries|
    requires VisibleFrom(fs.dirs[d].entries, i) == 0
    ensures Named(ListFrom(fs, opts, d, i, prefix, chain)) == Promised(fs, opts, d, i, prefix, chain) == []
    decreases |fs.dirs[d].entries| - i
  {
    if i == |fs.dirs[d].entries| {
      NamesNothing(fs, opts, d, i, prefix, chain);
    } else {
      EntryWellFormed(fs, d, i);
      OnlyDotsLeft(fs, opts, d, i + 1, prefix, chain);
      if Passes(fs, opts, d, i, prefix, chain) {
        DotsAreSkipped(fs, opts, d, i, prefix, chain);
        NamedStep(fs, opts, d, i, prefix, chain);
      } else {
        NamesNothing(fs, opts, d, i, prefix, chain);
      }
    }
  }

  lemma {:induction false} PromisesVisible(
    fs: FileSystem, opts: Options, d: DirId, i: nat, prefix: string, chain: seq<LinkId>)
    requires WellFormed(fs) && d < |fs.dirs| && i <= |fs.dirs[d].entries|
    ensures |Promised(fs, opts, d, i, prefix, chain)| >= VisibleFrom(fs.dirs[d].entries, i)
    decreases |fs.dirs[d].entries| - i
  {
    if i == |fs.dirs[d].entries| {
    } else {
      PromisesVisible(fs, opts, d, i + 1, prefix, chain);
    }
  }

  /** Two sums of parts, neither part of the first longer, are equal if and only if the parts are. */
  lemma SplitEqual<T>(a: seq<T>, b: seq<T>, c: seq<T>, d: seq<T>)
    requires |a| <= |c| && |b| <= |d|
    ensures a + b == c + d <==> a == c && b == d
  {
    if a + b == c + d {
      assert |a| + |b| == |c| + |d|;
      assert a == (a + b)[..|a|] && c == (c + d)[..|c|];
      assert b == (a + b)[|a|..] && d == (c + d)[|c|..];
    }
  }

  /** The same for the first name and what follows, where the first name may be missing or cut. */
  lemma CompareNames(here: seq<string>, inside: seq<string>, rest: seq<string>, path: string, walk: seq<string>)
    requires here == [] || (|here| == 1 && (here[0] == path <==> |path| < PATH_MAX))
    requires |inside + rest| <= |walk|
    ensures |here + (inside + rest)| <= |[path] + walk|
    ensures here + (inside + rest) == [path] + walk <==> here != [] && |path| < PATH_MAX && inside + rest == walk
  {
    if here == [] {
    } else {
      SplitEqual(here, inside + rest, [path], walk);
    }
  }

  /** An entry that does not end the listing names itself and what is inside, or less. */
  lemma VisibleStep(fs: FileSystem, opts: Options, d: DirId, i: nat, prefix: string, chain: seq<LinkId>)
    requires Rooted(fs, d, prefix) && i < |fs.dirs[d].entries| && !fs.dirs[d].entries[i].IsDot()
    requires Passes(fs, opts, d, i, prefix, chain)
    ensures var here := NamedHere(fs, opts, d, i, prefix, chain);
            var path := prefix + fs.dirs[d].entries[i].name;
            && (here == [] || (|here| == 1 && (here[0] == path <==> |path| < PATH_MAX)))
            && (Told(fs, opts, d, i, prefix, chain) <==> here != [] && |path| < PATH_MAX)
  {
  }

  /** What is inside an entry is named only where the listing is meant to go. */
  lemma InsideStep(fs: FileSystem, opts: Options, d: DirId, i: nat, prefix: string, chain: seq<LinkId>)
    requires Rooted(fs, d, prefix) && i < |fs.dirs[d].entries|
    ensures var e := fs.dirs[d].entries[i];
            var v := Classify(e, chain, opts.followLinks);
            if GoesInto(fs, opts, d, i, prefix, chain) then
              && v.Descend? && Rooted(fs, v.dir, prefix + e.name + "/")
              && NamedInside(fs, opts, d, i, prefix, chain) == Named(ListFrom(fs, opts, v.dir, 0, prefix + e.name + "/", v.chain))
              && PromisedInside(fs, opts, d, i, prefix, chain) == Promised(fs, opts, v.dir, 0, prefix + e.name + "/", v.chain)
            else
              && NamedInside(fs, opts, d, i, prefix, chain) == []
              && (Told(fs, opts, d, i, prefix, chain) ==> PromisedInside(fs, opts, d, i, prefix, chain) == [])
  {
    if GoesInto(fs, opts, d, i, prefix, chain) {
      GoneInto(fs, opts, d, i, prefix, chain);
      RootedInside(fs, opts, d, i, prefix, chain);
    } else {
      EntryWellFormed(fs, d, i);
    }
  }

  /** The names are at most those of the walk, and all of them exactly where nothing hinders. */
  ghost predicate CompleteIff(fs: FileSystem, opts: Options, d: DirId, i: nat, prefix: string, chain: seq<LinkId>)
    requires WellFormed(fs) && d < |fs.dirs| && i <= |fs.dirs[d].entries|
  {
    var named, walk := Named(ListFrom(fs, opts, d, i, prefix, chain)), Promised(fs, opts, d, i, prefix, chain);
    |named| <= |walk| && (named == walk <==> Unhindered(fs, opts, d, i, prefix, chain))
  }

  /** What is inside an entry and behind it, put together. */
  lemma CompleteBehind(fs: FileSystem, opts: Options, d: DirId, i: nat, prefix: string, chain: seq<LinkId>)
    requires Rooted(fs, d, prefix) && i < |fs.dirs[d].entries|
    requires CompleteIff(fs, opts, d, i + 1, prefix, chain)
    requires GoesInto(fs, opts, d, i, prefix, chain) ==>
               (GoneInto(fs, opts, d, i, prefix, chain);
                var v := Classify(fs.dirs[d].entries[i], chain, opts.followLinks);
                CompleteIff(fs, opts, v.dir, 0, prefix + fs.dirs[d].entries[i].name + "/", v.chain))
    ensures var names := NamedInside(fs, opts, d, i, prefix, chain) + Named(ListFrom(fs, opts, d, i + 1, prefix, chain));
            var walk := PromisedInside(fs, opts, d, i, prefix, chain) + Promised(fs, opts, d, i + 1, prefix, chain);
            && |names| <= |walk|
            && (VisibleFrom(fs.dirs[d].entries, i) > 0 && Told(fs, opts, d, i, prefix, chain) ==>
                  (names == walk <==> Unhindered(fs, opts, d, i, prefix, chain)))
  {
    InsideStep(fs, opts, d, i, prefix, chain);
    SplitEqual(NamedInside(fs, opts, d, i, prefix, chain), Named(ListFrom(fs, opts, d, i + 1, prefix, chain)),
               PromisedInside(fs, opts, d, i, prefix, chain), Promised(fs, opts, d, i + 1, prefix, chain));
  }

  /** The entry itself in front of that. */
  lemma CompleteHere(fs: FileSystem, opts: Options, d: DirId, i: nat, prefix: string, chain: seq<LinkId>)
    requires Rooted(fs, d, prefix) && i < |fs.dirs[d].entries| && VisibleFrom(fs.dirs[d].entries, i) > 0
    requires Passes(fs, opts, d, i, prefix, chain)
    requires var names := NamedInside(fs, opts, d, i, prefix, chain) + Named(ListFrom(fs, opts, d, i + 1, prefix, chain));
             var walk := PromisedInside(fs, opts, d, i, prefix, chain) + Promised(fs, opts, d, i + 1, prefix, chain);
             && |names| <= |walk|
             && (Told(fs, opts, d, i, prefix, chain) ==>
                   (names == walk <==> Unhindered(fs, opts, d, i, prefix, chain)))
    ensures CompleteIff(fs, opts, d, i, prefix, chain)
  {
    var e := fs.dirs[d].entries[i];
    var inside, rest := NamedInside(fs, opts, d, i, prefix, chain), Named(ListFrom(fs, opts, d, i + 1, prefix, chain));
    var walk := PromisedInside(fs, opts, d, i, prefix, chain) + Promised(fs, opts, d, i + 1, prefix, chain);
    NamedStep(fs, opts, d, i, prefix, chain);
    if e.IsDot() {
      DotsAreSkipped(fs, opts, d, i, prefix, chain);
      assert [] + (inside + rest) == inside + rest && [] + walk == walk;
    } else {
      VisibleStep(fs, opts, d, i, prefix, chain);
      CompareNames(NamedHere(fs, opts, d, i, prefix, chain), inside, rest, prefix + e.name, walk);
    }
  }

  /**
   A listing never names more than it is meant to, and it names exactly that, in order, if and only
   if no entry on the walk hides others, cannot be looked at, or has a path that does not fit whole:
   for all options, links followed or not.
   */
  lemma {:induction false} ListingCompleteIff(
    fs: FileSystem, opts: Options, d: DirId, i: nat, prefix: string, chain: seq<LinkId>)
    requires Rooted(fs, d, prefix) && i <= |fs.dirs[d].entries|
    ensures CompleteIff(fs, opts, d, i, prefix, chain)
    decreases Unused(fs, chain), |fs.dirs| - d, |fs.dirs[d].entries| - i
  {
    if VisibleFrom(fs.dirs[d].entries, i) == 0 {
      OnlyDotsLeft(fs, opts, d, i, prefix, chain);
    } else if !Passes(fs, opts, d, i, prefix, chain) {
      NamesNothing(fs, opts, d, i, prefix, chain);
      PromisesVisible(fs, opts, d, i, prefix, chain);
    } else {
      ListingCompleteIff(fs, opts, d, i + 1, prefix, chain);
      if GoesInto(fs, opts, d, i, prefix, chain) {
        GoneInto(fs, opts, d, i, prefix, chain);
        RootedInside(fs, opts, d, i, prefix, chain);
        var v := Classify(fs.dirs[d].entries[i], chain, opts.followLinks);
        ListingCompleteIff(fs, opts, v.dir, 0, prefix + fs.dirs[d].entries[i].name + "/", v.chain);
      }
      CompleteBehind(fs, opts, d, i, prefix, chain);
      CompleteHere(fs, opts, d, i, prefix, chain);
    }
  }

  /** A flat listing is unhindered exactly when every entry, up to the last visible one, is told. */
  lemma {:induction false} FlatUnhindered(
    fs: FileSystem, opts: Options, d: DirId, i: nat, prefix: string, chain: seq<LinkId>)
    requires WellFormed(fs) && d < |fs.dirs| && i <= |fs.dirs[d].entries| && !opts.recursive
    ensures Unhindered(fs, opts, d, i, prefix, chain) <==>
            forall j :: i <= j < |fs.dirs[d].entries| && VisibleFrom(fs.dirs[d].entries, j) > 0 ==>
                          Told(fs, opts, d, j, prefix, chain)
    decreases |fs.dirs[d].entries| - i
  {
    if VisibleFrom(fs.dirs[d].entries, i) == 0 {
      NothingVisible(fs.dirs[d].entries, i);
    } else {
      FlatUnhindered(fs, opts, d, i + 1, prefix, chain);
    }
  }

  lemma {:induction false} NothingVisible(entries: seq<Dirent>, i: nat)
    requires i <= |entries| && VisibleFrom(entries, i) == 0
    ensures forall j :: i <= j < |entries| ==> VisibleFrom(entries, j) == 0
    decreases |entries| - i
  {
    if i == |entries| {
    } else {
      NothingVisible(entries, i + 1);
    }
  }

  /** The paths of the visible entries of one directory. */
  function VisiblePaths(entries: seq<Dirent>, i: nat, prefix: string): seq<string>
    requires i <= |entries|
    decreases |entries| - i
  {
    if i == |entries| then []
    else (if entries[i].IsDot() then [] else [prefix + entries[i].name]) + VisiblePaths(entries, i + 1, prefix)
  }

  lemma {:induction false} FlatPromise(fs: FileSystem, opts: Options, d: DirId, i: nat, prefix: string, chain: seq<LinkId>)
    requires WellFormed(fs) && d < |fs.dirs| && i <= |fs.dirs[d].entries| && !opts.recursive
    ensures Promised(fs, opts, d, i, prefix, chain) == VisiblePaths(fs.dirs[d].entries, i, prefix)
    decreases |fs.dirs[d].entries| - i
  {
    if i == |fs.dirs[d].entries| {
    } else {
      FlatPromise(fs, opts, d, i + 1, prefix, chain);
      var rest := Promised(fs, opts, d, i + 1, prefix, chain);
      assert [] + rest == rest;
    }
  }

  /** The flat case of `ListingCompleteIff`. */
  lemma FlatListingCompleteIff(
    fs: FileSystem, opts: Options, d: DirId, prefix: string, chain: seq<LinkId>)
    requires Rooted(fs, d, prefix) && !opts.recursive
    ensures var entries := fs.dirs[d].entries;
            Named(ListFrom(fs, opts, d, 0, prefix, chain)) == VisiblePaths(entries, 0, prefix) <==>
            forall j :: 0 <= j < |entries| && VisibleFrom(entries, j) > 0 ==> Told(fs, opts, d, j, prefix, chain)
  {
    ListingCompleteIff(fs, opts, d, 0, prefix, chain);
    FlatPromise(fs, opts, d, 0, prefix, chain);
    FlatUnhindered(fs, opts, d, 0, prefix, chain);
  }

  // ----- a special file ends the listing of its directory -----

  const FIFO_FIRST: FileSystem :=
    FileSystem([Contents(true, [Dirent("fifo", true, Special), Dirent("notes", true, Regular)], false)], 0, 0, {})

  lemma RootPath(fs: FileSystem)
    ensures DirAt(fs, "/") == Some(fs.root)
  {
    assert "/"[..0] == "";
  }

  /** A directory of files that is the whole file system. */
  lemma OnlyFiles(fs: FileSystem)
    requires |fs.dirs| == 1 && fs.root == fs.cwd == 0
    requires var entries := fs.dirs[0].entries;
             && (forall i :: 0 <= i < |entries| ==>
                   NameOk(entries[i].name) && !entries[i].IsDot() && (entries[i].kind.Regular? || entries[i].kind.Special?))
             && (forall i, j :: 0 <= i < j < |entries| ==> entries[i].name != entries[j].name)
    ensures WellFormed(fs) && Rooted(fs, 0, "/")
  {
    assert DirectoryOk(fs, 0);
    RootPath(fs);
  }

  lemma FifoFirstWellFormed()
    ensures WellFormed(FIFO_FIRST) && DirAt(FIFO_FIRST, "/") == Some(0)
  {
    OnlyFiles(FIFO_FIRST);
  }

  lemma FifoEndsListing(opts: Options)
    requires WellFormed(FIFO_FIRST)
    ensures ListFrom(FIFO_FIRST, opts, 0, 0, "/", []) == []
  {
    var e := FIFO_FIRST.dirs[0].entries[0];
    assert Classify(e, [], opts.followLinks) == Stop;
    assert |"/" + e.name| <= PATH_MAX;
  }

  lemma StatOfFile(fs: FileSystem, d: DirId, i: nat, prefix: string)
    requires Rooted(fs, d, prefix) && i < |fs.dirs[d].entries| && fs.dirs[d].entries[i].kind.Regular?
    ensures Stat(fs, prefix + fs.dirs[d].entries[i].name) == Some(Regular)
  {
    JoinNamesEntry(fs, prefix, d, i);
  }

  /** With a named pipe read first, the regular file next to it is not reported. */
  lemma SpecialFileHidesTheRest(opts: Options)
    ensures WellFormed(FIFO_FIRST)
    ensures Listing(FIFO_FIRST, opts, "/") == []
    ensures Stat(FIFO_FIRST, "/" + "notes") == Some(Regular)
  {
    FifoFirstWellFormed();
    FifoEndsListing(opts);
    StatOfFile(FIFO_FIRST, 0, 1, "/");
  }

  // ----- a path that fills the buffer -----

  const LONG_NAME: string := seq(PATH_MAX - 1, _ => 'a')

  /** One regular file, whose path has PATH_MAX characters. */
  const LONG_ONLY: FileSystem := FileSystem([Contents(true, [Dirent(LONG_NAME, true, Regular)], false)], 0, 0, {})

  lemma LongOnlyWellFormed()
    ensures Rooted(LONG_ONLY, 0, "/")
  {
    OnlyFiles(LONG_ONLY);
  }

  /** The failing case: the file is reported under a path that names nothing. */
  lemma CutPathNamesNothing(opts: Options)
    ensures Rooted(LONG_ONLY, 0, "/")
    ensures var path := "/" + LONG_NAME[..PATH_MAX - 2];
            ListFrom(LONG_ONLY, opts, 0, 0, "/", []) == [File(path)] && !TrueOf(LONG_ONLY, File(path))
  {
    LongOnlyWellFormed();
    var e := LONG_ONLY.dirs[0].entries[0];
    assert Truncated("/" + e.name) == "/" + LONG_NAME[..PATH_MAX - 2];
    assert ListFrom(LONG_ONLY, opts, 0, 1, "/", []) == [];
    JoinLooksUp(LONG_ONLY, "/", 0, LONG_NAME[..PATH_MAX - 2]);
  }

  // ----- a listing and its end -----

  predicate NoneDone(items: seq<Item>) {
    forall i :: 0 <= i < |items| ==> !items[i].Done?
  }

  lemma NoneDoneConcat(a: seq<Item>, b: seq<Item>)
    requires NoneDone(a) && NoneDone(b)
    ensures NoneDone(a + b)
  {
  }

  /** A listing does not say by itself that it is done. */
  lemma {:induction false} ListFromNoneDone(
    fs: FileSystem, opts: Options, d: DirId, i: nat, prefix: string, chain: seq<LinkId>)
    requires WellFormed(fs) && d < |fs.dirs| && i <= |fs.dirs[d].entries|
    ensures NoneDone(ListFrom(fs, opts, d, i, prefix, chain))
    decreases Unused(fs, chain), |fs.dirs| - d, |fs.dirs[d].entries| - i
  {
    if i == |fs.dirs[d].entries| {
    } else {
      ListFromNoneDone(fs, opts, d, i + 1, prefix, chain);
      if GoesInto(fs, opts, d, i, prefix, chain) {
        var path := prefix + fs.dirs[d].entries[i].name;
        var v := Judge(fs, opts, fs.dirs[d].entries[i], path, chain);
        GoneInto(fs, opts, d, i, prefix, chain);
        ListFromNoneDone(fs, opts, v.dir, 0, path + "/", v.chain);
      }
      EntryNoneDone(fs, opts, d, i, prefix, chain);
    }
  }

  lemma EntryNoneDone(fs: FileSystem, opts: Options, d: DirId, i: nat, prefix: string, chain: seq<LinkId>)
    requires WellFormed(fs) && d < |fs.dirs| && i < |fs.dirs[d].entries|
    requires NoneDone(ListFrom(fs, opts, d, i + 1, prefix, chain))
    requires GoesInto(fs, opts, d, i, prefix, chain) ==> NoneDone(ListInside(fs, opts, d, i, prefix, chain))
    ensures NoneDone(ListFrom(fs, opts, d, i, prefix, chain))
  {
    var path := prefix + fs.dirs[d].entries[i].name;
    var v := Judge(fs, opts, fs.dirs[d].entries[i], path, chain);
    var rest := ListFrom(fs, opts, d, i + 1, prefix, chain);
    if |path| > PATH_MAX || v.Stop? || v.Skip? {
    } else if v.Descend? {
      var inside := ListInside(fs, opts, d, i, prefix, chain);
      NoneDoneConcat(inside, rest);
      NoneDoneConcat([Dir(Truncated(path))], inside + rest);
    } else {
      NoneDoneConcat([if v.ReportFile? then File(Truncated(path)) else if v.ReportLink? then Link(Truncated(path))
                      else Error(Truncated(path))], rest);
    }
  }

  lemma ListingNoneDone(fs: FileSystem, opts: Options, dirName: string)
    requires WellFormed(fs)
    ensures NoneDone(Listing(fs, opts, dirName))
  {
    if CanOpen(fs, Truncated(dirName)) {
      DirAtInRange(fs, Truncated(dirName));
      ListFromNoneDone(fs, opts, DirAt(fs, Truncated(dirName)).value, 0, dirName, []);
    }
  }
}
