/**
 What a recursive directory listing is supposed to report, as a plain recursion
 over the file system, and the frames of the explicit stack that the lister
 uses to produce the same items one at a time.
 */
module ListingSpec {
  import opened Wrappers
  import opened FileSystems

  const PATH_MAX: nat := 4096

  datatype Options = Options(recursive: bool, followLinks: bool)

  /** One reported result.  `Done` closes the listing. */
  datatype Item =
    | File(path: string)
    | Dir(path: string)
    | Link(path: string)
    | Error(path: string)
    | Done

  /** What the lister does with one directory entry. */
  datatype Verdict =
    | Skip
    | ReportFile
    | ReportLink
    | ReportError
    | Descend(dir: DirId, chain: seq<LinkId>)
    | Stop

  /** `chain` holds the links followed on the way to the entry's directory. */
  function Classify(e: Dirent, chain: seq<LinkId>, followLinks: bool): Verdict {
    match e.kind
    case Directory(sub) => if e.IsDot() then Skip else Descend(sub, chain)
    case Regular => ReportFile
    case Special => Stop
    case SymLink(id, target) =>
      if !followLinks || id in chain then ReportLink
      else
        match target
        case Broken => ReportLink
        case ToDirectory(sub) => Descend(sub, [id] + chain)
        case ToFile => ReportFile
        case ToSpecial => Stop
  }

  // ----- termination: unused links, then tree height, then entries left -----

  function LinkIds(fs: FileSystem): set<LinkId> {
    set d, i | 0 <= d < |fs.dirs| && 0 <= i < |fs.dirs[d].entries| && fs.dirs[d].entries[i].kind.SymLink?
      :: fs.dirs[d].entries[i].kind.id
  }

  function Used(chain: seq<LinkId>): set<LinkId> {
    set id | id in chain
  }

  function Unused(fs: FileSystem, chain: seq<LinkId>): nat {
    |LinkIds(fs) - Used(chain)|
  }

  /** Entering a directory uses up a link or goes down in the directory tree. */
  lemma DescendDecreases(fs: FileSystem, d: DirId, i: nat, chain: seq<LinkId>, followLinks: bool)
    requires WellFormed(fs) && d < |fs.dirs| && i < |fs.dirs[d].entries|
    requires Classify(fs.dirs[d].entries[i], chain, followLinks).Descend?
    ensures var v := Classify(fs.dirs[d].entries[i], chain, followLinks);
            && v.dir < |fs.dirs|
            && (Unused(fs, v.chain) < Unused(fs, chain) || (v.chain == chain && d < v.dir))
  {
    var e := fs.dirs[d].entries[i];
    EntryWellFormed(fs, d, i);
    if e.kind.SymLink? {
      var id := e.kind.id;
      assert id in LinkIds(fs);
      var before := LinkIds(fs) - Used(chain);
      assert LinkIds(fs) - Used([id] + chain) == before - {id};
      assert id in before;
    }
  }

  // ----- the reference listing -----

  /** What can be read back of a path from a buffer of PATH_MAX characters. */
  function Truncated(path: string): string {
    if |path| < PATH_MAX then path else path[..PATH_MAX - 1]
  }

  /** What a buffer holds of a path: one that fills it loses its last character to a NUL. */
  function Stored(path: string): string {
    if |path| < PATH_MAX then path else path[..PATH_MAX - 1] + ['\0']
  }

  /** What is held of a path stays in place when the path grows. */
  lemma StoredGrows(path: string, more: string)
    requires |path + more| <= PATH_MAX
    ensures Stored(path) <= Stored(path + more)
    ensures |path| < PATH_MAX ==> Stored(Stored(path) + more) == Stored(path + more)
  {
    assert more == "" ==> path + more == path;
  }

  /** Entries of unknown type, and links that are to be followed, are looked at by their path. */
  predicate Consulted(e: Dirent, opts: Options) {
    !e.typeKnown || (e.kind.SymLink? && opts.followLinks)
  }

  /** What is found there.  A path that fills the buffer is cut, and may be another entry's. */
  function Seen(fs: FileSystem, e: Dirent, path: string): Option<Kind> {
    if Truncated(path) in fs.lost then None
    else if |path| < PATH_MAX then Some(e.kind)
    else Lstat(fs, Truncated(path))
  }

  function JudgeBy(info: Option<Kind>, opts: Options, e: Dirent, chain: seq<LinkId>): Verdict {
    match info
    case None => ReportError
    case Some(kind) => Classify(e.(kind := kind), chain, opts.followLinks)
  }

  /** What the lister does with an entry whose joined path fits in the buffer. */
  function Judge(fs: FileSystem, opts: Options, e: Dirent, path: string, chain: seq<LinkId>): Verdict {
    JudgeBy(if Consulted(e, opts) then Seen(fs, e, path) else Some(e.kind), opts, e, chain)
  }

  /** Unless its path is cut, an entry is judged by what it is. */
  lemma JudgedByKind(fs: FileSystem, opts: Options, e: Dirent, path: string, chain: seq<LinkId>)
    requires |path| < PATH_MAX && !Judge(fs, opts, e, path, chain).ReportError?
    ensures Judge(fs, opts, e, path, chain) == Classify(e, chain, opts.followLinks)
  {
  }

  /** Items for directory `d` from its `i`-th entry on; `prefix` is its path. */
  function ListFrom(fs: FileSystem, opts: Options, d: DirId, i: nat, prefix: string, chain: seq<LinkId>): seq<Item>
    requires WellFormed(fs) && d < |fs.dirs| && i <= |fs.dirs[d].entries|
    decreases Unused(fs, chain), |fs.dirs| - d, |fs.dirs[d].entries| - i
  {
    if i == |fs.dirs[d].entries| then
      if fs.dirs[d].torn then [Error(Truncated(prefix))] else []
    else
      var path := prefix + fs.dirs[d].entries[i].name;
      var shown := Truncated(path);
      if |path| > PATH_MAX then [Error(shown)]
      else
        match Judge(fs, opts, fs.dirs[d].entries[i], path, chain)
        case Stop => []
        case Skip => ListFrom(fs, opts, d, i + 1, prefix, chain)
        case ReportFile => [File(shown)] + ListFrom(fs, opts, d, i + 1, prefix, chain)
        case ReportLink => [Link(shown)] + ListFrom(fs, opts, d, i + 1, prefix, chain)
        case ReportError => [Error(shown)] + ListFrom(fs, opts, d, i + 1, prefix, chain)
        case Descend(_, _) =>
          [Dir(shown)] + (ListInside(fs, opts, d, i, prefix, chain) + ListFrom(fs, opts, d, i + 1, prefix, chain))
  }

  /** Items for what is inside the directory that the `i`-th entry is, or leads to. */
  function ListInside(fs: FileSystem, opts: Options, d: DirId, i: nat, prefix: string, chain: seq<LinkId>): seq<Item>
    requires WellFormed(fs) && d < |fs.dirs| && i < |fs.dirs[d].entries|
    requires Judge(fs, opts, fs.dirs[d].entries[i], prefix + fs.dirs[d].entries[i].name, chain).Descend?
    decreases Unused(fs, chain), |fs.dirs| - d, |fs.dirs[d].entries| - i, 0
  {
    var path := prefix + fs.dirs[d].entries[i].name;
    if !opts.recursive then []
    else if Enters(fs, opts, d, i, prefix, chain) then
      var v := Judge(fs, opts, fs.dirs[d].entries[i], path, chain);
      DescendDecreases(fs, d, i, chain, opts.followLinks);
      ListFrom(fs, opts, v.dir, 0, path + "/", v.chain)
    else [Error(Truncated(path))]
  }

  /** The directory that the `i`-th entry is, or leads to, can be opened by its path. */
  predicate Enters(fs: FileSystem, opts: Options, d: DirId, i: nat, prefix: string, chain: seq<LinkId>)
    requires WellFormed(fs) && d < |fs.dirs| && i < |fs.dirs[d].entries|
    requires Judge(fs, opts, fs.dirs[d].entries[i], prefix + fs.dirs[d].entries[i].name, chain).Descend?
  {
    var e := fs.dirs[d].entries[i];
    var path := prefix + e.name;
    && |path| < PATH_MAX && path !in fs.lost
    && (JudgedByKind(fs, opts, e, path, chain);
        DescendDecreases(fs, d, i, chain, opts.followLinks);
        fs.dirs[Judge(fs, opts, e, path, chain).dir].readable)
  }

  /** The whole listing of the directory that `path` names. */
  function Listing(fs: FileSystem, opts: Options, path: string): seq<Item>
    requires WellFormed(fs)
  {
    if CanOpen(fs, Truncated(path)) then
      DirAtInRange(fs, Truncated(path));
      ListFrom(fs, opts, DirAt(fs, Truncated(path)).value, 0, path, [])
    else [Error(Truncated(path))]
  }

  /** No directory is entered by a path that fills the buffer: there is no room for its separator. */
  ghost predicate Defined(fs: FileSystem, opts: Options, d: DirId, i: nat, prefix: string, chain: seq<LinkId>)
    requires WellFormed(fs) && d < |fs.dirs| && i <= |fs.dirs[d].entries|
    decreases Unused(fs, chain), |fs.dirs| - d, |fs.dirs[d].entries| - i
  {
    i < |fs.dirs[d].entries| ==>
      var e := fs.dirs[d].entries[i];
      var path := prefix + e.name;
      var v := Judge(fs, opts, e, path, chain);
      |path| > PATH_MAX || v.Stop? ||
      (&& (opts.recursive && v.Descend? ==>
             && (|path| == PATH_MAX ==> !CanOpen(fs, Truncated(path)))
             && (Enters(fs, opts, d, i, prefix, chain) ==>
                   (JudgedByKind(fs, opts, e, path, chain);
                    DescendDecreases(fs, d, i, chain, opts.followLinks);
                    Defined(fs, opts, v.dir, 0, path + "/", v.chain))))
       && Defined(fs, opts, d, i + 1, prefix, chain))
  }

  // ----- the explicit stack -----

  /** One stack entry, by what it has still to report. */
  datatype Frame =
    | Unopened(path: string, separator: string, chain: seq<LinkId>)
    | Reading(dir: DirId, next: nat, prefix: string, chain: seq<LinkId>)
    | Finished

  ghost predicate ReadingOk(fs: FileSystem, opts: Options, d: DirId, i: nat, prefix: string, chain: seq<LinkId>) {
    && WellFormed(fs)
    && d < |fs.dirs| && i <= |fs.dirs[d].entries|
    && EndsWithSeparator(prefix) && DirAt(fs, prefix) == Some(d)
    && '\0' !in prefix && |prefix| <= PATH_MAX
    && Defined(fs, opts, d, i, prefix, chain)
  }

  ghost predicate FrameOk(fs: FileSystem, opts: Options, f: Frame) {
    match f
    case Finished => true
    case Reading(d, i, prefix, chain) => ReadingOk(fs, opts, d, i, prefix, chain)
    case Unopened(path, separator, chain) =>
      && WellFormed(fs)
      && '\0' !in path && |path| <= PATH_MAX
      && (separator == "" || separator == "/")
      && (CanOpen(fs, Truncated(path)) ==>
            ReadingOk(fs, opts, DirAt(fs, Truncated(path)).value, 0, path + separator, chain))
  }

  /** `opendir` succeeds. */
  predicate CanOpen(fs: FileSystem, path: string)
    requires WellFormed(fs)
  {
    DirAtInRange(fs, path);
    path !in fs.lost && DirAt(fs, path).Some? && fs.dirs[DirAt(fs, path).value].readable
  }

  /** Everything a proper frame has still to report. */
  ghost function Pending(fs: FileSystem, opts: Options, f: Frame): seq<Item> {
    if !FrameOk(fs, opts, f) then []
    else
    match f
    case Finished => []
    case Reading(d, i, prefix, chain) => ListFrom(fs, opts, d, i, prefix, chain)
    case Unopened(path, separator, chain) =>
      if CanOpen(fs, Truncated(path)) then
        ListFrom(fs, opts, DirAt(fs, Truncated(path)).value, 0, path + separator, chain)
      else [Error(Truncated(path))]
  }

  /** One step of a frame: what it reports, what is left, what to go into. */
  datatype Step = Step(report: Item, rest: Frame, inner: Option<Frame>)

  /** The step of a frame whose directory is open. */
  ghost function Read(fs: FileSystem, opts: Options, d: DirId, i: nat, prefix: string, chain: seq<LinkId>): (s: Step)
    requires WellFormed(fs) && d < |fs.dirs| && i <= |fs.dirs[d].entries|
    decreases |fs.dirs[d].entries| - i
  {
    if i == |fs.dirs[d].entries| then
      Step(if fs.dirs[d].torn then Error(Truncated(prefix)) else Done, Finished, None)
    else
      var path := prefix + fs.dirs[d].entries[i].name;
      var shown := Truncated(path);
      var rest := Reading(d, i + 1, prefix, chain);
      if |path| > PATH_MAX then Step(Error(shown), Finished, None)
      else
        match Judge(fs, opts, fs.dirs[d].entries[i], path, chain)
        case Stop => Step(Done, Finished, None)
        case Skip => Read(fs, opts, d, i + 1, prefix, chain)
        case ReportFile => Step(File(shown), rest, None)
        case ReportLink => Step(Link(shown), rest, None)
        case ReportError => Step(Error(shown), rest, None)
        case Descend(_, inside) => Step(Dir(shown), rest, Some(Unopened(path, "/", inside)))
  }

  ghost function Advance(fs: FileSystem, opts: Options, f: Frame): (s: Step) {
    if !FrameOk(fs, opts, f) then Step(Done, Finished, None)
    else
    match f
    case Finished => Step(Done, Finished, None)
    case Unopened(path, separator, chain) =>
      if CanOpen(fs, Truncated(path)) then
        Read(fs, opts, DirAt(fs, Truncated(path)).value, 0, path + separator, chain)
      else Step(Error(Truncated(path)), Finished, None)
    case Reading(d, i, prefix, chain) => Read(fs, opts, d, i, prefix, chain)
  }

  /** The shape of a step: only a directory opens an inner frame. */
  ghost predicate StepOk(fs: FileSystem, opts: Options, s: Step) {
    && FrameOk(fs, opts, s.rest)
    && !s.rest.Unopened?
    && (s.report.Done? ==> s.rest.Finished?)
    && (s.inner.Some? <==> s.report.Dir?)
    && (s.inner.Some? ==>
          && s.rest.Reading? && s.inner.value.Unopened?
          && Truncated(s.inner.value.path) == s.report.path && s.inner.value.separator == "/")
    && (s.inner.Some? && opts.recursive ==> FrameOk(fs, opts, s.inner.value))
  }

  ghost function Reporter(fs: FileSystem, opts: Options): Frame -> seq<Item> {
    f => Pending(fs, opts, f)
  }

  /** What is pending once a step has reported its item. */
  function PendingAfter(pending: Frame -> seq<Item>, opts: Options, s: Step): seq<Item> {
    if s.inner.Some? && opts.recursive then pending(s.inner.value) + pending(s.rest) else pending(s.rest)
  }

  /** Step `s` of frame `f` reports the head of what was pending and leaves the rest. */
  ghost predicate Accounts(pending: Frame -> seq<Item>, opts: Options, f: Frame, s: Step) {
    pending(f) == if s.report.Done? then [] else [s.report] + PendingAfter(pending, opts, s)
  }

  lemma {:induction false} ReadReportsNext(
    fs: FileSystem, opts: Options, d: DirId, i: nat, prefix: string, chain: seq<LinkId>)
    requires ReadingOk(fs, opts, d, i, prefix, chain)
    ensures var s := Read(fs, opts, d, i, prefix, chain);
            && StepOk(fs, opts, s)
            && ListFrom(fs, opts, d, i, prefix, chain) ==
               if s.report.Done? then [] else [s.report] + PendingAfter(Reporter(fs, opts), opts, s)
    decreases |fs.dirs[d].entries| - i
  {
    if i >= |fs.dirs[d].entries| {
    } else {
      var e := fs.dirs[d].entries[i];
      var path := prefix + e.name;
      if |path| <= PATH_MAX {
        match Judge(fs, opts, e, path, chain)
        case Stop =>
        case Skip => ReadReportsNext(fs, opts, d, i + 1, prefix, chain);
        case ReportFile =>
        case ReportLink =>
        case ReportError =>
        case Descend(_, _) =>
          if opts.recursive {
            DescendFrameOk(fs, opts, d, i, prefix, chain);
          }
          var rest := ListFrom(fs, opts, d, i + 1, prefix, chain);
          assert [] + rest == rest;
      }
    }
  }

  /** One step reports the head of what was pending and keeps the rest pending. */
  lemma AdvanceReportsNext(fs: FileSystem, opts: Options, f: Frame)
    requires FrameOk(fs, opts, f)
    ensures var s := Advance(fs, opts, f);
            && StepOk(fs, opts, s)
            && Accounts(Reporter(fs, opts), opts, f, s)
  {
    match f
    case Finished =>
    case Unopened(path, separator, chain) =>
      if CanOpen(fs, Truncated(path)) {
        ReadReportsNext(fs, opts, DirAt(fs, Truncated(path)).value, 0, path + separator, chain);
      }
    case Reading(d, i, prefix, chain) => ReadReportsNext(fs, opts, d, i, prefix, chain);
  }

  /** The frame for a directory inside has pending what is inside. */
  lemma DescendFrameOk(fs: FileSystem, opts: Options, d: DirId, i: nat, prefix: string, chain: seq<LinkId>)
    requires ReadingOk(fs, opts, d, i, prefix, chain) && i < |fs.dirs[d].entries| && opts.recursive
    requires |prefix + fs.dirs[d].entries[i].name| <= PATH_MAX
    requires Judge(fs, opts, fs.dirs[d].entries[i], prefix + fs.dirs[d].entries[i].name, chain).Descend?
    ensures var path := prefix + fs.dirs[d].entries[i].name;
            var inner := Unopened(path, "/", Judge(fs, opts, fs.dirs[d].entries[i], path, chain).chain);
            && (CanOpen(fs, Truncated(path)) <==> Enters(fs, opts, d, i, prefix, chain))
            && FrameOk(fs, opts, inner)
            && Pending(fs, opts, inner) == ListInside(fs, opts, d, i, prefix, chain)
  {
    var e := fs.dirs[d].entries[i];
    var path := prefix + e.name;
    EntryWellFormed(fs, d, i);
    if |path| < PATH_MAX {
      JudgedByKind(fs, opts, e, path, chain);
      DescendDecreases(fs, d, i, chain, opts.followLinks);
      JoinNamesEntry(fs, prefix, d, i);
    }
  }

  // ----- a whole stack, bottom first -----

  ghost function Checker(fs: FileSystem, opts: Options): Frame -> bool {
    f => FrameOk(fs, opts, f)
  }

  ghost predicate StackOk(fs: FileSystem, opts: Options, frames: seq<Frame>) {
    forall i :: 0 <= i < |frames| ==> Checker(fs, opts)(frames[i])
  }

  /** What a stack has still to report, the top frame first, by what each frame has. */
  ghost function Stacked(pending: Frame -> seq<Item>, frames: seq<Frame>): seq<Item>
    decreases |frames|
  {
    if frames == [] then []
    else
      var n := |frames| - 1;
      pending(frames[n]) + Stacked(pending, frames[..n])
  }

  /** The rest of the listing: nothing once the stack is empty, else up to `Done`. */
  ghost function Stream(fs: FileSystem, opts: Options, frames: seq<Frame>): seq<Item> {
    if frames == [] then [] else Stacked(Reporter(fs, opts), frames) + [Done]
  }

  /** The stack after the top frame has taken one step. */
  ghost function StepStack(fs: FileSystem, opts: Options, frames: seq<Frame>): seq<Frame>
    requires frames != []
  {
    var n := |frames| - 1;
    var s := Advance(fs, opts, frames[n]);
    if s.report.Done? then frames[..n] else Replaced(opts, frames[..n], s)
  }

  function Replaced(opts: Options, below: seq<Frame>, s: Step): seq<Frame> {
    if s.inner.Some? && opts.recursive then below + [s.rest, s.inner.value] else below + [s.rest]
  }

  /** What that step adds to the response. */
  ghost function Emitted(fs: FileSystem, opts: Options, frames: seq<Frame>): seq<Item>
    requires frames != []
  {
    var s := Advance(fs, opts, frames[|frames| - 1]);
    if s.report.Done? && |frames| > 1 then [] else [s.report]
  }

  lemma StackedPush(pending: Frame -> seq<Item>, below: seq<Frame>, f: Frame)
    ensures Stacked(pending, below + [f]) == pending(f) + Stacked(pending, below)
  {
    assert (below + [f])[..|below|] == below;
  }

  /** Replacing the top frame by what a step leaves keeps exactly the rest pending. */
  lemma StackedReplaced(pending: Frame -> seq<Item>, opts: Options, below: seq<Frame>, s: Step)
    ensures Stacked(pending, Replaced(opts, below, s)) ==
            PendingAfter(pending, opts, s) + Stacked(pending, below)
  {
    StackedPush(pending, below, s.rest);
    if s.inner.Some? && opts.recursive {
      StackedPush(pending, below + [s.rest], s.inner.value);
      assert below + [s.rest, s.inner.value] == below + [s.rest] + [s.inner.value];
    }
  }

  lemma StepStackOk(fs: FileSystem, opts: Options, frames: seq<Frame>)
    requires StackOk(fs, opts, frames) && frames != []
    ensures StackOk(fs, opts, StepStack(fs, opts, frames))
  {
    AdvanceReportsNext(fs, opts, frames[|frames| - 1]);
  }

  /** The stack and the output after the top frame has taken step `s`. */
  lemma StackedStep(pending: Frame -> seq<Item>, opts: Options, frames: seq<Frame>, s: Step)
    requires frames != [] && Accounts(pending, opts, frames[|frames| - 1], s)
    ensures s.report.Done? ==> Stacked(pending, frames) == Stacked(pending, frames[..|frames| - 1])
    ensures !s.report.Done? ==>
              Stacked(pending, frames) == [s.report] + Stacked(pending, Replaced(opts, frames[..|frames| - 1], s))
  {
    var below := frames[..|frames| - 1];
    var under := Stacked(pending, below);
    if s.report.Done? {
      assert [] + under == under;
    } else {
      StackedReplaced(pending, opts, below, s);
      var after := PendingAfter(pending, opts, s);
      assert ([s.report] + after) + under == [s.report] + (after + under);
    }
  }

  /** The same with the closing `Done`. */
  lemma StreamStep(pending: Frame -> seq<Item>, opts: Options, frames: seq<Frame>, s: Step)
    requires frames != []
    requires s.report.Done? ==> Stacked(pending, frames) == Stacked(pending, frames[..|frames| - 1])
    requires !s.report.Done? ==>
               Stacked(pending, frames) == [s.report] + Stacked(pending, Replaced(opts, frames[..|frames| - 1], s))
    ensures var below := frames[..|frames| - 1];
            Stacked(pending, frames) + [Done] ==
            if !s.report.Done? then [s.report] + (Stacked(pending, Replaced(opts, below, s)) + [Done])
            else if below == [] then [s.report]
            else Stacked(pending, below) + [Done]
  {
  }

  /** A step of the stack machine moves the head of the stream to the output. */
  lemma StepStackEmits(fs: FileSystem, opts: Options, frames: seq<Frame>)
    requires StackOk(fs, opts, frames) && frames != []
    ensures Stream(fs, opts, frames) == Emitted(fs, opts, frames) + Stream(fs, opts, StepStack(fs, opts, frames))
  {
    var f := frames[|frames| - 1];
    assert Checker(fs, opts)(f);
    var s := Advance(fs, opts, f);
    AdvanceReportsNext(fs, opts, f);
    StackedStep(Reporter(fs, opts), opts, frames, s);
    StreamStep(Reporter(fs, opts), opts, frames, s);
  }
}
