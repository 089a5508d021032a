/**
 The pausable directory lister: a stack of entries linked by their parents, one
 shared path buffer, and a chain of heap-allocated nodes recording the symbolic
 links followed on the way to the top of the stack.
 */
module DirectoryListings {
  import opened Folding
  import opened Wrappers
  import opened FileSystems
  import opened ListingSpec
  import opened ListingState
  import opened PathBuffers

  class Entry {
    const parent: Entry?
    var lister: Lister
    var done: bool
    var pathLength: nat
    var link: LinkNode?

    ghost function Holds(): Cell
      reads this
    {
      Cell(lister, done, pathLength, link)
    }

    constructor (parent: Entry?)
      ensures this.parent == parent && Holds() == Cell(NoLister, false, 0, null)
    {
      this.parent := parent;
      lister := NoLister;
      done := false;
      link := null;
      pathLength := 0;
    }

    /**
     Deletes the node this entry put in front of its parent's chain, if any, and
     falls back to the parent's chain.  Only a live node may be deleted.
     */
    method ResetLink(ghost live: set<LinkNode>) returns (ghost remaining: set<LinkNode>)
      requires parent != this
      requires link != null && (parent == null || parent.link != link) ==> link in live
      modifies this`link
      ensures link == if parent == null then null else parent.link
      ensures remaining ==
              if old(link) != null && (parent == null || parent.link != old(link)) then live - {old(link)} else live
    {
      remaining := live;
      if link != null && (parent == null || parent.link != link) {
        remaining := remaining - {link};
        link := null;
      }
      if parent != null {
        link := parent.link;
      }
    }
  }

  /** A new buffer that holds the given path, if it fits. */
  method StartBuffer(dirName: string) returns (buffer: PathBuffer, ok: bool)
    requires '\0' !in dirName
    ensures fresh(buffer) && fresh(buffer.data) && buffer.Valid()
    ensures ok <==> |dirName| <= PATH_MAX
    ensures ok ==> buffer.Contents() == Stored(dirName) && buffer.Text() == Truncated(dirName)
  {
    buffer := new PathBuffer();
    ok := buffer.Add(dirName);
    assert "" + dirName == dirName;
  }

  class DirectoryListing {
    const fs: FileSystem
    const opts: Options
    const buffer: PathBuffer
    var top: Entry?
    var error: bool

    ghost var stack: seq<Entry>
    ghost var ledger: Ledger

    ghost predicate MirroredNow()
      requires |stack| == |ledger.cells|
      reads this, stack
    {
      var consistent :=
        && (forall i, j :: 0 <= i < j < |stack| ==> stack[i] != stack[j])
        && (forall i {:trigger stack[i].Holds()} :: 0 <= i < |stack| ==> stack[i].Holds() == ledger.cells[i])
        && (forall i {:trigger stack[i].parent} :: 0 <= i < |stack| ==> stack[i].parent == if i == 0 then null else stack[i - 1]);
      consistent
    }

    /** The linked entries are the stack, and they hold what the ledger says; kept folded. */
    ghost predicate Mirrored()
      reads this, stack
    {
      && |stack| == |ledger.cells| == |ledger.frames|
      && top == (if stack == [] then null else stack[|stack| - 1])
      && forall level: int {:trigger Look(level)} :: Look(level) && level == MIRROR_FOLD ==> MirroredNow()
    }

    ghost predicate Consistent()
      reads this, buffer, buffer.data, stack
    {
      var consistent :=
        && !error
        && buffer.Valid()
        && Mirrored()
        && LedgerOk(ledger)
        && Spelled(ledger.frames, buffer.Contents(), buffer.Text());
      consistent
    }

    /** The state is consistent; kept folded. */
    ghost predicate Valid()
      reads this, buffer, buffer.data, stack
      ensures Valid() ==>
                && buffer.Valid()
                && |stack| == |ledger.cells| == |ledger.frames|
                && top == (if stack == [] then null else stack[|stack| - 1])
    {
      assert Look(LISTING_FOLD);
      forall level: int {:trigger Look(level)} :: Look(level) && level == LISTING_FOLD ==> Consistent()
    }

    /** The top entry's frame. */
    ghost function Frame(): Frame
      requires stack != [] && |ledger.frames| == |stack|
      reads this
    {
      ledger.frames[|stack| - 1]
    }

    constructor (fs: FileSystem, opts: Options, dirName: string)
      requires '\0' !in dirName
      ensures this.fs == fs && this.opts == opts
      ensures fresh(buffer) && fresh(buffer.data) && fresh(stack)
      ensures error <==> |dirName| > PATH_MAX
      ensures !error ==> Valid() && ledger.frames == [Unopened(dirName, "", [])] && ledger.live == {}
    {
      this.fs := fs;
      this.opts := opts;
      var b, ok := StartBuffer(dirName);
      StartedOk(dirName);
      buffer := b;
      error := !ok;
      var e := new Entry(null);
      top := e;
      stack := [e];
      ledger := Started(dirName);
      new;
      assert Mirrored();
    }

    /** The top entry, its contents and its parent. */
    lemma TopMirrored()
      requires Mirrored() && stack != []
      ensures var n := |stack| - 1;
              && top == stack[n]
              && (forall i :: 0 <= i < n ==> stack[i] != top)
              && top.parent == (if n == 0 then null else stack[n - 1])
              && top.parent != top
              && top.Holds() == ledger.cells[n]
              && (top.parent != null ==> top.parent.Holds() == ledger.cells[n - 1])
              && (if top.parent == null then null else top.parent.link) == Base(ledger.cells, n)
    {
      assert Look(MIRROR_FOLD);
      var n := |stack| - 1;
      assert stack[n].parent == (if n == 0 then null else stack[n - 1]);
      assert stack[n].Holds() == ledger.cells[n];
      assert n > 0 ==> stack[n - 1].Holds() == ledger.cells[n - 1];
    }

    /** The stream of a top entry that is being read. */
    lemma TopOpen()
      requires Valid() && stack != [] && Frame().Reading?
      ensures var n := |stack| - 1;
              && top.lister == DirStream(Frame().dir, Frame().next) == ledger.cells[n].lister
              && Frame().chain == ChainOf(Base(ledger.cells, n))
    {
      assert Look(LISTING_FOLD);
      TopMirrored();
      TopReading(ledger);
    }

    /** After a change to the top entry alone, only that entry has to be compared again. */
    twostate lemma MirrorKept(new cell: Cell)
      requires old(Mirrored()) && stack == old(stack) != [] && top == old(top)
      requires forall i :: 0 <= i < |stack| - 1 ==> unchanged(stack[i])
      requires ledger.cells == old(ledger.cells)[|stack| - 1 := cell] && |ledger.frames| == |stack|
      requires stack[|stack| - 1].Holds() == cell
      ensures Mirrored()
    {
      assert Look(MIRROR_FOLD);
      forall i | 0 <= i < |stack| ensures stack[i].Holds() == ledger.cells[i] {
        if i < |stack| - 1 {
          assert stack[i].Holds() == old(stack[i].Holds()) == old(ledger.cells[i]);
        }
      }
      forall i | 0 <= i < |stack| ensures stack[i].parent == if i == 0 then null else stack[i - 1] {
        assert old(stack[i]).parent == old(if i == 0 then null else stack[i - 1]);
      }
    }

    // ----- one step of the top entry -----

    /** The top entry has nothing more to report. */
    method FinishTop()
      requires Valid() && stack != []
      modifies top`done, this`ledger
      ensures ledger == Finish(old(ledger))
      ensures Valid()
    {
      assert Look(LISTING_FOLD);
      FinishOk(ledger);
      TopMirrored();
      top.done := true;
      ledger := Finish(ledger);
      MirrorKept(top.Holds());
      SpelledGrown(old(ledger.frames), buffer.Contents(), buffer.Text(), ledger.frames, buffer.Contents(), buffer.Text());
    }

    /** Ends the path of a directory inside another one with a separator. */
    method AddSeparator(nested: bool, ghost path: string) returns (ok: bool)
      requires buffer.Valid() && buffer.Contents() == Stored(path)
      requires |path + if nested then "/" else ""| <= PATH_MAX
      modifies buffer`length, buffer.data
      ensures ok && buffer.Valid()
      ensures buffer.Contents() == Stored(path + if nested then "/" else "") && Stored(path) <= buffer.Contents()
    {
      ok := true;
      StoredGrows(path, if nested then "/" else "");
      assert path + "" == path;
      if nested {
        ok := buffer.Add("/");
      }
    }

    /** The top entry gets a directory stream. */
    method SetLister(d: DirId)
      requires Mirrored() && stack != []
      modifies top`lister, this`ledger
      ensures Mirrored()
      ensures ledger == old(ledger.(cells := ledger.cells[|stack| - 1 := ledger.cells[|stack| - 1].(lister := DirStream(d, 0))]))
    {
      TopMirrored();
      top.lister := DirStream(d, 0);
      ledger := ledger.(cells := ledger.cells[|stack| - 1 := top.Holds()]);
      MirrorKept(top.Holds());
    }

    /** The top entry, which has a stream now, saves the length of its directory's path. */
    method SavePath(d: DirId, ghost prefix: string, ghost l: Ledger)
      requires Mirrored() && stack != [] && buffer.length == |prefix|
      requires |l.cells| == |l.frames| == |stack| && l.frames[|stack| - 1].Unopened?
      requires ledger == l.(cells := l.cells[|stack| - 1 := l.cells[|stack| - 1].(lister := DirStream(d, 0))])
      modifies top`pathLength, this`ledger
      ensures Mirrored() && ledger == Opened(l, d, prefix)
    {
      ghost var n := |stack| - 1;
      TopMirrored();
      UpdatedTwice(l.cells, n, ledger.cells[n], Opened(l, d, prefix).cells[n]);
      top.pathLength := buffer.length;
      ledger := Opened(l, d, prefix);
      MirrorKept(top.Holds());
    }

    /** Saves the path of the directory that has just been opened. */
    method EnterTop(d: DirId) returns (ok: bool)
      requires Valid() && stack != [] && Frame().Unopened?
      requires |Frame().path + Frame().separator| <= PATH_MAX
      modifies top`lister, top`pathLength, this`ledger, buffer`length, buffer.data
      ensures ok
      ensures ledger == old(Opened(ledger, d, Frame().path + Frame().separator))
      ensures Valid()
    {
      assert Look(LISTING_FOLD);
      ghost var l, f := ledger, Frame();
      ghost var prefix := f.path + f.separator;
      ghost var contents, text := buffer.Contents(), buffer.Text();
      SpelledTop(l, contents, text);
      OpenedFits(l, d, contents, text);
      TopNested();
      SetLister(d);
      ok := AddSeparator(top.parent != null, f.path);
      if !ok {
        return;
      }
      SavePath(d, prefix, l);
      SpelledOpened(l, d, contents, text, buffer.Text());
      return true;
    }

    /** The top entry's path gets a separator exactly if it has a parent. */
    lemma TopNested()
      requires Mirrored() && LedgerOk(ledger) && stack != [] && Frame().Unopened?
      ensures Frame().separator == if top.parent == null then "" else "/"
    {
      TopMirrored();
      TopReading(ledger);
    }

    /** Opens the top entry's directory by the path in the buffer. */
    method OpenTop() returns (ok: bool)
      requires Valid() && stack != [] && Frame().Unopened?
      requires WellFormed(fs)
      requires CanOpen(fs, Truncated(Frame().path)) ==> |Frame().path + Frame().separator| <= PATH_MAX
      modifies top, this`ledger, buffer`length, buffer.data
      ensures ok == CanOpen(fs, old(Truncated(Frame().path)))
      ensures ok ==>
                ledger == old(Opened(ledger, DirAt(fs, Truncated(Frame().path)).value, Frame().path + Frame().separator))
      ensures !ok ==> ledger == old(Finish(ledger)) && buffer.Text() == old(Truncated(Frame().path))
      ensures Valid()
    {
      assert Look(LISTING_FOLD);
      SpelledTop(ledger, buffer.Contents(), buffer.Text());
      var path := buffer.AsString();
      if !CanOpen(fs, path) {
        FinishTop();
        return false;
      }
      ok := EnterTop(DirAt(fs, path).value);
    }

    /** Back to the path of the top entry's own directory. */
    method RewindPath()
      requires Valid() && stack != [] && Frame().Reading?
      modifies buffer`length, buffer.data
      ensures Valid()
      ensures buffer.Contents() == Stored(Frame().prefix)
      ensures '\0' !in Frame().prefix ==> buffer.Text() == Truncated(Frame().prefix)
    {
      assert Look(LISTING_FOLD);
      TopReading(ledger);
      TopMirrored();
      ghost var contents, text := buffer.Contents(), buffer.Text();
      SpelledTop(ledger, contents, text);
      assert Stored(Frame().prefix) == buffer.data[..top.pathLength];
      buffer.Reset(top.pathLength);
      SpelledCut(ledger, contents, text, buffer.Text());
    }

    /** Deletes the node that the top entry owns, if any. */
    method ResetTopLink()
      requires Mirrored() && LedgerOk(ledger) && stack != []
      modifies top`link, this`ledger
      ensures ledger == old(Relinked(ledger, Base(ledger.cells, |stack| - 1)))
      ensures top.link == old(Base(ledger.cells, |stack| - 1))
    {
      TopMirrored();
      OwnedIsLive(ledger);
      RelinkedToBase(ledger);
      ghost var live := top.ResetLink(ledger.live);
      ledger := Relinked(ledger, Base(ledger.cells, |stack| - 1));
      assert ledger.live == live;
    }

    /** Back to the link chain of the top entry's own directory. */
    method RewindLink()
      requires Valid() && stack != [] && Frame().Reading?
      modifies top`link, this`ledger
      ensures ledger == old(Relinked(ledger, Base(ledger.cells, |stack| - 1)))
      ensures Valid()
    {
      assert Look(LISTING_FOLD);
      ghost var n, l := |stack| - 1, ledger;
      ghost var base := Base(l.cells, n);
      TopMirrored();
      ResetTopLink();
      RelinkedOk(l, base);
      MirrorKept(top.Holds());
    }

    /** The top entry's stream moves on by one entry. */
    method AdvanceTop()
      requires Mirrored() && stack != [] && Frame().Reading? && ledger.cells[|stack| - 1].lister.DirStream?
      modifies top`lister, this`ledger
      ensures ledger == old(Advanced(ledger))
      ensures Mirrored()
    {
      TopMirrored();
      top.lister := top.lister.(pos := top.lister.pos + 1);
      ledger := Advanced(ledger);
      MirrorKept(top.Holds());
    }

    /** Appends a name to the path in the buffer. */
    method AddName(e: Dirent, ghost f: Frame, ghost path: string) returns (ok: bool)
      requires buffer.Valid() && f.Reading? && Joins(f, e, path)
      requires buffer.Contents() == Stored(f.prefix)
      requires '\0' !in f.prefix ==> buffer.Text() == Truncated(f.prefix)
      modifies buffer`length, buffer.data
      ensures buffer.Valid() && Stored(f.prefix) <= buffer.Contents()
      ensures ok <==> |path| <= PATH_MAX
      ensures buffer.Text() == Truncated(path)
      ensures ok ==> buffer.Contents() == Stored(path)
    {
      assert Look(PLAN_FOLD);
      ok := buffer.Add(e.name);
      if ok {
        StoredGrows(f.prefix, e.name);
      }
    }

    /** Takes the next entry off the stream and appends its name to the path. */
    method AppendName(e: Dirent, ghost path: string) returns (ok: bool)
      requires Valid() && stack != [] && Frame().Reading? && ledger.cells[|stack| - 1].lister.DirStream? && AtBase()
      requires Joins(Frame(), e, path) && buffer.Contents() == Stored(Frame().prefix)
      requires '\0' !in Frame().prefix ==> buffer.Text() == Truncated(Frame().prefix)
      modifies top`lister, this`ledger, buffer`length, buffer.data
      ensures Valid() && AtBase()
      ensures ledger.cells[|stack| - 1].link == old(ledger.cells[|stack| - 1].link)
      ensures Frame() == old(Frame()).(next := old(Frame()).next + 1)
      ensures ledger.frames == old(ledger.frames)[|stack| - 1 := Frame()]
      ensures ok <==> |path| <= PATH_MAX
      ensures buffer.Text() == Truncated(path)
      ensures ok ==> buffer.Contents() == Stored(path)
    {
      assert Look(LISTING_FOLD);
      ghost var l, f, contents, text := ledger, Frame(), buffer.Contents(), buffer.Text();
      AdvancedLinks(l);
      AdvanceTop();
      ok := AddName(e, f, path);
      SpelledAdvanced(l, contents, text, buffer.Contents(), buffer.Text());
    }

    /** Whether a link is already on the top entry's chain: the loop check. */
    method OnChain(id: LinkId) returns (found: bool)
      requires Valid() && stack != []
      ensures found <==> id in ChainOf(ledger.cells[|stack| - 1].link)
    {
      assert Look(LISTING_FOLD);
      ghost var n := |stack| - 1;
      LinkedAt(ledger, n);
      TopMirrored();
      var previous := top.link;
      if previous != null {
        ChainIsLive(ledger, n, previous);
      }
      while previous != null
        invariant previous != null ==> previous.Linked() && Reaches(top.link, previous) && previous in ledger.live
        invariant id in ChainOf(top.link) <==> id in ChainOf(previous)
        decreases |ChainOf(previous)|
      {
        ReachesNext(top.link, previous);
        if previous.next != null {
          ChainIsLive(ledger, n, previous.next);
        }
        if previous.id == id {
          return true;
        }
        previous := previous.next;
      }
      return false;
    }

    /** The top entry's chain, between reading an entry and deciding about it. */
    ghost predicate AtBase()
      requires Valid() && stack != []
      reads this, buffer, buffer.data, stack
    {
      ledger.cells[|stack| - 1].link == Base(ledger.cells, |stack| - 1)
    }

    /** Buffer and chain are those of the top entry's own directory; kept folded. */
    ghost predicate Rewound()
      requires Valid() && stack != [] && Frame().Reading?
      reads this, buffer, buffer.data, stack
    {
      forall level: int {:trigger Look(level)} :: Look(level) && level == REWIND_FOLD ==>
        && AtBase() && ChainOf(ledger.cells[|stack| - 1].link) == Frame().chain
        && buffer.Contents() == Stored(Frame().prefix)
        && ('\0' !in Frame().prefix ==> buffer.Text() == Truncated(Frame().prefix))
    }

    /** Only the top entry's chain has changed; it is now `chain`. */
    twostate predicate Extended(chain: seq<LinkId>)
      requires old(Valid()) && Valid() && stack != []
      reads this, buffer, buffer.data, stack
    {
      var n := |stack| - 1;
      var consistent :=
        && ledger.frames == old(ledger.frames)
        && Carries(ledger.cells, n, chain);
      consistent
    }

    /** Puts a followed link in front of the top entry's chain. */
    method FollowLink(id: LinkId)
      requires Valid() && stack != [] && Frame().Reading? && AtBase()
      modifies top`link, this`ledger
      ensures Valid()
      ensures Extended([id] + old(ChainOf(ledger.cells[|stack| - 1].link)))
    {
      assert Look(LISTING_FOLD);
      ghost var n, l := |stack| - 1, ledger;
      LinkedAt(l, n);
      TopMirrored();
      var node := new LinkNode(id, top.link);
      top.link := node;
      ledger := Relinked(l, node);
      RelinkedOk(l, node);
      MirrorKept(top.Holds());
    }

    method CallStat(path: string, ghost kind: Kind) returns (info: Option<Kind>)
      requires kind.SymLink? && Answers(fs, path, Some(kind))
      ensures info == match kind.target
                      case ToDirectory(d) => Some(Directory(d))
                      case ToFile => Some(Regular)
                      case ToSpecial => Some(Special)
                      case Broken => None
    {
      assert Look(STEP_FOLD);
      info := Stat(fs, path);
    }

    method CallLstat(path: string, ghost answer: Option<Kind>) returns (info: Option<Kind>)
      requires Answers(fs, path, answer)
      ensures info == answer
    {
      assert Look(STEP_FOLD);
      info := Answer(fs, path);
    }

    /** What to do with a link that is to be followed: looped or broken ones are reported. */
    method ResolveLink(path: string, ghost kind: Kind, id: LinkId) returns (o: Outcome)
      requires Valid() && stack != []
      requires kind.SymLink? && kind.id == id && Answers(fs, path, Some(kind))
      ensures o == OutcomeOf(Classify(Dirent(path, true, kind), ChainOf(ledger.cells[|stack| - 1].link), true))
    {
      var seen := OnChain(id);
      var info := CallStat(path, kind);
      if seen || info.None? {
        o := Report(ListLink);
      } else {
        o := match info.value
             case Directory(_) => Report(ListDirectory)
             case Regular => Report(ListFile)
             case _ => GiveUp;
      }
    }

    /** A link that is to be followed; one that leads to a directory joins the chain. */
    method InspectLink(path: string, ghost kind: Kind, id: LinkId) returns (o: Outcome)
      requires Valid() && stack != [] && Frame().Reading? && AtBase()
      requires kind.SymLink? && kind.id == id && Answers(fs, path, Some(kind))
      modifies top`link, this`ledger
      ensures Valid()
      ensures var v := Classify(Dirent(path, true, kind), old(ChainOf(ledger.cells[|stack| - 1].link)), true);
              o == OutcomeOf(v) && Followed(v)
    {
      o := ResolveLink(path, kind, id);
      if o == Report(ListDirectory) {
        FollowLink(id);
      }
    }

    /** What the top entry's chain was when a verdict was reached, and what it is now. */
    twostate predicate Followed(v: Verdict)
      requires old(Valid()) && Valid() && stack == old(stack) != []
      reads this, buffer, buffer.data, stack
    {
      Extended(if v.Descend? then v.chain else old(ChainOf(ledger.cells[|stack| - 1].link)))
    }

    /** The entry's type is found with `lstat`, and with `stat` behind a followed link. */
    method InspectByStat(e: Dirent, ghost answer: Option<Kind>) returns (o: Outcome)
      requires Valid() && stack != [] && Frame().Reading? && AtBase()
      requires Answers(fs, buffer.Text(), answer)
      requires answer.Some? && answer.value.SymLink? ==> !e.IsDot()
      modifies top`link, this`ledger
      ensures Valid()
      ensures var v := JudgeBy(answer, opts, e, old(ChainOf(ledger.cells[|stack| - 1].link)));
              o == OutcomeOf(v) && Followed(v)
    {
      var path := buffer.AsString();
      var info := CallLstat(path, answer);
      if info.None? {
        o := Report(ListError);
      } else if opts.followLinks && info.value.SymLink? {
        o := InspectLink(path, info.value, info.value.id);
      } else {
        o := match info.value
             case Directory(_) => if e.IsDot() then PassOver else Report(ListDirectory)
             case Regular => Report(ListFile)
             case SymLink(_, _) => Report(ListLink)
             case Special => GiveUp;
      }
    }

    /** The switch over one directory entry. */
    method Inspect(e: Dirent, ghost path: string, ghost v: Verdict) returns (o: Outcome)
      requires Valid() && stack != [] && Frame().Reading? && AtBase()
      requires buffer.Text() == Truncated(path)
      requires Sighted(fs, opts, e, path, ChainOf(ledger.cells[|stack| - 1].link), v)
      modifies top`link, this`ledger
      ensures Valid()
      ensures o == OutcomeOf(v) && Followed(v)
    {
      assert Look(STEP_FOLD);
      if e.typeKnown && e.kind.Directory? {
        o := if e.IsDot() then PassOver else Report(ListDirectory);
      } else if e.typeKnown && e.kind.Regular? {
        o := Report(ListFile);
      } else if e.typeKnown && e.kind.SymLink? && !opts.followLinks {
        o := Report(ListLink);
      } else if e.typeKnown && e.kind.Special? {
        o := GiveUp;
      } else {
        o := InspectByStat(e, Seen(fs, e, path));
      }
    }

    /** The state after an entry of the top entry's directory has been taken, from frames `frames`. */
    ghost predicate TookNow(frames: seq<Frame>, path: string, v: Verdict, o: Outcome)
      requires Valid()
      reads this, buffer, buffer.data, stack
    {
      var n := |stack| - 1;
      var took :=
        && n >= 0 && |frames| == n + 1 && frames[n].Reading?
        && buffer.Text() == Truncated(path)
        && (if |path| > PATH_MAX then o == Report(ListError) && ledger.frames == frames[n := Finished]
            else
              && o == OutcomeOf(v)
              && buffer.Contents() == Stored(path)
              && ledger.frames == frames[n := if v.Stop? then Finished else frames[n].(next := frames[n].next + 1)]
              && (v.Descend? ==> Carries(ledger.cells, n, v.chain)));
      took
    }

    /** The same, kept folded. */
    ghost predicate Took(frames: seq<Frame>, path: string, v: Verdict, o: Outcome)
      requires Valid()
      reads this, buffer, buffer.data, stack
    {
      forall level: int {:trigger Look(level)} :: Look(level) && level == TAKING_FOLD ==> TookNow(frames, path, v, o)
    }

    /** The name of an entry that has been read did not fit. */
    method Refuse(ghost frames: seq<Frame>, ghost path: string, ghost v: Verdict) returns (o: Outcome)
      requires Valid() && stack != [] && |frames| == |stack| && frames[|stack| - 1].Reading?
      requires ledger.frames == frames[|stack| - 1 := Frame()]
      requires |path| > PATH_MAX && buffer.Text() == Truncated(path)
      modifies top`done, this`ledger
      ensures Valid() && Took(frames, path, v, o)
    {
      UpdatedTwice(frames, |stack| - 1, Frame(), Finished);
      FinishTop();
      o := Report(ListError);
    }

    /** The name of an entry that has been read did fit: it is looked at, and the directory given up
        where there is nothing it could be. */
    method Accept(e: Dirent, ghost frames: seq<Frame>, ghost path: string, ghost v: Verdict) returns (o: Outcome)
      requires Valid() && stack != [] && |frames| == |stack| && frames[|stack| - 1].Reading? && AtBase()
      requires Frame() == frames[|stack| - 1].(next := frames[|stack| - 1].next + 1)
      requires ledger.frames == frames[|stack| - 1 := Frame()]
      requires |path| <= PATH_MAX && buffer.Text() == Truncated(path) && buffer.Contents() == Stored(path)
      requires Sighted(fs, opts, e, path, ChainOf(ledger.cells[|stack| - 1].link), v)
      modifies top, this`ledger
      ensures Valid() && Took(frames, path, v, o)
    {
      ghost var n, next := |stack| - 1, Frame();
      o := Inspect(e, path, v);
      if o.GiveUp? {
        UpdatedTwice(frames, n, next, Finished);
        FinishTop();
      }
    }

    /** Takes the next entry off the stream and looks at it, unless its name does not fit. */
    method TakeEntry(e: Dirent, ghost path: string, ghost v: Verdict) returns (o: Outcome)
      requires Valid() && stack != [] && Frame().Reading? && Rewound()
      requires Joins(Frame(), e, path)
      requires |path| <= PATH_MAX ==> Sighted(fs, opts, e, path, Frame().chain, v)
      modifies top, this`ledger, buffer`length, buffer.data
      ensures Valid() && Took(old(ledger.frames), path, v, o)
    {
      ghost var frames := ledger.frames;
      assert Look(REWIND_FOLD);
      TopOpen();
      var ok := AppendName(e, path);
      if ok {
        o := Accept(e, frames, path, v);
      } else {
        o := Refuse(frames, path, v);
      }
    }

    /** The state after step `s` of the top entry has been returned as type `t`. */
    ghost predicate Shows(s: Step, t: ListType)
      requires Valid()
      reads this, buffer, buffer.data, stack
    {
      var shown :=
        && stack != []
        && t == TypeOf(s.report)
        && Frame() == s.rest
        && (!s.report.Done? ==> buffer.Text() == s.report.path)
        && (s.inner.Some? && s.inner.value.Unopened? ==>
              && buffer.Contents() == Stored(s.inner.value.path)
              && Carries(ledger.cells, |stack| - 1, s.inner.value.chain));
      shown
    }

    /** One entry has been read, from frames `frames`: it was passed over, or shows step `s`. */
    ghost predicate Went(frames: seq<Frame>, s: Step, passed: bool, t: ListType)
      requires Valid()
      reads this, buffer, buffer.data, stack
    {
      var n := |stack| - 1;
      var went :=
        && n >= 0 && |frames| == n + 1 && ledger.frames[..n] == frames[..n]
        && (if passed then
              && frames[n].Reading? && Frame() == frames[n].(next := frames[n].next + 1)
              && Takes(fs, opts, Frame(), s)
            else Shows(s, t));
      went
    }

    lemma TookWent(frames: seq<Frame>, f: Frame, path: string, v: Verdict, o: Outcome, s: Step)
      requires Valid() && Took(frames, path, v, o) && frames != [] && f == frames[|frames| - 1] && f.Reading?
      requires StepFollows(f, path, v, s)
      requires |path| <= PATH_MAX && v.Skip? ==> Takes(fs, opts, f.(next := f.next + 1), s)
      ensures Went(frames, s, o.PassOver?, if o.Report? then o.listType else ListDone)
    {
      TookBelow(frames, path, v, o);
      if o.PassOver? {
        TookOver(frames, path, v);
      } else {
        TookShows(frames, path, v, o, s, if o.Report? then o.listType else ListDone);
      }
    }

    lemma TookBelow(frames: seq<Frame>, path: string, v: Verdict, o: Outcome)
      requires Valid() && Took(frames, path, v, o)
      ensures stack != [] && |frames| == |stack| && ledger.frames[..|stack| - 1] == frames[..|stack| - 1]
    {
      assert Look(TAKING_FOLD);
    }

    lemma TookOver(frames: seq<Frame>, path: string, v: Verdict)
      requires Valid() && Took(frames, path, v, PassOver) && stack != [] && |frames| == |stack|
      ensures |path| <= PATH_MAX && v.Skip?
      ensures var f := frames[|stack| - 1]; f.Reading? && Frame() == f.(next := f.next + 1)
    {
      assert Look(TAKING_FOLD);
    }

    lemma TookShows(frames: seq<Frame>, path: string, v: Verdict, o: Outcome, s: Step, t: ListType)
      requires Valid() && Took(frames, path, v, o) && !o.PassOver? && t == if o.Report? then o.listType else ListDone
      requires stack != [] && |frames| == |stack| && StepFollows(frames[|stack| - 1], path, v, s)
      ensures Shows(s, t)
    {
      assert Look(TAKING_FOLD);
      if |path| <= PATH_MAX {
        match v
        case Stop =>
        case ReportFile =>
        case ReportLink =>
        case ReportError =>
        case Descend(_, _) =>
      }
    }

    /** Back to the top entry's own directory, before the next entry is read. */
    method Rewind()
      requires Valid() && stack != [] && Frame().Reading?
      modifies top`link, this`ledger, buffer`length, buffer.data
      ensures Valid() && ledger.frames == old(ledger.frames)
      ensures Rewound()
    {
      TopOpen();
      RewindPath();
      RewindLink();
    }

    /** There is no further entry, or reading it failed. */
    method EndOfEntries(torn: bool, ghost s: Step) returns (t: ListType)
      requires Valid() && stack != []
      requires Frame().Reading? && Rewound() && '\0' !in Frame().prefix
      requires s == Step(if torn then Error(Truncated(Frame().prefix)) else Done, Finished, None)
      modifies top`done, this`ledger
      ensures Valid() && Went(old(ledger.frames), s, false, t)
    {
      assert Look(REWIND_FOLD);
      FinishTop();
      t := if torn then ListError else ListDone;
    }

    /** Takes the next entry of the top entry's directory: a dot is passed over, any other shows step `s`. */
    method TakeNext(e: Dirent, ghost s: Step) returns (passed: bool, t: ListType)
      requires Valid() && stack != [] && Frame().Reading? && Rewound()
      requires Takes(fs, opts, Frame(), s)
      requires Frame().dir < |fs.dirs| && Frame().next < |fs.dirs[Frame().dir].entries|
      requires e == fs.dirs[Frame().dir].entries[Frame().next]
      modifies top, this`ledger, buffer`length, buffer.data
      ensures Valid() && Went(old(ledger.frames), s, passed, t)
    {
      ghost var f, frames := Frame(), ledger.frames;
      ghost var path := f.prefix + e.name;
      ghost var v := StepOfEntry(fs, opts, f, s);
      var o := TakeEntry(e, path, v);
      TookWent(frames, f, path, v, o, s);
      passed, t := o.PassOver?, if o.Report? then o.listType else ListDone;
    }

    /** Reads one entry of the top entry's open directory; a dot is passed over. */
    method ReadEntry(ghost s: Step) returns (passed: bool, t: ListType)
      requires Valid() && stack != [] && Frame().Reading?
      requires Takes(fs, opts, Frame(), s)
      modifies top, this`ledger, buffer`length, buffer.data
      ensures Valid() && Went(old(ledger.frames), s, passed, t)
      ensures passed ==> old(Frame().dir) < |fs.dirs| && old(Frame().next) < |fs.dirs[old(Frame().dir)].entries|
    {
      ghost var f := Frame();
      TopOpen();
      var lister := top.lister;
      StepAtEnd(fs, opts, f, s);
      Rewind();
      if lister.pos == |fs.dirs[lister.dir].entries| {
        t := EndOfEntries(fs.dirs[lister.dir].torn, s);
        return false, t;
      }
      var e := fs.dirs[lister.dir].entries[lister.pos];
      passed, t := TakeNext(e, s);
    }

    /** Reads on in the top entry's open directory. */
    method NextEntry(ghost s: Step) returns (t: ListType)
      requires Valid() && stack != [] && Frame().Reading?
      requires Takes(fs, opts, Frame(), s)
      modifies top, this`ledger, buffer`length, buffer.data
      ensures Valid()
      ensures ledger.frames[..|stack| - 1] == old(ledger.frames)[..|stack| - 1]
      ensures Shows(s, t)
      decreases if Frame().dir < |fs.dirs| then |fs.dirs[Frame().dir].entries| - Frame().next else 0
    {
      var passed;
      passed, t := ReadEntry(s);
      if passed {
        t := NextEntry(s);
      }
    }

    /** One step of the entry on top of the stack. */
    method Next(ghost s: Step) returns (t: ListType)
      requires Valid() && stack != []
      requires Takes(fs, opts, Frame(), s)
      modifies top, this`ledger, buffer`length, buffer.data
      ensures Valid()
      ensures ledger.frames[..|stack| - 1] == old(ledger.frames)[..|stack| - 1]
      ensures Shows(s, t)
    {
      TopStatus();
      if top.done {
        StepOfFinished(fs, opts, s);
        return ListDone;
      }
      if top.lister.NoLister? {
        StepOfUnopened(fs, opts, Frame(), s);
        var ok := OpenTop();
        if !ok {
          return ListError;
        }
      }
      t := NextEntry(s);
    }

    /** Whether the top entry is finished, open or not yet open. */
    lemma TopStatus()
      requires Valid() && stack != []
      ensures top.done <==> Frame().Finished?
      ensures !top.done ==> (top.lister.NoLister? <==> Frame().Unopened?)
    {
      assert Look(LISTING_FOLD);
      TopMirrored();
      TopReading(ledger);
    }

    // ----- the stack -----

    /** Links a new entry on top of the stack. */
    method LinkEntry(ghost path: string, ghost chain: seq<LinkId>)
      requires Mirrored() && stack != []
      modifies this`top, this`stack, this`ledger
      ensures Mirrored()
      ensures ledger == old(Pushed(ledger, path, chain))
      ensures |stack| == |old(stack)| + 1 && stack[..|old(stack)|] == old(stack) && fresh(stack[|old(stack)|])
    {
      assert Look(MIRROR_FOLD);
      var e := new Entry(top);
      ghost var below := stack;
      top := e;
      stack := stack + [e];
      ledger := Pushed(ledger, path, chain);
      forall i | 0 <= i < |stack| ensures stack[i].Holds() == ledger.cells[i] {
        if i < |below| {
          assert below[i].Holds() == old(below[i].Holds()) == old(ledger.cells[i]);
        }
      }
      forall i | 0 <= i < |stack| ensures stack[i].parent == if i == 0 then null else stack[i - 1] {
        if i < |below| {
          assert below[i].parent == if i == 0 then null else below[i - 1];
        }
      }
    }

    /** An entry for the sub-directory that the top entry has just reported. */
    method Push(ghost path: string, ghost chain: seq<LinkId>)
      requires Valid() && stack != [] && Frame().Reading?
      requires Carries(ledger.cells, |stack| - 1, chain)
      requires buffer.Contents() == Stored(path) && buffer.Text() == Truncated(path)
      modifies this`top, this`stack, this`ledger
      ensures Valid()
      ensures ledger == old(Pushed(ledger, path, chain))
      ensures |stack| == |old(stack)| + 1 && stack[..|old(stack)|] == old(stack) && fresh(stack[|old(stack)|])
    {
      assert Look(LISTING_FOLD);
      PushedOk(ledger, path, chain);
      SpelledPushed(ledger, path, chain);
      LinkEntry(path, chain);
    }

    /** Takes the top entry off the stack. */
    method UnlinkEntry()
      requires Mirrored() && LedgerOk(ledger) && stack != []
      modifies this`top, this`stack, this`ledger, top`link
      ensures Mirrored()
      ensures ledger == old(Popped(ledger))
      ensures stack == old(stack)[..|old(stack)| - 1]
    {
      TopMirrored();
      OwnedIsLive(ledger);
      ghost var before := stack;
      var current := top;
      top := top.parent;
      ghost var live := current.ResetLink(ledger.live);
      stack := stack[..|stack| - 1];
      ledger := Popped(ledger);
      assert ledger.live == live;
      MirrorShorter(before);
    }

    /** Without its top entry the stack is mirrored as before. */
    twostate lemma MirrorShorter(before: seq<Entry>)
      requires old(Mirrored()) && before == old(stack) != []
      requires stack == before[..|before| - 1] && forall i :: 0 <= i < |stack| ==> unchanged(before[i])
      requires ledger.cells == old(ledger.cells)[..|stack|] && |ledger.frames| == |stack|
      requires top == before[|stack|].parent
      ensures Mirrored()
    {
      assert Look(MIRROR_FOLD);
      forall i | 0 <= i < |stack| ensures stack[i].Holds() == ledger.cells[i] {
        assert before[i].Holds() == old(before[i].Holds()) == old(ledger.cells[i]);
      }
      forall i | 0 <= i < |stack| ensures stack[i].parent == if i == 0 then null else stack[i - 1] {
        assert before[i].parent == if i == 0 then null else before[i - 1];
      }
      assert before[|stack|].parent == if |stack| == 0 then null else before[|stack| - 1];
    }

    /** Removes the top entry and deletes the link node it owns. */
    method Pop()
      requires Valid() && stack != []
      modifies this`top, this`stack, this`ledger, top`link
      ensures Valid()
      ensures ledger == old(Popped(ledger))
      ensures stack == old(stack)[..|old(stack)| - 1]
    {
      assert Look(LISTING_FOLD);
      PoppedOk(ledger);
      SpelledPopped(ledger, buffer.Contents(), buffer.Text());
      UnlinkEntry();
    }

    /** The destructor: whatever was on the stack, every link node is deleted. */
    method Destroy()
      requires Valid()
      modifies this`top, this`stack, this`ledger, stack
      ensures Valid() && stack == [] && ledger.live == {}
    {
      while top != null
        invariant Valid()
        invariant |stack| <= |old(stack)| && stack == old(stack)[..|stack|]
        decreases |stack|
      {
        Pop();
      }
      assert Look(LISTING_FOLD);
      NothingLive(ledger);
    }
  }
}
