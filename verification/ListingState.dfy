/**
 The bookkeeping of a directory listing in progress: what the entries on the
 stack hold, what they still have to report, and which link nodes are alive.
 */
module ListingState {
  import opened Folding
  import opened Wrappers
  import opened FileSystems
  import opened ListingSpec

  /** A followed symbolic link.  `chain` is the list of links from here down. */
  class LinkNode {
    const id: LinkId
    const next: LinkNode?
    ghost const chain: seq<LinkId>

    ghost predicate Linked()
      decreases |chain|
    {
      && chain == [id] + ChainOf(next)
      && (next != null ==> next.Linked())
    }

    constructor (id: LinkId, next: LinkNode?)
      requires next != null ==> next.Linked()
      ensures this.id == id && this.next == next && Linked()
    {
      this.id := id;
      this.next := next;
      this.chain := [id] + ChainOf(next);
    }
  }

  ghost function ChainOf(node: LinkNode?): seq<LinkId> {
    if node == null then [] else node.chain
  }

  /** A directory stream of the operating system. */
  datatype Lister = NoLister | DirStream(dir: DirId, pos: nat)

  datatype ListType = ListFile | ListDirectory | ListLink | ListError | ListDone

  function TypeOf(report: Item): ListType {
    match report
    case File(_) => ListFile
    case Dir(_) => ListDirectory
    case Link(_) => ListLink
    case Error(_) => ListError
    case Done => ListDone
  }

  /** What looking at one entry comes to: report it, pass over it, or give up. */
  datatype Outcome = Report(listType: ListType) | PassOver | GiveUp

  function OutcomeOf(v: Verdict): Outcome {
    match v
    case Skip => PassOver
    case ReportFile => Report(ListFile)
    case ReportLink => Report(ListLink)
    case ReportError => Report(ListError)
    case Descend(_, _) => Report(ListDirectory)
    case Stop => GiveUp
  }

  /** What one entry of the stack holds. */
  datatype Cell = Cell(lister: Lister, done: bool, pathLength: nat, link: LinkNode?)

  /** The stack from the bottom up, what each entry stands for, and the live nodes. */
  datatype Ledger = Ledger(cells: seq<Cell>, frames: seq<Frame>, live: set<LinkNode>)

  /** The chain that the i-th entry inherits: its parent's. */
  function Base(cells: seq<Cell>, i: nat): LinkNode?
    requires i < |cells|
  {
    if i == 0 then null else cells[i - 1].link
  }

  /** The i-th entry has put a node of its own in front of its parent's chain. */
  predicate Owns(cells: seq<Cell>, i: nat)
    requires i < |cells|
  {
    cells[i].link != null && cells[i].link != Base(cells, i)
  }

  function OwnedUnder(cells: seq<Cell>, n: nat): set<LinkNode>
    requires n <= |cells|
  {
    set i | 0 <= i < n && Owns(cells, i) :: cells[i].link
  }

  /** What is owned depends on the links alone. */
  lemma SameOwned(a: seq<Cell>, b: seq<Cell>, n: nat)
    requires n <= |a| && n <= |b| && forall i :: 0 <= i < n ==> a[i].link == b[i].link
    ensures OwnedUnder(a, n) == OwnedUnder(b, n)
  {
    forall i | 0 <= i < n ensures Owns(a, i) == Owns(b, i) {
      assert Base(a, i) == Base(b, i);
    }
    assert OwnedUnder(a, n) <= OwnedUnder(b, n) && OwnedUnder(b, n) <= OwnedUnder(a, n);
  }

  /** The entry's chain is its parent's chain, with at most one node in front. */
  ghost predicate Chained(cells: seq<Cell>, i: nat)
    requires i < |cells|
  {
    var link := cells[i].link;
    link == Base(cells, i) || (link != null && link.Linked() && link.next == Base(cells, i))
  }

  /** The entry's chain is `chain`, its parent's with at most one node in front; kept folded. */
  ghost predicate Carries(cells: seq<Cell>, i: nat, chain: seq<LinkId>)
    requires i < |cells|
  {
    forall level: int {:trigger Look(level)} :: Look(level) && level == CHAIN_FOLD ==>
      Chained(cells, i) && ChainOf(cells[i].link) == chain
  }

  ghost predicate CellOk(cells: seq<Cell>, frames: seq<Frame>, i: nat)
    requires i < |cells| == |frames|
  {
    var c := cells[i];
    && (Chained(cells, i) || (i == |cells| - 1 && c.link == null))
    && match frames[i]
       case Finished => c.done
       case Unopened(_, separator, chain) =>
         && !c.done && c.lister.NoLister? && c.link == null
         && separator == (if i == 0 then "" else "/")
         && chain == ChainOf(Base(cells, i))
       case Reading(d, next, prefix, chain) =>
         && !c.done && c.lister == DirStream(d, next)
         && c.pathLength == |prefix| <= PATH_MAX
         && chain == ChainOf(Base(cells, i))
  }

  /** Saved path lengths do not decrease up the stack. */
  ghost predicate Nested(cells: seq<Cell>, frames: seq<Frame>)
    requires |cells| == |frames|
  {
    forall i, j :: 0 <= i < j < |cells| && frames[i].Reading? && frames[j].Reading? ==>
      cells[i].pathLength <= cells[j].pathLength
  }

  /** Live link nodes are exactly those that some stacked entry owns. */
  ghost predicate LedgerNow(l: Ledger)
    requires |l.cells| == |l.frames|
  {
    // Naming the conjunction lets the verifier carry it around as one fact.
    var consistent :=
      && (forall i :: 0 <= i < |l.frames| - 1 ==> l.frames[i].Reading?)
      && (forall i :: 0 <= i < |l.cells| ==> CellOk(l.cells, l.frames, i))
      && Nested(l.cells, l.frames)
      && l.live == OwnedUnder(l.cells, |l.cells|);
    consistent
  }

  /** The ledger is in order; kept folded. */
  ghost predicate LedgerOk(l: Ledger) {
    && |l.cells| == |l.frames|
    && forall level: int {:trigger Look(level)} :: Look(level) && level == LEDGER_FOLD ==> LedgerNow(l)
  }

  /** The buffer starts with the path of every open directory on the stack. */
  ghost predicate SpelledNow(frames: seq<Frame>, contents: string, text: string) {
    && (forall i :: 0 <= i < |frames| && frames[i].Reading? ==> Stored(frames[i].prefix) <= contents)
    && (frames != [] && frames[|frames| - 1].Unopened? ==>
          contents == Stored(frames[|frames| - 1].path) && text == Truncated(frames[|frames| - 1].path))
  }

  /** The same, kept folded. */
  ghost predicate Spelled(frames: seq<Frame>, contents: string, text: string) {
    forall level: int {:trigger Look(level)} :: Look(level) && level == SPELLING_FOLD ==>
      SpelledNow(frames, contents, text)
  }

  /** What the buffer holds of the top entry's path. */
  lemma SpelledTop(l: Ledger, contents: string, text: string)
    requires LedgerOk(l) && l.frames != [] && Spelled(l.frames, contents, text)
    ensures match l.frames[|l.frames| - 1]
            case Finished => true
            case Unopened(path, _, _) => contents == Stored(path) && text == Truncated(path)
            case Reading(_, _, prefix, _) =>
              Stored(prefix) <= contents && |Stored(prefix)| == |prefix| <= PATH_MAX
  {
    assert Look(SPELLING_FOLD);
    TopReading(l);
  }

  // ----- the chain of followed links -----

  lemma {:induction false} StackedLinked(cells: seq<Cell>, frames: seq<Frame>, i: nat)
    requires i < |cells| == |frames|
    requires forall k :: 0 <= k < |cells| ==> CellOk(cells, frames, k)
    ensures cells[i].link != null ==> cells[i].link.Linked()
  {
    assert CellOk(cells, frames, i);
    if cells[i].link != null && i > 0 && cells[i].link == Base(cells, i) {
      StackedLinked(cells, frames, i - 1);
    }
  }

  lemma LinkedAt(l: Ledger, i: nat)
    requires LedgerOk(l) && i < |l.cells|
    ensures l.cells[i].link != null ==> l.cells[i].link.Linked()
  {
    assert Look(LEDGER_FOLD);
    StackedLinked(l.cells, l.frames, i);
  }

  lemma NothingLive(l: Ledger)
    requires LedgerOk(l) && l.cells == []
    ensures l.live == {}
  {
    assert Look(LEDGER_FOLD);
  }

  /** Chains do not get shorter up the stack. */
  lemma {:induction false} ChainsGrow(cells: seq<Cell>, frames: seq<Frame>, i: nat, j: nat)
    requires i <= j < |cells| - 1 && |cells| == |frames|
    requires forall k :: 0 <= k < |cells| ==> CellOk(cells, frames, k)
    ensures |ChainOf(cells[i].link)| <= |ChainOf(cells[j].link)|
  {
    if i >= j {
    } else {
      assert CellOk(cells, frames, j);
      ChainsGrow(cells, frames, i, j - 1);
    }
  }

  /** No two stacked entries own the same node. */
  lemma OwnedOnce(l: Ledger, i: nat, j: nat)
    requires LedgerOk(l) && i < j < |l.cells|
    requires Owns(l.cells, i) && Owns(l.cells, j)
    ensures l.cells[i].link != l.cells[j].link
  {
    assert Look(LEDGER_FOLD);
    ChainsGrow(l.cells, l.frames, i, j - 1);
    assert CellOk(l.cells, l.frames, j);
  }

  /** Every node reachable from a stacked entry is live. */
  lemma {:induction false} ChainIsLive(l: Ledger, i: nat, node: LinkNode)
    requires LedgerOk(l) && i < |l.cells|
    requires Reaches(l.cells[i].link, node)
    ensures node in l.live
    decreases i
  {
    assert Look(LEDGER_FOLD);
    assert CellOk(l.cells, l.frames, i);
    StackedLinked(l.cells, l.frames, i);
    if l.cells[i].link == Base(l.cells, i) {
      ChainIsLive(l, i - 1, node);
    } else {
      assert Owns(l.cells, i) && l.cells[i].link in l.live;
      if node != l.cells[i].link {
        ChainIsLive(l, i - 1, node);
      }
    }
  }

  /** `node` is on the chain that starts at `link`. */
  ghost predicate Reaches(link: LinkNode?, node: LinkNode)
    decreases |ChainOf(link)|
  {
    link != null && link.Linked() && (link == node || Reaches(link.next, node))
  }

  /** The nodes behind a node of a chain are on that chain. */
  lemma {:induction false} ReachesNext(link: LinkNode?, node: LinkNode)
    requires Reaches(link, node) && node.Linked()
    ensures node.next != null ==> Reaches(link, node.next)
    decreases |ChainOf(link)|
  {
    if link == node {
    } else {
      ReachesNext(link.next, node);
    }
  }

  lemma UpdatedTwice<T>(s: seq<T>, n: nat, a: T, b: T)
    requires n < |s|
    ensures s[n := a][n := b] == s[n := b]
  {
  }

  // ----- what the steps of the lister do to the ledger -----

  function Started(path: string): Ledger {
    Ledger([Cell(NoLister, false, 0, null)], [Unopened(path, "", [])], {})
  }

  lemma StartedOk(path: string)
    ensures LedgerOk(Started(path)) && Spelled(Started(path).frames, Stored(path), Truncated(path))
  {
    assert forall i :: 0 <= i < 1 ==> !Owns(Started(path).cells, i);
  }

  function Finish(l: Ledger): Ledger
    requires l.cells != [] && |l.cells| == |l.frames|
  {
    var n := |l.cells| - 1;
    l.(cells := l.cells[n := l.cells[n].(done := true)], frames := l.frames[n := Finished])
  }

  lemma FinishOk(l: Ledger)
    requires LedgerOk(l) && l.cells != []
    ensures LedgerOk(Finish(l))
  {
    assert Look(LEDGER_FOLD);
    var m, n := Finish(l), |l.cells| - 1;
    forall i | 0 <= i <= n ensures CellOk(m.cells, m.frames, i) {
      assert CellOk(l.cells, l.frames, i);
    }
    SameOwned(m.cells, l.cells, n + 1);
  }

  /** The top entry's directory `d` has been opened under the path `prefix`. */
  function Opened(l: Ledger, d: DirId, prefix: string): Ledger
    requires l.cells != [] && |l.cells| == |l.frames| && l.frames[|l.cells| - 1].Unopened?
  {
    var n := |l.cells| - 1;
    l.(cells := l.cells[n := l.cells[n].(lister := DirStream(d, 0), pathLength := |prefix|)],
       frames := l.frames[n := Reading(d, 0, prefix, l.frames[n].chain)])
  }

  lemma OpenedOk(l: Ledger, d: DirId, prefix: string)
    requires LedgerOk(l) && l.cells != [] && l.frames[|l.cells| - 1].Unopened?
    requires |prefix| <= PATH_MAX
    requires forall i :: 0 <= i < |l.frames| && l.frames[i].Reading? ==> |l.frames[i].prefix| <= |prefix|
    ensures LedgerOk(Opened(l, d, prefix))
  {
    assert Look(LEDGER_FOLD);
    var m, n := Opened(l, d, prefix), |l.cells| - 1;
    forall i | 0 <= i <= n ensures CellOk(m.cells, m.frames, i) {
      assert CellOk(l.cells, l.frames, i);
    }
    SameOwned(m.cells, l.cells, n + 1);
    forall i | 0 <= i < n && l.frames[i].Reading? ensures m.cells[i].pathLength == |l.frames[i].prefix| {
      assert CellOk(l.cells, l.frames, i);
    }
  }

  /** The next entry of the top entry's directory has been read. */
  function Advanced(l: Ledger): Ledger
    requires l.cells != [] && |l.cells| == |l.frames|
    requires l.frames[|l.cells| - 1].Reading? && l.cells[|l.cells| - 1].lister.DirStream?
  {
    var n := |l.cells| - 1;
    var c, f := l.cells[n], l.frames[n];
    l.(cells := l.cells[n := c.(lister := c.lister.(pos := c.lister.pos + 1))],
       frames := l.frames[n := f.(next := f.next + 1)])
  }

  lemma TopReading(l: Ledger)
    requires LedgerOk(l) && l.cells != []
    ensures var n := |l.cells| - 1;
            && CellOk(l.cells, l.frames, n)
            && (l.frames[n].Reading? ==> l.cells[n].lister == DirStream(l.frames[n].dir, l.frames[n].next))
  {
    assert Look(LEDGER_FOLD);
  }

  lemma AdvancedOk(l: Ledger)
    requires LedgerOk(l) && l.cells != [] && l.frames[|l.cells| - 1].Reading?
    requires l.cells[|l.cells| - 1].lister.DirStream?
    ensures LedgerOk(Advanced(l))
  {
    assert Look(LEDGER_FOLD);
    var m, n := Advanced(l), |l.cells| - 1;
    forall i | 0 <= i <= n
      ensures CellOk(m.cells, m.frames, i)
    {
      assert CellOk(l.cells, l.frames, i);
    }
    SameOwned(m.cells, l.cells, n + 1);
    assert forall i :: 0 <= i <= n ==> m.cells[i].pathLength == l.cells[i].pathLength;
  }

  /** The top entry's link is replaced; its own node, if any, is deleted or replaced. */
  function Relinked(l: Ledger, link: LinkNode?): Ledger
    requires l.cells != []
  {
    var n := |l.cells| - 1;
    var cells := l.cells[n := l.cells[n].(link := link)];
    var kept := if Owns(l.cells, n) then l.live - {l.cells[n].link} else l.live;
    l.(cells := cells, live := kept + if Owns(cells, n) then {link} else {})
  }

  /** Falling back to the parent's chain frees the top entry's own node and no other. */
  lemma RelinkedToBase(l: Ledger)
    requires l.cells != []
    ensures var n := |l.cells| - 1;
            Relinked(l, Base(l.cells, n)).live == if Owns(l.cells, n) then l.live - {l.cells[n].link} else l.live
  {
    var n := |l.cells| - 1;
    var cells := l.cells[n := l.cells[n].(link := Base(l.cells, n))];
    assert !Owns(cells, n);
  }

  /** Dropping the top entry's node from the live set leaves what the others own. */
  lemma OwnedBelow(l: Ledger)
    requires LedgerOk(l) && l.cells != []
    ensures var n := |l.cells| - 1;
            && (Owns(l.cells, n) ==> l.cells[n].link in l.live)
            && (if Owns(l.cells, n) then l.live - {l.cells[n].link} else l.live) == OwnedUnder(l.cells, n)
  {
    assert Look(LEDGER_FOLD);
    var n := |l.cells| - 1;
    if Owns(l.cells, n) {
      forall i | 0 <= i < n && Owns(l.cells, i) ensures l.cells[i].link != l.cells[n].link {
        OwnedOnce(l, i, n);
      }
    }
  }

  lemma OwnedIsLive(l: Ledger)
    requires LedgerOk(l) && l.cells != []
    ensures Owns(l.cells, |l.cells| - 1) ==> l.cells[|l.cells| - 1].link in l.live
  {
    OwnedBelow(l);
  }

  lemma RelinkedOk(l: Ledger, link: LinkNode?)
    requires LedgerOk(l) && l.cells != [] && !l.frames[|l.cells| - 1].Unopened?
    requires var n := |l.cells| - 1;
             link == Base(l.cells, n) || (link != null && link.Linked() && link.next == Base(l.cells, n))
    ensures LedgerOk(Relinked(l, link))
  {
    assert Look(LEDGER_FOLD);
    var m, n := Relinked(l, link), |l.cells| - 1;
    OwnedBelow(l);
    forall i | 0 <= i <= n ensures CellOk(m.cells, m.frames, i) {
      assert CellOk(l.cells, l.frames, i);
    }
    SameOwned(m.cells, l.cells, n);
  }

  /** A new entry for the sub-directory whose path is in the buffer. */
  ghost function Pushed(l: Ledger, path: string, chain: seq<LinkId>): Ledger {
    l.(cells := l.cells + [Cell(NoLister, false, 0, null)], frames := l.frames + [Unopened(path, "/", chain)])
  }

  lemma PushedOk(l: Ledger, path: string, chain: seq<LinkId>)
    requires LedgerOk(l) && l.cells != [] && l.frames[|l.cells| - 1].Reading?
    requires Carries(l.cells, |l.cells| - 1, chain)
    ensures LedgerOk(Pushed(l, path, chain))
  {
    assert Look(CHAIN_FOLD);
    assert Look(LEDGER_FOLD);
    var m, n := Pushed(l, path, chain), |l.cells|;
    forall i | 0 <= i <= n ensures CellOk(m.cells, m.frames, i) {
      assert i < n ==> CellOk(l.cells, l.frames, i);
    }
    SameOwned(m.cells, l.cells, n);
    assert !Owns(m.cells, n);
  }

  /** The top entry is gone, and its own node with it. */
  function Popped(l: Ledger): Ledger
    requires l.cells != [] && |l.cells| == |l.frames|
  {
    var n := |l.cells| - 1;
    Ledger(l.cells[..n], l.frames[..n], if Owns(l.cells, n) then l.live - {l.cells[n].link} else l.live)
  }

  lemma PoppedOk(l: Ledger)
    requires LedgerOk(l) && l.cells != []
    ensures LedgerOk(Popped(l))
  {
    assert Look(LEDGER_FOLD);
    var m, n := Popped(l), |l.cells| - 1;
    OwnedBelow(l);
    forall i | 0 <= i < n ensures CellOk(m.cells, m.frames, i) {
      assert CellOk(l.cells, l.frames, i);
    }
    SameOwned(m.cells, l.cells, n);
  }

  // ----- the shared path buffer -----

  lemma PrefixOfLonger<T>(a: seq<T>, b: seq<T>, c: seq<T>)
    requires a <= b && b <= c
    ensures a <= c
  {
    assert a == b[..|a|] == c[..|a|];
  }

  lemma PrefixesNest<T>(a: seq<T>, b: seq<T>, c: seq<T>)
    requires a <= c && b <= c && |a| <= |b|
    ensures a <= b
  {
    assert a == c[..|a|] == b[..|a|];
  }

  /** More in the buffer leaves every stacked path in place. */
  lemma SpelledGrown(
    frames: seq<Frame>, contents: string, text: string, grown: seq<Frame>, newContents: string, newText: string)
    requires Spelled(frames, contents, text) && frames != [] && contents <= newContents
    requires |grown| == |frames| && grown[..|frames| - 1] == frames[..|frames| - 1]
    requires var n := |frames| - 1;
             match grown[n]
             case Finished => true
             case Unopened(_, _, _) => false
             case Reading(_, _, prefix, _) =>
               Stored(prefix) == newContents || (frames[n].Reading? && prefix == frames[n].prefix)
    ensures Spelled(grown, newContents, newText)
  {
    assert Look(SPELLING_FOLD);
    forall i | 0 <= i < |grown| && grown[i].Reading? ensures Stored(grown[i].prefix) <= newContents {
      if i < |frames| - 1 {
        assert grown[i] == grown[..|frames| - 1][i] == frames[i];
        PrefixOfLonger(Stored(frames[i].prefix), contents, newContents);
      } else if frames[i].Reading? && grown[i].prefix == frames[i].prefix {
        PrefixOfLonger(Stored(frames[i].prefix), contents, newContents);
      }
    }
  }

  /** No stacked path is longer than the buffer's contents. */
  lemma SpelledFits(l: Ledger, contents: string, text: string)
    requires LedgerOk(l) && Spelled(l.frames, contents, text)
    ensures forall i :: 0 <= i < |l.frames| && l.frames[i].Reading? ==> |l.frames[i].prefix| <= |contents|
  {
    assert Look(SPELLING_FOLD) && Look(LEDGER_FOLD);
    forall i | 0 <= i < |l.frames| && l.frames[i].Reading? ensures |l.frames[i].prefix| <= |contents| {
      assert CellOk(l.cells, l.frames, i);
      assert |Stored(l.frames[i].prefix)| == |l.frames[i].prefix|;
    }
  }

  /** Cutting the buffer back to the top directory's path leaves the paths below in place. */
  lemma SpelledCut(l: Ledger, contents: string, text: string, newText: string)
    requires LedgerOk(l) && l.cells != [] && l.frames[|l.cells| - 1].Reading?
    requires Spelled(l.frames, contents, text)
    ensures Spelled(l.frames, Stored(l.frames[|l.cells| - 1].prefix), newText)
  {
    assert Look(SPELLING_FOLD) && Look(LEDGER_FOLD);
    var n := |l.cells| - 1;
    forall i | 0 <= i < n ensures Stored(l.frames[i].prefix) <= Stored(l.frames[n].prefix) {
      assert CellOk(l.cells, l.frames, i) && CellOk(l.cells, l.frames, n);
      assert l.cells[i].pathLength <= l.cells[n].pathLength;
      PrefixesNest(Stored(l.frames[i].prefix), Stored(l.frames[n].prefix), contents);
    }
  }

  /** Opening the top entry's directory keeps the ledger in order. */
  lemma OpenedFits(l: Ledger, d: DirId, contents: string, text: string)
    requires LedgerOk(l) && l.cells != [] && l.frames[|l.cells| - 1].Unopened? && Spelled(l.frames, contents, text)
    requires var f := l.frames[|l.cells| - 1]; |f.path + f.separator| <= PATH_MAX
    ensures var f := l.frames[|l.cells| - 1]; LedgerOk(Opened(l, d, f.path + f.separator))
  {
    var f := l.frames[|l.cells| - 1];
    SpelledTop(l, contents, text);
    SpelledFits(l, contents, text);
    OpenedOk(l, d, f.path + f.separator);
  }

  lemma SpelledOpened(l: Ledger, d: DirId, contents: string, text: string, newText: string)
    requires LedgerOk(l) && l.cells != [] && l.frames[|l.cells| - 1].Unopened? && Spelled(l.frames, contents, text)
    requires var f := l.frames[|l.cells| - 1]; |f.path + f.separator| <= PATH_MAX
    ensures var prefix := l.frames[|l.cells| - 1].path + l.frames[|l.cells| - 1].separator;
            Spelled(Opened(l, d, prefix).frames, Stored(prefix), newText)
  {
    var f := l.frames[|l.cells| - 1];
    var prefix := f.path + f.separator;
    SpelledTop(l, contents, text);
    StoredGrows(f.path, f.separator);
    SpelledGrown(l.frames, contents, text, Opened(l, d, prefix).frames, Stored(prefix), newText);
  }

  lemma SpelledAdvanced(l: Ledger, contents: string, text: string, newContents: string, newText: string)
    requires LedgerOk(l) && l.cells != [] && l.frames[|l.cells| - 1].Reading? && l.cells[|l.cells| - 1].lister.DirStream?
    requires Spelled(l.frames, contents, text) && contents <= newContents
    ensures LedgerOk(Advanced(l)) && Spelled(Advanced(l).frames, newContents, newText)
  {
    AdvancedOk(l);
    SpelledGrown(l.frames, contents, text, Advanced(l).frames, newContents, newText);
  }

  lemma AdvancedLinks(l: Ledger)
    requires l.cells != [] && |l.cells| == |l.frames|
    requires l.frames[|l.cells| - 1].Reading? && l.cells[|l.cells| - 1].lister.DirStream?
    ensures var m, n := Advanced(l), |l.cells| - 1;
            && |m.cells| == |m.frames| == n + 1
            && m.cells[n].link == l.cells[n].link && Base(m.cells, n) == Base(l.cells, n)
            && m.frames[n] == l.frames[n].(next := l.frames[n].next + 1) && m.frames == l.frames[n := m.frames[n]]
  {
  }

  lemma SpelledPushed(l: Ledger, path: string, chain: seq<LinkId>)
    requires LedgerOk(l) && l.cells != [] && Spelled(l.frames, Stored(path), Truncated(path))
    ensures Spelled(Pushed(l, path, chain).frames, Stored(path), Truncated(path))
  {
    assert Look(SPELLING_FOLD);
  }

  lemma SpelledPopped(l: Ledger, contents: string, text: string)
    requires LedgerOk(l) && l.cells != [] && Spelled(l.frames, contents, text)
    ensures Spelled(Popped(l).frames, contents, text)
  {
    assert Look(SPELLING_FOLD) && Look(LEDGER_FOLD);
  }

  // ----- one step of an open directory, case by case -----

  /** What `lstat` answers for the path. */
  ghost predicate Answers(fs: FileSystem, path: string, info: Option<Kind>) {
    forall level: int {:trigger Look(level)} :: Look(level) && level == STEP_FOLD ==> Answer(fs, path) == info
  }

  /** `s` is the next step of the proper frame `f`. */
  ghost predicate Takes(fs: FileSystem, opts: Options, f: Frame, s: Step) {
    forall level: int {:trigger Look(level)} :: Look(level) && level == STEP_FOLD ==>
      FrameOk(fs, opts, f) && s == Advance(fs, opts, f)
  }

  /** Looking at an entry, by its path if need be, comes to verdict `v`; kept folded. */
  ghost predicate Sighted(fs: FileSystem, opts: Options, e: Dirent, path: string, chain: seq<LinkId>, v: Verdict) {
    forall level: int {:trigger Look(level)} :: Look(level) && level == STEP_FOLD ==>
      && Answer(fs, Truncated(path)) == Seen(fs, e, path)
      && (Seen(fs, e, path).Some? && Seen(fs, e, path).value.SymLink? ==> !e.IsDot())
      && v == Judge(fs, opts, e, path, chain)
  }

  lemma StepAtEnd(fs: FileSystem, opts: Options, f: Frame, s: Step)
    requires f.Reading? && Takes(fs, opts, f, s)
    ensures f.dir < |fs.dirs| && f.next <= |fs.dirs[f.dir].entries| && '\0' !in f.prefix
    ensures f.next == |fs.dirs[f.dir].entries| ==>
              s == Step(if fs.dirs[f.dir].torn then Error(Truncated(f.prefix)) else Done, Finished, None)
  {
    assert Look(STEP_FOLD);
  }

  /** Looking at an entry by its path shows what `Seen` says; a dot is never a link. */
  lemma SeenIsAnswer(fs: FileSystem, d: DirId, i: nat, prefix: string)
    requires WellFormed(fs) && d < |fs.dirs| && i < |fs.dirs[d].entries|
    requires EndsWithSeparator(prefix) && DirAt(fs, prefix) == Some(d)
    requires |prefix + fs.dirs[d].entries[i].name| <= PATH_MAX
    ensures var e := fs.dirs[d].entries[i];
            var info := Seen(fs, e, prefix + e.name);
            && Answer(fs, Truncated(prefix + e.name)) == info
            && (info.Some? && info.value.SymLink? ==> !e.IsDot())
  {
    var e := fs.dirs[d].entries[i];
    if |prefix + e.name| < PATH_MAX {
      SeenWhole(fs, d, i, prefix);
    } else if e.IsDot() {
      assert Truncated(prefix + e.name) == prefix + e.name[..|e.name| - 1];
      CutDot(fs, prefix, d, e);
    }
  }

  lemma SeenWhole(fs: FileSystem, d: DirId, i: nat, prefix: string)
    requires WellFormed(fs) && d < |fs.dirs| && i < |fs.dirs[d].entries|
    requires EndsWithSeparator(prefix) && DirAt(fs, prefix) == Some(d)
    ensures var e := fs.dirs[d].entries[i];
            Lstat(fs, prefix + e.name) == Some(e.kind) && (e.kind.SymLink? ==> !e.IsDot())
  {
    EntryWellFormed(fs, d, i);
    JoinNamesEntry(fs, prefix, d, i);
  }

  lemma EntrySighted(fs: FileSystem, opts: Options, f: Frame, s: Step) returns (v: Verdict)
    requires f.Reading? && Takes(fs, opts, f, s)
    requires f.dir < |fs.dirs| && f.next < |fs.dirs[f.dir].entries|
    requires |f.prefix + fs.dirs[f.dir].entries[f.next].name| <= PATH_MAX
    ensures var e := fs.dirs[f.dir].entries[f.next];
            Sighted(fs, opts, e, f.prefix + e.name, f.chain, v) && v == Judge(fs, opts, e, f.prefix + e.name, f.chain)
  {
    assert Look(STEP_FOLD);
    var e := fs.dirs[f.dir].entries[f.next];
    v := Judge(fs, opts, e, f.prefix + e.name, f.chain);
    SeenIsAnswer(fs, f.dir, f.next, f.prefix);
  }

  /** The step of an entry with verdict `v`; one with a name that does not fit has no verdict. */
  ghost predicate StepFollowsNow(f: Frame, path: string, v: Verdict, s: Step)
    requires f.Reading?
  {
    var rest := f.(next := f.next + 1);
    if |path| > PATH_MAX then s == Step(Error(Truncated(path)), Finished, None)
    else
      match v
      case Stop => s == Step(Done, Finished, None)
      case Skip => true
      case ReportFile => s == Step(File(Truncated(path)), rest, None)
      case ReportLink => s == Step(Link(Truncated(path)), rest, None)
      case ReportError => s == Step(Error(Truncated(path)), rest, None)
      case Descend(_, chain) => s == Step(Dir(Truncated(path)), rest, Some(Unopened(path, "/", chain)))
  }

  /** The same, kept folded. */
  ghost predicate StepFollows(f: Frame, path: string, v: Verdict, s: Step) {
    forall level: int {:trigger Look(level)} :: Look(level) && level == TAKING_FOLD ==>
      f.Reading? && StepFollowsNow(f, path, v, s)
  }

  /** `path` is the path of entry `e` of the directory that frame `f` reads; kept folded. */
  ghost predicate Joins(f: Frame, e: Dirent, path: string) {
    forall level: int {:trigger Look(level)} :: Look(level) && level == PLAN_FOLD ==>
      f.Reading? && NameOk(e.name) && '\0' !in f.prefix && |f.prefix| <= PATH_MAX && path == f.prefix + e.name
  }

  /** A step of an open directory that has not come to its end. */
  lemma ReadOfEntry(fs: FileSystem, opts: Options, f: Frame, v: Verdict)
    requires f.Reading? && ReadingOk(fs, opts, f.dir, f.next, f.prefix, f.chain) && f.next < |fs.dirs[f.dir].entries|
    requires var e := fs.dirs[f.dir].entries[f.next];
             |f.prefix + e.name| <= PATH_MAX ==> v == Judge(fs, opts, e, f.prefix + e.name, f.chain)
    ensures var path := f.prefix + fs.dirs[f.dir].entries[f.next].name;
            var rest := f.(next := f.next + 1);
            && StepFollows(f, path, v, Advance(fs, opts, f))
            && (|path| <= PATH_MAX && v.Skip? ==> FrameOk(fs, opts, rest) && Advance(fs, opts, f) == Advance(fs, opts, rest))
  {
  }

  lemma StepOfEntry(fs: FileSystem, opts: Options, f: Frame, s: Step) returns (v: Verdict)
    requires f.Reading? && Takes(fs, opts, f, s)
    requires f.dir < |fs.dirs| && f.next < |fs.dirs[f.dir].entries|
    ensures var e := fs.dirs[f.dir].entries[f.next];
            var path := f.prefix + e.name;
            && Joins(f, e, path) && StepFollows(f, path, v, s)
            && (|path| <= PATH_MAX ==> Sighted(fs, opts, e, path, f.chain, v))
            && (|path| <= PATH_MAX && v.Skip? ==> Takes(fs, opts, f.(next := f.next + 1), s))
  {
    var e := fs.dirs[f.dir].entries[f.next];
    v := Stop;
    if |f.prefix + e.name| <= PATH_MAX {
      v := EntrySighted(fs, opts, f, s);
    }
    assert Look(STEP_FOLD);
    EntryWellFormed(fs, f.dir, f.next);
    ReadOfEntry(fs, opts, f, v);
  }

  lemma StepOfFinished(fs: FileSystem, opts: Options, s: Step)
    requires Takes(fs, opts, Finished, s)
    ensures s == Step(Done, Finished, None)
  {
    assert Look(STEP_FOLD);
  }

  lemma StepOfUnopened(fs: FileSystem, opts: Options, f: Frame, s: Step)
    requires f.Unopened? && Takes(fs, opts, f, s)
    ensures WellFormed(fs)
    ensures var shown := Truncated(f.path);
            if CanOpen(fs, shown) then
              && |f.path + f.separator| <= PATH_MAX
              && Takes(fs, opts, Reading(DirAt(fs, shown).value, 0, f.path + f.separator, f.chain), s)
            else s == Step(Error(shown), Finished, None)
  {
    assert Look(STEP_FOLD);
  }

  // ----- what a whole stack still owes -----

  /** Exactly `items` are left to report, in this order, `Done` included. */
  ghost predicate Owes(fs: FileSystem, opts: Options, frames: seq<Frame>, items: seq<Item>) {
    forall level: int {:trigger Look(level)} :: Look(level) && level == STEP_FOLD ==>
      StackOk(fs, opts, frames) && Stream(fs, opts, frames) == items
  }

  /** An empty stack owes nothing; any other owes at least the closing `Done`. */
  lemma OwesNothingIffEmpty(fs: FileSystem, opts: Options, frames: seq<Frame>, items: seq<Item>)
    requires Owes(fs, opts, frames, items)
    ensures frames == [] <==> items == []
  {
    assert Look(STEP_FOLD);
  }

  /** The step of the top frame, and what the stack owes after it. */
  lemma NextStep(fs: FileSystem, opts: Options, frames: seq<Frame>, items: seq<Item>) returns (s: Step, rest: seq<Item>)
    requires frames != [] && Owes(fs, opts, frames, items)
    ensures Takes(fs, opts, frames[|frames| - 1], s)
    ensures !s.rest.Unopened? && (s.report.Done? ==> s.rest.Finished?)
    ensures s.inner.Some? <==> s.report.Dir?
    ensures s.report.Dir? ==> s.rest.Reading? && s.inner.value.Unopened? && s.inner.value.separator == "/"
                              && Truncated(s.inner.value.path) == s.report.path
    ensures items == (if s.report.Done? && |frames| > 1 then [] else [s.report]) + rest
    ensures var below := frames[..|frames| - 1];
            Owes(fs, opts, if s.report.Done? then below else Replaced(opts, below, s), rest)
  {
    assert Look(STEP_FOLD);
    var n := |frames| - 1;
    assert Checker(fs, opts)(frames[n]);
    s := Advance(fs, opts, frames[n]);
    rest := Stream(fs, opts, StepStack(fs, opts, frames));
    AdvanceReportsNext(fs, opts, frames[n]);
    StepStackOk(fs, opts, frames);
    StepStackEmits(fs, opts, frames);
  }
}
