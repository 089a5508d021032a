/**
 The asynchronous listing: results are written, two slots at a time, into a
 response array of fixed size; when it is full the listing pauses until the
 next request.
 */
module AsyncListings {
  import opened Wrappers
  import opened Folding
  import opened FileSystems
  import opened ListingSpec
  import opened ListingFacts
  import opened ListingState
  import opened ListingReaders
  import opened DirectoryListings

  const LIST_FILE := 0
  const LIST_DIRECTORY := 1
  const LIST_LINK := 2
  const LIST_ERROR := 3
  const LIST_DONE := 4

  function Encode(item: Item): seq<Slot> {
    match item
    case File(path) => [Code(LIST_FILE), Path(path)]
    case Dir(path) => [Code(LIST_DIRECTORY), Path(path)]
    case Link(path) => [Code(LIST_LINK), Path(path)]
    case Error(path) => [Code(LIST_ERROR), Failure(path)]
    case Done => [Code(LIST_DONE), Null]
  }

  /** What is written for an item is read as that item. */
  lemma EncodedIsDecoded(item: Item)
    ensures |Encode(item)| == 2 && DecodeOne(Encode(item)[0], Encode(item)[1]) == Some(item)
  {
  }

  function EncodeAll(items: seq<Item>): seq<Slot> {
    Spread(Encode, items)
  }

  function Spread(encode: Item -> seq<Slot>, items: seq<Item>): seq<Slot> {
    if items == [] then [] else encode(items[0]) + Spread(encode, items[1..])
  }

  lemma {:induction false} SpreadConcat(encode: Item -> seq<Slot>, a: seq<Item>, b: seq<Item>)
    ensures Spread(encode, a + b) == Spread(encode, a) + Spread(encode, b)
  {
    if a == [] {
      assert a + b == b;
    } else {
      assert (a + b)[0] == a[0] && (a + b)[1..] == a[1..] + b;
      SpreadConcat(encode, a[1..], b);
    }
  }

  lemma EncodeConcat(a: seq<Item>, b: seq<Item>)
    ensures EncodeAll(a + b) == EncodeAll(a) + EncodeAll(b)
  {
    SpreadConcat(Encode, a, b);
  }

  lemma EncodeOneMore(items: seq<Item>, k: nat)
    requires k < |items|
    ensures EncodeAll(items[..k + 1]) == EncodeAll(items[..k]) + Encode(items[k])
  {
    EncodeConcat(items[..k], [items[k]]);
    assert items[..k + 1] == items[..k] + [items[k]];
    assert Spread(Encode, [items[k]][1..]) == [];
  }

  lemma {:induction false} EncodeLength(items: seq<Item>)
    ensures |EncodeAll(items)| == 2 * |items|
  {
    if items == [] {
    } else {
      EncodeLength(items[1..]);
    }
  }

  /** Whatever is written with an end behind it is read in full. */
  lemma {:induction false} EncodedAreDecoded(items: seq<Item>)
    requires NoneDone(items)
    ensures Decode(EncodeAll(items + [Done])) == Some(Decoded(items, true))
  {
    if items == [] {
      EncodedIsDecoded(Done);
      assert items + [Done] == [Done];
      assert EncodeAll([Done]) == Encode(Done) + EncodeAll([]);
    } else {
      var rest := items[1..];
      EncodedAreDecoded(rest);
      EncodedIsDecoded(items[0]);
      assert (items + [Done])[0] == items[0] && (items + [Done])[1..] == rest + [Done];
      var slots := EncodeAll(items + [Done]);
      assert slots == Encode(items[0]) + EncodeAll(rest + [Done]);
      assert slots[2..] == EncodeAll(rest + [Done]);
      assert items == [items[0]] + rest;
    }
  }

  function Min(a: nat, b: nat): nat {
    if a < b then a else b
  }

  class AsyncDirectoryListing {
    const listing: DirectoryListing
    var slots: array<Slot>
    var index: nat
    var length: nat

    ghost predicate Valid()
      reads this, listing, listing.buffer, listing.buffer.data, listing.stack
    {
      listing.Valid()
    }

    /** The page being filled: whole results only, and never past its length. */
    ghost predicate PageOk()
      reads this
    {
      slots.Length == length && length % 2 == 0 && index % 2 == 0 && index <= length
    }

    /** The rest of the listing is exactly `items`. */
    ghost predicate Left(items: seq<Item>)
      reads this, listing
    {
      Owes(listing.fs, listing.opts, listing.ledger.frames, items)
    }

    constructor (listing: DirectoryListing)
      ensures this.listing == listing && fresh(slots)
    {
      this.listing := listing;
      this.slots := new Slot[0];
      index := 0;
      length := 0;
    }

    method SetArray(slots: array<Slot>, length: nat)
      requires slots.Length == length && length % 2 == 0
      modifies this`slots, this`index, this`length
      ensures this.slots == slots && index == 0 && this.length == length && PageOk()
    {
      this.slots := slots;
      index := 0;
      this.length := length;
    }

    /** Writes the two slots of one result and says whether there is room for more. */
    method AddToResponse(code: int, payload: Slot) returns (room: bool)
      requires PageOk() && index < length
      modifies this`index, slots
      ensures PageOk() && index == old(index) + 2
      ensures slots[..index] == old(slots[..index]) + [Code(code), payload]
      ensures room <==> index < length
    {
      slots[index] := Code(code);
      index := index + 1;
      slots[index] := payload;
      index := index + 1;
      room := index < length;
    }

    /** HandleFile, HandleDirectory, HandleLink, HandleError and HandleDone. */
    method Handle(t: ListType) returns (room: bool)
      requires listing.buffer.Valid()
      requires PageOk() && index < length
      modifies this`index, slots
      ensures PageOk() && index == old(index) + 2
      ensures forall report: Item :: TypeOf(report) == t && (!report.Done? ==> report.path == listing.buffer.Text()) ==>
                && slots[..index] == old(slots[..index]) + Encode(report)
                && DecodeOne(slots[index - 2], slots[index - 1]) == Some(report)
      ensures room <==> index < length
    {
      var path := listing.buffer.AsString();
      match t
      case ListFile => room := AddToResponse(LIST_FILE, Path(path));
      case ListDirectory => room := AddToResponse(LIST_DIRECTORY, Path(path));
      case ListLink => room := AddToResponse(LIST_LINK, Path(path));
      case ListError => room := AddToResponse(LIST_ERROR, Failure(path));
      case ListDone => room := AddToResponse(LIST_DONE, Null);
    }

    /** One result has been written: the first of those that were left. */
    twostate predicate Wrote(items: seq<Item>, rest: seq<Item>)
      reads this, slots
    {
      var wrote :=
        && slots == old(slots) && index == old(index) + 2 && index <= slots.Length
        && items != [] && rest == items[1..]
        && slots[..index] == old(slots[..index]) + Encode(items[0]);
      wrote
    }

    /** Step `s` has been taken, and with it `items` comes down to `rest`; kept folded. */
    ghost predicate Due(s: Step, items: seq<Item>, rest: seq<Item>)
      reads this, listing
    {
      forall level: int {:trigger Look(level)} :: Look(level) && level == DUE_FOLD ==>
        var frames := listing.ledger.frames;
        && frames != [] && (s.inner.Some? <==> s.report.Dir?)
        && (s.report.Dir? ==> s.rest.Reading? && s.inner.value.Unopened? && s.inner.value.separator == "/"
                              && Truncated(s.inner.value.path) == s.report.path)
        && items == (if s.report.Done? && |frames| > 1 then [] else [s.report]) + rest
        && Owes(listing.fs, listing.opts,
                if s.report.Done? then frames[..|frames| - 1] else Replaced(listing.opts, frames[..|frames| - 1], s), rest)
    }

    /** Adds the entry for a sub-directory, if the listing is recursive. */
    method Enter(ghost s: Step)
      requires Valid() && listing.Shows(s, ListDirectory)
      requires s.inner.Some? && s.inner.value.Unopened? && s.inner.value.separator == "/" && s.rest.Reading?
      requires s.report.Dir? && s.report.path == Truncated(s.inner.value.path)
      modifies listing`top, listing`stack, listing`ledger
      ensures Valid() && listing.stack != []
      ensures listing.ledger.frames == Replaced(listing.opts, old(listing.ledger.frames)[..|old(listing.stack)| - 1], s)
      ensures forall i :: 0 <= i < |listing.stack| ==> listing.stack[i] in old(listing.stack) || fresh(listing.stack[i])
    {
      ghost var n := |listing.stack| - 1;
      ghost var frames := listing.ledger.frames;
      assert frames == frames[..n] + [s.rest];
      if listing.opts.recursive {
        ghost var below := listing.stack;
        listing.Push(s.inner.value.path, s.inner.value.chain);
        assert listing.ledger.frames == frames[..n] + [s.rest, s.inner.value];
        assert listing.stack == below + [listing.stack[n + 1]];
      }
    }

    /** The top entry is done: it leaves the stack, and the last one to leave writes `Done`. */
    method Leave(ghost s: Step, ghost items: seq<Item>, ghost rest: seq<Item>) returns (more: bool)
      requires Valid() && listing.Shows(s, ListDone) && PageOk() && index < length
      requires s.report.Done? && Due(s, items, rest)
      modifies this`index, slots, listing`top, listing`stack, listing`ledger, listing.top`link
      ensures Valid() && Left(rest) && PageOk()
      ensures forall i :: 0 <= i < |listing.stack| ==> listing.stack[i] in old(listing.stack)
      ensures Wrote(items, rest) ||
              (more && rest == items && index == old(index) && slots[..] == old(slots[..])
               && |listing.stack| < |old(listing.stack)|)
      ensures more ==> listing.stack != [] && index < length
      ensures !more ==> index == length || rest == []
    {
      assert Look(DUE_FOLD);
      listing.Pop();
      OwesNothingIffEmpty(listing.fs, listing.opts, listing.ledger.frames, rest);
      if listing.top == null {
        var room := Handle(ListDone);
        assert TypeOf(Done) == ListDone;
        more := false;
      } else {
        assert [] + rest == rest;
        more := true;
      }
    }

    /** The top entry reports something: a sub-directory is entered, and the result is written. */
    method Tell(ghost s: Step, t: ListType, ghost items: seq<Item>, ghost rest: seq<Item>) returns (more: bool)
      requires Valid() && listing.Shows(s, t) && !s.report.Done? && PageOk() && index < length
      requires Due(s, items, rest)
      modifies this`index, slots, listing`top, listing`stack, listing`ledger
      ensures Valid() && Left(rest) && PageOk() && listing.stack != []
      ensures forall i :: 0 <= i < |listing.stack| ==> listing.stack[i] in old(listing.stack) || fresh(listing.stack[i])
      ensures Wrote(items, rest)
      ensures more <==> index < length
    {
      EnterIfDirectory(s, t, items, rest);
      more := Handle(t);
      assert rest == items[1..];
    }

    /** A sub-directory that is reported is entered; the buffer still holds what is reported. */
    method EnterIfDirectory(ghost s: Step, t: ListType, ghost items: seq<Item>, ghost rest: seq<Item>)
      requires Valid() && listing.Shows(s, t) && !s.report.Done? && Due(s, items, rest)
      modifies listing`top, listing`stack, listing`ledger
      ensures Valid() && Left(rest) && listing.stack != []
      ensures items == [s.report] + rest && t == TypeOf(s.report) && listing.buffer.Text() == s.report.path
      ensures forall i :: 0 <= i < |listing.stack| ==> listing.stack[i] in old(listing.stack) || fresh(listing.stack[i])
    {
      assert Look(DUE_FOLD);
      if t == ListDirectory {
        Enter(s);
      } else {
        ghost var frames := listing.ledger.frames;
        assert frames == frames[..|frames| - 1] + [s.rest];
      }
    }

    /**
     One turn of the listing loop: either one more result is written, the first
     of those left, or an entry that is done leaves the stack.
     */
    method ListNext(ghost items: seq<Item>) returns (more: bool, ghost rest: seq<Item>)
      requires Valid() && Left(items) && listing.stack != []
      requires PageOk() && index < length
      modifies this`index, slots, listing`top, listing`stack, listing`ledger, listing.stack,
               listing.buffer`length, listing.buffer.data
      ensures Valid() && Left(rest) && PageOk()
      ensures forall i :: 0 <= i < |listing.stack| ==> listing.stack[i] in old(listing.stack) || fresh(listing.stack[i])
      ensures Wrote(items, rest) ||
              (more && rest == items && index == old(index) && slots[..] == old(slots[..])
               && |listing.stack| < |old(listing.stack)|)
      ensures more ==> listing.stack != [] && index < length
      ensures !more ==> index == length || rest == []
    {
      var t;
      ghost var s;
      t, s, rest := TakeStep(items);
      if t == ListDone {
        more := Leave(s, items, rest);
      } else {
        more := Tell(s, t, items, rest);
      }
    }

    /** The top entry takes its next step. */
    method TakeStep(ghost items: seq<Item>) returns (t: ListType, ghost s: Step, ghost rest: seq<Item>)
      requires Valid() && Left(items) && listing.stack != []
      modifies listing`ledger, listing.top, listing.buffer`length, listing.buffer.data
      ensures Valid() && listing.Shows(s, t) && Due(s, items, rest)
      ensures t == ListDone <==> s.report.Done?
    {
      ghost var frames := listing.ledger.frames;
      s, rest := NextStep(listing.fs, listing.opts, frames, items);
      t := listing.Next(s);
      assert listing.ledger.frames == frames[..|frames| - 1] + [s.rest];
    }

    /** Fills one page with the first results that are left, as many as fit. */
    method List(ghost items: seq<Item>) returns (ghost rest: seq<Item>)
      requires Valid() && Left(items) && listing.stack != []
      requires PageOk() && index == 0 < length
      modifies this`index, slots, listing`top, listing`stack, listing`ledger, listing.stack,
               listing.buffer`length, listing.buffer.data
      ensures Valid() && Left(rest)
      ensures forall i :: 0 <= i < |listing.stack| ==> listing.stack[i] in old(listing.stack) || fresh(listing.stack[i])
      ensures var k := Min(length / 2, |items|);
              && index == 2 * k <= slots.Length && rest == items[k..]
              && slots[..index] == EncodeAll(items[..k])
    {
      rest := items;
      ghost var k := 0;
      var more := true;
      while more
        invariant slots == old(slots)
        invariant Valid() && Left(rest) && PageOk()
        invariant forall i :: 0 <= i < |listing.stack| ==> listing.stack[i] in old(listing.stack) || fresh(listing.stack[i])
        invariant index == 2 * k && k <= |items| && rest == items[k..]
        invariant slots[..index] == EncodeAll(items[..k])
        invariant more ==> listing.stack != [] && index < length
        invariant !more ==> index == length || rest == []
        decreases |rest|, |listing.stack|, more
      {
        ghost var written, pending, at := slots[..index], rest, index;
        more, rest := ListNext(rest);
        if index != at {
          assert pending[0] == items[k];
          EncodeOneMore(items, k);
          k := k + 1;
        } else {
          assert slots[..index] == slots[..][..index];
        }
      }
    }

    /** ListNextRequest: the next page, empty once the listing is over. */
    method NextPage(pageSize: nat, ghost items: seq<Item>) returns (page: seq<Slot>, ghost rest: seq<Item>)
      requires Valid() && Left(items)
      requires pageSize >= 2 && pageSize % 2 == 0
      modifies this, listing`top, listing`stack, listing`ledger, listing.stack,
               listing.buffer`length, listing.buffer.data
      ensures Valid() && Left(rest)
      ensures forall i :: 0 <= i < |listing.stack| ==> listing.stack[i] in old(listing.stack) || fresh(listing.stack[i])
      ensures var k := Min(pageSize / 2, |items|);
              page == EncodeAll(items[..k]) && rest == items[k..]
    {
      OwesNothingIffEmpty(listing.fs, listing.opts, listing.ledger.frames, items);
      if listing.top == null {
        return [], items;
      }
      var response := new Slot[pageSize](_ => Null);
      SetArray(response, pageSize);
      rest := List(items);
      page := slots[..index];
    }
  }

  // ----- a whole listing, as a client requests it -----

  function Join(pages: seq<seq<Slot>>): seq<Slot> {
    if pages == [] then [] else Join(pages[..|pages| - 1]) + pages[|pages| - 1]
  }

  /** The path given to a listing ends in a separator, and no directory on the way is entered by a
      path that fills the buffer. */
  ghost predicate CanList(fs: FileSystem, opts: Options, dirName: string) {
    && WellFormed(fs)
    && EndsWithSeparator(dirName) && '\0' !in dirName
    && (|dirName| <= PATH_MAX && CanOpen(fs, Truncated(dirName)) ==>
          (DirAtInRange(fs, Truncated(dirName));
           Defined(fs, opts, DirAt(fs, Truncated(dirName)).value, 0, dirName, [])))
  }

  /** Without its last separator a path leads to the same directory. */
  lemma WithoutSeparator(fs: FileSystem, path: string)
    requires EndsWithSeparator(path) && |path| > 1
    ensures DirAt(fs, path[..|path| - 1]) == DirAt(fs, path)
  {
  }

  lemma StartOwes(fs: FileSystem, opts: Options, dirName: string)
    requires CanList(fs, opts, dirName) && |dirName| <= PATH_MAX
    ensures Owes(fs, opts, [Unopened(dirName, "", [])], Listing(fs, opts, dirName) + [Done])
  {
    var f := Unopened(dirName, "", []);
    assert dirName + "" == dirName;
    if |dirName| == PATH_MAX {
      WithoutSeparator(fs, dirName);
    }
    DirAtInRange(fs, Truncated(dirName));
    assert FrameOk(fs, opts, f);
    assert Pending(fs, opts, f) == Listing(fs, opts, dirName);
    assert Reporter(fs, opts)(f) == Pending(fs, opts, f);
    assert Stacked(Reporter(fs, opts), [f]) == Pending(fs, opts, f) + [];
  }

  /** Every page but the last is full, and none is empty. */
  ghost predicate Full(pages: seq<seq<Slot>>, pageSize: nat) {
    && (forall i :: 0 <= i < |pages| - 1 ==> |pages[i]| == pageSize)
    && (pages != [] ==> 0 < |pages[|pages| - 1]| <= pageSize)
  }

  /** The pages hold exactly `items`, and every page but the last is full. */
  ghost predicate Paged(pages: seq<seq<Slot>>, items: seq<Item>, pageSize: nat) {
    Join(pages) == EncodeAll(items) && Full(pages, pageSize) && (items != [] ==> pages != [])
  }

  lemma ListingIsDecoded(fs: FileSystem, opts: Options, dirName: string)
    requires WellFormed(fs)
    ensures Decode(EncodeAll(Listing(fs, opts, dirName) + [Done])) == Some(Decoded(Listing(fs, opts, dirName), true))
    ensures |EncodeAll(Listing(fs, opts, dirName) + [Done])| == 2 * |Listing(fs, opts, dirName)| + 2
  {
    ListingNoneDone(fs, opts, dirName);
    EncodedAreDecoded(Listing(fs, opts, dirName));
    EncodeLength(Listing(fs, opts, dirName) + [Done]);
  }

  /** One more page, taken from the front of what is left. */
  lemma PagedOneMore(pages: seq<seq<Slot>>, items: seq<Item>, k: nat, pageSize: nat, page: seq<Slot>)
    requires k <= |items| && Paged(pages, items[..k], pageSize)
    requires pages != [] ==> |pages[|pages| - 1]| == pageSize
    requires pageSize >= 2 && pageSize % 2 == 0 && k < |items|
    requires page == EncodeAll(items[k..][..Min(pageSize / 2, |items| - k)])
    ensures var n := Min(pageSize / 2, |items| - k);
            Paged(pages + [page], items[..k + n], pageSize) && |page| == 2 * n
  {
    var n := Min(pageSize / 2, |items| - k);
    var more := items[k..][..n];
    EncodeLength(more);
    EncodeConcat(items[..k], more);
    assert items[..k] + more == items[..k + n];
    JoinOneMore(pages, page);
  }

  lemma JoinOneMore(pages: seq<seq<Slot>>, page: seq<Slot>)
    ensures Join(pages + [page]) == Join(pages) + page
  {
    assert (pages + [page])[..|pages|] == pages;
  }

  /** Requests pages until one comes back empty. */
  method RequestAll(dir: AsyncDirectoryListing, pageSize: nat, ghost items: seq<Item>)
    returns (pages: seq<seq<Slot>>)
    requires dir.Valid() && dir.Left(items)
    requires pageSize >= 2 && pageSize % 2 == 0
    modifies dir, dir.listing`top, dir.listing`stack, dir.listing`ledger, dir.listing.stack,
             dir.listing.buffer`length, dir.listing.buffer.data
    ensures dir.Valid() && dir.Left([])
    ensures forall i :: 0 <= i < |dir.listing.stack| ==>
              dir.listing.stack[i] in old(dir.listing.stack) || fresh(dir.listing.stack[i])
    ensures Paged(pages, items, pageSize)
  {
    pages := [];
    ghost var rest, k := items, 0;
    var page := [Null];
    assert items[..0] == [];
    while page != []
      invariant dir.Valid() && dir.Left(rest)
      invariant forall i :: 0 <= i < |dir.listing.stack| ==>
                  dir.listing.stack[i] in old(dir.listing.stack) || fresh(dir.listing.stack[i])
      invariant k <= |items| && rest == items[k..] && Paged(pages, items[..k], pageSize)
      invariant pages != [] && rest != [] ==> |pages[|pages| - 1]| == pageSize
      invariant page == [] ==> rest == []
      decreases |rest|, |page|
    {
      ghost var n := Min(pageSize / 2, |rest|);
      page, rest := dir.NextPage(pageSize, rest);
      EncodeLength(items[k..][..n]);
      if page != [] {
        PagedOneMore(pages, items, k, pageSize, page);
        k := k + n;
        pages := pages + [page];
      }
    }
    assert items[..k] == items;
  }

  /**
   The whole of a listing: it starts unless the path is too long; whoever reads its
   pages joined reads the reference listing and then, at the very end, that it is done;
   every page but the last is full, and stopping it leaves no link node alive.
   */
  method ListDirectory(fs: FileSystem, opts: Options, dirName: string, pageSize: nat)
    returns (started: bool, pages: seq<seq<Slot>>)
    requires CanList(fs, opts, dirName)
    requires pageSize >= 2 && pageSize % 2 == 0
    ensures started <==> |dirName| <= PATH_MAX
    ensures started ==> Decode(Join(pages)) == Some(Decoded(Listing(fs, opts, dirName), true))
    ensures started ==> |Join(pages)| == 2 * |Listing(fs, opts, dirName)| + 2 && Full(pages, pageSize)
  {
    pages := [];
    var listing := new DirectoryListing(fs, opts, dirName);
    started := !listing.error;
    if started {
      StartOwes(fs, opts, dirName);
      var dir := new AsyncDirectoryListing(listing);
      pages := RequestAll(dir, pageSize, Listing(fs, opts, dirName) + [Done]);
      listing.Destroy();
      assert listing.ledger.live == {};
      ListingIsDecoded(fs, opts, dirName);
    }
  }
}
