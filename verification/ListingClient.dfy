/**
 A listing as the Dart library sees it: the lister that requests pages and hands on what
 is in them, one entity at a time.
 */
module ListingClients {
  import opened Wrappers
  import opened FileSystems
  import opened ListingSpec
  import opened ListingReaders
  import opened AsyncListings

  class AsyncDirectoryLister {
    /** What has been added to the stream, errors included. */
    var added: seq<Item>
    var canceled: bool

    constructor ()
      ensures added == [] && !canceled
    {
      added, canceled := [], false;
    }

    /** Hands on what one pair of slots says, or takes it that the listing is done. */
    method Take(code: int, payload: Slot)
      requires DecodeOne(Code(code), payload).Some?
      modifies this
      ensures var item := DecodeOne(Code(code), payload).value;
              && added == old(added) + (if item.Done? then [] else [item])
              && canceled == (old(canceled) || item.Done?)
    {
      match code
      case 0 => added := added + [File(payload.path)];
      case 1 => added := added + [Dir(payload.path)];
      case 2 => added := added + [Link(payload.path)];
      case 3 => added := added + [Error(payload.path)];
      case 4 => canceled := true;
      case _ =>
    }

    /** Hands on what a response holds, up to its end or to the end of the listing. */
    method Receive(page: seq<Slot>)
      requires Decode(page).Some?
      modifies this
      ensures added == old(added) + Decode(page).value.items
      ensures canceled <==> old(canceled) || Decode(page).value.done
    {
      var i := 0;
      assert page[0..] == page;
      while i < |page|
        invariant 0 <= i <= |page| && canceled == old(canceled)
        invariant Decode(page[i..]).Some? && Decode(page[i..]).value.done == Decode(page).value.done
        invariant added + Decode(page[i..]).value.items == old(added) + Decode(page).value.items
        decreases |page| - i
      {
        DecodeAt(page, i);
        Take(page[i].code, page[i + 1]);
        if page[i].code == 4 {
          return;
        }
        i := i + 2;
      }
      assert page[i..] == [];
    }

    /** The listing could not be started. */
    method Fail(path: string)
      modifies this`added
      ensures added == old(added) + [Error(path)]
    {
      added := added + [Error(path)];
    }
  }

  /** Slots whose end is at the very end can be read in three goes, the first of which meets no end. */
  lemma DecodeThree(front: seq<Slot>, page: seq<Slot>, behind: seq<Slot>)
    requires |front| % 2 == 0 && (behind == [] || |page| % 2 == 0) && page != []
    requires Decode(front + page + behind).Some?
    requires |front + page + behind| == 2 * |Decode(front + page + behind).value.items| + 2
    ensures Decode(front).Some? && !Decode(front).value.done
    ensures Decode(page).Some? && Decode(front + page).Some?
    ensures Decode(front + page).value == Decoded(Decode(front).value.items + Decode(page).value.items, Decode(page).value.done)
  {
    if behind == [] {
      assert front + page + behind == front + page;
    } else {
      DecodeSplit(front + page, behind);
    }
    DecodeSplit(front, page);
    DecodeTakes(front);
  }

  /** The pages up to the k-th, read one by one. */
  lemma OnePageMore(pages: seq<seq<Slot>>, k: nat, pageSize: nat)
    requires k < |pages| && Full(pages, pageSize) && pageSize % 2 == 0 && pageSize > 0
    requires Decode(Join(pages)).Some?
    requires |Join(pages)| == 2 * |Decode(Join(pages)).value.items| + 2
    ensures Decode(Join(pages[..k])).Some? && !Decode(Join(pages[..k])).value.done
    ensures Decode(pages[k]).Some? && Decode(Join(pages[..k + 1])).Some?
    ensures Decode(Join(pages[..k + 1])).value ==
            Decoded(Decode(Join(pages[..k])).value.items + Decode(pages[k]).value.items, Decode(pages[k]).value.done)
  {
    var behind := JoinAfter(pages, k + 1);
    assert pages[..k + 1] == pages[..k] + [pages[k]];
    JoinOneMore(pages[..k], pages[k]);
    JoinIsEven(pages, k, pageSize);
    DecodeThree(Join(pages[..k]), pages[k], behind);
  }

  /** What is joined behind the first k pages. */
  lemma {:induction false} JoinAfter(pages: seq<seq<Slot>>, k: nat) returns (behind: seq<Slot>)
    requires k <= |pages|
    ensures Join(pages) == Join(pages[..k]) + behind && (k == |pages| ==> behind == [])
    decreases |pages|
  {
    if k == |pages| {
      behind := [];
      assert pages[..k] == pages;
    } else {
      var front := pages[..|pages| - 1];
      behind := JoinAfter(front, k);
      assert front[..k] == pages[..k];
      behind := behind + pages[|pages| - 1];
    }
  }

  lemma {:induction false} JoinIsEven(pages: seq<seq<Slot>>, k: nat, pageSize: nat)
    requires k < |pages| && Full(pages, pageSize) && pageSize % 2 == 0
    ensures |Join(pages[..k])| % 2 == 0
  {
    if k == 0 {
    } else {
      JoinIsEven(pages, k - 1, pageSize);
      assert pages[..k] == pages[..k - 1] + [pages[k - 1]];
      JoinOneMore(pages[..k - 1], pages[k - 1]);
    }
  }

  /**
   From the file system to the stream: a listing that can be started adds exactly the items of the
   reference listing, in order, and ends; one that cannot adds one error, with the given path.
   */
  method ListToStream(fs: FileSystem, opts: Options, dirName: string, pageSize: nat) returns (lister: AsyncDirectoryLister)
    requires CanList(fs, opts, dirName)
    requires pageSize >= 2 && pageSize % 2 == 0
    ensures |dirName| <= PATH_MAX ==> lister.added == Listing(fs, opts, dirName) && lister.canceled
    ensures |dirName| > PATH_MAX ==> lister.added == [Error(dirName)] && !lister.canceled
  {
    lister := new AsyncDirectoryLister();
    var started, pages := ListDirectory(fs, opts, dirName, pageSize);
    if !started {
      lister.Fail(dirName);
      return;
    }
    var k := 0;
    while k < |pages|
      invariant 0 <= k <= |pages| && Decode(Join(pages[..k])).Some?
      invariant lister.added == Decode(Join(pages[..k])).value.items
      invariant lister.canceled == Decode(Join(pages[..k])).value.done
    {
      OnePageMore(pages, k, pageSize);
      lister.Receive(pages[k]);
      k := k + 1;
    }
    assert pages[..k] == pages;
  }
}
