/**
 The other end of an asynchronous listing: how the Dart library reads the slots of a
 response, two at a time, by the codes it knows.
 */
module ListingReaders {
  import opened Wrappers
  import opened ListingSpec

  /** A slot of the response array. */
  datatype Slot = Code(code: int) | Path(path: string) | Null | Failure(path: string)

  /** What one pair of slots says, if it says anything. */
  function DecodeOne(code: Slot, payload: Slot): Option<Item> {
    if !code.Code? then None
    else if code.code == 0 && payload.Path? then Some(File(payload.path))
    else if code.code == 1 && payload.Path? then Some(Dir(payload.path))
    else if code.code == 2 && payload.Path? then Some(Link(payload.path))
    else if code.code == 3 && payload.Failure? then Some(Error(payload.path))
    else if code.code == 4 && payload.Null? then Some(Done)
    else None
  }

  /** The items read, and whether the end was read; nothing is looked at behind it. */
  datatype Decoded = Decoded(items: seq<Item>, done: bool)

  function Decode(slots: seq<Slot>): Option<Decoded> {
    if slots == [] then Some(Decoded([], false))
    else if |slots| == 1 then None
    else
      match DecodeOne(slots[0], slots[1])
      case None => None
      case Some(Done) => Some(Decoded([], true))
      case Some(item) =>
        match Decode(slots[2..])
        case None => None
        case Some(rest) => Some(Decoded([item] + rest.items, rest.done))
  }

  /** The pair at a position, and what comes behind it. */
  lemma DecodeAt(slots: seq<Slot>, i: nat)
    requires i < |slots| && Decode(slots[i..]).Some?
    ensures i + 1 < |slots| && DecodeOne(slots[i], slots[i + 1]).Some?
    ensures DecodeOne(slots[i], slots[i + 1]).value.Done? ==> Decode(slots[i..]).value == Decoded([], true)
    ensures !DecodeOne(slots[i], slots[i + 1]).value.Done? ==>
              && Decode(slots[i + 2..]).Some? && Decode(slots[i..]).value.done == Decode(slots[i + 2..]).value.done
              && Decode(slots[i..]).value.items == [DecodeOne(slots[i], slots[i + 1]).value] + Decode(slots[i + 2..]).value.items
  {
    var rest := slots[i..];
    assert rest[0] == slots[i] && rest[1..] == slots[i + 1..];
    assert |rest| > 1 && rest[1] == slots[i + 1] && rest[2..] == slots[i + 2..];
  }

  /** Slots can be read in two goes. */
  lemma {:induction false} DecodeSplit(a: seq<Slot>, b: seq<Slot>)
    requires |a| % 2 == 0 && Decode(a + b).Some?
    ensures Decode(a).Some? && (!Decode(a).value.done ==> Decode(b).Some?)
    ensures Decode(a + b).value == if Decode(a).value.done then Decode(a).value
                                 else Decoded(Decode(a).value.items + Decode(b).value.items, Decode(b).value.done)
  {
    if a == [] {
      assert a + b == b;
    } else {
      assert (a + b)[0] == a[0] && (a + b)[1] == a[1] && (a + b)[2..] == a[2..] + b;
      if DecodeOne(a[0], a[1]) != Some(Done) {
        DecodeSplit(a[2..], b);
      }
    }
  }

  /** Reading takes two slots for each item, and two for the end. */
  lemma {:induction false} DecodeTakes(slots: seq<Slot>)
    requires Decode(slots).Some?
    ensures var r := Decode(slots).value;
            if r.done then 2 * |r.items| + 2 <= |slots| else 2 * |r.items| == |slots|
  {
    if slots == [] {
    } else if DecodeOne(slots[0], slots[1]) != Some(Done) {
      DecodeTakes(slots[2..]);
    }
  }
}
