/**
 The big-integer codec: parsing a hexadecimal literal into an array of 32-bit digits
 and printing such an array into a character buffer, both from the low end.
 */
module BigintCodecs {
  import opened Folding
  import opened Wrappers
  import opened BigintSpec

  /** What the digits read from position `i` on amount to. */
  ghost predicate ReadSoFar(hex: string, i: nat, digits: seq<nat>, digit: nat, places: nat) {
    && i <= |hex| && |hex| - i == 8 * |digits| + places && places < 8
    && AllHex(hex[i..])
    && DigitsOk(digits) && digit < Pow16(places)
    && HexValue(hex[i..]) == Value(digits) + digit * Pow16(8 * |digits|)
  }

  /** `ReadSoFar`, kept folded. */
  ghost predicate Progress(hex: string, i: nat, digits: seq<nat>, digit: nat, places: nat) {
    forall level: int {:trigger Look(level)} :: Look(level) && level == DIGITS_FOLD ==> ReadSoFar(hex, i, digits, digit, places)
  }

  lemma ValueAppend(digits: seq<nat>, digit: nat)
    ensures Value(digits + [digit]) == Value(digits) + digit * Pow16(8 * |digits|)
  {
    assert (digits + [digit])[..|digits|] == digits;
  }

  lemma ProgressStart(hex: string)
    ensures Progress(hex, |hex|, [], 0, 0)
  {
    assert hex[|hex|..] == "";
  }

  /** The digit read so far with one more hexadecimal digit above its places. */
  function Above(digit: nat, c: char, places: nat): nat
    requires IsHexDigit(c)
  {
    digit + HexDigitToInt(c) * Pow16(places)
  }

  /** Adding a hexadecimal digit d above p to v, where everything stands above q already. */
  lemma PlaceDigit(rest: nat, v: nat, d: nat, p: nat, q: nat)
    requires v < p && d < 16
    ensures v + d * p < 16 * p
    ensures d * (p * q) + (rest + v * q) == rest + (v + d * p) * q
  {
    DigitOnTop(v, d, p, 16);
    Distribute(v, d * p, q);
    Regroup(d, p, q);
  }

  /** Reading one hexadecimal digit adds it above the places read so far. */
  lemma ReadOne(hex: string, i: nat, digits: seq<nat>, digit: nat, places: nat)
    requires 0 < i && ReadSoFar(hex, i, digits, digit, places) && IsHexDigit(hex[i - 1])
    ensures Above(digit, hex[i - 1], places) < Pow16(places + 1)
    ensures AllHex(hex[i - 1..])
    ensures HexValue(hex[i - 1..]) == Value(digits) + Above(digit, hex[i - 1], places) * Pow16(8 * |digits|)
  {
    assert hex[i - 1..] == [hex[i - 1]] + hex[i..];
    HexValueFront(hex[i - 1], hex[i..]);
    Pow16Add(places, 8 * |digits|);
    PlaceDigit(Value(digits), digit, HexDigitToInt(hex[i - 1]), Pow16(places), Pow16(8 * |digits|));
  }

  lemma ProgressOne(hex: string, i: nat, digits: seq<nat>, digit: nat, places: nat)
    requires 0 < i <= |hex| && Progress(hex, i, digits, digit, places) && IsHexDigit(hex[i - 1]) && places < 7
    ensures Progress(hex, i - 1, digits, Above(digit, hex[i - 1], places), places + 1)
  {
    assert Look(DIGITS_FOLD);
    ReadOne(hex, i, digits, digit, places);
  }

  lemma ProgressFull(hex: string, i: nat, digits: seq<nat>, digit: nat)
    requires 0 < i <= |hex| && Progress(hex, i, digits, digit, 7) && IsHexDigit(hex[i - 1])
    ensures Progress(hex, i - 1, digits + [Above(digit, hex[i - 1], 7)], 0, 0)
  {
    assert Look(DIGITS_FOLD);
    ReadOne(hex, i, digits, digit, 7);
    DigitBaseIsPow16();
    ValueAppend(digits, Above(digit, hex[i - 1], 7));
  }

  /** A left-over digit with fewer places becomes the last array element. */
  lemma ProgressEnd(hex: string, digits: seq<nat>, digit: nat, places: nat)
    requires Progress(hex, 0, digits, digit, places)
    ensures AllHex(hex)
    ensures places == 0 ==> DigitsOk(digits) && Value(digits) == HexValue(hex)
    ensures places != 0 ==> DigitsOk(digits + [digit]) && Value(digits + [digit]) == HexValue(hex)
  {
    assert Look(DIGITS_FOLD);
    assert hex[0..] == hex;
    DigitBaseIsPow16();
    Pow16Monotone(places, 8);
    ValueAppend(digits, digit);
  }

  /** An unfinished digit, or one that is about to be finished, has an element to go to. */
  lemma ProgressRoom(hex: string, i: nat, digits: seq<nat>, digit: nat, places: nat)
    requires Progress(hex, i, digits, digit, places)
    ensures places < 8
    ensures i > 0 || places > 0 ==> |digits| < DigitsNeeded(hex)
  {
    assert Look(DIGITS_FOLD);
  }

  function DigitsNeeded(hex: string): nat {
    (|hex| + HEX_DIGITS_PER_DIGIT - 1) / HEX_DIGITS_PER_DIGIT
  }

  lemma Regroup(a: int, b: int, c: int)
    ensures (a * b) * c == a * (b * c)
  {
  }

  /** Digits without a leading zero that have the literal's value are what it denotes. */
  lemma ParsedDenotes(s: string, neg: bool, digits: seq<nat>)
    requires IsLiteral(s) && DigitsOk(digits) && Value(digits) == HexValue(Body(s))
    requires digits != [] ==> digits[|digits| - 1] != 0
    requires neg == (HasSign(s) && digits != [])
    ensures Denotes(s, Bigint(neg, digits))
  {
    if digits != [] {
      ValueLowerBound(digits);
    }
  }

  /** Parses -?0[xX] followed by hexadecimal digits; anything else is refused. */
  method NewBigint(s: string) returns (r: Option<Bigint>)
    ensures r.Some? <==> IsLiteral(s)
    ensures r.Some? ==> Denotes(s, r.value)
  {
    var neg := false;
    var rest := s;
    if |rest| > 0 && rest[0] == '-' {
      neg := true;
      rest := rest[1..];
    }
    if |rest| < 2 || rest[0] != '0' || (rest[1] != 'x' && rest[1] != 'X') {
      return None;
    }
    var hex := rest[2..];
    if |hex| == 0 {
      return None;
    }
    var digits, used := ReadDigits(hex);
    if used < 0 {
      return None;
    }
    used := Trim(digits, used);
    if used == 0 {
      neg := false;
    }
    ParsedDenotes(s, neg, digits[..used]);
    r := Some(Bigint(neg, digits[..used]));
  }

  /** Collects the digits from the right, eight to an array element; -1 on a bad character. */
  method ReadDigits(hex: string) returns (digits: array<nat>, used: int)
    requires hex != ""
    ensures -1 <= used <= digits.Length
    ensures used >= 0 <==> AllHex(hex)
    ensures used >= 0 ==> DigitsOk(digits[..used]) && Value(digits[..used]) == HexValue(hex)
  {
    digits := new nat[DigitsNeeded(hex)](_ => 0);
    used := 0;
    var digit: nat := 0;
    var places: nat := 0;
    var i := |hex|;
    ProgressStart(hex);
    assert digits[..0] == [];
    while i > 0
      invariant 0 <= i <= |hex| && 0 <= used <= digits.Length == DigitsNeeded(hex)
      invariant Progress(hex, i, digits[..used], digit, places)
    {
      if !IsHexDigit(hex[i - 1]) {
        return digits, -1;
      }
      ProgressRoom(hex, i, digits[..used], digit, places);
      ghost var before, wasDigit := digits[..used], digit;
      digit := Above(digit, hex[i - 1], places);
      places := places + 1;
      if places == 8 {
        ProgressFull(hex, i, before, wasDigit);
        digits[used] := digit;
        used := used + 1;
        assert digits[..used] == before + [digit];
        digit, places := 0, 0;
      } else {
        ProgressOne(hex, i, before, wasDigit, places - 1);
      }
      i := i - 1;
    }
    ProgressRoom(hex, 0, digits[..used], digit, places);
    ProgressEnd(hex, digits[..used], digit, places);
    if places != 0 {
      ghost var before := digits[..used];
      digits[used] := digit;
      used := used + 1;
      assert digits[..used] == before + [digit];
    }
  }

  /** Drops leading zero digits; the value stays. */
  method Trim(digits: array<nat>, count: int) returns (used: int)
    requires 0 <= count <= digits.Length
    ensures 0 <= used <= count
    ensures Value(digits[..used]) == Value(digits[..count])
    ensures used > 0 ==> digits[used - 1] != 0
  {
    used := count;
    while used > 0 && digits[used - 1] == 0
      invariant 0 <= used <= count
      invariant Value(digits[..used]) == Value(digits[..count])
    {
      ValueAppend(digits[..used - 1], 0);
      assert digits[..used] == digits[..used - 1] + [0];
      used := used - 1;
    }
  }

  // ----- printing -----

  /** Writing one more hexadecimal digit in front. */
  lemma {:induction false} NibblesCons(d: nat, k: nat)
    ensures Nibbles(d, k + 1) == [IntToHexDigit((d / Pow16(k)) % 16)] + Nibbles(d, k)
    decreases k
  {
    if k == 0 {
      assert d / 1 == d;
    } else {
      NibblesCons(d / 16, k - 1);
      DivideTwice(d, 16, Pow16(k - 1));
    }
  }

  lemma DivideTwice(d: nat, a: nat, b: nat)
    requires a > 0 && b > 0
    ensures a * b > 0 && (d / a) / b == d / (a * b)
  {
    var q, r := d / a, d % a;
    var q2, r2 := q / b, q % b;
    assert d == (q2 * b + r2) * a + r;
    Distribute(q2 * b, r2, a);
    Rearrange(q2, b, a);
    DigitOnTop(r, r2, a, b);
    Rearrange(1, a, b);
    QuotientIs(d, a * b, q2, r2 * a + r);
  }

  lemma QuotientIs(d: nat, m: nat, q: nat, r: nat)
    requires m > 0 && d == q * m + r && r < m
    ensures d / m == q
  {
    QuotientUnique(d % m, d / m, r, q, m);
  }

  /** The buffer ends with `text` and a NUL, from position `pos` on. */
  ghost predicate Ends(buffer: seq<char>, pos: int, text: string) {
    0 <= pos && pos + |text| + 1 == |buffer| && buffer[pos..] == text + ['\0']
  }

  /** Writes one character in front of what is there. */
  method WriteFront(buffer: array<char>, pos: int, c: char, ghost text: string) returns (newPos: int)
    requires Ends(buffer[..], pos, text) && pos > 0
    modifies buffer
    ensures newPos == pos - 1 && Ends(buffer[..], newPos, [c] + text)
  {
    ghost var before := buffer[..];
    newPos := pos - 1;
    buffer[newPos] := c;
    assert buffer[..][newPos..] == [c] + before[pos..];
  }

  /** `digit` is what is left of `value` once its `j` lowest hexadecimal digits are written. */
  ghost predicate Written(buffer: seq<char>, pos: int, value: nat, digit: nat, j: nat, text: string) {
    digit == value / Pow16(j) && Ends(buffer, pos, Nibbles(value, j) + text)
  }

  lemma WrittenNone(buffer: seq<char>, pos: int, value: nat, text: string)
    requires Ends(buffer, pos, text)
    ensures Written(buffer, pos, value, value, 0, text)
  {
    assert Nibbles(value, 0) + text == text;
    assert value / Pow16(0) == value;
  }

  /** Writes the lowest hexadecimal digit that is left. */
  method WriteNibble(buffer: array<char>, pos: int, ghost value: nat, digit: nat, ghost j: nat, ghost text: string)
    returns (newPos: int, rest: nat)
    requires Written(buffer[..], pos, value, digit, j, text) && pos > 0
    modifies buffer
    ensures newPos == pos - 1 && rest == digit / 16
    ensures Written(buffer[..], newPos, value, rest, j + 1, text)
  {
    newPos := WriteFront(buffer, pos, IntToHexDigit(digit % 16), Nibbles(value, j) + text);
    rest := digit / 16;
    NibblesCons(value, j);
    assert [IntToHexDigit(digit % 16)] + (Nibbles(value, j) + text) == Nibbles(value, j + 1) + text;
    DivideTwice(value, Pow16(j), 16);
  }

  /** Writes a digit in full width in front of what is there. */
  method WriteFullDigit(buffer: array<char>, pos: int, value: nat, ghost text: string) returns (newPos: int)
    requires Ends(buffer[..], pos, text) && pos >= 8
    modifies buffer
    ensures newPos == pos - 8 && Ends(buffer[..], newPos, Nibbles(value, 8) + text)
  {
    newPos := pos;
    var digit := value;
    var j := 0;
    WrittenNone(buffer[..], pos, value, text);
    while j < 8
      invariant 0 <= j <= 8 && newPos == pos - j
      invariant Written(buffer[..], newPos, value, digit, j, text)
    {
      newPos, digit := WriteNibble(buffer, newPos, value, digit, j, text);
      j := j + 1;
    }
  }

  /** Writes the most significant digit, without leading zeros. */
  method WriteTopDigit(buffer: array<char>, pos: int, value: nat, ghost text: string) returns (newPos: int)
    requires Ends(buffer[..], pos, text) && pos >= NibbleCount(value)
    modifies buffer
    ensures newPos == pos - NibbleCount(value)
    ensures Ends(buffer[..], newPos, Nibbles(value, NibbleCount(value)) + text)
  {
    newPos := pos;
    var digit := value;
    ghost var j := 0;
    WrittenNone(buffer[..], pos, value, text);
    while digit != 0
      invariant newPos == pos - j
      invariant j + NibbleCount(digit) == NibbleCount(value)
      invariant Written(buffer[..], newPos, value, digit, j, text)
      decreases digit
    {
      newPos, digit := WriteNibble(buffer, newPos, value, digit, j, text);
      j := j + 1;
    }
  }

  /** The printed length of the digits of a number, counted on its most significant digit. */
  method CountNibbles(value: nat) returns (count: nat)
    ensures count == NibbleCount(value)
  {
    count := 0;
    var digit := value;
    while digit != 0
      invariant count + NibbleCount(digit) == NibbleCount(value)
      decreases digit
    {
      count := count + 1;
      digit := digit / 16;
    }
  }

  /** Writes all digits into the end of the buffer. */
  method WriteBody(buffer: array<char>, digits: seq<nat>) returns (pos: int)
    requires digits != [] && digits[|digits| - 1] != 0
    requires buffer.Length > |PrintedBody(digits)|
    modifies buffer
    ensures Ends(buffer[..], pos, PrintedBody(digits))
  {
    var n := |digits| - 1;
    buffer[buffer.Length - 1] := '\0';
    pos := buffer.Length - 1;
    var i := 0;
    assert digits[..0] == [];
    while i < n
      invariant 0 <= i <= n && pos == buffer.Length - 1 - 8 * i
      invariant Ends(buffer[..], pos, FullDigits(digits[..i]))
    {
      pos := WriteFullDigit(buffer, pos, digits[i], FullDigits(digits[..i]));
      assert digits[..i + 1][..i] == digits[..i];
      i := i + 1;
    }
    pos := WriteTopDigit(buffer, pos, digits[n], FullDigits(digits[..i]));
  }

  /** Fills a buffer of exactly the right length, down to position 0. */
  method WriteLiteral(buffer: array<char>, neg: bool, digits: seq<nat>)
    requires digits != [] && digits[|digits| - 1] != 0 && buffer.Length == PrintedLength(Bigint(neg, digits))
    modifies buffer
    ensures buffer[..] == Printed(Bigint(neg, digits)) + ['\0']
  {
    ghost var body := PrintedBody(digits);
    var pos := WriteBody(buffer, digits);
    pos := WriteFront(buffer, pos, 'x', body);
    pos := WriteFront(buffer, pos, '0', ['x'] + body);
    ghost var literal := "0x" + body;
    assert ['0'] + (['x'] + body) == literal;
    if neg {
      pos := WriteFront(buffer, pos, '-', literal);
      literal := ['-'] + literal;
    }
    assert pos == 0 && literal == Printed(Bigint(neg, digits));
    assert buffer[..][0..] == literal + ['\0'];
  }

  /** What printing comes to: a text, a refusal, or a length that its 32-bit variable cannot hold. */
  datatype Print = Text(text: string) | Refused | Overrun

  /** The length is counted first, and the literal then written from the end. */
  method PrintDigits(neg: bool, digits: seq<nat>) returns (r: Print)
    requires digits != [] && digits[|digits| - 1] != 0
    ensures var b := Bigint(neg, digits);
            r == if PrintedLength(b) <= MAX_INT32 then Text(Printed(b)) else Overrun
  {
    var used := |digits|;
    var hexLen := CountNibbles(digits[used - 1]);
    hexLen := hexLen + (used - 1) * HEX_DIGITS_PER_DIGIT;
    var len := (if neg then 1 else 0) + 2 + hexLen + 1;
    if len > MAX_INT32 {
      return Overrun;
    }
    var buffer := new char[len](_ => '?');
    WriteLiteral(buffer, neg, digits);
    r := Text(buffer[..len - 1]);
  }

  /** Prints a normalized number as the literal that denotes it. */
  method BigintToHexValue(b: Bigint, maxIntptr: nat) returns (r: Print)
    requires Normalized(b) && maxIntptr >= MAX_INT32
    ensures r.Refused? <==> |b.digits| > MaxUsed(maxIntptr)
    ensures r.Overrun? <==> |b.digits| <= MaxUsed(maxIntptr) && !ShortEnough(b)
    ensures r.Text? ==> r.text == Printed(b) && IsLiteral(r.text) && Denotes(r.text, b)
  {
    LengthFitsIff(b);
    PrintedDenotes(b);
    if |b.digits| == 0 {
      r := Text("0x0");
    } else if |b.digits| > MaxUsed(maxIntptr) {
      r := Refused;
    } else {
      r := PrintDigits(b.neg, b.digits);
    }
  }

  // ----- the two directions together -----

  /** Parsing what was printed gives the number back. */
  method PrintThenParse(b: Bigint, maxIntptr: nat) returns (r: Option<Bigint>)
    requires Normalized(b) && maxIntptr >= MAX_INT32
    ensures r == if |b.digits| <= MaxUsed(maxIntptr) && ShortEnough(b) then Some(b) else None
  {
    var printed := BigintToHexValue(b, maxIntptr);
    if !printed.Text? {
      return None;
    }
    r := NewBigint(printed.text);
    DenotesUnique(printed.text, b, r.value);
  }

  /** Printing what was parsed gives the literal's canonical form. */
  method ParseThenPrint(s: string, maxIntptr: nat) returns (t: Option<string>)
    requires IsLiteral(s) && maxIntptr >= MAX_INT32
    ensures t == if |CanonicalBody(Body(s))| <= 8 * MaxUsed(maxIntptr) && |Canonical(s)| < MAX_INT32
                 then Some(Canonical(s)) else None
  {
    var r := NewBigint(s);
    PrintedIsCanonical(s, r.value);
    if r.value.digits != [] {
      PrintedBodyLength(r.value.digits);
    }
    LengthFitsIff(r.value);
    var printed := BigintToHexValue(r.value, maxIntptr);
    t := if printed.Text? then Some(printed.text) else None;
  }
}
