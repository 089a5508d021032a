/**
 Big integers as little-endian sequences of 32-bit digits, hexadecimal literals, and
 what it means for the two to denote the same number.
 */
module BigintSpec {

  const HEX_DIGITS_PER_DIGIT: nat := 8
  const MAX_INT32: nat := 0x7FFF_FFFF

  /** The longest number, in digits, that is printed where intptr_t reaches up to `maxIntptr`. */
  function MaxUsed(maxIntptr: nat): nat
    requires maxIntptr >= MAX_INT32
  {
    (maxIntptr - 4) / HEX_DIGITS_PER_DIGIT
  }

  // ----- arithmetic -----

  lemma Distribute(a: int, b: int, c: int)
    ensures (a + b) * c == a * c + b * c
    ensures c * (a + b) == c * a + c * b
  {
  }

  lemma Rearrange(x: int, p: int, k: int)
    ensures (x * p) * k == x * (k * p)
  {
  }

  lemma ShiftStep(x: int, p: int, y: int, d: int)
    ensures (x * p + y) * 16 + d == x * (16 * p) + (y * 16 + d)
  {
    Distribute(x * p, y, 16);
    Rearrange(x, p, 16);
  }

  lemma AtLeastOnce(d: nat, p: nat)
    requires d > 0
    ensures d * p >= p
  {
    Distribute(d - 1, 1, p);
  }

  /** A digit on top of a remainder stays below the next power. */
  lemma DigitOnTop(v: nat, d: nat, p: nat, base: nat)
    requires v < p && d < base
    ensures v + d * p < base * p
  {
    Distribute(d, 1, p);
    Distribute(base - 1 - d, d + 1, p);
    assert (base - 1 - d) * p >= 0;
  }

  lemma QuotientUnique(r: nat, q: nat, s: nat, t: nat, p: nat)
    requires r < p && s < p && r + q * p == s + t * p
    ensures r == s && q == t
  {
    if q < t {
      Distribute(t - q, q, p);
      AtLeastOnce(t - q, p);
    } else if t < q {
      Distribute(q - t, t, p);
      AtLeastOnce(q - t, p);
    }
  }

  // ----- powers of sixteen -----

  function Pow16(k: nat): (p: nat)
    ensures p > 0
  {
    if k == 0 then 1 else 16 * Pow16(k - 1)
  }

  lemma {:induction false} Pow16Add(a: nat, b: nat)
    ensures Pow16(a + b) == Pow16(a) * Pow16(b)
  {
    if a == 0 {
    } else {
      Pow16Add(a - 1, b);
      assert Pow16(a + b) == 16 * Pow16(a - 1 + b);
    }
  }

  // ----- hexadecimal digits -----

  predicate IsHexDigit(c: char) {
    '0' <= c <= '9' || 'A' <= c <= 'F' || 'a' <= c <= 'f'
  }

  function HexDigitToInt(c: char): (d: nat)
    requires IsHexDigit(c)
    ensures d < 16
  {
    if '0' <= c <= '9' then (c - '0') as nat
    else if 'A' <= c <= 'F' then 10 + (c - 'A') as nat
    else 10 + (c - 'a') as nat
  }

  function IntToHexDigit(i: nat): (c: char)
    requires i < 16
    ensures IsHexDigit(c) && HexDigitToInt(c) == i && !('a' <= c <= 'f')
  {
    if i < 10 then '0' + i as char else 'A' + (i - 10) as char
  }

  const UPPER_DIGITS: string := "0123456789ABCDEF"
  const LOWER_DIGITS: string := "0123456789abcdef"

  /** A character is a digit exactly if it stands in one of the two tables, and then it is worth its place there. */
  lemma HexDigitIs(c: char)
    ensures IsHexDigit(c) <==> c in UPPER_DIGITS || c in LOWER_DIGITS
    ensures IsHexDigit(c) ==> c == UPPER_DIGITS[HexDigitToInt(c)] || c == LOWER_DIGITS[HexDigitToInt(c)]
  {
    if IsHexDigit(c) {
      var d := HexDigitToInt(c);
      if c <= '9' {
        assert c == UPPER_DIGITS[d];
      } else if c <= 'F' {
        assert c == UPPER_DIGITS[d];
      } else {
        assert c == LOWER_DIGITS[d];
      }
    }
  }

  /** What is printed for a number below sixteen is in its place in the upper-case table. */
  lemma PrintedDigitIs(i: nat)
    requires i < 16
    ensures IntToHexDigit(i) == UPPER_DIGITS[i]
  {
  }

  lemma LowerDigitIs(i: nat)
    requires i < 16
    ensures LOWER_DIGITS[i] == if i < 10 then '0' + i as char else 'a' + (i - 10) as char
  {
  }

  predicate AllHex(s: string) {
    forall i :: 0 <= i < |s| ==> IsHexDigit(s[i])
  }

  /** The number a string of hexadecimal digits denotes. */
  function HexValue(s: string): nat
    requires AllHex(s)
  {
    if s == "" then 0 else HexValue(s[..|s| - 1]) * 16 + HexDigitToInt(s[|s| - 1])
  }

  lemma {:induction false} HexValueConcat(a: string, b: string)
    requires AllHex(a) && AllHex(b)
    ensures AllHex(a + b) && HexValue(a + b) == HexValue(a) * Pow16(|b|) + HexValue(b)
    decreases |b|
  {
    if b == "" {
      assert a + b == a;
    } else {
      var n := |b| - 1;
      var front, last := b[..n], b[n];
      assert (a + b)[..|a + b| - 1] == a + front;
      HexValueConcat(a, front);
      ShiftStep(HexValue(a), Pow16(n), HexValue(front), HexDigitToInt(last));
    }
  }

  lemma OneDigit(c: char)
    requires IsHexDigit(c)
    ensures AllHex([c]) && HexValue([c]) == HexDigitToInt(c)
  {
    assert [c][..0] == "";
  }

  /** One more digit in front is worth its value times the places behind it. */
  lemma HexValueFront(c: char, s: string)
    requires IsHexDigit(c) && AllHex(s)
    ensures AllHex([c] + s) && HexValue([c] + s) == HexDigitToInt(c) * Pow16(|s|) + HexValue(s)
  {
    OneDigit(c);
    HexValueConcat([c], s);
  }

  lemma {:induction false} HexValueBound(s: string)
    requires AllHex(s)
    ensures HexValue(s) < Pow16(|s|)
  {
    if s == "" {
    } else {
      HexValueBound(s[..|s| - 1]);
    }
  }

  // ----- big integers -----

  /** `digits` are the used digits, the least significant first. */
  datatype Bigint = Bigint(neg: bool, digits: seq<nat>)

  const DIGIT_BASE: nat := 0x1_0000_0000

  lemma DigitBaseIsPow16()
    ensures DIGIT_BASE == Pow16(HEX_DIGITS_PER_DIGIT)
  {
    assert Pow16(4) == 0x1_0000;
    Pow16Add(4, 4);
  }

  function Value(digits: seq<nat>): nat {
    if digits == [] then 0 else Value(digits[..|digits| - 1]) + digits[|digits| - 1] * Pow16(8 * (|digits| - 1))
  }

  predicate DigitsOk(digits: seq<nat>) {
    forall i :: 0 <= i < |digits| ==> digits[i] < DIGIT_BASE
  }

  /** No leading zero digit, and zero has no sign. */
  predicate Normalized(b: Bigint) {
    && DigitsOk(b.digits)
    && (b.digits != [] ==> b.digits[|b.digits| - 1] != 0)
    && (b.digits == [] ==> !b.neg)
  }

  lemma {:induction false} ValueBound(digits: seq<nat>)
    requires DigitsOk(digits)
    ensures Value(digits) < Pow16(8 * |digits|)
  {
    if digits == [] {
    } else {
      var n := |digits| - 1;
      ValueBound(digits[..n]);
      DigitBaseIsPow16();
      Pow16Add(8 * n, 8);
      DigitOnTop(Value(digits[..n]), digits[n], Pow16(8 * n), DIGIT_BASE);
    }
  }

  /** A normalized number is determined by its value. */
  lemma {:induction false} DigitsUnique(a: seq<nat>, b: seq<nat>)
    requires DigitsOk(a) && DigitsOk(b) && |a| == |b| && Value(a) == Value(b)
    ensures a == b
  {
    if a == [] {
    } else {
      var n := |a| - 1;
      ValueBound(a[..n]);
      ValueBound(b[..n]);
      var p := Pow16(8 * n);
      QuotientUnique(Value(a[..n]), a[n], Value(b[..n]), b[n], p);
      DigitsUnique(a[..n], b[..n]);
      assert a == a[..n] + [a[n]] && b == b[..n] + [b[n]];
    }
  }

  lemma {:induction false} ValueLowerBound(digits: seq<nat>)
    requires digits != [] && digits[|digits| - 1] != 0
    ensures Value(digits) >= Pow16(8 * (|digits| - 1))
  {
    AtLeastOnce(digits[|digits| - 1], Pow16(8 * (|digits| - 1)));
  }

  lemma {:induction false} Pow16Monotone(a: nat, b: nat)
    requires a <= b
    ensures Pow16(a) <= Pow16(b)
    decreases b
  {
    if a >= b {
    } else {
      Pow16Monotone(a, b - 1);
    }
  }

  lemma NormalizedUnique(a: Bigint, b: Bigint)
    requires Normalized(a) && Normalized(b)
    requires Value(a.digits) == Value(b.digits) && a.neg == b.neg
    ensures a == b
  {
    SameLength(a.digits, b.digits);
    SameLength(b.digits, a.digits);
    DigitsUnique(a.digits, b.digits);
  }

  lemma SameLength(a: seq<nat>, b: seq<nat>)
    requires DigitsOk(a) && DigitsOk(b) && Value(a) == Value(b)
    requires b != [] ==> b[|b| - 1] != 0
    ensures |b| <= |a|
  {
    if |a| < |b| {
      ValueBound(a);
      ValueLowerBound(b);
      Pow16Monotone(8 * |a|, 8 * (|b| - 1));
      assert false;
    }
  }

  // ----- literals -----

  predicate HasSign(s: string) {
    s != "" && s[0] == '-'
  }

  function Unsigned(s: string): string {
    if HasSign(s) then s[1..] else s
  }

  /** -?0[xX][0-9A-Fa-f]+ */
  predicate IsLiteral(s: string) {
    var t := Unsigned(s);
    |t| > 2 && t[0] == '0' && (t[1] == 'x' || t[1] == 'X') && AllHex(t[2..])
  }

  /** The digits of a literal. */
  function Body(s: string): string
    requires IsLiteral(s)
    ensures Body(s) != "" && AllHex(Body(s))
  {
    Unsigned(s)[2..]
  }

  /** The number that a literal denotes, normalized; `-0x0` is plain zero. */
  ghost predicate Denotes(s: string, b: Bigint)
    requires IsLiteral(s)
  {
    && Normalized(b)
    && Value(b.digits) == HexValue(Body(s))
    && b.neg == (HasSign(s) && HexValue(Body(s)) != 0)
  }

  lemma DenotesUnique(s: string, a: Bigint, b: Bigint)
    requires IsLiteral(s) && Denotes(s, a) && Denotes(s, b)
    ensures a == b
  {
    NormalizedUnique(a, b);
  }

  // ----- printing -----

  /** The k lowest hexadecimal digits of a number, the highest first. */
  function Nibbles(d: nat, k: nat): (s: string)
    ensures |s| == k && AllHex(s)
  {
    if k == 0 then "" else Nibbles(d / 16, k - 1) + [IntToHexDigit(d % 16)]
  }

  /** How many hexadecimal digits a number needs. */
  function NibbleCount(d: nat): nat {
    if d == 0 then 0 else 1 + NibbleCount(d / 16)
  }

  /** All digits in full width, the most significant first. */
  function FullDigits(digits: seq<nat>): (s: string)
    ensures |s| == 8 * |digits| && AllHex(s)
  {
    if digits == [] then ""
    else Nibbles(digits[|digits| - 1], 8) + FullDigits(digits[..|digits| - 1])
  }

  /** The most significant digit is printed without leading zeros. */
  function PrintedBody(digits: seq<nat>): (s: string)
    ensures AllHex(s) && s != ""
  {
    if digits == [] || digits[|digits| - 1] == 0 then "0"
    else
      var n := |digits| - 1;
      Nibbles(digits[n], NibbleCount(digits[n])) + FullDigits(digits[..n])
  }

  function Printed(b: Bigint): string {
    (if b.neg then "-" else "") + "0x" + PrintedBody(b.digits)
  }

  lemma {:induction false} NibblesValue(d: nat, k: nat)
    requires d < Pow16(k)
    ensures HexValue(Nibbles(d, k)) == d
    decreases k
  {
    if k == 0 {
    } else {
      NibblesValue(d / 16, k - 1);
      var s := Nibbles(d, k);
      assert s[..|s| - 1] == Nibbles(d / 16, k - 1);
    }
  }

  lemma {:induction false} NibbleCountFits(d: nat)
    ensures d < Pow16(NibbleCount(d))
  {
    if d == 0 {
    } else {
      NibbleCountFits(d / 16);
    }
  }

  lemma {:induction false} NibbleCountIff(d: nat, k: nat)
    ensures NibbleCount(d) <= k <==> d < Pow16(k)
    decreases k
  {
    if d == 0 || k == 0 {
    } else {
      NibbleCountIff(d / 16, k - 1);
    }
  }

  lemma {:induction false} FullDigitsValue(digits: seq<nat>)
    requires DigitsOk(digits)
    ensures HexValue(FullDigits(digits)) == Value(digits)
  {
    if digits == [] {
    } else {
      var n := |digits| - 1;
      FullDigitsValue(digits[..n]);
      DigitBaseIsPow16();
      NibblesValue(digits[n], 8);
      HexValueConcat(Nibbles(digits[n], 8), FullDigits(digits[..n]));
    }
  }

  /** The printed digits denote the number. */
  lemma PrintedBodyValue(digits: seq<nat>)
    requires DigitsOk(digits) && (digits != [] ==> digits[|digits| - 1] != 0)
    ensures HexValue(PrintedBody(digits)) == Value(digits)
  {
    if digits == [] {
      assert "0"[..0] == "";
    } else {
      var n := |digits| - 1;
      FullDigitsValue(digits[..n]);
      NibbleCountFits(digits[n]);
      NibblesValue(digits[n], NibbleCount(digits[n]));
      HexValueConcat(Nibbles(digits[n], NibbleCount(digits[n])), FullDigits(digits[..n]));
    }
  }

  /** How long the printed digits are, against the number of digits. */
  lemma PrintedBodyLength(digits: seq<nat>)
    requires DigitsOk(digits) && digits != [] && digits[|digits| - 1] != 0
    ensures 8 * (|digits| - 1) < |PrintedBody(digits)| <= 8 * |digits|
  {
    DigitBaseIsPow16();
    NibbleCountIff(digits[|digits| - 1], 8);
  }

  /** The length of what is printed, with the NUL behind it. */
  function PrintedLength(b: Bigint): nat {
    |Printed(b)| + 1
  }

  /** The number has less than 2^28 digits, or just as many with the topmost one small. */
  predicate ShortEnough(b: Bigint) {
    || |b.digits| < 0x1000_0000
    || (|b.digits| == 0x1000_0000 && b.digits[|b.digits| - 1] < if b.neg then 0x1000 else 0x1_0000)
  }

  /** When the length fits in the 32-bit variable that holds it. */
  lemma LengthFitsIff(b: Bigint)
    requires Normalized(b)
    ensures PrintedLength(b) <= MAX_INT32 <==> ShortEnough(b)
  {
    if b.digits == [] {
    } else {
      var top := b.digits[|b.digits| - 1];
      PrintedBodyLength(b.digits);
      NibbleCountIff(top, if b.neg then 3 else 4);
      assert Pow16(3) == 0x1000 && Pow16(4) == 0x1_0000;
    }
  }

  /** Where intptr_t has 32 bits it always fits. */
  lemma LengthFits(b: Bigint)
    requires Normalized(b) && |b.digits| <= MaxUsed(MAX_INT32)
    ensures PrintedLength(b) <= MAX_INT32
  {
    LengthFitsIff(b);
  }

  /** Where it has 64 bits it does not: a number that passes the check on its digits. */
  lemma LengthOverflows() returns (b: Bigint)
    ensures Normalized(b) && |b.digits| <= MaxUsed(0x7FFF_FFFF_FFFF_FFFF)
    ensures PrintedLength(b) > MAX_INT32
  {
    var digits: seq<nat> := seq(0x1000_0001, _ => 1);
    b := Bigint(false, digits);
    PrintedBodyLength(digits);
  }

  /** Printing a normalized number gives a literal that denotes it. */
  lemma PrintedDenotes(b: Bigint)
    requires Normalized(b)
    ensures IsLiteral(Printed(b)) && Denotes(Printed(b), b)
  {
    var s, body := Printed(b), PrintedBody(b.digits);
    assert Unsigned(s) == "0x" + body;
    assert Unsigned(s)[2..] == body;
    PrintedBodyValue(b.digits);
    if b.digits != [] {
      ValueLowerBound(b.digits);
    }
  }

  // ----- literals and numbers, read off the digit tables -----

  /** The characters of a string are the digits `ds`, in either case. */
  ghost predicate Spells(s: string, ds: seq<nat>) {
    && |s| == |ds|
    && forall i :: 0 <= i < |s| ==> ds[i] < 16 && (s[i] == UPPER_DIGITS[ds[i]] || s[i] == LOWER_DIGITS[ds[i]])
  }

  /** The number with the given digits to the base sixteen, the highest first. */
  function Positional(ds: seq<nat>): nat {
    if ds == [] then 0 else ds[0] * Pow16(|ds| - 1) + Positional(ds[1..])
  }

  /** The number with the given 32-bit digits, the lowest first. */
  function LittleEndian(digits: seq<nat>): nat {
    if digits == [] then 0 else digits[0] + DIGIT_BASE * LittleEndian(digits[1..])
  }

  lemma SpelledDigit(c: char, d: nat)
    requires d < 16 && (c == UPPER_DIGITS[d] || c == LOWER_DIGITS[d])
    ensures IsHexDigit(c) && HexDigitToInt(c) == d
  {
    PrintedDigitIs(d);
    LowerDigitIs(d);
  }

  /** A string is worth what its digits are worth in their places. */
  lemma {:induction false} SpelledValue(s: string, ds: seq<nat>)
    requires Spells(s, ds)
    ensures AllHex(s) && HexValue(s) == Positional(ds)
  {
    if s == "" {
    } else {
      SpelledDigit(s[0], ds[0]);
      SpelledValue(s[1..], ds[1..]);
      HexValueFront(s[0], s[1..]);
      assert s == [s[0]] + s[1..];
    }
  }

  lemma {:induction false} ValueIsLittleEndian(digits: seq<nat>)
    ensures Value(digits) == LittleEndian(digits)
  {
    if digits == [] {
    } else {
      ValueFront(digits);
      ValueIsLittleEndian(digits[1..]);
    }
  }

  lemma {:induction false} ValueFront(digits: seq<nat>)
    requires digits != []
    ensures Value(digits) == digits[0] + DIGIT_BASE * Value(digits[1..])
  {
    var n := |digits| - 1;
    if n == 0 {
      assert digits[..0] == [] && digits[1..] == [];
    } else {
      var front, rest := digits[..n], digits[1..];
      assert front[1..] == rest[..n - 1] && rest[n - 1] == digits[n];
      ValueFront(front);
      DigitBaseIsPow16();
      Pow16Add(8, 8 * (n - 1));
      Rearrange(digits[n], Pow16(8 * (n - 1)), DIGIT_BASE);
      Distribute(Value(rest[..n - 1]), digits[n] * Pow16(8 * (n - 1)), DIGIT_BASE);
    }
  }

  /** A literal denotes the one number with its digits, read off the tables, and its sign. */
  lemma DenotesIff(s: string, ds: seq<nat>, b: Bigint)
    requires IsLiteral(s) && Spells(Body(s), ds)
    ensures Denotes(s, b) <==>
              && Normalized(b) && LittleEndian(b.digits) == Positional(ds)
              && b.neg == (s[0] == '-' && Positional(ds) != 0)
  {
    SpelledValue(Body(s), ds);
    ValueIsLittleEndian(b.digits);
  }

  function InUpperCase(ds: seq<nat>): string
    requires forall i :: 0 <= i < |ds| ==> ds[i] < 16
  {
    seq(|ds|, i requires 0 <= i < |ds| => UPPER_DIGITS[ds[i]])
  }

  lemma UpperHexSpells(s: string) returns (ds: seq<nat>)
    requires UpperHex(s)
    ensures (forall i :: 0 <= i < |ds| ==> ds[i] < 16) && s == InUpperCase(ds) && Spells(s, ds)
  {
    ds := seq(|s|, i requires 0 <= i < |s| => HexDigitToInt(s[i]));
    forall i | 0 <= i < |s| ensures s[i] == UPPER_DIGITS[ds[i]] {
      PrintedDigitIs(ds[i]);
      SameDigit(s[i], IntToHexDigit(ds[i]));
    }
  }

  /** What is printed: the digits to the base sixteen, in upper case, with no zero in front but zero itself. */
  lemma PrintedSpells(b: Bigint) returns (ds: seq<nat>)
    requires Normalized(b)
    ensures ds != [] && (forall i :: 0 <= i < |ds| ==> ds[i] < 16) && (ds[0] == 0 ==> |ds| == 1)
    ensures Positional(ds) == LittleEndian(b.digits)
    ensures Printed(b) == (if b.neg then "-0x" else "0x") + InUpperCase(ds)
  {
    var body := PrintedBody(b.digits);
    if b.digits != [] {
      PrintedBodyMinimal(b.digits);
    }
    ds := UpperHexSpells(body);
    SpelledValue(body, ds);
    PrintedBodyValue(b.digits);
    ValueIsLittleEndian(b.digits);
    PrintedDigitIs(ds[0]);
  }

  // ----- the canonical form of a literal -----

  function Upper(s: string): (u: string)
    requires AllHex(s)
    ensures |u| == |s|
  {
    seq(|s|, i requires 0 <= i < |s| => IntToHexDigit(HexDigitToInt(s[i])))
  }

  function TrimZeros(s: string): string {
    if s != "" && s[0] == '0' then TrimZeros(s[1..]) else s
  }

  /** Upper case, no leading zeros, no sign on zero. */
  function CanonicalBody(s: string): string
    requires AllHex(s)
  {
    var t := TrimZeros(Upper(s));
    if t == "" then "0" else t
  }

  ghost function Canonical(s: string): string
    requires IsLiteral(s)
  {
    (if HasSign(s) && HexValue(Body(s)) != 0 then "-" else "") + "0x" + CanonicalBody(Body(s))
  }

  predicate UpperHex(s: string) {
    forall i :: 0 <= i < |s| ==> IsHexDigit(s[i]) && !('a' <= s[i] <= 'f')
  }

  /** Upper-case digits of equal length with equal values are equal. */
  lemma {:induction false} UpperHexUnique(a: string, b: string)
    requires UpperHex(a) && UpperHex(b) && |a| == |b| && HexValue(a) == HexValue(b)
    ensures a == b
  {
    if a == "" {
    } else {
      var n := |a| - 1;
      UpperHexUnique(a[..n], b[..n]);
      SameDigit(a[n], b[n]);
      assert a == a[..n] + [a[n]] && b == b[..n] + [b[n]];
    }
  }

  lemma SameDigit(c: char, d: char)
    requires IsHexDigit(c) && IsHexDigit(d) && !('a' <= c <= 'f') && !('a' <= d <= 'f')
    requires HexDigitToInt(c) == HexDigitToInt(d)
    ensures c == d
  {
  }

  /** Digits without a leading zero need as many places as their value says. */
  lemma LeadingDigit(s: string)
    requires AllHex(s) && s != "" && HexDigitToInt(s[0]) != 0
    ensures HexValue(s) >= Pow16(|s| - 1)
  {
    assert s == [s[0]] + s[1..];
    HexValueFront(s[0], s[1..]);
    AtLeastOnce(HexDigitToInt(s[0]), Pow16(|s| - 1));
  }

  lemma MinimalUnique(a: string, b: string)
    requires UpperHex(a) && UpperHex(b) && HexValue(a) == HexValue(b)
    requires a != "" ==> a[0] != '0'
    requires b != "" ==> b[0] != '0'
    ensures a == b
  {
    NotLonger(a, b);
    NotLonger(b, a);
    UpperHexUnique(a, b);
  }

  lemma NotLonger(a: string, b: string)
    requires UpperHex(a) && UpperHex(b) && HexValue(a) == HexValue(b)
    requires b != "" ==> b[0] != '0'
    ensures |b| <= |a|
  {
    if |a| < |b| {
      ShorterIsSmaller(a, b);
    }
  }

  lemma ShorterIsSmaller(a: string, b: string)
    requires AllHex(a) && UpperHex(b) && |a| < |b| && b[0] != '0'
    ensures HexValue(a) < HexValue(b)
  {
    HexValueBound(a);
    LeadingDigit(b);
    Pow16Monotone(|a|, |b| - 1);
  }

  lemma ZeroInFront(s: string)
    requires AllHex(s)
    ensures AllHex(['0'] + s) && HexValue(['0'] + s) == HexValue(s)
  {
    HexValueFront('0', s);
    assert HexDigitToInt('0') == 0;
  }

  lemma {:induction false} TrimZerosValue(s: string)
    requires UpperHex(s)
    ensures UpperHex(TrimZeros(s)) && HexValue(TrimZeros(s)) == HexValue(s)
    ensures TrimZeros(s) != "" ==> TrimZeros(s)[0] != '0'
  {
    if s != "" && s[0] == '0' {
      TrimZerosValue(s[1..]);
      ZeroInFront(s[1..]);
      assert s == ['0'] + s[1..];
    }
  }

  lemma {:induction false} UpperValue(s: string)
    requires AllHex(s)
    ensures UpperHex(Upper(s)) && HexValue(Upper(s)) == HexValue(s)
  {
    if s == "" {
    } else {
      var n := |s| - 1;
      UpperValue(s[..n]);
      assert Upper(s)[..n] == Upper(s[..n]);
    }
  }

  lemma {:induction false} NibblesUpper(d: nat, k: nat)
    ensures UpperHex(Nibbles(d, k))
    decreases k
  {
    if k == 0 {
    } else {
      NibblesUpper(d / 16, k - 1);
    }
  }

  lemma {:induction false} FullDigitsUpper(digits: seq<nat>)
    ensures UpperHex(FullDigits(digits))
  {
    if digits == [] {
    } else {
      var n := |digits| - 1;
      FullDigitsUpper(digits[..n]);
      NibblesUpper(digits[n], 8);
    }
  }

  lemma {:induction false} NibblesLead(d: nat)
    requires d > 0
    ensures Nibbles(d, NibbleCount(d)) != "" && Nibbles(d, NibbleCount(d))[0] != '0'
  {
    if d >= 16 {
      NibblesLead(d / 16);
    } else {
      assert NibbleCount(d / 16) == 0;
    }
  }

  /** Printed digits are in upper case and have no leading zero unless they are zero. */
  lemma PrintedBodyMinimal(digits: seq<nat>)
    requires digits != [] && digits[|digits| - 1] != 0
    ensures UpperHex(PrintedBody(digits)) && PrintedBody(digits)[0] != '0'
  {
    var n := |digits| - 1;
    NibblesUpper(digits[n], NibbleCount(digits[n]));
    FullDigitsUpper(digits[..n]);
    NibblesLead(digits[n]);
  }

  /** Printing what a literal denotes gives the literal's canonical form. */
  lemma PrintedIsCanonical(s: string, b: Bigint)
    requires IsLiteral(s) && Denotes(s, b)
    ensures PrintedBody(b.digits) == CanonicalBody(Body(s))
    ensures Printed(b) == Canonical(s)
  {
    var body := Body(s);
    UpperValue(body);
    TrimZerosValue(Upper(body));
    var trimmed := TrimZeros(Upper(body));
    if b.digits == [] {
      MinimalUnique(trimmed, "");
    } else {
      PrintedBodyValue(b.digits);
      PrintedBodyMinimal(b.digits);
      MinimalUnique(trimmed, PrintedBody(b.digits));
    }
  }
}
