/** The number production's lexical side (src/gjson.c:196-260): the staging scan, the prefix that
    `strtod` converts, the exact decimal value of that prefix and the saturating `valueint`. */
module GJsonNumber {
  import opened Wrappers
  import opened CStrings

  /** `sizeof(number_c_string) - 1`: at most this many bytes are staged. */
  const StagingLimit: nat := 63

  const INT_MAX: int := 0x7fff_ffff
  const INT_MIN: int := -0x8000_0000

  predicate IsDigit(b: byte)
  {
    '0' as int <= b as int <= '9' as int
  }

  predicate IsSign(b: byte)
  {
    b as int == '+' as int || b as int == '-' as int
  }

  predicate IsExponentMark(b: byte)
  {
    b as int == 'e' as int || b as int == 'E' as int
  }

  predicate IsDot(b: byte)
  {
    b as int == '.' as int
  }

  /** The bytes the staging loop copies: `0-9 + - e E .`. */
  predicate InNumberSet(b: byte)
  {
    IsDigit(b) || IsSign(b) || IsExponentMark(b) || IsDot(b)
  }

  /** How many bytes from `off` the staging loop copies, counting on from `i` already copied. */
  function ScanFrom(s: Bytes, off: nat, i: nat): (n: nat)
    requires off + i <= |s| && i <= StagingLimit
    ensures i <= n <= StagingLimit && off + n <= |s|
    decreases StagingLimit - i
  {
    if i < StagingLimit && off + i < |s| && InNumberSet(s[off + i]) then ScanFrom(s, off, i + 1) else i
  }

  /** The staging buffer's length. */
  function ScanLength(s: Bytes, off: nat): (n: nat)
    requires off <= |s|
    ensures n <= StagingLimit && off + n <= |s|
  {
    ScanFrom(s, off, 0)
  }

  /** The scan stops at the staging limit, at the end of input or at the first byte outside the set,
      and everything it takes is in the set. */
  lemma {:induction false} ScanFromBounds(s: Bytes, off: nat, i: nat)
    requires off + i <= |s| && i <= StagingLimit
    requires forall k :: off <= k < off + i ==> InNumberSet(s[k])
    ensures var n := ScanFrom(s, off, i);
      i <= n <= StagingLimit && off + n <= |s| &&
      (forall k :: off <= k < off + n ==> InNumberSet(s[k])) &&
      (n == StagingLimit || off + n == |s| || !InNumberSet(s[off + n]))
    decreases StagingLimit - i
  {
    if i < StagingLimit && off + i < |s| && InNumberSet(s[off + i]) {
      ScanFromBounds(s, off, i + 1);
    }
  }

  lemma ScanLengthBounds(s: Bytes, off: nat)
    requires off <= |s|
    ensures var n := ScanLength(s, off);
      n <= StagingLimit && off + n <= |s| &&
      (forall k :: off <= k < off + n ==> InNumberSet(s[k])) &&
      (n == StagingLimit || off + n == |s| || !InNumberSet(s[off + n]))
  {
    ScanFromBounds(s, off, 0);
  }

  /** The value of a decimal digit byte. */
  function DigitValue(b: byte): nat
    requires IsDigit(b)
  {
    b as int - '0' as int
  }

  /** The positive naturals, the range of the powers of ten. */
  type Positive = k: nat | k >= 1 witness 1

  /** 10 raised to `n`. */
  function Pow10(n: nat): Positive
  {
    if n == 0 then 1 else 10 * Pow10(n - 1)
  }

  /** 10 raised to an integer power, exactly. */
  function Scale(e: int): (r: real)
    ensures r > 0.0
  {
    if e >= 0 then Pow10(e) as real else 1.0 / Pow10(-e) as real
  }

  /** A decimal number exactly: `digits` times ten to the power `exponent`, negated if `negative`. */
  datatype Decimal = Decimal(negative: bool, digits: nat, exponent: int)

  const Zero := Decimal(false, 0, 0)

  /** The real number a decimal denotes. */
  function DecimalValue(d: Decimal): real
  {
    var magnitude := d.digits as real * Scale(d.exponent);
    if d.negative then -magnitude else magnitude
  }

  // ---------------------------------------------------------------- strtod

  /** Where a left-to-right reading of the decimal form of the C standard (7.22.1.3: an optional
      sign, a non-empty digit sequence with at most one decimal point, then an optional exponent
      of `e` or `E`, an optional sign and a non-empty digit sequence) stands after some bytes.
      `Whole`, `Fraction` and `Exponent` are the places where a number has been read. */
  datatype Phase = Start | Signed | Whole | Point | Fraction | Mark | MarkSign | Exponent

  predicate Accepting(p: Phase)
  {
    p.Whole? || p.Fraction? || p.Exponent?
  }

  /** The reading so far: where it stands, and the sign, digits and exponent seen. */
  datatype Reading = Reading(phase: Phase, negative: bool, digits: nat, fractionDigits: nat,
                             exponentNegative: bool, exponent: nat)

  const Initial := Reading(Start, false, 0, 0, false, 0)

  /** Reading one more byte; `None` when the byte cannot continue the form. Only the bytes the
      staging loop keeps (`0-9 + - e E .`) can: the form has no room for whitespace, `inf`, `nan`
      or hexadecimal here. */
  function Step(r: Reading, b: byte): Option<Reading>
  {
    match r.phase
    case Start =>
      if IsSign(b) then Some(r.(phase := Signed, negative := b as int == '-' as int))
      else if IsDigit(b) then Some(r.(phase := Whole, digits := DigitValue(b)))
      else if IsDot(b) then Some(r.(phase := Point))
      else None
    case Signed =>
      if IsDigit(b) then Some(r.(phase := Whole, digits := DigitValue(b)))
      else if IsDot(b) then Some(r.(phase := Point))
      else None
    case Whole =>
      if IsDigit(b) then Some(r.(digits := 10 * r.digits + DigitValue(b)))
      else if IsDot(b) then Some(r.(phase := Fraction))
      else if IsExponentMark(b) then Some(r.(phase := Mark))
      else None
    case Point =>
      if IsDigit(b) then
        Some(r.(phase := Fraction, digits := 10 * r.digits + DigitValue(b), fractionDigits := r.fractionDigits + 1))
      else None
    case Fraction =>
      if IsDigit(b) then
        Some(r.(digits := 10 * r.digits + DigitValue(b), fractionDigits := r.fractionDigits + 1))
      else if IsExponentMark(b) then Some(r.(phase := Mark))
      else None
    case Mark =>
      if IsSign(b) then Some(r.(phase := MarkSign, exponentNegative := b as int == '-' as int))
      else if IsDigit(b) then Some(r.(phase := Exponent, exponent := DigitValue(b)))
      else None
    case MarkSign =>
      if IsDigit(b) then Some(r.(phase := Exponent, exponent := DigitValue(b))) else None
    case Exponent =>
      if IsDigit(b) then Some(r.(exponent := 10 * r.exponent + DigitValue(b))) else None
  }

  /** The number a reading has read. */
  function Denote(r: Reading): Decimal
  {
    var e: int := if r.exponentNegative then -(r.exponent as int) else r.exponent;
    Decimal(r.negative, r.digits, e - r.fractionDigits)
  }

  /** `strtod` reading `t[i..hi]` from reading `r`, where `last` is the number read so far and
      the position after it: the result is the number at the last place the reading accepted. */
  function Convert(t: Bytes, i: nat, hi: nat, r: Reading, last: (Decimal, nat)): (res: (Decimal, nat))
    requires i <= hi <= |t|
    ensures res == last || i < res.1 <= hi
    decreases hi - i
  {
    if i == hi then last
    else match Step(r, t[i])
      case None => last
      case Some(r') => Convert(t, i + 1, hi, r', if Accepting(r'.phase) then (Denote(r'), i + 1) else last)
  }

  /** `strtod` on the NUL-terminated buffer `t`: the number read, before rounding to a double, and
      how many bytes it consumed; (zero, 0) when there is no conversion. */
  function Strtod(t: Bytes): (res: (Decimal, nat))
    ensures res.1 <= |t|
  {
    Convert(t, 0, |t|, Initial, (Zero, 0))
  }

  /** Reading a copy is reading the original: `Convert` on `t[i..hi]` and on the same bytes lying
      `off` further into `s` give the same number, at positions `off` apart. */
  lemma {:induction false} ConvertShift(s: Bytes, off: nat, t: Bytes, i: nat, hi: nat, r: Reading, last: (Decimal, nat))
    requires i <= hi <= |t| && off + hi <= |s|
    requires forall k :: i <= k < hi ==> t[k] == s[off + k]
    ensures var res := Convert(t, i, hi, r, last);
      Convert(s, off + i, off + hi, r, (last.0, off + last.1)) == (res.0, off + res.1)
    decreases hi - i
  {
    if i < hi {
      assert t[i] == s[off + i];
      match Step(r, t[i])
      case None =>
      case Some(r') =>
        var next := if Accepting(r'.phase) then (Denote(r'), i + 1) else last;
        ConvertShift(s, off, t, i + 1, hi, r', next);
    }
  }

  /** Conversion to `int` in C: truncation toward zero. */
  function Truncate(x: real): int
  {
    if x >= 0.0 then x.Floor else -((-x).Floor)
  }

  /** `valueint`: INT_MAX above INT_MAX, INT_MIN at or below INT_MIN, else truncation. */
  function IntProjection(x: real): int
  {
    if x > INT_MAX as real then INT_MAX
    else if x <= INT_MIN as real then INT_MIN
    else Truncate(x)
  }

  /** The projection never leaves the C `int` range, saturates outside it, and inside it drops
      the fraction toward zero. */
  lemma IntProjectionBounds(x: real)
    ensures INT_MIN <= IntProjection(x) <= INT_MAX
    ensures x > INT_MAX as real ==> IntProjection(x) == INT_MAX
    ensures x <= INT_MIN as real ==> IntProjection(x) == INT_MIN
    ensures INT_MIN as real < x <= INT_MAX as real ==>
      var r := IntProjection(x) as real;
      (x >= 0.0 ==> r <= x < r + 1.0) && (x < 0.0 ==> r - 1.0 < x <= r)
  {
  }

  /** An integral value in range is projected to itself. */
  lemma IntProjectionOfInt(n: int)
    requires INT_MIN <= n <= INT_MAX
    ensures IntProjection(n as real) == n
  {
  }
}
