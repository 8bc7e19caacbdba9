/** A printer for gJSON trees and the round trip through the parser (src/gjson.c:265-498): every
    tree the parser can produce in this form prints to bytes that `gJSON_ParseWithLength` reads
    back to the same tree, whatever follows the printed value (short of a number running on). */
module GJsonPrint {
  import opened Wrappers
  import opened CStrings
  import opened GJsonNumber
  import opened GJsonTree
  import opened GJsonGrammar
  import opened GJsonStrings

  // ---------------------------------------------------------------- numbers

  function DigitByte(n: nat): (b: byte)
    requires n < 10
    ensures IsDigit(b) && DigitValue(b) == n
  {
    (0x30 + n) as byte
  }

  /** The decimal digits of `n`, most significant first, with no leading zero. */
  function PrintDigits(n: nat): (r: Bytes)
    ensures |r| >= 1 && forall k :: 0 <= k < |r| ==> IsDigit(r[k])
  {
    if n < 10 then [DigitByte(n)] else PrintDigits(n / 10) + [DigitByte(n % 10)]
  }

  /** Reading digits left to right onto `acc`, as the `Whole` phase of `Step` does. */
  function Accumulate(acc: nat, ds: Bytes): nat
    requires forall k :: 0 <= k < |ds| ==> IsDigit(ds[k])
    decreases |ds|
  {
    if ds == [] then acc else Accumulate(10 * acc + DigitValue(ds[0]), ds[1..])
  }

  lemma {:induction false} AccumulateSnoc(acc: nat, ds: Bytes, b: byte)
    requires (forall k :: 0 <= k < |ds| ==> IsDigit(ds[k])) && IsDigit(b)
    ensures Accumulate(acc, ds + [b]) == 10 * Accumulate(acc, ds) + DigitValue(b)
    decreases |ds|
  {
    if ds != [] {
      assert (ds + [b])[1..] == ds[1..] + [b];
      AccumulateSnoc(10 * acc + DigitValue(ds[0]), ds[1..], b);
    } else {
      assert ([] + [b])[1..] == [];
    }
  }

  /** Reading the printed digits of `n` gives `n`. */
  lemma {:induction false} AccumulatePrintDigits(n: nat)
    ensures Accumulate(0, PrintDigits(n)) == n
  {
    if n >= 10 {
      AccumulatePrintDigits(n / 10);
      AccumulateSnoc(0, PrintDigits(n / 10), DigitByte(n % 10));
    } else {
      assert PrintDigits(n)[1..] == [];
    }
  }

  /** An integral decimal: an optional `-`, then its digits. */
  function PrintNumber(d: Decimal): (r: Bytes)
    ensures |r| >= 1 && (r[0] == MINUS || IsDigit(r[0]))
    ensures forall k :: 0 <= k < |r| ==> InNumberSet(r[k])
  {
    (if d.negative then [MINUS] else []) + PrintDigits(d.digits)
  }

  // ---------------------------------------------------------------- trees

  const NullText: Bytes := [0x6e, 0x75, 0x6c, 0x6c]
  const FalseText: Bytes := [0x66, 0x61, 0x6c, 0x73, 0x65]
  const TrueText: Bytes := [0x74, 0x72, 0x75, 0x65]

  /** A tree in text form with no whitespace; numbers are written as integers (their exponent is
      not printed, see `Printable`). */
  function Print(j: Json): (r: Bytes)
    ensures |r| >= 1 && r[0] != RBRACKET && r[0] != RBRACE
  {
    match j
    case Null => NullText
    case False => FalseText
    case True => TrueText
    case Number(d) => PrintNumber(d)
    case Str(t) => [QUOTE] + t + [QUOTE]
    case Array(es) => [LBRACKET] + PrintElements(es) + [RBRACKET]
    case Object(ms) => [LBRACE] + PrintMembers(ms) + [RBRACE]
  }

  /** Values separated by single commas. */
  function PrintElements(es: seq<Json>): Bytes
  {
    if es == [] then []
    else if |es| == 1 then Print(es[0])
    else Print(es[0]) + [COMMA] + PrintElements(es[1..])
  }

  /** An entry: the quoted key, a colon, the value. */
  function PrintMember(m: Member): Bytes
  {
    [QUOTE] + m.key + [QUOTE, COLON] + Print(m.value)
  }

  /** Entries separated by single commas. */
  function PrintMembers(ms: seq<Member>): Bytes
  {
    if ms == [] then []
    else if |ms| == 1 then PrintMember(ms[0])
    else PrintMember(ms[0]) + [COMMA] + PrintMembers(ms[1..])
  }

  /** The trees whose printed form the parser reads back: containers at most as deep as the
      nesting limit allows from `depth`, string text and keys with no quote outside a backslash
      pair, and integral numbers short enough for the 63-byte staging buffer. */
  predicate Printable(j: Json, depth: nat)
  {
    match j
    case Number(d) => d.exponent == 0 && |PrintNumber(d)| <= StagingLimit
    case Str(t) => Escaped(t)
    case Array(es) => depth < NestingLimit && ElementsPrintable(es, depth + 1)
    case Object(ms) => depth < NestingLimit && MembersPrintable(ms, depth + 1)
    case _ => true
  }

  predicate ElementsPrintable(es: seq<Json>, depth: nat)
  {
    es == [] || (Printable(es[0], depth) && ElementsPrintable(es[1..], depth))
  }

  predicate MembersPrintable(ms: seq<Member>, depth: nat)
  {
    ms == [] || (Escaped(ms[0].key) && Printable(ms[0].value, depth) && MembersPrintable(ms[1..], depth))
  }

  // ---------------------------------------------------------------- reading back

  /** `p` lies in `s` from `off`, byte by byte. */
  predicate Holds(s: Bytes, off: nat, p: Bytes)
    ensures Holds(s, off, p) ==> off + |p| <= |s|
    decreases |p|
  {
    if p == [] then off <= |s| else off < |s| && s[off] == p[0] && Holds(s, off + 1, p[1..])
  }

  /** Nothing at `i` could continue a number: the input ends or the byte is outside the set. */
  predicate Delimited(s: Bytes, i: nat)
  {
    i >= |s| || !InNumberSet(s[i])
  }

  lemma {:induction false} HoldsSplit(s: Bytes, off: nat, a: Bytes, b: Bytes)
    requires Holds(s, off, a + b)
    ensures Holds(s, off, a) && Holds(s, off + |a|, b)
    decreases |a|
  {
    if a == [] {
      assert a + b == b;
    } else {
      assert (a + b)[1..] == a[1..] + b;
      HoldsSplit(s, off + 1, a[1..], b);
    }
  }

  lemma {:induction false} HoldsByte(s: Bytes, off: nat, p: Bytes, k: nat)
    requires Holds(s, off, p) && k < |p|
    ensures s[off + k] == p[k]
    decreases k
  {
    if k > 0 {
      HoldsByte(s, off + 1, p[1..], k - 1);
    }
  }

  lemma {:induction false} HoldsSlice(s: Bytes, off: nat, p: Bytes)
    requires Holds(s, off, p)
    ensures s[off..off + |p|] == p
  {
    forall k | 0 <= k < |p|
      ensures s[off..off + |p|][k] == p[k]
    {
      HoldsByte(s, off, p, k);
    }
  }

  /** A sequence holds at its own start, whatever follows it. */
  lemma {:induction false} HoldsPrefix(p: Bytes, rest: Bytes)
    ensures Holds(p + rest, 0, p)
  {
    HoldsSuffix(p + rest, 0, p);
  }

  lemma {:induction false} HoldsSuffix(s: Bytes, off: nat, p: Bytes)
    requires off + |p| <= |s| && forall k :: 0 <= k < |p| ==> s[off + k] == p[k]
    ensures Holds(s, off, p)
    decreases |p|
  {
    if p != [] {
      assert s[off] == p[0];
      HoldsSuffix(s, off + 1, p[1..]);
    }
  }

  /** The scan takes exactly the `n` bytes of the number set that are followed by a delimiter. */
  lemma {:induction false} ScanFromExactly(s: Bytes, off: nat, i: nat, n: nat)
    requires i <= n <= StagingLimit && off + n <= |s|
    requires forall k :: off + i <= k < off + n ==> InNumberSet(s[k])
    requires Delimited(s, off + n)
    ensures ScanFrom(s, off, i) == n
    decreases n - i
  {
    if i < n {
      ScanFromExactly(s, off, i + 1, n);
    }
  }

  /** `strtod` reading a run of whole digits onto a reading in the `Whole` phase. */
  lemma {:induction false} ConvertWhole(s: Bytes, i: nat, hi: nat, r: Reading)
    requires i <= hi <= |s| && r.phase == Whole
    requires forall k :: i <= k < hi ==> IsDigit(s[k])
    ensures Convert(s, i, hi, r, (Denote(r), i)) == (Denote(r.(digits := Accumulate(r.digits, s[i..hi]))), hi)
    decreases hi - i
  {
    if i < hi {
      var r' := r.(digits := 10 * r.digits + DigitValue(s[i]));
      assert Step(r, s[i]) == Some(r');
      ConvertWhole(s, i + 1, hi, r');
      assert s[i..hi][1..] == s[i + 1..hi];
    } else {
      assert r.(digits := r.digits) == r;
    }
  }

  /** `strtod` reading a run of digits from a reading with no digits yet and an optional sign. */
  lemma {:induction false} ConvertDigits(s: Bytes, i: nat, hi: nat, r: Reading, last: (Decimal, nat))
    requires i < hi <= |s| && (r.phase == Start || r.phase == Signed)
    requires r.digits == 0 && r.fractionDigits == 0 && r.exponent == 0 && !r.exponentNegative
    requires forall k :: i <= k < hi ==> IsDigit(s[k])
    ensures Convert(s, i, hi, r, last) == (Decimal(r.negative, Accumulate(0, s[i..hi]), 0), hi)
  {
    var r1 := r.(phase := Whole, digits := DigitValue(s[i]));
    assert Step(r, s[i]) == Some(r1);
    ConvertWhole(s, i + 1, hi, r1);
    assert s[i..hi][1..] == s[i + 1..hi];
  }

  /** The staging loop takes exactly a printed number that fits, when something delimits it. */
  lemma {:induction false} ScanPrinted(s: Bytes, off: nat, p: Bytes)
    requires |p| <= StagingLimit && Holds(s, off, p) && Delimited(s, off + |p|)
    requires forall k :: 0 <= k < |p| ==> InNumberSet(p[k])
    ensures ScanLength(s, off) == |p|
  {
    forall k | off <= k < off + |p|
      ensures InNumberSet(s[k])
    {
      HoldsByte(s, off, p, k - off);
    }
    ScanFromExactly(s, off, 0, |p|);
  }

  /** `strtod` reads a printed integral number in full. */
  lemma {:induction false} ConvertPrinted(s: Bytes, off: nat, d: Decimal)
    requires Holds(s, off, PrintNumber(d))
    ensures var hi := off + |PrintNumber(d)|;
      Convert(s, off, hi, Initial, (Zero, off)) == (Decimal(d.negative, d.digits, 0), hi)
  {
    var ds := PrintDigits(d.digits);
    var sign: Bytes := if d.negative then [MINUS] else [];
    HoldsSplit(s, off, sign, ds);
    var start := off + |sign|;
    var hi := start + |ds|;
    forall k | start <= k < hi
      ensures IsDigit(s[k])
    {
      HoldsByte(s, start, ds, k - start);
    }
    HoldsSlice(s, start, ds);
    if d.negative {
      HoldsByte(s, off, sign, 0);
      var r0 := Initial.(phase := Signed, negative := true);
      assert Step(Initial, s[off]) == Some(r0);
      ConvertDigits(s, start, hi, r0, (Zero, off));
    } else {
      ConvertDigits(s, start, hi, Initial, (Zero, off));
    }
    AccumulatePrintDigits(d.digits);
  }

  /** A printed integral number reads back, for whatever delimits it. */
  lemma {:induction false} NumberRoundTrip(s: Bytes, off: nat, d: Decimal)
    requires d.exponent == 0 && |PrintNumber(d)| <= StagingLimit
    requires Holds(s, off, PrintNumber(d)) && Delimited(s, off + |PrintNumber(d)|)
    ensures NumberAt(s, off) == Some(Parsed(Number(d), off + |PrintNumber(d)|))
  {
    ScanPrinted(s, off, PrintNumber(d));
    ConvertPrinted(s, off, d);
  }

  // The productions, one step at a time, stated on what the bytes hold rather than on a printed tree.

  lemma {:induction false} ValueAtString(s: Bytes, off: nat, depth: nat, t: Bytes)
    requires off <= |s| && StringAt(s, off) == Some(Parsed(t, off + |t| + 2))
    ensures Value(s, off, depth) == Some(Parsed(Str(t), off + |t| + 2))
  {
  }

  lemma {:induction false} ValueAtNumber(s: Bytes, off: nat, depth: nat, d: Decimal, next: nat)
    requires off < |s| && (s[off] == MINUS || IsDigit(s[off]))
    requires NumberAt(s, off) == Some(Parsed(Number(d), next))
    ensures Value(s, off, depth) == Some(Parsed(Number(d), next))
  {
  }

  lemma {:induction false} ValueAtArray(s: Bytes, off: nat, depth: nat, es: seq<Json>, close: nat)
    requires off + 1 < |s| && s[off] == LBRACKET && depth < NestingLimit && At(s, close, RBRACKET)
    requires if s[off + 1] == RBRACKET then es == [] && close == off + 1
      else Elements(s, off + 1, depth + 1, []) == Some(Parsed(es, close))
    ensures Value(s, off, depth) == Some(Parsed(Array(es), close + 1))
  {
    if s[off + 1] != RBRACKET {
      ArrayAtNonEmpty(s, off, depth);
    }
  }

  lemma {:induction false} ValueAtObject(s: Bytes, off: nat, depth: nat, ms: seq<Member>, close: nat)
    requires off + 1 < |s| && s[off] == LBRACE && depth < NestingLimit && At(s, close, RBRACE)
    requires if s[off + 1] == RBRACE then ms == [] && close == off + 1
      else Members(s, off + 1, depth + 1, []) == Some(Parsed(ms, close))
    ensures Value(s, off, depth) == Some(Parsed(Object(ms), close + 1))
  {
    if s[off + 1] != RBRACE {
      ObjectAtNonEmpty(s, off, depth);
    }
  }

  lemma {:induction false} ElementsStep(s: Bytes, off: nat, depth: nat, items: seq<Json>, v: Json, next: nat)
    requires off <= |s| && Value(s, off, depth) == Some(Parsed(v, next))
    ensures Elements(s, off, depth, items) ==
      if At(s, next, COMMA) then Elements(s, next + 1, depth, items + [v]) else Some(Parsed(items + [v], next))
  {
  }

  lemma {:induction false} EntryStep(s: Bytes, off: nat, depth: nat, key: Bytes, v: Json, next: nat)
    requires off <= |s| && StringAt(s, off) == Some(Parsed(key, off + |key| + 2))
    requires At(s, off + |key| + 2, COLON) && Value(s, off + |key| + 3, depth) == Some(Parsed(v, next))
    ensures Entry(s, off, depth) == Some(Parsed(Member(key, v), next))
  {
  }

  lemma {:induction false} MembersStep(s: Bytes, off: nat, depth: nat, members: seq<Member>, m: Member, next: nat)
    requires off <= |s| && Entry(s, off, depth) == Some(Parsed(m, next))
    ensures Members(s, off, depth, members) ==
      if At(s, next, COMMA) then Members(s, next + 1, depth, members + [m]) else Some(Parsed(members + [m], next))
  {
  }

  // The round trip, by structural induction over the tree.

  /** A printable tree printed at `off` and delimited reads back as itself, the cursor just past it. */
  lemma {:induction false} ValueRoundTrip(s: Bytes, off: nat, j: Json, depth: nat)
    requires Printable(j, depth) && Holds(s, off, Print(j)) && Delimited(s, off + |Print(j)|)
    ensures Value(s, off, depth) == Some(Parsed(j, off + |Print(j)|))
    decreases j, 0
  {
    var p := Print(j);
    HoldsByte(s, off, p, 0);
    match j
    case Null => LiteralRoundTrip(s, off, j, depth);
    case False => LiteralRoundTrip(s, off, j, depth);
    case True => LiteralRoundTrip(s, off, j, depth);
    case Str(t) =>
      StringAtHolds(s, off, t);
      ValueAtString(s, off, depth, t);
    case Number(d) =>
      NumberRoundTrip(s, off, d);
      ValueAtNumber(s, off, depth, d, off + |p|);
    case Array(es) =>
      ArrayRoundTrip(s, off, es, depth);
    case Object(ms) =>
      ObjectRoundTrip(s, off, ms, depth);
  }

  /** `null`, `false` and `true`. */
  lemma {:induction false} LiteralRoundTrip(s: Bytes, off: nat, j: Json, depth: nat)
    requires (j.Null? || j.False? || j.True?) && Holds(s, off, Print(j))
    ensures Value(s, off, depth) == Some(Parsed(j, off + |Print(j)|))
  {
    var p := Print(j);
    HoldsByte(s, off, p, 0); HoldsByte(s, off, p, 1); HoldsByte(s, off, p, 2); HoldsByte(s, off, p, 3);
    if j.False? {
      HoldsByte(s, off, p, 4);
    }
  }

  /** The pre-scan of `parse_string` stops at the quote after printed string text. */
  lemma {:induction false} StringEndHolds(s: Bytes, i: nat, t: Bytes)
    requires Escaped(t) && Holds(s, i, t + [QUOTE])
    ensures StringEnd(s, i) == Some(i + |t|)
    decreases |t|
  {
    if t == [] {
      assert t + [QUOTE] == [QUOTE];
    } else {
      assert (t + [QUOTE])[1..] == t[1..] + [QUOTE];
      if t[0] == BACKSLASH {
        assert (t + [QUOTE])[1..][1..] == t[2..] + [QUOTE];
        StringEndHolds(s, i + 2, t[2..]);
      } else {
        StringEndHolds(s, i + 1, t[1..]);
      }
    }
  }

  /** `parse_string` reads printed string text back. */
  lemma {:induction false} StringAtHolds(s: Bytes, off: nat, t: Bytes)
    requires Escaped(t) && Holds(s, off, [QUOTE] + t + [QUOTE])
    ensures StringAt(s, off) == Some(Parsed(t, off + |t| + 2))
  {
    assert ([QUOTE] + t + [QUOTE])[1..] == t + [QUOTE];
    StringEndHolds(s, off + 1, t);
    HoldsSplit(s, off + 1, t, [QUOTE]);
    HoldsSlice(s, off + 1, t);
  }

  /** The bytes of a bracketed body: the opener, the body, the closer right after it. */
  lemma {:induction false} HoldsBracketed(s: Bytes, off: nat, open: byte, body: Bytes, close: byte)
    requires Holds(s, off, [open] + body + [close])
    ensures off + 1 < |s| && s[off] == open && Holds(s, off + 1, body) && At(s, off + 1 + |body|, close)
  {
    assert ([open] + body + [close])[1..] == body + [close];
    HoldsSplit(s, off + 1, body, [close]);
    HoldsByte(s, off + 1 + |body|, [close], 0);
  }

  lemma {:induction false} ArrayRoundTrip(s: Bytes, off: nat, es: seq<Json>, depth: nat)
    requires Printable(Array(es), depth) && Holds(s, off, Print(Array(es)))
    ensures Value(s, off, depth) == Some(Parsed(Array(es), off + |Print(Array(es))|))
    decreases es, 3
  {
    var body := PrintElements(es);
    HoldsBracketed(s, off, LBRACKET, body, RBRACKET);
    if es != [] {
      HoldsByte(s, off + 1, body, 0);
      assert body[0] == Print(es[0])[0];
      ElementsRoundTrip(s, off + 1, es, depth + 1, []);
      assert [] + es == es;
    } else {
      assert body == [];
    }
    ValueAtArray(s, off, depth, es, off + 1 + |body|);
  }

  lemma {:induction false} ObjectRoundTrip(s: Bytes, off: nat, ms: seq<Member>, depth: nat)
    requires Printable(Object(ms), depth) && Holds(s, off, Print(Object(ms)))
    ensures Value(s, off, depth) == Some(Parsed(Object(ms), off + |Print(Object(ms))|))
    decreases ms, 3
  {
    var body := PrintMembers(ms);
    HoldsBracketed(s, off, LBRACE, body, RBRACE);
    if ms != [] {
      HoldsByte(s, off + 1, body, 0);
      assert body[0] == PrintMember(ms[0])[0];
      MembersRoundTrip(s, off + 1, ms, depth + 1, []);
      assert [] + ms == ms;
    } else {
      assert body == [];
    }
    ValueAtObject(s, off, depth, ms, off + 1 + |body|);
  }

  /** The bytes of a list of at least two printed values: the first, a comma, the rest. */
  lemma {:induction false} ElementsLayout(s: Bytes, off: nat, es: seq<Json>)
    requires |es| >= 2 && Holds(s, off, PrintElements(es))
    ensures var n := |Print(es[0])|;
      Holds(s, off, Print(es[0])) && At(s, off + n, COMMA) &&
      Holds(s, off + n + 1, PrintElements(es[1..])) && |PrintElements(es)| == n + 1 + |PrintElements(es[1..])|
  {
    var ph := Print(es[0]);
    HoldsSplit(s, off, ph + [COMMA], PrintElements(es[1..]));
    HoldsSplit(s, off, ph, [COMMA]);
    HoldsByte(s, off + |ph|, [COMMA], 0);
  }

  /** The array loop going round once more after a value and a comma. */
  lemma {:induction false} ElementsCons(s: Bytes, off: nat, depth: nat, items: seq<Json>, es: seq<Json>, next: nat, end: nat)
    requires off <= |s| && |es| >= 2 && Value(s, off, depth) == Some(Parsed(es[0], next)) && At(s, next, COMMA)
    requires Elements(s, next + 1, depth, items + [es[0]]) == Some(Parsed(items + [es[0]] + es[1..], end))
    ensures Elements(s, off, depth, items) == Some(Parsed(items + es, end))
  {
    ElementsStep(s, off, depth, items, es[0], next);
    assert items + [es[0]] + es[1..] == items + es;
  }

  /** The first of at least two printed values reads back up to its comma, and the rest are
      printed after that comma. */
  lemma {:induction false} ElementsHead(s: Bytes, off: nat, es: seq<Json>, depth: nat)
    requires |es| >= 2 && ElementsPrintable(es, depth) && Holds(s, off, PrintElements(es))
    ensures var n := |Print(es[0])|;
      off <= |s| && Value(s, off, depth) == Some(Parsed(es[0], off + n)) && At(s, off + n, COMMA) &&
      ElementsPrintable(es[1..], depth) && Holds(s, off + n + 1, PrintElements(es[1..])) &&
      |PrintElements(es)| == n + 1 + |PrintElements(es[1..])|
    decreases es, 0
  {
    ElementsLayout(s, off, es);
    ValueRoundTrip(s, off, es[0], depth);
  }

  /** Printed values separated by commas, then `]`, read back onto the values already read. */
  lemma {:induction false} ElementsRoundTrip(s: Bytes, off: nat, es: seq<Json>, depth: nat, items: seq<Json>)
    requires |es| >= 1 && ElementsPrintable(es, depth)
    requires Holds(s, off, PrintElements(es)) && At(s, off + |PrintElements(es)|, RBRACKET)
    ensures Elements(s, off, depth, items) == Some(Parsed(items + es, off + |PrintElements(es)|))
    decreases es, 2
  {
    if |es| == 1 {
      var h := es[0];
      ValueRoundTrip(s, off, h, depth);
      ElementsStep(s, off, depth, items, h, off + |Print(h)|);
      assert items + es == items + [h];
    } else {
      ElementsMore(s, off, es, depth, items);
    }
  }

  /** The same for at least two elements: the first up to its comma, then the rest. */
  lemma {:induction false} ElementsMore(s: Bytes, off: nat, es: seq<Json>, depth: nat, items: seq<Json>)
    requires |es| >= 2 && ElementsPrintable(es, depth)
    requires Holds(s, off, PrintElements(es)) && At(s, off + |PrintElements(es)|, RBRACKET)
    ensures Elements(s, off, depth, items) == Some(Parsed(items + es, off + |PrintElements(es)|))
    decreases es, 1
  {
    var n := |Print(es[0])|;
    ElementsHead(s, off, es, depth);
    ElementsRoundTrip(s, off + n + 1, es[1..], depth, items + [es[0]]);
    ElementsCons(s, off, depth, items, es, off + n, off + |PrintElements(es)|);
  }

  /** The bytes of a printed entry: the quoted key, a colon, the value. */
  lemma {:induction false} EntryLayout(s: Bytes, off: nat, m: Member)
    requires Holds(s, off, PrintMember(m))
    ensures var k := |m.key|;
      Holds(s, off, [QUOTE] + m.key + [QUOTE]) && At(s, off + k + 2, COLON) &&
      Holds(s, off + k + 3, Print(m.value)) && |PrintMember(m)| == k + 3 + |Print(m.value)|
  {
    var key := m.key;
    assert PrintMember(m) == [QUOTE] + key + [QUOTE] + ([COLON] + Print(m.value));
    HoldsSplit(s, off, [QUOTE] + key + [QUOTE], [COLON] + Print(m.value));
    HoldsByte(s, off + |key| + 2, [COLON] + Print(m.value), 0);
    assert ([COLON] + Print(m.value))[1..] == Print(m.value);
  }

  /** A printed entry reads back for whatever delimits its value. */
  lemma {:induction false} EntryRoundTrip(s: Bytes, off: nat, m: Member, depth: nat)
    requires Escaped(m.key) && Printable(m.value, depth)
    requires Holds(s, off, PrintMember(m)) && Delimited(s, off + |PrintMember(m)|)
    ensures Entry(s, off, depth) == Some(Parsed(m, off + |PrintMember(m)|))
    decreases m, 0
  {
    var key, next := m.key, off + |PrintMember(m)|;
    EntryLayout(s, off, m);
    assert off + |key| + 3 + |Print(m.value)| == next;
    StringAtHolds(s, off, key);
    ValueRoundTrip(s, off + |key| + 3, m.value, depth);
    EntryStep(s, off, depth, key, m.value, next);
  }

  /** The bytes of a list of at least two printed entries: the first, a comma, the rest. */
  lemma {:induction false} MembersLayout(s: Bytes, off: nat, ms: seq<Member>)
    requires |ms| >= 2 && Holds(s, off, PrintMembers(ms))
    ensures var n := |PrintMember(ms[0])|;
      Holds(s, off, PrintMember(ms[0])) && At(s, off + n, COMMA) &&
      Holds(s, off + n + 1, PrintMembers(ms[1..])) && |PrintMembers(ms)| == n + 1 + |PrintMembers(ms[1..])|
  {
    var ph := PrintMember(ms[0]);
    HoldsSplit(s, off, ph + [COMMA], PrintMembers(ms[1..]));
    HoldsSplit(s, off, ph, [COMMA]);
    HoldsByte(s, off + |ph|, [COMMA], 0);
  }

  /** The object loop going round once more after an entry and a comma. */
  lemma {:induction false} MembersCons(s: Bytes, off: nat, depth: nat, members: seq<Member>, ms: seq<Member>, next: nat, end: nat)
    requires off <= |s| && |ms| >= 2 && Entry(s, off, depth) == Some(Parsed(ms[0], next)) && At(s, next, COMMA)
    requires Members(s, next + 1, depth, members + [ms[0]]) == Some(Parsed(members + [ms[0]] + ms[1..], end))
    ensures Members(s, off, depth, members) == Some(Parsed(members + ms, end))
  {
    MembersStep(s, off, depth, members, ms[0], next);
    assert members + [ms[0]] + ms[1..] == members + ms;
  }

  /** The first of at least two printed entries reads back up to its comma, and the rest are
      printed after that comma. */
  lemma {:induction false} MembersHead(s: Bytes, off: nat, ms: seq<Member>, depth: nat)
    requires |ms| >= 2 && MembersPrintable(ms, depth) && Holds(s, off, PrintMembers(ms))
    ensures var n := |PrintMember(ms[0])|;
      off <= |s| && Entry(s, off, depth) == Some(Parsed(ms[0], off + n)) && At(s, off + n, COMMA) &&
      MembersPrintable(ms[1..], depth) && Holds(s, off + n + 1, PrintMembers(ms[1..])) &&
      |PrintMembers(ms)| == n + 1 + |PrintMembers(ms[1..])|
    decreases ms, 0
  {
    MembersLayout(s, off, ms);
    EntryRoundTrip(s, off, ms[0], depth);
  }

  /** Printed entries separated by commas, then `}`, read back onto the entries already read. */
  lemma {:induction false} MembersRoundTrip(s: Bytes, off: nat, ms: seq<Member>, depth: nat, members: seq<Member>)
    requires |ms| >= 1 && MembersPrintable(ms, depth)
    requires Holds(s, off, PrintMembers(ms)) && At(s, off + |PrintMembers(ms)|, RBRACE)
    ensures Members(s, off, depth, members) == Some(Parsed(members + ms, off + |PrintMembers(ms)|))
    decreases ms, 2
  {
    if |ms| == 1 {
      var h := ms[0];
      EntryRoundTrip(s, off, h, depth);
      MembersStep(s, off, depth, members, h, off + |PrintMember(h)|);
      assert members + ms == members + [h];
    } else {
      MembersMore(s, off, ms, depth, members);
    }
  }

  /** The same for at least two entries: the first up to its comma, then the rest. */
  lemma {:induction false} MembersMore(s: Bytes, off: nat, ms: seq<Member>, depth: nat, members: seq<Member>)
    requires |ms| >= 2 && MembersPrintable(ms, depth)
    requires Holds(s, off, PrintMembers(ms)) && At(s, off + |PrintMembers(ms)|, RBRACE)
    ensures Members(s, off, depth, members) == Some(Parsed(members + ms, off + |PrintMembers(ms)|))
    decreases ms, 1
  {
    var n := |PrintMember(ms[0])|;
    MembersHead(s, off, ms, depth);
    MembersRoundTrip(s, off + n + 1, ms[1..], depth, members + [ms[0]]);
    MembersCons(s, off, depth, members, ms, off + n, off + |PrintMembers(ms)|);
  }

  /** `gJSON_ParseWithLength` reads a printed tree back, whatever follows it; only a number at the
      top needs a next byte that cannot extend it. */
  lemma {:induction false} ParseRoundTrip(j: Json, rest: Bytes)
    requires Printable(j, 0) && (j.Number? ==> rest == [] || !InNumberSet(rest[0]))
    ensures Parse(Print(j) + rest) == Some(j)
  {
    var s := Print(j) + rest;
    HoldsPrefix(Print(j), rest);
    match j
    case Number(_) => ValueRoundTrip(s, 0, j, 0);
    case Str(t) =>
      HoldsByte(s, 0, Print(j), 0);
      StringAtHolds(s, 0, t);
      ValueAtString(s, 0, 0, t);
    case Array(es) => ArrayRoundTrip(s, 0, es, 0);
    case Object(ms) => ObjectRoundTrip(s, 0, ms, 0);
    case _ => LiteralRoundTrip(s, 0, j, 0);
  }
}
