/** What each production of the gJSON parser (src/gjson.c:132-503) yields, as functions of the input
    bytes, the cursor offset and the nesting depth on entry. `None` is the production returning false;
    `Some(Parsed(v, next))` is success with the value built and the offset the cursor is left at.
    The branches are taken in the order the C takes them. */
module GJsonGrammar {
  import opened Wrappers
  import opened CStrings
  import opened GJsonNumber
  import opened GJsonTree

  /** `GJSON_NESTING_LIMIT`. */
  const NestingLimit: nat := 100

  const QUOTE: byte := 0x22
  const BACKSLASH: byte := 0x5c
  const COMMA: byte := 0x2c
  const COLON: byte := 0x3a
  const MINUS: byte := 0x2d
  const LBRACKET: byte := 0x5b
  const RBRACKET: byte := 0x5d
  const LBRACE: byte := 0x7b
  const RBRACE: byte := 0x7d

  datatype Parsed<T> = Parsed(v: T, next: nat)

  /** Whether byte `i` of `s` exists and is `b` (`can_access_at_index` followed by the comparison). */
  predicate At(s: Bytes, i: nat, b: byte)
  {
    i < |s| && s[i] == b
  }

  /** `can_read(buffer, 4)` and `strncmp(..., "null", 4) == 0`. */
  predicate NullAt(s: Bytes, off: nat)
  {
    off + 4 <= |s| && s[off] == 0x6e && s[off + 1] == 0x75 && s[off + 2] == 0x6c && s[off + 3] == 0x6c
  }

  /** `can_read(buffer, 5)` and `strncmp(..., "false", 5) == 0`. */
  predicate FalseAt(s: Bytes, off: nat)
  {
    off + 5 <= |s| && s[off] == 0x66 && s[off + 1] == 0x61 && s[off + 2] == 0x6c && s[off + 3] == 0x73 &&
    s[off + 4] == 0x65
  }

  /** `can_read(buffer, 4)` and `strncmp(..., "true", 4) == 0`. */
  predicate TrueAt(s: Bytes, off: nat)
  {
    off + 4 <= |s| && s[off] == 0x74 && s[off + 1] == 0x72 && s[off + 2] == 0x75 && s[off + 3] == 0x65
  }

  // ---------------------------------------------------------------- strings

  /** The pre-scan of `parse_string` from position `i`: the position of the closing quote, skipping
      every backslash together with the byte after it; `None` when the input ends first or a
      backslash is the last byte. */
  function StringEnd(s: Bytes, i: nat): (r: Option<nat>)
    requires i <= |s|
    ensures r.Some? ==> i <= r.value < |s|
    decreases |s| - i
  {
    if i >= |s| then None
    else if s[i] == QUOTE then Some(i)
    else if s[i] == BACKSLASH then (if i + 1 >= |s| then None else StringEnd(s, i + 2))
    else StringEnd(s, i + 1)
  }

  /** String body text: bytes other than a quote or backslash, and backslash pairs `\x` for any x. */
  predicate Escaped(t: Bytes)
    decreases |t|
  {
    if t == [] then true
    else if t[0] == QUOTE then false
    else if t[0] == BACKSLASH then |t| >= 2 && Escaped(t[2..])
    else Escaped(t[1..])
  }

  /** `parse_string`: the bytes strictly between the opening quote and the closing quote, copied
      verbatim (escape pairs included); the cursor ends one past the closing quote. The bounds
      guard on the opening byte is an addition: the C reads it unchecked. */
  function StringAt(s: Bytes, off: nat): (r: Option<Parsed<Bytes>>)
    requires off <= |s|
    ensures r.Some? ==> off + 2 <= r.value.next <= |s|
  {
    if !At(s, off, QUOTE) then None
    else match StringEnd(s, off + 1)
      case None => None
      case Some(e) => Some(Parsed(s[off + 1..e], e + 1))
  }

  // ---------------------------------------------------------------- numbers

  /** `parse_number`: stage at most 63 bytes of `0-9 + - e E .`, convert them with `strtod`, fail
      when nothing converts, advance by the converted length. The staged copy is read in place
      here (`s[off..off + n]`); `StagedNumber` shows that this is `Strtod` on the copy. */
  function NumberAt(s: Bytes, off: nat): (r: Option<Parsed<Json>>)
    requires off <= |s|
    ensures r.Some? ==> off < r.value.next <= off + ScanLength(s, off)
  {
    var n := ScanLength(s, off);
    var (x, end) := Convert(s, off, off + n, Initial, (Zero, off));
    if end == off then None else Some(Parsed(Number(x), end))
  }

  /** `Strtod` on the staging buffer's contents yields the number and the advance of `NumberAt`. */
  lemma StagedNumber(s: Bytes, off: nat)
    requires off <= |s|
    ensures var t := s[off..off + ScanLength(s, off)];
      var (x, consumed) := Strtod(t);
      NumberAt(s, off) == if consumed == 0 then None else Some(Parsed(Number(x), off + consumed))
  {
    var n := ScanLength(s, off);
    ConvertShift(s, off, s[off..off + n], 0, n, Initial, (Zero, 0));
  }

  // ---------------------------------------------------------------- values, arrays, objects

  /** `parse_value`: literals first (each only if all its bytes remain), then a dispatch on the
      first byte. Anything else, whitespace included, fails. */
  function Value(s: Bytes, off: nat, depth: nat): (r: Option<Parsed<Json>>)
    requires off <= |s|
    ensures r.Some? ==> off < r.value.next <= |s|
    decreases |s| - off, 2
  {
    if NullAt(s, off) then Some(Parsed(Null, off + 4))
    else if FalseAt(s, off) then Some(Parsed(False, off + 5))
    else if TrueAt(s, off) then Some(Parsed(True, off + 4))
    else if At(s, off, QUOTE) then
      match StringAt(s, off)
      case None => None
      case Some(p) => Some(Parsed(Str(p.v), p.next))
    else if off < |s| && (s[off] == MINUS || IsDigit(s[off])) then NumberAt(s, off)
    else if At(s, off, LBRACKET) then ArrayAt(s, off, depth)
    else if At(s, off, LBRACE) then ObjectAt(s, off, depth)
    else None
  }

  /** `parse_array`: refuse at the nesting limit; `[]` is empty; otherwise comma-separated values
      at one more level of depth, then a required `]`. */
  function ArrayAt(s: Bytes, off: nat, depth: nat): (r: Option<Parsed<Json>>)
    requires off <= |s|
    ensures r.Some? ==> off + 2 <= r.value.next <= |s| && r.value.v.Array?
    decreases |s| - off, 1
  {
    if depth >= NestingLimit then None
    else if !At(s, off, LBRACKET) then None
    else if At(s, off + 1, RBRACKET) then Some(Parsed(Array([]), off + 2))
    else if off + 1 >= |s| then None
    else match Elements(s, off + 1, depth + 1, [])
      case None => None
      case Some(p) => if At(s, p.next, RBRACKET) then Some(Parsed(Array(p.v), p.next + 1)) else None
  }

  /** The array loop from a value's first byte, with `items` the values already linked in: one
      more value, then go round again after a `,`. */
  function Elements(s: Bytes, off: nat, depth: nat, items: seq<Json>): (r: Option<Parsed<seq<Json>>>)
    requires off <= |s|
    ensures r.Some? ==> off < r.value.next <= |s| && |r.value.v| > |items|
    decreases |s| - off, 3
  {
    match Value(s, off, depth)
    case None => None
    case Some(p) =>
      if At(s, p.next, COMMA) then Elements(s, p.next + 1, depth, items + [p.v])
      else Some(Parsed(items + [p.v], p.next))
  }

  /** `parse_object`: as arrays, with each entry a string key, a `:` and a value. */
  function ObjectAt(s: Bytes, off: nat, depth: nat): (r: Option<Parsed<Json>>)
    requires off <= |s|
    ensures r.Some? ==> off + 2 <= r.value.next <= |s| && r.value.v.Object?
    decreases |s| - off, 1
  {
    if depth >= NestingLimit then None
    else if !At(s, off, LBRACE) then None
    else if At(s, off + 1, RBRACE) then Some(Parsed(Object([]), off + 2))
    else if off + 1 >= |s| then None
    else match Members(s, off + 1, depth + 1, [])
      case None => None
      case Some(p) => if At(s, p.next, RBRACE) then Some(Parsed(Object(p.v), p.next + 1)) else None
  }

  /** One entry of the object loop from a key's opening quote: the key, a required `:`, the value. */
  function Entry(s: Bytes, off: nat, depth: nat): (r: Option<Parsed<Member>>)
    requires off <= |s|
    ensures r.Some? ==> off < r.value.next <= |s|
    decreases |s| - off, 2
  {
    match StringAt(s, off)
    case None => None
    case Some(k) =>
      if !At(s, k.next, COLON) then None
      else match Value(s, k.next + 1, depth)
        case None => None
        case Some(p) => Some(Parsed(Member(k.v, p.v), p.next))
  }

  /** The object loop from a key's opening quote, with `members` the entries already linked in. */
  function Members(s: Bytes, off: nat, depth: nat, members: seq<Member>): (r: Option<Parsed<seq<Member>>>)
    requires off <= |s|
    ensures r.Some? ==> off < r.value.next <= |s| && |r.value.v| > |members|
    decreases |s| - off, 3
  {
    match Entry(s, off, depth)
    case None => None
    case Some(p) =>
      if At(s, p.next, COMMA) then Members(s, p.next + 1, depth, members + [p.v])
      else Some(Parsed(members + [p.v], p.next))
  }

  /** `gJSON_ParseWithLength`: one value from offset 0 at depth 0; trailing bytes are not examined. */
  function Parse(s: Bytes): Option<Json>
  {
    match Value(s, 0, 0)
    case None => None
    case Some(p) => Some(p.v)
  }

  /** A non-empty array: its values, then a required `]`. */
  lemma ArrayAtNonEmpty(s: Bytes, off: nat, depth: nat)
    requires off + 1 < |s| && depth < NestingLimit && s[off] == LBRACKET && s[off + 1] != RBRACKET
    ensures ArrayAt(s, off, depth) ==
      match Elements(s, off + 1, depth + 1, [])
      case None => None
      case Some(p) => if At(s, p.next, RBRACKET) then Some(Parsed(Array(p.v), p.next + 1)) else None
  {
  }

  /** A non-empty object: its entries, then a required `}`. */
  lemma ObjectAtNonEmpty(s: Bytes, off: nat, depth: nat)
    requires off + 1 < |s| && depth < NestingLimit && s[off] == LBRACE && s[off + 1] != RBRACE
    ensures ObjectAt(s, off, depth) ==
      match Members(s, off + 1, depth + 1, [])
      case None => None
      case Some(p) => if At(s, p.next, RBRACE) then Some(Parsed(Object(p.v), p.next + 1)) else None
  {
  }
}
