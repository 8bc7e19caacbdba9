/** The gJSON parser as the C runs it (src/gjson.c:132-503): every production moves one shared
    cursor `{content, length, offset, depth}` and is proved to do what its function in
    GJsonGrammar says. On failure the cursor's position is not specified: every caller gives up. */
module GJsonParser {
  import opened Wrappers
  import opened CStrings
  import opened GJsonNumber
  import opened GJsonTree
  import opened GJsonGrammar

  /** `parse_buffer`; `length` is `|content|`. */
  class Cursor {
    const content: Bytes
    var offset: nat
    var depth: nat

    ghost predicate Valid()
      reads this
    {
      offset <= |content|
    }

    constructor (data: Bytes)
      ensures Valid() && content == data && offset == 0 && depth == 0
    {
      content := data;
      offset, depth := 0, 0;
    }

    /** `parse_string`: pre-scan to the closing quote, then copy the bytes in between into a fresh
        buffer of their length plus a terminating NUL. */
    method ParseString() returns (ok: bool, text: Bytes)
      requires Valid()
      modifies this
      ensures Valid() && depth == old(depth)
      ensures var r := StringAt(content, old(offset));
        ok == r.Some? && (ok ==> text == r.value.v && offset == r.value.next)
    {
      if offset >= |content| || content[offset] != QUOTE {
        return false, [];
      }
      var inputEnd := offset + 1;
      while inputEnd < |content| && content[inputEnd] != QUOTE
        invariant offset + 1 <= inputEnd <= |content|
        invariant StringEnd(content, inputEnd) == StringEnd(content, offset + 1)
        modifies {}
        decreases |content| - inputEnd
      {
        if content[inputEnd] == BACKSLASH {
          if inputEnd + 1 >= |content| {
            return false, [];
          }
          inputEnd := inputEnd + 1;
        }
        inputEnd := inputEnd + 1;
      }
      if inputEnd >= |content| || content[inputEnd] != QUOTE {
        return false, [];
      }
      var length := inputEnd - (offset + 1);
      var output := new byte[length + 1];
      var i := 0;
      while i < length
        invariant i <= length
        invariant output[..i] == content[offset + 1..offset + 1 + i]
        modifies output
      {
        output[i] := content[offset + 1 + i];
        i := i + 1;
      }
      output[length] := NUL;
      text := output[..length];
      offset := inputEnd + 1;
      ok := true;
    }

    /** The first half of `parse_number`: copy bytes from the number set into a fresh 64-byte
        staging buffer until it is full, the input ends or another byte comes, then terminate it. */
    method Stage() returns (staged: Bytes)
      requires Valid()
      ensures staged == content[offset..offset + ScanLength(content, offset)]
    {
      var staging := new byte[StagingLimit + 1];
      var i := 0;
      while i < StagingLimit && offset + i < |content| && InNumberSet(content[offset + i])
        invariant i <= StagingLimit && offset + i <= |content|
        invariant ScanFrom(content, offset, i) == ScanLength(content, offset)
        invariant staging[..i] == content[offset..offset + i]
        decreases StagingLimit - i
      {
        staging[i] := content[offset + i];
        i := i + 1;
      }
      staged := staging[..i];
      staging[i] := NUL;
    }

    /** `parse_number`: stage, convert with `strtod`, fail when nothing converts, otherwise
        advance past what was converted. */
    method ParseNumber() returns (ok: bool, item: Json)
      requires Valid()
      modifies this
      ensures Valid() && depth == old(depth)
      ensures var r := NumberAt(content, old(offset));
        ok == r.Some? && (ok ==> item == r.value.v && offset == r.value.next)
    {
      var staged := Stage();
      StagedNumber(content, offset);
      var (x, consumed) := Strtod(staged);
      if consumed == 0 {
        return false, Null;
      }
      item := Number(x);
      offset := offset + consumed;
      ok := true;
    }

    /** `parse_value`. */
    method ParseValue() returns (ok: bool, item: Json)
      requires Valid()
      modifies this
      ensures Valid()
      ensures var r := Value(content, old(offset), old(depth));
        ok == r.Some? && (ok ==> item == r.value.v && offset == r.value.next && depth == old(depth))
      decreases |content| - offset, 2
    {
      if NullAt(content, offset) {
        offset := offset + 4;
        return true, Null;
      }
      if FalseAt(content, offset) {
        offset := offset + 5;
        return true, False;
      }
      if TrueAt(content, offset) {
        offset := offset + 4;
        return true, True;
      }
      if offset < |content| && content[offset] == QUOTE {
        var text;
        ok, text := ParseString();
        item := if ok then Str(text) else Null;
        return;
      }
      if offset < |content| && (content[offset] == MINUS || IsDigit(content[offset])) {
        ok, item := ParseNumber();
        return;
      }
      if offset < |content| && content[offset] == LBRACKET {
        ok, item := ParseArray();
        return;
      }
      if offset < |content| && content[offset] == LBRACE {
        ok, item := ParseObject();
        return;
      }
      return false, Null;
    }

    /** `parse_array`: refuse at the nesting limit, accept `[]`, otherwise run the element loop and
        require the closing `]`. */
    method ParseArray() returns (ok: bool, item: Json)
      requires Valid()
      modifies this
      ensures Valid()
      ensures var r := ArrayAt(content, old(offset), old(depth));
        ok == r.Some? && (ok ==> item == r.value.v && offset == r.value.next && depth == old(depth))
      decreases |content| - offset, 1
    {
      if depth >= NestingLimit {
        return false, Null;
      }
      depth := depth + 1;
      if offset >= |content| || content[offset] != LBRACKET {
        return false, Null;
      }
      offset := offset + 1;
      if offset < |content| && content[offset] == RBRACKET {
        depth := depth - 1;
        offset := offset + 1;
        return true, Array([]);
      }
      if offset >= |content| {
        offset := offset - 1;
        return false, Null;
      }
      offset := offset - 1;
      ArrayAtNonEmpty(content, offset, depth - 1);
      var items;
      ok, items := ParseElements();
      if !ok {
        return false, Null;
      }
      if !(offset < |content| && content[offset] == RBRACKET) {
        return false, Null;
      }
      depth := depth - 1;
      offset := offset + 1;
      return true, Array(items);
    }

    /** The do-while loop of `parse_array`, entered on the `[`: step past it or past a `,`,
        parse a value, append it, and go round again while a `,` follows. */
    method ParseElements() returns (ok: bool, items: seq<Json>)
      requires Valid() && offset < |content|
      modifies this
      ensures Valid()
      ensures var r := Elements(content, old(offset) + 1, old(depth), []);
        ok == r.Some? && (ok ==> items == r.value.v && offset == r.value.next && depth == old(depth))
      decreases |content| - offset, 0
    {
      ghost var start, s, d := offset + 1, content, depth;
      items := [];
      while true
        invariant offset < |s| && start <= offset + 1 && depth == d
        invariant Elements(s, start, d, []) == Elements(s, offset + 1, d, items)
        decreases |s| - offset
      {
        offset := offset + 1;
        var okValue, value := ParseValue();
        if !okValue {
          return false, [];
        }
        items := items + [value];
        if !(offset < |content| && content[offset] == COMMA) {
          break;
        }
      }
      ok := true;
    }

    /** `parse_object`: as `parse_array`, with `{`, the entry loop and `}`. */
    method ParseObject() returns (ok: bool, item: Json)
      requires Valid()
      modifies this
      ensures Valid()
      ensures var r := ObjectAt(content, old(offset), old(depth));
        ok == r.Some? && (ok ==> item == r.value.v && offset == r.value.next && depth == old(depth))
      decreases |content| - offset, 1
    {
      if depth >= NestingLimit {
        return false, Null;
      }
      depth := depth + 1;
      if offset >= |content| || content[offset] != LBRACE {
        return false, Null;
      }
      offset := offset + 1;
      if offset < |content| && content[offset] == RBRACE {
        depth := depth - 1;
        offset := offset + 1;
        return true, Object([]);
      }
      if offset >= |content| {
        offset := offset - 1;
        return false, Null;
      }
      offset := offset - 1;
      ObjectAtNonEmpty(content, offset, depth - 1);
      var members;
      ok, members := ParseMembers();
      if !ok {
        return false, Null;
      }
      if !(offset < |content| && content[offset] == RBRACE) {
        return false, Null;
      }
      depth := depth - 1;
      offset := offset + 1;
      return true, Object(members);
    }

    /** One pass of the `parse_object` loop, from the key's opening quote: the key, a required `:`
        and the value. */
    method ParseEntry() returns (ok: bool, entry: Member)
      requires Valid()
      modifies this
      ensures Valid()
      ensures var r := Entry(content, old(offset), old(depth));
        ok == r.Some? && (ok ==> entry == r.value.v && offset == r.value.next && depth == old(depth))
      decreases |content| - offset, 0
    {
      var okKey, key := ParseString();
      if !okKey || !(offset < |content| && content[offset] == COLON) {
        return false, Member([], Null);
      }
      offset := offset + 1;
      var value;
      ok, value := ParseValue();
      entry := Member(key, value);
    }

    /** The do-while loop of `parse_object`, entered on the `{`: step past it or past a `,`, read
        an entry, append it, and go round while a `,` follows. */
    method ParseMembers() returns (ok: bool, members: seq<Member>)
      requires Valid() && offset < |content|
      modifies this
      ensures Valid()
      ensures var r := Members(content, old(offset) + 1, old(depth), []);
        ok == r.Some? && (ok ==> members == r.value.v && offset == r.value.next && depth == old(depth))
      decreases |content| - offset, 0
    {
      ghost var start, s, d := offset + 1, content, depth;
      members := [];
      while true
        invariant offset < |s| && start <= offset + 1 && depth == d
        invariant Members(s, start, d, []) == Members(s, offset + 1, d, members)
        decreases |s| - offset
      {
        offset := offset + 1;
        var okEntry, entry := ParseEntry();
        if !okEntry {
          return false, [];
        }
        members := members + [entry];
        if !(offset < |content| && content[offset] == COMMA) {
          break;
        }
      }
      ok := true;
    }
  }

  /** `gJSON_ParseWithLength`: NULL (None) on failure; bytes after the value are not examined. */
  method ParseWithLength(data: Bytes) returns (r: Option<Json>)
    ensures r == Parse(data)
  {
    var cursor := new Cursor(data);
    var ok, item := cursor.ParseValue();
    r := if ok then Some(item) else None;
  }
}
