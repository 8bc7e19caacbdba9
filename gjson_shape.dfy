/** What the gJSON parser refuses, and the shape of what it accepts (src/gjson.c:265-471): the
    first byte decides the production, containers end at their closing bracket, and no accepted
    tree nests deeper than `GJSON_NESTING_LIMIT`. */
module GJsonShape {
  import opened Wrappers
  import opened CStrings
  import opened GJsonNumber
  import opened GJsonTree
  import opened GJsonGrammar

  /** The bytes `parse_value` dispatches on: the first bytes of `null`, `false` and `true`, a quote,
      a minus sign, a digit, `[` and `{`. */
  predicate Dispatches(b: byte)
  {
    b == 0x6e || b == 0x66 || b == 0x74 || b == QUOTE || b == MINUS || IsDigit(b) || b == LBRACKET || b == LBRACE
  }

  /** `parse_value` fails at the end of input and on any first byte it does not dispatch on, a
      space, tab, line feed or carriage return among them; and it fails on a container once the
      depth has reached the limit. */
  lemma ValueRejects(s: Bytes, off: nat, depth: nat)
    requires off <= |s|
    ensures off == |s| ==> Value(s, off, depth) == None
    ensures off < |s| && !Dispatches(s[off]) ==> Value(s, off, depth) == None
    ensures off < |s| && (s[off] == 0x20 || s[off] == 0x09 || s[off] == 0x0a || s[off] == 0x0d) ==>
      Value(s, off, depth) == None
    ensures off < |s| && (s[off] == LBRACKET || s[off] == LBRACE) && depth >= NestingLimit ==>
      Value(s, off, depth) == None
  {
  }

  /** An array that parses lies between its `[` and the `]` just before the cursor, and was
      entered below the nesting limit: without the closing bracket it fails. */
  lemma ArrayCloses(s: Bytes, off: nat, depth: nat)
    requires off <= |s|
    ensures ArrayAt(s, off, depth).Some? ==>
      depth < NestingLimit && s[off] == LBRACKET && s[ArrayAt(s, off, depth).value.next - 1] == RBRACKET
  {
  }

  /** An object that parses lies between its `{` and the `}` just before the cursor, and was
      entered below the nesting limit: without the closing brace it fails. */
  lemma ObjectCloses(s: Bytes, off: nat, depth: nat)
    requires off <= |s|
    ensures ObjectAt(s, off, depth).Some? ==>
      depth < NestingLimit && s[off] == LBRACE && s[ObjectAt(s, off, depth).value.next - 1] == RBRACE
  {
  }

  /** A tree whose containers, entered at `depth`, all open below the nesting limit. */
  predicate Nests(j: Json, depth: nat)
  {
    match j
    case Array(es) => depth < NestingLimit && forall k :: 0 <= k < |es| ==> Nests(es[k], depth + 1)
    case Object(ms) => depth < NestingLimit && forall k :: 0 <= k < |ms| ==> Nests(ms[k].value, depth + 1)
    case _ => true
  }

  /** Every tree `parse_value` builds at `depth` keeps within the limit, arrays and objects alike. */
  lemma {:induction false} ValueNests(s: Bytes, off: nat, depth: nat)
    requires off <= |s|
    ensures Value(s, off, depth).Some? ==> Nests(Value(s, off, depth).value.v, depth)
    decreases |s| - off, 2
  {
    if At(s, off, LBRACKET) {
      ArrayNests(s, off, depth);
    } else if At(s, off, LBRACE) {
      ObjectNests(s, off, depth);
    }
  }

  lemma {:induction false} ArrayNests(s: Bytes, off: nat, depth: nat)
    requires off <= |s|
    ensures ArrayAt(s, off, depth).Some? ==> Nests(ArrayAt(s, off, depth).value.v, depth)
    decreases |s| - off, 1
  {
    if depth < NestingLimit && At(s, off, LBRACKET) && !At(s, off + 1, RBRACKET) && off + 1 < |s| {
      ElementsNests(s, off + 1, depth + 1, []);
      assert Elements(s, off + 1, depth + 1, []).Some? ==>
        var es := Elements(s, off + 1, depth + 1, []).value.v;
        forall k :: 0 <= k < |es| ==> Nests(es[k], depth + 1);
      match Elements(s, off + 1, depth + 1, [])
      case None =>
      case Some(p) =>
        if At(s, p.next, RBRACKET) {
          assert ArrayAt(s, off, depth) == Some(Parsed(Array(p.v), p.next + 1));
        }
    }
  }

  lemma {:induction false} ElementsNests(s: Bytes, off: nat, depth: nat, items: seq<Json>)
    requires off <= |s|
    requires forall k :: 0 <= k < |items| ==> Nests(items[k], depth)
    ensures Elements(s, off, depth, items).Some? ==>
      var es := Elements(s, off, depth, items).value.v;
      forall k :: 0 <= k < |es| ==> Nests(es[k], depth)
    decreases |s| - off, 3
  {
    ValueNests(s, off, depth);
    match Value(s, off, depth)
    case None =>
    case Some(p) =>
      var more := items + [p.v];
      assert forall k :: 0 <= k < |more| ==> Nests(more[k], depth) by {
        assert forall k :: 0 <= k < |items| ==> more[k] == items[k];
        assert more[|items|] == p.v;
      }
      if At(s, p.next, COMMA) {
        assert Elements(s, off, depth, items) == Elements(s, p.next + 1, depth, more);
        ElementsNests(s, p.next + 1, depth, more);
        assert Elements(s, p.next + 1, depth, more).Some? ==>
          var es := Elements(s, p.next + 1, depth, more).value.v;
          forall k :: 0 <= k < |es| ==> Nests(es[k], depth);
      } else {
        assert Elements(s, off, depth, items) == Some(Parsed(more, p.next));
      }
  }

  lemma {:induction false} ObjectNests(s: Bytes, off: nat, depth: nat)
    requires off <= |s|
    ensures ObjectAt(s, off, depth).Some? ==> Nests(ObjectAt(s, off, depth).value.v, depth)
    decreases |s| - off, 1
  {
    if depth < NestingLimit && At(s, off, LBRACE) && !At(s, off + 1, RBRACE) && off + 1 < |s| {
      MembersNests(s, off + 1, depth + 1, []);
      assert Members(s, off + 1, depth + 1, []).Some? ==>
        var ms := Members(s, off + 1, depth + 1, []).value.v;
        forall k :: 0 <= k < |ms| ==> Nests(ms[k].value, depth + 1);
      match Members(s, off + 1, depth + 1, [])
      case None =>
      case Some(p) =>
        if At(s, p.next, RBRACE) {
          assert ObjectAt(s, off, depth) == Some(Parsed(Object(p.v), p.next + 1));
        }
    }
  }

  lemma {:induction false} EntryNests(s: Bytes, off: nat, depth: nat)
    requires off <= |s|
    ensures Entry(s, off, depth).Some? ==> Nests(Entry(s, off, depth).value.v.value, depth)
    decreases |s| - off, 2
  {
    match StringAt(s, off)
    case None =>
    case Some(k) =>
      if At(s, k.next, COLON) {
        ValueNests(s, k.next + 1, depth);
      }
  }

  lemma {:induction false} MembersNests(s: Bytes, off: nat, depth: nat, members: seq<Member>)
    requires off <= |s|
    requires forall k :: 0 <= k < |members| ==> Nests(members[k].value, depth)
    ensures Members(s, off, depth, members).Some? ==>
      var ms := Members(s, off, depth, members).value.v;
      forall k :: 0 <= k < |ms| ==> Nests(ms[k].value, depth)
    decreases |s| - off, 3
  {
    EntryNests(s, off, depth);
    match Entry(s, off, depth)
    case None =>
    case Some(p) =>
      var more := members + [p.v];
      assert forall k :: 0 <= k < |more| ==> Nests(more[k].value, depth) by {
        assert forall k :: 0 <= k < |members| ==> more[k] == members[k];
        assert more[|members|] == p.v;
      }
      if At(s, p.next, COMMA) {
        assert Members(s, off, depth, members) == Members(s, p.next + 1, depth, more);
        MembersNests(s, p.next + 1, depth, more);
        assert Members(s, p.next + 1, depth, more).Some? ==>
          var ms := Members(s, p.next + 1, depth, more).value.v;
          forall k :: 0 <= k < |ms| ==> Nests(ms[k].value, depth);
      } else {
        assert Members(s, off, depth, members) == Some(Parsed(more, p.next));
      }
  }

  /** `gJSON_ParseWithLength` never returns a tree nested deeper than the limit. */
  lemma ParseNests(s: Bytes)
    ensures Parse(s).Some? ==> Nests(Parse(s).value, 0)
  {
    ValueNests(s, 0, 0);
  }
}
