/** The gJSON value tree and its two lookups (src/gjson.c, src/include/gjson.h). */
module GJsonTree {
  import opened Wrappers
  import opened CStrings
  import opened GJsonNumber

  /** One gJSON node, by its type tag. A number keeps the decimal `strtod` read; the node's
      `valuedouble` and `valueint` are functions of it. */
  datatype Json =
    | Null
    | True
    | False
    | Number(value: Decimal)
    | Str(text: Bytes)
    | Array(elements: seq<Json>)
    | Object(members: seq<Member>)

  /** An object entry: the node's `string` (key) and the value stored in the same node. */
  datatype Member = Member(key: Bytes, value: Json)

  /** A node in a sibling list: object entries carry a key, array elements do not (`string == NULL`). */
  datatype Child = Child(key: Option<Bytes>, value: Json)

  /** The sibling list hanging off `child`, in `next` order; empty for scalars. */
  function Children(j: Json): seq<Child>
  {
    match j
    case Array(es) => ElementChildren(es)
    case Object(ms) => MemberChildren(ms)
    case _ => []
  }

  /** Array elements as siblings: no keys. */
  function ElementChildren(es: seq<Json>): seq<Child>
  {
    if es == [] then [] else [Child(None, es[0])] + ElementChildren(es[1..])
  }

  /** Object members as siblings: each keyed by its member name. */
  function MemberChildren(ms: seq<Member>): seq<Child>
  {
    if ms == [] then [] else [Child(Some(ms[0].key), ms[0].value)] + MemberChildren(ms[1..])
  }

  /** The siblings of an array are its elements, those of an object its members, in order. */
  lemma ChildrenInOrder(j: Json)
    ensures j.Array? ==>
      |Children(j)| == |j.elements| &&
      forall k :: 0 <= k < |j.elements| ==> Children(j)[k] == Child(None, j.elements[k])
    ensures j.Object? ==>
      |Children(j)| == |j.members| &&
      forall k :: 0 <= k < |j.members| ==> Children(j)[k] == Child(Some(j.members[k].key), j.members[k].value)
    ensures !j.Array? && !j.Object? ==> Children(j) == []
  {
    match j
    case Array(es) => ElementChildrenAt(es);
    case Object(ms) => MemberChildrenAt(ms);
    case _ =>
  }

  lemma {:induction false} ElementChildrenAt(es: seq<Json>)
    ensures |ElementChildren(es)| == |es|
    ensures forall k :: 0 <= k < |es| ==> ElementChildren(es)[k] == Child(None, es[k])
  {
    if es != [] {
      ElementChildrenAt(es[1..]);
    }
  }

  lemma {:induction false} MemberChildrenAt(ms: seq<Member>)
    ensures |MemberChildren(ms)| == |ms|
    ensures forall k :: 0 <= k < |ms| ==> MemberChildren(ms)[k] == Child(Some(ms[k].key), ms[k].value)
  {
    if ms != [] {
      MemberChildrenAt(ms[1..]);
    }
  }

  /** The node's `valuedouble`, before rounding to a double; zero (from the cleared allocation)
      unless a number. */
  function ValueDouble(j: Json): real
  {
    if j.Number? then DecimalValue(j.value) else 0.0
  }

  /** The node's `valueint`: the saturated truncation of the number, zero otherwise. */
  function ValueInt(j: Json): int
  {
    if j.Number? then IntProjection(DecimalValue(j.value)) else 0
  }

  /** The node's `valuestring`: the text of a string node, NULL otherwise. */
  function ValueString(j: Json): Option<Bytes>
  {
    if j.Str? then Some(j.text) else None
  }

  /** `case_insensitive_strcmp`: 1 when either pointer is NULL, otherwise the difference of the
      lower-cased bytes at the first position where the NUL-terminated strings differ. */
  method CaseInsensitiveStrcmp(string1: Option<Bytes>, string2: Option<Bytes>) returns (r: int)
    ensures string1.None? || string2.None? ==> r == 1
    ensures string1.Some? && string2.Some? ==>
      (r == 0 <==> EqualIgnoringCase(CStr(string1.value), CStr(string2.value)))
  {
    if string1.None? || string2.None? {
      return 1;
    }
    var s1, s2 := string1.value + [NUL], string2.value + [NUL];
    ghost var c1, c2 := CStr(string1.value), CStr(string2.value);
    var i := 0;
    while ToLower(s1[i]) == ToLower(s2[i])
      invariant i < |s1| && i < |s2|
      invariant forall k :: 0 <= k < i ==> s1[k] != NUL && ToLower(s1[k]) == ToLower(s2[k])
      invariant i <= |c1| && i <= |c2| && c1[..i] == s1[..i] && c2[..i] == s2[..i]
      decreases |s1| - i
    {
      ToLowerNul(s1[i]);
      ToLowerNul(s2[i]);
      if s1[i] == NUL {
        assert |c1| == i && |c2| == i;
        return 0;
      }
      assert i < |c1| && i < |c2|;
      assert c1[i] == s1[i] && c2[i] == s2[i];
      i := i + 1;
    }
    r := ToLower(s1[i]) as int - ToLower(s2[i]) as int;
    ToLowerNul(s1[i]);
    ToLowerNul(s2[i]);
    assert i < |c1| ==> s1[i] == c1[i];
    assert i < |c2| ==> s2[i] == c2[i];
    assert i == |c1| ==> s1[i] == NUL;
    assert i == |c2| ==> s2[i] == NUL;
  }

  /** Whether a sibling's key equals `name` up to ASCII case. */
  predicate KeyMatches(c: Child, name: Bytes)
  {
    c.key.Some? && EqualIgnoringCase(CStr(name), CStr(c.key.value))
  }

  /** The value of the first sibling, in list order, whose key matches `name`. */
  function FindKey(kids: seq<Child>, name: Bytes): Option<Json>
  {
    if kids == [] then None
    else if KeyMatches(kids[0], name) then Some(kids[0].value)
    else FindKey(kids[1..], name)
  }

  /** `gJSON_GetObjectItem`: NULL object or name gives NULL; otherwise the first matching child. */
  function ObjectItem(obj: Option<Json>, name: Option<Bytes>): Option<Json>
  {
    if obj.None? || name.None? then None else FindKey(Children(obj.value), name.value)
  }

  /** `gJSON_GetArrayItem`: the `index`-th child in sibling order; NULL for a NULL array, a negative
      index, or an index at or past the number of children. */
  function ArrayItem(arr: Option<Json>, index: int): (r: Option<Json>)
    ensures r.Some? <==> arr.Some? && 0 <= index < |Children(arr.value)|
    ensures r.Some? ==> r.value == Children(arr.value)[index].value
  {
    if index < 0 || arr.None? then None
    else if index < |Children(arr.value)| then Some(Children(arr.value)[index].value)
    else None
  }

  /** FindKey returns the first match and nothing when no key matches. */
  lemma {:induction false} FindKeyIsFirstMatch(kids: seq<Child>, name: Bytes)
    ensures FindKey(kids, name).None? <==> forall k :: 0 <= k < |kids| ==> !KeyMatches(kids[k], name)
    ensures FindKey(kids, name).Some? ==>
      exists i :: 0 <= i < |kids| && KeyMatches(kids[i], name) && FindKey(kids, name).value == kids[i].value &&
        forall k :: 0 <= k < i ==> !KeyMatches(kids[k], name)
  {
    if kids != [] {
      FindKeyIsFirstMatch(kids[1..], name);
      if !KeyMatches(kids[0], name) {
        if FindKey(kids, name).Some? {
          var i :| 0 <= i < |kids[1..]| && KeyMatches(kids[1..][i], name) &&
            FindKey(kids[1..], name).value == kids[1..][i].value &&
            forall k :: 0 <= k < i ==> !KeyMatches(kids[1..][k], name);
          assert KeyMatches(kids[i + 1], name);
          assert forall k :: 0 <= k < i + 1 ==> !KeyMatches(kids[k], name) by {
            forall k | 0 <= k < i + 1 ensures !KeyMatches(kids[k], name) {
              if k > 0 { assert kids[k] == kids[1..][k - 1]; }
            }
          }
        } else {
          forall k | 0 <= k < |kids| ensures !KeyMatches(kids[k], name) {
            if k > 0 { assert kids[k] == kids[1..][k - 1]; }
          }
        }
      }
    }
  }

  /** The member lookup walks the sibling list with `case_insensitive_strcmp`. */
  method GetObjectItem(obj: Option<Json>, name: Option<Bytes>) returns (r: Option<Json>)
    ensures r == ObjectItem(obj, name)
  {
    if obj.None? || name.None? {
      return None;
    }
    var kids := Children(obj.value);
    var i := 0;
    while i < |kids|
      invariant i <= |kids|
      invariant FindKey(kids[i..], name.value) == FindKey(kids, name.value)
    {
      var c := CaseInsensitiveStrcmp(name, kids[i].key);
      assert kids[i..][0] == kids[i] && kids[i..][1..] == kids[i + 1..];
      if c == 0 {
        return Some(kids[i].value);
      }
      i := i + 1;
    }
    return None;
  }

  /** The element lookup walks `index` steps down the sibling list. */
  method GetArrayItem(arr: Option<Json>, index: int) returns (r: Option<Json>)
    ensures r == ArrayItem(arr, index)
  {
    if index < 0 || arr.None? {
      return None;
    }
    var kids := Children(arr.value);
    var current, remaining := 0, index;
    while current < |kids| && remaining > 0
      invariant 0 <= current <= |kids| && 0 <= remaining
      invariant current + remaining == index
    {
      remaining := remaining - 1;
      current := current + 1;
    }
    r := if current < |kids| then Some(kids[current].value) else None;
  }
}
