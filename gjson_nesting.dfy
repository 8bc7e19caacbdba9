/** The nesting limit of `parse_array` (src/gjson.c:315-374): `n` opening brackets followed by `n`
    closing ones parse exactly when `n` is between 1 and `GJSON_NESTING_LIMIT`. */
module GJsonNesting {
  import opened Wrappers
  import opened CStrings
  import opened GJsonTree
  import opened GJsonGrammar

  /** `n` bytes `[` then `n` bytes `]`. */
  function Brackets(n: nat): (r: Bytes)
    ensures |r| == 2 * n
    ensures forall i :: 0 <= i < n ==> r[i] == LBRACKET
    ensures forall i :: n <= i < 2 * n ==> r[i] == RBRACKET
  {
    seq(2 * n, i requires 0 <= i < 2 * n => if i < n then LBRACKET else RBRACKET)
  }

  /** `m` arrays, each the only element of the one around it; the innermost is empty. */
  function Nested(m: nat): Json
    requires m >= 1
  {
    if m == 1 then Array([]) else Array([Nested(m - 1)])
  }

  /** The array opened at byte `k` holds the `n - k` levels from there and closes at byte
      `2n - k - 1`, provided the depth on entry plus those levels stays within the limit. */
  lemma {:induction false} BracketsFrom(n: nat, k: nat, depth: nat)
    requires k < n
    ensures ArrayAt(Brackets(n), k, depth) ==
      if depth + (n - k) <= NestingLimit then Some(Parsed(Nested(n - k), 2 * n - k)) else None
    decreases n - k
  {
    var s := Brackets(n);
    if k + 1 < n && depth < NestingLimit {
      assert s[k] == LBRACKET && s[k + 1] == LBRACKET;
      ArrayAtNonEmpty(s, k, depth);
      BracketsFrom(n, k + 1, depth + 1);
      assert Value(s, k + 1, depth + 1) == ArrayAt(s, k + 1, depth + 1);
      var close := 2 * n - k - 1;
      assert s[close] == RBRACKET;
      if depth + (n - k) <= NestingLimit {
        assert [] + [Nested(n - k - 1)] == [Nested(n - k - 1)];
        assert Elements(s, k + 1, depth + 1, []) == Some(Parsed([Nested(n - k - 1)], close));
      } else {
        assert Elements(s, k + 1, depth + 1, []) == None;
      }
    }
  }

  /** `gJSON_ParseWithLength` on `n` nested empty brackets. */
  lemma ParseBrackets(n: nat)
    ensures Parse(Brackets(n)) == if 1 <= n <= NestingLimit then Some(Nested(n)) else None
  {
    if n >= 1 {
      BracketsFrom(n, 0, 0);
      assert Value(Brackets(n), 0, 0) == ArrayAt(Brackets(n), 0, 0);
    }
  }
}
