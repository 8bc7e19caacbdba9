/** What `parse_string` (src/gjson.c:132-188) accepts and copies, stated without the pre-scan:
    the text up to the first quote not taken by a backslash, and the allocation the C makes. */
module GJsonStrings {
  import opened Wrappers
  import opened CStrings
  import opened GJsonGrammar

  /** The pre-scan stops exactly at a quote that ends an escape-respecting body. */
  lemma {:induction false} StringEndIsFirstQuote(s: Bytes, i: nat, e: nat)
    requires i <= |s|
    ensures StringEnd(s, i) == Some(e) <==> i <= e < |s| && s[e] == QUOTE && Escaped(s[i..e])
    decreases |s| - i
  {
    if i < |s| && i <= e < |s| {
      var t := s[i..e];
      if s[i] == QUOTE {
        assert i < e ==> t[0] == QUOTE;
      } else if s[i] == BACKSLASH {
        if i + 1 < |s| {
          StringEndIsFirstQuote(s, i + 2, e);
          if i + 2 <= e {
            assert t[2..] == s[i + 2..e];
          }
        }
      } else {
        StringEndIsFirstQuote(s, i + 1, e);
        if i + 1 <= e {
          assert t[1..] == s[i + 1..e];
        }
      }
    } else if i < |s| {
      if s[i] == BACKSLASH && i + 1 < |s| {
        StringEndIsFirstQuote(s, i + 2, e);
      } else if s[i] != QUOTE && s[i] != BACKSLASH {
        StringEndIsFirstQuote(s, i + 1, e);
      }
    }
  }

  /** `parse_string` succeeds exactly on an opening quote, a body of plain bytes and backslash pairs,
      and a closing quote; its text is that body and the cursor stops just past the closing quote. */
  lemma StringAtExactly(s: Bytes, off: nat, text: Bytes, next: nat)
    requires off <= |s|
    ensures StringAt(s, off) == Some(Parsed(text, next)) <==>
      At(s, off, QUOTE) && next == off + |text| + 2 && next <= |s| && s[off + 1..next - 1] == text &&
      s[next - 1] == QUOTE && Escaped(text)
  {
    if At(s, off, QUOTE) && off + |text| + 2 <= |s| {
      StringEndIsFirstQuote(s, off + 1, off + 1 + |text|);
    }
    if StringAt(s, off).Some? {
      var e := StringEnd(s, off + 1).value;
      StringEndIsFirstQuote(s, off + 1, e);
    }
  }

  /** The pre-scan's `skipped_bytes`: how many backslash pairs it steps over before stopping. */
  function Skipped(s: Bytes, i: nat): nat
    requires i <= |s|
    decreases |s| - i
  {
    if i >= |s| || s[i] == QUOTE then 0
    else if s[i] == BACKSLASH then (if i + 1 >= |s| then 0 else 1 + Skipped(s, i + 2))
    else Skipped(s, i + 1)
  }

  /** Each skipped pair takes two bytes of the body. */
  lemma {:induction false} SkippedBound(s: Bytes, i: nat)
    requires i <= |s| && StringEnd(s, i).Some?
    ensures 2 * Skipped(s, i) <= StringEnd(s, i).value - i
    decreases |s| - i
  {
    if s[i] == BACKSLASH {
      SkippedBound(s, i + 2);
    } else if s[i] != QUOTE {
      SkippedBound(s, i + 1);
    }
  }

  /** The size the C passes to `malloc` for a string starting at `off`, as written:
      `(input_end - buffer_at_offset) - skipped_bytes + sizeof("")`. */
  function AllocationAsWritten(s: Bytes, off: nat): nat
    requires off < |s| && StringEnd(s, off + 1).Some?
  {
    var e := StringEnd(s, off + 1).value;
    SkippedBound(s, off + 1);
    (e - off) - Skipped(s, off + 1) + 1
  }

  /** The bytes the copy loop and the terminating NUL write: the whole body, escapes verbatim, plus one. */
  function BytesWritten(s: Bytes, off: nat): nat
    requires off < |s| && StringEnd(s, off + 1).Some?
  {
    StringEnd(s, off + 1).value - (off + 1) + 1
  }

  /** The allocation is short of what is written exactly when the body holds two or more escape
      pairs: the C subtracts the skipped bytes although it copies them. */
  lemma AllocationShortfall(s: Bytes, off: nat)
    requires off < |s| && StringEnd(s, off + 1).Some?
    ensures AllocationAsWritten(s, off) < BytesWritten(s, off) <==> Skipped(s, off + 1) >= 2
    ensures BytesWritten(s, off) - AllocationAsWritten(s, off) == Skipped(s, off + 1) - 1
  {
  }

  /** `"\a\b"`: a four-byte allocation receives five bytes. */
  lemma AllocationOverrunExample()
    ensures var s: Bytes := [QUOTE, BACKSLASH, 0x61, BACKSLASH, 0x62, QUOTE];
      StringAt(s, 0).Some? && AllocationAsWritten(s, 0) == 4 && BytesWritten(s, 0) == 5
  {
    var s: Bytes := [QUOTE, BACKSLASH, 0x61, BACKSLASH, 0x62, QUOTE];
    assert StringEnd(s, 5) == Some(5);
    assert StringEnd(s, 1) == Some(5);
    assert Skipped(s, 5) == 0;
    assert Skipped(s, 1) == 2;
  }
}
