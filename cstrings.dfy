/** Bytes and NUL-terminated C strings, as the C code sees them. */
module CStrings {

  newtype byte = b: int | 0 <= b < 256

  type Bytes = seq<byte>

  const NUL: byte := 0

  /** The C string a buffer denotes: its bytes up to (not including) the first NUL. */
  function CStr(s: Bytes): (r: Bytes)
    ensures |r| <= |s| && r == s[..|r|]
    ensures forall k :: 0 <= k < |r| ==> r[k] != NUL
    ensures |r| == |s| || s[|r|] == NUL
  {
    if s == [] then []
    else if s[0] == NUL then []
    else [s[0]] + CStr(s[1..])
  }

  /** `tolower` in the "C" locale: only 'A'..'Z' change. */
  function ToLower(b: byte): byte
  {
    if 'A' as int <= b as int <= 'Z' as int then b + 32 else b
  }

  lemma ToLowerNul(b: byte)
    ensures ToLower(b) == NUL <==> b == NUL
  {
  }

  /** Equality up to ASCII case: same length and pointwise equal after `ToLower`. */
  predicate EqualIgnoringCase(a: Bytes, b: Bytes)
  {
    |a| == |b| && forall k :: 0 <= k < |a| ==> ToLower(a[k]) == ToLower(b[k])
  }

  /** `strncmp(s, lit, |lit|) == 0` for a literal without NUL: `lit` is a prefix of the C string `s`. */
  predicate HasPrefix(s: Bytes, lit: Bytes)
  {
    |lit| <= |CStr(s)| && CStr(s)[..|lit|] == lit
  }
}
