/** The container layout `read_glb` reads (src/glb.c:291-354): the 12-byte header (magic, version,
    total size) and the two chunks — JSON first, then BIN — each a 4-byte length, a 4-byte type and
    the payload, as laid down by section 4.4 ("Binary glTF Layout") of the glTF 2.0 specification.
    The file is an in-memory byte sequence; words are read in the host's byte order, taken to be
    little-endian. */
module GlbLayout {
  import opened Wrappers
  import opened CStrings

  const Word: nat := 0x1_0000_0000

  /** `SIGN_LE`: "glTF" as it lies in the file. */
  const SignLE: Bytes := [0x67, 0x6C, 0x54, 0x46]
  /** `SIGN_BE`: the same four bytes reversed. */
  const SignBE: Bytes := [0x46, 0x54, 0x6C, 0x67]

  /** The unsigned 32-bit word at `i`, least significant byte first. */
  function U32At(f: Bytes, i: nat): (n: nat)
    requires i + 4 <= |f|
    ensures n < Word
  {
    f[i] as nat + 0x100 * f[i + 1] as nat + 0x1_0000 * f[i + 2] as nat + 0x100_0000 * f[i + 3] as nat
  }

  /** A word as four bytes, least significant first. */
  function Le32(n: nat): (r: Bytes)
    requires n < Word
    ensures |r| == 4
  {
    [(n % 0x100) as byte, (n / 0x100 % 0x100) as byte, (n / 0x1_0000 % 0x100) as byte, (n / 0x100_0000) as byte]
  }

  lemma U32AtLe32(f: Bytes, i: nat, n: nat)
    requires n < Word && i + 4 <= |f| && f[i..i + 4] == Le32(n)
    ensures U32At(f, i) == n
  {
    assert f[i] == f[i..i + 4][0] && f[i + 1] == f[i..i + 4][1];
    assert f[i + 2] == f[i..i + 4][2] && f[i + 3] == f[i..i + 4][3];
  }

  /** Why `read_glb` gives up: a read past the end of the file (named after the field it was
      reading), or a header with the wrong version or signature. */
  datatype LayoutError =
    | ShortSignature
    | ShortVersion
    | ShortSize
    | Rejected
    | ShortJsonLength
    | ShortBinLength
    | ShortBinPayload

  /** The two payloads `read_glb` hands on. */
  datatype Container = Container(json: Bytes, bin: Bytes)

  /** The header and chunk split of `read_glb`. The reads it checks fail at the end of the file;
      the payload reads it does not check would leave the buffer partly unwritten, and here fail:
      a short JSON payload leaves the BIN length unreadable, a short BIN payload of nonzero length
      is refused. The total-size field and both chunk types are read and ignored. */
  function DecodeGlb(f: Bytes): (r: Result<Container, LayoutError>)
    ensures |f| >= 12 && (U32At(f, 4) != 2 || (f[..4] != SignLE && f[..4] != SignBE)) ==> r == Err(Rejected)
    ensures r.Ok? ==> |f| >= 16 && |f| >= 24 + U32At(f, 12) && r.value.json == f[20..20 + U32At(f, 12)]
  {
    if |f| < 4 then Err(ShortSignature)
    else if |f| < 8 then Err(ShortVersion)
    else if |f| < 12 then Err(ShortSize)
    else if U32At(f, 4) != 2 || (f[..4] != SignBE && f[..4] != SignLE) then Err(Rejected)
    else if |f| < 16 then Err(ShortJsonLength)
    else
      var jsonLength := U32At(f, 12);
      if |f| < 24 + jsonLength then Err(ShortBinLength)
      else
        var binLength := U32At(f, 20 + jsonLength);
        if binLength > 0 && |f| < 28 + jsonLength + binLength then Err(ShortBinPayload)
        else
          var bin := if binLength == 0 then [] else f[28 + jsonLength..28 + jsonLength + binLength];
          Ok(Container(f[20..20 + jsonLength], bin))
  }

  /** A well-formed container: either signature, version 2, any total size, the JSON chunk then
      the BIN chunk with any chunk types. */
  function EncodeGlb(sign: Bytes, size: nat, jsonType: Bytes, binType: Bytes, c: Container): (f: Bytes)
    requires |sign| == 4 && |jsonType| == 4 && |binType| == 4
    requires size < Word && |c.json| < Word && |c.bin| < Word
    ensures |f| == 28 + |c.json| + |c.bin|
  {
    sign + Le32(2) + Le32(size) + Le32(|c.json|) + jsonType + c.json + Le32(|c.bin|) + binType + c.bin
  }

  /** Decoding a well-formed container gives back its payloads, for either signature. */
  lemma DecodeEncode(sign: Bytes, size: nat, jsonType: Bytes, binType: Bytes, c: Container)
    requires sign == SignLE || sign == SignBE
    requires |jsonType| == 4 && |binType| == 4 && size < Word && |c.json| < Word && |c.bin| < Word
    ensures DecodeGlb(EncodeGlb(sign, size, jsonType, binType, c)) == Ok(c)
  {
    var f := EncodeGlb(sign, size, jsonType, binType, c);
    var j := |c.json|;
    var b := |c.bin|;
    assert f[..4] == sign;
    assert f[4..8] == Le32(2);
    U32AtLe32(f, 4, 2);
    assert f[12..16] == Le32(j);
    U32AtLe32(f, 12, j);
    assert f[20 + j..24 + j] == Le32(b);
    U32AtLe32(f, 20 + j, b);
    assert f[20..20 + j] == c.json;
    assert f[28 + j..28 + j + b] == c.bin;
  }

  /** A header is accepted exactly when the version word is 2 and the magic is "glTF" in either
      byte order; the JSON payload is the `U32At(f, 12)` bytes from offset 20, and the BIN payload
      the `U32At(f, 20 + J)` bytes after its length and type. */
  lemma DecodeGlbAccepts(f: Bytes)
    ensures DecodeGlb(f).Ok? <==>
      |f| >= 16 && U32At(f, 4) == 2 && (f[..4] == SignLE || f[..4] == SignBE) &&
      |f| >= 24 + U32At(f, 12) &&
      (U32At(f, 20 + U32At(f, 12)) == 0 || |f| >= 28 + U32At(f, 12) + U32At(f, 20 + U32At(f, 12)))
    ensures DecodeGlb(f).Ok? ==>
      var j := U32At(f, 12);
      var b := U32At(f, 20 + j);
      DecodeGlb(f).value.json == f[20..20 + j] && |DecodeGlb(f).value.bin| == b &&
      (b > 0 ==> DecodeGlb(f).value.bin == f[28 + j..28 + j + b])
  {
  }
}
