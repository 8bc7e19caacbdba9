# gJSON and the GLB mesh extractor, in Dafny

This project models two sequential C components and proves properties of the model.

- **gJSON** (src/gjson.c) is a recursive-descent parser for a whitespace-free subset of JSON
  (RFC 8259, sections 3 to 7). It has no whitespace skipping and does not decode escapes. It runs
  over one shared cursor `{content, length, offset, depth}` and builds a tree of nodes. Each node's
  children form a sibling list. Two lookups read the tree:
  - a member lookup by key, ASCII case-insensitive;
  - an element lookup by index.
- **The GLB mesh extractor** (src/glb.c) does four things:
  - it splits a binary glTF container into its JSON and BIN chunks (section 4.4, "Binary glTF
    Layout", of the glTF 2.0 specification);
  - it parses the JSON chunk with gJSON;
  - for every mesh, it looks up the position, normal, texture-coordinate and index accessors and
    their buffer views (section 3.6.2 of the glTF 2.0 specification);
  - it repacks each attribute's bytes out of the BIN chunk, appends the four regions to one growing
    output buffer, and records the four sizes per mesh in a size table.

Modules, in dependency order:

| module | file | what it holds |
|---|---|---|
| Wrappers | wrappers.dfy | `Option` and `Result` |
| CStrings | cstrings.dfy | bytes, NUL-terminated views, ASCII lower-casing |
| GJsonNumber | gjson_number.dfy | the number scan, a decimal `strtod` automaton, the int projection |
| GJsonTree | gjson_tree.dfy | the `Json` tree, sibling order, `case_insensitive_strcmp`, the two lookups |
| GJsonGrammar | gjson_grammar.dfy | one pure function per parser production, in the C's branch order |
| GJsonParser | gjson_parser.dfy | class `Cursor`, whose methods are the C productions, each proved equal to its function |
| GJsonStrings | gjson_strings.dfy | the exact language of `parse_string`, and the allocation finding |
| GJsonNesting | gjson_nesting.dfy | the nesting limit on `[[…]]` inputs |
| GJsonShape | gjson_shape.dfy | what `parse_value` refuses, closing brackets, and the nesting bound on every parsed tree |
| GJsonPrint | gjson_print.dfy | a printer, and the proof that the parser reads printed trees back |
| GlbLayout | glb_layout.dfy | the header and chunk split, with its encoder and round trip |
| GlbAccessor | glb_accessor.dfy | `set_accessor`, `set_bufferview`, the component tables |
| GlbMesh | glb_mesh.dfy | the mesh functions, `read_buffer`, and class `Decoder`, which holds the C's output state |
| GlbMeshLayout | glb_mesh_layout.dfy | what the mesh loop yields, and where each mesh lies in the output |
| GlbLookup | glb_lookup.dfy | the order of `get_mesh`'s lookups, where each attribute comes from, and when a mesh is extracted |

The imperative parts are methods with loops. Each is proved against a pure function:
- the parser productions;
- the lookups and `case_insensitive_strcmp`;
- the number staging loop;
- `read_buffer`;
- `get_mesh`;
- the mesh loop of `get_mesh_from_gjson`.

That function's properties are then proved as lemmas.

The C keeps its output position in a global (`buffer_position`), and the size table and mesh count
in out-parameters (`sizes`, `num_meshes`). The model keeps these three in the fields of a `Decoder`
object. The output buffer is not a field. `get_mesh` takes the buffer and returns the
reallocated one (src/glb.c:118, 186, 272), and the model's `StoreMesh` and `GetMesh` likewise take
the buffer and return the extended one. `AppendMeshes` starts from an empty buffer, as
`get_mesh_from_gjson` starts from its local `buffer = NULL` (src/glb.c:242).

The model adds a guard at every dereference the C makes without checking, and makes it an error.
There are three kinds:
- a byte read past the input end (parse_string at src/gjson.c:139, parse_array at src/gjson.c:325);
- a member lookup that returned NULL: the model reports which member was missing;
- a `read_buffer`/`memcpy` outside its buffer: the model reports which attribute id.

Where the specification and the code differ, the model follows the code:
- **Parse errors.** They are not typed: the parser's result is `None`, as the C returns NULL.
- **GLB chunk types.** The chunk type tags are read and ignored, so any type is accepted in either
  position.
- **Total size.** The total-size word is read and ignored.

## Model

| member | source | states |
|---|---|---|
| CStrings.CStr | src/gjson.c:41-54 | a C string is the bytes before the first NUL: a prefix with no NUL, ended by the end of input or a NUL |
| CStrings.ToLowerNul | src/gjson.c:41-54 | lower-casing maps a byte to NUL exactly when it is NUL, so the comparison ends at the same place in both strings |
| GJsonTree.ChildrenInOrder | src/gjson.c:315-471 | an array's sibling list is its elements in order, with no keys; an object's is its members in order, keyed; a scalar has none |
| GJsonTree.CaseInsensitiveStrcmp | src/gjson.c:41-54 | returns 1 when either string is NULL; otherwise returns 0 exactly when the two NUL-terminated strings are equal up to ASCII case |
| GJsonTree.ArrayItem | src/gjson.c:77-91 | the element lookup finds a node exactly when the array exists and 0 <= index < child count, and it is the index-th child in sibling order |
| GJsonTree.GetArrayItem | src/gjson.c:77-104 | the loop over siblings returns what `ArrayItem` says: NULL for a negative index or an index at or past the end |
| GJsonTree.FindKeyIsFirstMatch | src/gjson.c:56-75 | the key search yields nothing exactly when no child's key matches, and otherwise the first matching child in sibling order |
| GJsonTree.GetObjectItem | src/gjson.c:56-96 | the loop over siblings returns what `ObjectItem` says: NULL for a NULL object or name, the first case-insensitive match otherwise |
| GJsonNumber.ScanFromBounds | src/gjson.c:211-238 | the staging scan keeps only bytes from `0-9 + - e E .`, takes at most 63, and stops at byte 63, at the end of input or at the first other byte |
| GJsonNumber.ScanLengthBounds | src/gjson.c:211-242 | the staged length from `off` is bounded by 63 and by the input, and it is maximal |
| GJsonNumber.Convert | src/gjson.c:244 | the conversion either keeps its last accepted prefix or advances, never past the scanned end |
| GJsonNumber.ConvertShift | src/gjson.c:242-246 | converting a copy of the bytes gives the same value and the same advance as converting them in place |
| GJsonNumber.IntProjectionBounds | src/gjson.c:250-255 | `valueint` is INT_MAX above INT_MAX, INT_MIN at or below INT_MIN, and the truncation toward zero otherwise; it always lies in the int range |
| GJsonNumber.IntProjectionOfInt | src/gjson.c:250-255 | an integer from INT_MIN to INT_MAX inclusive projects to itself |
| GJsonGrammar.StringAt | src/gjson.c:132-194 | a string takes at least its two quotes and ends inside the input |
| GJsonGrammar.NumberAt | src/gjson.c:196-261 | a number advances by at least one byte and never past the scanned window |
| GJsonGrammar.StagedNumber | src/gjson.c:211-259 | converting the staged copy gives exactly the number and advance of the in-place reading; nothing converted means failure |
| GJsonGrammar.Value | src/gjson.c:265-313 | a value advances by at least one byte and ends inside the input |
| GJsonGrammar.ArrayAt | src/gjson.c:315-380 | an array takes at least `[]` and yields an array node |
| GJsonGrammar.Elements | src/gjson.c:339-360 | the element loop advances and adds at least one element |
| GJsonGrammar.ObjectAt | src/gjson.c:382-471 | an object takes at least `{}` and yields an object node |
| GJsonGrammar.Entry | src/gjson.c:426-440 | an entry (key, `:`, value) advances and ends inside the input |
| GJsonGrammar.Members | src/gjson.c:411-449 | the entry loop advances and adds at least one entry |
| GJsonShape.ValueRejects | src/gjson.c:265-313 | `parse_value` fails at the end of input, on every first byte other than `n f t " -`, a digit, `[` or `{` (whitespace among them), and on `[` or `{` once the depth has reached the limit |
| GJsonShape.ArrayCloses | src/gjson.c:315-380 | an array that parses was entered below the nesting limit, starts at its `[` and ends just past a `]`: without the closing bracket it fails |
| GJsonShape.ObjectCloses | src/gjson.c:382-471 | an object that parses was entered below the nesting limit, starts at its `{` and ends just past a `}`: without the closing brace it fails |
| GJsonShape.ValueNests | src/gjson.c:265-313 | every tree a value parses to at a given depth opens all its containers below the nesting limit |
| GJsonShape.ArrayNests | src/gjson.c:315-323 | an array parsed at a depth is below the limit there, and so are its elements one level down |
| GJsonShape.ElementsNests | src/gjson.c:339-360 | the element loop keeps every element within the limit at its depth |
| GJsonShape.ObjectNests | src/gjson.c:382-390 | an object parsed at a depth is below the limit there, and so are its members' values one level down |
| GJsonShape.EntryNests | src/gjson.c:426-440 | an entry's value keeps within the limit at the object's inner depth |
| GJsonShape.MembersNests | src/gjson.c:411-449 | the entry loop keeps every member's value within the limit at its depth |
| GJsonShape.ParseNests | src/gjson.c:475-503 | no tree the top-level parse returns nests deeper than the limit, arrays and objects alike |
| GJsonParser.Cursor.ParseString | src/gjson.c:132-194 | succeeds exactly when `StringAt` does; the text is the body between the quotes, escapes verbatim; the offset ends one past the closing quote; the depth is kept |
| GJsonParser.Cursor.Stage | src/gjson.c:211-242 | the staging buffer receives exactly the scanned window of the input |
| GJsonParser.Cursor.ParseNumber | src/gjson.c:196-261 | succeeds exactly when `NumberAt` does, with its value and its advance; the depth is kept |
| GJsonParser.Cursor.ParseValue | src/gjson.c:265-313 | succeeds exactly when `Value` does, with its tree and end offset; on success the depth is restored |
| GJsonParser.Cursor.ParseArray | src/gjson.c:315-380 | succeeds exactly when `ArrayAt` does; on success it leaves the offset one past `]` and restores the depth |
| GJsonParser.Cursor.ParseElements | src/gjson.c:339-360 | the do-while element loop yields exactly what `Elements` yields |
| GJsonParser.Cursor.ParseObject | src/gjson.c:382-471 | succeeds exactly when `ObjectAt` does; on success it leaves the offset one past `}` and restores the depth |
| GJsonParser.Cursor.ParseEntry | src/gjson.c:426-440 | one pass of the object loop yields exactly what `Entry` yields |
| GJsonParser.Cursor.ParseMembers | src/gjson.c:411-449 | the do-while entry loop yields exactly what `Members` yields |
| GJsonParser.ParseWithLength | src/gjson.c:475-503 | the top-level parse returns the tree of one value read from offset 0 at depth 0, or NULL; trailing bytes are not examined |
| GJsonStrings.StringEndIsFirstQuote | src/gjson.c:136-151 | the pre-scan stops at a quote exactly when the bytes before it are plain bytes and backslash pairs, that is at the first quote not preceded by an escaping backslash |
| GJsonStrings.StringAtExactly | src/gjson.c:132-194 | `parse_string` succeeds with text `t` and end `next` exactly when the input holds a quote, `t` with no unescaped quote, and a quote, and `next` is just past them |
| GJsonStrings.SkippedBound | src/gjson.c:136-151 | the skipped-byte count is at most half the body |
| GJsonStrings.AllocationShortfall | src/gjson.c:165-179 | as written, the allocation is short of the bytes written exactly when the body holds two or more escapes, by one less than their number |
| GJsonStrings.AllocationOverrunExample | src/gjson.c:165-179 | for `"\a\b"`, 4 bytes are allocated and 5 written |
| GJsonNesting.BracketsFrom | src/gjson.c:315-380 | reading `[[…]]` from bracket `k` at a given depth succeeds exactly when the remaining nesting fits under the limit |
| GJsonNesting.ParseBrackets | src/gjson.c:320-323 | `n` nested arrays parse exactly when 1 <= n <= 100, and give the nested tree; one level deeper fails |
| GJsonPrint.AccumulatePrintDigits | src/gjson.c:244 | reading the printed digits of `n` gives `n` back |
| GJsonPrint.NumberRoundTrip | src/gjson.c:196-261 | a printed integer number, delimited by a byte outside the number set or by the end, parses back to itself, consuming exactly its text |
| GJsonPrint.StringAtHolds | src/gjson.c:132-194 | a quoted text with no unescaped quote parses back to itself, consuming quotes and text |
| GJsonPrint.LiteralRoundTrip | src/gjson.c:271-288 | `null`, `false` and `true` parse back, consuming 4, 5 and 4 bytes |
| GJsonPrint.ValueRoundTrip | src/gjson.c:265-313 | a printable tree printed at any offset, and delimited, parses back to itself with the cursor just past it |
| GJsonPrint.ArrayRoundTrip | src/gjson.c:315-380 | a printed array parses back to the same elements in the same order |
| GJsonPrint.ElementsRoundTrip | src/gjson.c:339-360 | the element loop over printed comma-separated values yields them in order |
| GJsonPrint.ObjectRoundTrip | src/gjson.c:382-471 | a printed object parses back to the same keys and values in the same order |
| GJsonPrint.EntryRoundTrip | src/gjson.c:426-440 | a printed `"key":value` entry parses back to itself |
| GJsonPrint.MembersRoundTrip | src/gjson.c:411-449 | the entry loop over printed comma-separated entries yields them in order |
| GJsonPrint.ParseRoundTrip | src/gjson.c:475-503 | the top-level parse of a printed tree gives the tree back, whatever follows it; only a top-level number needs its next byte to be one that cannot extend it |
| GlbLayout.U32AtLe32 | src/glb.c:309-352 | a word read back from its four little-endian bytes is the word |
| GlbLayout.DecodeGlbAccepts | src/glb.c:309-352 | a file is accepted exactly when the version is 2, the magic is `glTF` in either byte order and the chunks fit; the JSON payload is the u32 at byte 12 many bytes from byte 20; the BIN length follows it, then a skipped 4-byte type, then the BIN payload |
| GlbLayout.DecodeGlb | src/glb.c:309-352 | a file of at least 12 bytes whose version is not 2, or whose magic is neither byte order of `glTF`, is rejected; an accepted file holds its JSON payload, the u32 at byte 12 many bytes from byte 20 |
| GlbLayout.EncodeGlb | src/glb.c:309-352 | a container takes 28 bytes plus its two payloads |
| GlbLayout.DecodeEncode | src/glb.c:309-352 | decoding any well-formed container, with either magic, any total size and any chunk types, gives back its two payloads |
| GlbAccessor.ComponentSize | src/glb.c:45-59 | `componentType` 5125 and 5126 are 4 bytes, 5122 and 5123 are 2, every other code is 1 |
| GlbAccessor.GroupCountNames | src/glb.c:62-78 | a `type` beginning SCALAR, VEC2, VEC3, VEC4, MAT2, MAT3 or MAT4 has 1, 2, 3, 4, 4, 9 or 16 components; any other `type` has 1 |
| GlbAccessor.SetAccessorOrder | src/glb.c:36-81 | `set_accessor` stops at the first missing member among `count`, `componentType` and `type`, naming it; it succeeds exactly when all three exist and `type` is a string, with the count, the data size of the component type and the group count of the type |
| GlbAccessor.SetBufferviewOrder | src/glb.c:83-87 | `set_bufferview` stops at the first missing member among `byteLength` and `byteOffset`, naming it; it succeeds exactly when both exist, with their values |
| GlbMesh.TableStep | src/glb.c:173-183 | recording a mesh at the next entry extends the size table by that mesh's sizes |
| GlbMesh.CopyElement | src/glb.c:99-111 | one element's components are copied into the output; the earlier bytes keep their copies |
| GlbMesh.ReadBuffer | src/glb.c:89-116 | the repacked buffer has `count * groupCount * dataSize` bytes, and byte `k` is `bin[byteOffset + k]` |
| GlbMesh.Decoder.constructor | src/glb.c:31 | a fresh decoder has output position 0, an empty size table and no meshes |
| GlbMesh.Decoder.StoreMesh | src/glb.c:151-187 | fails exactly when a region is out of bounds, leaving the state unchanged; otherwise the buffer is the old bytes followed by position, normal, texcoord and indices, the position is its new length, and `sizes[index]` holds the four byte lengths |
| GlbMesh.Decoder.GetMesh | src/glb.c:118-187 | fails exactly when `Mesh` does, with its error, leaving the state unchanged; otherwise as `StoreMesh` for the looked-up attributes |
| GlbMesh.Decoder.AppendMeshes | src/glb.c:246-285 | the mesh loop fails exactly when the outcome run does; otherwise the buffer is the meshes' bytes in order, `numMeshes` grows by one per mesh, and the size table gains one entry per mesh |
| GlbMesh.Decoder.GetMeshFromGjson | src/glb.c:189-289 | fails exactly when `AllMeshes` does, including a missing or empty `meshes`; on an empty `meshes` it returns with the output position 0 and the mesh count and size table unchanged; otherwise yields all meshes' bytes in order with one size entry each, the position at their length |
| GlbMesh.Decoder.ReadGlb | src/glb.c:291-371 | fails exactly when the container split, the JSON parse or a mesh fails; otherwise yields the meshes' bytes and size table, with the output position at the buffer's length and the mesh count grown by the number of meshes |
| GlbMeshLayout.RunSucceeds | src/glb.c:246-285 | the loop over outcomes succeeds exactly when every outcome does, and yields their meshes in order |
| GlbMeshLayout.RunFails | src/glb.c:246-285 | when the loop fails, it fails with the first failing outcome's error, every earlier one having succeeded |
| GlbMeshLayout.RunFromStart | src/glb.c:257-285 | a successful mesh loop started at the first mesh with an empty buffer yields one mesh per outcome, outcome `k` being mesh `k` |
| GlbMeshLayout.AllMeshesSucceed | src/glb.c:246-285 | extraction succeeds exactly when `meshes` has children and every mesh succeeds |
| GlbMeshLayout.AllMeshesInOrder | src/glb.c:246-285 | on success the result has one mesh per child, mesh `i` being what `get_mesh` builds for index `i` |
| GlbMeshLayout.AllMeshesFirstFailure | src/glb.c:246-285 | on failure with children present, the error is that of the first mesh that fails |
| GlbMeshLayout.PrefixLength | src/glb.c:173-183 | the first `j` meshes take as many bytes as the first `j` size entries add up to |
| GlbMeshLayout.PrefixBytes | src/glb.c:156-171 | the earlier meshes' bytes are a prefix of the output: later appends leave them unchanged |
| GlbMeshLayout.PieceLength | src/glb.c:173-183 | each mesh takes the bytes its size entry accounts for |
| GlbMeshLayout.OutputLength | src/glb.c:156-183 | the output holds exactly the bytes the size table accounts for |
| GlbMeshLayout.MeshAt | src/glb.c:156-171 | mesh `i`'s bytes follow the earlier meshes' bytes in the output |
| GlbMeshLayout.MeshLocated | src/glb.c:156-183 | mesh `i`'s bytes lie in the output at the sum of the earlier size entries, as long as its own entry says |
| GlbLookup.MeshLookupOrder | src/glb.c:118-133 | a mesh's lookup stops at the first missing member among `primitives`, `POSITION`, `indices`, `NORMAL` and `TEXCOORD_0`, in that order, and names it |
| GlbLookup.AttributeIdsFromMembers | src/glb.c:123-133 | the four ids are the `valueint`s of `POSITION`, of the primitive's `indices`, of `NORMAL` and of `TEXCOORD_0`, all of which exist when the ids are found |
| GlbLookup.AccessorsFromTable | src/glb.c:136-141 | the four accessors are found exactly when each id's entry of `accessors` is, and are those entries' values |
| GlbLookup.ViewsFromTable | src/glb.c:144-149 | the four buffer views are found exactly when each id's entry of `bufferViews` is, and are those entries' values |
| GlbLookup.AttributesFromTables | src/glb.c:130-149 | a looked-up attribute carries its member's id, and that one id selects both its accessor and its buffer view |
| GlbLookup.MeshOfResult | src/glb.c:151-171 | once looked up, a mesh is extracted exactly when all four views and their elements lie in their buffers; it is then the four views' bytes with their byte lengths as sizes, and otherwise the error names one of the four ids |

## Left out

- The case-sensitive branch of `get_object_item` (src/gjson.c:64-67) is not modelled. The only entry point, `gJSON_GetObjectItem` (src/gjson.c:93-96), always passes `case_sensitive = false`, so the branch is unreachable.
- Sibling links: the `next`/`prev` pointers and the first child's `prev` caching the last child are not modelled. A `seq` gives the order, and no lookup reads the tail cache.
- Memory management is not modelled: `malloc`, `realloc`, `free`, `gJSON_New_Item`, `gJSON_Delete`, the reference bit, and allocation failure. This includes the double delete of `gmeshes` and `gson` (src/glb.c:284, 359). These two are ownership concerns, with no effect on the values computed.
- `free(type)` (src/glb.c:80) frees the `valuestring` the accessor node still owns, so a later `set_accessor` on the same accessor reads freed memory in its `strncmp`s (src/glb.c:62-78). That happens when two attributes or two meshes share an accessor id, and it leaves `group_count` undefined. The model reads `type` afresh from the tree on every lookup, so a shared accessor gives the same group count each time. The C's second lookup is undefined behaviour that the model does not capture.
- Floating point: `strtod` is modelled as an exact decimal reading over the C-standard decimal syntax, without rounding to `double`.
  - `valueint` is therefore projected from the exact value, not from the rounded double. Where rounding crosses an integer, the model and the C differ. For example, `2.99999999999999999999` rounds to the double 3.0, so the C's `valueint` is 3 where the model's is 2. This affects every member the extractor reads through `valueint`: `count`, `componentType`, the attribute ids, `byteLength` and `byteOffset`.
  - The hexadecimal, `inf` and `nan` forms of `strtod` are not modelled, because none can be staged from the bytes `0-9 + - e E .`.
- Locale: the decimal point is fixed to `.`, since `get_decimal_point` (src/gjson.c:31-39) reads the locale.
- `valuedouble` is not modelled as a floating-point field. It is the exact value, `GJsonTree.ValueDouble`.
- Integer widths: `size_t` and `int` overflow of offsets, lengths and `count * groupSize` are not modelled; integers are unbounded. `valueint` saturation is modelled.
- Byte order: words are read least significant byte first, as on the little-endian hosts the C assumes when it reads them with `fread`.
- I/O: `fopen`, `fread`, `fclose` and the diagnostic `printf`s are not modelled. The file is an in-memory byte sequence. src/main.c is not part of this model.
- GJsonNumber.Convert: its contract only bounds the advance. That the advance is the longest prefix the automaton accepts follows from its definition; no separate lemma states it.
- GJsonGrammar.StringAt, GJsonGrammar.NumberAt, GJsonGrammar.Value, GJsonGrammar.ArrayAt, GJsonGrammar.Elements, GJsonGrammar.ObjectAt, GJsonGrammar.Entry, GJsonGrammar.Members: these functions' own contracts only bound the offsets. What they accept is given by the round-trip lemmas of GJsonPrint and by GJsonStrings; what they refuse by GJsonShape (a first byte outside the dispatch set, a missing `]` or `}`, the nesting limit) and GJsonNesting. Other malformed inputs, such as a missing `,` or `:` inside a container, fail by definition but no lemma lists them.
- GJsonParser.Cursor.ParseValue: on failure, the cursor's offset and depth are not specified, because every caller discards them. The same holds for the other productions.
- GJsonPrint.ValueRoundTrip: it covers integral numbers only. Numbers with a fraction or exponent are read by the same automaton but are not printed.
- GlbMesh.Decoder.GetMesh: it requires `index <= |sizes|`. The C writes `sizes[index]` into a table it reallocates to `index + 1` entries, so the model requires the entries below `index` to exist.
- GlbMesh.Decoder.GetMeshFromGjson: on a failure other than an empty `meshes`, the output position, size table and mesh count are not specified. In the C, a missing `meshes` or a failing mesh is a NULL dereference or an out-of-bounds read, after which no state is defined. An empty `meshes` is a clean return (src/glb.c:250-255), and its state is stated.
- GlbLayout.DecodeGlb: a file too short for its BIN payload is rejected. The C does not check that read: it goes on with a partly unwritten buffer (src/glb.c:350-352), whose unwritten bytes the model cannot give. A file too short for its JSON payload is rejected by the C as well, since the BIN length read that follows fails (src/glb.c:346-349).
- GJsonTree.CaseInsensitiveStrcmp: the exact nonzero value that `case_insensitive_strcmp` returns for unequal strings is computed, but only its zero or nonzero meaning is stated.
- Undefined behaviour: reads past a buffer become explicit errors, and dereferences of a NULL lookup become `MissingMember` errors. The model makes no claim about what the C does there.

## Findings

| source | as written | input that shows it | evidently intended | confidence | as-written member | corrected member |
|---|---|---|---|---|---|---|
| src/gjson.c:165-179 | `parse_string` allocates `(input_end - buffer_at_offset) - skipped_bytes + 1` bytes, but the copy loop writes every body byte, escapes verbatim, plus a NUL | `"\a\b"`: 4 bytes allocated, 5 written | allocate the body length plus one, as many bytes as are written | not executed | GJsonStrings.AllocationOverrunExample | GJsonParser.Cursor.ParseString |

The general form of the shortfall is `GJsonStrings.AllocationShortfall`. The overrun happens exactly
when the body holds two or more escape pairs, and by one byte less than their number.
`GJsonParser.Cursor.ParseString` allocates the body length plus one. Its copy loop is proved to stay
inside that array, and the rest of the model uses it.
