/** The mesh extractor proper (src/glb.c:89-289, 356-365): each mesh's position, normal, texture
    coordinate and index data are cut out of the BIN payload and appended to one output buffer,
    with a table of the four sizes per mesh. The C's global `buffer_position` and its out-parameters
    `sizes` and `num_meshes` are the fields of a `Decoder`; the output buffer is passed in and
    returned, as in the C. */
module GlbMesh {
  import opened Wrappers
  import opened CStrings
  import opened GJsonTree
  import opened GJsonGrammar
  import opened GJsonParser
  import opened GlbLayout
  import opened GlbAccessor

  // The member names the extractor looks up, as bytes.
  const MeshesName: Bytes := [0x6d, 0x65, 0x73, 0x68, 0x65, 0x73] // "meshes"
  const PrimitivesName: Bytes := [0x70, 0x72, 0x69, 0x6d, 0x69, 0x74, 0x69, 0x76, 0x65, 0x73] // "primitives"
  const AttributesName: Bytes := [0x61, 0x74, 0x74, 0x72, 0x69, 0x62, 0x75, 0x74, 0x65, 0x73] // "attributes"
  const PositionName: Bytes := [0x50, 0x4f, 0x53, 0x49, 0x54, 0x49, 0x4f, 0x4e] // "POSITION"
  const IndicesName: Bytes := [0x69, 0x6e, 0x64, 0x69, 0x63, 0x65, 0x73] // "indices"
  const NormalName: Bytes := [0x4e, 0x4f, 0x52, 0x4d, 0x41, 0x4c] // "NORMAL"
  const TexcoordName: Bytes := [0x54, 0x45, 0x58, 0x43, 0x4f, 0x4f, 0x52, 0x44, 0x5f, 0x30] // "TEXCOORD_0"
  const AccessorsName: Bytes := [0x61, 0x63, 0x63, 0x65, 0x73, 0x73, 0x6f, 0x72, 0x73] // "accessors"
  const BufferViewsName: Bytes := [0x62, 0x75, 0x66, 0x66, 0x65, 0x72, 0x56, 0x69, 0x65, 0x77, 0x73] // "bufferViews"

  /** `struct BufferSizes`: the byte lengths of one mesh's four regions. */
  datatype BufferSizes = BufferSizes(position: nat, normals: nat, texcoords: nat, indices: nat)

  /** The four attributes of one mesh, in the order `get_mesh` reads them. */
  datatype MeshAttributes = MeshAttributes(position: Attribute, indices: Attribute, normal: Attribute, texcoord: Attribute)

  /** One mesh's output, in the order it is appended. */
  datatype MeshData = MeshData(position: Bytes, normal: Bytes, texcoord: Bytes, indices: Bytes)

  /** The node's `child`: its first child, NULL when it has none. */
  function FirstChild(j: Json): (r: Option<Json>)
    ensures r.Some? <==> |Children(j)| > 0
    ensures r.Some? ==> r.value == Children(j)[0].value
  {
    if |Children(j)| == 0 then None else Some(Children(j)[0].value)
  }

  function MakeAttribute(id: int, accessor: (int, nat, nat), view: (int, int)): Attribute
  {
    Attribute(id, view.0, view.1, accessor.0, accessor.1, accessor.2)
  }

  /** The ids of mesh `index`'s position, index, normal and texture coordinate accessors, looked
      up in the C's order: the mesh, its first primitive, the primitive's `attributes` and its
      `POSITION`, the primitive's `indices`, then `NORMAL` and `TEXCOORD_0`. */
  function AttributeIds(gson: Option<Json>, index: int): Result<(int, int, int, int), GlbError>
  {
    var gmesh := ArrayItem(ObjectItem(gson, Some(MeshesName)), index);
    var primitives :- Need(gmesh, PrimitivesName);
    var gprim := FirstChild(primitives);
    var gattr := ObjectItem(gprim, Some(AttributesName));
    var position :- Need(gattr, PositionName);
    var indices :- Need(gprim, IndicesName);
    var normal :- Need(gattr, NormalName);
    var texcoord :- Need(gattr, TexcoordName);
    Ok((ValueInt(position), ValueInt(indices), ValueInt(normal), ValueInt(texcoord)))
  }

  /** The four `set_accessor` calls, on the entries of `accessors` the ids select, in order. */
  function Accessors(access: Option<Json>, ids: (int, int, int, int)):
    Result<((int, nat, nat), (int, nat, nat), (int, nat, nat), (int, nat, nat)), GlbError>
  {
    var pa :- SetAccessor(ArrayItem(access, ids.0));
    var ia :- SetAccessor(ArrayItem(access, ids.1));
    var na :- SetAccessor(ArrayItem(access, ids.2));
    var ta :- SetAccessor(ArrayItem(access, ids.3));
    Ok((pa, ia, na, ta))
  }

  /** The four `set_bufferview` calls, on the entries of `bufferViews` the ids select, in order. */
  function Views(views: Option<Json>, ids: (int, int, int, int)):
    Result<((int, int), (int, int), (int, int), (int, int)), GlbError>
  {
    var pv :- SetBufferview(ArrayItem(views, ids.0));
    var iv :- SetBufferview(ArrayItem(views, ids.1));
    var nv :- SetBufferview(ArrayItem(views, ids.2));
    var tv :- SetBufferview(ArrayItem(views, ids.3));
    Ok((pv, iv, nv, tv))
  }

  /** The lookups of `get_mesh` for mesh `index`, in the C's order: the attribute ids, then the four
      accessors and the four buffer views. The same id selects an attribute's accessor and its
      buffer view. */
  function Attributes(gson: Option<Json>, index: int): Result<MeshAttributes, GlbError>
  {
    var ids :- AttributeIds(gson, index);
    var acc :- Accessors(ObjectItem(gson, Some(AccessorsName)), ids);
    var vs :- Views(ObjectItem(gson, Some(BufferViewsName)), ids);
    Ok(MeshAttributes(MakeAttribute(ids.0, acc.0, vs.0), MakeAttribute(ids.1, acc.1, vs.1),
                      MakeAttribute(ids.2, acc.2, vs.2), MakeAttribute(ids.3, acc.3, vs.3)))
  }

  /** `groupSize` of `read_buffer`: the bytes of one element. */
  function GroupSize(a: Attribute): nat
  {
    a.groupCount * a.dataSize
  }

  /** `read_buffer` stays inside its buffers: the view lies in the BIN payload and the elements
      it repacks lie in the view. */
  predicate Readable(a: Attribute, binLength: nat)
  {
    0 <= a.byteOffset && 0 <= a.count && a.count * GroupSize(a) <= a.byteLength &&
    a.byteOffset + a.byteLength <= binLength
  }

  /** The `memcpy` of `get_mesh` stays inside the repacked buffer: it copies `byteLength` bytes. */
  predicate Copyable(a: Attribute)
  {
    a.byteLength <= a.count * GroupSize(a)
  }

  /** The bytes of an attribute's buffer view. */
  function Region(a: Attribute, bin: Bytes): (r: Bytes)
    requires Readable(a, |bin|)
    ensures |r| == a.byteLength
  {
    bin[a.byteOffset..a.byteOffset + a.byteLength]
  }

  /** What `get_mesh` appends for attributes `at` once they are looked up: the four buffer views,
      position, normal, texture coordinates, indices. It fails where one of the four `read_buffer`
      calls (position, indices, normal, texture coordinates) would read outside its buffers, or
      where one of the four copies (position, normal, texture coordinates, indices) would. */
  function MeshOf(at: MeshAttributes, bin: Bytes): Result<MeshData, GlbError>
  {
    if !Readable(at.position, |bin|) then Err(OutOfBounds(at.position.id))
    else if !Readable(at.indices, |bin|) then Err(OutOfBounds(at.indices.id))
    else if !Readable(at.normal, |bin|) then Err(OutOfBounds(at.normal.id))
    else if !Readable(at.texcoord, |bin|) then Err(OutOfBounds(at.texcoord.id))
    else if !Copyable(at.position) then Err(OutOfBounds(at.position.id))
    else if !Copyable(at.normal) then Err(OutOfBounds(at.normal.id))
    else if !Copyable(at.texcoord) then Err(OutOfBounds(at.texcoord.id))
    else if !Copyable(at.indices) then Err(OutOfBounds(at.indices.id))
    else Ok(MeshData(Region(at.position, bin), Region(at.normal, bin), Region(at.texcoord, bin), Region(at.indices, bin)))
  }

  /** What `get_mesh` appends for mesh `index`. */
  function Mesh(gson: Option<Json>, index: int, bin: Bytes): Result<MeshData, GlbError>
  {
    var at :- Attributes(gson, index);
    MeshOf(at, bin)
  }

  /** One mesh's bytes as appended. */
  function Appended(m: MeshData): Bytes
  {
    m.position + m.normal + m.texcoord + m.indices
  }

  /** The size-table entry of one mesh. */
  function SizesOf(m: MeshData): BufferSizes
  {
    BufferSizes(|m.position|, |m.normal|, |m.texcoord|, |m.indices|)
  }

  /** Several meshes' bytes, one after another. */
  function Flatten(ms: seq<MeshData>): Bytes
  {
    if ms == [] then [] else Flatten(ms[..|ms| - 1]) + Appended(ms[|ms| - 1])
  }

  /** Several meshes' size-table entries, one after another. */
  function SizeTable(ms: seq<MeshData>): seq<BufferSizes>
  {
    seq(|ms|, k requires 0 <= k < |ms| => SizesOf(ms[k]))
  }

  /** Appending one more mesh to the output of the earlier ones. */
  lemma FlattenStep(buffer: Bytes, next: Bytes, ms: seq<MeshData>, m: MeshData)
    requires buffer == Flatten(ms) && next == buffer + Appended(m)
    ensures next == Flatten(ms + [m])
  {
    assert (ms + [m])[..|ms|] == ms;
  }

  /** The size table after the meshes `done` were recorded from entry `start` on in `base`:
      `base` itself before the first, and cut to `start` entries and extended by one entry per
      mesh after that. */
  function Table(base: seq<BufferSizes>, start: nat, done: seq<MeshData>): seq<BufferSizes>
    requires start <= |base|
  {
    if done == [] then base else base[..start] + SizeTable(done)
  }

  /** Recording one more mesh at entry `start + |done|`, the table being cut to that entry. */
  lemma TableStep(base: seq<BufferSizes>, start: nat, done: seq<MeshData>, m: MeshData)
    requires start <= |base|
    ensures start + |done| <= |Table(base, start, done)|
    ensures Table(base, start, done)[..start + |done|] + [SizesOf(m)] == Table(base, start, done + [m])
  {
    assert SizeTable(done + [m]) == SizeTable(done) + [SizesOf(m)];
  }

  /** The outcomes of meshes `start` to `start + n - 1`, one by one. */
  function Outcomes(gson: Option<Json>, bin: Bytes, start: int, n: nat): (r: seq<Result<MeshData, GlbError>>)
    ensures |r| == n && forall k :: 0 <= k < n ==> r[k] == Mesh(gson, start + k, bin)
  {
    seq(n, i requires 0 <= i < n => Mesh(gson, start + i, bin))
  }

  /** The mesh loop of `get_mesh_from_gjson` from outcome `k` on, `done` holding the meshes
      already appended: the first failure stops it. */
  function Run(outcomes: seq<Result<MeshData, GlbError>>, k: nat, done: seq<MeshData>): Result<seq<MeshData>, GlbError>
    decreases |outcomes| - k
  {
    if k >= |outcomes| then Ok(done)
    else match outcomes[k]
      case Err(e) => Err(e)
      case Ok(m) => Run(outcomes, k + 1, done + [m])
  }

  /** One successful mesh moves the loop on to the next outcome. */
  lemma RunOk(outcomes: seq<Result<MeshData, GlbError>>, k: nat, done: seq<MeshData>, m: MeshData)
    requires k < |outcomes| && outcomes[k] == Ok(m)
    ensures Run(outcomes, k, done) == Run(outcomes, k + 1, done + [m])
  {
  }

  /** One failing mesh ends the loop with its error. */
  lemma RunErr(outcomes: seq<Result<MeshData, GlbError>>, k: nat, done: seq<MeshData>)
    requires k < |outcomes| && outcomes[k].Err?
    ensures Run(outcomes, k, done) == Err(outcomes[k].error)
  {
  }

  /** `get_mesh_from_gjson`: the `meshes` member must exist and have children; then one mesh per
      child, numbered on from `start` (the caller's `num_meshes`). */
  function AllMeshes(gson: Option<Json>, bin: Bytes, start: int): Result<seq<MeshData>, GlbError>
  {
    match ObjectItem(gson, Some(MeshesName))
    case None => Err(MissingMember(MeshesName))
    case Some(meshes) =>
      if |Children(meshes)| == 0 then Err(NoMeshes)
      else Run(Outcomes(gson, bin, start, |Children(meshes)|), 0, [])
  }

  /** `read_glb` after the file is read: split the container, parse the JSON chunk, extract the
      meshes from the BIN chunk. */
  function DecodeFile(file: Bytes, start: int): Result<seq<MeshData>, GlbError>
  {
    match DecodeGlb(file)
    case Err(e) => Err(Layout(e))
    case Ok(c) => AllMeshes(Parse(c.json), c.bin, start)
  }

  lemma {:induction false} MulMonotone(a: nat, b: nat, c: nat)
    requires b <= c
    ensures a * b <= a * c
  {
    if a > 0 {
      MulMonotone(a - 1, b, c);
    }
  }

  /** Element `i` of `count` ends where element `i + 1` starts, inside the buffer. */
  lemma ElementBound(i: nat, count: nat, groupSize: nat)
    requires i < count
    ensures i * groupSize + groupSize == (i + 1) * groupSize <= count * groupSize
  {
    MulMonotone(groupSize, i + 1, count);
  }

  /** Component `j` of `groupCount` ends where component `j + 1` starts, inside the element. */
  lemma ComponentBound(j: nat, groupCount: nat, dataSize: nat)
    requires j < groupCount
    ensures dataSize * j + dataSize == dataSize * (j + 1) <= dataSize * groupCount == groupCount * dataSize
  {
    MulMonotone(dataSize, j + 1, groupCount);
  }

  /** The inner loop of `read_buffer`: copy the `groupCount` components of the element that
      starts at `index`, one `dataSize`-byte component at a time through the staging group. */
  method CopyElement(out: array<byte>, staged: Bytes, index: nat, groupCount: nat, dataSize: nat)
    requires index + groupCount * dataSize <= out.Length <= |staged|
    requires forall k :: 0 <= k < index ==> out[k] == staged[k]
    modifies out
    ensures forall k :: 0 <= k < index + groupCount * dataSize ==> out[k] == staged[k]
  {
    var j := 0;
    ghost var copied := index;
    while j < groupCount
      invariant 0 <= j <= groupCount && copied == index + dataSize * j <= out.Length
      invariant forall k :: 0 <= k < copied ==> out[k] == staged[k]
    {
      ComponentBound(j, groupCount, dataSize);
      var start := index + dataSize * j;
      var group := staged[start..start + dataSize];
      forall k | 0 <= k < dataSize {
        out[start + k] := group[k];
      }
      j := j + 1;
      copied := copied + dataSize;
    }
  }

  /** `read_buffer`: the view is staged, then repacked element by element and component by
      component into a buffer of `count` elements; the result is the first `count * groupSize`
      bytes of the view. */
  method ReadBuffer(a: Attribute, bin: Bytes) returns (out: array<byte>)
    requires Readable(a, |bin|)
    ensures out.Length == a.count * GroupSize(a)
    ensures out[..] == bin[a.byteOffset..a.byteOffset + out.Length]
  {
    var staged := bin[a.byteOffset..a.byteOffset + a.byteLength];
    var groupSize := GroupSize(a);
    out := new byte[a.count * groupSize];
    var i := 0;
    ghost var filled := 0;
    while i < a.count
      invariant 0 <= i <= a.count && filled == i * groupSize <= out.Length <= |staged|
      invariant forall k :: 0 <= k < filled ==> out[k] == staged[k]
    {
      var index := i * groupSize;
      ElementBound(i, a.count, groupSize);
      CopyElement(out, staged, index, a.groupCount, a.dataSize);
      i := i + 1;
      filled := filled + groupSize;
    }
  }

  /** The state `get_mesh` and its callers share: the file-level `buffer_position` and the
      caller's size table and mesh count. */
  class Decoder {
    /** Where the next mesh goes in the output buffer. */
    var bufferPosition: int
    /** One entry per mesh, by mesh number. */
    var sizes: seq<BufferSizes>
    /** The meshes extracted so far. */
    var numMeshes: int

    /** The caller's initial state: no meshes and an empty size table. */
    constructor ()
      ensures bufferPosition == 0 && sizes == [] && numMeshes == 0
    {
      bufferPosition := 0;
      sizes := [];
      numMeshes := 0;
    }

    /** The second half of `get_mesh`, once the attributes `at` are looked up: read the four
        views, append them to `buffer` and record their sizes at `sizes[index]`, the table being
        cut or grown to `index + 1` entries. */
    method StoreMesh(buffer: Bytes, index: int, at: MeshAttributes, bin: Bytes) returns (r: Result<Bytes, GlbError>)
      requires bufferPosition == |buffer| && 0 <= index <= |sizes|
      modifies this
      ensures r.Err? <==> MeshOf(at, bin).Err?
      ensures r.Err? ==> r.error == MeshOf(at, bin).error && unchanged(this)
      ensures r.Ok? ==>
        var m := MeshOf(at, bin).value;
        r.value == buffer + Appended(m) && bufferPosition == |r.value| &&
        sizes == old(sizes)[..index] + [SizesOf(m)] && numMeshes == old(numMeshes)
    {
      if !Readable(at.position, |bin|) {
        return Err(OutOfBounds(at.position.id));
      }
      var vertices := ReadBuffer(at.position, bin);
      if !Readable(at.indices, |bin|) {
        return Err(OutOfBounds(at.indices.id));
      }
      var indices := ReadBuffer(at.indices, bin);
      if !Readable(at.normal, |bin|) {
        return Err(OutOfBounds(at.normal.id));
      }
      var normals := ReadBuffer(at.normal, bin);
      if !Readable(at.texcoord, |bin|) {
        return Err(OutOfBounds(at.texcoord.id));
      }
      var texcoords := ReadBuffer(at.texcoord, bin);
      if !Copyable(at.position) {
        return Err(OutOfBounds(at.position.id));
      }
      if !Copyable(at.normal) {
        return Err(OutOfBounds(at.normal.id));
      }
      if !Copyable(at.texcoord) {
        return Err(OutOfBounds(at.texcoord.id));
      }
      if !Copyable(at.indices) {
        return Err(OutOfBounds(at.indices.id));
      }
      var bufferSize := at.position.byteLength + at.normal.byteLength + at.texcoord.byteLength +
                        at.indices.byteLength + bufferPosition;
      var added := vertices[..at.position.byteLength] + normals[..at.normal.byteLength] +
                   texcoords[..at.texcoord.byteLength] + indices[..at.indices.byteLength];
      assert added == Appended(MeshOf(at, bin).value) by {
        assert vertices[..at.position.byteLength] == Region(at.position, bin);
        assert normals[..at.normal.byteLength] == Region(at.normal, bin);
        assert texcoords[..at.texcoord.byteLength] == Region(at.texcoord, bin);
        assert indices[..at.indices.byteLength] == Region(at.indices, bin);
      }
      r := Ok(buffer + added);
      bufferPosition := bufferSize;
      sizes := sizes[..index] + [BufferSizes(at.position.byteLength, at.normal.byteLength,
                                             at.texcoord.byteLength, at.indices.byteLength)];
    }

    /** `get_mesh`: look up mesh `index` and its attributes, then append the mesh to `buffer`. */
    method GetMesh(buffer: Bytes, index: int, gson: Option<Json>, bin: Bytes) returns (r: Result<Bytes, GlbError>)
      requires bufferPosition == |buffer| && 0 <= index <= |sizes|
      modifies this
      ensures r.Err? <==> Mesh(gson, index, bin).Err?
      ensures r.Err? ==> r.error == Mesh(gson, index, bin).error && unchanged(this)
      ensures r.Ok? ==>
        var m := Mesh(gson, index, bin).value;
        r.value == buffer + Appended(m) && bufferPosition == |r.value| &&
        sizes == old(sizes)[..index] + [SizesOf(m)] && numMeshes == old(numMeshes)
    {
      var at :- Attributes(gson, index);
      r := StoreMesh(buffer, index, at, bin);
    }

    /** `get_mesh_from_gjson`: reset the output position and append every mesh of `meshes`,
        numbering them on from `numMeshes`. */
    method GetMeshFromGjson(gson: Option<Json>, bin: Bytes) returns (r: Result<Bytes, GlbError>)
      requires 0 <= numMeshes <= |sizes|
      modifies this
      ensures r.Err? <==> AllMeshes(gson, bin, old(numMeshes)).Err?
      ensures r.Err? ==> r.error == AllMeshes(gson, bin, old(numMeshes)).error
      ensures r.Ok? ==>
        var ms := AllMeshes(gson, bin, old(numMeshes)).value;
        r.value == Flatten(ms) && bufferPosition == |r.value| && numMeshes == old(numMeshes) + |ms| &&
        sizes == old(sizes)[..old(numMeshes)] + SizeTable(ms)
      ensures ObjectItem(gson, Some(MeshesName)).Some? && |Children(ObjectItem(gson, Some(MeshesName)).value)| == 0 ==>
        r == Err(NoMeshes) && bufferPosition == 0 && numMeshes == old(numMeshes) && sizes == old(sizes)
    {
      var gmeshes := ObjectItem(gson, Some(MeshesName));
      if gmeshes.None? {
        return Err(MissingMember(MeshesName));
      }
      var children := Children(gmeshes.value);
      bufferPosition := 0;
      if |children| == 0 {
        return Err(NoMeshes);
      }
      r := AppendMeshes(gson, bin, |children|, Outcomes(gson, bin, numMeshes, |children|));
    }

    /** The do-while loop of `get_mesh_from_gjson`: append meshes `numMeshes` to
        `numMeshes + n - 1` to an empty buffer, stopping at the first failure. */
    method AppendMeshes(gson: Option<Json>, bin: Bytes, n: nat, ghost outcomes: seq<Result<MeshData, GlbError>>)
      returns (r: Result<Bytes, GlbError>)
      requires 0 <= numMeshes <= |sizes| && bufferPosition == 0 && 0 < n == |outcomes|
      requires forall i :: numMeshes <= i < numMeshes + |outcomes| ==> outcomes[i - numMeshes] == Mesh(gson, i, bin)
      modifies this
      ensures r.Err? <==> Run(outcomes, 0, []).Err?
      ensures r.Err? ==> r.error == Run(outcomes, 0, []).error
      ensures r.Ok? ==>
        var ms := Run(outcomes, 0, []).value;
        r.value == Flatten(ms) && bufferPosition == |r.value| && numMeshes == old(numMeshes) + |ms| &&
        sizes == old(sizes)[..old(numMeshes)] + SizeTable(ms)
    {
      var buffer: Bytes := [];
      ghost var start := numMeshes;
      ghost var done: seq<MeshData> := [];
      var k := 0;
      while k < n
        invariant 0 <= k <= n && start == old(numMeshes) <= |old(sizes)|
        invariant numMeshes == start + k && |done| == k
        invariant Run(outcomes, 0, []) == Run(outcomes, k, done)
        invariant buffer == Flatten(done) && bufferPosition == |buffer|
        invariant sizes == Table(old(sizes), start, done)
      {
        assert outcomes[k] == Mesh(gson, numMeshes, bin);
        var next := GetMesh(buffer, numMeshes, gson, bin);
        if next.Err? {
          RunErr(outcomes, k, done);
          return Err(next.error);
        }
        ghost var m := outcomes[k].value;
        RunOk(outcomes, k, done, m);
        FlattenStep(buffer, next.value, done, m);
        TableStep(old(sizes), start, done, m);
        buffer := next.value;
        done := done + [m];
        numMeshes := numMeshes + 1;
        k := k + 1;
      }
      r := Ok(buffer);
    }

    /** `read_glb` once the file is in memory: split the container, parse the JSON chunk and
        extract the meshes from the BIN chunk. */
    method ReadGlb(file: Bytes) returns (r: Result<Bytes, GlbError>)
      requires 0 <= numMeshes <= |sizes|
      modifies this
      ensures r.Err? <==> DecodeFile(file, old(numMeshes)).Err?
      ensures r.Err? ==> r.error == DecodeFile(file, old(numMeshes)).error
      ensures r.Ok? ==>
        var ms := DecodeFile(file, old(numMeshes)).value;
        r.value == Flatten(ms) && bufferPosition == |r.value| && numMeshes == old(numMeshes) + |ms| &&
        sizes == old(sizes)[..old(numMeshes)] + SizeTable(ms)
    {
      var container := DecodeGlb(file);
      if container.Err? {
        return Err(Layout(container.error));
      }
      var gson := ParseWithLength(container.value.json);
      r := GetMeshFromGjson(gson, container.value.bin);
    }
  }
}
