/** The lookup chain of `get_mesh` (src/glb.c:118-155): which member's absence stops it, in the
    order the C dereferences them, where every attribute's accessor and buffer view come from, and
    when the repack and the copies stay inside their buffers. */
module GlbLookup {
  import opened Wrappers
  import opened CStrings
  import opened GJsonTree
  import opened GlbAccessor
  import opened GlbMesh

  /** `gmesh`: element `index` of `meshes`. */
  function MeshNode(gson: Option<Json>, index: int): Option<Json>
  {
    ArrayItem(ObjectItem(gson, Some(MeshesName)), index)
  }

  /** `gprim`: the first child of the mesh's `primitives`, when there is a `primitives`. */
  function PrimitiveNode(gson: Option<Json>, index: int): Option<Json>
  {
    match ObjectItem(MeshNode(gson, index), Some(PrimitivesName))
    case None => None
    case Some(p) => FirstChild(p)
  }

  /** `gattr`: the primitive's `attributes`. */
  function AttributeNode(gson: Option<Json>, index: int): Option<Json>
  {
    ObjectItem(PrimitiveNode(gson, index), Some(AttributesName))
  }

  /** `get_mesh` stops at the first absent member among `primitives`, `POSITION`, `indices`,
      `NORMAL` and `TEXCOORD_0`, in that order, and reports it. */
  lemma MeshLookupOrder(gson: Option<Json>, index: int, bin: Bytes)
    ensures ObjectItem(MeshNode(gson, index), Some(PrimitivesName)).None? ==>
      Mesh(gson, index, bin) == Err(MissingMember(PrimitivesName))
    ensures (ObjectItem(MeshNode(gson, index), Some(PrimitivesName)).Some? &&
             ObjectItem(AttributeNode(gson, index), Some(PositionName)).None?) ==>
      Mesh(gson, index, bin) == Err(MissingMember(PositionName))
    ensures (ObjectItem(MeshNode(gson, index), Some(PrimitivesName)).Some? &&
             ObjectItem(AttributeNode(gson, index), Some(PositionName)).Some? &&
             ObjectItem(PrimitiveNode(gson, index), Some(IndicesName)).None?) ==>
      Mesh(gson, index, bin) == Err(MissingMember(IndicesName))
    ensures (ObjectItem(MeshNode(gson, index), Some(PrimitivesName)).Some? &&
             ObjectItem(AttributeNode(gson, index), Some(PositionName)).Some? &&
             ObjectItem(PrimitiveNode(gson, index), Some(IndicesName)).Some? &&
             ObjectItem(AttributeNode(gson, index), Some(NormalName)).None?) ==>
      Mesh(gson, index, bin) == Err(MissingMember(NormalName))
    ensures (ObjectItem(MeshNode(gson, index), Some(PrimitivesName)).Some? &&
             ObjectItem(AttributeNode(gson, index), Some(PositionName)).Some? &&
             ObjectItem(PrimitiveNode(gson, index), Some(IndicesName)).Some? &&
             ObjectItem(AttributeNode(gson, index), Some(NormalName)).Some? &&
             ObjectItem(AttributeNode(gson, index), Some(TexcoordName)).None?) ==>
      Mesh(gson, index, bin) == Err(MissingMember(TexcoordName))
  {
  }

  /** An attribute whose accessor and buffer view are entry `id` of `accessors` and of
      `bufferViews`: the count and layout from the one, the length and offset from the other. */
  predicate FromTables(gson: Option<Json>, a: Attribute)
  {
    SetAccessor(ArrayItem(ObjectItem(gson, Some(AccessorsName)), a.id)) == Ok((a.count, a.dataSize, a.groupCount)) &&
    SetBufferview(ArrayItem(ObjectItem(gson, Some(BufferViewsName)), a.id)) == Ok((a.byteLength, a.byteOffset))
  }

  /** When the member lookups succeed, the ids are the `valueint`s of `POSITION`, of the
      primitive's `indices`, of `NORMAL` and of `TEXCOORD_0`. */
  lemma AttributeIdsFromMembers(gson: Option<Json>, index: int)
    ensures AttributeIds(gson, index).Ok? ==>
      ObjectItem(AttributeNode(gson, index), Some(PositionName)).Some? &&
      ObjectItem(PrimitiveNode(gson, index), Some(IndicesName)).Some? &&
      ObjectItem(AttributeNode(gson, index), Some(NormalName)).Some? &&
      ObjectItem(AttributeNode(gson, index), Some(TexcoordName)).Some? &&
      AttributeIds(gson, index).value ==
        (ValueInt(ObjectItem(AttributeNode(gson, index), Some(PositionName)).value),
         ValueInt(ObjectItem(PrimitiveNode(gson, index), Some(IndicesName)).value),
         ValueInt(ObjectItem(AttributeNode(gson, index), Some(NormalName)).value),
         ValueInt(ObjectItem(AttributeNode(gson, index), Some(TexcoordName)).value))
  {
  }

  /** The four accessors are found exactly when each id's entry of `accessors` is; they are then
      those entries' counts and layouts, in id order. */
  lemma AccessorsFromTable(access: Option<Json>, ids: (int, int, int, int))
    ensures Accessors(access, ids).Ok? <==>
      SetAccessor(ArrayItem(access, ids.0)).Ok? && SetAccessor(ArrayItem(access, ids.1)).Ok? &&
      SetAccessor(ArrayItem(access, ids.2)).Ok? && SetAccessor(ArrayItem(access, ids.3)).Ok?
    ensures Accessors(access, ids).Ok? ==>
      var r := Accessors(access, ids).value;
      SetAccessor(ArrayItem(access, ids.0)) == Ok(r.0) && SetAccessor(ArrayItem(access, ids.1)) == Ok(r.1) &&
      SetAccessor(ArrayItem(access, ids.2)) == Ok(r.2) && SetAccessor(ArrayItem(access, ids.3)) == Ok(r.3)
  {
  }

  /** The four buffer views are found exactly when each id's entry of `bufferViews` is; they are
      then those entries' lengths and offsets, in id order. */
  lemma ViewsFromTable(views: Option<Json>, ids: (int, int, int, int))
    ensures Views(views, ids).Ok? <==>
      SetBufferview(ArrayItem(views, ids.0)).Ok? && SetBufferview(ArrayItem(views, ids.1)).Ok? &&
      SetBufferview(ArrayItem(views, ids.2)).Ok? && SetBufferview(ArrayItem(views, ids.3)).Ok?
    ensures Views(views, ids).Ok? ==>
      var r := Views(views, ids).value;
      SetBufferview(ArrayItem(views, ids.0)) == Ok(r.0) && SetBufferview(ArrayItem(views, ids.1)) == Ok(r.1) &&
      SetBufferview(ArrayItem(views, ids.2)) == Ok(r.2) && SetBufferview(ArrayItem(views, ids.3)) == Ok(r.3)
  {
  }

  /** When the lookups succeed, the attributes carry the member ids, and one id selects both an
      attribute's accessor and its buffer view. */
  lemma AttributesFromTables(gson: Option<Json>, index: int)
    ensures Attributes(gson, index).Ok? ==>
      var at := Attributes(gson, index).value;
      AttributeIds(gson, index) == Ok((at.position.id, at.indices.id, at.normal.id, at.texcoord.id)) &&
      FromTables(gson, at.position) && FromTables(gson, at.indices) &&
      FromTables(gson, at.normal) && FromTables(gson, at.texcoord)
  {
    match AttributeIds(gson, index)
    case Err(_) =>
    case Ok(ids) =>
      AccessorsFromTable(ObjectItem(gson, Some(AccessorsName)), ids);
      ViewsFromTable(ObjectItem(gson, Some(BufferViewsName)), ids);
  }

  /** Once looked up, a mesh is extracted exactly when all four views lie in the BIN payload with
      their elements inside them and each copy stays inside its repacked buffer; it is then the
      four views' bytes, with the four byte lengths as its sizes. Otherwise the error names one of
      the four attribute ids. */
  lemma MeshOfResult(at: MeshAttributes, bin: Bytes)
    ensures MeshOf(at, bin).Ok? <==>
      Readable(at.position, |bin|) && Readable(at.indices, |bin|) && Readable(at.normal, |bin|) &&
      Readable(at.texcoord, |bin|) && Copyable(at.position) && Copyable(at.normal) &&
      Copyable(at.texcoord) && Copyable(at.indices)
    ensures MeshOf(at, bin).Ok? ==>
      var m := MeshOf(at, bin).value;
      SizesOf(m) == BufferSizes(at.position.byteLength, at.normal.byteLength, at.texcoord.byteLength, at.indices.byteLength) &&
      m.position == bin[at.position.byteOffset..at.position.byteOffset + at.position.byteLength] &&
      m.normal == bin[at.normal.byteOffset..at.normal.byteOffset + at.normal.byteLength] &&
      m.texcoord == bin[at.texcoord.byteOffset..at.texcoord.byteOffset + at.texcoord.byteLength] &&
      m.indices == bin[at.indices.byteOffset..at.indices.byteOffset + at.indices.byteLength]
    ensures MeshOf(at, bin).Err? ==>
      MeshOf(at, bin).error == OutOfBounds(at.position.id) || MeshOf(at, bin).error == OutOfBounds(at.indices.id) ||
      MeshOf(at, bin).error == OutOfBounds(at.normal.id) || MeshOf(at, bin).error == OutOfBounds(at.texcoord.id)
  {
  }
}
