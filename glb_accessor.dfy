/** The accessor and buffer-view tables of the mesh extractor (src/glb.c:17-87): what one vertex
    attribute's `componentType`, `type`, `count`, `byteLength` and `byteOffset` become, after
    section 3.6.2 of the glTF 2.0 specification (accessor data types). */
module GlbAccessor {
  import opened Wrappers
  import opened CStrings
  import opened GJsonTree
  import opened GlbLayout

  /** Why decoding stops. Where the C dereferences the NULL a lookup returned, the model stops with
      `MissingMember` naming that lookup; where it would read outside a buffer, with `OutOfBounds`. */
  datatype GlbError =
    | Layout(cause: LayoutError)
    | MissingMember(name: Bytes)
    | NotAString(name: Bytes)
    | NoMeshes
    | OutOfBounds(id: int)

  /** `GLB_Attribute`: the attribute's index into `accessors` and `bufferViews`, the buffer view's
      length and offset in the BIN payload, and the accessor's element count and element layout. */
  datatype Attribute = Attribute(id: int, byteLength: int, byteOffset: int, count: int, dataSize: nat, groupCount: nat)

  // The member names and type names the extractor looks for, as bytes.
  const CountName: Bytes := [0x63, 0x6f, 0x75, 0x6e, 0x74] // "count"
  const ComponentTypeName: Bytes := [0x63, 0x6f, 0x6d, 0x70, 0x6f, 0x6e, 0x65, 0x6e, 0x74, 0x54, 0x79, 0x70, 0x65] // "componentType"
  const TypeName: Bytes := [0x74, 0x79, 0x70, 0x65] // "type"
  const ByteLengthName: Bytes := [0x62, 0x79, 0x74, 0x65, 0x4c, 0x65, 0x6e, 0x67, 0x74, 0x68] // "byteLength"
  const ByteOffsetName: Bytes := [0x62, 0x79, 0x74, 0x65, 0x4f, 0x66, 0x66, 0x73, 0x65, 0x74] // "byteOffset"
  const Scalar: Bytes := [0x53, 0x43, 0x41, 0x4c, 0x41, 0x52] // "SCALAR"
  const Vec2: Bytes := [0x56, 0x45, 0x43, 0x32] // "VEC2"
  const Vec3: Bytes := [0x56, 0x45, 0x43, 0x33] // "VEC3"
  const Vec4: Bytes := [0x56, 0x45, 0x43, 0x34] // "VEC4"
  const Mat2: Bytes := [0x4d, 0x41, 0x54, 0x32] // "MAT2"
  const Mat3: Bytes := [0x4d, 0x41, 0x54, 0x33] // "MAT3"
  const Mat4: Bytes := [0x4d, 0x41, 0x54, 0x34] // "MAT4"

  /** The data size of a `componentType`. */
  function ComponentSize(componentType: int): (n: nat)
    ensures n == 4 <==> componentType == 5125 || componentType == 5126
    ensures n == 2 <==> componentType == 5122 || componentType == 5123
    ensures n == 1 <==> componentType !in {5122, 5123, 5125, 5126}
  {
    match componentType
    case 5125 => 4
    case 5126 => 4
    case 5122 => 2
    case 5123 => 2
    case _ => 1
  }

  /** The number of components of a `type`, by `strncmp` against each name in turn. */
  function GroupCount(t: Bytes): nat
  {
    if HasPrefix(t, Scalar) then 1
    else if HasPrefix(t, Vec2) then 2
    else if HasPrefix(t, Vec3) then 3
    else if HasPrefix(t, Vec4) then 4
    else if HasPrefix(t, Mat2) then 4
    else if HasPrefix(t, Mat3) then 9
    else if HasPrefix(t, Mat4) then 16
    else 1
  }

  /** The member `name` of `obj`, which the C goes on to dereference. */
  function Need(obj: Option<Json>, name: Bytes): (r: Result<Json, GlbError>)
    ensures r.Ok? <==> ObjectItem(obj, Some(name)).Some?
    ensures r.Ok? ==> r.value == ObjectItem(obj, Some(name)).value
    ensures r.Err? ==> r.error == MissingMember(name)
  {
    match ObjectItem(obj, Some(name))
    case None => Err(MissingMember(name))
    case Some(j) => Ok(j)
  }

  /** `set_accessor`: the accessor's `count`, the data size of its `componentType` and the group
      count of its `type`, each member looked up in that order. */
  function SetAccessor(target: Option<Json>): (r: Result<(int, nat, nat), GlbError>)
  {
    var count :- Need(target, CountName);
    var componentType :- Need(target, ComponentTypeName);
    var kind :- Need(target, TypeName);
    match ValueString(kind)
    case None => Err(NotAString(TypeName))
    case Some(t) => Ok((ValueInt(count), ComponentSize(ValueInt(componentType)), GroupCount(t)))
  }

  /** `set_bufferview`: the buffer view's `byteLength` and `byteOffset`. */
  function SetBufferview(source: Option<Json>): (r: Result<(int, int), GlbError>)
  {
    var length :- Need(source, ByteLengthName);
    var offset :- Need(source, ByteOffsetName);
    Ok((ValueInt(length), ValueInt(offset)))
  }

  /** `set_accessor` reads `count`, then `componentType`, then `type`: the first of them missing is
      the error, and a `type` that is not a string is one too. With all three present, the
      accessor's count, data size and group count are those of its members. */
  lemma SetAccessorOrder(target: Option<Json>)
    ensures ObjectItem(target, Some(CountName)).None? ==> SetAccessor(target) == Err(MissingMember(CountName))
    ensures ObjectItem(target, Some(CountName)).Some? && ObjectItem(target, Some(ComponentTypeName)).None? ==>
      SetAccessor(target) == Err(MissingMember(ComponentTypeName))
    ensures (ObjectItem(target, Some(CountName)).Some? && ObjectItem(target, Some(ComponentTypeName)).Some? &&
             ObjectItem(target, Some(TypeName)).None?) ==> SetAccessor(target) == Err(MissingMember(TypeName))
    ensures SetAccessor(target).Ok? <==>
      ObjectItem(target, Some(CountName)).Some? && ObjectItem(target, Some(ComponentTypeName)).Some? &&
      ObjectItem(target, Some(TypeName)).Some? && ValueString(ObjectItem(target, Some(TypeName)).value).Some?
    ensures SetAccessor(target).Ok? ==>
      SetAccessor(target).value == (ValueInt(ObjectItem(target, Some(CountName)).value),
                                    ComponentSize(ValueInt(ObjectItem(target, Some(ComponentTypeName)).value)),
                                    GroupCount(ValueString(ObjectItem(target, Some(TypeName)).value).value))
  {
  }

  /** `set_bufferview` reads `byteLength`, then `byteOffset`: the first missing is the error;
      otherwise the view's length and offset are those members' values. */
  lemma SetBufferviewOrder(source: Option<Json>)
    ensures ObjectItem(source, Some(ByteLengthName)).None? ==> SetBufferview(source) == Err(MissingMember(ByteLengthName))
    ensures ObjectItem(source, Some(ByteLengthName)).Some? && ObjectItem(source, Some(ByteOffsetName)).None? ==>
      SetBufferview(source) == Err(MissingMember(ByteOffsetName))
    ensures SetBufferview(source).Ok? <==>
      ObjectItem(source, Some(ByteLengthName)).Some? && ObjectItem(source, Some(ByteOffsetName)).Some?
    ensures SetBufferview(source).Ok? ==>
      SetBufferview(source).value == (ValueInt(ObjectItem(source, Some(ByteLengthName)).value),
                                      ValueInt(ObjectItem(source, Some(ByteOffsetName)).value))
  {
  }

  /** The group count reading each name of the table, and any string it begins; 1 for a type
      that begins with none of them. */
  lemma GroupCountNames(t: Bytes)
    ensures HasPrefix(t, Scalar) ==> GroupCount(t) == 1
    ensures HasPrefix(t, Vec2) ==> GroupCount(t) == 2
    ensures HasPrefix(t, Vec3) ==> GroupCount(t) == 3
    ensures HasPrefix(t, Vec4) ==> GroupCount(t) == 4
    ensures HasPrefix(t, Mat2) ==> GroupCount(t) == 4
    ensures HasPrefix(t, Mat3) ==> GroupCount(t) == 9
    ensures HasPrefix(t, Mat4) ==> GroupCount(t) == 16
    ensures (!HasPrefix(t, Scalar) && !HasPrefix(t, Vec2) && !HasPrefix(t, Vec3) && !HasPrefix(t, Vec4) &&
             !HasPrefix(t, Mat2) && !HasPrefix(t, Mat3) && !HasPrefix(t, Mat4)) ==> GroupCount(t) == 1
  {
  }
}
