/** What the mesh extractor's results mean (src/glb.c:189-289): the run over the meshes succeeds
    exactly when every mesh does, and then yields all of them in order; otherwise it reports the
    first failure. The size table locates every mesh's bytes in the output buffer. */
module GlbMeshLayout {
  import opened Wrappers
  import opened CStrings
  import opened GJsonTree
  import opened GlbAccessor
  import opened GlbMesh

  /** The mesh loop from outcome `k` on succeeds exactly when every outcome from `k` on does,
      and then yields `done` followed by those outcomes' meshes. */
  lemma {:induction false} RunSucceeds(outcomes: seq<Result<MeshData, GlbError>>, k: nat, done: seq<MeshData>)
    requires k <= |outcomes|
    ensures Run(outcomes, k, done).Ok? <==> forall i :: k <= i < |outcomes| ==> outcomes[i].Ok?
    ensures Run(outcomes, k, done).Ok? ==>
      var ms := Run(outcomes, k, done).value;
      |ms| == |done| + |outcomes| - k && ms[..|done|] == done &&
      forall i :: k <= i < |outcomes| ==> ms[|done| + i - k] == outcomes[i].value
    decreases |outcomes| - k
  {
    if k < |outcomes| && outcomes[k].Ok? {
      var done' := done + [outcomes[k].value];
      RunSucceeds(outcomes, k + 1, done');
      if Run(outcomes, k, done).Ok? {
        var ms := Run(outcomes, k, done).value;
        assert ms[..|done'|] == done';
        assert ms[..|done|] == done' [..|done|] == done;
      }
    }
  }

  /** When the mesh loop from outcome `k` on fails, it fails with the error of the first failing
      outcome, every outcome before it having succeeded. */
  lemma {:induction false} RunFails(outcomes: seq<Result<MeshData, GlbError>>, k: nat, done: seq<MeshData>)
    requires k <= |outcomes|
    ensures Run(outcomes, k, done).Err? ==>
      exists f :: k <= f < |outcomes| && outcomes[f].Err? && Run(outcomes, k, done).error == outcomes[f].error &&
        forall i :: k <= i < f ==> outcomes[i].Ok?
    decreases |outcomes| - k
  {
    if k < |outcomes| && outcomes[k].Ok? {
      RunFails(outcomes, k + 1, done + [outcomes[k].value]);
      if Run(outcomes, k, done).Err? {
        var f :| k + 1 <= f < |outcomes| && outcomes[f].Err? && Run(outcomes, k, done).error == outcomes[f].error &&
          forall i :: k + 1 <= i < f ==> outcomes[i].Ok?;
        assert forall i :: k <= i < f ==> outcomes[i].Ok?;
      }
    } else if k < |outcomes| {
      assert outcomes[k].Err?;
    }
  }

  /** `get_mesh_from_gjson` with a `meshes` member of `n` children succeeds exactly when there is
      at least one and meshes `start` to `start + n - 1` all succeed. */
  lemma AllMeshesSucceed(gson: Option<Json>, bin: Bytes, start: int)
    requires ObjectItem(gson, Some(MeshesName)).Some?
    ensures var n := |Children(ObjectItem(gson, Some(MeshesName)).value)|;
      AllMeshes(gson, bin, start).Ok? <==> n > 0 && forall i :: start <= i < start + n ==> Mesh(gson, i, bin).Ok?
  {
    var n := |Children(ObjectItem(gson, Some(MeshesName)).value)|;
    if n > 0 {
      var outcomes := Outcomes(gson, bin, start, n);
      RunSucceeds(outcomes, 0, []);
      assert AllMeshes(gson, bin, start) == Run(outcomes, 0, []);
      if AllMeshes(gson, bin, start).Ok? {
        forall i | start <= i < start + n
          ensures Mesh(gson, i, bin).Ok?
        {
          assert outcomes[i - start] == Mesh(gson, start + (i - start), bin);
        }
      }
    }
  }

  /** A run from the first outcome with nothing appended yet yields outcome `k`'s mesh at `k`. */
  lemma RunFromStart(outcomes: seq<Result<MeshData, GlbError>>)
    ensures Run(outcomes, 0, []).Ok? ==>
      |Run(outcomes, 0, []).value| == |outcomes| &&
      forall k :: 0 <= k < |outcomes| ==> outcomes[k] == Ok(Run(outcomes, 0, []).value[k])
  {
    RunSucceeds(outcomes, 0, []);
    if Run(outcomes, 0, []).Ok? {
      var ms := Run(outcomes, 0, []).value;
      forall k | 0 <= k < |outcomes|
        ensures outcomes[k] == Ok(ms[k])
      {
        assert ms[0 + k - 0] == outcomes[k].value;
      }
    }
  }

  /** When it succeeds, it yields meshes `start` to `start + n - 1`, in order. */
  lemma AllMeshesInOrder(gson: Option<Json>, bin: Bytes, start: int)
    requires ObjectItem(gson, Some(MeshesName)).Some?
    ensures var n := |Children(ObjectItem(gson, Some(MeshesName)).value)|;
      AllMeshes(gson, bin, start).Ok? ==>
        |AllMeshes(gson, bin, start).value| == n &&
        forall i :: start <= i < start + n ==> Mesh(gson, i, bin) == Ok(AllMeshes(gson, bin, start).value[i - start])
  {
    var n := |Children(ObjectItem(gson, Some(MeshesName)).value)|;
    if n > 0 {
      var outcomes := Outcomes(gson, bin, start, n);
      RunFromStart(outcomes);
      assert AllMeshes(gson, bin, start) == Run(outcomes, 0, []);
      if AllMeshes(gson, bin, start).Ok? {
        var ms := Run(outcomes, 0, []).value;
        forall i | start <= i < start + n
          ensures Mesh(gson, i, bin) == Ok(ms[i - start])
        {
          assert outcomes[i - start] == Mesh(gson, start + (i - start), bin);
        }
      }
    }
  }

  /** When it fails with children present, it fails with the error of the first mesh that
      fails. */
  lemma AllMeshesFirstFailure(gson: Option<Json>, bin: Bytes, start: int)
    requires ObjectItem(gson, Some(MeshesName)).Some?
    ensures var n := |Children(ObjectItem(gson, Some(MeshesName)).value)|;
      AllMeshes(gson, bin, start).Err? && n > 0 ==>
        exists f :: start <= f < start + n && Mesh(gson, f, bin).Err? && AllMeshes(gson, bin, start).error == Mesh(gson, f, bin).error &&
          forall i :: start <= i < f ==> Mesh(gson, i, bin).Ok?
  {
    var n := |Children(ObjectItem(gson, Some(MeshesName)).value)|;
    if n > 0 && AllMeshes(gson, bin, start).Err? {
      var outcomes := Outcomes(gson, bin, start, n);
      RunFails(outcomes, 0, []);
      var f :| 0 <= f < n && outcomes[f].Err? && AllMeshes(gson, bin, start).error == outcomes[f].error &&
        forall i :: 0 <= i < f ==> outcomes[i].Ok?;
      assert outcomes[(start + f) - start] == Mesh(gson, start + f, bin);
      forall i | start <= i < start + f
        ensures Mesh(gson, i, bin).Ok?
      {
        assert outcomes[i - start] == Mesh(gson, i, bin);
      }
    }
  }

  /** The bytes one size-table entry accounts for. */
  function Total(s: BufferSizes): nat
  {
    s.position + s.normals + s.texcoords + s.indices
  }

  /** Where mesh `i` starts in the output buffer, by the size table: the entries before it, added
      up. */
  function Offset(table: seq<BufferSizes>, i: nat): nat
    requires i <= |table|
  {
    if i == 0 then 0 else Offset(table, i - 1) + Total(table[i - 1])
  }

  /** The first `j + 1` meshes' bytes: the first `j` meshes', then mesh `j`'s. */
  lemma PrefixStep(ms: seq<MeshData>, j: nat)
    requires j < |ms|
    ensures Flatten(ms[..j + 1]) == Flatten(ms[..j]) + Appended(ms[j])
  {
    assert ms[..j + 1][..j] == ms[..j];
  }

  /** The first `j` meshes' bytes take as many bytes as the size table's first `j` entries say. */
  lemma {:induction false} PrefixLength(ms: seq<MeshData>, j: nat)
    requires j <= |ms|
    ensures |Flatten(ms[..j])| == Offset(SizeTable(ms), j)
  {
    var table := SizeTable(ms);
    if j == 0 {
      assert ms[..j] == [];
    } else {
      PrefixLength(ms, j - 1);
      PrefixStep(ms, j - 1);
      var before, last := Flatten(ms[..j - 1]), Appended(ms[j - 1]);
      assert |last| == Total(table[j - 1]);
      assert Offset(table, j) == |before| + |last|;
    }
  }

  /** The first `j` meshes' bytes begin the bytes of all of them. */
  lemma {:induction false} PrefixBytes(ms: seq<MeshData>, j: nat)
    requires j <= |ms|
    ensures Flatten(ms[..j]) <= Flatten(ms)
    decreases |ms|
  {
    if j < |ms| {
      var init := ms[..|ms| - 1];
      PrefixBytes(init, j);
      assert init[..j] == ms[..j];
    } else {
      assert ms[..j] == ms;
    }
  }

  /** A piece that follows `front` at the start of `whole` is found right after `front`. */
  lemma PieceAfter(whole: Bytes, front: Bytes, piece: Bytes, from: nat, len: nat)
    requires front + piece <= whole && |front| == from && |piece| == len
    ensures from + len <= |whole| && whole[from..from + len] == piece
  {
    assert whole[..from + len] == front + piece;
    assert (front + piece)[from..] == piece;
  }

  /** Mesh `i`'s bytes follow the first `i` meshes' bytes at the start of the output. */
  lemma FrontPiece(ms: seq<MeshData>, i: nat)
    requires i < |ms|
    ensures Flatten(ms[..i]) + Appended(ms[i]) <= Flatten(ms)
  {
    PrefixBytes(ms, i + 1);
    PrefixStep(ms, i);
  }

  /** Mesh `i` takes the bytes its size-table entry accounts for. */
  lemma PieceLength(ms: seq<MeshData>, i: nat)
    requires i < |ms|
    ensures |Appended(ms[i])| == Total(SizeTable(ms)[i])
  {
  }

  /** The output buffer holds exactly the bytes the size table accounts for. */
  lemma OutputLength(ms: seq<MeshData>)
    ensures |Flatten(ms)| == Offset(SizeTable(ms), |ms|)
  {
    PrefixLength(ms, |ms|);
    assert ms[..|ms|] == ms;
  }

  /** Mesh `i`'s bytes, `len` of them, follow the first `i` meshes' bytes, `from` of them, in the
      output. */
  lemma MeshAt(ms: seq<MeshData>, i: nat, from: nat, len: nat)
    requires i < |ms| && from == |Flatten(ms[..i])| && len == |Appended(ms[i])|
    ensures from + len <= |Flatten(ms)| && Flatten(ms)[from..from + len] == Appended(ms[i])
  {
    FrontPiece(ms, i);
    PieceAfter(Flatten(ms), Flatten(ms[..i]), Appended(ms[i]), from, len);
  }

  /** Mesh `i`'s bytes lie at the offset the size table gives it: this is how the output buffer
      is cut apart again with the table. */
  lemma MeshLocated(ms: seq<MeshData>, i: nat)
    requires i < |ms|
    ensures var from := Offset(SizeTable(ms), i);
      from + Total(SizeTable(ms)[i]) <= |Flatten(ms)| &&
      Flatten(ms)[from..from + Total(SizeTable(ms)[i])] == Appended(ms[i])
  {
    var from, len := Offset(SizeTable(ms), i), Total(SizeTable(ms)[i]);
    assert from == |Flatten(ms[..i])| by { PrefixLength(ms, i); }
    assert len == |Appended(ms[i])| by { PieceLength(ms, i); }
    MeshAt(ms, i, from, len);
  }
}
