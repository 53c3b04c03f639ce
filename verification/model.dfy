/** Mesh concatenation in the `Model` constructor (Model.cpp): the meshes of an imported file
    are merged into one vertex array, one normal array and one index array, each mesh's
    triangle indices shifted by the number of vertices that precede the mesh. The importer
    itself is not modelled; the meshes are a parameter. */
module Meshes {
  import opened Arith

  /** A 3-float vector (an imported position or normal). */
  datatype Vec3 = Vec3(x: real, y: real, z: real)

  /** A face: the importer's index list, local to its mesh. */
  datatype Face = Face(indices: seq<nat>)

  datatype Mesh = Mesh(vertices: seq<Vec3>, normals: seq<Vec3>, faces: seq<Face>)

  /** What the constructor reads of a mesh: one normal per vertex, and every face a triangle
      (the source asserts three indices per face). */
  predicate WellFormed(m: Mesh)
  {
    && |m.normals| == |m.vertices|
    && forall f :: 0 <= f < |m.faces| ==> |m.faces[f].indices| == 3
  }

  predicate AllWellFormed(ms: seq<Mesh>)
  {
    forall i :: 0 <= i < |ms| ==> WellFormed(ms[i])
  }

  /** The concatenated buffers and the two counts the constructor stores. */
  datatype ModelData = ModelData(vertices: seq<real>, normals: seq<real>, indices: seq<nat>, vertexCount: nat, indexCount: nat)

  // ----- Reference definition, built mesh by mesh from the back -----

  /** The floats of a vector list, three per vector. */
  function Floats(vs: seq<Vec3>): seq<real>
  {
    if vs == [] then []
    else var v := vs[|vs| - 1]; Floats(vs[..|vs| - 1]) + [v.x, v.y, v.z]
  }

  /** Vertices in all meshes. */
  function VertexTotal(ms: seq<Mesh>): nat
  {
    if ms == [] then 0 else VertexTotal(ms[..|ms| - 1]) + |ms[|ms| - 1].vertices|
  }

  /** Faces in all meshes. */
  function FaceTotal(ms: seq<Mesh>): nat
  {
    if ms == [] then 0 else FaceTotal(ms[..|ms| - 1]) + |ms[|ms| - 1].faces|
  }

  function Positions(ms: seq<Mesh>): seq<real>
  {
    if ms == [] then [] else Positions(ms[..|ms| - 1]) + Floats(ms[|ms| - 1].vertices)
  }

  function NormalFloats(ms: seq<Mesh>): seq<real>
  {
    if ms == [] then [] else NormalFloats(ms[..|ms| - 1]) + Floats(ms[|ms| - 1].normals)
  }

  /** A face's three indices shifted by `offset`, added in uint32. */
  function ShiftFace(face: Face, offset: nat): seq<nat>
    requires |face.indices| == 3
  {
    [Wrap32(face.indices[0] + offset), Wrap32(face.indices[1] + offset), Wrap32(face.indices[2] + offset)]
  }

  /** The indices of a run of triangles, each shifted by `offset`. */
  function Shift(faces: seq<Face>, offset: nat): seq<nat>
    requires forall f :: 0 <= f < |faces| ==> |faces[f].indices| == 3
  {
    if faces == [] then []
    else Shift(faces[..|faces| - 1], offset) + ShiftFace(faces[|faces| - 1], offset)
  }

  /** The offset the constructor holds after `ms`: the float count, truncated to uint32,
      divided by three. */
  function OffsetAfter(ms: seq<Mesh>): nat
  {
    Wrap32(|Positions(ms)|) / 3
  }

  /** The index buffer: each mesh's triangles shifted by the offset after its predecessors. */
  function Indices(ms: seq<Mesh>): seq<nat>
    requires AllWellFormed(ms)
  {
    if ms == [] then []
    else
      var init := ms[..|ms| - 1];
      Indices(init) + Shift(ms[|ms| - 1].faces, OffsetAfter(init))
  }

  function Concat(ms: seq<Mesh>): ModelData
    requires AllWellFormed(ms)
  {
    var vs := Positions(ms);
    var idx := Indices(ms);
    ModelData(vs, NormalFloats(ms), idx, Wrap32(|vs|) / 3, Wrap32(|idx|))
  }

  /** A prefix of well-formed meshes is well formed. */
  lemma {:induction false} PrefixWellFormed(ms: seq<Mesh>, m: nat)
    requires AllWellFormed(ms) && m <= |ms|
    ensures AllWellFormed(ms[..m])
  {
    forall i | 0 <= i < m ensures WellFormed(ms[..m][i]) {
      assert ms[..m][i] == ms[i];
    }
  }

  /** One more mesh extends every buffer by that mesh's contribution. */
  lemma {:induction false} Snoc(ms: seq<Mesh>, m: nat)
    requires AllWellFormed(ms) && m < |ms|
    ensures AllWellFormed(ms[..m]) && AllWellFormed(ms[..m + 1])
    ensures Positions(ms[..m + 1]) == Positions(ms[..m]) + Floats(ms[m].vertices)
    ensures NormalFloats(ms[..m + 1]) == NormalFloats(ms[..m]) + Floats(ms[m].normals)
    ensures Indices(ms[..m + 1]) == Indices(ms[..m]) + Shift(ms[m].faces, OffsetAfter(ms[..m]))
  {
    PrefixWellFormed(ms, m);
    PrefixWellFormed(ms, m + 1);
    var p := ms[..m + 1];
    assert p[..m] == ms[..m];
    assert p[m] == ms[m];
  }

  // ----- The constructor's loops -----

  /** The constructor's inner loop: push each face's three indices plus the running offset,
      added in uint32. */
  method AppendTriangles(indices: seq<nat>, faces: seq<Face>, offset: nat) returns (out: seq<nat>)
    requires forall f :: 0 <= f < |faces| ==> |faces[f].indices| == 3
    ensures out == indices + Shift(faces, offset)
  {
    out := indices;
    var f := 0;
    while f < |faces|
      invariant 0 <= f <= |faces|
      invariant out == indices + Shift(faces[..f], offset)
    {
      var face := faces[f];
      assert faces[..f + 1][..f] == faces[..f];
      out := out + [Wrap32(face.indices[0] + offset), Wrap32(face.indices[1] + offset), Wrap32(face.indices[2] + offset)];
      f := f + 1;
    }
    assert faces[..f] == faces;
  }

  /** The constructor's concatenation: for each mesh append its vertex and normal floats, then
      its rebased triangles, then set the offset to the float count so far over three. */
  method Concatenate(ms: seq<Mesh>) returns (r: ModelData)
    requires AllWellFormed(ms)
    ensures r == Concat(ms)
    ensures |r.indices| == 3 * FaceTotal(ms)
    ensures |r.vertices| == 3 * VertexTotal(ms) && |r.normals| == |r.vertices|
  {
    var vertices: seq<real> := [];
    var normals: seq<real> := [];
    var indices: seq<nat> := [];
    var offset: nat := 0;
    var m := 0;
    while m < |ms|
      invariant 0 <= m <= |ms|
      invariant AllWellFormed(ms[..m])
      invariant vertices == Positions(ms[..m])
      invariant normals == NormalFloats(ms[..m])
      invariant indices == Indices(ms[..m])
      invariant offset == OffsetAfter(ms[..m])
    {
      var mesh := ms[m];
      Snoc(ms, m);
      assert WellFormed(mesh);
      vertices := vertices + Floats(mesh.vertices);
      normals := normals + Floats(mesh.normals);
      indices := AppendTriangles(indices, mesh.faces, offset);
      offset := Wrap32(|vertices|) / 3;
      m := m + 1;
    }
    assert ms[..m] == ms;
    CountsOf(ms);
    r := ModelData(vertices, normals, indices, Wrap32(|vertices|) / 3, Wrap32(|indices|));
  }

  // ----- Properties -----

  lemma {:induction false} FloatsLength(vs: seq<Vec3>)
    ensures |Floats(vs)| == 3 * |vs|
    decreases |vs|
  {
    if vs != [] {
      FloatsLength(vs[..|vs| - 1]);
    }
  }

  lemma {:induction false} ShiftLength(faces: seq<Face>, offset: nat)
    requires forall f :: 0 <= f < |faces| ==> |faces[f].indices| == 3
    ensures |Shift(faces, offset)| == 3 * |faces|
    decreases |faces|
  {
    if faces != [] {
      ShiftLength(faces[..|faces| - 1], offset);
    }
  }

  /** Three floats per vertex and per normal, three indices per face. */
  lemma {:induction false} CountsOf(ms: seq<Mesh>)
    requires AllWellFormed(ms)
    ensures |Positions(ms)| == 3 * VertexTotal(ms)
    ensures |NormalFloats(ms)| == 3 * VertexTotal(ms)
    ensures |Indices(ms)| == 3 * FaceTotal(ms)
    decreases |ms|
  {
    if ms != [] {
      var last := ms[|ms| - 1];
      assert WellFormed(last);
      CountsOf(ms[..|ms| - 1]);
      FloatsLength(last.vertices);
      FloatsLength(last.normals);
      ShiftLength(last.faces, OffsetAfter(ms[..|ms| - 1]));
    }
  }

  /** The model's counts: three indices per face over all meshes, and, when the float count
      fits in uint32, a vertex count equal to the total vertices of all meshes. */
  lemma {:induction false} ModelCounts(ms: seq<Mesh>)
    requires AllWellFormed(ms)
    ensures |Concat(ms).indices| == 3 * FaceTotal(ms)
    ensures 3 * FaceTotal(ms) < U32 ==> Concat(ms).indexCount == 3 * FaceTotal(ms)
    ensures 3 * VertexTotal(ms) < U32 ==> Concat(ms).vertexCount == VertexTotal(ms)
  {
    CountsOf(ms);
  }

  /** Vertex floats are appended in mesh order: the floats of a concatenation of mesh lists are
      the floats of the first list followed by those of the second. */
  lemma {:induction false} PositionsAppend(a: seq<Mesh>, b: seq<Mesh>)
    ensures Positions(a + b) == Positions(a) + Positions(b)
    decreases |b|
  {
    if b == [] {
      assert a + b == a;
    } else {
      var init := b[..|b| - 1];
      var ab := a + b;
      assert ab[..|ab| - 1] == a + init;
      assert ab[|ab| - 1] == b[|b| - 1];
      var last := Floats(b[|b| - 1].vertices);
      assert Positions(ab) == Positions(a + init) + last;
      assert Positions(b) == Positions(init) + last;
      PositionsAppend(a, init);
      assert (Positions(a) + Positions(init)) + last == Positions(a) + (Positions(init) + last);
    }
  }

  /** Normal floats are appended in mesh order, likewise. */
  lemma {:induction false} NormalsAppend(a: seq<Mesh>, b: seq<Mesh>)
    ensures NormalFloats(a + b) == NormalFloats(a) + NormalFloats(b)
    decreases |b|
  {
    if b == [] {
      assert a + b == a;
    } else {
      var init := b[..|b| - 1];
      var ab := a + b;
      assert ab[..|ab| - 1] == a + init;
      assert ab[|ab| - 1] == b[|b| - 1];
      var last := Floats(b[|b| - 1].normals);
      assert NormalFloats(ab) == NormalFloats(a + init) + last;
      assert NormalFloats(b) == NormalFloats(init) + last;
      NormalsAppend(a, init);
      assert (NormalFloats(a) + NormalFloats(init)) + last == NormalFloats(a) + (NormalFloats(init) + last);
    }
  }

  /** Entry 3f + k of a shifted run is index k of face f plus the offset, in uint32. */
  lemma {:induction false} ShiftAt(faces: seq<Face>, offset: nat, f: nat, k: nat)
    requires forall g :: 0 <= g < |faces| ==> |faces[g].indices| == 3
    requires f < |faces| && k < 3
    ensures |Shift(faces, offset)| == 3 * |faces|
    ensures Shift(faces, offset)[3 * f + k] == Wrap32(faces[f].indices[k] + offset)
    decreases |faces|
  {
    var init := faces[..|faces| - 1];
    ShiftLength(faces, offset);
    ShiftLength(init, offset);
    if f < |init| {
      ShiftAt(init, offset, f, k);
    }
  }

  /** The vertices of the meshes before mesh m, when the float count fits in uint32, is the
      offset the constructor holds when it reaches mesh m. */
  lemma {:induction false} OffsetIsVertexTotal(ms: seq<Mesh>)
    requires AllWellFormed(ms)
    requires 3 * VertexTotal(ms) < U32
    ensures OffsetAfter(ms) == VertexTotal(ms)
  {
    CountsOf(ms);
  }

  /** The index buffer of a prefix of the meshes is a prefix of the whole index buffer. */
  lemma {:induction false} IndicesPrefix(ms: seq<Mesh>, m: nat)
    requires AllWellFormed(ms) && m <= |ms|
    ensures AllWellFormed(ms[..m]) && Indices(ms[..m]) <= Indices(ms)
    decreases |ms|
  {
    PrefixWellFormed(ms, m);
    if m < |ms| {
      var n := |ms| - 1;
      Snoc(ms, n);
      assert ms[..n + 1] == ms;
      var init := ms[..n];
      IndicesPrefix(init, m);
      assert init[..m] == ms[..m];
    } else {
      assert ms[..m] == ms;
    }
  }

  /** The index buffer starts with the indices of the meshes before mesh m, 3 per face, followed
      by mesh m's own shifted triangles. */
  lemma {:induction false} IndicesSplit(ms: seq<Mesh>, m: nat)
    requires AllWellFormed(ms) && m < |ms|
    ensures AllWellFormed(ms[..m])
    ensures |Indices(ms[..m])| == 3 * FaceTotal(ms[..m])
    ensures Indices(ms[..m]) + Shift(ms[m].faces, OffsetAfter(ms[..m])) <= Indices(ms)
  {
    Snoc(ms, m);
    IndicesPrefix(ms, m + 1);
    CountsOf(ms[..m]);
  }

  /** Rebasing: entry 3(F + f) + k of the index buffer, where F counts the faces of the meshes
      before mesh m, is index k of face f of mesh m shifted by the offset after those meshes. */
  lemma {:induction false} IndicesAt(ms: seq<Mesh>, m: nat, f: nat, k: nat)
    requires AllWellFormed(ms)
    requires m < |ms| && f < |ms[m].faces| && k < 3
    ensures 3 * (FaceTotal(ms[..m]) + f) + k < |Indices(ms)|
    ensures Indices(ms)[3 * (FaceTotal(ms[..m]) + f) + k]
         == Wrap32(ms[m].faces[f].indices[k] + OffsetAfter(ms[..m]))
  {
    IndicesAtShifted(ms, m, f, k);
    ShiftAt(ms[m].faces, OffsetAfter(ms[..m]), f, k);
  }

  /** The same position read through the shifted run of mesh m. */
  lemma {:induction false} IndicesAtShifted(ms: seq<Mesh>, m: nat, f: nat, k: nat)
    requires AllWellFormed(ms)
    requires m < |ms| && f < |ms[m].faces| && k < 3
    ensures 3 * f + k < |Shift(ms[m].faces, OffsetAfter(ms[..m]))|
    ensures 3 * (FaceTotal(ms[..m]) + f) + k < |Indices(ms)|
    ensures Indices(ms)[3 * (FaceTotal(ms[..m]) + f) + k]
         == Shift(ms[m].faces, OffsetAfter(ms[..m]))[3 * f + k]
  {
    IndicesSplit(ms, m);
    ShiftLength(ms[m].faces, OffsetAfter(ms[..m]));
    var shifted := Shift(ms[m].faces, OffsetAfter(ms[..m]));
    PrefixAt(Indices(ms[..m]), shifted, Indices(ms), 3 * f + k, 3 * (FaceTotal(ms[..m]) + f) + k);
  }

  /** Inside a sequence that starts with `before + middle`, entry i of `middle` sits at
      j = |before| + i. */
  lemma {:induction false} PrefixAt(before: seq<nat>, middle: seq<nat>, all: seq<nat>, i: nat, j: nat)
    requires before + middle <= all && i < |middle| && j == |before| + i
    ensures j < |all| && all[j] == middle[i]
  {
    assert (before + middle)[j] == middle[i];
  }

  /** Face totals grow along prefixes. */
  lemma {:induction false} FaceTotalPrefix(ms: seq<Mesh>, m: nat)
    requires m <= |ms|
    ensures FaceTotal(ms[..m]) <= FaceTotal(ms)
    decreases |ms|
  {
    if m < |ms| {
      assert ms[..m] == ms[..|ms| - 1][..m];
      FaceTotalPrefix(ms[..|ms| - 1], m);
    } else {
      assert ms[..m] == ms;
    }
  }

  /** Vertex totals grow along prefixes, by mesh m's vertices when mesh m is included. */
  lemma {:induction false} VertexTotalPrefix(ms: seq<Mesh>, m: nat)
    requires m < |ms|
    ensures VertexTotal(ms[..m]) + |ms[m].vertices| <= VertexTotal(ms)
    decreases |ms|
  {
    if m < |ms| - 1 {
      var init := ms[..|ms| - 1];
      assert ms[..m] == init[..m];
      assert ms[m] == init[m];
      VertexTotalPrefix(init, m);
    } else {
      assert ms[..m] == ms[..|ms| - 1];
    }
  }

  /** Every local index below its mesh's vertex count. */
  predicate IndicesInRange(ms: seq<Mesh>)
    requires AllWellFormed(ms)
  {
    forall m, f, k :: 0 <= m < |ms| && 0 <= f < |ms[m].faces| && 0 <= k < 3 ==>
      ms[m].faces[f].indices[k] < |ms[m].vertices|
  }

  /** Without uint32 overflow, mesh m's indices are shifted by exactly the number of vertices
      of the meshes before it, and if every local index is below its mesh's vertex count then
      every rebased index is below the model's vertex count. */
  lemma {:induction false} RebasedIndex(ms: seq<Mesh>, m: nat, f: nat, k: nat)
    requires AllWellFormed(ms)
    requires m < |ms| && f < |ms[m].faces| && k < 3
    requires 3 * VertexTotal(ms) < U32
    requires ms[m].faces[f].indices[k] < |ms[m].vertices|
    ensures var j := 3 * (FaceTotal(ms[..m]) + f) + k;
      && j < |Concat(ms).indices|
      && Concat(ms).indices[j] == ms[m].faces[f].indices[k] + VertexTotal(ms[..m])
      && Concat(ms).indices[j] < Concat(ms).vertexCount
  {
    IndicesAt(ms, m, f, k);
    VertexTotalPrefix(ms, m);
    var init := ms[..m];
    assert AllWellFormed(init) by {
      forall i | 0 <= i < |init| ensures WellFormed(init[i]) { assert init[i] == ms[i]; }
    }
    OffsetIsVertexTotal(init);
    ModelCounts(ms);
  }

}
