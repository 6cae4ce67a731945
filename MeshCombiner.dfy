// Mesh combining with de-duplicated bones and materials
// (unity/IzFbxTools/Editor/Core/Geom/MeshCombiner.cs).
//
// Unity objects compared by reference (materials, bone transforms) are modelled by integer
// identities. Matrix products are left to caller-supplied functions: `point` and `vector` stand
// for `frm2toMtx.MultiplyPoint` / `MultiplyVector`, `rebase` for `bindpose * frm2toMtx.inverse`.

module MeshCombiner {
  import opened Geom

  datatype Vec4 = Vec4(x: real, y: real, z: real, w: real)

  /** A 4x4 matrix, kept as its sixteen cells; `new Matrix4x4[n]` fills with zeros. */
  datatype Matrix = Matrix(cells: seq<real>)

  const ZeroMatrix := Matrix(seq(16, _ => 0.0))

  /** Unity keeps eight texture coordinate channels, `uv` to `uv8`. */
  const UvChannels := 8

  datatype BoneWeight = BoneWeight(bone0: int, bone1: int, bone2: int, bone3: int, weights: Vec4)

  const Zero2 := Vec2(0.0, 0.0)
  const Zero3 := Vec3(0.0, 0.0, 0.0)
  const Zero4 := Vec4(0.0, 0.0, 0.0, 0.0)
  const ZeroWeight := BoneWeight(0, 0, 0, 0, Zero4)

  /** A vertex channel of `len` entries on a mesh of `n` vertices: absent, or one entry per
      vertex. */
  predicate Fits(len: nat, n: nat)
  {
    len == 0 || len == n
  }

  /** What assigning `vertices` a new count `n` does to a channel: a channel the mesh has keeps
      its entries and is cut or filled with `d` to `n` entries; an absent channel stays absent. */
  function Resize<T>(c: seq<T>, n: nat, d: T): (r: seq<T>)
    ensures Fits(|r|, n)
  {
    if |c| == 0 then [] else seq(n, i requires 0 <= i < n => if i < |c| then c[i] else d)
  }

  /** A channel setter on a mesh of `n` vertices: an array of `n` entries, or an empty one, is
      stored; any other length is refused (Unity logs an error) and the channel keeps `current`. */
  function Assign<T>(current: seq<T>, a: seq<T>, n: nat): (r: seq<T>)
    ensures Fits(|current|, n) ==> Fits(|r|, n)
  {
    if |a| == n || |a| == 0 then a else current
  }

  /** The parts of a Unity `Mesh` that `addTo` reads and writes. `subMeshes[s]` is the index
      list of sub-mesh `s`, so `subMeshCount == |subMeshes|` and `vertexCount == |vertices|`. */
  class Mesh {
    var vertices: seq<Vec3>
    var normals: seq<Vec3>
    var tangents: seq<Vec4>
    var uvs: seq<seq<Vec2>>
    var colors: seq<Vec4>
    var boneWeights: seq<BoneWeight>
    var bindposes: seq<Matrix>
    var subMeshes: seq<seq<int>>
    var blendShapeCount: nat

    /** Eight texture channels, and every vertex channel absent or one entry per vertex, as
        Unity keeps them. */
    predicate Shaped()
      reads this
    {
      && |uvs| == UvChannels
      && Fits(|normals|, |vertices|) && Fits(|tangents|, |vertices|) && Fits(|colors|, |vertices|)
      && Fits(|boneWeights|, |vertices|)
      && forall k :: 0 <= k < |uvs| ==> Fits(|uvs[k]|, |vertices|)
    }

    /** The `vertices` setter: a new vertex count resizes every channel the mesh has. */
    method SetVertices(v: seq<Vec3>)
      requires Shaped()
      modifies this
      ensures vertices == v && Shaped()
      ensures normals == Resize(old(normals), |v|, Zero3) && tangents == Resize(old(tangents), |v|, Zero4)
      ensures |uvs| == UvChannels && forall k :: 0 <= k < UvChannels ==> uvs[k] == Resize(old(uvs)[k], |v|, Zero2)
      ensures colors == Resize(old(colors), |v|, Zero4) && boneWeights == Resize(old(boneWeights), |v|, ZeroWeight)
      ensures bindposes == old(bindposes) && subMeshes == old(subMeshes) && blendShapeCount == old(blendShapeCount)
    {
      vertices := v;
      normals, tangents := Resize(normals, |v|, Zero3), Resize(tangents, |v|, Zero4);
      var before := uvs;
      uvs := seq(UvChannels, k requires 0 <= k < UvChannels => Resize(before[k], |v|, Zero2));
      colors, boneWeights := Resize(colors, |v|, Zero4), Resize(boneWeights, |v|, ZeroWeight);
    }

    method SetNormals(a: seq<Vec3>)
      requires Shaped()
      modifies this
      ensures normals == Assign(old(normals), a, |vertices|) && Shaped()
      ensures vertices == old(vertices) && tangents == old(tangents) && uvs == old(uvs) && colors == old(colors)
      ensures boneWeights == old(boneWeights) && bindposes == old(bindposes) && subMeshes == old(subMeshes)
      ensures blendShapeCount == old(blendShapeCount)
    {
      normals := Assign(normals, a, |vertices|);
    }

    method SetTangents(a: seq<Vec4>)
      requires Shaped()
      modifies this
      ensures tangents == Assign(old(tangents), a, |vertices|) && Shaped()
      ensures vertices == old(vertices) && normals == old(normals) && uvs == old(uvs) && colors == old(colors)
      ensures boneWeights == old(boneWeights) && bindposes == old(bindposes) && subMeshes == old(subMeshes)
      ensures blendShapeCount == old(blendShapeCount)
    {
      tangents := Assign(tangents, a, |vertices|);
    }

    /** The setters `uv` to `uv8`, each on its own channel. */
    method SetUvs(a: seq<seq<Vec2>>)
      requires Shaped() && |a| == UvChannels
      modifies this
      ensures |uvs| == UvChannels && Shaped()
      ensures forall k :: 0 <= k < UvChannels ==> uvs[k] == Assign(old(uvs)[k], a[k], |vertices|)
      ensures vertices == old(vertices) && normals == old(normals) && tangents == old(tangents) && colors == old(colors)
      ensures boneWeights == old(boneWeights) && bindposes == old(bindposes) && subMeshes == old(subMeshes)
      ensures blendShapeCount == old(blendShapeCount)
    {
      var current, n := uvs, |vertices|;
      uvs := seq(UvChannels, k requires 0 <= k < UvChannels => Assign(current[k], a[k], n));
    }

    method SetColors(a: seq<Vec4>)
      requires Shaped()
      modifies this
      ensures colors == Assign(old(colors), a, |vertices|) && Shaped()
      ensures vertices == old(vertices) && normals == old(normals) && tangents == old(tangents) && uvs == old(uvs)
      ensures boneWeights == old(boneWeights) && bindposes == old(bindposes) && subMeshes == old(subMeshes)
      ensures blendShapeCount == old(blendShapeCount)
    {
      colors := Assign(colors, a, |vertices|);
    }

    method SetBoneWeights(a: seq<BoneWeight>)
      requires Shaped()
      modifies this
      ensures boneWeights == Assign(old(boneWeights), a, |vertices|) && Shaped()
      ensures vertices == old(vertices) && normals == old(normals) && tangents == old(tangents)
      ensures uvs == old(uvs) && colors == old(colors) && bindposes == old(bindposes) && subMeshes == old(subMeshes)
      ensures blendShapeCount == old(blendShapeCount)
    {
      boneWeights := Assign(boneWeights, a, |vertices|);
    }
  }

  /** One vertex channel of `addTo`: `to`'s channel `c0`, read before line 110, followed by
      `from`'s channel `c1`, assigned after the vertex count grew to `n`. */
  function Joined<T>(c0: seq<T>, c1: seq<T>, n: nat, d: T): seq<T>
  {
    Assign(Resize(c0, n, d), c0 + c1, n)
  }

  /** What a joined channel holds: the concatenation when both meshes have the channel (or
      one has no vertices); `to`'s entries filled with `d` when only `to` has it; nothing when
      only `from` has it, since the setter refuses an array shorter than the vertices. */
  lemma JoinedMeaning<T>(c0: seq<T>, c1: seq<T>, n0: nat, n1: nat, d: T)
    requires Fits(|c0|, n0) && Fits(|c1|, n1)
    ensures var r := Joined(c0, c1, n0 + n1, d);
      && Fits(|r|, n0 + n1)
      && (|c0| == n0 && |c1| == n1 ==> r == c0 + c1)
      && (0 < |c0| && |c1| < n1 ==> r == c0 + seq(n1, _ => d))
      && (|c0| < n0 ==> r == [])
  {
    var n := n0 + n1;
    if 0 < |c0| && |c1| < n1 {
      assert Resize(c0, n, d) == c0 + seq(n1, _ => d);
    }
  }

  /** Lines 119-126: every texture channel joined on its own. */
  function JoinedChannels(a: seq<seq<Vec2>>, b: seq<seq<Vec2>>, n: nat): (r: seq<seq<Vec2>>)
    requires |a| == |b|
    ensures |r| == |a|
  {
    seq(|a|, k requires 0 <= k < |a| => Joined(a[k], b[k], n, Zero2))
  }

  // ------------------------------------------------------------------------------------------
  // combineDistinctArray (lines 233-250)

  /** `x` occurs in `s` at no index before `j`. */
  function FirstIndex<T(==)>(s: seq<T>, x: T): (j: nat)
    requires x in s
    ensures j < |s| && s[j] == x && forall k :: 0 <= k < j ==> s[k] != x
  {
    if s[0] == x then 0
    else
      assert x in s[1..] by {
        var k :| 0 <= k < |s| && s[k] == x;
        assert s[1..][k - 1] == x;
      }
      1 + FirstIndex(s[1..], x)
  }

  /** The list `combineDistinctArray(a, b)` returns: `a`, then each element of `b` not yet
      present, in `b`'s order. */
  function Combined<T(==)>(a: seq<T>, b: seq<T>): (r: seq<T>)
    ensures |a| <= |r| <= |a| + |b|
  {
    if b == [] then a
    else
      var r := Combined(a, b[..|b| - 1]);
      if b[|b| - 1] in r then r else r + [b[|b| - 1]]
  }

  predicate Distinct<T(==)>(s: seq<T>)
  {
    forall i, j :: 0 <= i < j < |s| ==> s[i] != s[j]
  }

  /** The result starts with `a` unchanged, holds every element of `b`, holds nothing else, and
      is at most `|a| + |b|` long. */
  lemma {:induction false} CombinedShape<T>(a: seq<T>, b: seq<T>)
    ensures var r := Combined(a, b);
      && |a| <= |r| <= |a| + |b| && r[..|a|] == a
      && (forall i :: 0 <= i < |b| ==> b[i] in r)
      && (forall x :: x in r ==> x in a || x in b)
  {
    if b != [] {
      var b' := b[..|b| - 1];
      CombinedShape(a, b');
      var r' := Combined(a, b');
      var r := Combined(a, b);
      forall i | 0 <= i < |b|
        ensures b[i] in r
      {
        if i < |b| - 1 {
          assert b'[i] == b[i];
        }
      }
      forall x | x in r
        ensures x in a || x in b
      {
        if x in r' && x !in a {
          var k :| 0 <= k < |b'| && b'[k] == x;
          assert b[k] == x;
        }
      }
    }
  }

  /** Duplicate-free inputs give a duplicate-free result; only `a` needs to be. */
  lemma {:induction false} CombinedDistinct<T>(a: seq<T>, b: seq<T>)
    requires Distinct(a)
    ensures Distinct(Combined(a, b))
  {
    if b != [] {
      CombinedDistinct(a, b[..|b| - 1]);
    }
  }

  /** The map `combineDistinctArray` returns beside the list: for each element of `b`, the first
      position of the combined list that holds it. */
  function IndexMap<T(==)>(a: seq<T>, b: seq<T>): (m: seq<int>)
    ensures |m| == |b|
  {
    CombinedShape(a, b);
    seq(|b|, i requires 0 <= i < |b| => FirstIndex(Combined(a, b), b[i]))
  }

  /** Each element of `b` is mapped to the first position of the combined list holding it. */
  lemma IndexMapMeaning<T>(a: seq<T>, b: seq<T>)
    ensures var m, r := IndexMap(a, b), Combined(a, b);
      forall i :: 0 <= i < |b| ==> 0 <= m[i] < |r| && r[m[i]] == b[i] && forall k :: 0 <= k < m[i] ==> r[k] != b[i]
  {
    CombinedShape(a, b);
  }

  /** Distinct elements of `b` get distinct positions, and with a duplicate-free `a` every
      element of `a` keeps its own position. */
  lemma IndexMapPositions<T>(a: seq<T>, b: seq<T>)
    ensures Distinct(b) ==> Distinct(IndexMap(a, b))
    ensures Distinct(a) ==> forall i :: 0 <= i < |b| && b[i] in a ==> IndexMap(a, b)[i] < |a|
  {
    CombinedShape(a, b);
    var r := Combined(a, b);
    var m := IndexMap(a, b);
    if Distinct(a) {
      forall i | 0 <= i < |b| && b[i] in a
        ensures m[i] < |a|
      {
        var k :| 0 <= k < |a| && a[k] == b[i];
        assert r[k] == b[i];
      }
    }
  }

  /** The first position of an element does not move when the list grows at the end. */
  lemma FirstIndexAppend<T>(s: seq<T>, t: seq<T>, x: T)
    requires x in s
    ensures x in s + t && FirstIndex(s + t, x) == FirstIndex(s, x)
  {
    var j := FirstIndex(s, x);
    var k := FirstIndex(s + t, x);
    assert (s + t)[j] == x;
    assert (s + t)[k] == s[k];
  }

  /** One more element of `b`: it is appended unless the list already holds it. */
  lemma CombinedStep<T>(a: seq<T>, b: seq<T>, i: int)
    requires 0 <= i < |b|
    ensures Combined(a, b[..i + 1]) ==
      if b[i] in Combined(a, b[..i]) then Combined(a, b[..i]) else Combined(a, b[..i]) + [b[i]]
  {
    assert b[..i + 1][..i] == b[..i];
  }

  /** An element appended to a list that lacks it is first found at the end. */
  lemma FirstIndexFresh<T>(s: seq<T>, x: T)
    requires x !in s
    ensures FirstIndex(s + [x], x) == |s|
  {
    var j := FirstIndex(s + [x], x);
    assert (s + [x])[|s|] == x;
  }

  /** One more element of `b` extends the map by that element's first position. */
  lemma IndexMapStep<T>(a: seq<T>, b: seq<T>, i: int)
    requires 0 <= i < |b|
    ensures b[i] in Combined(a, b[..i + 1])
    ensures IndexMap(a, b[..i + 1]) == IndexMap(a, b[..i]) + [FirstIndex(Combined(a, b[..i + 1]), b[i])]
  {
    CombinedStep(a, b, i);
    var r0, r1 := Combined(a, b[..i]), Combined(a, b[..i + 1]);
    var m0, m1 := IndexMap(a, b[..i]), IndexMap(a, b[..i + 1]);
    assert b[..i + 1][i] == b[i];
    assert b[i] in r1;
    assert m1[i] == FirstIndex(r1, b[i]);
    forall k | 0 <= k < i
      ensures m1[k] == m0[k]
    {
      assert b[..i + 1][k] == b[k] && b[..i][k] == b[k];
      assert b[k] in r0 by {
        CombinedShape(a, b[..i]);
      }
      assert m0[k] == FirstIndex(r0, b[k]);
      assert m1[k] == FirstIndex(r1, b[k]);
      if r1 != r0 {
        FirstIndexAppend(r0, [b[i]], b[k]);
      }
    }
  }

  /** Lines 237-242: the scan of the list built so far for `x`, stopping at its first position. */
  method FindFirst<T(==)>(s: seq<T>, x: T) returns (alreadyContains: bool, j: int)
    ensures alreadyContains <==> x in s
    ensures alreadyContains ==> j == FirstIndex(s, x)
  {
    alreadyContains, j := false, 0;
    for k := 0 to |s|
      invariant !alreadyContains && forall m :: 0 <= m < k ==> s[m] != x
    {
      if s[k] != x {
        continue;
      }
      j := k;
      alreadyContains := true;
      break;
    }
  }

  /** Lines 233-250: `a` with the new elements of `b` appended, and for each element of `b`
      the first position that holds it. */
  method CombineDistinctArray<T(==)>(a: seq<T>, b: seq<T>) returns (ary: seq<T>, bIdxMap: seq<int>)
    ensures ary == Combined(a, b) && bIdxMap == IndexMap(a, b)
  {
    var retAry := a;
    var idx := new int[|b|];
    for i := 0 to |b|
      invariant retAry == Combined(a, b[..i])
      invariant idx[..i] == IndexMap(a, b[..i])
    {
      CombinedStep(a, b, i);
      IndexMapStep(a, b, i);
      var alreadyContains, j := FindFirst(retAry, b[i]);
      ghost var before := idx[..];
      if alreadyContains {
        idx[i] := j;
      } else {
        FirstIndexFresh(retAry, b[i]);
        idx[i] := |retAry|;
        retAry := retAry + [b[i]];
      }
      assert idx[..i + 1] == before[..i] + [idx[i]];
    }
    assert b[..|b|] == b && idx[..] == idx[..|b|];
    ary, bIdxMap := retAry, idx[..];
  }

  // ------------------------------------------------------------------------------------------
  // MeshObject (lines 19-91)

  /** Line 87: materials beyond the sub-mesh count are dropped; too few are kept as they are. */
  function Trimmed(materials: seq<int>, subMeshCount: nat): (r: seq<int>)
  {
    if subMeshCount < |materials| then materials[..subMeshCount] else materials
  }

  /** After trimming, the material count matches the sub-mesh count exactly when there were
      enough materials, and the materials kept are the leading ones. */
  lemma TrimmedMatches(materials: seq<int>, subMeshCount: nat)
    ensures var r := Trimmed(materials, subMeshCount);
      && (|r| == subMeshCount <==> subMeshCount <= |materials|)
      && |r| <= |materials| && r == materials[..|r|]
  {
  }

  /** One object to combine: its mesh, material list, bone list and local-to-world matrix. */
  class MeshObject {
    var mesh: Mesh
    var matLst: seq<int>
    var bones: seq<int>
    var l2wMtx: Matrix

    constructor (mesh: Mesh, matLst: seq<int>, bones: seq<int>, l2wMtx: Matrix)
      ensures this.mesh == mesh && this.matLst == matLst && this.bones == bones && this.l2wMtx == l2wMtx
    {
      this.mesh := mesh;
      this.matLst := matLst;
      this.bones := bones;
      this.l2wMtx := l2wMtx;
    }

    /** Line 26: the state `reset` leaves. */
    predicate IsEmpty()
      reads this, mesh
    {
      |matLst| == 0 && |mesh.subMeshes| == 1 && |mesh.vertices| == 0
    }

    /** Lines 38-66, without the error messages. */
    predicate Validate()
      reads this, mesh
    {
      if |matLst| != |mesh.subMeshes| && !IsEmpty() then false
      else if mesh.blendShapeCount != 0 then false
      else |mesh.bindposes| == |bones|
    }

    /** Lines 29-35: `mesh.Clear()` leaves one empty sub-mesh; the bind poses are cleared by
        hand. */
    method Reset()
      modifies this, mesh
      ensures mesh == old(mesh) && mesh.Shaped()
      ensures matLst == [] && bones == [] && l2wMtx == Identity()
      ensures mesh.vertices == [] && mesh.subMeshes == [[]] && mesh.bindposes == [] && mesh.blendShapeCount == 0
      ensures IsEmpty() && Validate()
    {
      mesh.vertices, mesh.normals, mesh.tangents := [], [], [];
      mesh.uvs, mesh.colors, mesh.boneWeights := seq(UvChannels, _ => []), [], [];
      mesh.subMeshes, mesh.blendShapeCount := [[]], 0;
      mesh.bindposes := [];
      matLst, bones := [], [];
      l2wMtx := Identity();
    }

    /** Every sub-mesh index addresses a vertex of this mesh. */
    predicate IndicesValid()
      reads this, mesh
    {
      SubMeshesIn(mesh.subMeshes, 0, |mesh.vertices|)
    }

    /** Bone weights of this mesh refer to bones of this object. */
    predicate WeightsInRange()
      reads this, mesh
    {
      forall i :: 0 <= i < |mesh.boneWeights| ==> BonesIn(mesh.boneWeights[i], |bones|)
    }
  }

  function Identity(): Matrix
  {
    Matrix(seq(16, k => if k % 5 == 0 then 1.0 else 0.0))
  }

  predicate BonesIn(w: BoneWeight, n: int)
  {
    0 <= w.bone0 < n && 0 <= w.bone1 < n && 0 <= w.bone2 < n && 0 <= w.bone3 < n
  }

  /** Lines 69-90 with the wrapper's fields as parameters: the object shares the mesh, trims
      surplus materials and, for a skinned mesh, uses its own local matrix. */
  method Generate(mesh: Mesh, materials: seq<int>, bones: seq<int>, worldMtx: Matrix, localMtx: Matrix)
    returns (r: MeshObject)
    ensures fresh(r) && r.mesh == mesh && r.bones == bones
    ensures r.l2wMtx == if |bones| == 0 then worldMtx else localMtx
    ensures r.matLst == Trimmed(materials, |mesh.subMeshes|)
  {
    r := new MeshObject(mesh, materials, bones, if |bones| == 0 then worldMtx else localMtx);
    if |r.mesh.subMeshes| < |r.matLst| {
      r.matLst := r.matLst[..|r.mesh.subMeshes|];
    }
  }

  // ------------------------------------------------------------------------------------------
  // addTo (lines 94-168)

  function MapPoints(s: seq<Vec3>, f: Vec3 -> Vec3): (r: seq<Vec3>)
    ensures |r| == |s| && forall i :: 0 <= i < |s| ==> r[i] == f(s[i])
  {
    seq(|s|, i requires 0 <= i < |s| => f(s[i]))
  }

  /** Lines 113-116: the direction part is transformed, `w` is kept. */
  function MapTangents(s: seq<Vec4>, f: Vec3 -> Vec3): (r: seq<Vec4>)
    ensures |r| == |s|
    ensures forall i :: 0 <= i < |s| ==>
      var a := f(Vec3(s[i].x, s[i].y, s[i].z)); r[i] == Vec4(a.x, a.y, a.z, s[i].w)
  {
    seq(|s|, i requires 0 <= i < |s| => var a := f(Vec3(s[i].x, s[i].y, s[i].z)); Vec4(a.x, a.y, a.z, s[i].w))
  }

  /** Lines 135-139: all four bone indices go through the bone map. */
  function RemapWeight(w: BoneWeight, boneMap: seq<int>): BoneWeight
    requires BonesIn(w, |boneMap|)
  {
    w.(bone0 := boneMap[w.bone0], bone1 := boneMap[w.bone1], bone2 := boneMap[w.bone2], bone3 := boneMap[w.bone3])
  }

  function RemapWeights(ws: seq<BoneWeight>, boneMap: seq<int>): (r: seq<BoneWeight>)
    requires forall i :: 0 <= i < |ws| ==> BonesIn(ws[i], |boneMap|)
    ensures |r| == |ws| && forall i :: 0 <= i < |ws| ==> r[i] == RemapWeight(ws[i], boneMap)
  {
    seq(|ws|, i requires 0 <= i < |ws| => RemapWeight(ws[i], boneMap))
  }

  /** Remapped weights refer to bones of the combined list, and each names the same bone it
      named before. */
  lemma RemappedWeightsSameBones(toBones: seq<int>, fromBones: seq<int>, ws: seq<BoneWeight>)
    requires forall i :: 0 <= i < |ws| ==> BonesIn(ws[i], |fromBones|)
    ensures var bones := Combined(toBones, fromBones);
      var r := RemapWeights(ws, IndexMap(toBones, fromBones));
      forall i :: 0 <= i < |ws| ==>
        && BonesIn(r[i], |bones|)
        && bones[r[i].bone0] == fromBones[ws[i].bone0] && bones[r[i].bone1] == fromBones[ws[i].bone1]
        && bones[r[i].bone2] == fromBones[ws[i].bone2] && bones[r[i].bone3] == fromBones[ws[i].bone3]
        && r[i].weights == ws[i].weights
  {
  }

  /** `n` zero matrices, what `new Matrix4x4[n]` holds. */
  function Zeros(n: nat): (r: seq<Matrix>)
    ensures |r| == n
  {
    seq(n, k => ZeroMatrix)
  }

  /** Lines 146-148 after the first `n` stores of `from`'s poses: `to`'s poses at their index,
      zero elsewhere, then pose `i` of `from` at the combined index of bone `i`. */
  function Poses(size: nat, toPoses: seq<Matrix>, fromPoses: seq<Matrix>, boneMap: seq<int>,
                 rebase: Matrix -> Matrix, n: nat): (r: seq<Matrix>)
    requires |toPoses| <= size && n <= |fromPoses| && n <= |boneMap|
    requires forall i :: 0 <= i < |boneMap| ==> 0 <= boneMap[i] < size
    ensures |r| == size
  {
    if n == 0 then toPoses + Zeros(size - |toPoses|)
    else Poses(size, toPoses, fromPoses, boneMap, rebase, n - 1)[boneMap[n - 1] := rebase(fromPoses[n - 1])]
  }

  /** `to`'s poses stay where no bone of `from` lands, and with distinct bone positions each pose
      of `from` sits at its bone's combined index. */
  lemma {:induction false} PosesPlaced(size: nat, toPoses: seq<Matrix>, fromPoses: seq<Matrix>, boneMap: seq<int>,
                                       rebase: Matrix -> Matrix, n: nat)
    requires |toPoses| <= size && n <= |fromPoses| && n <= |boneMap|
    requires forall i :: 0 <= i < |boneMap| ==> 0 <= boneMap[i] < size
    ensures var r := Poses(size, toPoses, fromPoses, boneMap, rebase, n);
      && (forall k :: 0 <= k < |toPoses| && k !in boneMap[..n] ==> r[k] == toPoses[k])
      && (forall k :: |toPoses| <= k < size && k !in boneMap[..n] ==> r[k] == ZeroMatrix)
      && ((forall i, j :: 0 <= i < j < n ==> boneMap[i] != boneMap[j]) ==>
            forall i :: 0 <= i < n ==> r[boneMap[i]] == rebase(fromPoses[i]))
  {
    if n > 0 {
      PosesPlaced(size, toPoses, fromPoses, boneMap, rebase, n - 1);
      var r := Poses(size, toPoses, fromPoses, boneMap, rebase, n);
      var b := boneMap[n - 1];
      assert boneMap[..n] == boneMap[..n - 1] + [b];
      forall k | 0 <= k < size && k !in boneMap[..n]
        ensures k != b && k !in boneMap[..n - 1]
      {
      }
      if forall i, j :: 0 <= i < j < n ==> boneMap[i] != boneMap[j] {
        forall i | 0 <= i < n
          ensures r[boneMap[i]] == rebase(fromPoses[i])
        {
          if i < n - 1 {
            assert boneMap[i] != b;
          }
        }
      }
    }
  }

  /** Unity's `subMeshCount` setter: surplus sub-meshes are dropped, new ones are empty. */
  function Resized(subs: seq<seq<int>>, n: nat): (r: seq<seq<int>>)
    ensures |r| == n && forall s :: 0 <= s < n ==> r[s] == if s < |subs| then subs[s] else []
  {
    seq(n, s requires 0 <= s < n => if s < |subs| then subs[s] else [])
  }

  function Shift(tri: seq<int>, offset: int): (r: seq<int>)
    ensures |r| == |tri| && forall k :: 0 <= k < |tri| ==> r[k] == tri[k] + offset
  {
    seq(|tri|, k requires 0 <= k < |tri| => tri[k] + offset)
  }

  /** Lines 158-165 after the first `n` sub-meshes of `from`: sub-mesh `i` of `from`, shifted
      past `to`'s vertices, goes to sub-mesh `matMap[i]`, after the triangles already there when
      that sub-mesh existed before, in place of them otherwise. */
  function Placed(subs: seq<seq<int>>, fromSubs: seq<seq<int>>, matMap: seq<int>, offset: int, oldCnt: int, n: nat)
    : (r: seq<seq<int>>)
    requires n <= |fromSubs| && n <= |matMap|
    requires forall i :: 0 <= i < |matMap| ==> 0 <= matMap[i] < |subs|
    ensures |r| == |subs|
  {
    if n == 0 then subs
    else
      var r := Placed(subs, fromSubs, matMap, offset, oldCnt, n - 1);
      var s := matMap[n - 1];
      var tri := Shift(fromSubs[n - 1], offset);
      r[s := if s < oldCnt then r[s] + tri else tri]
  }

  /** Sub-meshes no material of `from` maps to keep their triangles. */
  lemma {:induction false} PlacedUntouched(subs: seq<seq<int>>, fromSubs: seq<seq<int>>, matMap: seq<int>, offset: int,
                                           oldCnt: int, n: nat)
    requires n <= |fromSubs| && n <= |matMap|
    requires forall i :: 0 <= i < |matMap| ==> 0 <= matMap[i] < |subs|
    ensures var r := Placed(subs, fromSubs, matMap, offset, oldCnt, n);
      forall s :: 0 <= s < |subs| && s !in matMap[..n] ==> r[s] == subs[s]
  {
    if n > 0 {
      PlacedUntouched(subs, fromSubs, matMap, offset, oldCnt, n - 1);
      assert matMap[..n] == matMap[..n - 1] + [matMap[n - 1]];
    }
  }

  /** A sub-mesh that none of the first `n` materials maps to keeps its triangles. */
  lemma {:induction false} PlacedAt(subs: seq<seq<int>>, fromSubs: seq<seq<int>>, matMap: seq<int>, offset: int,
                                    oldCnt: int, n: nat, t: int)
    requires n <= |fromSubs| && n <= |matMap|
    requires forall i :: 0 <= i < |matMap| ==> 0 <= matMap[i] < |subs|
    requires 0 <= t < |subs| && forall i :: 0 <= i < n ==> matMap[i] != t
    ensures Placed(subs, fromSubs, matMap, offset, oldCnt, n)[t] == subs[t]
  {
    if n > 0 {
      PlacedAt(subs, fromSubs, matMap, offset, oldCnt, n - 1, t);
    }
  }

  /** What sub-mesh `matMap[i]` holds once `from`'s sub-mesh `i` is the only one placed there. */
  function PlacedEntry(subs: seq<seq<int>>, fromSubs: seq<seq<int>>, matMap: seq<int>, offset: int, oldCnt: int, i: nat)
    : seq<int>
    requires i < |fromSubs| && i < |matMap| && 0 <= matMap[i] < |subs|
  {
    (if matMap[i] < oldCnt then subs[matMap[i]] else []) + Shift(fromSubs[i], offset)
  }

  /** With distinct material positions, each mapped sub-mesh holds its old triangles (when it
      existed before) followed by the shifted triangles of the one `from` sub-mesh mapped to it. */
  lemma {:induction false} PlacedDistinct(subs: seq<seq<int>>, fromSubs: seq<seq<int>>, matMap: seq<int>, offset: int,
                                          oldCnt: int, n: nat)
    requires n <= |fromSubs| && n <= |matMap|
    requires forall i :: 0 <= i < |matMap| ==> 0 <= matMap[i] < |subs|
    requires forall i, j :: 0 <= i < j < n ==> matMap[i] != matMap[j]
    ensures var r := Placed(subs, fromSubs, matMap, offset, oldCnt, n);
      forall i :: 0 <= i < n ==> r[matMap[i]] == PlacedEntry(subs, fromSubs, matMap, offset, oldCnt, i)
  {
    if n > 0 {
      PlacedDistinct(subs, fromSubs, matMap, offset, oldCnt, n - 1);
      var s := matMap[n - 1];
      PlacedAt(subs, fromSubs, matMap, offset, oldCnt, n - 1, s);
      var r0 := Placed(subs, fromSubs, matMap, offset, oldCnt, n - 1);
      var r := Placed(subs, fromSubs, matMap, offset, oldCnt, n);
      var add := Shift(fromSubs[n - 1], offset);
      var v := if s < oldCnt then r0[s] + add else add;
      assert r == r0[s := v];
      assert v == PlacedEntry(subs, fromSubs, matMap, offset, oldCnt, n - 1) by {
        if s >= oldCnt {
          assert [] + add == add;
        }
      }
      forall i | 0 <= i < n - 1
        ensures r[matMap[i]] == PlacedEntry(subs, fromSubs, matMap, offset, oldCnt, i)
      {
        assert matMap[i] != s;
      }
    }
  }

  /** Sub-meshes no material of `from` maps to keep their triangles; with distinct material
      positions, each mapped sub-mesh holds its old triangles (when it existed before) followed
      by the shifted triangles of the one `from` sub-mesh mapped to it. */
  lemma PlacedMeaning(subs: seq<seq<int>>, fromSubs: seq<seq<int>>, matMap: seq<int>, offset: int,
                      oldCnt: int, n: nat)
    requires n <= |fromSubs| && n <= |matMap|
    requires forall i :: 0 <= i < |matMap| ==> 0 <= matMap[i] < |subs|
    ensures var r := Placed(subs, fromSubs, matMap, offset, oldCnt, n);
      && (forall s :: 0 <= s < |subs| && s !in matMap[..n] ==> r[s] == subs[s])
      && ((forall i, j :: 0 <= i < j < n ==> matMap[i] != matMap[j]) ==>
            forall i :: 0 <= i < n ==>
              r[matMap[i]] == (if matMap[i] < oldCnt then subs[matMap[i]] else []) + Shift(fromSubs[i], offset))
  {
    PlacedUntouched(subs, fromSubs, matMap, offset, oldCnt, n);
    if forall i, j :: 0 <= i < j < n ==> matMap[i] != matMap[j] {
      PlacedDistinct(subs, fromSubs, matMap, offset, oldCnt, n);
      forall i | 0 <= i < n
        ensures Placed(subs, fromSubs, matMap, offset, oldCnt, n)[matMap[i]] ==
                (if matMap[i] < oldCnt then subs[matMap[i]] else []) + Shift(fromSubs[i], offset)
      {
        assert PlacedEntry(subs, fromSubs, matMap, offset, oldCnt, i) ==
               (if matMap[i] < oldCnt then subs[matMap[i]] else []) + Shift(fromSubs[i], offset);
      }
    }
  }

  /** Lines 99-127: `to`'s channels are read first; assigning the longer vertex list then
      resizes them, and each channel setter stores `to`'s old channel followed by `from`'s, or
      refuses it when its length is not the new vertex count. */
  method AppendVertexData(from: Mesh, to: Mesh, point: Vec3 -> Vec3, vector: Vec3 -> Vec3)
    requires from != to && from.Shaped() && to.Shaped()
    modifies to
    ensures to.vertices == old(to.vertices) + MapPoints(from.vertices, point) && to.Shaped()
    ensures to.normals == Joined(old(to.normals), MapPoints(from.normals, vector), |to.vertices|, Zero3)
    ensures to.tangents == Joined(old(to.tangents), MapTangents(from.tangents, vector), |to.vertices|, Zero4)
    ensures to.uvs == JoinedChannels(old(to.uvs), from.uvs, |to.vertices|)
    ensures to.colors == Joined(old(to.colors), from.colors, |to.vertices|, Zero4)
    ensures to.boneWeights == Resize(old(to.boneWeights), |to.vertices|, ZeroWeight)
    ensures to.bindposes == old(to.bindposes)
    ensures to.subMeshes == old(to.subMeshes) && to.blendShapeCount == old(to.blendShapeCount)
  {
    var normals, tangents, uvs, colors := to.normals, to.tangents, to.uvs, to.colors;
    to.SetVertices(to.vertices + MapPoints(from.vertices, point));
    to.SetNormals(normals + MapPoints(from.normals, vector));
    to.SetTangents(tangents + MapTangents(from.tangents, vector));
    var fromUvs := from.uvs;
    to.SetUvs(seq(UvChannels, k requires 0 <= k < UvChannels => uvs[k] + fromUvs[k]));
    to.SetColors(colors + from.colors);
  }

  /** Lines 128-149: `from`'s bones join `to`'s list without duplicates, `from`'s weights are
      re-pointed at the combined list and stored after `boneWgt`, `to`'s weights read at line
      106, and the bind poses are laid out over the combined list. */
  method AddBones(from: MeshObject, to: MeshObject, boneWgt: seq<BoneWeight>, rebase: Matrix -> Matrix)
    returns (boneMap: seq<int>)
    requires from != to && from.mesh != to.mesh && to.mesh.Shaped()
    requires from.WeightsInRange() && |from.mesh.bindposes| == |from.bones|
    requires |to.mesh.bindposes| == |to.bones|
    modifies to, to.mesh
    ensures boneMap == IndexMap(old(to.bones), from.bones)
    ensures to.bones == Combined(old(to.bones), from.bones)
    ensures to.mesh.boneWeights ==
      Assign(old(to.mesh.boneWeights), boneWgt + RemapWeights(from.mesh.boneWeights, boneMap), |to.mesh.vertices|)
    ensures to.mesh.bindposes == Poses(|to.bones|, old(to.mesh.bindposes), from.mesh.bindposes, boneMap, rebase, |from.bones|)
    ensures to.mesh == old(to.mesh) && to.matLst == old(to.matLst) && to.l2wMtx == old(to.l2wMtx)
    ensures to.mesh.vertices == old(to.mesh.vertices) && to.mesh.normals == old(to.mesh.normals)
    ensures to.mesh.tangents == old(to.mesh.tangents) && to.mesh.uvs == old(to.mesh.uvs)
    ensures to.mesh.colors == old(to.mesh.colors) && to.mesh.subMeshes == old(to.mesh.subMeshes)
    ensures to.mesh.blendShapeCount == old(to.mesh.blendShapeCount) && to.mesh.Shaped()
  {
    var bones, fromBoneIdxes := CombineDistinctArray(to.bones, from.bones);
    var weights := AppendRemapped(boneWgt, from.mesh.boneWeights, fromBoneIdxes);
    var bindposes := LayOutBindposes(|bones|, to.mesh.bindposes, from.mesh.bindposes, fromBoneIdxes, rebase);
    to.bones := bones;
    to.mesh.SetBoneWeights(weights);
    to.mesh.bindposes := bindposes;
    boneMap := fromBoneIdxes;
  }

  /** Lines 134-141: each weight of `from`, its bones re-pointed through `boneMap`, is added
      after `to`'s weights. */
  method AppendRemapped(boneWgt: seq<BoneWeight>, weights: seq<BoneWeight>, boneMap: seq<int>)
    returns (r: seq<BoneWeight>)
    requires forall i :: 0 <= i < |weights| ==> BonesIn(weights[i], |boneMap|)
    ensures r == boneWgt + RemapWeights(weights, boneMap)
  {
    r := boneWgt;
    for i := 0 to |weights|
      invariant r == boneWgt + RemapWeights(weights[..i], boneMap)
    {
      assert weights[..i + 1] == weights[..i] + [weights[i]];
      r := r + [RemapWeight(weights[i], boneMap)];
    }
    assert weights[..|weights|] == weights;
  }

  /** Weights that addressed `to`'s bones still do after `from`'s remapped weights join them,
      now against the combined bone list. */
  lemma WeightsStayInRange(toWeights: seq<BoneWeight>, toBones: seq<int>, fromWeights: seq<BoneWeight>,
                           fromBones: seq<int>)
    requires forall i :: 0 <= i < |toWeights| ==> BonesIn(toWeights[i], |toBones|)
    requires forall i :: 0 <= i < |fromWeights| ==> BonesIn(fromWeights[i], |fromBones|)
    ensures var ws := toWeights + RemapWeights(fromWeights, IndexMap(toBones, fromBones));
      forall i :: 0 <= i < |ws| ==> BonesIn(ws[i], |Combined(toBones, fromBones)|)
  {
    RemappedWeightsSameBones(toBones, fromBones, fromWeights);
    var ws := toWeights + RemapWeights(fromWeights, IndexMap(toBones, fromBones));
    forall i | 0 <= i < |ws|
      ensures BonesIn(ws[i], |Combined(toBones, fromBones)|)
    {
      if i >= |toWeights| {
        assert ws[i] == RemapWeights(fromWeights, IndexMap(toBones, fromBones))[i - |toWeights|];
      }
    }
  }

  /** The weights `addTo` leaves address the combined bone list: `to`'s own weights and
      `from`'s remapped ones when both meshes have weights, and the zero padding (bone 0) when
      only `to` has them, since a weight of `to` names one of `to`'s bones. */
  lemma JoinedWeightsInRange(toWeights: seq<BoneWeight>, toBones: seq<int>, fromWeights: seq<BoneWeight>,
                             fromBones: seq<int>, n0: nat, n1: nat, ws: seq<BoneWeight>, bones: seq<int>)
    requires Fits(|toWeights|, n0) && Fits(|fromWeights|, n1)
    requires forall i :: 0 <= i < |toWeights| ==> BonesIn(toWeights[i], |toBones|)
    requires forall i :: 0 <= i < |fromWeights| ==> BonesIn(fromWeights[i], |fromBones|)
    requires ws == Joined(toWeights, RemapWeights(fromWeights, IndexMap(toBones, fromBones)), n0 + n1, ZeroWeight)
    requires bones == Combined(toBones, fromBones)
    ensures forall i :: 0 <= i < |ws| ==> BonesIn(ws[i], |bones|)
  {
    var remapped := RemapWeights(fromWeights, IndexMap(toBones, fromBones));
    var n := n0 + n1;
    if |toWeights + remapped| == n || |toWeights + remapped| == 0 {
      WeightsStayInRange(toWeights, toBones, fromWeights, fromBones);
    } else if |toWeights| > 0 {
      assert BonesIn(toWeights[0], |toBones|);
      var ws := Resize(toWeights, n, ZeroWeight);
      assert forall i :: 0 <= i < |ws| ==> ws[i] == if i < |toWeights| then toWeights[i] else ZeroWeight;
    }
  }

  /** Writing pose `i` over the zero padding moves the boundary one place on. */
  lemma PadStep(toPoses: seq<Matrix>, size: nat, i: nat)
    requires i < |toPoses| <= size
    ensures (toPoses[..i] + Zeros(size - i))[i := toPoses[i]] == toPoses[..i + 1] + Zeros(size - i - 1)
  {
    var a, b := (toPoses[..i] + Zeros(size - i))[i := toPoses[i]], toPoses[..i + 1] + Zeros(size - i - 1);
    forall k | 0 <= k < size
      ensures a[k] == b[k]
    {
      if k > i {
        assert b[k] == Zeros(size - i - 1)[k - i - 1];
      }
    }
  }

  /** Lines 146-149: a zero-filled array of `size` poses receives `to`'s poses at their own
      index and then each pose of `from`, rebased, at its bone's combined index. */
  method LayOutBindposes(size: nat, toPoses: seq<Matrix>, fromPoses: seq<Matrix>, boneMap: seq<int>,
                         rebase: Matrix -> Matrix) returns (r: seq<Matrix>)
    requires |toPoses| <= size && |boneMap| <= |fromPoses|
    requires forall i :: 0 <= i < |boneMap| ==> 0 <= boneMap[i] < size
    ensures r == Poses(size, toPoses, fromPoses, boneMap, rebase, |boneMap|)
  {
    var bindposes := new Matrix[size](_ => ZeroMatrix);
    assert bindposes[..] == toPoses[..0] + Zeros(size);
    for i := 0 to |toPoses|
      invariant bindposes.Length == size
      invariant bindposes[..] == toPoses[..i] + Zeros(size - i)
    {
      PadStep(toPoses, size, i);
      ghost var before := bindposes[..];
      bindposes[i] := toPoses[i];
      assert bindposes[..] == before[i := toPoses[i]];
    }
    assert toPoses[..|toPoses|] == toPoses;
    for i := 0 to |boneMap|
      invariant bindposes.Length == size
      invariant bindposes[..] == Poses(size, toPoses, fromPoses, boneMap, rebase, i)
    {
      ghost var before := bindposes[..];
      bindposes[boneMap[i]] := rebase(fromPoses[i]);
      assert bindposes[..] == before[boneMap[i] := rebase(fromPoses[i])];
    }
    r := bindposes[..];
  }

  /** Lines 152-165: `from`'s materials join `to`'s list without duplicates; each sub-mesh of
      `from`, its indices moved past `offset`, is appended to the sub-mesh of its material when
      that sub-mesh counted as existing, and replaces it otherwise. */
  method AddSubMeshes(from: MeshObject, to: MeshObject, offset: int) returns (matMap: seq<int>)
    requires from != to && from.mesh != to.mesh
    requires |from.mesh.subMeshes| <= |from.matLst|
    modifies to, to.mesh
    ensures matMap == IndexMap(old(to.matLst), from.matLst)
    ensures to.matLst == Combined(old(to.matLst), from.matLst)
    ensures to.mesh.subMeshes == Placed(Resized(old(to.mesh.subMeshes), |to.matLst|), from.mesh.subMeshes, matMap,
                                        offset, OldSubMeshCount(to.matLst, old(to.mesh.subMeshes), |to.mesh.vertices|),
                                        |from.mesh.subMeshes|)
    ensures to.mesh == old(to.mesh) && to.bones == old(to.bones) && to.l2wMtx == old(to.l2wMtx)
    ensures to.mesh.vertices == old(to.mesh.vertices) && to.mesh.normals == old(to.mesh.normals)
    ensures to.mesh.tangents == old(to.mesh.tangents) && to.mesh.uvs == old(to.mesh.uvs)
    ensures to.mesh.colors == old(to.mesh.colors) && to.mesh.boneWeights == old(to.mesh.boneWeights)
    ensures to.mesh.bindposes == old(to.mesh.bindposes) && to.mesh.blendShapeCount == old(to.mesh.blendShapeCount)
  {
    var matLst, fromMatIdxes := CombineDistinctArray(to.matLst, from.matLst);
    to.matLst := matLst;

    var oldToSubMeshCnt := if to.IsEmpty() then 0 else |to.mesh.subMeshes|;
    var subs := PlaceSubMeshes(Resized(to.mesh.subMeshes, |matLst|), from.mesh.subMeshes, fromMatIdxes,
                               offset, oldToSubMeshCnt);
    to.mesh.subMeshes := subs;
    matMap := fromMatIdxes;
  }

  /** Lines 157-165 over the resized sub-mesh list `subs`. */
  method PlaceSubMeshes(subs: seq<seq<int>>, fromSubs: seq<seq<int>>, matMap: seq<int>, offset: int, oldCnt: int)
    returns (r: seq<seq<int>>)
    requires |fromSubs| <= |matMap|
    requires forall i :: 0 <= i < |matMap| ==> 0 <= matMap[i] < |subs|
    ensures r == Placed(subs, fromSubs, matMap, offset, oldCnt, |fromSubs|)
  {
    r := subs;
    for i := 0 to |fromSubs|
      invariant r == Placed(subs, fromSubs, matMap, offset, oldCnt, i)
    {
      var sbIdx := matMap[i];
      var tri := Shift(fromSubs[i], offset);
      if sbIdx < oldCnt {
        r := r[sbIdx := r[sbIdx] + tri];
      } else {
        r := r[sbIdx := tri];
      }
    }
  }

  /** Every index of every sub-mesh lies in `[lo, hi)`. */
  predicate SubMeshesIn(subs: seq<seq<int>>, lo: int, hi: int)
  {
    forall s, k :: 0 <= s < |subs| && 0 <= k < |subs[s]| ==> lo <= subs[s][k] < hi
  }

  /** Placing sub-meshes whose indices address `count` vertices past `offset` into sub-meshes
      that address the first `offset + count` vertices keeps every index below that bound. */
  lemma {:induction false} PlacedIn(subs: seq<seq<int>>, fromSubs: seq<seq<int>>, matMap: seq<int>, offset: nat,
                                    oldCnt: int, n: nat, count: nat)
    requires n <= |fromSubs| && n <= |matMap|
    requires forall i :: 0 <= i < |matMap| ==> 0 <= matMap[i] < |subs|
    requires SubMeshesIn(subs, 0, offset + count) && SubMeshesIn(fromSubs, 0, count)
    ensures SubMeshesIn(Placed(subs, fromSubs, matMap, offset, oldCnt, n), 0, offset + count)
  {
    if n > 0 {
      PlacedIn(subs, fromSubs, matMap, offset, oldCnt, n - 1, count);
      var r := Placed(subs, fromSubs, matMap, offset, oldCnt, n - 1);
      var tri := Shift(fromSubs[n - 1], offset);
      assert forall k :: 0 <= k < |tri| ==> 0 <= tri[k] < offset + count by {
        forall k | 0 <= k < |tri|
          ensures 0 <= tri[k] < offset + count
        {
          assert 0 <= fromSubs[n - 1][k] < count;
        }
      }
      var s := matMap[n - 1];
      assert r[s] + tri == Placed(subs, fromSubs, matMap, offset, oldCnt, n)[s] || tri == Placed(subs, fromSubs, matMap, offset, oldCnt, n)[s];
    }
  }

  /** Lines 93-168: combines `from` into `to`. Fails without changes when either side is not
      valid, succeeds without changes when `from` is empty, and otherwise leaves `to` valid. */
  method AddTo(from: MeshObject, to: MeshObject, point: Vec3 -> Vec3, vector: Vec3 -> Vec3, rebase: Matrix -> Matrix)
    returns (ok: bool)
    requires from != to && from.mesh != to.mesh
    requires from.mesh.Shaped() && to.mesh.Shaped() && from.WeightsInRange()
    modifies to, to.mesh
    ensures ok <==> old(from.Validate() && to.Validate())
    ensures !ok || old(from.IsEmpty()) ==> unchanged(to) && unchanged(to.mesh)
    ensures ok ==> to.Validate() && to.mesh == old(to.mesh) && to.l2wMtx == old(to.l2wMtx) && to.mesh.Shaped()
    ensures ok && old(to.WeightsInRange()) ==> to.WeightsInRange()
    ensures ok && old(to.IndicesValid()) && from.IndicesValid() ==> to.IndicesValid()
    ensures ok && !old(from.IsEmpty()) ==>
      && to.mesh.vertices == old(to.mesh.vertices) + MapPoints(from.mesh.vertices, point)
      && to.mesh.normals == Joined(old(to.mesh.normals), MapPoints(from.mesh.normals, vector), |to.mesh.vertices|, Zero3)
      && to.mesh.tangents == Joined(old(to.mesh.tangents), MapTangents(from.mesh.tangents, vector), |to.mesh.vertices|, Zero4)
      && to.mesh.uvs == JoinedChannels(old(to.mesh.uvs), from.mesh.uvs, |to.mesh.vertices|)
      && to.mesh.colors == Joined(old(to.mesh.colors), from.mesh.colors, |to.mesh.vertices|, Zero4)
      && to.bones == Combined(old(to.bones), from.bones)
      && to.matLst == Combined(old(to.matLst), from.matLst)
      && to.mesh.blendShapeCount == old(to.mesh.blendShapeCount)
    ensures ok && !old(from.IsEmpty()) ==>
      var boneMap := IndexMap(old(to.bones), from.bones);
      var matMap := IndexMap(old(to.matLst), from.matLst);
      && to.mesh.boneWeights ==
           Joined(old(to.mesh.boneWeights), RemapWeights(from.mesh.boneWeights, boneMap), |to.mesh.vertices|, ZeroWeight)
      && to.mesh.bindposes == Poses(|to.bones|, old(to.mesh.bindposes), from.mesh.bindposes, boneMap, rebase, |from.bones|)
      && to.mesh.subMeshes == Placed(Resized(old(to.mesh.subMeshes), |to.matLst|), from.mesh.subMeshes, matMap,
                                     |old(to.mesh.vertices)|,
                                     OldSubMeshCount(to.matLst, old(to.mesh.subMeshes), |to.mesh.vertices|),
                                     |from.mesh.subMeshes|)
  {
    if !from.Validate() || !to.Validate() {
      return false;
    }
    if from.IsEmpty() {
      return true;
    }
    ghost var toBones, toMats, toSubs, toWeights := to.bones, to.matLst, to.mesh.subMeshes, to.mesh.boneWeights;
    ghost var toVertCnt := |to.mesh.vertices|;
    ghost var inRange, valid := to.WeightsInRange(), to.IndicesValid();
    Merge(from, to, point, vector, rebase);
    if inRange {
      JoinedWeightsInRange(toWeights, toBones, from.mesh.boneWeights, from.bones, toVertCnt, |from.mesh.vertices|,
                           to.mesh.boneWeights, to.bones);
    }
    if valid && from.IndicesValid() {
      PlacedIn(Resized(toSubs, |to.matLst|), from.mesh.subMeshes, IndexMap(toMats, from.matLst), toVertCnt,
               OldSubMeshCount(to.matLst, toSubs, |to.mesh.vertices|), |from.mesh.subMeshes|, |from.mesh.vertices|);
    }
    return true;
  }

  /** Lines 99-165, once both sides are valid and `from` is not empty. */
  method Merge(from: MeshObject, to: MeshObject, point: Vec3 -> Vec3, vector: Vec3 -> Vec3, rebase: Matrix -> Matrix)
    requires from != to && from.mesh != to.mesh
    requires from.mesh.Shaped() && to.mesh.Shaped() && from.WeightsInRange()
    requires from.Validate() && to.Validate() && !from.IsEmpty()
    modifies to, to.mesh
    ensures to.Validate() && to.mesh == old(to.mesh) && to.l2wMtx == old(to.l2wMtx) && to.mesh.Shaped()
    ensures to.mesh.vertices == old(to.mesh.vertices) + MapPoints(from.mesh.vertices, point)
    ensures to.mesh.normals == Joined(old(to.mesh.normals), MapPoints(from.mesh.normals, vector), |to.mesh.vertices|, Zero3)
    ensures to.mesh.tangents == Joined(old(to.mesh.tangents), MapTangents(from.mesh.tangents, vector), |to.mesh.vertices|, Zero4)
    ensures to.mesh.uvs == JoinedChannels(old(to.mesh.uvs), from.mesh.uvs, |to.mesh.vertices|)
    ensures to.mesh.colors == Joined(old(to.mesh.colors), from.mesh.colors, |to.mesh.vertices|, Zero4)
    ensures to.bones == Combined(old(to.bones), from.bones)
    ensures to.matLst == Combined(old(to.matLst), from.matLst)
    ensures to.mesh.blendShapeCount == old(to.mesh.blendShapeCount)
    ensures to.mesh.boneWeights ==
      Joined(old(to.mesh.boneWeights), RemapWeights(from.mesh.boneWeights, IndexMap(old(to.bones), from.bones)),
             |to.mesh.vertices|, ZeroWeight)
    ensures to.mesh.bindposes ==
      Poses(|to.bones|, old(to.mesh.bindposes), from.mesh.bindposes, IndexMap(old(to.bones), from.bones), rebase, |from.bones|)
    ensures to.mesh.subMeshes == Placed(Resized(old(to.mesh.subMeshes), |to.matLst|), from.mesh.subMeshes,
                                        IndexMap(old(to.matLst), from.matLst), |old(to.mesh.vertices)|,
                                        OldSubMeshCount(to.matLst, old(to.mesh.subMeshes), |to.mesh.vertices|),
                                        |from.mesh.subMeshes|)
  {
    var boneWgt := to.mesh.boneWeights;
    var oldToVertCnt := |to.mesh.vertices|;
    AppendVertexData(from.mesh, to.mesh, point, vector);
    var boneMap := AddBones(from, to, boneWgt, rebase);
    assert to.mesh.boneWeights == Joined(boneWgt, RemapWeights(from.mesh.boneWeights, boneMap), |to.mesh.vertices|, ZeroWeight);
    var matMap := AddSubMeshes(from, to, oldToVertCnt);
  }

  /** Line 156: `to.isEmpty` is read after the vertices and materials were replaced, so it holds
      only when the combined materials and vertices are both empty and `to` had one sub-mesh. */
  function OldSubMeshCount(mats: seq<int>, toSubs: seq<seq<int>>, vertexCount: int): int
  {
    if |mats| == 0 && |toSubs| == 1 && vertexCount == 0 then 0 else |toSubs|
  }
}
