/** The half-edge structure built by `Topology` (IzFbxTools/Editor/Topology.cs).
    Object references become indices into the class's lists and `NoRef` stands for null.
    The ghost `keys` record the ordered vertex pair each half-edge was created for, and the
    ghost `rings` record, per vertex, the order in which its `left` ring visits its edges. */
module Topology {
  import opened Geom
  import opened Wrappers

  const NoRef: int := -1

  /** `Topology.Vertex`: `samePos` is the index of its cluster in `clusters`, or `NoRef`. */
  datatype Vertex = Vertex(index: int, pos: Vec3, n: Vec3, edge: int, samePos: int)

  /** `Topology.HalfEdge`: origin vertex and the linked half-edges and face, as indices. */
  datatype HalfEdge = HalfEdge(vertex: int, pair: int, next: int, prev: int, left: int, face: int)

  /** `Topology.Face`: one of its half-edges and the mean of its corners (the normal is not modelled). */
  datatype Face = Face(edge: int, center: Vec3)

  /** The ordered vertex-index pair a half-edge is created for; the source packs it into a 64-bit
      key, which is injective on pairs of non-negative 32-bit indices. */
  type Key = (int, int)

  function Reverse(k: Key): Key { (k.1, k.0) }

  /** The edge a new half-edge with key `k` is paired with: the one created for the reverse pair. */
  function PairOf(id2edge: map<Key, int>, k: Key): int
  {
    if Reverse(k) in id2edge then id2edge[Reverse(k)] else NoRef
  }

  /** Whether `k` is one of the three directed pairs of triangle `u` of a flat index list. */
  predicate InTriangle(tris: seq<int>, u: nat, k: Key)
    requires 3 * u + 2 < |tris|
  {
    k == (tris[3 * u], tris[3 * u + 1]) || k == (tris[3 * u + 1], tris[3 * u + 2]) || k == (tris[3 * u + 2], tris[3 * u])
  }

  /** Whether `k` is a directed pair of one of the first `n` triangles. */
  predicate InTris(tris: seq<int>, n: nat, k: Key)
    requires 3 * n <= |tris|
  {
    n > 0 && (InTris(tris, n - 1, k) || InTriangle(tris, n - 1, k))
  }

  /** No directed edge is used twice by the first `n` triangles (a consistently oriented manifold). */
  predicate DistinctDirected(tris: seq<int>, n: nat)
    requires 3 * n <= |tris|
  {
    n == 0 ||
    (var t := n - 1;
     var a, b, c := tris[3 * t], tris[3 * t + 1], tris[3 * t + 2];
     && DistinctDirected(tris, n - 1)
     && (a, b) != (b, c) && (b, c) != (c, a) && (c, a) != (a, b)
     && !InTris(tris, n - 1, (a, b)) && !InTris(tris, n - 1, (b, c)) && !InTris(tris, n - 1, (c, a)))
  }

  /** `id2edge` and `keys` are inverse to each other: each directed pair names exactly one edge. */
  ghost predicate KeysOk(nVerts: int, edges: seq<HalfEdge>, id2edge: map<Key, int>, keys: seq<Key>)
  {
    && |keys| == |edges|
    && (forall e :: 0 <= e < |keys| ==>
          keys[e] in id2edge && id2edge[keys[e]] == e && 0 <= keys[e].0 < nVerts && 0 <= keys[e].1 < nVerts)
    && (forall k :: k in id2edge ==> 0 <= id2edge[k] < |keys| && keys[id2edge[k]] == k)
  }

  /** Each edge is paired with the edge of the reverse key, or with null when there is none. */
  ghost predicate PairsOk(edges: seq<HalfEdge>, id2edge: map<Key, int>, keys: seq<Key>)
    requires |keys| == |edges|
  {
    forall e {:trigger edges[e]} :: 0 <= e < |edges| ==> edges[e].pair == PairOf(id2edge, keys[e])
  }

  /** The ring successor of position `i`. */
  function Succ(ring: seq<int>, i: int): int
    requires 0 <= i < |ring|
  {
    if i + 1 < |ring| then ring[i + 1] else ring[0]
  }

  /** The facts `getEdge` maintains: keys, pairing and the `left` rings. */
  ghost predicate IndexedOf(verts: seq<Vertex>, edges: seq<HalfEdge>, id2edge: map<Key, int>, keys: seq<Key>,
                            rings: seq<seq<int>>)
  {
    && KeysOk(|verts|, edges, id2edge, keys)
    && PairsOk(edges, id2edge, keys)
    && RingsOk(verts, edges, keys, rings)
  }

  /** `ring` lists every edge leaving `v` exactly once, starts at `v.edge`, and `left` steps
      through it in order and back to the start. */
  ghost predicate RingOk(v: int, ring: seq<int>, verts: seq<Vertex>, edges: seq<HalfEdge>, keys: seq<Key>)
    requires 0 <= v < |verts| && |keys| == |edges|
  {
    && (forall i :: 0 <= i < |ring| ==> 0 <= ring[i] < |edges| && keys[ring[i]].0 == v)
    && (forall e :: 0 <= e < |edges| && keys[e].0 == v ==> e in ring)
    && (forall i, j :: 0 <= i < j < |ring| ==> ring[i] != ring[j])
    && verts[v].edge == (if ring == [] then NoRef else ring[0])
    && (forall i {:trigger edges[ring[i]]} :: 0 <= i < |ring| ==> edges[ring[i]].left == Succ(ring, i))
  }

  ghost predicate RingsOk(verts: seq<Vertex>, edges: seq<HalfEdge>, keys: seq<Key>, rings: seq<seq<int>>)
  {
    && |rings| == |verts| && |keys| == |edges|
    && forall v :: 0 <= v < |verts| ==> RingOk(v, rings[v], verts, edges, keys)
  }

  /** Where a new edge goes in its origin's ring: right after `vertex.edge`. */
  function Spliced(ring: seq<int>, e: int): (r: seq<int>)
    ensures |r| == |ring| + 1 && e in r
    ensures forall x :: x in ring ==> x in r
  {
    if ring == [] then [e] else [ring[0], e] + ring[1..]
  }

  /** The fields the triangle loop sets, as opposed to `pair` and `left`, which `getEdge` sets. */
  predicate SameWiring(a: HalfEdge, b: HalfEdge)
  {
    a.vertex == b.vertex && a.next == b.next && a.prev == b.prev && a.face == b.face
  }

  /** The fields `getEdge` sets: `pair` and `left`. */
  predicate SameLinks(a: HalfEdge, b: HalfEdge)
  {
    a.pair == b.pair && a.left == b.left
  }

  /** A vertex differs from another only in its `edge`. */
  predicate SameVertexData(a: Vertex, b: Vertex)
  {
    a.index == b.index && a.pos == b.pos && a.n == b.n && a.samePos == b.samePos
  }

  /** `(v0.pos + v1.pos + v2.pos) / 3`. */
  function Centroid(a: Vec3, b: Vec3, c: Vec3): Vec3
  {
    var s := Add3(Add3(a, b), c);
    Vec3(s.x / 3.0, s.y / 3.0, s.z / 3.0)
  }

  /** Edge `e` has been wired by a triangle: its origin is set, `next` continues from its end,
      `prev` arrives at its start, and its face exists. */
  ghost predicate EdgeWired(e: int, edges: seq<HalfEdge>, nFaces: int, keys: seq<Key>)
    requires 0 <= e < |edges| == |keys|
  {
    && edges[e].vertex == keys[e].0
    && 0 <= edges[e].next < |edges| && keys[edges[e].next].0 == keys[e].1
    && 0 <= edges[e].prev < |edges| && keys[edges[e].prev].1 == keys[e].0
    && 0 <= edges[e].face < nFaces
  }

  /** Every edge and face has been wired. */
  ghost predicate AllWired(edges: seq<HalfEdge>, faces: seq<Face>, keys: seq<Key>)
  {
    && |keys| == |edges|
    && (forall e :: 0 <= e < |edges| ==> EdgeWired(e, edges, |faces|, keys))
    && (forall f :: 0 <= f < |faces| ==> 0 <= faces[f].edge < |edges|)
  }

  /** The back-references the constructor validates hold at edge `e`: `next` and `prev` are inverse,
      `next` runs round a 3-cycle, and the cycle shares one face. */
  predicate EdgeLinked(e: int, edges: seq<HalfEdge>)
    requires 0 <= e < |edges|
  {
    var n := edges[e].next;
    var p := edges[e].prev;
    && 0 <= n < |edges| && 0 <= p < |edges|
    && edges[n].prev == e && edges[p].next == e
    && 0 <= edges[n].next < |edges| && edges[edges[n].next].next == e
    && edges[n].face == edges[e].face
  }

  /** Every edge is linked, and every face's edge lies on that face. */
  predicate Linked(edges: seq<HalfEdge>, faces: seq<Face>)
  {
    && (forall e :: 0 <= e < |edges| ==> EdgeLinked(e, edges))
    && (forall f :: 0 <= f < |faces| ==> 0 <= faces[f].edge < |edges| && edges[faces[f].edge].face == f)
  }

  /** The sub-meshes' index lists, one after another. */
  function Concat(lists: seq<seq<int>>): seq<int>
  {
    if lists == [] then [] else Concat(lists[..|lists| - 1]) + lists[|lists| - 1]
  }

  /** The concatenation keeps the length a multiple of three and every index in range. */
  lemma {:induction false} ConcatFacts(lists: seq<seq<int>>, nVerts: int)
    requires forall s :: 0 <= s < |lists| ==> |lists[s]| % 3 == 0
    requires forall s, k :: 0 <= s < |lists| && 0 <= k < |lists[s]| ==> 0 <= lists[s][k] < nVerts
    ensures |Concat(lists)| % 3 == 0
    ensures forall k :: 0 <= k < |Concat(lists)| ==> 0 <= Concat(lists)[k] < nVerts
  {
    if lists != [] {
      var init := lists[..|lists| - 1];
      ConcatFacts(init, nVerts);
      var last := lists[|lists| - 1];
      forall k | 0 <= k < |Concat(lists)|
        ensures 0 <= Concat(lists)[k] < nVerts
      {
        if k >= |Concat(init)| {
          assert Concat(lists)[k] == last[k - |Concat(init)|];
        }
      }
    }
  }

  /** Lines 52-54: `srcTri.AddRange(srcMesh.GetTriangles(i))` for every sub-mesh. */
  method ConcatTriangles(subMeshes: seq<seq<int>>) returns (tris: seq<int>)
    ensures tris == Concat(subMeshes)
  {
    tris := [];
    for i := 0 to |subMeshes|
      invariant tris == Concat(subMeshes[..i])
    {
      assert subMeshes[..i + 1][..i] == subMeshes[..i];
      tris := tris + subMeshes[i];
    }
    assert subMeshes[..|subMeshes|] == subMeshes;
  }

  /** Face `f` was recorded for triangle `u`: its edge is the one of the triangle's first
      directed pair, and its center the mean of the triangle's corners. */
  predicate FaceRecorded(tris: seq<int>, u: nat, positions: seq<Vec3>, id2edge: map<Key, int>, f: Face)
    requires 3 * u + 2 < |tris| && forall k :: 0 <= k < |tris| ==> 0 <= tris[k] < |positions|
  {
    var a, b, c := tris[3 * u], tris[3 * u + 1], tris[3 * u + 2];
    (a, b) in id2edge && f == Face(id2edge[(a, b)], Centroid(positions[a], positions[b], positions[c]))
  }

  /** Triangle `t` of a mesh that uses no directed edge twice is fresh when it is added. */
  lemma DistinctStep(tris: seq<int>, t: nat, id2edge: map<Key, int>)
    requires 3 * t + 3 <= |tris| && forall k :: k in id2edge <==> InTris(tris, t, k)
    ensures DistinctDirected(tris, t + 1) ==>
      DistinctDirected(tris, t) && FreshTriangle(id2edge, tris[3 * t], tris[3 * t + 1], tris[3 * t + 2])
  {
  }

  /** Adding triangle `t` extends the dictionary by exactly its directed pairs, and the faces
      recorded so far keep their edges and centroids. */
  lemma TriangleLoopStep(tris: seq<int>, t: nat, i0: int, i1: int, i2: int, positions: seq<Vec3>,
                         map0: map<Key, int>, map1: map<Key, int>, faces0: seq<Face>, faces1: seq<Face>)
    requires 3 * t + 3 <= |tris| && forall k :: 0 <= k < |tris| ==> 0 <= tris[k] < |positions|
    requires i0 == tris[3 * t] && i1 == tris[3 * t + 1] && i2 == tris[3 * t + 2]
    requires forall k :: k in map0 <==> InTris(tris, t, k)
    requires |faces0| == t && forall u :: 0 <= u < t ==> FaceRecorded(tris, u, positions, map0, faces0[u])
    requires forall k :: k in map1 <==> k in map0 || k == (i0, i1) || k == (i1, i2) || k == (i2, i0)
    requires forall k :: k in map0 ==> map1[k] == map0[k]
    requires faces1 == faces0 + [Face(map1[(i0, i1)], Centroid(positions[i0], positions[i1], positions[i2]))]
    ensures forall k :: k in map1 <==> InTris(tris, t + 1, k)
    ensures forall u :: 0 <= u < t + 1 ==> FaceRecorded(tris, u, positions, map1, faces1[u])
  {
    forall u | 0 <= u < t + 1
      ensures FaceRecorded(tris, u, positions, map1, faces1[u])
    {
      if u < t {
        assert faces1[u] == faces0[u];
        assert FaceRecorded(tris, u, positions, map0, faces0[u]);
      }
    }
  }

  /** A structure with no edges yet, and no vertex pointing to one, satisfies every index fact. */
  lemma EmptyIndexed(verts: seq<Vertex>, rings: seq<seq<int>>)
    requires forall v :: 0 <= v < |verts| ==> verts[v].edge == NoRef
    requires |rings| == |verts| && forall v :: 0 <= v < |rings| ==> rings[v] == []
    ensures KeysOk(|verts|, [], map[], []) && PairsOk([], map[], []) && RingsOk(verts, [], [], rings)
    ensures AllWired([], [], [])
  {
    forall v | 0 <= v < |verts|
      ensures RingOk(v, rings[v], verts, [], [])
    {
    }
  }

  /** What the validation at lines 91-98 logs: which check failed, and on which vertex, edge or
      face (the source's message names only a vertex's index). */
  datatype Issue = VertexIssue(v: int) | PairIssue(e: int) | NextIssue(e: int) | PrevIssue(e: int) | FaceIssue(f: int)

  /** The validation's outcome: the issues logged, or the `NullReferenceException` of line 92 at
      the first vertex whose `edge` is null, after the issues logged before it. */
  datatype Validation = Logged(issues: seq<Issue>) | NullEdge(v: int, issues: seq<Issue>)

  /** Every reference the validation follows is null or in range (`next`, `prev` and a face's
      `edge` are never null). */
  predicate RefsInRange(verts: seq<Vertex>, edges: seq<HalfEdge>, faces: seq<Face>)
  {
    && (forall v :: 0 <= v < |verts| ==> verts[v].edge == NoRef || 0 <= verts[v].edge < |edges|)
    && (forall e :: 0 <= e < |edges| ==>
          && (edges[e].pair == NoRef || 0 <= edges[e].pair < |edges|)
          && 0 <= edges[e].next < |edges| && 0 <= edges[e].prev < |edges|)
    && (forall f :: 0 <= f < |faces| ==> 0 <= faces[f].edge < |edges|)
  }

  /** Line 92 over the first `n` vertices. */
  function VertexChecks(verts: seq<Vertex>, edges: seq<HalfEdge>, faces: seq<Face>, n: nat): Validation
    requires n <= |verts| && RefsInRange(verts, edges, faces)
  {
    if n == 0 then Logged([])
    else
      var r := VertexChecks(verts, edges, faces, n - 1);
      var v := n - 1;
      if r.NullEdge? then r
      else if verts[v].edge == NoRef then NullEdge(v, r.issues)
      else if edges[verts[v].edge].vertex != v then Logged(r.issues + [VertexIssue(v)])
      else r
  }

  /** Lines 94-96 at edge `e`, in the source's order. */
  function EdgeIssuesAt(edges: seq<HalfEdge>, e: int): seq<Issue>
    requires 0 <= e < |edges|
    requires edges[e].pair == NoRef || 0 <= edges[e].pair < |edges|
    requires 0 <= edges[e].next < |edges| && 0 <= edges[e].prev < |edges|
  {
    var x := edges[e];
    (if x.pair != NoRef && edges[x.pair].pair != e then [PairIssue(e)] else [])
    + (if edges[x.next].prev != e then [NextIssue(e)] else [])
    + (if edges[x.prev].next != e then [PrevIssue(e)] else [])
  }

  /** Lines 93-97 over the first `n` edges. */
  function EdgeIssues(verts: seq<Vertex>, edges: seq<HalfEdge>, faces: seq<Face>, n: nat): seq<Issue>
    requires n <= |edges| && RefsInRange(verts, edges, faces)
  {
    if n == 0 then [] else EdgeIssues(verts, edges, faces, n - 1) + EdgeIssuesAt(edges, n - 1)
  }

  /** Line 98 over the first `n` faces. */
  function FaceIssues(verts: seq<Vertex>, edges: seq<HalfEdge>, faces: seq<Face>, n: nat): seq<Issue>
    requires n <= |faces| && RefsInRange(verts, edges, faces)
  {
    if n == 0 then []
    else FaceIssues(verts, edges, faces, n - 1) + (if edges[faces[n - 1].edge].face != n - 1 then [FaceIssue(n - 1)] else [])
  }

  /** Lines 91-98: the vertex checks, then, unless one threw, the edge and face checks. */
  function ValidationOf(verts: seq<Vertex>, edges: seq<HalfEdge>, faces: seq<Face>): Validation
    requires RefsInRange(verts, edges, faces)
  {
    match VertexChecks(verts, edges, faces, |verts|)
    case NullEdge(v, issues) => NullEdge(v, issues)
    case Logged(issues) =>
      Logged(issues + EdgeIssues(verts, edges, faces, |edges|) + FaceIssues(verts, edges, faces, |faces|))
  }

  /** The vertex checks throw exactly when some vertex has a null `edge`, and then at the first. */
  lemma {:induction false} VertexChecksThrow(verts: seq<Vertex>, edges: seq<HalfEdge>, faces: seq<Face>, n: nat)
    requires n <= |verts| && RefsInRange(verts, edges, faces)
    ensures VertexChecks(verts, edges, faces, n).NullEdge? <==> exists v :: 0 <= v < n && verts[v].edge == NoRef
    ensures VertexChecks(verts, edges, faces, n).NullEdge? ==>
      var v := VertexChecks(verts, edges, faces, n).v;
      0 <= v < n && verts[v].edge == NoRef && forall u :: 0 <= u < v ==> verts[u].edge != NoRef
  {
    if n > 0 {
      VertexChecksThrow(verts, edges, faces, n - 1);
    }
  }

  /** Once the vertex checks have thrown, later vertices change nothing. */
  lemma {:induction false} VertexChecksStop(verts: seq<Vertex>, edges: seq<HalfEdge>, faces: seq<Face>, n: nat, m: nat)
    requires n <= m <= |verts| && RefsInRange(verts, edges, faces)
    requires VertexChecks(verts, edges, faces, n).NullEdge?
    ensures VertexChecks(verts, edges, faces, m) == VertexChecks(verts, edges, faces, n)
  {
    if m > n {
      VertexChecksStop(verts, edges, faces, n, m - 1);
    }
  }

  /** On a structure whose vertex `edge`s start their own rings and whose edges are wired, the vertex
      checks log nothing. */
  lemma {:induction false} NoVertexIssues(verts: seq<Vertex>, edges: seq<HalfEdge>, faces: seq<Face>, keys: seq<Key>,
                                          rings: seq<seq<int>>, n: nat)
    requires n <= |verts| && RefsInRange(verts, edges, faces)
    requires RingsOk(verts, edges, keys, rings) && AllWired(edges, faces, keys)
    ensures VertexChecks(verts, edges, faces, n).issues == []
  {
    if n > 0 {
      NoVertexIssues(verts, edges, faces, keys, rings, n - 1);
      RingHead(n - 1, verts, edges, keys, rings);
      assert RingOk(n - 1, rings[n - 1], verts, edges, keys);
      if verts[n - 1].edge != NoRef {
        assert EdgeWired(verts[n - 1].edge, edges, |faces|, keys);
      }
    }
  }

  /** Pairing through the dictionary is symmetric, so the pair check of line 94 never fires. */
  lemma {:induction false} NoPairIssues(verts: seq<Vertex>, edges: seq<HalfEdge>, faces: seq<Face>, id2edge: map<Key, int>,
                                        keys: seq<Key>, n: nat)
    requires n <= |edges| && RefsInRange(verts, edges, faces)
    requires KeysOk(|verts|, edges, id2edge, keys) && PairsOk(edges, id2edge, keys)
    ensures forall i :: 0 <= i < |EdgeIssues(verts, edges, faces, n)| ==>
      EdgeIssues(verts, edges, faces, n)[i].NextIssue? || EdgeIssues(verts, edges, faces, n)[i].PrevIssue?
  {
    if n > 0 {
      NoPairIssues(verts, edges, faces, id2edge, keys, n - 1);
      var e := n - 1;
      var p := edges[e].pair;
      if p != NoRef {
        assert keys[p] == Reverse(keys[e]);
        assert edges[p].pair == e;
      }
      var x := edges[e];
      var at := EdgeIssuesAt(edges, e);
      assert at ==
        (if edges[x.next].prev != e then [NextIssue(e)] else []) + (if edges[x.prev].next != e then [PrevIssue(e)] else []);
      var s0, s1 := EdgeIssues(verts, edges, faces, n - 1), EdgeIssues(verts, edges, faces, n);
      assert s1 == s0 + at;
      forall i | 0 <= i < |s1|
        ensures s1[i].NextIssue? || s1[i].PrevIssue?
      {
        if i < |s0| {
          assert s1[i] == s0[i];
        } else {
          assert s1[i] == at[i - |s0|];
        }
      }
    }
  }

  /** The face checks log only face issues. */
  lemma {:induction false} FaceIssuesOnly(verts: seq<Vertex>, edges: seq<HalfEdge>, faces: seq<Face>, n: nat)
    requires n <= |faces| && RefsInRange(verts, edges, faces)
    ensures forall i :: 0 <= i < |FaceIssues(verts, edges, faces, n)| ==> FaceIssues(verts, edges, faces, n)[i].FaceIssue?
  {
    if n > 0 {
      FaceIssuesOnly(verts, edges, faces, n - 1);
      var s0, s1 := FaceIssues(verts, edges, faces, n - 1), FaceIssues(verts, edges, faces, n);
      assert s1 == s0 + (if edges[faces[n - 1].edge].face != n - 1 then [FaceIssue(n - 1)] else []);
      forall i | 0 <= i < |s1|
        ensures s1[i].FaceIssue?
      {
        if i < |s0| {
          assert s1[i] == s0[i];
        }
      }
    }
  }

  /** A linked structure passes the edge checks. */
  lemma {:induction false} LinkedEdgesPass(verts: seq<Vertex>, edges: seq<HalfEdge>, faces: seq<Face>, id2edge: map<Key, int>,
                                           keys: seq<Key>, n: nat)
    requires n <= |edges| && RefsInRange(verts, edges, faces)
    requires KeysOk(|verts|, edges, id2edge, keys) && PairsOk(edges, id2edge, keys) && Linked(edges, faces)
    ensures EdgeIssues(verts, edges, faces, n) == []
  {
    if n > 0 {
      LinkedEdgesPass(verts, edges, faces, id2edge, keys, n - 1);
      var e := n - 1;
      assert EdgeLinked(e, edges);
      var p := edges[e].pair;
      if p != NoRef {
        assert keys[p] == Reverse(keys[e]);
      }
    }
  }

  /** A linked structure passes the face checks. */
  lemma {:induction false} LinkedFacesPass(verts: seq<Vertex>, edges: seq<HalfEdge>, faces: seq<Face>, n: nat)
    requires n <= |faces| && RefsInRange(verts, edges, faces) && Linked(edges, faces)
    ensures FaceIssues(verts, edges, faces, n) == []
  {
    if n > 0 {
      LinkedFacesPass(verts, edges, faces, n - 1);
    }
  }

  /** The index facts and the wiring put every reference in range. */
  lemma IndexedRefs(verts: seq<Vertex>, edges: seq<HalfEdge>, faces: seq<Face>, id2edge: map<Key, int>,
                    keys: seq<Key>, rings: seq<seq<int>>)
    requires KeysOk(|verts|, edges, id2edge, keys) && PairsOk(edges, id2edge, keys)
    requires RingsOk(verts, edges, keys, rings) && AllWired(edges, faces, keys)
    ensures RefsInRange(verts, edges, faces)
  {
    forall v | 0 <= v < |verts|
      ensures verts[v].edge == NoRef || 0 <= verts[v].edge < |edges|
    {
      RingHead(v, verts, edges, keys, rings);
    }
    forall e | 0 <= e < |edges|
      ensures edges[e].pair == NoRef || 0 <= edges[e].pair < |edges|
      ensures 0 <= edges[e].next < |edges| && 0 <= edges[e].prev < |edges|
    {
      assert EdgeWired(e, edges, |faces|, keys);
    }
  }

  /** On the structure `getEdge` and the triangle loop build, the vertex and pair checks never log,
      the vertex checks throw exactly when some vertex has no edge, and a linked structure logs
      nothing at all. */
  lemma ValidationFacts(verts: seq<Vertex>, edges: seq<HalfEdge>, faces: seq<Face>, id2edge: map<Key, int>,
                        keys: seq<Key>, rings: seq<seq<int>>)
    requires KeysOk(|verts|, edges, id2edge, keys) && PairsOk(edges, id2edge, keys)
    requires RingsOk(verts, edges, keys, rings) && AllWired(edges, faces, keys)
    ensures RefsInRange(verts, edges, faces)
    ensures ValidationOf(verts, edges, faces).NullEdge? <==> exists v :: 0 <= v < |verts| && verts[v].edge == NoRef
    ensures var issues := ValidationOf(verts, edges, faces).issues;
      forall i :: 0 <= i < |issues| ==> !issues[i].VertexIssue? && !issues[i].PairIssue?
    ensures Linked(edges, faces) ==> ValidationOf(verts, edges, faces).issues == []
  {
    IndexedRefs(verts, edges, faces, id2edge, keys, rings);
    VertexChecksThrow(verts, edges, faces, |verts|);
    NoVertexIssues(verts, edges, faces, keys, rings, |verts|);
    NoPairIssues(verts, edges, faces, id2edge, keys, |edges|);
    FaceIssuesOnly(verts, edges, faces, |faces|);
    if Linked(edges, faces) {
      LinkedEdgesPass(verts, edges, faces, id2edge, keys, |edges|);
      LinkedFacesPass(verts, edges, faces, |faces|);
    }
  }

  /** The first vertex of every directed pair of the first `n` triangles is used by a triangle. */
  lemma {:induction false} InTrisUsed(tris: seq<int>, n: nat, k: Key)
    requires 3 * n <= |tris| && InTris(tris, n, k)
    ensures k.0 in tris
  {
    if !InTriangle(tris, n - 1, k) {
      InTrisUsed(tris, n - 1, k);
    }
  }

  /** Every corner of the first `n` triangles starts one of their directed pairs. */
  lemma {:induction false} UsedInTris(tris: seq<int>, n: nat, i: int)
    requires 0 <= i < 3 * n <= |tris|
    ensures InTris(tris, n, (tris[i], if i % 3 == 2 then tris[i - 2] else tris[i + 1]))
  {
    if i < 3 * (n - 1) {
      UsedInTris(tris, n - 1, i);
    }
  }

  /** A vertex has an edge exactly when some triangle uses it. */
  lemma VertexUsed(verts: seq<Vertex>, edges: seq<HalfEdge>, id2edge: map<Key, int>, keys: seq<Key>,
                   rings: seq<seq<int>>, tris: seq<int>, v: int)
    requires KeysOk(|verts|, edges, id2edge, keys) && RingsOk(verts, edges, keys, rings) && 0 <= v < |verts|
    requires |tris| % 3 == 0 && forall k :: k in id2edge <==> InTris(tris, |tris| / 3, k)
    ensures verts[v].edge == NoRef <==> v !in tris
  {
    var n := |tris| / 3;
    RingHead(v, verts, edges, keys, rings);
    assert RingOk(v, rings[v], verts, edges, keys);
    if verts[v].edge != NoRef {
      InTrisUsed(tris, n, keys[rings[v][0]]);
    }
    if v in tris {
      var i :| 0 <= i < |tris| && tris[i] == v;
      var k := (tris[i], if i % 3 == 2 then tris[i - 2] else tris[i + 1]);
      UsedInTris(tris, n, i);
      assert keys[id2edge[k]].0 == v;
    }
  }

  /** Line 92 throws exactly when some vertex is used by no triangle: such a vertex never starts an
      edge, so its `edge` stays null. */
  lemma UnusedVertexThrows(verts: seq<Vertex>, edges: seq<HalfEdge>, faces: seq<Face>, id2edge: map<Key, int>,
                           keys: seq<Key>, rings: seq<seq<int>>, tris: seq<int>)
    requires KeysOk(|verts|, edges, id2edge, keys) && PairsOk(edges, id2edge, keys)
    requires RingsOk(verts, edges, keys, rings) && AllWired(edges, faces, keys)
    requires |tris| % 3 == 0 && forall k :: k in id2edge <==> InTris(tris, |tris| / 3, k)
    ensures RefsInRange(verts, edges, faces)
    ensures ValidationOf(verts, edges, faces).NullEdge? <==> exists v :: 0 <= v < |verts| && v !in tris
  {
    ValidationFacts(verts, edges, faces, id2edge, keys, rings);
    forall v | 0 <= v < |verts|
      ensures verts[v].edge == NoRef <==> v !in tris
    {
      VertexUsed(verts, edges, id2edge, keys, rings, tris, v);
    }
  }


  /** Line 92: the vertex loop, stopping at the first null `edge`. */
  method CheckVertices(verts: seq<Vertex>, edges: seq<HalfEdge>, faces: seq<Face>) returns (r: Validation)
    requires RefsInRange(verts, edges, faces)
    ensures r == VertexChecks(verts, edges, faces, |verts|)
  {
    var issues: seq<Issue> := [];
    for v := 0 to |verts|
      invariant VertexChecks(verts, edges, faces, v) == Logged(issues)
    {
      if verts[v].edge == NoRef {
        VertexChecksStop(verts, edges, faces, v + 1, |verts|);
        return NullEdge(v, issues);
      }
      if edges[verts[v].edge].vertex != v {
        issues := issues + [VertexIssue(v)];
      }
    }
    r := Logged(issues);
  }

  /** Lines 93-97: the edge loop. */
  method CheckEdges(verts: seq<Vertex>, edges: seq<HalfEdge>, faces: seq<Face>) returns (issues: seq<Issue>)
    requires RefsInRange(verts, edges, faces)
    ensures issues == EdgeIssues(verts, edges, faces, |edges|)
  {
    issues := [];
    for e := 0 to |edges|
      invariant issues == EdgeIssues(verts, edges, faces, e)
    {
      var x := edges[e];
      if x.pair != NoRef && edges[x.pair].pair != e {
        issues := issues + [PairIssue(e)];
      }
      if edges[x.next].prev != e {
        issues := issues + [NextIssue(e)];
      }
      if edges[x.prev].next != e {
        issues := issues + [PrevIssue(e)];
      }
    }
  }

  /** Line 98: the face loop. */
  method CheckFaces(verts: seq<Vertex>, edges: seq<HalfEdge>, faces: seq<Face>) returns (issues: seq<Issue>)
    requires RefsInRange(verts, edges, faces)
    ensures issues == FaceIssues(verts, edges, faces, |faces|)
  {
    issues := [];
    for f := 0 to |faces|
      invariant issues == FaceIssues(verts, edges, faces, f)
    {
      if edges[faces[f].edge].face != f {
        issues := issues + [FaceIssue(f)];
      }
    }
  }

  /** Line 108: vertex `j` is within the merge distance of vertex `i` (`sqr` is `mergeLength²`;
      the bound is inclusive). */
  predicate Near(ps: seq<Vec3>, i: int, j: int, sqr: real)
    requires 0 <= i < |ps| && 0 <= j < |ps|
  {
    !(sqr < SqrMagnitude3(Sub3(ps[j], ps[i])))
  }

  /** The first member of `v`'s cluster, or `NoRef`; `sp` holds each vertex's `samePos`. */
  function Seed(sp: seq<int>, clusters: seq<seq<int>>, v: int): int
    requires 0 <= v < |sp|
  {
    if 0 <= sp[v] < |clusters| && clusters[sp[v]] != [] then clusters[sp[v]][0] else NoRef
  }

  /** Vertex `i` was unclustered when the scan reached it: it has no cluster or seeds its own. */
  predicate Unabsorbed(sp: seq<int>, clusters: seq<seq<int>>, i: int)
    requires 0 <= i < |sp|
  {
    sp[i] == NoRef || Seed(sp, clusters, i) == i
  }

  /** The `samePos` lists: each has at least two members in ascending order, each member's
      `samePos` is that list, and every vertex with a `samePos` is in it. */
  predicate ClusterShape(sp: seq<int>, clusters: seq<seq<int>>)
  {
    && (forall c :: 0 <= c < |clusters| ==> |clusters[c]| >= 2)
    && (forall c, a, b :: 0 <= c < |clusters| && 0 <= a < b < |clusters[c]| ==> clusters[c][a] < clusters[c][b])
    && (forall c, a :: 0 <= c < |clusters| && 0 <= a < |clusters[c]| ==> 0 <= clusters[c][a] < |sp| && sp[clusters[c][a]] == c)
    && (forall v :: 0 <= v < |sp| ==> sp[v] == NoRef || (0 <= sp[v] < |clusters| && v in clusters[sp[v]]))
  }

  /** Every member of a cluster is near its seed. */
  predicate ClusterNear(ps: seq<Vec3>, sp: seq<int>, clusters: seq<seq<int>>, sqr: real)
    requires |ps| == |sp| && ClusterShape(sp, clusters)
  {
    forall c, a :: 0 <= c < |clusters| && 0 < a < |clusters[c]| ==> Near(ps, clusters[c][0], clusters[c][a], sqr)
  }

  /** The scan has handled the seeds below `upto`: a later vertex near an unabsorbed `i < upto`
      belongs to a cluster seeded at `i` or before. */
  predicate ClusterMaximal(ps: seq<Vec3>, sp: seq<int>, clusters: seq<seq<int>>, sqr: real, upto: int)
    requires |ps| == |sp|
  {
    forall i, j :: 0 <= i < upto && i < j < |sp| && Unabsorbed(sp, clusters, i) && Near(ps, i, j, sqr) ==>
      sp[j] != NoRef && Seed(sp, clusters, j) <= i
  }

  /** The outer scan before seed `i`: well-shaped lists, all seeded before `i`, and every seed
      before `i` handled. */
  ghost predicate Scanned(ps: seq<Vec3>, sp: seq<int>, clusters: seq<seq<int>>, i: int, sqr: real)
  {
    && |ps| == |sp| && 0 <= i <= |sp|
    && ClusterShape(sp, clusters) && ClusterNear(ps, sp, clusters, sqr)
    && (forall c :: 0 <= c < |clusters| ==> clusters[c][0] < i)
    && ClusterMaximal(ps, sp, clusters, sqr, i)
  }

  /** The inner scan of seed `i` before vertex `j`: only the list of `i` (index `|clusters0|`,
      created on the first match) has been added or grown, no clustered vertex has moved, and every
      vertex in `(i, j)` near `i` is clustered with a seed no later than `i`. */
  ghost predicate Scanning(ps: seq<Vec3>, sp0: seq<int>, clusters0: seq<seq<int>>, sp: seq<int>, clusters: seq<seq<int>>,
                           i: int, j: int, sqr: real)
  {
    var c := |clusters0|;
    && |ps| == |sp| == |sp0| && 0 <= i < j <= |sp|
    && ClusterShape(sp, clusters) && ClusterNear(ps, sp, clusters, sqr)
    && (|clusters| == c || |clusters| == c + 1) && clusters[..c] == clusters0
    && (sp[i] == NoRef <==> |clusters| == c)
    && (|clusters| == c + 1 ==> clusters[c][0] == i && forall a :: 0 <= a < |clusters[c]| ==> clusters[c][a] < j)
    && (forall d :: 0 <= d < |clusters| ==> clusters[d][0] <= i)
    && (forall v :: 0 <= v < |sp| && sp0[v] != NoRef ==> sp[v] == sp0[v])
    && ClusterMaximal(ps, sp, clusters, sqr, i)
    && (forall k :: i < k < j && Near(ps, i, k, sqr) ==> sp[k] != NoRef && Seed(sp, clusters, k) <= i)
  }

  /** Lines 109-111: vertex `j` joins list `c`, which is first created holding seed `i`. */
  function Join(sp: seq<int>, clusters: seq<seq<int>>, c: nat, i: int, j: int): (seq<int>, seq<seq<int>>)
    requires 0 <= i < |sp| && 0 <= j < |sp| && (|clusters| == c || |clusters| == c + 1)
  {
    if |clusters| == c then (sp[i := c][j := c], clusters + [[i, j]])
    else (sp[j := c], clusters[c := clusters[c] + [j]])
  }

  /** The inner scan starts in the state the outer scan leaves for an unclustered seed `i`. */
  lemma ScanStart(ps: seq<Vec3>, sp: seq<int>, clusters: seq<seq<int>>, i: int, sqr: real)
    requires Scanned(ps, sp, clusters, i, sqr) && i < |sp| && sp[i] == NoRef
    ensures Scanning(ps, sp, clusters, sp, clusters, i, i + 1, sqr)
  {
  }

  /** A vertex that is already clustered, or too far, is skipped. */
  lemma ScanSkip(ps: seq<Vec3>, sp0: seq<int>, clusters0: seq<seq<int>>, sp: seq<int>, clusters: seq<seq<int>>,
                 i: int, j: int, sqr: real)
    requires Scanning(ps, sp0, clusters0, sp, clusters, i, j, sqr) && j < |sp|
    requires sp[j] != NoRef || !Near(ps, i, j, sqr)
    ensures Scanning(ps, sp0, clusters0, sp, clusters, i, j + 1, sqr)
  {
  }

  /** Joining an unclustered vertex `j` after every member of list `c` keeps the lists well shaped. */
  lemma JoinShape(sp: seq<int>, clusters: seq<seq<int>>, c: nat, i: int, j: int)
    requires 0 <= i < j < |sp| && ClusterShape(sp, clusters) && sp[j] == NoRef
    requires |clusters| == c ==> sp[i] == NoRef
    requires |clusters| == c + 1 ==> forall a :: 0 <= a < |clusters[c]| ==> clusters[c][a] < j
    requires |clusters| == c || |clusters| == c + 1
    ensures var (sp1, cls) := Join(sp, clusters, c, i, j);
      ClusterShape(sp1, cls) && |cls| == c + 1 && |sp1| == |sp|
  {
    if |clusters| == c {
      JoinShapeNew(sp, clusters, i, j);
    } else {
      JoinShapeExtend(sp, clusters, c, j);
    }
  }

  /** Seed `i` and vertex `j`, both unclustered, form a new list. */
  lemma JoinShapeNew(sp: seq<int>, clusters: seq<seq<int>>, i: int, j: int)
    requires 0 <= i < j < |sp| && ClusterShape(sp, clusters) && sp[i] == NoRef && sp[j] == NoRef
    ensures ClusterShape(sp[i := |clusters|][j := |clusters|], clusters + [[i, j]])
  {
    var c := |clusters|;
    var sp1, cls := sp[i := c][j := c], clusters + [[i, j]];
    forall v | 0 <= v < |sp1| && sp1[v] != NoRef
      ensures 0 <= sp1[v] < |cls| && v in cls[sp1[v]]
    {
      if v != i && v != j {
        assert cls[sp[v]] == clusters[sp[v]];
      }
    }
    forall d, a | 0 <= d < |cls| && 0 <= a < |cls[d]|
      ensures 0 <= cls[d][a] < |sp1| && sp1[cls[d][a]] == d
    {
      if d < c {
        assert cls[d][a] == clusters[d][a];
        assert sp[clusters[d][a]] == d;
      }
    }
  }

  /** Unclustered vertex `j`, above every member of the last list `c`, is appended to it. */
  lemma JoinShapeExtend(sp: seq<int>, clusters: seq<seq<int>>, c: nat, j: int)
    requires 0 <= j < |sp| && ClusterShape(sp, clusters) && sp[j] == NoRef && |clusters| == c + 1
    requires forall a :: 0 <= a < |clusters[c]| ==> clusters[c][a] < j
    ensures ClusterShape(sp[j := c], clusters[c := clusters[c] + [j]])
  {
    var sp1, cls := sp[j := c], clusters[c := clusters[c] + [j]];
    forall v | 0 <= v < |sp1| && sp1[v] != NoRef
      ensures 0 <= sp1[v] < |cls| && v in cls[sp1[v]]
    {
      if v != j && sp[v] == c {
        assert v in clusters[c];
      }
    }
    forall d, a | 0 <= d < |cls| && 0 <= a < |cls[d]|
      ensures 0 <= cls[d][a] < |sp1| && sp1[cls[d][a]] == d
    {
      if d < c || a < |clusters[c]| {
        assert cls[d][a] == clusters[d][a];
        assert clusters[d][a] != j;
      }
    }
    forall d, a, b | 0 <= d < |cls| && 0 <= a < b < |cls[d]|
      ensures cls[d][a] < cls[d][b]
    {
      if d == c && b == |clusters[c]| {
        assert cls[d][a] == clusters[c][a];
      }
    }
  }

  /** Joining `j` to list `c` moves no clustered vertex and keeps every seed; `i` seeds list `c`. */
  lemma JoinSeeds(sp: seq<int>, clusters: seq<seq<int>>, c: nat, i: int, j: int)
    requires 0 <= i < j < |sp| && ClusterShape(sp, clusters) && sp[j] == NoRef
    requires |clusters| == c ==> sp[i] == NoRef
    requires |clusters| == c + 1 ==> clusters[c][0] == i && sp[i] == c
    requires |clusters| == c || |clusters| == c + 1
    ensures var (sp1, cls) := Join(sp, clusters, c, i, j);
      && |sp1| == |sp| && |cls| == c + 1 && cls[c][0] == i && sp1[i] == c && sp1[j] == c
      && (forall d :: 0 <= d < |cls| && d != c ==> cls[d] == clusters[d])
      && (forall v :: 0 <= v < |sp| && sp[v] != NoRef ==> sp1[v] == sp[v] && Seed(sp1, cls, v) == Seed(sp, clusters, v))
      && (forall v :: 0 <= v < |sp| && v != i && v != j ==> sp1[v] == sp[v])
  {
  }

  /** Joining `j`, near seed `i`, keeps every member near its seed. */
  lemma JoinNear(ps: seq<Vec3>, sp: seq<int>, clusters: seq<seq<int>>, c: nat, i: int, j: int, sqr: real)
    requires 0 <= i < j < |sp| == |ps| && ClusterShape(sp, clusters) && ClusterNear(ps, sp, clusters, sqr)
    requires sp[j] == NoRef && Near(ps, i, j, sqr)
    requires |clusters| == c ==> sp[i] == NoRef
    requires |clusters| == c + 1 ==> clusters[c][0] == i && sp[i] == c && forall a :: 0 <= a < |clusters[c]| ==> clusters[c][a] < j
    requires |clusters| == c || |clusters| == c + 1
    ensures var (sp1, cls) := Join(sp, clusters, c, i, j);
      ClusterShape(sp1, cls) && ClusterNear(ps, sp1, cls, sqr)
  {
    JoinShape(sp, clusters, c, i, j);
    var (sp1, cls) := Join(sp, clusters, c, i, j);
    forall d, a | 0 <= d < |cls| && 0 < a < |cls[d]|
      ensures Near(ps, cls[d][0], cls[d][a], sqr)
    {
      if d < |clusters| && a < |clusters[d]| {
        assert cls[d][0] == clusters[d][0] && cls[d][a] == clusters[d][a];
      }
    }
  }

  /** Joining `j` keeps the seeds before `i` handled. */
  lemma JoinMaximal(ps: seq<Vec3>, sp: seq<int>, clusters: seq<seq<int>>, c: nat, i: int, j: int, sqr: real)
    requires 0 <= i < j < |sp| == |ps| && ClusterShape(sp, clusters) && ClusterMaximal(ps, sp, clusters, sqr, i)
    requires sp[j] == NoRef
    requires |clusters| == c ==> sp[i] == NoRef
    requires |clusters| == c + 1 ==> clusters[c][0] == i && sp[i] == c
    requires |clusters| == c || |clusters| == c + 1
    ensures var (sp1, cls) := Join(sp, clusters, c, i, j);
      ClusterMaximal(ps, sp1, cls, sqr, i)
  {
    JoinSeeds(sp, clusters, c, i, j);
    var (sp1, cls) := Join(sp, clusters, c, i, j);
    forall u, k | 0 <= u < i && u < k < |sp1| && Unabsorbed(sp1, cls, u) && Near(ps, u, k, sqr)
      ensures sp1[k] != NoRef && Seed(sp1, cls, k) <= u
    {
      assert sp1[u] == sp[u];
      if sp[u] != NoRef {
        assert Seed(sp1, cls, u) == Seed(sp, clusters, u);
      }
      assert Unabsorbed(sp, clusters, u);
    }
  }

  /** A near unclustered vertex joins seed `i`'s list. */
  lemma ScanJoin(ps: seq<Vec3>, sp0: seq<int>, clusters0: seq<seq<int>>, sp: seq<int>, clusters: seq<seq<int>>,
                 i: int, j: int, sqr: real)
    requires Scanning(ps, sp0, clusters0, sp, clusters, i, j, sqr) && j < |sp|
    requires sp[j] == NoRef && Near(ps, i, j, sqr)
    ensures var (sp1, cls) := Join(sp, clusters, |clusters0|, i, j);
      Scanning(ps, sp0, clusters0, sp1, cls, i, j + 1, sqr)
  {
    var c := |clusters0|;
    if |clusters| == c + 1 {
      assert i in clusters[c];
    }
    JoinSeeds(sp, clusters, c, i, j);
    JoinNear(ps, sp, clusters, c, i, j, sqr);
    JoinMaximal(ps, sp, clusters, c, i, j, sqr);
    var (sp1, cls) := Join(sp, clusters, c, i, j);
    assert cls[..c] == clusters0;
    forall k | i < k < j + 1 && Near(ps, i, k, sqr)
      ensures sp1[k] != NoRef && Seed(sp1, cls, k) <= i
    {
    }
  }

  /** Lines 106-112 for one seed `i`: every later unclustered vertex near `i` joins `i`'s list, which
      is created on the first match. */
  method AbsorbNear(ps: seq<Vec3>, sp0: seq<int>, clusters0: seq<seq<int>>, i: int, sqr: real)
    returns (sp: seq<int>, clusters: seq<seq<int>>)
    requires Scanned(ps, sp0, clusters0, i, sqr) && i < |sp0| && sp0[i] == NoRef
    ensures Scanning(ps, sp0, clusters0, sp, clusters, i, |sp0|, sqr)
  {
    sp, clusters := sp0, clusters0;
    var c := |clusters0|;
    ScanStart(ps, sp0, clusters0, i, sqr);
    for j := i + 1 to |sp0|
      invariant Scanning(ps, sp0, clusters0, sp, clusters, i, j, sqr)
    {
      if sp[j] != NoRef || !Near(ps, i, j, sqr) {
        ScanSkip(ps, sp0, clusters0, sp, clusters, i, j, sqr);
        continue;
      }
      ScanJoin(ps, sp0, clusters0, sp, clusters, i, j, sqr);
      sp, clusters := JoinVertex(sp, clusters, c, i, j);
    }
  }

  /** Lines 109-111: list `c` is created holding seed `i` on the first match, then `j` joins it. */
  method JoinVertex(sp0: seq<int>, clusters0: seq<seq<int>>, c: nat, i: int, j: int)
    returns (sp: seq<int>, clusters: seq<seq<int>>)
    requires 0 <= i < |sp0| && 0 <= j < |sp0| && (|clusters0| == c || |clusters0| == c + 1)
    ensures (sp, clusters) == Join(sp0, clusters0, c, i, j)
  {
    sp, clusters := sp0, clusters0;
    if |clusters| == c {
      sp := sp[i := c];
      clusters := clusters + [[i]];
    }
    sp := sp[j := c];
    clusters := clusters[c := clusters[c] + [j]];
    if |clusters0| == c {
      assert [i] + [j] == [i, j];
      assert forall d :: 0 <= d < |clusters| ==> clusters[d] == (clusters0 + [[i, j]])[d];
    }
    assert sp == Join(sp0, clusters0, c, i, j).0 && clusters == Join(sp0, clusters0, c, i, j).1;
  }

  /** An already clustered vertex is skipped as a seed (line 103). */
  lemma SeedSkip(ps: seq<Vec3>, sp: seq<int>, clusters: seq<seq<int>>, i: int, sqr: real)
    requires Scanned(ps, sp, clusters, i, sqr) && i < |sp| && sp[i] != NoRef
    ensures Scanned(ps, sp, clusters, i + 1, sqr)
  {
    assert clusters[sp[i]][0] < i;
  }

  /** After the inner scan of seed `i`, the seeds up to `i` are handled. */
  lemma SeedDone(ps: seq<Vec3>, sp0: seq<int>, clusters0: seq<seq<int>>, sp: seq<int>, clusters: seq<seq<int>>,
                 i: int, sqr: real)
    requires Scanning(ps, sp0, clusters0, sp, clusters, i, |sp|, sqr)
    ensures Scanned(ps, sp, clusters, i + 1, sqr)
  {
    if sp[i] != NoRef {
      assert i in clusters[|clusters0|];
    }
  }

  /** Lines 101-113: the forward scan, as a `samePos` entry per vertex and the lists. */
  method ClusterScan(ps: seq<Vec3>, sqr: real) returns (sp: seq<int>, clusters: seq<seq<int>>)
    ensures Scanned(ps, sp, clusters, |ps|, sqr)
  {
    sp, clusters := seq(|ps|, v => NoRef), [];
    for i := 0 to |ps|
      invariant Scanned(ps, sp, clusters, i, sqr)
    {
      if sp[i] != NoRef {
        SeedSkip(ps, sp, clusters, i, sqr);
        continue;
      }
      ghost var sp0, clusters0 := sp, clusters;
      sp, clusters := AbsorbNear(ps, sp, clusters, i, sqr);
      SeedDone(ps, sp0, clusters0, sp, clusters, i, sqr);
    }
  }

  /** What the scan computes: a vertex is absorbed into an earlier seed's list exactly when some
      earlier unabsorbed vertex is near it, and then its seed is the first such vertex. */
  lemma ScanCharacterised(ps: seq<Vec3>, sp: seq<int>, clusters: seq<seq<int>>, sqr: real)
    requires Scanned(ps, sp, clusters, |ps|, sqr)
    ensures forall j :: 0 <= j < |sp| ==>
      (!Unabsorbed(sp, clusters, j) <==> exists i :: 0 <= i < j && Unabsorbed(sp, clusters, i) && Near(ps, i, j, sqr))
    ensures forall j :: 0 <= j < |sp| && !Unabsorbed(sp, clusters, j) ==>
      var s := Seed(sp, clusters, j);
      && 0 <= s < j && Unabsorbed(sp, clusters, s) && Near(ps, s, j, sqr)
      && forall i :: 0 <= i < j && Unabsorbed(sp, clusters, i) && Near(ps, i, j, sqr) ==> s <= i
  {
    forall j | 0 <= j < |sp| && !Unabsorbed(sp, clusters, j)
      ensures var s := Seed(sp, clusters, j); 0 <= s < j && Unabsorbed(sp, clusters, s) && Near(ps, s, j, sqr)
    {
      var c := sp[j];
      var a :| 0 <= a < |clusters[c]| && clusters[c][a] == j;
      assert a > 0;
      assert sp[clusters[c][0]] == c;
    }
  }

  /** The vertices' positions. */
  function Positions(verts: seq<Vertex>): (ps: seq<Vec3>)
    ensures |ps| == |verts| && forall v :: 0 <= v < |verts| ==> ps[v] == verts[v].pos
  {
    seq(|verts|, v requires 0 <= v < |verts| => verts[v].pos)
  }

  /** The vertices' `samePos` entries. */
  function SamePos(verts: seq<Vertex>): (sp: seq<int>)
    ensures |sp| == |verts| && forall v :: 0 <= v < |verts| ==> sp[v] == verts[v].samePos
  {
    seq(|verts|, v requires 0 <= v < |verts| => verts[v].samePos)
  }

  /** The triangle loop's invariant after `t` triangles, on the values of the fields. */
  ghost predicate BuiltUpTo(tris: seq<int>, t: nat, positions: seq<Vec3>, normals: seq<Vec3>, verts: seq<Vertex>,
                            edges: seq<HalfEdge>, faces: seq<Face>, id2edge: map<Key, int>, keys: seq<Key>,
                            rings: seq<seq<int>>)
  {
    && 3 * t <= |tris| && (forall k :: 0 <= k < |tris| ==> 0 <= tris[k] < |positions|)
    && KeysOk(|verts|, edges, id2edge, keys) && PairsOk(edges, id2edge, keys) && RingsOk(verts, edges, keys, rings)
    && AllWired(edges, faces, keys)
    && |verts| == |positions| == |normals|
    && (forall v :: 0 <= v < |verts| ==> SameVertexData(verts[v], Vertex(v, positions[v], normals[v], NoRef, NoRef)))
    && (forall k :: k in id2edge <==> InTris(tris, t, k))
    && |faces| == t
    && (forall u :: 0 <= u < t ==> FaceRecorded(tris, u, positions, id2edge, faces[u]))
    && (DistinctDirected(tris, t) ==> Linked(edges, faces))
  }

  /** One turn of the triangle loop keeps its invariant, given what `AddTriangle` promises. */
  lemma BuiltStep(tris: seq<int>, t: nat, positions: seq<Vec3>, normals: seq<Vec3>,
                  verts0: seq<Vertex>, edges0: seq<HalfEdge>, faces0: seq<Face>, map0: map<Key, int>, keys0: seq<Key>,
                  rings0: seq<seq<int>>, verts: seq<Vertex>, edges: seq<HalfEdge>, faces: seq<Face>, id2edge: map<Key, int>, keys: seq<Key>,
                  rings: seq<seq<int>>, i0: int, i1: int, i2: int)
    requires 3 * t + 3 <= |tris| && i0 == tris[3 * t] && i1 == tris[3 * t + 1] && i2 == tris[3 * t + 2]
    requires BuiltUpTo(tris, t, positions, normals, verts0, edges0, faces0, map0, keys0, rings0)
    requires IndexedOf(verts, edges, id2edge, keys, rings) && AllWired(edges, faces, keys)
    requires forall k :: k in id2edge <==> k in map0 || k == (i0, i1) || k == (i1, i2) || k == (i2, i0)
    requires forall k :: k in map0 ==> id2edge[k] == map0[k]
    requires |verts| == |verts0| && forall v :: 0 <= v < |verts| ==> SameVertexData(verts[v], verts0[v])
    requires faces == faces0 + [Face(id2edge[(i0, i1)], Centroid(verts[i0].pos, verts[i1].pos, verts[i2].pos))]
    requires FreshTriangle(map0, i0, i1, i2) && Linked(edges0, faces0) ==> Linked(edges, faces)
    ensures BuiltUpTo(tris, t + 1, positions, normals, verts, edges, faces, id2edge, keys, rings)
  {
    DistinctStep(tris, t, map0);
    assert verts[i0].pos == positions[i0] && verts[i1].pos == positions[i1] && verts[i2].pos == positions[i2];
    TriangleLoopStep(tris, t, i0, i1, i2, positions, map0, id2edge, faces0, faces);
  }

  class Topology {
    var verts: seq<Vertex>
    var edges: seq<HalfEdge>
    var faces: seq<Face>
    /** The `samePos` lists; a vertex's `samePos` is an index into this list. */
    var clusters: seq<seq<int>>
    /** The constructor's local `id2edge` dictionary. */
    var id2edge: map<Key, int>
    ghost var keys: seq<Key>
    ghost var rings: seq<seq<int>>

    /** Lines 47-89: the vertices of the mesh, then one face and three half-edges per triangle of
        the concatenated sub-meshes. Every directed pair of a triangle gets an edge, each face
        records its first edge and centroid, and a mesh that uses no directed edge twice comes
        out fully linked. The validation and the clustering that follow are `Validate` and
        `Cluster`. */
    constructor (positions: seq<Vec3>, normals: seq<Vec3>, subMeshes: seq<seq<int>>)
      requires |normals| == |positions|
      requires forall s :: 0 <= s < |subMeshes| ==> |subMeshes[s]| % 3 == 0
      requires forall s, k :: 0 <= s < |subMeshes| && 0 <= k < |subMeshes[s]| ==> 0 <= subMeshes[s][k] < |positions|
      ensures Indexed() && AllWired(edges, faces, keys)
      ensures |verts| == |positions|
      ensures forall v :: 0 <= v < |verts| ==> SameVertexData(verts[v], Vertex(v, positions[v], normals[v], NoRef, NoRef))
      ensures var tris := Concat(subMeshes);
        && |tris| % 3 == 0 && (forall k :: 0 <= k < |tris| ==> 0 <= tris[k] < |positions|)
        && (forall k :: k in id2edge <==> InTris(tris, |tris| / 3, k))
        && |faces| == |tris| / 3
        && (forall u :: 0 <= u < |faces| ==> FaceRecorded(tris, u, positions, id2edge, faces[u]))
        && (DistinctDirected(tris, |tris| / 3) ==> Linked(edges, faces))
      ensures clusters == []
    {
      verts := seq(|positions|, v requires 0 <= v < |positions| => Vertex(v, positions[v], normals[v], NoRef, NoRef));
      edges, faces, clusters, id2edge := [], [], [], map[];
      keys, rings := [], seq(|positions|, v => []);
      new;
      EmptyIndexed(verts, rings);
      var tris := ConcatTriangles(subMeshes);
      ConcatFacts(subMeshes, |positions|);
      AddTriangles(tris, positions, normals);
    }

    /** Lines 73-89: the triangle loop over the concatenated index list. */
    method AddTriangles(tris: seq<int>, positions: seq<Vec3>, normals: seq<Vec3>)
      requires |tris| % 3 == 0 && forall k :: 0 <= k < |tris| ==> 0 <= tris[k] < |positions|
      requires Indexed() && AllWired(edges, faces, keys) && edges == [] && faces == [] && id2edge == map[]
      requires |verts| == |positions| == |normals|
      requires forall v :: 0 <= v < |verts| ==> SameVertexData(verts[v], Vertex(v, positions[v], normals[v], NoRef, NoRef))
      modifies this
      ensures Indexed() && AllWired(edges, faces, keys)
      ensures |verts| == |positions|
      ensures forall v :: 0 <= v < |verts| ==> SameVertexData(verts[v], Vertex(v, positions[v], normals[v], NoRef, NoRef))
      ensures forall k :: k in id2edge <==> InTris(tris, |tris| / 3, k)
      ensures |faces| == |tris| / 3
      ensures forall u :: 0 <= u < |faces| ==> FaceRecorded(tris, u, positions, id2edge, faces[u])
      ensures DistinctDirected(tris, |tris| / 3) ==> Linked(edges, faces)
      ensures clusters == old(clusters)
    {
      var i := 0;
      ghost var t := 0;
      while i < |tris|
        invariant 0 <= i <= |tris| && i == 3 * t
        invariant BuiltUpTo(tris, t, positions, normals, verts, edges, faces, id2edge, keys, rings)
        invariant clusters == old(clusters)
      {
        ghost var verts0, edges0, faces0, map0, keys0, rings0 := verts, edges, faces, id2edge, keys, rings;
        var i0, i1, i2 := tris[i], tris[i + 1], tris[i + 2];
        AddTriangle(i0, i1, i2);
        BuiltStep(tris, t, positions, normals, verts0, edges0, faces0, map0, keys0, rings0, verts, edges, faces, id2edge, keys, rings,
                  i0, i1, i2);
        i, t := i + 3, t + 1;
      }
      assert t == |tris| / 3;
    }

    /** Lines 91-98: every vertex's edge must start at it (a null edge throws), every pair must
        point back, `next` and `prev` must be inverse, and every face's edge must lie on it. Failures
        are only logged. */
    method Validate() returns (r: Validation)
      requires Indexed() && AllWired(edges, faces, keys)
      ensures RefsInRange(verts, edges, faces) && r == ValidationOf(verts, edges, faces)
    {
      IndexedRefs(verts, edges, faces, id2edge, keys, rings);
      r := CheckVertices(verts, edges, faces);
      if r.Logged? {
        var edgeIssues := CheckEdges(verts, edges, faces);
        var faceIssues := CheckFaces(verts, edges, faces);
        r := Logged(r.issues + edgeIssues + faceIssues);
      }
    }

    /** Lines 100-113: vertices within `mergeLength` of an earlier unclustered seed join its
        `samePos` list, created on the first match. Only `samePos` changes. */
    method Cluster(mergeLength: real)
      requires clusters == [] && forall v :: 0 <= v < |verts| ==> verts[v].samePos == NoRef
      requires Indexed()
      modifies this
      ensures |verts| == |old(verts)| && forall v :: 0 <= v < |verts| ==> verts[v] == old(verts)[v].(samePos := verts[v].samePos)
      ensures Scanned(Positions(verts), SamePos(verts), clusters, |verts|, mergeLength * mergeLength)
      ensures edges == old(edges) && faces == old(faces) && id2edge == old(id2edge)
      ensures keys == old(keys) && Indexed()
    {
      var ps := Positions(verts);
      var sp, cls := ClusterScan(ps, mergeLength * mergeLength);
      var vs := verts;
      verts := seq(|vs|, v requires 0 <= v < |vs| => vs[v].(samePos := sp[v]));
      clusters := cls;
      RingsKeepSamePos(vs, verts, edges, keys, rings);
      assert Positions(verts) == ps;
      assert SamePos(verts) == sp;
    }

    /** The facts `getEdge` maintains: keys, pairing and the `left` rings. */
    ghost predicate Indexed()
      reads this
    {
      IndexedOf(verts, edges, id2edge, keys, rings)
    }

    /** `getEdge(i0, i1)`: the edge for the ordered pair, created on first request. */
    method GetEdge(i0: int, i1: int) returns (e: int)
      requires Indexed()
      requires 0 <= i0 < |verts| && 0 <= i1 < |verts|
      modifies this
      ensures Indexed()
      ensures id2edge == old(id2edge)[(i0, i1) := e] && 0 <= e < |edges|
      ensures forall k :: k in old(id2edge) ==> id2edge[k] == old(id2edge)[k]
      ensures |old(edges)| <= |edges| <= |old(edges)| + 1
      ensures forall x :: 0 <= x < |old(edges)| ==> keys[x] == old(keys)[x]
      ensures forall x :: |old(edges)| <= x < |edges| ==> x == e && keys[x] == (i0, i1)
      ensures forall x :: 0 <= x < |old(edges)| ==> SameWiring(edges[x], old(edges)[x])
      ensures |verts| == |old(verts)| && forall v :: 0 <= v < |verts| ==> SameVertexData(verts[v], old(verts)[v])
      ensures faces == old(faces) && clusters == old(clusters)
      ensures (i0, i1) in old(id2edge) ==> unchanged(this)
    {
      if (i0, i1) in id2edge {
        e := id2edge[(i0, i1)];
        return;
      }
      e := NewEdge(i0, i1);
    }

    /** How `getEdge` changes the structure when it creates edge `e` for `(i0, i1)`: the edge is
        appended with only `pair` and `left` set, `i0`'s ring gains it right after its head,
        and nothing the triangle loop sets changes on any other edge or vertex. */
    twostate predicate NewEdgeAdded(i0: int, i1: int, e: int)
      reads this
    {
      && 0 <= i0 < |old(rings)| && |old(keys)| == |old(edges)|
      && e == |old(edges)| && |edges| == e + 1
      && keys == old(keys) + [(i0, i1)]
      && id2edge == old(id2edge)[(i0, i1) := e]
      && rings == old(rings)[i0 := Spliced(old(rings)[i0], e)]
      && edges[e].vertex == NoRef && edges[e].next == NoRef && edges[e].prev == NoRef
      && edges[e].face == NoRef
      && (forall x :: 0 <= x < e ==> SameWiring(edges[x], old(edges)[x]))
      && |verts| == |old(verts)|
      && (forall v :: 0 <= v < |verts| ==> SameVertexData(verts[v], old(verts)[v]))
      && faces == old(faces) && clusters == old(clusters)
    }

    /** Lines 60-70 of `getEdge`: a new edge is spliced into `i0`'s ring right after
        `verts[i0].edge` (or becomes it, with `left` pointing to itself) and is paired both ways
        with the edge of the reverse pair when that exists (itself, for `i0 == i1`). */
    method NewEdge(i0: int, i1: int) returns (e: int)
      requires Indexed()
      requires 0 <= i0 < |verts| && 0 <= i1 < |verts| && (i0, i1) !in id2edge
      modifies this
      ensures Indexed()
      ensures (i0, i1) in id2edge && id2edge[(i0, i1)] == e && 0 <= e < |edges|
      ensures NewEdgeAdded(i0, i1, e)
    {
      var k01 := (i0, i1);
      RingHead(i0, verts, edges, keys, rings);
      e := |edges|;
      var head := verts[i0].edge;
      var vs := if head == NoRef then verts[i0 := verts[i0].(edge := e)] else verts;
      var m := id2edge[k01 := e];
      var p := PairOf(m, k01);
      var es := PairWith(SpliceLeft(edges + [HalfEdge(NoRef, NoRef, NoRef, NoRef, NoRef, NoRef)], e, head), e, p);
      NewEdgeStep(i0, i1, verts, edges, id2edge, keys, rings, head, p, vs, es, m);
      verts, edges, id2edge := vs, es, m;
      keys, rings := keys + [k01], rings[i0 := Spliced(rings[i0], e)];
    }

    /** Line 78: the three `getEdge` calls of a triangle. Older edges keep their keys and
        wiring, and every edge created is one of the three. */
    method GetTriangleEdges(i0: int, i1: int, i2: int) returns (e01: int, e12: int, e20: int)
      requires Indexed()
      requires 0 <= i0 < |verts| && 0 <= i1 < |verts| && 0 <= i2 < |verts|
      modifies this
      ensures Indexed()
      ensures id2edge == old(id2edge)[(i0, i1) := e01][(i1, i2) := e12][(i2, i0) := e20]
      ensures id2edge[(i0, i1)] == e01 && id2edge[(i1, i2)] == e12 && id2edge[(i2, i0)] == e20
      ensures |edges| >= |old(edges)| && forall x :: 0 <= x < |old(edges)| ==> keys[x] == old(keys)[x]
      ensures forall x :: 0 <= x < |old(edges)| ==> SameWiring(edges[x], old(edges)[x])
      ensures forall x :: |old(edges)| <= x < |edges| ==> keys[x] in {(i0, i1), (i1, i2), (i2, i0)}
      ensures |verts| == |old(verts)| && forall v :: 0 <= v < |verts| ==> SameVertexData(verts[v], old(verts)[v])
      ensures faces == old(faces) && clusters == old(clusters)
      ensures |edges| <= |old(edges)| + 3
    {
      e01 := GetEdge(i0, i1);
      e12 := GetEdge(i1, i2);
      e20 := GetEdge(i2, i0);
    }

    /** One iteration of the triangle loop (lines 76-88): a new face, the three edges of the
        triangle from `getEdge`, and their `next`/`prev`/`face`/`vertex` fields, written in the
        source's order so that later writes win when two of the edges coincide. */
    method AddTriangle(i0: int, i1: int, i2: int)
      requires Indexed() && AllWired(edges, faces, keys)
      requires 0 <= i0 < |verts| && 0 <= i1 < |verts| && 0 <= i2 < |verts|
      modifies this
      ensures Indexed() && AllWired(edges, faces, keys)
      ensures forall k :: k in id2edge <==> k in old(id2edge) || k == (i0, i1) || k == (i1, i2) || k == (i2, i0)
      ensures forall k :: k in old(id2edge) ==> id2edge[k] == old(id2edge)[k]
      ensures |verts| == |old(verts)| && forall v :: 0 <= v < |verts| ==> SameVertexData(verts[v], old(verts)[v])
      ensures faces == old(faces) + [Face(id2edge[(i0, i1)], Centroid(verts[i0].pos, verts[i1].pos, verts[i2].pos))]
      ensures clusters == old(clusters)
      ensures FreshTriangle(old(id2edge), i0, i1, i2) ==>
        FreshWired(old(edges), edges, |old(faces)|, id2edge[(i0, i1)], id2edge[(i1, i2)], id2edge[(i2, i0)], i0, i1, i2)
      ensures FreshTriangle(old(id2edge), i0, i1, i2) && old(Linked(edges, faces)) ==> Linked(edges, faces)
    {
      ghost var edges0, faces0, keys0, map0 := edges, faces, keys, id2edge;
      var f := |faces|;
      var e01, e12, e20 := GetTriangleEdges(i0, i1, i2);
      KeysKept(|verts|, edges0, keys0, map0, edges, keys, id2edge);
      var es := Wire(edges, e01, e12, e20, f, i0, i1, i2);
      var fs := faces + [Face(e01, Centroid(verts[i0].pos, verts[i1].pos, verts[i2].pos))];
      TriangleStep(verts, edges0, faces0, keys0, edges, keys, id2edge, rings, e01, e12, e20, i0, i1, i2, es, fs);
      FreshStep(|verts|, edges0, faces0, keys0, map0, edges, keys, id2edge, e01, e12, e20, i0, i1, i2, es, fs);
      edges, faces := es, fs;
    }
  }

  /** Lines 63-69 on the edge list: new edge `e` becomes its own ring (`head` null) or goes
      right after `head`. Only `left` fields change. */
  function SpliceLeft(es: seq<HalfEdge>, e: int, head: int): (r: seq<HalfEdge>)
    requires 0 <= e < |es| && (head == NoRef || 0 <= head < e)
    ensures |r| == |es|
    ensures forall x :: 0 <= x < |r| ==> SameWiring(r[x], es[x]) && r[x].pair == es[x].pair
    ensures forall x :: 0 <= x < |r| && x != e && x != head ==> r[x].left == es[x].left
    ensures head == NoRef ==> r[e].left == e
    ensures head != NoRef ==> r[e].left == es[head].left && r[head].left == e
  {
    if head == NoRef then es[e := es[e].(left := e)]
    else
      var s1 := es[e := es[e].(left := es[head].left)];
      s1[head := s1[head].(left := e)]
  }

  /** Line 70 on the edge list: edges `e` and `p` point at each other (nothing for a null `p`).
      Only `pair` fields change. */
  function PairWith(es: seq<HalfEdge>, e: int, p: int): (r: seq<HalfEdge>)
    requires 0 <= e < |es| && (p == NoRef || 0 <= p < |es|)
    ensures |r| == |es|
    ensures forall x :: 0 <= x < |r| ==> SameWiring(r[x], es[x]) && r[x].left == es[x].left
    ensures forall x :: 0 <= x < |r| && x != e && x != p ==> r[x].pair == es[x].pair
    ensures p == NoRef ==> r[e].pair == es[e].pair
    ensures p != NoRef ==> r[e].pair == p && r[p].pair == e
  {
    if p == NoRef then es
    else
      var s1 := es[e := es[e].(pair := p)];
      s1[p := s1[p].(pair := e)]
  }

  /** The rings after `getEdge` spliced `e` into `v`'s ring: `v`'s ring is the spliced one, every
      other ring is untouched because its edges' `left` fields are. */
  lemma RingsAfterAdd(v: int, e: int, head: int, verts0: seq<Vertex>, verts1: seq<Vertex>,
                      edges0: seq<HalfEdge>, edges1: seq<HalfEdge>, keys0: seq<Key>, keys1: seq<Key>,
                      rings0: seq<seq<int>>, rings1: seq<seq<int>>)
    requires RingsOk(verts0, edges0, keys0, rings0)
    requires 0 <= v < |verts0| == |verts1| && e == |edges0|
    requires |edges1| == e + 1 && |keys1| == e + 1 && keys1 == keys0 + [(v, keys1[e].1)]
    requires rings1 == rings0[v := Spliced(rings0[v], e)]
    requires head == (if rings0[v] == [] then NoRef else rings0[v][0])
    requires verts1[v].edge == (if rings0[v] == [] then e else rings0[v][0])
    requires forall u :: 0 <= u < |verts1| && u != v ==> verts1[u].edge == verts0[u].edge
    requires rings0[v] == [] ==> edges1[e].left == e
    requires rings0[v] != [] ==> edges1[e].left == edges0[head].left && edges1[head].left == e
    requires forall x :: 0 <= x < e && x != head ==> edges1[x].left == edges0[x].left
    ensures RingsOk(verts1, edges1, keys1, rings1)
  {
    forall u | 0 <= u < |verts1|
      ensures RingOk(u, rings1[u], verts1, edges1, keys1)
    {
      if u != v {
        assert RingOk(u, rings0[u], verts0, edges0, keys0);
        forall i | 0 <= i < |rings1[u]|
          ensures edges1[rings1[u][i]].left == edges0[rings1[u][i]].left
          ensures keys1[rings1[u][i]] == keys0[rings1[u][i]]
        {
          assert keys0[rings0[u][i]].0 == u;
        }
        forall x | 0 <= x < |edges1| && keys1[x].0 == u
          ensures x in rings1[u]
        {
          assert x < e;
          assert keys0[x] == keys1[x];
        }
      } else {
        SplicedRingOk(v, rings0[v], e, head, verts0, verts1, edges0, edges1, keys0, keys1);
      }
    }
  }

  /** Splicing a new edge `e` after the ring's head keeps every ring fact. */
  lemma SplicedRingOk(v: int, ring: seq<int>, e: int, head: int, verts0: seq<Vertex>, verts1: seq<Vertex>,
                      edges0: seq<HalfEdge>, edges1: seq<HalfEdge>, keys0: seq<Key>, keys1: seq<Key>)
    requires 0 <= v < |verts0| == |verts1| && |keys0| == |edges0| && e == |edges0|
    requires RingOk(v, ring, verts0, edges0, keys0)
    requires |edges1| == e + 1 && |keys1| == e + 1 && keys1 == keys0 + [(v, keys1[e].1)]
    requires head == (if ring == [] then NoRef else ring[0])
    requires verts1[v].edge == (if ring == [] then e else ring[0])
    requires ring == [] ==> edges1[e].left == e
    requires ring != [] ==> edges1[e].left == edges0[head].left && edges1[head].left == e
    requires forall x :: 0 <= x < e && x != head ==> edges1[x].left == edges0[x].left
    ensures RingOk(v, Spliced(ring, e), verts1, edges1, keys1)
  {
    SplicedMembers(v, ring, e, keys0, keys1);
    if ring != [] {
      SplicedLinks(ring, e, edges0, edges1);
    }
  }

  /** The spliced ring lists the edges leaving `v`, the new one included, each once. */
  lemma SplicedMembers(v: int, ring: seq<int>, e: int, keys0: seq<Key>, keys1: seq<Key>)
    requires |keys0| == e && |keys1| == e + 1 && keys1 == keys0 + [(v, keys1[e].1)]
    requires forall i :: 0 <= i < |ring| ==> 0 <= ring[i] < e && keys0[ring[i]].0 == v
    requires forall x :: 0 <= x < e && keys0[x].0 == v ==> x in ring
    requires forall i, j :: 0 <= i < j < |ring| ==> ring[i] != ring[j]
    ensures var r := Spliced(ring, e);
      && (forall i :: 0 <= i < |r| ==> 0 <= r[i] < e + 1 && keys1[r[i]].0 == v)
      && (forall x :: 0 <= x < e + 1 && keys1[x].0 == v ==> x in r)
      && (forall i, j :: 0 <= i < j < |r| ==> r[i] != r[j])
  {
    var r := Spliced(ring, e);
    if ring != [] {
      assert r == [ring[0], e] + ring[1..];
      forall i | 0 <= i < |r|
        ensures r[i] == e || (r[i] < e && r[i] in ring)
      {
        if i == 0 {
          assert r[i] == ring[0];
        } else if i >= 2 {
          assert r[i] == ring[i - 1];
        }
      }
      forall x | 0 <= x < e && keys1[x].0 == v
        ensures x in r
      {
        assert keys0[x] == keys1[x];
      }
      forall i, j | 0 <= i < j < |r|
        ensures r[i] != r[j]
      {
        var k := if i == 0 then 0 else i - 1;
        if i != 1 && j != 1 {
          assert r[i] == ring[k] && r[j] == ring[j - 1];
        }
      }
    }
  }

  /** After the splice, `left` steps from the head to the new edge and from it to the head's old
      successor; the rest of the ring keeps its links. */
  lemma SplicedLinks(ring: seq<int>, e: int, edges0: seq<HalfEdge>, edges1: seq<HalfEdge>)
    requires ring != [] && |edges0| == e && |edges1| == e + 1
    requires forall i :: 0 <= i < |ring| ==> 0 <= ring[i] < e
    requires forall i, j :: 0 <= i < j < |ring| ==> ring[i] != ring[j]
    requires forall i {:trigger edges0[ring[i]]} :: 0 <= i < |ring| ==> edges0[ring[i]].left == Succ(ring, i)
    requires edges1[e].left == edges0[ring[0]].left && edges1[ring[0]].left == e
    requires forall x :: 0 <= x < e && x != ring[0] ==> edges1[x].left == edges0[x].left
    ensures var r := Spliced(ring, e);
      forall i {:trigger edges1[r[i]]} :: 0 <= i < |r| ==> edges1[r[i]].left == Succ(r, i)
  {
    var r := Spliced(ring, e);
    assert r[0] == ring[0] && r[1] == e;
    forall i | 0 <= i < |r|
      ensures edges1[r[i]].left == Succ(r, i)
    {
      if i == 1 {
        assert edges0[ring[0]].left == Succ(ring, 0);
      } else if i >= 2 {
        assert r[i] == ring[i - 1] && ring[i - 1] != ring[0];
        assert edges0[ring[i - 1]].left == Succ(ring, i - 1);
      }
    }
  }

  /** A vertex's `edge` is the head of its ring. */
  lemma RingHead(v: int, verts: seq<Vertex>, edges: seq<HalfEdge>, keys: seq<Key>, rings: seq<seq<int>>)
    requires RingsOk(verts, edges, keys, rings) && 0 <= v < |verts|
    ensures verts[v].edge == (if rings[v] == [] then NoRef else rings[v][0])
    ensures rings[v] != [] ==> 0 <= rings[v][0] < |edges|
  {
    assert RingOk(v, rings[v], verts, edges, keys);
  }

  /** The rings only read each vertex's `edge`, which clustering leaves alone. */
  lemma RingsKeepSamePos(verts0: seq<Vertex>, verts1: seq<Vertex>, edges: seq<HalfEdge>, keys: seq<Key>, rings: seq<seq<int>>)
    requires RingsOk(verts0, edges, keys, rings)
    requires |verts1| == |verts0| && forall v :: 0 <= v < |verts1| ==> verts1[v].edge == verts0[v].edge
    ensures RingsOk(verts1, edges, keys, rings)
  {
    forall v | 0 <= v < |verts1|
      ensures RingOk(v, rings[v], verts1, edges, keys)
    {
      assert RingOk(v, rings[v], verts0, edges, keys);
    }
  }

  /** Adding the edge for a new key keeps keys and `id2edge` inverse to each other. */
  lemma KeysAfterAdd(nVerts: int, edges0: seq<HalfEdge>, map0: map<Key, int>, keys0: seq<Key>, k01: Key, e: int,
                     edges1: seq<HalfEdge>, map1: map<Key, int>, keys1: seq<Key>)
    requires KeysOk(nVerts, edges0, map0, keys0)
    requires e == |edges0| && k01 !in map0 && 0 <= k01.0 < nVerts && 0 <= k01.1 < nVerts
    requires map1 == map0[k01 := e] && keys1 == keys0 + [k01] && |edges1| == e + 1
    ensures KeysOk(nVerts, edges1, map1, keys1)
  {
    forall x | 0 <= x < |keys1|
      ensures keys1[x] in map1 && map1[keys1[x]] == x
    {
      if x < e {
        assert keys1[x] == keys0[x] && keys0[x] != k01;
      }
    }
  }

  /** Adding the edge for `k01` and linking it with the reverse edge keeps every pairing fact. */
  lemma PairsAfterAdd(nVerts: int, edges0: seq<HalfEdge>, map0: map<Key, int>, keys0: seq<Key>, k01: Key, e: int,
                      p: int, edges1: seq<HalfEdge>, map1: map<Key, int>, keys1: seq<Key>)
    requires KeysOk(nVerts, edges0, map0, keys0) && PairsOk(edges0, map0, keys0)
    requires e == |edges0| && k01 !in map0
    requires map1 == map0[k01 := e] && keys1 == keys0 + [k01] && |edges1| == e + 1
    requires p == PairOf(map1, k01) && edges1[e].pair == p
    requires 0 <= p < e ==> edges1[p].pair == e
    requires forall x :: 0 <= x < e && x != p ==> edges1[x].pair == edges0[x].pair
    ensures PairsOk(edges1, map1, keys1)
  {
    forall x | 0 <= x < |edges1|
      ensures edges1[x].pair == PairOf(map1, keys1[x])
    {
      if x < e {
        assert keys1[x] == keys0[x];
        if x == p {
          assert keys0[p] == Reverse(k01);
        } else {
          assert Reverse(keys0[x]) != k01;
        }
      }
    }
  }
  /** `getEdge` creating edge `e` for `(i0, i1)`, on the values of the fields: the edge is appended
      with null wiring, spliced into `i0`'s ring and paired with the reverse edge, and every
      index fact survives. */
  lemma NewEdgeStep(i0: int, i1: int, verts0: seq<Vertex>, edges0: seq<HalfEdge>, map0: map<Key, int>,
                    keys0: seq<Key>, rings0: seq<seq<int>>, head: int, p: int,
                    verts1: seq<Vertex>, edges1: seq<HalfEdge>, map1: map<Key, int>)
    requires IndexedOf(verts0, edges0, map0, keys0, rings0)
    requires 0 <= i0 < |verts0| && 0 <= i1 < |verts0| && (i0, i1) !in map0
    requires head == verts0[i0].edge && (head == NoRef || 0 <= head < |edges0|)
    requires verts1 == if head == NoRef then verts0[i0 := verts0[i0].(edge := |edges0|)] else verts0
    requires map1 == map0[(i0, i1) := |edges0|] && p == PairOf(map1, (i0, i1))
    requires p == NoRef || 0 <= p <= |edges0|
    requires edges1 == PairWith(SpliceLeft(edges0 + [HalfEdge(NoRef, NoRef, NoRef, NoRef, NoRef, NoRef)], |edges0|, head), |edges0|, p)
    ensures IndexedOf(verts1, edges1, map1, keys0 + [(i0, i1)], rings0[i0 := Spliced(rings0[i0], |edges0|)])
    ensures |edges1| == |edges0| + 1
    ensures edges1[|edges0|].vertex == NoRef && edges1[|edges0|].next == NoRef
    ensures edges1[|edges0|].prev == NoRef && edges1[|edges0|].face == NoRef
    ensures forall x :: 0 <= x < |edges0| ==> SameWiring(edges1[x], edges0[x])
    ensures |verts1| == |verts0| && forall v :: 0 <= v < |verts1| ==> SameVertexData(verts1[v], verts0[v])
  {
    var e := |edges0|;
    var keys1 := keys0 + [(i0, i1)];
    RingHead(i0, verts0, edges0, keys0, rings0);
    KeysAfterAdd(|verts1|, edges0, map0, keys0, (i0, i1), e, edges1, map1, keys1);
    PairsAfterAdd(|verts1|, edges0, map0, keys0, (i0, i1), e, p, edges1, map1, keys1);
    RingsAfterAdd(i0, e, head, verts0, verts1, edges0, edges1, keys0, keys1, rings0, rings0[i0 := Spliced(rings0[i0], e)]);
  }


  /** Lines 79-85: the twelve field writes of one triangle, in the source's order. */
  function Wire(es: seq<HalfEdge>, e01: int, e12: int, e20: int, f: int, i0: int, i1: int, i2: int): seq<HalfEdge>
    requires 0 <= e01 < |es| && 0 <= e12 < |es| && 0 <= e20 < |es|
  {
    var s1 := es[e20 := es[e20].(prev := e12)];
    var s2 := s1[e01 := s1[e01].(next := e12)];
    var s3 := s2[e01 := s2[e01].(prev := e20)];
    var s4 := s3[e12 := s3[e12].(next := e20)];
    var s5 := s4[e12 := s4[e12].(prev := e01)];
    var s6 := s5[e20 := s5[e20].(next := e01)];
    var s7 := s6[e20 := s6[e20].(face := f)];
    var s8 := s7[e12 := s7[e12].(face := f)];
    var s9 := s8[e01 := s8[e01].(face := f)];
    var s10 := s9[e01 := s9[e01].(vertex := i0)];
    var s11 := s10[e12 := s10[e12].(vertex := i1)];
    s11[e20 := s11[e20].(vertex := i2)]
  }

  /** Rewriting only the fields the triangle loop sets keeps the keys, the pairing and the rings. */
  lemma IndexedAfterWire(verts: seq<Vertex>, edges: seq<HalfEdge>, es: seq<HalfEdge>, id2edge: map<Key, int>,
                         keys: seq<Key>, rings: seq<seq<int>>)
    requires KeysOk(|verts|, edges, id2edge, keys) && PairsOk(edges, id2edge, keys) && RingsOk(verts, edges, keys, rings)
    requires |es| == |edges| && forall x :: 0 <= x < |es| ==> SameLinks(es[x], edges[x])
    ensures KeysOk(|verts|, es, id2edge, keys) && PairsOk(es, id2edge, keys) && RingsOk(verts, es, keys, rings)
  {
    forall v | 0 <= v < |verts|
      ensures RingOk(v, rings[v], verts, es, keys)
    {
      assert RingOk(v, rings[v], verts, edges, keys);
      forall i | 0 <= i < |rings[v]|
        ensures es[rings[v][i]].left == Succ(rings[v], i)
      {
        assert SameLinks(es[rings[v][i]], edges[rings[v][i]]);
      }
    }
    forall x | 0 <= x < |es|
      ensures es[x].pair == PairOf(id2edge, keys[x])
    {
      assert SameLinks(es[x], edges[x]);
    }
  }

  /** Whatever coincidences there are among the three edges, each ends up wired consistently with
      its key, and every other edge keeps its wiring. */
  lemma WireFacts(es: seq<HalfEdge>, keys: seq<Key>, e01: int, e12: int, e20: int, f: int, i0: int, i1: int, i2: int)
    requires |keys| == |es| && 0 <= e01 < |es| && 0 <= e12 < |es| && 0 <= e20 < |es| && 0 <= f
    requires keys[e01] == (i0, i1) && keys[e12] == (i1, i2) && keys[e20] == (i2, i0)
    ensures var w := Wire(es, e01, e12, e20, f, i0, i1, i2);
      && |w| == |es|
      && EdgeWired(e01, w, f + 1, keys) && EdgeWired(e12, w, f + 1, keys) && EdgeWired(e20, w, f + 1, keys)
      && (forall x :: 0 <= x < |es| && x != e01 && x != e12 && x != e20 ==> w[x] == es[x])
      && (forall x :: 0 <= x < |es| ==> SameLinks(w[x], es[x]))
      && (e01 != e12 && e12 != e20 && e20 != e01 ==>
            && w[e01].vertex == i0 && w[e01].next == e12 && w[e01].prev == e20 && w[e01].face == f
            && w[e12].vertex == i1 && w[e12].next == e20 && w[e12].prev == e01 && w[e12].face == f
            && w[e20].vertex == i2 && w[e20].next == e01 && w[e20].prev == e12 && w[e20].face == f)
  {
  }

  /** A triangle whose three directed keys are distinct and new creates three fresh edges. */
  predicate FreshTriangle(id2edge: map<Key, int>, i0: int, i1: int, i2: int)
  {
    && (i0, i1) != (i1, i2) && (i1, i2) != (i2, i0) && (i2, i0) != (i0, i1)
    && (i0, i1) !in id2edge && (i1, i2) !in id2edge && (i2, i0) !in id2edge
  }

  /** A fresh triangle's edges are three distinct appended ones, wired round face `f` in
      the triangle's order, and every older edge keeps its wiring. */
  predicate FreshWired(edges0: seq<HalfEdge>, es: seq<HalfEdge>, f: int, e01: int, e12: int, e20: int,
                       i0: int, i1: int, i2: int)
  {
    var n := |edges0|;
    && |es| == n + 3
    && n <= e01 < n + 3 && n <= e12 < n + 3 && n <= e20 < n + 3 && e01 != e12 && e12 != e20 && e20 != e01
    && es[e01].vertex == i0 && es[e01].next == e12 && es[e01].prev == e20 && es[e01].face == f
    && es[e12].vertex == i1 && es[e12].next == e20 && es[e12].prev == e01 && es[e12].face == f
    && es[e20].vertex == i2 && es[e20].next == e01 && es[e20].prev == e12 && es[e20].face == f
    && (forall x :: 0 <= x < n ==> SameWiring(es[x], edges0[x]))
  }

  /** One triangle step on values: after `getEdge` produced `edges1` from `edges0`, wiring the
      three edges keeps the index facts and wires every edge. */
  lemma TriangleStep(verts: seq<Vertex>, edges0: seq<HalfEdge>, faces0: seq<Face>, keys0: seq<Key>,
                     edges1: seq<HalfEdge>, keys1: seq<Key>, map1: map<Key, int>, rings: seq<seq<int>>,
                     e01: int, e12: int, e20: int, i0: int, i1: int, i2: int, es: seq<HalfEdge>, fs: seq<Face>)
    requires AllWired(edges0, faces0, keys0)
    requires IndexedOf(verts, edges1, map1, keys1, rings)
    requires (i0, i1) in map1 && (i1, i2) in map1 && (i2, i0) in map1
    requires map1[(i0, i1)] == e01 && map1[(i1, i2)] == e12 && map1[(i2, i0)] == e20
    requires |edges0| <= |edges1|
    requires forall x :: 0 <= x < |edges0| ==> keys1[x] == keys0[x]
    requires forall x :: 0 <= x < |edges0| ==> SameWiring(edges1[x], edges0[x])
    requires forall x :: |edges0| <= x < |edges1| ==> keys1[x] in {(i0, i1), (i1, i2), (i2, i0)}
    requires es == Wire(edges1, e01, e12, e20, |faces0|, i0, i1, i2)
    requires |fs| == |faces0| + 1 && fs == faces0 + [Face(e01, fs[|faces0|].center)]
    ensures IndexedOf(verts, es, map1, keys1, rings)
    ensures AllWired(es, fs, keys1)
  {
    TriangleWired(edges0, faces0, keys0, edges1, keys1, |verts|, map1, es, fs, e01, e12, e20, |faces0|, i0, i1, i2);
    IndexedAfterWire(verts, edges1, es, map1, keys1, rings);
  }

  /** Older edges keep their keys, so every pair already in the table keeps its edge. */
  lemma KeysKept(nVerts: int, edges0: seq<HalfEdge>, keys0: seq<Key>, m0: map<Key, int>,
                 edges1: seq<HalfEdge>, keys1: seq<Key>, m1: map<Key, int>)
    requires KeysOk(nVerts, edges0, m0, keys0) && KeysOk(nVerts, edges1, m1, keys1)
    requires |edges0| <= |edges1| && forall x :: 0 <= x < |edges0| ==> keys1[x] == keys0[x]
    ensures forall k :: k in m0 ==> k in m1 && m1[k] == m0[k]
  {
    forall k | k in m0
      ensures k in m1 && m1[k] == m0[k]
    {
      var e := m0[k];
      assert keys1[e] == keys0[e] == k;
    }
  }

  /** A triangle of three new directed pairs gets three fresh edges wired into a cycle, and keeps
      every back-reference consistent. */
  lemma FreshStep(nVerts: int, edges0: seq<HalfEdge>, faces0: seq<Face>, keys0: seq<Key>, map0: map<Key, int>,
                  edges1: seq<HalfEdge>, keys1: seq<Key>, map1: map<Key, int>,
                  e01: int, e12: int, e20: int, i0: int, i1: int, i2: int, es: seq<HalfEdge>, fs: seq<Face>)
    requires KeysOk(nVerts, edges0, map0, keys0) && KeysOk(nVerts, edges1, map1, keys1)
    requires (i0, i1) in map1 && (i1, i2) in map1 && (i2, i0) in map1
    requires map1[(i0, i1)] == e01 && map1[(i1, i2)] == e12 && map1[(i2, i0)] == e20
    requires |edges0| <= |edges1| <= |edges0| + 3
    requires forall x :: 0 <= x < |edges0| ==> keys1[x] == keys0[x]
    requires forall x :: 0 <= x < |edges0| ==> SameWiring(edges1[x], edges0[x])
    requires es == Wire(edges1, e01, e12, e20, |faces0|, i0, i1, i2)
    requires |fs| == |faces0| + 1 && fs == faces0 + [Face(e01, fs[|faces0|].center)]
    ensures FreshTriangle(map0, i0, i1, i2) ==> FreshWired(edges0, es, |faces0|, e01, e12, e20, i0, i1, i2)
    ensures FreshTriangle(map0, i0, i1, i2) && Linked(edges0, faces0) ==> Linked(es, fs)
  {
    if FreshTriangle(map0, i0, i1, i2) {
      WireFacts(edges1, keys1, e01, e12, e20, |faces0|, i0, i1, i2);
      FreshEdges(nVerts, edges0, map0, keys0, edges1, map1, keys1, e01, e12, e20, i0, i1, i2);
      if Linked(edges0, faces0) {
        LinkedAfterTriangle(edges0, faces0, es, fs, e01, e12, e20, i0, i1, i2);
      }
    }
  }

  /** Wiring the three edges of a triangle keeps every edge wired. */
  lemma TriangleWired(edges0: seq<HalfEdge>, faces0: seq<Face>, keys0: seq<Key>, edges1: seq<HalfEdge>,
                      keys1: seq<Key>, nVerts: int, map1: map<Key, int>, es: seq<HalfEdge>, fs: seq<Face>,
                      e01: int, e12: int, e20: int, f: int, i0: int, i1: int, i2: int)
    requires AllWired(edges0, faces0, keys0) && f == |faces0|
    requires |edges1| == |keys1| >= |edges0| && forall x :: 0 <= x < |edges0| ==> keys1[x] == keys0[x]
    requires KeysOk(nVerts, edges1, map1, keys1)
    requires (i0, i1) in map1 && (i1, i2) in map1 && (i2, i0) in map1
    requires map1[(i0, i1)] == e01 && map1[(i1, i2)] == e12 && map1[(i2, i0)] == e20
    requires forall x :: |edges0| <= x < |edges1| ==> keys1[x] in {(i0, i1), (i1, i2), (i2, i0)}
    requires forall x :: 0 <= x < |edges0| ==> SameWiring(edges1[x], edges0[x])
    requires 0 <= e01 < |edges1| && 0 <= e12 < |edges1| && 0 <= e20 < |edges1|
    requires es == Wire(edges1, e01, e12, e20, f, i0, i1, i2)
    requires |fs| == f + 1 && fs == faces0 + [Face(e01, fs[f].center)]
    ensures AllWired(es, fs, keys1)
  {
    WireFacts(edges1, keys1, e01, e12, e20, f, i0, i1, i2);
    forall x | 0 <= x < |es|
      ensures EdgeWired(x, es, |fs|, keys1)
    {
      if x != e01 && x != e12 && x != e20 {
        assert map1[keys1[x]] == x;
        assert SameWiring(es[x], edges0[x]);
        assert EdgeWired(x, edges0, |faces0|, keys0);
        assert keys1[es[x].next] == keys0[es[x].next];
        assert keys1[es[x].prev] == keys0[es[x].prev];
      }
    }
    forall g | 0 <= g < |fs|
      ensures 0 <= fs[g].edge < |es|
    {
      if g < f {
        assert fs[g] == faces0[g];
      }
    }
  }

  /** The edges `getEdge` returns for a fresh triangle are three distinct new ones, and they are
      all the new ones. */
  lemma FreshEdges(nVerts: int, edges0: seq<HalfEdge>, map0: map<Key, int>, keys0: seq<Key>,
                   edges1: seq<HalfEdge>, map1: map<Key, int>, keys1: seq<Key>,
                   e01: int, e12: int, e20: int, i0: int, i1: int, i2: int)
    requires KeysOk(nVerts, edges0, map0, keys0) && KeysOk(nVerts, edges1, map1, keys1)
    requires FreshTriangle(map0, i0, i1, i2)
    requires |edges0| <= |edges1| <= |edges0| + 3
    requires forall x :: 0 <= x < |edges0| ==> keys1[x] == keys0[x]
    requires (i0, i1) in map1 && (i1, i2) in map1 && (i2, i0) in map1
    requires map1[(i0, i1)] == e01 && map1[(i1, i2)] == e12 && map1[(i2, i0)] == e20
    ensures var n := |edges0|;
      && |edges1| == n + 3
      && n <= e01 < n + 3 && n <= e12 < n + 3 && n <= e20 < n + 3 && e01 != e12 && e12 != e20 && e20 != e01
  {
    assert keys1[e01] == (i0, i1) && keys1[e12] == (i1, i2) && keys1[e20] == (i2, i0);
  }

  /** A triangle of three distinct new edges keeps every back-reference consistent. */
  lemma LinkedAfterTriangle(edges0: seq<HalfEdge>, faces0: seq<Face>, es: seq<HalfEdge>, fs: seq<Face>,
                            e01: int, e12: int, e20: int, i0: int, i1: int, i2: int)
    requires Linked(edges0, faces0)
    requires |fs| == |faces0| + 1 && fs[..|faces0|] == faces0 && fs[|faces0|].edge == e01
    requires FreshWired(edges0, es, |faces0|, e01, e12, e20, i0, i1, i2)
    ensures Linked(es, fs)
  {
    var n := |edges0|;
    forall x | 0 <= x < |es|
      ensures EdgeLinked(x, es)
    {
      if x < n {
        assert EdgeLinked(x, edges0);
        var nx := edges0[x].next;
        assert EdgeLinked(nx, edges0);
      }
    }
    forall f | 0 <= f < |fs|
      ensures 0 <= fs[f].edge < |es| && es[fs[f].edge].face == f
    {
      if f < |faces0| {
        assert fs[f] == faces0[f];
      }
    }
  }

  /** `new Topology(srcMesh, mergeLength)`: build the half-edges, validate, then cluster. Line 49
      reads a normal for every vertex, so a mesh with fewer normals than vertices (one imported
      without normals) throws there, before any validation (`v == None`). When line 92 throws
      the constructor yields no object either (`null` here). */
  method Build(positions: seq<Vec3>, normals: seq<Vec3>, subMeshes: seq<seq<int>>, mergeLength: real)
    returns (t: Topology?, v: Option<Validation>)
    requires forall s :: 0 <= s < |subMeshes| ==> |subMeshes[s]| % 3 == 0
    requires forall s, k :: 0 <= s < |subMeshes| && 0 <= k < |subMeshes[s]| ==> 0 <= subMeshes[s][k] < |positions|
    ensures v.None? <==> |normals| < |positions|
    ensures v.Some? ==> (v.value.NullEdge? <==> exists x :: 0 <= x < |positions| && x !in Concat(subMeshes))
    ensures v.Some? ==> forall i :: 0 <= i < |v.value.issues| ==> !v.value.issues[i].VertexIssue? && !v.value.issues[i].PairIssue?
    ensures v.Some? && DistinctDirected(Concat(subMeshes), |Concat(subMeshes)| / 3) ==> v.value.issues == []
    ensures t == null <==> v.None? || v.value.NullEdge?
    ensures t != null ==> |t.verts| == |positions| && Scanned(Positions(t.verts), SamePos(t.verts), t.clusters, |positions|, mergeLength * mergeLength)
    ensures t != null ==> t.Indexed() && AllWired(t.edges, t.faces, t.keys)
    ensures t != null ==> forall x :: 0 <= x < |t.verts| ==> t.verts[x].index == x && t.verts[x].n == normals[x]
    ensures t != null ==> fresh(t)
  {
    if |normals| < |positions| {
      return null, None;
    }
    var top := new Topology(positions, normals[..|positions|], subMeshes);
    var w := top.Validate();
    v := Some(w);
    ValidationFacts(top.verts, top.edges, top.faces, top.id2edge, top.keys, top.rings);
    UnusedVertexThrows(top.verts, top.edges, top.faces, top.id2edge, top.keys, top.rings, Concat(subMeshes));
    if w.NullEdge? {
      return null, v;
    }
    top.Cluster(mergeLength);
    t := top;
  }
}
