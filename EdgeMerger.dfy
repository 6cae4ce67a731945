/** `EdgeMerger.proc` (unity/IzFbxTools/Editor/Core/Geom/EdgeMerger.cs): stitches the open
    boundary of a mesh whose seams are split into coincident vertices. Every boundary
    half-edge whose two ends have coincident partners is paired with a half-edge running the
    other way on the far side of the seam; one or two bridging triangles close the gap, and
    corners where more than two seams meet are closed with a triangle fan.

    The fold test (lines 57-73) and the corner angles (lines 105-128) are computed in floating
    point from normals and face centres; here they are the oracles `crossing` and `angle`. */
module EdgeMerger {
  import opened Topology
  import Log

  // ------------------------------------------------------------------------------------------
  // The half-edge structure as the merger reads it

  /** Every edge's origin is a vertex and its `next` an edge. */
  predicate EdgesOk(nVerts: int, edges: seq<HalfEdge>)
  {
    forall e :: 0 <= e < |edges| ==> 0 <= edges[e].vertex < nVerts && 0 <= edges[e].next < |edges|
  }

  /** The `samePos` lists are well shaped and each vertex's `index` is its position in the list. */
  predicate VertsOk(verts: seq<Vertex>, clusters: seq<seq<int>>)
  {
    && ClusterShape(SamePos(verts), clusters)
    && (forall v :: 0 <= v < |verts| ==> verts[v].index == v)
  }

  /** In addition, the references the merger follows from an edge are in range. */
  predicate Wf(verts: seq<Vertex>, edges: seq<HalfEdge>, clusters: seq<seq<int>>)
  {
    && VertsOk(verts, clusters)
    && EdgesOk(|verts|, edges)
  }

  /** `ring` is the `left` ring of `v`: it starts at `v.edge`, holds exactly the edges leaving
      `v`, each once, and `left` steps through it and back to the start. */
  ghost predicate LeftRing(v: int, ring: seq<int>, verts: seq<Vertex>, edges: seq<HalfEdge>)
    requires 0 <= v < |verts|
  {
    && (forall i :: 0 <= i < |ring| ==> 0 <= ring[i] < |edges|)
    && (forall i {:trigger edges[ring[i]]} :: 0 <= i < |ring| ==>
          edges[ring[i]].vertex == v && edges[ring[i]].left == Succ(ring, i))
    && (forall x :: 0 <= x < |edges| && edges[x].vertex == v ==> x in ring)
    && (forall i, j :: 0 <= i < j < |ring| ==> ring[i] != ring[j])
    && verts[v].edge == (if ring == [] then NoRef else ring[0])
  }

  ghost predicate Mergeable(verts: seq<Vertex>, edges: seq<HalfEdge>, clusters: seq<seq<int>>, rings: seq<seq<int>>)
  {
    && Wf(verts, edges, clusters)
    && |rings| == |verts|
    && (forall v :: 0 <= v < |verts| ==> LeftRing(v, rings[v], verts, edges))
  }

  /** What `Topology` builds is what the merger reads. */
  lemma MergeableAfterBuild(verts: seq<Vertex>, edges: seq<HalfEdge>, faces: seq<Face>, clusters: seq<seq<int>>,
                            id2edge: map<Key, int>, keys: seq<Key>, rings: seq<seq<int>>)
    requires KeysOk(|verts|, edges, id2edge, keys) && RingsOk(verts, edges, keys, rings)
    requires AllWired(edges, faces, keys) && ClusterShape(SamePos(verts), clusters)
    requires forall v :: 0 <= v < |verts| ==> verts[v].index == v
    ensures Mergeable(verts, edges, clusters, rings)
  {
    forall e | 0 <= e < |edges|
      ensures 0 <= edges[e].vertex < |verts| && 0 <= edges[e].next < |edges|
    {
      assert EdgeWired(e, edges, |faces|, keys);
    }
    forall v | 0 <= v < |verts|
      ensures LeftRing(v, rings[v], verts, edges)
    {
      var ring := rings[v];
      assert RingOk(v, ring, verts, edges, keys);
      forall i | 0 <= i < |ring|
        ensures edges[ring[i]].vertex == v
      {
        assert EdgeWired(ring[i], edges, |faces|, keys);
      }
      forall x | 0 <= x < |edges| && edges[x].vertex == v
        ensures x in ring
      {
        assert EdgeWired(x, edges, |faces|, keys);
      }
    }
  }

  /** The list of `v`'s `samePos`, or `NoRef`. */
  function ClusterOf(verts: seq<Vertex>, clusters: seq<seq<int>>, v: int): (c: int)
    requires ClusterShape(SamePos(verts), clusters) && 0 <= v < |verts|
    ensures c == NoRef || (0 <= c < |clusters| && v in clusters[c])
    ensures c == verts[v].samePos
  {
    assert SamePos(verts)[v] == verts[v].samePos;
    verts[v].samePos
  }

  /** The vertex `e` ends at. */
  function Dest(verts: seq<Vertex>, edges: seq<HalfEdge>, e: int): (d: int)
    requires EdgesOk(|verts|, edges) && 0 <= e < |edges|
    ensures 0 <= d < |verts|
  {
    edges[edges[e].next].vertex
  }

  /** Lines 40-41: `e` is a boundary edge whose two ends both have coincident vertices. */
  predicate Open(verts: seq<Vertex>, edges: seq<HalfEdge>, clusters: seq<seq<int>>, e: int)
    requires Wf(verts, edges, clusters) && 0 <= e < |edges|
  {
    && edges[e].pair == NoRef
    && ClusterOf(verts, clusters, edges[e].vertex) != NoRef
    && ClusterOf(verts, clusters, Dest(verts, edges, e)) != NoRef
  }

  // ------------------------------------------------------------------------------------------
  // Lines 44-55: the partner search

  /** Line 49: the far end of `j` has a `samePos` list that holds the origin of `e`. */
  predicate Matches(verts: seq<Vertex>, edges: seq<HalfEdge>, clusters: seq<seq<int>>, e: int, j: int)
    requires Wf(verts, edges, clusters) && 0 <= e < |edges| && 0 <= j < |edges|
  {
    var s := ClusterOf(verts, clusters, Dest(verts, edges, j));
    s != NoRef && edges[e].vertex in clusters[s]
  }

  predicate EdgesIn(ring: seq<int>, edges: seq<HalfEdge>)
  {
    forall i :: 0 <= i < |ring| ==> 0 <= ring[i] < |edges|
  }

  /** The position of the first edge of `ring` that matches, or `|ring|`. */
  function FirstMatch(verts: seq<Vertex>, edges: seq<HalfEdge>, clusters: seq<seq<int>>, e: int, ring: seq<int>): (i: int)
    requires Wf(verts, edges, clusters) && 0 <= e < |edges| && EdgesIn(ring, edges)
    ensures 0 <= i <= |ring|
    ensures forall i' :: 0 <= i' < i ==> !Matches(verts, edges, clusters, e, ring[i'])
    ensures i < |ring| ==> Matches(verts, edges, clusters, e, ring[i])
  {
    if ring == [] then 0
    else if Matches(verts, edges, clusters, e, ring[0]) then 0
    else
      var i := FirstMatch(verts, edges, clusters, e, ring[1..]);
      assert forall i' :: 1 <= i' < |ring| ==> ring[i'] == ring[1..][i' - 1];
      1 + i
  }

  /** The first edge of `ring` that matches, or `NoRef`. */
  function RingMatch(verts: seq<Vertex>, edges: seq<HalfEdge>, clusters: seq<seq<int>>, e: int, ring: seq<int>): (j: int)
    requires Wf(verts, edges, clusters) && 0 <= e < |edges| && EdgesIn(ring, edges)
    ensures j == NoRef <==> forall i :: 0 <= i < |ring| ==> !Matches(verts, edges, clusters, e, ring[i])
    ensures j != NoRef ==> exists i :: 0 <= i < |ring| && ring[i] == j && Matches(verts, edges, clusters, e, j) &&
                                       forall i' :: 0 <= i' < i ==> !Matches(verts, edges, clusters, e, ring[i'])
  {
    var i := FirstMatch(verts, edges, clusters, e, ring);
    if i == |ring| then NoRef else ring[i]
  }

  /** The search looks at the head of the ring first and otherwise goes on with the rest. */
  lemma RingMatchCons(verts: seq<Vertex>, edges: seq<HalfEdge>, clusters: seq<seq<int>>, e: int, ring: seq<int>)
    requires Wf(verts, edges, clusters) && 0 <= e < |edges| && EdgesIn(ring, edges) && ring != []
    ensures RingMatch(verts, edges, clusters, e, ring) ==
      if Matches(verts, edges, clusters, e, ring[0]) then ring[0] else RingMatch(verts, edges, clusters, e, ring[1..])
  {
    if !Matches(verts, edges, clusters, e, ring[0]) {
      var i := FirstMatch(verts, edges, clusters, e, ring[1..]);
      assert FirstMatch(verts, edges, clusters, e, ring) == 1 + i;
      if i < |ring| - 1 {
        assert ring[1 + i] == ring[1..][i];
      }
    }
  }

  /** What the walk from member `k` yields: nothing for the edge's own end or a member with no
      edge, otherwise the first match round its ring. */
  ghost function MemberMatch(verts: seq<Vertex>, edges: seq<HalfEdge>, clusters: seq<seq<int>>,
                             e: int, dest: int, k: int, ring: seq<int>): int
    requires Wf(verts, edges, clusters) && 0 <= e < |edges| && 0 <= k < |verts| && LeftRing(k, ring, verts, edges)
  {
    if k == dest || verts[k].edge == NoRef then NoRef else RingMatch(verts, edges, clusters, e, ring)
  }

  lemma MemberMatchMeaning(verts: seq<Vertex>, edges: seq<HalfEdge>, clusters: seq<seq<int>>,
                           e: int, dest: int, k: int, ring: seq<int>)
    requires Wf(verts, edges, clusters) && 0 <= e < |edges| && 0 <= k < |verts| && LeftRing(k, ring, verts, edges)
    ensures var j := MemberMatch(verts, edges, clusters, e, dest, k, ring);
      && (j != NoRef ==> 0 <= j < |edges| && edges[j].vertex == k && k != dest && Matches(verts, edges, clusters, e, j))
      && (j == NoRef ==> forall x :: 0 <= x < |edges| && edges[x].vertex == k && k != dest ==>
                                       !Matches(verts, edges, clusters, e, x))
  {
    var j := MemberMatch(verts, edges, clusters, e, dest, k, ring);
    if j != NoRef {
      var i :| 0 <= i < |ring| && ring[i] == j;
      assert edges[ring[i]].vertex == k;
    } else if k != dest {
      forall x | 0 <= x < |edges| && edges[x].vertex == k
        ensures !Matches(verts, edges, clusters, e, x)
      {
        assert x in ring;
      }
    }
  }

  /** The first match over the `samePos` members in list order. */
  ghost function ClusterMatch(verts: seq<Vertex>, edges: seq<HalfEdge>, clusters: seq<seq<int>>, rings: seq<seq<int>>,
                              e: int, dest: int, members: seq<int>): int
    requires Mergeable(verts, edges, clusters, rings) && 0 <= e < |edges|
    requires forall a :: 0 <= a < |members| ==> 0 <= members[a] < |verts|
  {
    if members == [] then NoRef
    else
      var k := members[0];
      var j := MemberMatch(verts, edges, clusters, e, dest, k, rings[k]);
      if j != NoRef then j else ClusterMatch(verts, edges, clusters, rings, e, dest, members[1..])
  }

  /** `otherEdge` after lines 44-54: the search runs over the `samePos` list of `e`'s end. */
  ghost function Partner(verts: seq<Vertex>, edges: seq<HalfEdge>, clusters: seq<seq<int>>, rings: seq<seq<int>>, e: int): int
    requires Mergeable(verts, edges, clusters, rings) && 0 <= e < |edges|
    requires ClusterOf(verts, clusters, Dest(verts, edges, e)) != NoRef
  {
    var d := Dest(verts, edges, e);
    ClusterMatch(verts, edges, clusters, rings, e, d, clusters[ClusterOf(verts, clusters, d)])
  }

  /** Edge `j` is a candidate partner of `e`: it leaves a vertex other than `e`'s end that shares
      its position, and it arrives where `e` starts. */
  predicate Mirrors(verts: seq<Vertex>, edges: seq<HalfEdge>, clusters: seq<seq<int>>, e: int, j: int)
    requires Wf(verts, edges, clusters) && 0 <= e < |edges| && 0 <= j < |edges|
    requires ClusterOf(verts, clusters, Dest(verts, edges, e)) != NoRef
  {
    var d := Dest(verts, edges, e);
    && edges[j].vertex in clusters[ClusterOf(verts, clusters, d)] && edges[j].vertex != d
    && Matches(verts, edges, clusters, e, j)
  }

  lemma {:induction false} ClusterMatchMeaning(verts: seq<Vertex>, edges: seq<HalfEdge>, clusters: seq<seq<int>>,
                                               rings: seq<seq<int>>, e: int, dest: int, members: seq<int>)
    requires Mergeable(verts, edges, clusters, rings) && 0 <= e < |edges|
    requires forall a :: 0 <= a < |members| ==> 0 <= members[a] < |verts|
    ensures var p := ClusterMatch(verts, edges, clusters, rings, e, dest, members);
      && (p != NoRef ==> 0 <= p < |edges| && edges[p].vertex in members && edges[p].vertex != dest &&
                         Matches(verts, edges, clusters, e, p))
      && (p == NoRef ==> forall j :: 0 <= j < |edges| && edges[j].vertex in members && edges[j].vertex != dest ==>
                                       !Matches(verts, edges, clusters, e, j))
    decreases |members|
  {
    if members != [] {
      var k := members[0];
      assert LeftRing(k, rings[k], verts, edges);
      MemberMatchMeaning(verts, edges, clusters, e, dest, k, rings[k]);
      ClusterMatchMeaning(verts, edges, clusters, rings, e, dest, members[1..]);
      assert members == [k] + members[1..];
      if MemberMatch(verts, edges, clusters, e, dest, k, rings[k]) == NoRef {
        var q := ClusterMatch(verts, edges, clusters, rings, e, dest, members[1..]);
        assert ClusterMatch(verts, edges, clusters, rings, e, dest, members) == q;
        if q == NoRef {
          forall j | 0 <= j < |edges| && edges[j].vertex in members && edges[j].vertex != dest
            ensures !Matches(verts, edges, clusters, e, j)
          {
            if edges[j].vertex != k {
              assert edges[j].vertex in members[1..];
            }
          }
        }
      }
    }
  }

  /** Lines 44-55: a partner found leaves a coincident vertex other than `e`'s end and arrives
      where `e` starts; none is found exactly when no edge does both. */
  lemma PartnerMeaning(verts: seq<Vertex>, edges: seq<HalfEdge>, clusters: seq<seq<int>>, rings: seq<seq<int>>, e: int)
    requires Mergeable(verts, edges, clusters, rings) && 0 <= e < |edges|
    requires ClusterOf(verts, clusters, Dest(verts, edges, e)) != NoRef
    ensures var p := Partner(verts, edges, clusters, rings, e);
      && (p != NoRef ==> 0 <= p < |edges| && Mirrors(verts, edges, clusters, e, p))
      && (p == NoRef <==> forall j :: 0 <= j < |edges| ==> !Mirrors(verts, edges, clusters, e, j))
  {
    var d := Dest(verts, edges, e);
    var members := clusters[ClusterOf(verts, clusters, d)];
    ClusterMatchMeaning(verts, edges, clusters, rings, e, d, members);
    var p := Partner(verts, edges, clusters, rings, e);
    if p != NoRef {
      assert Mirrors(verts, edges, clusters, e, p);
    }
  }

  /** Lines 48-52: the walk round `k`'s `left` ring from `k.edge`, stopping at the first match
      or when it is back at the start. */
  method WalkRing(verts: seq<Vertex>, edges: seq<HalfEdge>, clusters: seq<seq<int>>, ghost ring: seq<int>, k: int, e: int)
    returns (other: int)
    requires Wf(verts, edges, clusters) && 0 <= e < |edges| && 0 <= k < |verts|
    requires LeftRing(k, ring, verts, edges) && verts[k].edge != NoRef
    ensures other == RingMatch(verts, edges, clusters, e, ring)
  {
    var j := verts[k].edge;
    ghost var idx := 0;
    while true
      invariant 0 <= idx < |ring| && j == ring[idx]
      invariant RingMatch(verts, edges, clusters, e, ring) == RingMatch(verts, edges, clusters, e, ring[idx..])
      decreases |ring| - idx
    {
      assert ring[idx..][1..] == ring[idx + 1..];
      RingMatchCons(verts, edges, clusters, e, ring[idx..]);
      if Matches(verts, edges, clusters, e, j) {
        return j;
      }
      assert edges[ring[idx]].left == Succ(ring, idx);
      j := edges[j].left;
      idx := idx + 1;
      if j == verts[k].edge {
        assert idx == |ring|;
        return NoRef;
      }
    }
  }

  /** Lines 44-55: the search over the `samePos` list of `e`'s end. */
  method FindPartner(verts: seq<Vertex>, edges: seq<HalfEdge>, clusters: seq<seq<int>>, ghost rings: seq<seq<int>>, e: int)
    returns (other: int)
    requires Mergeable(verts, edges, clusters, rings) && 0 <= e < |edges|
    requires ClusterOf(verts, clusters, Dest(verts, edges, e)) != NoRef
    ensures other == Partner(verts, edges, clusters, rings, e)
  {
    var dest := edges[edges[e].next].vertex;
    var members := clusters[verts[dest].samePos];
    other := NoRef;
    for a := 0 to |members|
      invariant other == NoRef
      invariant ClusterMatch(verts, edges, clusters, rings, e, dest, members) ==
                ClusterMatch(verts, edges, clusters, rings, e, dest, members[a..])
    {
      assert members[a..][1..] == members[a + 1..];
      var k := members[a];
      assert LeftRing(k, rings[k], verts, edges);
      if k == dest {
        continue;
      }
      if verts[k].edge != NoRef {
        other := WalkRing(verts, edges, clusters, rings[k], k, e);
      }
      if other != NoRef {
        break;
      }
    }
  }

  // ------------------------------------------------------------------------------------------
  // Lines 25-33: the corner table

  /** `cornerList`: the markers collected per `samePos` list, with the lists in insertion order
      (the order a `Dictionary` with no removals enumerates). `NoRef` is a null marker. */
  datatype Corners = Corners(keys: seq<int>, markers: map<int, seq<int>>)

  ghost predicate CornersOk(c: Corners)
  {
    && (forall i, j :: 0 <= i < j < |c.keys| ==> c.keys[i] != c.keys[j])
    && (forall v :: v in c.markers <==> v in c.keys)
  }

  /** `addCorner(v, m)`: `m` is appended to the markers of `v`, which are created on first use. */
  function AddCorner(c: Corners, v: int, m: int): (r: Corners)
    ensures v in r.markers && r.markers[v] == (if v in c.markers then c.markers[v] else []) + [m]
  {
    if v in c.markers then Corners(c.keys, c.markers[v := c.markers[v] + [m]])
    else Corners(c.keys + [v], c.markers[v := [m]])
  }

  /** `addCorner` keeps the table consistent, leaves every other list alone and keeps the lists
      in insertion order, a new list going last. */
  lemma AddCornerKeeps(c: Corners, v: int, m: int)
    ensures var r := AddCorner(c, v, m);
      && (CornersOk(c) ==> CornersOk(r))
      && (forall w :: w != v ==> (w in r.markers <==> w in c.markers))
      && (forall w :: w != v && w in c.markers ==> r.markers[w] == c.markers[w])
      && c.keys <= r.keys && (forall w :: w in r.keys ==> w in c.keys || w == v)
  {
  }

  /** `addCorner2(tgt, m0, m1)`: both markers go to the list of each end of `tgt`. */
  function AddCorner2(c: Corners, s0: int, s1: int, m0: int, m1: int): Corners
  {
    AddCorner(AddCorner(AddCorner(AddCorner(c, s0, m0), s0, m1), s1, m0), s1, m1)
  }

  /** What `addCorner2` leaves in the table: two markers more on each end's list (four on one
      list when both ends share it) and nothing else touched. */
  lemma AddCorner2Markers(c: Corners, s0: int, s1: int, m0: int, m1: int)
    ensures var r := AddCorner2(c, s0, s1, m0, m1);
      var old0 := if s0 in c.markers then c.markers[s0] else [];
      var old1 := if s1 in c.markers then c.markers[s1] else [];
      && (CornersOk(c) ==> CornersOk(r))
      && (s0 != s1 ==> r.markers[s0] == old0 + [m0, m1] && r.markers[s1] == old1 + [m0, m1])
      && (s0 == s1 ==> r.markers[s0] == old0 + [m0, m1, m0, m1])
      && (forall w :: w != s0 && w != s1 ==> (w in r.markers <==> w in c.markers))
      && (forall w :: w != s0 && w != s1 && w in c.markers ==> r.markers[w] == c.markers[w])
      && (forall w :: w in r.keys ==> w in c.keys || w == s0 || w == s1)
  {
    var c1 := AddCorner(c, s0, m0);
    var c2 := AddCorner(c1, s0, m1);
    var c3 := AddCorner(c2, s1, m0);
    AddCornerKeeps(c, s0, m0);
    AddCornerKeeps(c1, s0, m1);
    AddCornerKeeps(c2, s1, m0);
    AddCornerKeeps(c3, s1, m1);
    var old0 := if s0 in c.markers then c.markers[s0] else [];
    var old1 := if s1 in c.markers then c.markers[s1] else [];
    assert old0 + [m0] + [m1] == old0 + [m0, m1];
    assert old1 + [m0] + [m1] == old1 + [m0, m1];
    assert old0 + [m0, m1] + [m0] + [m1] == old0 + [m0, m1, m0, m1];
  }

  /** Every list in the corner table is a `samePos` list. */
  ghost predicate CornersOf(c: Corners, nClusters: int)
  {
    CornersOk(c) && forall v :: v in c.keys ==> 0 <= v < nClusters
  }

  lemma AddCorner2Of(c: Corners, s0: int, s1: int, m0: int, m1: int, nClusters: int)
    requires CornersOf(c, nClusters) && 0 <= s0 < nClusters && 0 <= s1 < nClusters
    ensures CornersOf(AddCorner2(c, s0, s1, m0, m1), nClusters)
  {
    AddCorner2Markers(c, s0, s1, m0, m1);
  }

  // ------------------------------------------------------------------------------------------
  // Lines 36-86: the stitching loop

  /** `tgtEdges.Remove(x)` on the nodes still ahead: the first occurrence goes. */
  function RemoveFirst(s: seq<int>, x: int): (r: seq<int>)
    ensures |r| <= |s| && forall i :: 0 <= i < |r| ==> r[i] in s
  {
    if s == [] then []
    else if s[0] == x then s[1..]
    else
      var t := RemoveFirst(s[1..], x);
      assert forall i :: 1 <= i < |t| + 1 ==> ([s[0]] + t)[i] == t[i - 1];
      [s[0]] + t
  }

  /** `Remove` takes away exactly one occurrence, when there is one. */
  lemma {:induction false} RemoveFirstMeaning(s: seq<int>, x: int)
    ensures multiset(RemoveFirst(s, x)) == multiset(s) - multiset{x}
    ensures x in s ==> |RemoveFirst(s, x)| == |s| - 1
  {
    if s != [] {
      assert s == [s[0]] + s[1..];
      if s[0] != x {
        RemoveFirstMeaning(s[1..], x);
      }
    }
  }

  /** The nodes left to visit after the working list loses `other` while visiting `e`. Removing
      the current node unlinks it, its `Next` becomes null, and the loop ends. */
  function Unlink(rest: seq<int>, e: int, other: int): (r: seq<int>)
    ensures |r| <= |rest| && forall i :: 0 <= i < |r| ==> r[i] in rest
  {
    if other == e then [] else RemoveFirst(rest, other)
  }

  /** Lines 76-80: the triangles bridging `e = (i0, i1)` and its partner `(i2, i3)`. */
  function Crease(i0: int, i1: int, i2: int, i3: int, crossing0: bool, crossing1: bool): (r: seq<int>)
  {
    (if !crossing0 then [i0, i3, i2] else []) + (if !crossing1 then [i0, i2, i1] else [])
  }

  /** A crease adds one or two triangles: `(i0, i3, i2)` first when the first test is false,
      `(i0, i2, i1)` last when the second is, and nothing but the four corners. */
  lemma CreaseShape(i0: int, i1: int, i2: int, i3: int, crossing0: bool, crossing1: bool)
    requires !(crossing0 && crossing1)
    ensures var r := Crease(i0, i1, i2, i3, crossing0, crossing1);
      && (|r| == 6 <==> !crossing0 && !crossing1)
      && (|r| == 3 || |r| == 6)
      && (!crossing0 ==> r[..3] == [i0, i3, i2])
      && (!crossing1 ==> r[|r| - 3..] == [i0, i2, i1])
      && (forall k :: 0 <= k < |r| ==> r[k] == i0 || r[k] == i1 || r[k] == i2 || r[k] == i3)
  {
  }

  /** The state of the stitching loop: the working-list nodes still ahead, the output index
      list, the corner table and the merged-edge count. */
  datatype Sweep = Sweep(rest: seq<int>, tris: seq<int>, corners: Corners, merged: nat)

  /** Lines 57-85 for edge `e` and its partner `other`: a valley (both tests crossing) only
      records null corner markers; otherwise the bridge is built, the partner leaves the working
      list, both edges are recorded as corner markers and the merged count rises. */
  function Join(verts: seq<Vertex>, edges: seq<HalfEdge>, clusters: seq<seq<int>>,
                crossing: (int, int) -> (bool, bool), s: Sweep, e: int, other: int): (r: Sweep)
    requires Wf(verts, edges, clusters) && 0 <= e < |edges| && 0 <= other < |edges| && Open(verts, edges, clusters, e)
    ensures |r.rest| <= |s.rest| && (EdgesIn(s.rest, edges) ==> EdgesIn(r.rest, edges))
  {
    var d := Dest(verts, edges, e);
    var c0, c1 := verts[edges[e].vertex].samePos, verts[d].samePos;
    var x := crossing(e, other);
    if x.0 && x.1 then s.(corners := AddCorner2(s.corners, c0, c1, NoRef, NoRef))
    else
      var i0, i1 := verts[edges[e].vertex].index, verts[d].index;
      var i2, i3 := verts[edges[other].vertex].index, verts[Dest(verts, edges, other)].index;
      var rest := Unlink(s.rest, e, other);
      assert EdgesIn(s.rest, edges) ==> EdgesIn(rest, edges) by {
        if EdgesIn(s.rest, edges) {
          forall i | 0 <= i < |rest|
            ensures 0 <= rest[i] < |edges|
          {
            assert rest[i] in s.rest;
          }
        }
      }
      Sweep(rest, s.tris + Crease(i0, i1, i2, i3, x.0, x.1), AddCorner2(s.corners, c0, c1, e, other), s.merged + 1)
  }

  /** `b` starts with `a`. */
  predicate Extends(a: seq<int>, b: seq<int>)
  {
    |a| <= |b| && forall k :: 0 <= k < |a| ==> b[k] == a[k]
  }

  /** Every index stored in `tris` after `from` names a vertex. */
  predicate IndicesIn(tris: seq<int>, from: int, nVerts: int)
    requires 0 <= from <= |tris|
  {
    forall k :: from <= k < |tris| ==> 0 <= tris[k] < nVerts
  }

  /** A join keeps the corner table keyed by `samePos` lists. */
  lemma JoinCorners(verts: seq<Vertex>, edges: seq<HalfEdge>, clusters: seq<seq<int>>,
                    crossing: (int, int) -> (bool, bool), s: Sweep, e: int, other: int)
    requires Wf(verts, edges, clusters) && 0 <= e < |edges| && 0 <= other < |edges| && Open(verts, edges, clusters, e)
    requires CornersOf(s.corners, |clusters|)
    ensures CornersOf(Join(verts, edges, clusters, crossing, s, e, other).corners, |clusters|)
  {
    var c0 := ClusterOf(verts, clusters, edges[e].vertex);
    var c1 := ClusterOf(verts, clusters, Dest(verts, edges, e));
    var x := crossing(e, other);
    if x.0 && x.1 {
      AddCorner2Of(s.corners, c0, c1, NoRef, NoRef, |clusters|);
    } else {
      assert Join(verts, edges, clusters, crossing, s, e, other).corners == AddCorner2(s.corners, c0, c1, e, other);
      AddCorner2Of(s.corners, c0, c1, e, other, |clusters|);
    }
  }

  /** A join only appends whole triangles of vertex indices, one or two of them exactly when it
      counts a merged edge. */
  lemma JoinTris(verts: seq<Vertex>, edges: seq<HalfEdge>, clusters: seq<seq<int>>,
                 crossing: (int, int) -> (bool, bool), s: Sweep, e: int, other: int)
    requires Wf(verts, edges, clusters) && 0 <= e < |edges| && 0 <= other < |edges| && Open(verts, edges, clusters, e)
    ensures var r := Join(verts, edges, clusters, crossing, s, e, other);
      && Extends(s.tris, r.tris) && IndicesIn(r.tris, |s.tris|, |verts|)
      && (r.merged == s.merged ==> |r.tris| == |s.tris|)
      && (r.merged != s.merged ==> r.merged == s.merged + 1 && (|r.tris| == |s.tris| + 3 || |r.tris| == |s.tris| + 6))
  {
    var x := crossing(e, other);
    if !(x.0 && x.1) {
      var d := Dest(verts, edges, e);
      var i0, i1 := verts[edges[e].vertex].index, verts[d].index;
      var i2, i3 := verts[edges[other].vertex].index, verts[Dest(verts, edges, other)].index;
      CreaseShape(i0, i1, i2, i3, x.0, x.1);
      AppendIndices(s.tris, Crease(i0, i1, i2, i3, x.0, x.1), |verts|);
    }
  }

  /** Appending indices that name vertices keeps the old list as a prefix. */
  lemma AppendIndices(a: seq<int>, b: seq<int>, nVerts: int)
    requires forall k :: 0 <= k < |b| ==> 0 <= b[k] < nVerts
    ensures Extends(a, a + b) && IndicesIn(a + b, |a|, nVerts)
  {
    forall k | |a| <= k < |a + b|
      ensures 0 <= (a + b)[k] < nVerts
    {
      assert (a + b)[k] == b[k - |a|];
    }
  }

  /** Two appends in a row: `a` stays a prefix and the indices added after it are vertex
      indices. */
  lemma ChainTris(a: seq<int>, b: seq<int>, c: seq<int>, nVerts: int)
    requires Extends(a, b) && IndicesIn(b, |a|, nVerts) && Extends(b, c) && IndicesIn(c, |b|, nVerts)
    ensures Extends(a, c) && IndicesIn(c, |a|, nVerts)
  {
    forall k | |a| <= k < |c|
      ensures 0 <= c[k] < nVerts
    {
      if k < |b| {
        assert c[k] == b[k];
      }
    }
  }

  /** One pass of the loop body (lines 39-85) for edge `e`, already passed by the cursor. */
  ghost function Step(verts: seq<Vertex>, edges: seq<HalfEdge>, clusters: seq<seq<int>>, rings: seq<seq<int>>,
                      crossing: (int, int) -> (bool, bool), s: Sweep, e: int): (r: Sweep)
    requires Mergeable(verts, edges, clusters, rings) && 0 <= e < |edges|
    ensures |r.rest| <= |s.rest| && (EdgesIn(s.rest, edges) ==> EdgesIn(r.rest, edges))
  {
    if !Open(verts, edges, clusters, e) then s
    else
      var other := Partner(verts, edges, clusters, rings, e);
      if other == NoRef then s
      else
        PartnerMeaning(verts, edges, clusters, rings, e);
        Join(verts, edges, clusters, crossing, s, e, other)
  }

  /** The loop from state `s` to the end of the working list. */
  ghost function SweepAll(verts: seq<Vertex>, edges: seq<HalfEdge>, clusters: seq<seq<int>>, rings: seq<seq<int>>,
                          crossing: (int, int) -> (bool, bool), s: Sweep): Sweep
    requires Mergeable(verts, edges, clusters, rings) && EdgesIn(s.rest, edges)
    decreases |s.rest|
  {
    if s.rest == [] then s
    else SweepAll(verts, edges, clusters, rings, crossing, Step(verts, edges, clusters, rings, crossing, s.(rest := s.rest[1..]), s.rest[0]))
  }

  /** One step keeps the corner table keyed by `samePos` lists. */
  lemma StepCorners(verts: seq<Vertex>, edges: seq<HalfEdge>, clusters: seq<seq<int>>, rings: seq<seq<int>>,
                    crossing: (int, int) -> (bool, bool), s: Sweep, e: int)
    requires Mergeable(verts, edges, clusters, rings) && 0 <= e < |edges| && CornersOf(s.corners, |clusters|)
    ensures CornersOf(Step(verts, edges, clusters, rings, crossing, s, e).corners, |clusters|)
  {
    if Open(verts, edges, clusters, e) {
      var other := Partner(verts, edges, clusters, rings, e);
      if other != NoRef {
        PartnerMeaning(verts, edges, clusters, rings, e);
        JoinCorners(verts, edges, clusters, crossing, s, e, other);
      }
    }
  }

  /** One step appends nothing, or one or two triangles of vertex indices while counting one
      merged edge. */
  lemma StepTris(verts: seq<Vertex>, edges: seq<HalfEdge>, clusters: seq<seq<int>>, rings: seq<seq<int>>,
                 crossing: (int, int) -> (bool, bool), s: Sweep, e: int)
    requires Mergeable(verts, edges, clusters, rings) && 0 <= e < |edges|
    ensures var r := Step(verts, edges, clusters, rings, crossing, s, e);
      && Extends(s.tris, r.tris) && IndicesIn(r.tris, |s.tris|, |verts|)
      && (r.merged == s.merged ==> |r.tris| == |s.tris|)
      && (r.merged != s.merged ==> r.merged == s.merged + 1 && (|r.tris| == |s.tris| + 3 || |r.tris| == |s.tris| + 6))
  {
    if Open(verts, edges, clusters, e) {
      var other := Partner(verts, edges, clusters, rings, e);
      if other != NoRef {
        PartnerMeaning(verts, edges, clusters, rings, e);
        JoinTris(verts, edges, clusters, crossing, s, e, other);
      }
    }
  }

  /** `n` indices make whole triangles. */
  predicate Whole(n: int)
    decreases if n < 0 then 0 else n
  {
    n == 0 || (n >= 3 && Whole(n - 3))
  }

  lemma {:induction false} WholeAdd(a: int, b: int, c: int)
    requires Whole(a) && Whole(b) && c == a + b
    ensures Whole(c)
    decreases if a < 0 then 0 else a
  {
    if a != 0 {
      WholeAdd(a - 3, b, c - 3);
    }
  }

  /** `b` is `a` with whole triangles appended. */
  predicate Grown(a: seq<int>, b: seq<int>)
  {
    Extends(a, b) && Whole(|b| - |a|)
  }

  /** Two appends of whole triangles in a row append whole triangles. The counts `x` and `y`
      of the two appends are passed as given. */
  lemma GrownChain(a: seq<int>, b: seq<int>, c: seq<int>, x: int, y: int)
    requires Extends(a, b) && Extends(b, c)
    requires x == |b| - |a| && y == |c| - |b| && Whole(x) && Whole(y)
    ensures Grown(a, c)
  {
    WholeAdd(x, y, |c| - |a|);
  }

  /** Appending whole triangles to a list of whole triangles leaves a list of whole triangles. */
  lemma GrownThirds(a: seq<int>, b: seq<int>)
    requires Grown(a, b) && |a| % 3 == 0
    ensures |b| % 3 == 0
  {
    ThirdsMeansWhole(|a|);
    WholeAdd(|a|, |b| - |a|, |b|);
    WholeMeansThirds(|b|);
  }

  lemma OneOrTwoTriangles(n: int)
    requires n == 0 || n == 3 || n == 6
    ensures Whole(n)
  {
    assert Whole(0);
    assert Whole(3);
    assert Whole(6);
  }

  lemma {:induction false} WholeTimesThree(k: int)
    requires k >= 0
    ensures Whole(3 * k)
  {
    if k > 0 {
      WholeTimesThree(k - 1);
    }
  }

  lemma {:induction false} ThirdsMeansWhole(n: int)
    requires n >= 0 && n % 3 == 0
    ensures Whole(n)
  {
    WholeTimesThree(n / 3);
  }

  lemma {:induction false} WholeMeansThirds(n: int)
    requires Whole(n)
    ensures n >= 0 && n % 3 == 0
    decreases if n < 0 then 0 else n
  {
    if n != 0 {
      WholeMeansThirds(n - 3);
    }
  }

  /** Lines 36-86 as a whole: the corner table stays keyed by `samePos` lists. */
  lemma {:induction false} SweepCorners(verts: seq<Vertex>, edges: seq<HalfEdge>, clusters: seq<seq<int>>, rings: seq<seq<int>>,
                                        crossing: (int, int) -> (bool, bool), s: Sweep)
    requires Mergeable(verts, edges, clusters, rings) && EdgesIn(s.rest, edges) && CornersOf(s.corners, |clusters|)
    ensures CornersOf(SweepAll(verts, edges, clusters, rings, crossing, s).corners, |clusters|)
    decreases |s.rest|
  {
    if s.rest != [] {
      var s' := s.(rest := s.rest[1..]);
      StepCorners(verts, edges, clusters, rings, crossing, s', s.rest[0]);
      SweepCorners(verts, edges, clusters, rings, crossing, Step(verts, edges, clusters, rings, crossing, s', s.rest[0]));
    }
  }

  /** Lines 36-86 as a whole: the original index list stays a prefix and only vertex indices
      are appended. */
  lemma {:induction false} SweepExtends(verts: seq<Vertex>, edges: seq<HalfEdge>, clusters: seq<seq<int>>, rings: seq<seq<int>>,
                                        crossing: (int, int) -> (bool, bool), s: Sweep)
    requires Mergeable(verts, edges, clusters, rings) && EdgesIn(s.rest, edges)
    ensures var r := SweepAll(verts, edges, clusters, rings, crossing, s);
      Extends(s.tris, r.tris) && IndicesIn(r.tris, |s.tris|, |verts|)
    decreases |s.rest|
  {
    if s.rest != [] {
      var s' := s.(rest := s.rest[1..]);
      StepTris(verts, edges, clusters, rings, crossing, s', s.rest[0]);
      SweepExtends(verts, edges, clusters, rings, crossing, Step(verts, edges, clusters, rings, crossing, s', s.rest[0]));
    }
  }

  /** Lines 36-86 as a whole: only whole triangles are appended. */
  /** Lines 36-86 as a whole: the `n` indices appended make whole triangles. */
  lemma {:induction false} SweepWhole(verts: seq<Vertex>, edges: seq<HalfEdge>, clusters: seq<seq<int>>, rings: seq<seq<int>>,
                                      crossing: (int, int) -> (bool, bool), s: Sweep, n: int)
    requires Mergeable(verts, edges, clusters, rings) && EdgesIn(s.rest, edges)
    requires n == |SweepAll(verts, edges, clusters, rings, crossing, s).tris| - |s.tris|
    ensures Whole(n)
    decreases |s.rest|
  {
    if s.rest != [] {
      var s' := s.(rest := s.rest[1..]);
      var t := Step(verts, edges, clusters, rings, crossing, s', s.rest[0]);
      StepTris(verts, edges, clusters, rings, crossing, s', s.rest[0]);
      var a := |t.tris| - |s.tris|;
      var b := |SweepAll(verts, edges, clusters, rings, crossing, t).tris| - |t.tris|;
      assert SweepAll(verts, edges, clusters, rings, crossing, s) == SweepAll(verts, edges, clusters, rings, crossing, t);
      SweepWhole(verts, edges, clusters, rings, crossing, t, b);
      OneOrTwoTriangles(a);
      WholeAdd(a, b, n);
    }
  }

  /** Lines 36-86 as a whole: each merged edge adds one or two triangles and nothing else adds
      any. */
  lemma {:induction false} SweepMerged(verts: seq<Vertex>, edges: seq<HalfEdge>, clusters: seq<seq<int>>, rings: seq<seq<int>>,
                                       crossing: (int, int) -> (bool, bool), s: Sweep)
    requires Mergeable(verts, edges, clusters, rings) && EdgesIn(s.rest, edges)
    ensures var r := SweepAll(verts, edges, clusters, rings, crossing, s);
      s.merged <= r.merged && 3 * (r.merged - s.merged) <= |r.tris| - |s.tris| <= 6 * (r.merged - s.merged)
    decreases |s.rest|
  {
    if s.rest != [] {
      var s' := s.(rest := s.rest[1..]);
      StepTris(verts, edges, clusters, rings, crossing, s', s.rest[0]);
      SweepMerged(verts, edges, clusters, rings, crossing, Step(verts, edges, clusters, rings, crossing, s', s.rest[0]));
    }
  }

  /** `new LinkedList(topology.edges)`: every edge, in list order. */
  function AllEdges(n: nat): (r: seq<int>)
    ensures |r| == n && forall i :: 0 <= i < n ==> r[i] == i
  {
    seq(n, i => i)
  }

  /** Lines 72-85: the fold test, the bridging triangles, the removal of the partner, the
      corner markers and the merged-edge count. */
  method Bridge(verts: seq<Vertex>, edges: seq<HalfEdge>, clusters: seq<seq<int>>, crossing: (int, int) -> (bool, bool),
                rest: seq<int>, tris: seq<int>, corners: Corners, ghost merged: nat, e: int, other: int, log: Log.Log)
    returns (rest': seq<int>, tris': seq<int>, corners': Corners)
    requires Wf(verts, edges, clusters) && 0 <= e < |edges| && 0 <= other < |edges| && Open(verts, edges, clusters, e)
    modifies log
    ensures var r := Join(verts, edges, clusters, crossing, Sweep(rest, tris, corners, merged), e, other);
      rest' == r.rest && tris' == r.tris && corners' == r.corners &&
      log.mergedEdgeCnt == old(log.mergedEdgeCnt) + (r.merged - merged)
    ensures log.text == old(log.text) && log.lineCnt == old(log.lineCnt) && log.mergedCornerCnt == old(log.mergedCornerCnt)
  {
    var from, to := edges[e].vertex, edges[edges[e].next].vertex;
    var x := crossing(e, other);
    if x.0 && x.1 {
      rest', tris' := rest, tris;
      corners' := AddCorner2(corners, verts[from].samePos, verts[to].samePos, NoRef, NoRef);
      return;
    }
    var i0, i1 := verts[from].index, verts[to].index;
    var i2, i3 := verts[edges[other].vertex].index, verts[edges[edges[other].next].vertex].index;
    tris' := tris;
    if !x.0 {
      tris' := tris' + [i0, i3, i2];
    }
    if !x.1 {
      tris' := tris' + [i0, i2, i1];
    }
    assert tris' == tris + Crease(i0, i1, i2, i3, x.0, x.1);
    rest' := Unlink(rest, e, other);
    corners' := AddCorner2(corners, verts[from].samePos, verts[to].samePos, e, other);
    log.CountMergedEdge();
  }

  /** Lines 36-86: the loop over the working list. The merged-edge counter of the log rises
      once per bridged edge. */
  method Stitch(verts: seq<Vertex>, edges: seq<HalfEdge>, clusters: seq<seq<int>>, ghost rings: seq<seq<int>>,
                crossing: (int, int) -> (bool, bool), tris0: seq<int>, log: Log.Log)
    returns (tris: seq<int>, corners: Corners)
    requires Mergeable(verts, edges, clusters, rings)
    modifies log
    ensures var r := SweepAll(verts, edges, clusters, rings, crossing, Sweep(AllEdges(|edges|), tris0, Corners([], map[]), 0));
      tris == r.tris && corners == r.corners && log.mergedEdgeCnt == old(log.mergedEdgeCnt) + r.merged
    ensures log.text == old(log.text) && log.lineCnt == old(log.lineCnt) && log.mergedCornerCnt == old(log.mergedCornerCnt)
  {
    var rest := AllEdges(|edges|);
    tris, corners := tris0, Corners([], map[]);
    ghost var merged: nat := 0;
    ghost var goal := SweepAll(verts, edges, clusters, rings, crossing, Sweep(rest, tris, corners, 0));
    while rest != []
      invariant EdgesIn(rest, edges)
      invariant goal == SweepAll(verts, edges, clusters, rings, crossing, Sweep(rest, tris, corners, merged))
      invariant log.mergedEdgeCnt == old(log.mergedEdgeCnt) + merged
      invariant log.text == old(log.text) && log.lineCnt == old(log.lineCnt) && log.mergedCornerCnt == old(log.mergedCornerCnt)
      decreases |rest|
    {
      var e := rest[0];
      rest := rest[1..];
      ghost var s := Sweep(rest, tris, corners, merged);
      assert goal == SweepAll(verts, edges, clusters, rings, crossing, Step(verts, edges, clusters, rings, crossing, s, e));
      if edges[e].pair != NoRef {
        continue;
      }
      var from, to := edges[e].vertex, edges[edges[e].next].vertex;
      if verts[from].samePos == NoRef || verts[to].samePos == NoRef {
        continue;
      }
      var other := FindPartner(verts, edges, clusters, rings, e);
      if other == NoRef {
        continue;
      }
      PartnerMeaning(verts, edges, clusters, rings, e);
      ghost var next := Join(verts, edges, clusters, crossing, s, e, other);
      rest, tris, corners := Bridge(verts, edges, clusters, crossing, rest, tris, corners, merged, e, other, log);
      merged := next.merged;
    }
  }

  // ------------------------------------------------------------------------------------------
  // Lines 89-137: the corners

  /** Lines 92-103: a corner is filled when its list has more than four markers, none null. */
  predicate Fillable(markers: seq<int>)
  {
    |markers| > 4 && NoRef !in markers
  }

  /** The elements of `s` come in order of their keys. */
  predicate SortedBy(s: seq<int>, key: int -> real)
  {
    forall i, j :: 0 <= i < j < |s| ==> key(s[i]) <= key(s[j])
  }

  /** Puts `x` after every leading element whose key is not greater than its own. */
  function InsertBy(x: int, s: seq<int>, key: int -> real): (r: seq<int>)
    ensures multiset(r) == multiset(s) + multiset{x} && |r| == |s| + 1
  {
    if s == [] then [x]
    else if key(x) < key(s[0]) then [x] + s
    else
      assert s == [s[0]] + s[1..];
      [s[0]] + InsertBy(x, s[1..], key)
  }

  /** A lower bound on the keys of `x` and of `s` bounds the keys of the insertion. */
  lemma {:induction false} InsertByBounded(x: int, s: seq<int>, key: int -> real, b: real)
    requires b <= key(x) && forall i :: 0 <= i < |s| ==> b <= key(s[i])
    ensures forall i :: 0 <= i < |InsertBy(x, s, key)| ==> b <= key(InsertBy(x, s, key)[i])
  {
    if s != [] && key(x) >= key(s[0]) {
      InsertByBounded(x, s[1..], key, b);
    }
  }

  /** An element with a key no greater than every key of a sorted sequence can go first. */
  lemma ConsSorted(x: int, t: seq<int>, key: int -> real)
    requires SortedBy(t, key) && forall i :: 0 <= i < |t| ==> key(x) <= key(t[i])
    ensures SortedBy([x] + t, key)
  {
    var r := [x] + t;
    forall i, j | 0 <= i < j < |r|
      ensures key(r[i]) <= key(r[j])
    {
      assert r[j] == t[j - 1];
      if i > 0 {
        assert r[i] == t[i - 1];
      }
    }
  }

  /** Inserting into a sorted sequence keeps it sorted. */
  lemma {:induction false} InsertBySorted(x: int, s: seq<int>, key: int -> real)
    requires SortedBy(s, key)
    ensures SortedBy(InsertBy(x, s, key), key)
  {
    if s == [] {
    } else if key(x) < key(s[0]) {
      forall i | 0 <= i < |s|
        ensures key(x) <= key(s[i])
      {
        if i > 0 {
          assert key(s[0]) <= key(s[i]);
        }
      }
      ConsSorted(x, s, key);
    } else {
      var t := InsertBy(x, s[1..], key);
      assert SortedBy(s[1..], key) by {
        forall i, j | 0 <= i < j < |s[1..]|
          ensures key(s[1..][i]) <= key(s[1..][j])
        {
          assert s[1..][i] == s[i + 1] && s[1..][j] == s[j + 1];
        }
      }
      InsertBySorted(x, s[1..], key);
      forall i | 0 <= i < |s[1..]|
        ensures key(s[0]) <= key(s[1..][i])
      {
        assert s[1..][i] == s[i + 1];
      }
      InsertByBounded(x, s[1..], key, key(s[0]));
      ConsSorted(s[0], t, key);
    }
  }

  /** Line 128, `OrderBy(a => a.theta)`: a stable sort, each element inserted after the earlier
      ones with an equal key. */
  function OrderBy(s: seq<int>, key: int -> real): (r: seq<int>)
    ensures multiset(r) == multiset(s) && |r| == |s|
    ensures SortedBy(r, key)
  {
    if s == [] then []
    else
      assert s == s[..|s| - 1] + [s[|s| - 1]];
      InsertBySorted(s[|s| - 1], OrderBy(s[..|s| - 1], key), key);
      InsertBy(s[|s| - 1], OrderBy(s[..|s| - 1], key), key)
  }

  /** Lines 131-135 for the first `n` ordered vertices: triangles `(v[0], v[j-1], v[j])`. */
  function Fan(verts: seq<Vertex>, vs: seq<int>, n: nat): seq<int>
    requires n <= |vs| && forall i :: 0 <= i < |vs| ==> 0 <= vs[i] < |verts|
  {
    if n <= 2 then []
    else Fan(verts, vs, n - 1) + [verts[vs[0]].index, verts[vs[n - 2]].index, verts[vs[n - 1]].index]
  }

  /** The fan over `n` vertices has `n - 2` triangles, the `u`-th being `(v[0], v[u+1], v[u+2])`. */
  lemma {:induction false} FanShape(verts: seq<Vertex>, vs: seq<int>, n: nat)
    requires n <= |vs| && forall i :: 0 <= i < |vs| ==> 0 <= vs[i] < |verts|
    ensures |Fan(verts, vs, n)| == if n < 2 then 0 else 3 * (n - 2)
    ensures forall u :: 0 <= u && 3 * u + 2 < |Fan(verts, vs, n)| ==>
      Fan(verts, vs, n)[3 * u] == verts[vs[0]].index && Fan(verts, vs, n)[3 * u + 1] == verts[vs[u + 1]].index &&
      Fan(verts, vs, n)[3 * u + 2] == verts[vs[u + 2]].index
  {
    if n > 2 {
      FanShape(verts, vs, n - 1);
    }
  }

  /** The vertices of list `c`, ordered by their angle about the corner. */
  function Ordered(verts: seq<Vertex>, clusters: seq<seq<int>>, angle: (int, int) -> real, c: int): (vs: seq<int>)
    requires ClusterShape(SamePos(verts), clusters) && 0 <= c < |clusters|
    ensures multiset(vs) == multiset(clusters[c]) && |vs| == |clusters[c]|
    ensures forall i :: 0 <= i < |vs| ==> 0 <= vs[i] < |verts|
  {
    var vs := OrderBy(clusters[c], v => angle(c, v));
    forall i | 0 <= i < |vs|
      ensures 0 <= vs[i] < |verts|
    {
      assert vs[i] in multiset(clusters[c]);
    }
    vs
  }

  /** What lines 92-135 add for list `c` with markers `markers`. */
  function CornerTris(verts: seq<Vertex>, clusters: seq<seq<int>>, angle: (int, int) -> real, c: int, markers: seq<int>): seq<int>
    requires ClusterShape(SamePos(verts), clusters) && 0 <= c < |clusters|
  {
    if Fillable(markers) then
      var vs := Ordered(verts, clusters, angle, c);
      Fan(verts, vs, |vs|)
    else []
  }

  /** Each index of the fan over `vs` is the index of one of the vertices `vs`. */
  lemma FanMembers(verts: seq<Vertex>, vs: seq<int>)
    requires forall i :: 0 <= i < |vs| ==> 0 <= vs[i] < |verts|
    ensures forall k :: 0 <= k < |Fan(verts, vs, |vs|)| ==> Fan(verts, vs, |vs|)[k] in IndexOf(verts, vs)
  {
    var r := Fan(verts, vs, |vs|);
    FanShape(verts, vs, |vs|);
    forall k | 0 <= k < |r|
      ensures r[k] in IndexOf(verts, vs)
    {
      var u := k / 3;
      var i: int;
      if k % 3 == 0 {
        assert k == 3 * u;
        i := 0;
      } else if k % 3 == 1 {
        assert k == 3 * u + 1;
        i := u + 1;
      } else {
        assert k == 3 * u + 2;
        i := u + 2;
      }
      assert r[k] == IndexOf(verts, vs)[i];
    }
  }

  /** The indices of the vertices `vs`. */
  function IndexOf(verts: seq<Vertex>, vs: seq<int>): (r: seq<int>)
    requires forall i :: 0 <= i < |vs| ==> 0 <= vs[i] < |verts|
    ensures |r| == |vs| && forall i :: 0 <= i < |vs| ==> r[i] == verts[vs[i]].index
  {
    seq(|vs|, i requires 0 <= i < |vs| => verts[vs[i]].index)
  }

  /** A filled corner over `n` coincident vertices adds `n - 2` triangles, all made of vertices
      of that corner and all sharing the first vertex in angular order. */
  lemma CornerFan(verts: seq<Vertex>, clusters: seq<seq<int>>, angle: (int, int) -> real, c: int, markers: seq<int>)
    requires VertsOk(verts, clusters) && 0 <= c < |clusters| && Fillable(markers)
    ensures var r := CornerTris(verts, clusters, angle, c, markers);
      && |r| == 3 * (|clusters[c]| - 2)
      && (forall k :: 0 <= k < |r| ==> r[k] in clusters[c] && 0 <= r[k] < |verts|)
      && (forall u :: 0 <= u && 3 * u + 2 < |r| ==> r[3 * u] == r[0])
  {
    var vs := Ordered(verts, clusters, angle, c);
    FanShape(verts, vs, |vs|);
    FanMembers(verts, vs);
    var r := Fan(verts, vs, |vs|);
    assert r == CornerTris(verts, clusters, angle, c, markers);
    assert IndexOf(verts, vs) == vs;
    forall k | 0 <= k < |r|
      ensures r[k] in clusters[c] && 0 <= r[k] < |verts|
    {
      assert r[k] in multiset(vs);
      var i :| 0 <= i < |vs| && vs[i] == r[k];
    }
    assert |r| == 3 * (|clusters[c]| - 2);
    forall u | 0 <= u && 3 * u + 2 < |r|
      ensures r[3 * u] == r[0]
    {
      assert r[3 * 0] == verts[vs[0]].index;
    }
  }

  /** The triangles lines 89-137 add for the first `n` lists of the table. */
  function FillTris(verts: seq<Vertex>, clusters: seq<seq<int>>, angle: (int, int) -> real, corners: Corners, n: nat): seq<int>
    requires ClusterShape(SamePos(verts), clusters) && CornersOf(corners, |clusters|) && n <= |corners.keys|
  {
    if n == 0 then []
    else
      var c := corners.keys[n - 1];
      FillTris(verts, clusters, angle, corners, n - 1) + CornerTris(verts, clusters, angle, c, corners.markers[c])
  }

  /** The corners lines 89-137 count among the first `n` lists of the table. */
  ghost function FillCount(corners: Corners, n: nat): nat
    requires CornersOk(corners) && n <= |corners.keys|
  {
    if n == 0 then 0
    else
      var c := corners.keys[n - 1];
      assert c in corners.keys;
      FillCount(corners, n - 1) + if Fillable(corners.markers[c]) then 1 else 0
  }

  /** Lines 89-137 as a whole: only vertex indices are appended. */
  lemma {:induction false} FillIndices(verts: seq<Vertex>, clusters: seq<seq<int>>, angle: (int, int) -> real, corners: Corners, n: nat)
    requires VertsOk(verts, clusters) && CornersOf(corners, |clusters|) && n <= |corners.keys|
    ensures IndicesIn(FillTris(verts, clusters, angle, corners, n), 0, |verts|)
  {
    if n > 0 {
      FillIndices(verts, clusters, angle, corners, n - 1);
      var c, markers := FillStep(verts, clusters, angle, corners, n);
      CornerIndices(verts, clusters, angle, c, markers);
      JoinIndices(FillTris(verts, clusters, angle, corners, n - 1), CornerTris(verts, clusters, angle, c, markers), |verts|);
    }
  }

  /** The `n`-th corner of the table appends its triangles to those of the corners before it. */
  lemma FillStep(verts: seq<Vertex>, clusters: seq<seq<int>>, angle: (int, int) -> real, corners: Corners, n: nat)
    returns (c: int, markers: seq<int>)
    requires VertsOk(verts, clusters) && CornersOf(corners, |clusters|) && 0 < n <= |corners.keys|
    ensures 0 <= c < |clusters|
    ensures FillTris(verts, clusters, angle, corners, n) ==
      FillTris(verts, clusters, angle, corners, n - 1) + CornerTris(verts, clusters, angle, c, markers)
  {
    c := corners.keys[n - 1];
    assert c in corners.keys;
    markers := corners.markers[c];
  }

  /** Every index a corner adds names a vertex. */
  lemma CornerIndices(verts: seq<Vertex>, clusters: seq<seq<int>>, angle: (int, int) -> real, c: int, markers: seq<int>)
    requires VertsOk(verts, clusters) && 0 <= c < |clusters|
    ensures var r := CornerTris(verts, clusters, angle, c, markers);
      forall k :: 0 <= k < |r| ==> 0 <= r[k] < |verts|
  {
    if Fillable(markers) {
      CornerFan(verts, clusters, angle, c, markers);
    }
  }

  /** Two lists of vertex indices joined are a list of vertex indices. */
  lemma JoinIndices(a: seq<int>, b: seq<int>, nVerts: int)
    requires IndicesIn(a, 0, nVerts) && forall k :: 0 <= k < |b| ==> 0 <= b[k] < nVerts
    ensures IndicesIn(a + b, 0, nVerts)
  {
    forall k | 0 <= k < |a + b|
      ensures 0 <= (a + b)[k] < nVerts
    {
      if k >= |a| {
        assert (a + b)[k] == b[k - |a|];
      }
    }
  }

  /** Lines 89-137 as a whole: the `len` indices appended make whole triangles. */
  lemma {:induction false} FillWhole(verts: seq<Vertex>, clusters: seq<seq<int>>, angle: (int, int) -> real, corners: Corners,
                                     n: nat, len: int)
    requires VertsOk(verts, clusters) && CornersOf(corners, |clusters|) && n <= |corners.keys|
    requires len == |FillTris(verts, clusters, angle, corners, n)|
    ensures Whole(len)
  {
    if n == 0 {
      assert Whole(0);
    } else {
      var c := corners.keys[n - 1];
      var markers := corners.markers[c];
      var a := |FillTris(verts, clusters, angle, corners, n - 1)|;
      FillWhole(verts, clusters, angle, corners, n - 1, a);
      var b := |CornerTris(verts, clusters, angle, c, markers)|;
      if Fillable(markers) {
        CornerFan(verts, clusters, angle, c, markers);
        WholeTimesThree(|clusters[c]| - 2);
      } else {
        assert Whole(0);
      }
      WholeAdd(a, b, len);
    }
  }

  /** Lines 89-137 as a whole: no more corners counted than lists, and triangles only when some
      corner was counted. */
  lemma {:induction false} FillCounted(verts: seq<Vertex>, clusters: seq<seq<int>>, angle: (int, int) -> real, corners: Corners, n: nat)
    requires VertsOk(verts, clusters) && CornersOf(corners, |clusters|) && n <= |corners.keys|
    ensures FillCount(corners, n) <= n
    ensures FillCount(corners, n) == 0 ==> FillTris(verts, clusters, angle, corners, n) == []
  {
    if n > 0 {
      FillCounted(verts, clusters, angle, corners, n - 1);
    }
  }

  lemma SeqAssoc(a: seq<int>, b: seq<int>, c: seq<int>)
    ensures (a + b) + c == a + (b + c)
  {
  }

  /** Lines 131-135: the fan for one corner, appended to `tris`. */
  method AddFan(verts: seq<Vertex>, vs: seq<int>, tris0: seq<int>) returns (tris: seq<int>)
    requires forall i :: 0 <= i < |vs| ==> 0 <= vs[i] < |verts|
    ensures tris == tris0 + Fan(verts, vs, |vs|)
  {
    tris := tris0;
    var j := 2;
    while j < |vs|
      invariant 2 <= j && (j <= |vs| || |vs| < 2)
      invariant tris == tris0 + Fan(verts, vs, if j <= |vs| then j else |vs|)
    {
      tris := tris + [verts[vs[0]].index, verts[vs[j - 1]].index, verts[vs[j]].index];
      j := j + 1;
    }
  }

  /** Lines 97-102: whether a marker is null. */
  method IsComplex(markers: seq<int>) returns (complex: bool)
    ensures complex <==> NoRef in markers
  {
    complex := false;
    for j := 0 to |markers|
      invariant !complex && NoRef !in markers[..j]
    {
      if markers[j] != NoRef {
        continue;
      }
      complex := true;
      break;
    }
  }

  /** Lines 89-137: the corner loop. The corner counter of the log rises once per filled corner. */
  method FillCorners(verts: seq<Vertex>, clusters: seq<seq<int>>, angle: (int, int) -> real, corners: Corners,
                     tris0: seq<int>, log: Log.Log)
    returns (tris: seq<int>)
    requires ClusterShape(SamePos(verts), clusters) && CornersOf(corners, |clusters|)
    modifies log
    ensures tris == tris0 + FillTris(verts, clusters, angle, corners, |corners.keys|)
    ensures log.mergedCornerCnt == old(log.mergedCornerCnt) + FillCount(corners, |corners.keys|)
    ensures log.text == old(log.text) && log.lineCnt == old(log.lineCnt) && log.mergedEdgeCnt == old(log.mergedEdgeCnt)
  {
    tris := tris0;
    for n := 0 to |corners.keys|
      invariant tris == tris0 + FillTris(verts, clusters, angle, corners, n)
      invariant log.mergedCornerCnt == old(log.mergedCornerCnt) + FillCount(corners, n)
      invariant log.text == old(log.text) && log.lineCnt == old(log.lineCnt) && log.mergedEdgeCnt == old(log.mergedEdgeCnt)
    {
      var c := corners.keys[n];
      var markers := corners.markers[c];
      ghost var add := CornerTris(verts, clusters, angle, c, markers);
      assert FillTris(verts, clusters, angle, corners, n + 1) == FillTris(verts, clusters, angle, corners, n) + add;
      SeqAssoc(tris0, FillTris(verts, clusters, angle, corners, n), add);
      if |markers| <= 4 {
        assert add == [];
        continue;
      }
      var complex := IsComplex(markers);
      if complex {
        assert add == [];
        continue;
      }
      var vs := Ordered(verts, clusters, angle, c);
      tris := AddFan(verts, vs, tris);
      log.CountMergedCorner();
    }
  }

  // ------------------------------------------------------------------------------------------
  // The whole of `proc`

  /** How `proc` ends: the topology threw (a vertex no triangle uses), or the new index lists
      of the sub-meshes. */
  datatype Outcome = Thrown | Merged(subMeshes: seq<seq<int>>)

  /** The index list lines 22-140 leave for sub-mesh 0: the stitched list, then the corner
      fans built from the corner table the stitching filled. */
  ghost function MergedTris(verts: seq<Vertex>, edges: seq<HalfEdge>, clusters: seq<seq<int>>, rings: seq<seq<int>>,
                            crossing: (int, int) -> (bool, bool), angle: (int, int) -> real, tris0: seq<int>): seq<int>
    requires Mergeable(verts, edges, clusters, rings)
  {
    var s0 := Sweep(AllEdges(|edges|), tris0, Corners([], map[]), 0);
    var r := SweepAll(verts, edges, clusters, rings, crossing, s0);
    SweepCorners(verts, edges, clusters, rings, crossing, s0);
    r.tris + FillTris(verts, clusters, angle, r.corners, |r.corners.keys|)
  }

  /** Lines 22-140 only append whole triangles of vertex indices to sub-mesh 0. */
  lemma MergedTrisShape(verts: seq<Vertex>, edges: seq<HalfEdge>, clusters: seq<seq<int>>, rings: seq<seq<int>>,
                        crossing: (int, int) -> (bool, bool), angle: (int, int) -> real, tris0: seq<int>)
    requires Mergeable(verts, edges, clusters, rings)
    ensures var tris := MergedTris(verts, edges, clusters, rings, crossing, angle, tris0);
      Grown(tris0, tris) && IndicesIn(tris, |tris0|, |verts|)
  {
    var s0 := Sweep(AllEdges(|edges|), tris0, Corners([], map[]), 0);
    var r := SweepAll(verts, edges, clusters, rings, crossing, s0);
    SweepCorners(verts, edges, clusters, rings, crossing, s0);
    SweepExtends(verts, edges, clusters, rings, crossing, s0);
    var x := |r.tris| - |tris0|;
    SweepWhole(verts, edges, clusters, rings, crossing, s0, x);
    var fill := FillTris(verts, clusters, angle, r.corners, |r.corners.keys|);
    var tris := r.tris + fill;
    FillIndices(verts, clusters, angle, r.corners, |r.corners.keys|);
    var y := |tris| - |r.tris|;
    FillWhole(verts, clusters, angle, r.corners, |r.corners.keys|, y);
    AppendIndices(r.tris, fill, |verts|);
    ChainTris(tris0, r.tris, tris, |verts|);
    GrownChain(tris0, r.tris, tris, x, y);
  }

  /** Lines 22-140 on a built topology: the stitching loop and then the corner loop. */
  method MergeTopology(verts: seq<Vertex>, edges: seq<HalfEdge>, clusters: seq<seq<int>>, ghost rings: seq<seq<int>>,
                       crossing: (int, int) -> (bool, bool), angle: (int, int) -> real, tris0: seq<int>, log: Log.Log)
    returns (tris: seq<int>)
    requires Mergeable(verts, edges, clusters, rings)
    modifies log
    ensures tris == MergedTris(verts, edges, clusters, rings, crossing, angle, tris0)
    ensures log.text == old(log.text) && log.lineCnt == old(log.lineCnt)
  {
    var corners;
    tris, corners := Stitch(verts, edges, clusters, rings, crossing, tris0, log);
    SweepCorners(verts, edges, clusters, rings, crossing, Sweep(AllEdges(|edges|), tris0, Corners([], map[]), 0));
    tris := FillCorners(verts, clusters, angle, corners, tris, log);
  }

  /** `proc(srcMesh, dstMesh, mergeLength)` on the copy of the source mesh: positions, normals
      and sub-mesh index lists. The bridging and corner triangles are appended to sub-mesh 0, and
      the log receives one report. */
  method Proc(srcName: string, dstName: string, positions: seq<Geom.Vec3>, normals: seq<Geom.Vec3>, subMeshes: seq<seq<int>>,
              mergeLength: real, crossing: (int, int) -> (bool, bool), angle: (int, int) -> real, log: Log.Log)
    returns (r: Outcome)
    requires |subMeshes| >= 1
    requires forall s :: 0 <= s < |subMeshes| ==> |subMeshes[s]| % 3 == 0
    requires forall s, k :: 0 <= s < |subMeshes| && 0 <= k < |subMeshes[s]| ==> 0 <= subMeshes[s][k] < |positions|
    modifies log
    ensures r.Thrown? <==> |normals| < |positions| || exists x :: 0 <= x < |positions| && x !in Concat(subMeshes)
    ensures r.Merged? ==>
      && |r.subMeshes| == |subMeshes| && r.subMeshes[1..] == subMeshes[1..]
      && Extends(subMeshes[0], r.subMeshes[0]) && |r.subMeshes[0]| % 3 == 0
      && IndicesIn(r.subMeshes[0], 0, |positions|)
    ensures r.Merged? ==> log.lineCnt == old(log.lineCnt) + (if old(log.text) == "" then 4 else 6)
  {
    log.BeginOneEdgeMerge();
    var t, v := Build(positions, normals, subMeshes, mergeLength);
    if t == null {
      return Thrown;
    }
    MergeableAfterBuild(t.verts, t.edges, t.faces, t.clusters, t.id2edge, t.keys, t.rings);
    var newTris := MergeTopology(t.verts, t.edges, t.clusters, t.rings, crossing, angle, subMeshes[0], log);
    MergedTrisShape(t.verts, t.edges, t.clusters, t.rings, crossing, angle, subMeshes[0]);
    GrownThirds(subMeshes[0], newTris);
    var out := subMeshes[0 := newTris];
    log.EndOneEdgeMerge(true, Log.MeshInfo(srcName, |Concat(subMeshes)|), Log.MeshInfo(dstName, |Concat(out)|));
    r := Merged(out);
  }
}
