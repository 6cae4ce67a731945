# IzFbxTools core, modelled in Dafny

IzFbxTools is a set of Unity editor tools for FBX-imported meshes and animation clips. This
project models its computational core:

- **Geometry primitives** (`M.cs`): dot and cross products, quarter turns, and the 2D
  half-line crossing test `isCrossing`.
- **Topology builder** (`Topology.cs`): builds a half-edge mesh from vertex and index buffers.
  It creates one half-edge per directed triangle side, keyed by the ordered vertex pair, pairs
  each half-edge with its reverse, and threads each vertex's outgoing edges into a `left` ring.
  It wires `next`/`prev`/`face`, runs the validation pass, and groups coincident vertices into
  `samePos` clusters with a single forward scan.
- **Edge merger** (`EdgeMerger.cs`): the seam stitcher. It walks the boundary half-edges, finds
  the mirrored partner across a seam, and bridges crease pairs with one or two triangles. It
  records the corner markers it meets and fan-fills every corner with more than four markers.
- **Mesh combiner** (`MeshCombiner.cs`): `MeshObject` (reset, validate, generate) and `addTo`.
  `addTo` appends the vertex channels, merges bone and material lists without duplicates,
  remaps bone weights, lays out the bind poses and re-places the sub-meshes.
- **Animation generators**:
  - `MirrorAnimGenerator.cs`: the mirrored clip name and file path, the path rewriting that
    swaps left and right directory suffixes, and the key negation.
  - `VisibilityAnimGenerator.cs`: converts flag curves into `m_Enabled` curves on the matched
    target objects, with a per-flag cache of the resolved targets.
- **YAML name/ID scanner** (`YamlParser.cs`, `makeNameIdMap`). The scan fails exactly when
  the first name lines of two sections of one kind carry the same name. Otherwise the name on
  the first name line of every mesh or clip section maps to that section's header ID.
- **Result logs** (`Log.cs`, `LogBuilder.cs`): counters, and a text report whose line count is
  tracked alongside it.

The model follows the source's form.
- Stateful objects are classes whose methods carry `modifies` clauses: the topology, the
  logs, `MeshObject` and the visibility generator.
- Each loop is a method proved against a function that specifies it.
- Pure helpers are functions, and the properties are lemmas about those functions.

Behaviours of the code that the model keeps:
- **Validation.** The validation pass only logs mismatches. It does throw, at
  `Topology.cs:92`, when a vertex belongs to no triangle, because its edge is null and is
  dereferenced. It also throws earlier, at `Topology.cs:49`, when the mesh has fewer normals
  than vertices. `Topology.Build` and `EdgeMerger.Proc` model exactly these two throws.
- **A ray along the connecting line.** `isCrossing(((0,0),(1,0)), ((1,0),(-1,1)))` is false:
  the first ray points along the line joining the two origins, so `l0dt` is 0. See
  `Geom.TouchingInteriorNotCrossing` and `Geom.AlongConnectingLineNotCrossing`.
- **Valley corners.** A valley records two null markers for each of the two clusters of `e`'s
  endpoints. See `EdgeMerger.AddCorner2Markers`.
- **The centre test of `MirrorAnimGenerator.cs:67`.** `proc` is modelled as written, so
  `MirrorAnim.Proc` negates `m_LocalPosition.x` of a bone under a left directory, whose mirrored
  path line 67 as written counts as centre. The
  intended test is modelled beside it, in `MirrorAnim.MirrorClipCorrected`, and the involution
  results are proved for that one (see Findings).

## Model

| member | source | states |
|---|---|---|
| Geom.Cross | unity/ToonMeshEdgeMerger/Editor/M.cs:22-26 | the cross product is orthogonal to both arguments |
| Geom.CrossAntiCommutes | unity/ToonMeshEdgeMerger/Editor/M.cs:22-26 | swapping the arguments negates the cross product |
| Geom.Rot90 | unity/ToonMeshEdgeMerger/Editor/M.cs:29 | the quarter turn is orthogonal to its argument, keeps its length and is undone by `rot270` |
| Geom.Rot270 | unity/ToonMeshEdgeMerger/Editor/M.cs:31 | the reverse quarter turn is orthogonal to its argument and keeps its length |
| Geom.RotationsInverse | unity/ToonMeshEdgeMerger/Editor/M.cs:29-31 | `rot90` and `rot270` are mutually inverse |
| Geom.IsCrossingAsWritten | unity/ToonMeshEdgeMerger/Editor/M.cs:37-62 | defined as `isCrossing` line by line: `p01` divided by its magnitude (supplied, since square roots are not modelled), true when that magnitude is zero, and the two sign tests on the quarter-turned axis |
| Geom.IsCrossing | unity/ToonMeshEdgeMerger/Editor/M.cs:37-62 | defined as the same sign tests on the undivided `p01`; `Geom.NormalisationIrrelevant` states that it agrees with `Geom.IsCrossingAsWritten` |
| Geom.SideTestScaleInvariant | unity/ToonMeshEdgeMerger/Editor/M.cs:52-61 | both sign tests give the same answer for any positive rescaling of the axis, so normalising `p01` cannot change the verdict |
| Geom.NormalisationIrrelevant | unity/ToonMeshEdgeMerger/Editor/M.cs:37-62 | the crossing test as written, with its division by the magnitude, equals the division-free test |
| Geom.TangentTerm | unity/ToonMeshEdgeMerger/Editor/M.cs:56-58 | for two half-lines placed symmetrically about a centre, the side term of each is a fixed multiple of the sine of its turning angle |
| Geom.TurningTerm | unity/ToonMeshEdgeMerger/Editor/M.cs:61 | the final term of the test is minus the sine of the angle between the two directions, times the squared half-distance |
| Geom.SymmetricPairTerms | unity/ToonMeshEdgeMerger/Editor/M.cs:56-61 | the three terms of the test in closed form for a symmetric pair |
| Geom.SymmetricPairConverging | unity/IzFbxTools/Editor/UnitTest.cs:15-63 | the randomised test's crossing case: two symmetric half-lines that both turn inwards, the first more steeply, cross |
| Geom.SymmetricPairDiverging | unity/IzFbxTools/Editor/UnitTest.cs:15-63 | the randomised test's non-crossing case: when the first turns outwards or less steeply, they do not cross |
| Geom.AlongConnectingLineNotCrossing | unity/ToonMeshEdgeMerger/Editor/M.cs:56-61 | a first half-line that points along the connecting line never counts as crossing |
| Geom.TouchingInteriorNotCrossing | unity/ToonMeshEdgeMerger/Editor/M.cs:37-62 | a ray from (0,0) along (1,0) does not cross a ray from (1,0) along (-1,dy), for any dy |
| Topology.ConcatTriangles | unity/IzFbxTools/Editor/Topology.cs:52-54 | the gathered triangle list is the concatenation of every sub-mesh's indices |
| Topology.ConcatFacts | unity/IzFbxTools/Editor/Topology.cs:52-54 | the concatenation is whole triangles and every index addresses a vertex |
| Topology.Spliced | unity/IzFbxTools/Editor/Topology.cs:63-69 | splicing a new edge into a vertex ring keeps every member and adds exactly the new one |
| Topology.SpliceLeft | unity/IzFbxTools/Editor/Topology.cs:63-69 | the `left` splice links the new edge after the ring head (or to itself in an empty ring) and changes no other edge's wiring |
| Topology.PairWith | unity/IzFbxTools/Editor/Topology.cs:70 | pairing sets `pair` on both edges symmetrically and touches nothing else |
| Topology.Topology.NewEdge | unity/IzFbxTools/Editor/Topology.cs:60-71 | a new half-edge is registered under its directed key, spliced into its origin's ring and paired with its reverse if that exists |
| Topology.Topology.GetEdge | unity/IzFbxTools/Editor/Topology.cs:56-72 | the edge stored for a key is reused; otherwise exactly one edge is created; no other key changes |
| Topology.Topology.GetTriangleEdges | unity/IzFbxTools/Editor/Topology.cs:78 | the three sides of a triangle map to the edges now stored under their directed keys |
| Topology.Topology.AddTriangle | unity/IzFbxTools/Editor/Topology.cs:74-88 | adding a triangle registers its three directed keys, keeps every old key's edge, appends one face and keeps the half-edge invariants; a triangle of fresh keys is fully wired and keeps the mesh linked |
| Topology.Topology.AddTriangles | unity/IzFbxTools/Editor/Topology.cs:73-89 | after the loop the keys are exactly the directed sides of the input triangles, with one recorded face per triangle |
| Topology.Topology.constructor | unity/IzFbxTools/Editor/Topology.cs:42-89 | the built mesh has one vertex per position, keys exactly the triangles' directed sides, one face per triangle, and the invariants hold |
| Topology.DistinctStep | unity/IzFbxTools/Editor/Topology.cs:73-78 | on a mesh with no repeated directed side, each triangle meets only fresh keys |
| Topology.TriangleLoopStep | unity/IzFbxTools/Editor/Topology.cs:73-89 | one loop iteration extends the key set by exactly that triangle's sides and records its face |
| Topology.BuiltStep | unity/IzFbxTools/Editor/Topology.cs:73-89 | the loop invariant of the triangle loop is preserved by one triangle |
| Topology.TriangleStep | unity/IzFbxTools/Editor/Topology.cs:76-86 | wiring one triangle keeps the key, pairing and ring invariants |
| Topology.TriangleWired | unity/IzFbxTools/Editor/Topology.cs:79-86 | after wiring the new triangle, every edge is still wired to a face as its key demands |
| Topology.FreshStep | unity/IzFbxTools/Editor/Topology.cs:78-86 | a triangle of fresh keys keeps the mesh fully linked |
| Topology.FreshEdges | unity/IzFbxTools/Editor/Topology.cs:78 | a triangle of fresh keys gets three new, distinct edges |
| Topology.WireFacts | unity/IzFbxTools/Editor/Topology.cs:79-86 | the wiring sets `next`, `prev`, `face` and `vertex` of the three edges exactly |
| Topology.IndexedAfterWire | unity/IzFbxTools/Editor/Topology.cs:79-86 | rewiring `next`/`prev`/`face` leaves the key, pair and ring invariants intact |
| Topology.LinkedAfterTriangle | unity/IzFbxTools/Editor/Topology.cs:79-86 | a freshly wired triangle keeps every edge's `next.prev` and face back-reference consistent |
| Topology.RingsAfterAdd | unity/IzFbxTools/Editor/Topology.cs:63-69 | after adding an edge, each vertex's ring still lists exactly its outgoing edges in `left` order |
| Topology.SplicedRingOk | unity/IzFbxTools/Editor/Topology.cs:63-69 | the spliced ring is a valid `left` ring of the vertex |
| Topology.SplicedMembers | unity/IzFbxTools/Editor/Topology.cs:63-69 | the spliced ring holds the vertex's outgoing edges, each once |
| Topology.SplicedLinks | unity/IzFbxTools/Editor/Topology.cs:66-68 | after the splice, each ring member's `left` is its ring successor |
| Topology.RingHead | unity/IzFbxTools/Editor/Topology.cs:63-69 | a vertex's stored edge is the head of its ring, or null exactly when the ring is empty |
| Topology.KeysAfterAdd | unity/IzFbxTools/Editor/Topology.cs:59-62 | registering a new key keeps the key index consistent with the edge list |
| Topology.PairsAfterAdd | unity/IzFbxTools/Editor/Topology.cs:70 | pairing with the reverse key keeps `pair` symmetric and equal to the reverse key's edge |
| Topology.NewEdgeStep | unity/IzFbxTools/Editor/Topology.cs:59-71 | creating one edge keeps every half-edge invariant |
| Topology.EmptyIndexed | unity/IzFbxTools/Editor/Topology.cs:48-50 | fresh vertices and no edges satisfy every invariant |
| Topology.CheckVertices | unity/IzFbxTools/Editor/Topology.cs:92 | the vertex validation loop computes the specified verdict, stopping at the first null edge |
| Topology.CheckEdges | unity/IzFbxTools/Editor/Topology.cs:93-97 | the edge validation loop reports exactly the specified pair/next/prev issues |
| Topology.CheckFaces | unity/IzFbxTools/Editor/Topology.cs:98 | the face validation loop reports exactly the specified face issues |
| Topology.Topology.Validate | unity/IzFbxTools/Editor/Topology.cs:91-98 | validation returns the specified verdict over all vertices, edges and faces |
| Topology.VertexChecksThrow | unity/IzFbxTools/Editor/Topology.cs:92 | the vertex checks throw exactly when some vertex has no edge, and they name the first one |
| Topology.VertexChecksStop | unity/IzFbxTools/Editor/Topology.cs:92 | once the checks have thrown, later vertices change nothing |
| Topology.NoVertexIssues | unity/IzFbxTools/Editor/Topology.cs:92 | on a built mesh, every vertex's edge starts at that vertex |
| Topology.NoPairIssues | unity/IzFbxTools/Editor/Topology.cs:94 | on a built mesh, pairing is always symmetric; only next/prev issues can remain |
| Topology.FaceIssuesOnly | unity/IzFbxTools/Editor/Topology.cs:98 | the face loop reports only face issues |
| Topology.LinkedEdgesPass | unity/IzFbxTools/Editor/Topology.cs:93-97 | on a fully linked mesh the edge checks report nothing |
| Topology.LinkedFacesPass | unity/IzFbxTools/Editor/Topology.cs:98 | on a fully linked mesh the face checks report nothing |
| Topology.IndexedRefs | unity/IzFbxTools/Editor/Topology.cs:56-89 | every reference the built mesh holds is in range |
| Topology.ValidationFacts | unity/IzFbxTools/Editor/Topology.cs:91-98 | on a built mesh validation raises no vertex or pair issue; it throws exactly when a vertex has no edge |
| Topology.InTrisUsed | unity/IzFbxTools/Editor/Topology.cs:73-78 | a key's origin occurs in the triangle list |
| Topology.UsedInTris | unity/IzFbxTools/Editor/Topology.cs:73-78 | every index in the triangle list starts a key |
| Topology.VertexUsed | unity/IzFbxTools/Editor/Topology.cs:63-64 | a vertex has no edge exactly when no triangle uses it |
| Topology.UnusedVertexThrows | unity/IzFbxTools/Editor/Topology.cs:92 | validation throws exactly when some vertex is in no triangle |
| Topology.ClusterScan | unity/IzFbxTools/Editor/Topology.cs:101-113 | the forward scan leaves every vertex scanned: clusters are well formed, near to their seeds and maximal |
| Topology.AbsorbNear | unity/IzFbxTools/Editor/Topology.cs:106-112 | the inner loop absorbs every later unclustered vertex within tolerance of the seed |
| Topology.JoinVertex | unity/IzFbxTools/Editor/Topology.cs:109-111 | joining creates the cluster lazily on the first match and then appends |
| Topology.ScanStart | unity/IzFbxTools/Editor/Topology.cs:104-106 | an unclustered vertex starts a scan in a consistent state |
| Topology.ScanSkip | unity/IzFbxTools/Editor/Topology.cs:107-108 | a clustered or distant vertex is skipped without breaking the scan invariant |
| Topology.ScanJoin | unity/IzFbxTools/Editor/Topology.cs:106-112 | joining a near vertex keeps the scan invariant |
| Topology.JoinShape | unity/IzFbxTools/Editor/Topology.cs:109-111 | after a join, cluster membership and cluster lists still agree |
| Topology.JoinShapeNew | unity/IzFbxTools/Editor/Topology.cs:109-111 | a new cluster holds the seed and the joined vertex |
| Topology.JoinShapeExtend | unity/IzFbxTools/Editor/Topology.cs:110-111 | extending a cluster appends the joined vertex only |
| Topology.JoinSeeds | unity/IzFbxTools/Editor/Topology.cs:109-111 | the seed stays the first member of its cluster |
| Topology.JoinNear | unity/IzFbxTools/Editor/Topology.cs:108-111 | every cluster member stays within tolerance of its seed |
| Topology.JoinMaximal | unity/IzFbxTools/Editor/Topology.cs:106-112 | no vertex near a seed is left out of the seed's cluster |
| Topology.SeedSkip | unity/IzFbxTools/Editor/Topology.cs:103 | an already clustered vertex seeds nothing |
| Topology.SeedDone | unity/IzFbxTools/Editor/Topology.cs:102-113 | a finished inner scan extends the scanned prefix by one vertex |
| Topology.ScanCharacterised | unity/IzFbxTools/Editor/Topology.cs:101-113 | a vertex is clustered exactly when it is near an earlier unabsorbed vertex, and its seed is the first such vertex |
| Topology.RingsKeepSamePos | unity/IzFbxTools/Editor/Topology.cs:100-113 | clustering does not disturb the vertex rings |
| Topology.Topology.Cluster | unity/IzFbxTools/Editor/Topology.cs:100-113 | clustering changes only `samePos` and the cluster list, and leaves them fully scanned |
| Topology.Build | unity/IzFbxTools/Editor/Topology.cs:42-114 | construction throws exactly when the mesh has fewer normals than vertices (no validation) or, after validating, when some vertex is in no triangle; a mesh without repeated directed sides validates cleanly; otherwise the result is indexed, wired and clustered |
| EdgeMerger.MergeableAfterBuild | unity/IzFbxTools/Editor/Core/Geom/EdgeMerger.cs:22 | a built topology meets everything the stitcher relies on |
| EdgeMerger.RingMatch | unity/IzFbxTools/Editor/Core/Geom/EdgeMerger.cs:48-52 | the ring walk returns the first ring edge whose destination is clustered with `e`'s origin, or null exactly when there is none |
| EdgeMerger.WalkRing | unity/IzFbxTools/Editor/Core/Geom/EdgeMerger.cs:48-52 | the `left`-ring loop computes that first match |
| EdgeMerger.MemberMatchMeaning | unity/IzFbxTools/Editor/Core/Geom/EdgeMerger.cs:45-52 | a cluster member other than `v1` yields a matching outgoing edge, or has none |
| EdgeMerger.ClusterMatchMeaning | unity/IzFbxTools/Editor/Core/Geom/EdgeMerger.cs:45-54 | the cluster search finds a matching edge from some member, or there is none from any member |
| EdgeMerger.PartnerMeaning | unity/IzFbxTools/Editor/Core/Geom/EdgeMerger.cs:44-55 | the partner found mirrors `e` across the seam; none is found exactly when no edge mirrors `e` |
| EdgeMerger.FindPartner | unity/IzFbxTools/Editor/Core/Geom/EdgeMerger.cs:44-55 | the nested search loops compute that partner |
| EdgeMerger.AddCorner | unity/IzFbxTools/Editor/Core/Geom/EdgeMerger.cs:26-29 | adding a corner marker appends it to that cluster's list, creating the list on first use |
| EdgeMerger.AddCornerKeeps | unity/IzFbxTools/Editor/Core/Geom/EdgeMerger.cs:26-29 | other clusters' lists and the key order are kept |
| EdgeMerger.AddCorner2 | unity/IzFbxTools/Editor/Core/Geom/EdgeMerger.cs:30-33 | defined as four `addCorner` calls: each of the two markers onto each endpoint cluster's list |
| EdgeMerger.AddCorner2Markers | unity/IzFbxTools/Editor/Core/Geom/EdgeMerger.cs:30-33 | `addCorner2` appends both markers to both clusters (four markers when the clusters coincide) and nothing else changes |
| EdgeMerger.AddCorner2Of | unity/IzFbxTools/Editor/Core/Geom/EdgeMerger.cs:30-33 | the corner table stays keyed by valid clusters |
| EdgeMerger.Unlink | unity/IzFbxTools/Editor/Core/Geom/EdgeMerger.cs:83 | the edges left to visit after removing the partner are no more than before, and each was there before; removing the edge being visited leaves none, since its `Next` becomes null and the loop of line 37 ends |
| EdgeMerger.RemoveFirstMeaning | unity/IzFbxTools/Editor/Core/Geom/EdgeMerger.cs:83 | removing the partner from the working list drops exactly one occurrence |
| EdgeMerger.CreaseShape | unity/IzFbxTools/Editor/Core/Geom/EdgeMerger.cs:76-80 | a crease bridges with one or two triangles, wound (v0, other.next, other) and (v0, other, v1), using only the four seam vertices |
| EdgeMerger.JoinCorners | unity/IzFbxTools/Editor/Core/Geom/EdgeMerger.cs:74-84 | one stitching step keeps the corner table keyed by valid clusters |
| EdgeMerger.JoinTris | unity/IzFbxTools/Editor/Core/Geom/EdgeMerger.cs:74-85 | a valley adds no triangle; a crease counts one merged edge and appends 3 or 6 valid indices |
| EdgeMerger.StepCorners | unity/IzFbxTools/Editor/Core/Geom/EdgeMerger.cs:39-85 | one iteration keeps the corner table keyed by valid clusters |
| EdgeMerger.StepTris | unity/IzFbxTools/Editor/Core/Geom/EdgeMerger.cs:39-85 | one iteration only appends whole triangles of valid indices, and counts each bridge once |
| EdgeMerger.SweepCorners | unity/IzFbxTools/Editor/Core/Geom/EdgeMerger.cs:36-86 | the whole sweep keeps the corner table keyed by valid clusters |
| EdgeMerger.SweepExtends | unity/IzFbxTools/Editor/Core/Geom/EdgeMerger.cs:36-86 | the sweep only appends indices, all addressing vertices |
| EdgeMerger.SweepWhole | unity/IzFbxTools/Editor/Core/Geom/EdgeMerger.cs:36-86 | the sweep appends whole triangles |
| EdgeMerger.SweepMerged | unity/IzFbxTools/Editor/Core/Geom/EdgeMerger.cs:36-86 | the sweep appends between 3 and 6 indices per merged edge |
| EdgeMerger.AllEdges | unity/IzFbxTools/Editor/Core/Geom/EdgeMerger.cs:37 | the working list starts with every edge, in order |
| EdgeMerger.Bridge | unity/IzFbxTools/Editor/Core/Geom/EdgeMerger.cs:76-85 | the bridging body computes the specified step and counts a merged edge exactly for a crease |
| EdgeMerger.Stitch | unity/IzFbxTools/Editor/Core/Geom/EdgeMerger.cs:36-86 | the stitching loop computes the specified sweep; the merged-edge counter grows by the number of bridges |
| EdgeMerger.InsertBySorted | unity/IzFbxTools/Editor/Core/Geom/EdgeMerger.cs:128 | inserting into a list sorted by angle keeps it sorted |
| EdgeMerger.OrderBy | unity/IzFbxTools/Editor/Core/Geom/EdgeMerger.cs:128 | the ordering by angle is a sorted permutation of the cluster |
| EdgeMerger.Ordered | unity/IzFbxTools/Editor/Core/Geom/EdgeMerger.cs:121-128 | the angle-ordered corner vertices are a permutation of the cluster |
| EdgeMerger.Fillable | unity/IzFbxTools/Editor/Core/Geom/EdgeMerger.cs:92-103 | defined as: a corner list with more than four markers and no null marker |
| EdgeMerger.Fan | unity/IzFbxTools/Editor/Core/Geom/EdgeMerger.cs:131-135 | defined as the triangles `(v[0], v[j-1], v[j])` for `j` from 2; `FanShape` states their number and each one |
| EdgeMerger.FanShape | unity/IzFbxTools/Editor/Core/Geom/EdgeMerger.cs:131-135 | a fan over n vertices has n-2 triangles, the u-th being (v0, v[u+1], v[u+2]) |
| EdgeMerger.FanMembers | unity/IzFbxTools/Editor/Core/Geom/EdgeMerger.cs:131-135 | every fan index is one of the corner's vertex indices |
| EdgeMerger.AddFan | unity/IzFbxTools/Editor/Core/Geom/EdgeMerger.cs:131-135 | the fan loop appends exactly the fan |
| EdgeMerger.IsComplex | unity/IzFbxTools/Editor/Core/Geom/EdgeMerger.cs:97-102 | a corner is complex exactly when one of its markers is null |
| EdgeMerger.CornerFan | unity/IzFbxTools/Editor/Core/Geom/EdgeMerger.cs:105-135 | a filled corner gets one triangle per cluster member beyond two, all from the cluster and all sharing the first vertex |
| EdgeMerger.FillIndices | unity/IzFbxTools/Editor/Core/Geom/EdgeMerger.cs:89-137 | corner filling produces only valid vertex indices |
| EdgeMerger.FillWhole | unity/IzFbxTools/Editor/Core/Geom/EdgeMerger.cs:89-137 | corner filling produces whole triangles |
| EdgeMerger.FillCounted | unity/IzFbxTools/Editor/Core/Geom/EdgeMerger.cs:89-137 | at most one merged corner is counted per table entry, and no triangle is added when none is counted |
| EdgeMerger.FillCorners | unity/IzFbxTools/Editor/Core/Geom/EdgeMerger.cs:89-137 | the corner loop appends the specified fans, in key order, and counts each filled corner |
| EdgeMerger.MergedTrisShape | unity/IzFbxTools/Editor/Core/Geom/EdgeMerger.cs:22-140 | the merged sub-mesh extends the original by whole triangles of valid indices |
| EdgeMerger.MergeTopology | unity/IzFbxTools/Editor/Core/Geom/EdgeMerger.cs:22-140 | stitching then corner filling computes the specified merged sub-mesh and adds no log line |
| EdgeMerger.Proc | unity/IzFbxTools/Editor/Core/Geom/EdgeMerger.cs:15-144 | `proc` throws exactly when the mesh has fewer normals than vertices or a vertex is in no triangle; otherwise only sub-mesh 0 changes, extended by whole triangles of valid indices, and the log gains its report lines |
| MeshCombiner.FindFirst | unity/IzFbxTools/Editor/Core/Geom/MeshCombiner.cs:237-242 | the search reports whether the value is present and, if so, its first index |
| MeshCombiner.CombineDistinctArray | unity/IzFbxTools/Editor/Core/Geom/MeshCombiner.cs:233-250 | the loop computes the specified merged list and index map |
| MeshCombiner.FirstIndex | unity/IzFbxTools/Editor/Core/Geom/MeshCombiner.cs:237-242 | the first index holds the value and no earlier one does |
| MeshCombiner.Combined | unity/IzFbxTools/Editor/Core/Geom/MeshCombiner.cs:233-250 | the merged list is at least as long as `a` and at most as long as `a` and `b` together; `CombinedShape` states its contents |
| MeshCombiner.IndexMap | unity/IzFbxTools/Editor/Core/Geom/MeshCombiner.cs:233-250 | the index map has one entry per element of `b`; `IndexMapMeaning` states each entry |
| MeshCombiner.CombinedShape | unity/IzFbxTools/Editor/Core/Geom/MeshCombiner.cs:233-250 | the merged list starts with the first list, contains every element of the second, and nothing else |
| MeshCombiner.CombinedDistinct | unity/IzFbxTools/Editor/Core/Geom/MeshCombiner.cs:233-250 | merging into a duplicate-free list keeps it duplicate-free |
| MeshCombiner.IndexMapMeaning | unity/IzFbxTools/Editor/Core/Geom/MeshCombiner.cs:233-250 | each entry of the index map is the first position of that element in the merged list |
| MeshCombiner.IndexMapPositions | unity/IzFbxTools/Editor/Core/Geom/MeshCombiner.cs:233-250 | distinct elements map to distinct positions, and elements already present keep their old position |
| MeshCombiner.FirstIndexAppend | unity/IzFbxTools/Editor/Core/Geom/MeshCombiner.cs:236-248 | appending does not move an element's first index |
| MeshCombiner.CombinedStep | unity/IzFbxTools/Editor/Core/Geom/MeshCombiner.cs:236-248 | one iteration appends the element only when it is new |
| MeshCombiner.IndexMapStep | unity/IzFbxTools/Editor/Core/Geom/MeshCombiner.cs:236-248 | one iteration extends the index map by the element's first index |
| MeshCombiner.MeshObject.IsEmpty | unity/IzFbxTools/Editor/Core/Geom/MeshCombiner.cs:26 | defined as: no materials, one sub-mesh and no vertices |
| MeshCombiner.MeshObject.Validate | unity/IzFbxTools/Editor/Core/Geom/MeshCombiner.cs:38-66 | defined as: the material count matches the sub-mesh count unless the object is empty, there are no blend shapes, and there is one bind pose per bone |
| MeshCombiner.MeshObject.constructor | unity/IzFbxTools/Editor/Core/Geom/MeshCombiner.cs:19-24 | the object holds the given mesh, materials, bones and matrix |
| MeshCombiner.MeshObject.Reset | unity/IzFbxTools/Editor/Core/Geom/MeshCombiner.cs:29-35 | reset leaves an empty mesh with one empty sub-mesh, no materials, bones or poses and an identity matrix, a state that is empty and validates |
| MeshCombiner.TrimmedMatches | unity/IzFbxTools/Editor/Core/Geom/MeshCombiner.cs:82-88 | surplus materials are dropped to the sub-mesh count; a shorter list is kept |
| MeshCombiner.Generate | unity/IzFbxTools/Editor/Core/Geom/MeshCombiner.cs:69-90 | the wrapper shares the mesh, trims the materials and uses the local matrix exactly for a skinned mesh |
| MeshCombiner.MapPoints | unity/IzFbxTools/Editor/Core/Geom/MeshCombiner.cs:111-112 | each position or normal is transformed on its own |
| MeshCombiner.MapTangents | unity/IzFbxTools/Editor/Core/Geom/MeshCombiner.cs:113-116 | each tangent's direction is transformed and its `w` kept |
| MeshCombiner.Mesh.SetVertices | unity/IzFbxTools/Editor/Core/Geom/MeshCombiner.cs:110 | assigning the longer vertex list resizes every channel the mesh has to the new count, keeping its entries and filling with zeros, and leaves absent channels absent |
| MeshCombiner.Mesh.SetNormals | unity/IzFbxTools/Editor/Core/Geom/MeshCombiner.cs:111 | the normals setter stores an array of one entry per vertex or an empty one, and otherwise keeps the old channel |
| MeshCombiner.Mesh.SetTangents | unity/IzFbxTools/Editor/Core/Geom/MeshCombiner.cs:112-116 | the tangents setter stores an array of one entry per vertex or an empty one, and otherwise keeps the old channel |
| MeshCombiner.Mesh.SetUvs | unity/IzFbxTools/Editor/Core/Geom/MeshCombiner.cs:119-126 | each of the eight UV setters acts on its own channel with the same store-or-refuse rule |
| MeshCombiner.Mesh.SetColors | unity/IzFbxTools/Editor/Core/Geom/MeshCombiner.cs:127 | the colors setter stores an array of one entry per vertex or an empty one, and otherwise keeps the old channel |
| MeshCombiner.Mesh.SetBoneWeights | unity/IzFbxTools/Editor/Core/Geom/MeshCombiner.cs:142 | the bone-weights setter stores an array of one entry per vertex or an empty one, and otherwise keeps the old weights |
| MeshCombiner.JoinedMeaning | unity/IzFbxTools/Editor/Core/Geom/MeshCombiner.cs:99-127 | a joined channel is the concatenation when both meshes have the channel; the target's entries padded with zeros when only the target has it; absent when only the source has it; always absent or one entry per vertex |
| MeshCombiner.JoinedChannels | unity/IzFbxTools/Editor/Core/Geom/MeshCombiner.cs:119-126 | the texture channels are joined one by one, eight in and eight out |
| MeshCombiner.AppendVertexData | unity/IzFbxTools/Editor/Core/Geom/MeshCombiner.cs:99-127 | the target's channels are read before the vertex list grows; the vertices are the target's followed by the source's transformed ones, every other channel is joined by the setter rule, and the bone weights are resized to the new count |
| MeshCombiner.RemapWeights | unity/IzFbxTools/Editor/Core/Geom/MeshCombiner.cs:134-141 | each bone weight's four bone indices are sent through the bone map |
| MeshCombiner.RemappedWeightsSameBones | unity/IzFbxTools/Editor/Core/Geom/MeshCombiner.cs:134-141 | a remapped weight names the same bones in the merged bone list that it named in the source list |
| MeshCombiner.AppendRemapped | unity/IzFbxTools/Editor/Core/Geom/MeshCombiner.cs:133-142 | the weight loop appends exactly the remapped weights |
| MeshCombiner.WeightsStayInRange | unity/IzFbxTools/Editor/Core/Geom/MeshCombiner.cs:129-142 | the target's weights followed by the source's remapped weights all name bones of the merged list |
| MeshCombiner.JoinedWeightsInRange | unity/IzFbxTools/Editor/Core/Geom/MeshCombiner.cs:106-142 | the weights the setter keeps after combining, including the zero padding when only the target has weights, all name bones of the merged list |
| MeshCombiner.Poses | unity/IzFbxTools/Editor/Core/Geom/MeshCombiner.cs:146-149 | the bind-pose array has one slot per merged bone |
| MeshCombiner.PosesPlaced | unity/IzFbxTools/Editor/Core/Geom/MeshCombiner.cs:146-149 | untouched slots keep the old pose (or zero for new slots), and each source bone's slot gets its rebased pose |
| MeshCombiner.LayOutBindposes | unity/IzFbxTools/Editor/Core/Geom/MeshCombiner.cs:146-149 | the bind-pose loop computes the specified array |
| MeshCombiner.AddBones | unity/IzFbxTools/Editor/Core/Geom/MeshCombiner.cs:129-149 | the bones are merged without duplicates; the weights read at line 106 followed by the source's remapped weights go through the bone-weights setter; the bind poses are laid out over the merged bones |
| MeshCombiner.Resized | unity/IzFbxTools/Editor/Core/Geom/MeshCombiner.cs:157 | growing the sub-mesh count keeps the old sub-meshes and adds empty ones |
| MeshCombiner.Shift | unity/IzFbxTools/Editor/Core/Geom/MeshCombiner.cs:160 | each index is offset by the old vertex count |
| MeshCombiner.Placed | unity/IzFbxTools/Editor/Core/Geom/MeshCombiner.cs:156-165 | placing keeps the number of sub-meshes |
| MeshCombiner.PlacedMeaning | unity/IzFbxTools/Editor/Core/Geom/MeshCombiner.cs:156-165 | sub-meshes of untouched materials are kept; each source sub-mesh is shifted and appended to its material's sub-mesh, which restarts empty when it is new |
| MeshCombiner.PlaceSubMeshes | unity/IzFbxTools/Editor/Core/Geom/MeshCombiner.cs:156-165 | the sub-mesh loop computes the specified placement |
| MeshCombiner.PlacedIn | unity/IzFbxTools/Editor/Core/Geom/MeshCombiner.cs:156-165 | placed sub-meshes only address vertices of the combined mesh |
| MeshCombiner.AddSubMeshes | unity/IzFbxTools/Editor/Core/Geom/MeshCombiner.cs:151-165 | the materials are merged without duplicates and the sub-meshes placed; no vertex channel changes |
| MeshCombiner.Merge | unity/IzFbxTools/Editor/Core/Geom/MeshCombiner.cs:99-165 | the merge proper: vertices appended, each channel and the weights joined by the setter rule, bones and materials merged, poses laid out, sub-meshes placed, the target left valid with channels that fit its vertices |
| MeshCombiner.AddTo | unity/IzFbxTools/Editor/Core/Geom/MeshCombiner.cs:94-168 | `addTo` succeeds exactly when both objects validate; it changes nothing on failure or for an empty source; otherwise it performs the merge, keeps the target valid with channels that fit its vertices, and keeps weights and indices in range |
| VisibilityAnim.IsPartialMatchFmt | unity/IzFbxTools/Editor/Core/Anim/VisibilityAnimGenerator.cs:63 | defined as: a non-empty name whose first or last character is `*` |
| VisibilityAnim.IsPartialMatch | unity/IzFbxTools/Editor/Core/Anim/VisibilityAnimGenerator.cs:66-70 | defined as: a leading `*` makes the rest a required suffix, else a trailing `*` makes the rest a required prefix, else the names must be equal; the three lemmas below state what each case accepts |
| VisibilityAnim.LeadingStarMeaning | unity/IzFbxTools/Editor/Core/Anim/VisibilityAnimGenerator.cs:67 | a leading `*` matches exactly the names ending in the rest |
| VisibilityAnim.TrailingStarMeaning | unity/IzFbxTools/Editor/Core/Anim/VisibilityAnimGenerator.cs:68 | a trailing `*` matches exactly the names starting with the stem |
| VisibilityAnim.PlainNameMatchesItself | unity/IzFbxTools/Editor/Core/Anim/VisibilityAnimGenerator.cs:69 | a name without stars matches only itself |
| VisibilityAnim.BothStarsIsSuffixMatch | unity/IzFbxTools/Editor/Core/Anim/VisibilityAnimGenerator.cs:63-70 | `*x*` takes the leading-star branch, so it matches names ending in `x*` |
| VisibilityAnim.MatchingNamesMeaning | unity/IzFbxTools/Editor/Core/Anim/VisibilityAnimGenerator.cs:111-112 | the filtered target list holds exactly the targetable names the capture matches |
| VisibilityAnim.MatchingNamesAppend | unity/IzFbxTools/Editor/Core/Anim/VisibilityAnimGenerator.cs:111-112 | filtering distributes over concatenation, keeping the list order |
| VisibilityAnim.SrcObjNamesMeaning | unity/IzFbxTools/Editor/Core/Anim/VisibilityAnimGenerator.cs:106-116 | a name is a target exactly when some capture yields it |
| VisibilityAnim.NoTargetableList | unity/IzFbxTools/Editor/Core/Anim/VisibilityAnimGenerator.cs:108-114 | without a targetable list only plain captures count, and each wildcard one is logged as an error |
| VisibilityAnim.VisibilityAnimGenerator.CollectSrcObjNames | unity/IzFbxTools/Editor/Core/Anim/VisibilityAnimGenerator.cs:106-116 | the capture loop computes the specified names and error count |
| VisibilityAnim.Entry | unity/IzFbxTools/Editor/Core/Anim/VisibilityAnimGenerator.cs:100-118 | the cache entry for a flag is created once and then reused unchanged, and no other entry changes |
| VisibilityAnim.VisibilityAnimGenerator.GetEntry | unity/IzFbxTools/Editor/Core/Anim/VisibilityAnimGenerator.cs:100-118 | the lookup-or-create body computes the specified entry |
| VisibilityAnim.VisibilityAnimGenerator.EmitCurves | unity/IzFbxTools/Editor/Core/Anim/VisibilityAnimGenerator.cs:128-133 | the output loop emits the specified `m_Enabled` curves |
| VisibilityAnim.Step | unity/IzFbxTools/Editor/Core/Anim/VisibilityAnimGenerator.cs:89-134 | one binding adds at most its own flag to the cache and keeps every other entry |
| VisibilityAnim.StepCurves | unity/IzFbxTools/Editor/Core/Anim/VisibilityAnimGenerator.cs:89-134 | an unmatched binding is copied as is; a matched one yields only `m_Enabled` curves of `SkinnedMeshRenderer`s carrying the flag curve's keys |
| VisibilityAnim.VisibilityAnimGenerator.ProcBinding | unity/IzFbxTools/Editor/Core/Anim/VisibilityAnimGenerator.cs:90-133 | the loop body computes the specified step |
| VisibilityAnim.Run | unity/IzFbxTools/Editor/Core/Anim/VisibilityAnimGenerator.cs:89-134 | running over a clip's bindings keeps the cache consistent and every existing entry |
| VisibilityAnim.RunKeys | unity/IzFbxTools/Editor/Core/Anim/VisibilityAnimGenerator.cs:89-134 | the cache afterwards holds exactly the old flags and the flags of the clip |
| VisibilityAnim.RunCached | unity/IzFbxTools/Editor/Core/Anim/VisibilityAnimGenerator.cs:89-134 | a clip whose flags are all cached leaves the cache unchanged |
| VisibilityAnim.RunAgainst | unity/IzFbxTools/Editor/Core/Anim/VisibilityAnimGenerator.cs:89-134 | against a cache that already holds the resolved entries, a run yields the same curves and changes nothing |
| VisibilityAnim.RunIdempotent | unity/IzFbxTools/Editor/Core/Anim/VisibilityAnimGenerator.cs:89-134 | processing the same clip twice gives the same curves and the same cache |
| VisibilityAnim.RunCurves | unity/IzFbxTools/Editor/Core/Anim/VisibilityAnimGenerator.cs:89-134 | unmatched bindings are all kept; every output is a kept binding or an `m_Enabled` renderer curve carrying the keys of a matched flag curve |
| VisibilityAnim.VisibilityAnimGenerator.constructor | unity/IzFbxTools/Editor/Core/Anim/VisibilityAnimGenerator.cs:74-76 | a new generator holds its settings and an empty cache |
| VisibilityAnim.VisibilityAnimGenerator.Proc | unity/IzFbxTools/Editor/Core/Anim/VisibilityAnimGenerator.cs:78-145 | `proc` produces the specified curves, updates the cache as specified and copies the reference curves |
| MirrorAnim.IsEqualLastStr | unity/IzFbxTools/Editor/Core/Anim/MirrorAnimGenerator.cs:121-125 | defined as: `last` is strictly shorter than `tgt` and is its final part |
| MirrorAnim.MirrorName | unity/IzFbxTools/Editor/Core/Anim/MirrorAnimGenerator.cs:100-104 | defined as: a name ending in the left (right) suffix has its last character replaced by `R` (`L`), any other name gets `_Mirror` appended; `MirrorNameLeft`, `MirrorNameRight` and `MirrorNameInvolutive` state what this means |
| MirrorAnim.MirrorNameLeft | unity/IzFbxTools/Editor/Core/Anim/MirrorAnimGenerator.cs:100-104 | a left clip name gets its final `L` replaced by `R`, giving a right name |
| MirrorAnim.MirrorNameRight | unity/IzFbxTools/Editor/Core/Anim/MirrorAnimGenerator.cs:100-104 | a right clip name gets its final `R` replaced by `L`, giving a left name |
| MirrorAnim.MirrorNameInvolutive | unity/IzFbxTools/Editor/Core/Anim/MirrorAnimGenerator.cs:100-104 | mirroring a left or right clip name twice gives it back |
| MirrorAnim.Directory | unity/IzFbxTools/Editor/Core/Anim/MirrorAnimGenerator.cs:110-116 | the directory part is the prefix up to the last `/`, or the last `\` when there is no `/`, or empty |
| MirrorAnim.MirrorFPath | unity/IzFbxTools/Editor/Core/Anim/MirrorAnimGenerator.cs:107-118 | the mirrored file path is the source directory, the mirrored name and `.anim` |
| MirrorAnim.SwapDirsByReplaceMeaning | unity/IzFbxTools/Editor/Core/Anim/MirrorAnimGenerator.cs:64-66 | the three `Replace` calls mirror each directory name on its own, so no name is swapped twice |
| MirrorAnim.SwapDirsInvolutive | unity/IzFbxTools/Editor/Core/Anim/MirrorAnimGenerator.cs:64-66 | swapping the directory suffixes twice gives the path back |
| MirrorAnim.SwapDirsKeepsSides | unity/IzFbxTools/Editor/Core/Anim/MirrorAnimGenerator.cs:64-66 | a path has a sided directory exactly when its mirror has one |
| MirrorAnim.SwapDirsCenter | unity/IzFbxTools/Editor/Core/Anim/MirrorAnimGenerator.cs:64-66 | a path without sided directories is unchanged |
| MirrorAnim.SwapEnd | unity/IzFbxTools/Editor/Core/Anim/MirrorAnimGenerator.cs:57-63 | defined as: a path ending in one suffix loses two characters and gains the other suffix and is flagged left/right; other paths are kept and not flagged; a path shorter than two characters that ends in a suffix has no result, since `Substring` throws |
| MirrorAnim.SwapEndInvolutive | unity/IzFbxTools/Editor/Core/Anim/MirrorAnimGenerator.cs:57-63 | swapping the final suffix twice gives the path back, with the same sidedness |
| MirrorAnim.SwapEndSwapDirs | unity/IzFbxTools/Editor/Core/Anim/MirrorAnimGenerator.cs:57-66 | swapping the final suffix and swapping directory suffixes commute |
| MirrorAnim.MirrorPathAsWritten | unity/IzFbxTools/Editor/Core/Anim/MirrorAnimGenerator.cs:53-68 | defined as: the end swap, then the three `Replace` calls, then the centre flag of line 67 as written, which tests the left suffix twice; no result where the end swap throws |
| MirrorAnim.MirrorPath | unity/IzFbxTools/Editor/Core/Anim/MirrorAnimGenerator.cs:53-68 | defined as `MirrorPathAsWritten` with the centre flag as intended: neither a left nor a right directory on the mirrored path |
| MirrorAnim.MirrorPathAsWrittenAgrees | unity/IzFbxTools/Editor/Core/Anim/MirrorAnimGenerator.cs:53-68 | both centre tests give the same mirrored path and side flag; the one as written flags every path the intended one flags, and more only where the mirrored path holds a right directory |
| MirrorAnim.MirrorPathInvolutive | unity/IzFbxTools/Editor/Core/Anim/MirrorAnimGenerator.cs:53-68 | for two-character side suffixes and with the centre test as intended, mirroring a binding path twice gives it back, with the same side and centre flags |
| MirrorAnim.CenterPathUnchanged | unity/IzFbxTools/Editor/Core/Anim/MirrorAnimGenerator.cs:53-68 | for two-character side suffixes and with the centre test as intended, a path flagged as centre is not changed by mirroring |
| MirrorAnim.CenterTestAsWrittenNotSymmetric | unity/IzFbxTools/Editor/Core/Anim/MirrorAnimGenerator.cs:67 | the centre test as written flags a left-side bone path as centre, but not its right-side mirror |
| MirrorAnim.MirrorKeysInvolutive | unity/IzFbxTools/Editor/Core/Anim/MirrorAnimGenerator.cs:74-86 | negating the keys twice gives them back |
| MirrorAnim.MirrorCurve | unity/IzFbxTools/Editor/Core/Anim/MirrorAnimGenerator.cs:44-89 | defined as: the binding gets the path from `MirrorPathAsWritten` and each key keeps its time and has value and tangents negated exactly when the property is `m_LocalPosition.x` on a side or centre path, or `m_LocalRotation.y`/`.z`; no result where the path throws |
| MirrorAnim.MirrorCurveAgrees | unity/IzFbxTools/Editor/Core/Anim/MirrorAnimGenerator.cs:75-81 | on every property other than `m_LocalPosition.x`, the curve mirrored as written equals the one mirrored with the intended centre test |
| MirrorAnim.ProcCurve | unity/IzFbxTools/Editor/Core/Anim/MirrorAnimGenerator.cs:65-89 | the per-binding body, as written, computes `MirrorCurve`: the mirrored path, then every key negated or kept in turn |
| MirrorAnim.MirrorCurveInvolutive | unity/IzFbxTools/Editor/Core/Anim/MirrorAnimGenerator.cs:44-89 | for two-character side suffixes and with the centre test as intended, mirroring a curve twice gives it back |
| MirrorAnim.MirrorCurvesInvolutive | unity/IzFbxTools/Editor/Core/Anim/MirrorAnimGenerator.cs:26-97 | for two-character side suffixes and with the centre test as intended, mirroring all curves twice gives them back |
| MirrorAnim.MirrorClip | unity/IzFbxTools/Editor/Core/Anim/MirrorAnimGenerator.cs:26-97 | defined as: the mirrored name, every float curve mirrored by `MirrorCurve` in source order, and the reference curves copied; no result when any path throws |
| MirrorAnim.Proc | unity/IzFbxTools/Editor/Core/Anim/MirrorAnimGenerator.cs:26-97 | `proc`, as written, computes `MirrorClip`: it mirrors every float curve in source order, copies the reference curves, and fails exactly when mirroring some path throws |
| MirrorAnim.MirrorClipInvolutive | unity/IzFbxTools/Editor/Core/Anim/MirrorAnimGenerator.cs:26-97 | for two-character side suffixes and with the centre test as intended (`MirrorClipCorrected`), mirroring a clip twice restores its curves and reference curves, and its name when it is a left or right clip |
| MirrorAnim.MirrorClipCorrected | unity/IzFbxTools/Editor/Core/Anim/MirrorAnimGenerator.cs:26-97 | defined as `MirrorClip` with every curve mirrored by the intended centre test; it is what the involution results are about |
| MirrorAnim.MirrorCurveAsWrittenNotInvolutive | unity/IzFbxTools/Editor/Core/Anim/MirrorAnimGenerator.cs:67-81 | as written, the `m_LocalPosition.x` curve of a bone under a left directory comes back from two mirrorings with its keys negated, so it is not restored; with the intended test it is |
| YamlParser.HeaderIdAfterAmpersand | unity/IzFbxTools/Editor/Core/YamlParser.cs:79 | the object ID is the text after the first `&`, or the whole line when it has none |
| YamlParser.NameOfSplits | unity/IzFbxTools/Editor/Core/YamlParser.cs:94-97 | a name line is the name prefix followed by the name the scan takes |
| YamlParser.HeaderLine | unity/IzFbxTools/Editor/Core/YamlParser.cs:76-79 | an object header is recognised as one and yields its ID |
| YamlParser.NameLine | unity/IzFbxTools/Editor/Core/YamlParser.cs:94-97 | a name line is recognised as one and yields its name |
| YamlParser.Record | unity/IzFbxTools/Editor/Core/YamlParser.cs:100-104 | a name is recorded in the map of its object kind only |
| YamlParser.ScanFrom | unity/IzFbxTools/Editor/Core/YamlParser.cs:74-111 | defined as the scan from one line on: a header sets the ID and the section kind from the next line, the first name line of a tracked section is recorded and closes it, a name already in that kind's map fails, other lines are skipped |
| YamlParser.Scan | unity/IzFbxTools/Editor/Core/YamlParser.cs:62-112 | defined as `ScanFrom` from the first line with no open section and empty maps |
| YamlParser.MakeNameIdMap | unity/IzFbxTools/Editor/Core/YamlParser.cs:62-112 | the line loop computes the specified scan |
| YamlParser.HeaderStep | unity/IzFbxTools/Editor/Core/YamlParser.cs:76-89 | a header line opens an object of the kind named on the next line |
| YamlParser.NameStep | unity/IzFbxTools/Editor/Core/YamlParser.cs:94-108 | a name inside an open object is recorded and closes it; a duplicate name fails the scan |
| YamlParser.OtherStep | unity/IzFbxTools/Editor/Core/YamlParser.cs:91 | other lines outside an open object are skipped |
| YamlParser.TypeLineNotStart | unity/IzFbxTools/Editor/Core/YamlParser.cs:76-82 | the line after a header the loop reads is consumed as its type line and never read at the top of the loop |
| YamlParser.HeaderOpens | unity/IzFbxTools/Editor/Core/YamlParser.cs:76-89 | a header followed by a tracked type line opens a section of that kind |
| YamlParser.StaysOpen | unity/IzFbxTools/Editor/Core/YamlParser.cs:91-110 | lines that are neither headers nor name lines keep the section open |
| YamlParser.OpenerUnique | unity/IzFbxTools/Editor/Core/YamlParser.cs:76-89 | at any line at most one header, of one kind, has a section open |
| YamlParser.HeaderState | unity/IzFbxTools/Editor/Core/YamlParser.cs:76-89 | after a header and its type line, the open section is exactly the one that header opens, with its ID, or none when the type is not tracked |
| YamlParser.UntrackedHeaderOpensNothing | unity/IzFbxTools/Editor/Core/YamlParser.cs:83-89 | a header with an untracked type line leaves no section open |
| YamlParser.NameState | unity/IzFbxTools/Editor/Core/YamlParser.cs:94-108 | the first name line of an open section closes it, leaving no section open |
| YamlParser.OtherState | unity/IzFbxTools/Editor/Core/YamlParser.cs:91 | any other line keeps the open section, or keeps none open |
| YamlParser.ScanFromEntries | unity/IzFbxTools/Editor/Core/YamlParser.cs:74-111 | the scan equals adding its recorded name lines, in order, to the maps it starts from |
| YamlParser.ApplyFails | unity/IzFbxTools/Editor/Core/YamlParser.cs:100-103 | adding the name lines fails if and only if a name is already in its kind's map or two name lines of one kind share a name |
| YamlParser.ApplyRecords | unity/IzFbxTools/Editor/Core/YamlParser.cs:100-104 | a successful run keeps the earlier entries and maps each recorded name to its header's ID in its kind's map |
| YamlParser.ApplyAddsOnlyEntries | unity/IzFbxTools/Editor/Core/YamlParser.cs:100-104 | a successful run adds no name other than the recorded ones |
| YamlParser.EntriesSound | unity/IzFbxTools/Editor/Core/YamlParser.cs:74-111 | every name line the scan records is the first name line of a section it opens, with that line's name and its header's ID, in line order |
| YamlParser.EntriesComplete | unity/IzFbxTools/Editor/Core/YamlParser.cs:74-111 | every first name line of a section the scan opens, at or after the current line, is recorded |
| YamlParser.EntriesCover | unity/IzFbxTools/Editor/Core/YamlParser.cs:74-111 | every first name line of a section the scan opens is recorded by the whole scan |
| YamlParser.EntriesExact | unity/IzFbxTools/Editor/Core/YamlParser.cs:74-111 | the recorded name lines are exactly the first name lines of the sections the scan opens, in order |
| YamlParser.FailureNamedTwice | unity/IzFbxTools/Editor/Core/YamlParser.cs:100-103 | a failing scan met two first name lines of one kind with the same name |
| YamlParser.NamedTwiceFails | unity/IzFbxTools/Editor/Core/YamlParser.cs:100-103 | two first name lines of one kind with the same name make the scan fail |
| YamlParser.ScanFailsIff | unity/IzFbxTools/Editor/Core/YamlParser.cs:100-103 | the scan fails if and only if the first name lines of two sections of the same kind carry the same name |
| YamlParser.ScanRecordsAll | unity/IzFbxTools/Editor/Core/YamlParser.cs:94-104 | after a successful scan, the name on the first name line of every section it opens is in that kind's map, mapped to the ID of the section's header |
| YamlParser.ScanSourced | unity/IzFbxTools/Editor/Core/YamlParser.cs:74-111 | every recorded name is the name on the first name line of a section of its kind, mapped to the ID of that section's header |
| YamlParser.UntrackedLinesIgnored | unity/IzFbxTools/Editor/Core/YamlParser.cs:91-110 | without further headers, nothing more is recorded |
| YamlParser.SameNameInBothMaps | unity/IzFbxTools/Editor/Core/YamlParser.cs:100-104 | example: a mesh and a clip may share a name; each goes to its own map |
| YamlParser.DuplicateMeshNameFails | unity/IzFbxTools/Editor/Core/YamlParser.cs:100-101 | example: a six-line text with two meshes of the same name fails the scan; `ScanFailsIff` states this for every text |
| YamlParser.OnlyFirstNameCounts | unity/IzFbxTools/Editor/Core/YamlParser.cs:108 | example: only the first name line of an object is recorded |
| YamlParser.TypeLineIsNotAHeader | unity/IzFbxTools/Editor/Core/YamlParser.cs:76-89 | example: the line after a header is taken as its type line, even if it looks like a header |
| Log.EdgeMergeReport | unity/IzFbxTools/Editor/Core/Log.cs:48-52 | the edge-merge report is four lines, each a single line when the mesh names have no line break |
| Log.CombineReport | unity/IzFbxTools/Editor/Core/Log.cs:57-60 | the combine report is two lines plus one per source mesh |
| Log.Log.constructor | unity/IzFbxTools/Editor/Core/Log.cs:21-27 | a new log is empty with zero counters and a matching line count |
| Log.Log.Reset | unity/IzFbxTools/Editor/Core/Log.cs:24-27 | reset empties the text and the line count |
| Log.Log.BeginOneEdgeMerge | unity/IzFbxTools/Editor/Core/Log.cs:30-39 | the counters restart; a non-empty log gets a two-line separator |
| Log.Log.CountMergedEdge | unity/IzFbxTools/Editor/Core/Log.cs:42 | the merged-edge counter grows by one and nothing else changes |
| Log.Log.CountMergedCorner | unity/IzFbxTools/Editor/Core/Log.cs:45 | the merged-corner counter grows by one and nothing else changes |
| Log.Log.EndOneEdgeMerge | unity/IzFbxTools/Editor/Core/Log.cs:48-54 | the report is appended and the line count grows by four, keeping it equal to the text's line breaks |
| Log.Log.EndCombineMesh | unity/IzFbxTools/Editor/Core/Log.cs:57-62 | the combine report is appended and the line count grows by its line count |
| Log.Log.GetResultStr | unity/IzFbxTools/Editor/Core/Log.cs:21-65 | the result text has as many line breaks as the tracked line count |
| Log.LogSlot.constructor | unity/IzFbxTools/Editor/Core/Log.cs:70 | the singleton slot starts empty |
| Log.LogSlot.Instance | unity/IzFbxTools/Editor/Core/Log.cs:16-19 | the first access creates an empty log and every later access returns the same one |
| LogBuilder.ProcReport | unity/ToonMeshEdgeMerger/Editor/LogBuilder.cs:45-48 | the report is four lines, each a single line when the mesh names have no line break |
| LogBuilder.LogBuilder.constructor | unity/ToonMeshEdgeMerger/Editor/LogBuilder.cs:15 | a new builder is empty with zero counters and no meshes |
| LogBuilder.LogBuilder.Reset | unity/ToonMeshEdgeMerger/Editor/LogBuilder.cs:18-21 | reset empties the text and the line count |
| LogBuilder.LogBuilder.BeginOneProc | unity/ToonMeshEdgeMerger/Editor/LogBuilder.cs:24-35 | the meshes are stored, the counters restart and a non-empty log gets a two-line separator |
| LogBuilder.LogBuilder.CountMergedEdge | unity/ToonMeshEdgeMerger/Editor/LogBuilder.cs:38 | the merged-edge counter grows by one and nothing else changes |
| LogBuilder.LogBuilder.CountMergedCorner | unity/ToonMeshEdgeMerger/Editor/LogBuilder.cs:41 | the merged-corner counter grows by one and nothing else changes |
| LogBuilder.LogBuilder.EndOneProc | unity/ToonMeshEdgeMerger/Editor/LogBuilder.cs:44-50 | the report about the stored meshes is appended and the line count grows by four |
| LogBuilder.LogBuilder.GetResultStr | unity/ToonMeshEdgeMerger/Editor/LogBuilder.cs:15-53 | the result text has as many line breaks as the tracked line count |
| Strings.IndexOf | unity/IzFbxTools/Editor/Core/YamlParser.cs:79 | the index is the first occurrence, or -1 exactly when there is none |
| Strings.LastIndexOf | unity/IzFbxTools/Editor/Core/Anim/MirrorAnimGenerator.cs:110-111 | the index is the last occurrence, or -1 exactly when there is none |
| Strings.NatToStringRoundTrip | unity/IzFbxTools/Editor/Core/Log.cs:50-52 | a counter's decimal text reads back as the counter |
| Strings.AppendLinesCount | unity/IzFbxTools/Editor/Core/Log.cs:21 | appending single-line strings adds one line break each |

## Left out

- Floating point. Vectors are exact reals, so rounding, NaN and infinities are not modelled.
- `Geom.NormalisationIrrelevant`: the magnitude of `p01` is supplied as a number rather than
  computed with a square root. It may be zero only for a zero vector.
- The crease/valley classification geometry (`EdgeMerger.cs:57-72`) is a parameter of
  `EdgeMerger.Proc`. It gives the two `isCrossing` results for a pair of edges. The
  tangent-frame arithmetic that builds the half-lines is floating point.
- The corner angles (`EdgeMerger.cs:105-128`) are a parameter as well. They give the angle of
  each corner vertex. Only their use as the sort key is modelled.
- `EdgeMerger.OrderBy`: the contract states a sorted permutation. It does not state the
  stability of LINQ `OrderBy` for equal angles.
- `EdgeMerger.Proc`: its contract states the shape of the result. The exact triangle list is
  stated by `EdgeMerger.MergeTopology`, which `Proc` calls.
- The face normal and centroid (`Topology.cs:87-88`) are carried as data. They are not
  computed, because they need a square root.
- `LinkedList` nodes are modelled as the list of edges not yet visited. Removing the current
  node ends the loop, as it does in .NET.
- The ulong key packing of a vertex pair is modelled as the pair itself. The packing is
  injective for non-negative 32-bit indices.
- `Topology.Topology.constructor` requires one normal per vertex. The throw at
  `Topology.cs:49` for a mesh with fewer normals is modelled by `Topology.Build`, which tests
  for it before constructing; surplus normals are cut off there, as the vertex-indexed read
  at line 49 ignores them.
- Integer overflow of 32-bit counters and indices is not modelled.
- `MeshCombiner.combine` (`MeshCombiner.cs:171-224`) is not modelled. It drives Unity
  renderers, prefabs and `Mesh.CombineMeshes`. Its per-object part, `addTo`, is modelled.
- Matrices are opaque values. The point and vector transforms and the bind-pose rebasing are
  function parameters of `MeshCombiner.AddTo`.
- `MeshCombiner.AddTo` requires every bone weight of the source to name one of its bones.
  Otherwise `MeshCombiner.cs:136` throws an index exception, and the model has no such
  outcome.
- `MeshCombiner.Mesh.SetVertices`: the zero filler for a grown channel and the clearing of a
  channel by an empty array are modelling assumptions about Unity's `Mesh`, whose source is not
  part of this model. The error Unity logs when it refuses an array is not modelled.
- `MeshCombiner.AddTo` requires two different objects with two different meshes. Combining an
  object into itself is not modelled.
- `Strings.AppendLine` ends a line with "\n". .NET's `StringBuilder.AppendLine` uses
  `Environment.NewLine`, which is "\r\n" on Windows. The number of lines is the same either
  way, but the exact report text differs there.
- `Debug.LogError` texts are not modelled; only the error count is.
- Unity animation API calls (`AnimCloner.clone`, `ClearCurves`, `SetEditorCurve`,
  `AssetDatabase.GetAssetPath`) are not modelled. A clip is a value. `mirrorFPath` receives the
  asset path as a string.
- `MirrorAnim.CenterPathUnchanged`: proved for `MirrorPath`, the centre test as intended. With
  line 67 as written, a path under a right directory can be flagged as centre and is changed.
- `MirrorAnim.MirrorPathInvolutive`: proved for `MirrorPath`. With line 67 as written, a bone
  under a left directory mirrors to a path flagged as centre, so the flags are not restored.
- `MirrorAnim.MirrorCurveInvolutive`: proved for curves mirrored with the intended centre test.
  `MirrorAnim.MirrorCurve`, which follows `proc` as written, is not an involution, as
  `MirrorAnim.MirrorCurveAsWrittenNotInvolutive` shows.
- `MirrorAnim.MirrorCurvesInvolutive`: proved for the intended centre test only, for the same
  reason.
- `MirrorAnim.MirrorClipInvolutive`: proved for `MirrorAnim.MirrorClipCorrected`, not for the
  clip that `proc` produces as written.
- The `cycleOffset` shift (`MirrorAnimGenerator.cs:33-37`) is left out, because it is
  floating-point settings plumbing.
- `SetEditorCurve` overwriting a curve with the same binding is not modelled. The output is the
  list of curves in emission order.
- The model compares strings ordinally. .NET's `EndsWith(string)`, `StartsWith(string)` and
  `LastIndexOf(string)` compare by the current culture, which can differ on ignorable
  characters; that is not modelled. `Contains`, `Replace(string, string)` and `IndexOf(char)`
  are ordinal in .NET as well.
- The regular expression engine is an oracle: whether a binding path matches, and the
  captures of a match. The model keys the captures by the matched text, where the source
  reads the captures of the current path's own match (`VisibilityAnimGenerator.cs:101` and
  `VisibilityAnimGenerator.cs:128`); the two differ only if one text could match with different
  captures.
- `getCombinedName` is a function parameter, and so is the targetable-name list.
- `VisTargetObjInfo` is a value. Its identity, as shared between cache and caller, is not
  modelled.
- `VisibilityAnim.IsPartialMatch` requires a non-empty format. On an empty one the source's
  `srcObjName[0]` throws, but its only caller passes texts that `isPartialMatchFmt` accepts,
  and those are non-empty.
- `log.endVisAnimGeneration` is called at `VisibilityAnimGenerator.cs:144` but is not defined
  in `Log.cs`, so it is not modelled.
- `YamlParser.repairNameIDMap`, `loadFileAsText` and `saveFileAsText` are file I/O and text
  rewriting around the scan, and are not modelled. The scan takes the text already split into
  lines, so `StringReader` line splitting is not modelled.
- `YamlParser.DuplicateMeshNameFails`: states one six-line example only. The general statement,
  for every text, is `YamlParser.ScanFailsIff`.
- `LogBuilder.LogBuilder.EndOneProc` requires meshes stored by `BeginOneProc`. The source
  dereferences null otherwise.
- `Log.Log.EndOneEdgeMerge` and `LogBuilder.LogBuilder.EndOneProc` keep the line count equal to
  the text's line breaks only for mesh names without a line break. The source counts four lines
  regardless, and the model states that count.

## Findings

| source | as written | input that shows it | evidently intended | confidence | as-written member | corrected member |
|---|---|---|---|---|---|---|
| unity/IzFbxTools/Editor/Core/Anim/MirrorAnimGenerator.cs:67 | the centre test checks `!path.Contains(suffixL+"/")` twice and never checks `suffixR+"/"` | with suffixes `_L`/`_R`, the path `root/arm_L/hand` becomes `root/arm_R/hand` and is flagged centre, so its `m_LocalPosition.x` is negated; mirroring it back is not flagged, so a left/right pair is treated asymmetrically | centre means no `suffixL+"/"` and no `suffixR+"/"` in the path | not executed | MirrorAnim.MirrorCurveAsWrittenNotInvolutive | MirrorAnim.MirrorCurveInvolutive |
