/**
 * The index buffers handed to the renderer (src/ModelView/ModelViewBuilder.cpp,
 * src/ModelView/ModelViews.h): one line per live edge, and a fan of triangles
 * per face loop, each tagged with the dense position of the edge, face or
 * volume it belongs to.  Vertex references are dense vertex indices
 * (`VertexIdToIndex`), so they address the packed vertex buffer.
 */
module ModelViews {
  import opened SparseSets
  import opened Primitives
  import opened Tools
  import opened Models

  /** `LineView`: two vertex indices and one primitive id per edge. */
  datatype LineView = LineView(vertexIndices: seq<nat>, primitiveIds: seq<nat>, primitiveCount: nat)

  /** `FaceView` (also `VolumeView`): three vertex indices and one primitive id per triangle. */
  datatype FaceView = FaceView(vertexIndices: seq<nat>, primitiveIds: seq<nat>, primitiveCount: nat)

  /** A loop to triangulate, as dense vertex indices, with the primitive id its triangles carry. */
  datatype Polygon = Polygon(loop: seq<nat>, tag: nat)

  /** Triangle index and primitive id streams. */
  datatype Mesh = Mesh(indices: seq<nat>, ids: seq<nat>)

  /** A loop of k vertices is drawn as k - 2 triangles; a shorter one is skipped. */
  function TriangleCount(k: nat): nat
  {
    if k >= 3 then k - 2 else 0
  }

  /** The fan triangulation of a loop: one triangle per vertex after the second, all sharing loop[0]. */
  function Fan(loop: seq<nat>): (r: seq<nat>)
    ensures |r| == 3 * TriangleCount(|loop|)
    decreases |loop|
  {
    if |loop| < 3 then []
    else
      var n := |loop| - 1;
      Fan(loop[..n]) + [loop[0], loop[n - 1], loop[n]]
  }

  /** Triangle j of the fan is (loop[0], loop[j + 1], loop[j + 2]), so every vertex it names is on the loop. */
  lemma {:induction false} FanTriangles(loop: seq<nat>)
    ensures forall j :: 0 <= j < TriangleCount(|loop|) ==>
      Fan(loop)[3 * j] == loop[0] && Fan(loop)[3 * j + 1] == loop[j + 1] && Fan(loop)[3 * j + 2] == loop[j + 2]
    ensures forall x :: x in Fan(loop) ==> x in loop
    decreases |loop|
  {
    if |loop| >= 3 {
      var n := |loop| - 1;
      var init := loop[..n];
      FanTriangles(init);
      var r := Fan(loop);
      assert r == Fan(init) + [loop[0], loop[n - 1], loop[n]];
      forall j | 0 <= j < TriangleCount(|loop|)
        ensures r[3 * j] == loop[0] && r[3 * j + 1] == loop[j + 1] && r[3 * j + 2] == loop[j + 2]
      {
        if j < TriangleCount(n) {
          assert r[3 * j] == Fan(init)[3 * j] && r[3 * j + 1] == Fan(init)[3 * j + 1] && r[3 * j + 2] == Fan(init)[3 * j + 2];
        }
      }
      forall x | x in r ensures x in loop {
        if x in Fan(init) {
          assert x in init;
        }
      }
    }
  }

  /** `n` copies of `tag`. */
  function Repeat(tag: nat, n: nat): (r: seq<nat>)
    ensures |r| == n && forall i :: 0 <= i < n ==> r[i] == tag
  {
    if n == 0 then [] else Repeat(tag, n - 1) + [tag]
  }

  /**
   * Appending the triangle (loop[0], loop[i], loop[i + 1]) and one tag to the
   * streams of a loop prefix gives the streams of the prefix one vertex longer.
   */
  lemma FanStep(indices: seq<nat>, ids: seq<nat>, loop: seq<nat>, i: nat, tag: nat)
    requires 1 <= i && i + 2 <= |loop|
    ensures indices + Fan(loop[..i + 2]) == (indices + Fan(loop[..i + 1])) + [loop[0], loop[i], loop[i + 1]]
    ensures ids + Repeat(tag, TriangleCount(i + 2)) == (ids + Repeat(tag, TriangleCount(i + 1))) + [tag]
  {
    assert loop[..i + 2][..i + 1] == loop[..i + 1];
    assert Fan(loop[..i + 2]) == Fan(loop[..i + 1]) + [loop[0], loop[i], loop[i + 1]];
  }

  /** One primitive id per triangle of the polygon. */
  function Tags(p: Polygon): seq<nat>
  {
    Repeat(p.tag, TriangleCount(|p.loop|))
  }

  /** The fans of all polygons, in order, with their ids. */
  function Triangulate(polys: seq<Polygon>): (m: Mesh)
    ensures |m.indices| == 3 * |m.ids|
    decreases |polys|
  {
    if polys == [] then Mesh([], [])
    else
      var n := |polys| - 1;
      var before := Triangulate(polys[..n]);
      Mesh(before.indices + Fan(polys[n].loop), before.ids + Tags(polys[n]))
  }

  /** Triangulating two runs of polygons one after the other concatenates their streams. */
  lemma {:induction false} TriangulateConcat(a: seq<Polygon>, b: seq<Polygon>)
    ensures Triangulate(a + b).indices == Triangulate(a).indices + Triangulate(b).indices
    ensures Triangulate(a + b).ids == Triangulate(a).ids + Triangulate(b).ids
    decreases |b|
  {
    if b == [] {
      assert a + b == a;
    } else {
      var n := |b| - 1;
      var ab := a + b;
      TriangulateConcat(a, b[..n]);
      assert ab[..|ab| - 1] == a + b[..n] && ab[|ab| - 1] == b[n];
      var whole, front, back := Triangulate(a), Triangulate(a + b[..n]), Triangulate(b[..n]);
      var fan, tags := Fan(b[n].loop), Tags(b[n]);
      assert Triangulate(ab).indices == front.indices + fan;
      assert Triangulate(b).indices == back.indices + fan;
      AppendRegroup(front.indices, whole.indices, back.indices, fan);
      assert Triangulate(ab).ids == front.ids + tags;
      assert Triangulate(b).ids == back.ids + tags;
      AppendRegroup(front.ids, whole.ids, back.ids, tags);
    }
  }

  /** A run split in two stays split in the same place once more is appended. */
  lemma AppendRegroup<T>(joined: seq<T>, x: seq<T>, y: seq<T>, z: seq<T>)
    requires joined == x + y
    ensures joined + z == x + (y + z)
  {
  }

  /** Triangulating one more polygon appends its fan and its tags to the streams already emitted. */
  lemma TriangulateSnoc(indices: seq<nat>, ids: seq<nat>, polys: seq<Polygon>, k: nat)
    requires k < |polys|
    ensures indices + Triangulate(polys[..k + 1]).indices == (indices + Triangulate(polys[..k]).indices) + Fan(polys[k].loop)
    ensures ids + Triangulate(polys[..k + 1]).ids == (ids + Triangulate(polys[..k]).ids) + Tags(polys[k])
  {
    assert polys[..k + 1][..k] == polys[..k];
  }

  /**
   * Every index the triangulation emits is a vertex of one of the loops, and every
   * id is one of the polygons' tags, so bounds on those carry over to the buffers.
   */
  lemma {:induction false} TriangulateRanges(polys: seq<Polygon>, vertexBound: nat, tagBound: nat)
    requires forall i, k :: 0 <= i < |polys| && 0 <= k < |polys[i].loop| ==> polys[i].loop[k] < vertexBound
    requires forall i :: 0 <= i < |polys| ==> polys[i].tag < tagBound
    ensures forall x :: x in Triangulate(polys).indices ==> x < vertexBound
    ensures forall x :: x in Triangulate(polys).ids ==> x < tagBound
    decreases |polys|
  {
    if polys != [] {
      var n := |polys| - 1;
      TriangulateRanges(polys[..n], vertexBound, tagBound);
      var p := polys[n];
      FanTriangles(p.loop);
      forall x | x in Fan(p.loop) ensures x < vertexBound {
        var k :| 0 <= k < |p.loop| && p.loop[k] == x;
      }
      assert Triangulate(polys).indices == Triangulate(polys[..n]).indices + Fan(p.loop);
    }
  }

  /** Polygons with ascending tags give ascending primitive ids: each face's triangles are contiguous. */
  lemma {:induction false} TriangulateIdsAscending(polys: seq<Polygon>)
    requires forall i, j :: 0 <= i < j < |polys| ==> polys[i].tag <= polys[j].tag
    ensures forall a, b :: 0 <= a < b < |Triangulate(polys).ids| ==>
      Triangulate(polys).ids[a] <= Triangulate(polys).ids[b]
    ensures polys != [] ==> forall x :: x in Triangulate(polys).ids ==> x <= polys[|polys| - 1].tag
    decreases |polys|
  {
    if polys != [] {
      var n := |polys| - 1;
      TriangulateIdsAscending(polys[..n]);
      var before := Triangulate(polys[..n]).ids;
      var ids := Triangulate(polys).ids;
      var tags := Tags(polys[n]);
      assert ids == before + tags;
      forall a, b | 0 <= a < b < |ids| ensures ids[a] <= ids[b] {
        if b < |before| {
          assert ids[a] == before[a] && ids[b] == before[b];
        } else if a < |before| {
          assert n > 0 && ids[a] in before;
          assert polys[..n][n - 1].tag <= polys[n].tag;
        }
      }
    }
  }

  // ---- what the builder reads from the model ------------------------------

  /** Every edge's endpoints are live (the builder looks up their dense indices unchecked). */
  predicate EndpointsLive(es: seq<Edge>, slots: map<VertexId, nat>)
  {
    forall i :: 0 <= i < |es| ==> es[i].a in slots && es[i].b in slots
  }

  /** Every vertex of the loop is live, so its dense index can be looked up. */
  predicate LoopLive(loop: seq<VertexId>, slots: map<VertexId, nat>)
  {
    forall k :: 0 <= k < |loop| ==> loop[k] in slots
  }

  /** A face can be drawn: its edge lookups succeed and its loop's vertices are live. */
  predicate Drawable(face: Face, es: map<EdgeId, Edge>, slots: map<VertexId, nat>)
  {
    WalkLookups(face, es) && LoopLive(FaceLoop(face, es), slots)
  }

  predicate AllDrawable(faces: seq<Face>, es: map<EdgeId, Edge>, slots: map<VertexId, nat>)
  {
    forall i :: 0 <= i < |faces| ==> Drawable(faces[i], es, slots)
  }

  /** A loop of vertex ids as dense vertex indices. */
  function LoopIndices(loop: seq<VertexId>, slots: map<VertexId, nat>): (r: seq<nat>)
    requires LoopLive(loop, slots)
    ensures |r| == |loop| && forall k :: 0 <= k < |loop| ==> r[k] == slots[loop[k]]
  {
    seq(|loop|, k requires 0 <= k < |loop| => slots[loop[k]])
  }

  /**
   * The inner fan loop of the builder: appends, for i = 1 .. |verts| - 2, the
   * triangle (verts[0], verts[i], verts[i + 1]) as dense vertex indices and
   * one `tag` per triangle.
   */
  method EmitFan(verts: seq<VertexId>, tag: nat, indices: seq<nat>, ids: seq<nat>, slots: map<VertexId, nat>)
    returns (indices': seq<nat>, ids': seq<nat>)
    requires LoopLive(verts, slots)
    ensures indices' == indices + Fan(LoopIndices(verts, slots))
    ensures ids' == ids + Tags(Polygon(LoopIndices(verts, slots), tag))
  {
    ghost var loop := LoopIndices(verts, slots);
    indices', ids' := indices, ids;
    if |verts| < 3 {
      assert indices + [] == indices && ids + [] == ids;
      return;
    }
    assert loop[..2][..2] == loop[..2];
    for i := 1 to |verts| - 1
      invariant indices' == indices + Fan(loop[..i + 1])
      invariant ids' == ids + Repeat(tag, TriangleCount(i + 1))
    {
      var i0, i1, i2 := slots[verts[0]], slots[verts[i]], slots[verts[i + 1]];
      FanStep(indices, ids, loop, i, tag);
      indices' := indices' + [i0, i1, i2];
      ids' := ids' + [tag];
    }
    assert loop[..|verts|] == loop;
  }

  /** The polygon of one face, tagged with `tag`. */
  function FacePolygon(face: Face, es: map<EdgeId, Edge>, slots: map<VertexId, nat>, tag: nat): Polygon
    requires Drawable(face, es, slots)
  {
    Polygon(LoopIndices(FaceLoop(face, es), slots), tag)
  }

  /** The face view's polygons: face i in dense order, tagged i. */
  function FacePolygons(faces: seq<Face>, es: map<EdgeId, Edge>, slots: map<VertexId, nat>): (ps: seq<Polygon>)
    requires AllDrawable(faces, es, slots)
    ensures |ps| == |faces|
    ensures forall i :: 0 <= i < |faces| ==> ps[i] == FacePolygon(faces[i], es, slots, i)
  {
    seq(|faces|, i requires 0 <= i < |faces| => FacePolygon(faces[i], es, slots, i))
  }

  /** Every face id of every volume names a live, drawable face. */
  predicate VolumesDrawable(vols: seq<Volume>, fs: map<FaceId, Face>, es: map<EdgeId, Edge>, slots: map<VertexId, nat>)
  {
    forall j, k :: 0 <= j < |vols| && 0 <= k < |vols[j].faces| ==>
      vols[j].faces[k] in fs && Drawable(fs[vols[j].faces[k]], es, slots)
  }

  /** The polygons of one volume's faces, looked up by id, all tagged with the volume's dense position. */
  function VolumeFacePolygons(vol: Volume, fs: map<FaceId, Face>, es: map<EdgeId, Edge>, slots: map<VertexId, nat>, tag: nat): (ps: seq<Polygon>)
    requires forall k :: 0 <= k < |vol.faces| ==> vol.faces[k] in fs && Drawable(fs[vol.faces[k]], es, slots)
    ensures |ps| == |vol.faces|
    ensures forall k :: 0 <= k < |vol.faces| ==> ps[k] == FacePolygon(fs[vol.faces[k]], es, slots, tag)
  {
    seq(|vol.faces|, k requires 0 <= k < |vol.faces| => FacePolygon(fs[vol.faces[k]], es, slots, tag))
  }

  /** The volume view's polygons: every face of volume j in dense order, tagged j. */
  function VolumePolygons(vols: seq<Volume>, fs: map<FaceId, Face>, es: map<EdgeId, Edge>, slots: map<VertexId, nat>): (ps: seq<Polygon>)
    requires VolumesDrawable(vols, fs, es, slots)
    ensures forall i :: 0 <= i < |ps| ==> ps[i].tag < |vols|
    decreases |vols|
  {
    if vols == [] then []
    else
      var n := |vols| - 1;
      assert VolumesDrawable(vols[..n], fs, es, slots) by {
        forall j, k | 0 <= j < n && 0 <= k < |vols[..n][j].faces|
          ensures vols[..n][j].faces[k] in fs && Drawable(fs[vols[..n][j].faces[k]], es, slots)
        {
          assert vols[..n][j] == vols[j];
        }
      }
      VolumePolygons(vols[..n], fs, es, slots) + VolumeFacePolygons(vols[n], fs, es, slots, n)
  }

  lemma VolumesDrawablePrefix(vols: seq<Volume>, n: nat, fs: map<FaceId, Face>, es: map<EdgeId, Edge>, slots: map<VertexId, nat>)
    requires n <= |vols| && VolumesDrawable(vols, fs, es, slots)
    ensures VolumesDrawable(vols[..n], fs, es, slots)
  {
    forall j, k | 0 <= j < n && 0 <= k < |vols[..n][j].faces|
      ensures vols[..n][j].faces[k] in fs && Drawable(fs[vols[..n][j].faces[k]], es, slots)
    {
      assert vols[..n][j] == vols[j];
    }
  }

  /** Drawing one more volume appends the polygons of its faces, tagged with its position. */
  lemma VolumePolygonsSnoc(vols: seq<Volume>, n: nat, fs: map<FaceId, Face>, es: map<EdgeId, Edge>, slots: map<VertexId, nat>)
    requires n < |vols| && VolumesDrawable(vols, fs, es, slots)
    ensures VolumesDrawable(vols[..n], fs, es, slots) && VolumesDrawable(vols[..n + 1], fs, es, slots)
    ensures VolumePolygons(vols[..n + 1], fs, es, slots)
      == VolumePolygons(vols[..n], fs, es, slots) + VolumeFacePolygons(vols[n], fs, es, slots, n)
  {
    VolumesDrawablePrefix(vols, n, fs, es, slots);
    VolumesDrawablePrefix(vols, n + 1, fs, es, slots);
    assert vols[..n + 1][..n] == vols[..n];
  }

  /**
   * The volume view's polygons as the source builds them: each face id is used
   * as a position in the dense face array instead of being looked up.
   */
  function VolumePolygonsAsWritten(vols: seq<Volume>, dense: seq<Face>, es: map<EdgeId, Edge>, slots: map<VertexId, nat>): (ps: seq<Polygon>)
    requires forall j, k :: 0 <= j < |vols| && 0 <= k < |vols[j].faces| ==>
      vols[j].faces[k] < |dense| && Drawable(dense[vols[j].faces[k]], es, slots)
    ensures forall i :: 0 <= i < |ps| ==> ps[i].tag < |vols|
    decreases |vols|
  {
    if vols == [] then []
    else
      var n := |vols| - 1;
      var vol := vols[n];
      assert forall j :: 0 <= j < n ==> vols[..n][j] == vols[j];
      VolumePolygonsAsWritten(vols[..n], dense, es, slots)
        + seq(|vol.faces|, k requires 0 <= k < |vol.faces| => FacePolygon(dense[vol.faces[k]], es, slots, n))
  }

  /** Two triangles, 0-1-2 and 3-4-5, with every vertex at the dense index equal to its id. */
  const TriangleEdges: map<EdgeId, Edge> :=
    map[0 := Edge(0, 1), 1 := Edge(1, 2), 2 := Edge(2, 0), 3 := Edge(3, 4), 4 := Edge(4, 5), 5 := Edge(5, 3)]
  const TriangleSlots: map<VertexId, nat> := map[0 := 0, 1 := 1, 2 := 2, 3 := 3, 4 := 4, 5 := 5]

  /** The loop of a triangle face whose three edges chain u-v-w-u. */
  lemma TriangleLoop(face: Face, u: VertexId, v: VertexId, w: VertexId)
    requires |face.edges| == 3 && EdgesKnown(face, TriangleEdges)
    requires TriangleEdges[face.edges[0]] == Edge(u, v) && TriangleEdges[face.edges[1]] == Edge(v, w)
    requires TriangleEdges[face.edges[2]] == Edge(w, u)
    ensures FaceLoop(face, TriangleEdges) == [u, v, w]
  {
    var es := EdgesOf(face, TriangleEdges);
    var walk := [u, v, w, u];
    assert IsWalk(es[0], es[1..], walk);
    WalkIsChain(es[0], es[1..], walk);
    FaceLoopOfChain(face, TriangleEdges);
    assert walk[..3] == [u, v, w];
  }

  /** The source's dense indexing draws the one-face volume with whatever face sits in dense slot 0. */
  lemma AsWrittenDrawsSlotZero()
    ensures FaceLoop(Face([3, 4, 5]), TriangleEdges) == [3, 4, 5]
    ensures var ps := VolumePolygonsAsWritten([Volume([0])], [Face([3, 4, 5]), Face([0, 1, 2])], TriangleEdges, TriangleSlots);
            |ps| == 1 && ps[0].loop == [3, 4, 5]
  {
    TriangleLoop(Face([3, 4, 5]), 3, 4, 5);
    assert [Volume([0])][..0] == [];
    assert FacePolygon(Face([3, 4, 5]), TriangleEdges, TriangleSlots, 0).loop == [3, 4, 5];
  }

  /** The lookup by id draws the one-face volume with face 0. */
  lemma LookupDrawsFaceZero()
    ensures FaceLoop(Face([0, 1, 2]), TriangleEdges) == [0, 1, 2]
    ensures var ps := VolumePolygons([Volume([0])], map[0 := Face([0, 1, 2]), 1 := Face([3, 4, 5])], TriangleEdges, TriangleSlots);
            |ps| == 1 && ps[0].loop == [0, 1, 2]
  {
    TriangleLoop(Face([0, 1, 2]), 0, 1, 2);
    assert [Volume([0])][..0] == [];
    assert FacePolygon(Face([0, 1, 2]), TriangleEdges, TriangleSlots, 0).loop == [0, 1, 2];
  }

  /**
   * The store `RemoveReordersDense` leaves with faces A = 0-1-2 and B = 3-4-5:
   * a volume made of face id 0 is drawn with B's loop by the source's dense
   * indexing, and with A's by the lookup by id.
   */
  method VolumeViewMisreadsFace() returns (store: SparseSet<Face>)
    ensures store.Valid() && store.Contents() == map[0 := Face([0, 1, 2]), 1 := Face([3, 4, 5])]
    ensures store.Dense() == [Face([3, 4, 5]), Face([0, 1, 2])]
    ensures FaceLoop(Face([0, 1, 2]), TriangleEdges) == [0, 1, 2]
    ensures FaceLoop(Face([3, 4, 5]), TriangleEdges) == [3, 4, 5]
    ensures VolumePolygonsAsWritten([Volume([0])], store.Dense(), TriangleEdges, TriangleSlots)
      != VolumePolygons([Volume([0])], store.Contents(), TriangleEdges, TriangleSlots)
  {
    store := RemoveReordersDense(Face([0, 1, 2]), Face([3, 4, 5]));
    AsWrittenDrawsSlotZero();
    LookupDrawsFaceZero();
  }

  // ---- the builder's loops, over what it reads from the model -------------

  /** The line view's loop over the dense edge array. */
  method Lines(edges: seq<Edge>, slots: map<VertexId, nat>) returns (view: LineView)
    requires EndpointsLive(edges, slots)
    ensures view.primitiveCount == |edges|
    ensures |view.primitiveIds| == |edges| && |view.vertexIndices| == 2 * |edges|
    ensures forall i :: 0 <= i < |edges| ==> view.primitiveIds[i] == i
    ensures forall i :: 0 <= i < |edges| ==>
      view.vertexIndices[2 * i] == slots[edges[i].a] && view.vertexIndices[2 * i + 1] == slots[edges[i].b]
  {
    var indices: seq<nat> := [];
    var ids: seq<nat> := [];
    var edgeIndex := 0;
    while edgeIndex < |edges|
      invariant edgeIndex <= |edges|
      invariant |ids| == edgeIndex && |indices| == 2 * edgeIndex
      invariant forall i :: 0 <= i < edgeIndex ==> ids[i] == i
      invariant forall i :: 0 <= i < edgeIndex ==>
        indices[2 * i] == slots[edges[i].a] && indices[2 * i + 1] == slots[edges[i].b]
    {
      var e := edges[edgeIndex];
      var i0 := slots[e.a];
      var i1 := slots[e.b];
      indices := indices + [i0, i1];
      ids := ids + [edgeIndex];
      edgeIndex := edgeIndex + 1;
    }
    view := LineView(indices, ids, edgeIndex);
  }

  /** One face's turn in either view: its loop is walked and, when it has three vertices or more, fanned. */
  method EmitFace(face: Face, tag: nat, indices: seq<nat>, ids: seq<nat>, es: map<EdgeId, Edge>, slots: map<VertexId, nat>)
    returns (indices': seq<nat>, ids': seq<nat>)
    requires Drawable(face, es, slots)
    ensures indices' == indices + Fan(FacePolygon(face, es, slots, tag).loop)
    ensures ids' == ids + Tags(FacePolygon(face, es, slots, tag))
  {
    var verts := ExtractVertices(face, es);
    if |verts| >= 3 {
      indices', ids' := EmitFan(verts, tag, indices, ids, slots);
    } else {
      indices', ids' := indices, ids;
      assert indices + Fan(LoopIndices(verts, slots)) == indices;
      assert ids + Tags(Polygon(LoopIndices(verts, slots), tag)) == ids;
    }
  }

  /** The face view's loop over the dense face array. */
  method FaceFans(faces: seq<Face>, edges: map<EdgeId, Edge>, slots: map<VertexId, nat>) returns (view: FaceView)
    requires AllDrawable(faces, edges, slots)
    ensures view.primitiveCount == |faces|
    ensures Mesh(view.vertexIndices, view.primitiveIds) == Triangulate(FacePolygons(faces, edges, slots))
  {
    ghost var polys := FacePolygons(faces, edges, slots);
    var indices: seq<nat> := [];
    var ids: seq<nat> := [];
    var faceIndex := 0;
    while faceIndex < |faces|
      invariant faceIndex <= |faces|
      invariant indices == [] + Triangulate(polys[..faceIndex]).indices && ids == [] + Triangulate(polys[..faceIndex]).ids
    {
      TriangulateSnoc([], [], polys, faceIndex);
      indices, ids := EmitFace(faces[faceIndex], faceIndex, indices, ids, edges, slots);
      faceIndex := faceIndex + 1;
    }
    assert polys[..|faces|] == polys;
    view := FaceView(indices, ids, faceIndex);
  }

  /** The volume view's inner loop: the fans of one volume's faces, looked up by id, every triangle tagged `tag`. */
  method EmitVolume(vol: Volume, tag: nat, indices: seq<nat>, ids: seq<nat>, fs: map<FaceId, Face>, es: map<EdgeId, Edge>, slots: map<VertexId, nat>)
    returns (indices': seq<nat>, ids': seq<nat>)
    requires forall k :: 0 <= k < |vol.faces| ==> vol.faces[k] in fs && Drawable(fs[vol.faces[k]], es, slots)
    ensures indices' == indices + Triangulate(VolumeFacePolygons(vol, fs, es, slots, tag)).indices
    ensures ids' == ids + Triangulate(VolumeFacePolygons(vol, fs, es, slots, tag)).ids
  {
    ghost var polys := VolumeFacePolygons(vol, fs, es, slots, tag);
    indices', ids' := indices, ids;
    for k := 0 to |vol.faces|
      invariant indices' == indices + Triangulate(polys[..k]).indices
      invariant ids' == ids + Triangulate(polys[..k]).ids
    {
      TriangulateSnoc(indices, ids, polys, k);
      indices', ids' := EmitFace(fs[vol.faces[k]], tag, indices', ids', es, slots);
    }
    assert polys[..|vol.faces|] == polys;
  }

  /** The volume view's outer loop over the dense volume array. */
  method VolumeFans(volumes: seq<Volume>, fs: map<FaceId, Face>, es: map<EdgeId, Edge>, slots: map<VertexId, nat>) returns (view: FaceView)
    requires VolumesDrawable(volumes, fs, es, slots)
    ensures view.primitiveCount == |volumes|
    ensures Mesh(view.vertexIndices, view.primitiveIds) == Triangulate(VolumePolygons(volumes, fs, es, slots))
  {
    var indices: seq<nat> := [];
    var ids: seq<nat> := [];
    var volumeIndex := 0;
    VolumesDrawablePrefix(volumes, 0, fs, es, slots);
    while volumeIndex < |volumes|
      invariant volumeIndex <= |volumes| && VolumesDrawable(volumes[..volumeIndex], fs, es, slots)
      invariant indices == Triangulate(VolumePolygons(volumes[..volumeIndex], fs, es, slots)).indices
      invariant ids == Triangulate(VolumePolygons(volumes[..volumeIndex], fs, es, slots)).ids
    {
      VolumePolygonsSnoc(volumes, volumeIndex, fs, es, slots);
      TriangulateConcat(VolumePolygons(volumes[..volumeIndex], fs, es, slots), VolumeFacePolygons(volumes[volumeIndex], fs, es, slots, volumeIndex));
      indices, ids := EmitVolume(volumes[volumeIndex], volumeIndex, indices, ids, fs, es, slots);
      volumeIndex := volumeIndex + 1;
    }
    assert volumes[..|volumes|] == volumes;
    view := FaceView(indices, ids, volumeIndex);
  }

  /** `ModelViewBuilder`: reads the model, builds the three views. */
  class ModelViewBuilder {
    const model: Model

    constructor(model: Model)
      ensures this.model == model
    {
      this.model := model;
    }

    /** The dense index of every live vertex (what `VertexIdToIndex` answers). */
    function VertexSlots(): (slots: map<VertexId, nat>)
      reads model.Repr()
      requires model.Valid()
      ensures slots.Keys == model.VertexMap().Keys
      ensures forall id :: id in slots ==> slots[id] == model.VertexIdToIndex(id) && slots[id] < |model.Vertices()|
    {
      model.vertices.store.Slots()
    }

    /**
     * One line per live edge in dense order: its endpoints' dense vertex
     * indices, and its own dense position as primitive id.
     */
    method BuildLineView() returns (view: LineView)
      requires model.Valid() && EndpointsLive(model.Edges(), VertexSlots())
      ensures view.primitiveCount == |model.Edges()| == |model.EdgeMap()|
      ensures |view.primitiveIds| == |model.Edges()| && |view.vertexIndices| == 2 * |model.Edges()|
      ensures forall i :: 0 <= i < |model.Edges()| ==> view.primitiveIds[i] == i
      ensures forall i :: 0 <= i < |model.Edges()| ==>
        view.vertexIndices[2 * i] == VertexSlots()[model.Edges()[i].a]
        && view.vertexIndices[2 * i + 1] == VertexSlots()[model.Edges()[i].b]
    {
      view := Lines(model.Edges(), VertexSlots());
    }

    /**
     * Every face in dense order: its loop fan-triangulated, every triangle
     * tagged with the face's dense position; a face without a loop is skipped
     * but still counted.
     */
    method BuildFaceView() returns (view: FaceView)
      requires model.Valid() && AllDrawable(model.Faces(), model.EdgeMap(), VertexSlots())
      ensures view.primitiveCount == |model.Faces()| == |model.FaceMap()|
      ensures Mesh(view.vertexIndices, view.primitiveIds) == Triangulate(FacePolygons(model.Faces(), model.EdgeMap(), VertexSlots()))
    {
      view := FaceFans(model.Faces(), model.EdgeMap(), VertexSlots());
    }

    /**
     * Every volume in dense order: the fans of its faces, every triangle tagged
     * with the volume's dense position.  Faces are looked up by id.
     */
    method BuildVolumeView() returns (view: FaceView)
      requires model.Valid() && VolumesDrawable(model.Volumes(), model.FaceMap(), model.EdgeMap(), VertexSlots())
      ensures view.primitiveCount == |model.Volumes()| == |model.VolumeMap()|
      ensures Mesh(view.vertexIndices, view.primitiveIds) == Triangulate(VolumePolygons(model.Volumes(), model.FaceMap(), model.EdgeMap(), VertexSlots()))
    {
      view := VolumeFans(model.Volumes(), model.FaceMap(), model.EdgeMap(), VertexSlots());
    }
  }
}
