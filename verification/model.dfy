/**
 * The modelling kernel (src/Model/Model.h, src/Model/Model.cpp): one entity
 * store per kind, each raising its own dirty flag, with every creation gated by
 * a validity check that runs before anything is inserted.  Removal never
 * cascades: an edge may outlive its vertices, a face its edges.
 *
 * The two floating-point parts are parameters of the model: the coplanarity
 * test `Geometry::AreCoplanar` and the per-vertex displacement of an extrusion.
 */
module Models {
  import opened Wrappers
  import opened SparseSets
  import opened Primitives
  import opened Tools
  import opened Validation

  /** The abstract state of the model: every live entity of each kind, by id. */
  datatype Snapshot = Snapshot(
    vs: map<VertexId, Vertex>, es: map<EdgeId, Edge>, fs: map<FaceId, Face>, vols: map<VolumeId, Volume>)

  /** No edge joins a vertex to itself and no two live edges join the same unordered pair. */
  ghost predicate EdgesWellFormed(m: map<EdgeId, Edge>)
  {
    (forall id :: id in m ==> m[id].a != m[id].b)
    && (forall i, j :: i in m && j in m && i != j ==> !EdgeEquals(m[i], m[j]))
  }

  /** Adding an edge that is no self-loop and equals no live edge keeps the edge store well formed. */
  lemma WellFormedAdd(m: map<EdgeId, Edge>, id: EdgeId, e: Edge)
    requires EdgesWellFormed(m) && id !in m && e.a != e.b
    requires forall k :: k in m ==> !EdgeEquals(m[k], e)
    ensures EdgesWellFormed(m[id := e])
  {
    var m' := m[id := e];
    forall i, j | i in m' && j in m' && i != j ensures !EdgeEquals(m'[i], m'[j]) {
      if i == id {
        assert !EdgeEquals(m[j], e);
      } else if j == id {
        assert !EdgeEquals(m[i], e);
      }
    }
  }

  /** Removing edges keeps the edge store well formed. */
  lemma WellFormedRemove(m: map<EdgeId, Edge>, id: EdgeId)
    requires EdgesWellFormed(m)
    ensures EdgesWellFormed(m - {id})
  {
  }

  /** Whether every id is live in the store (the source's `Contains` loop before a lookup). */
  method AllLive<T>(ids: seq<Id>, store: SparseSet<T>) returns (ok: bool)
    requires store.Valid()
    ensures ok <==> forall i :: 0 <= i < |ids| ==> ids[i] in store.Contents()
  {
    for i := 0 to |ids|
      invariant forall k :: 0 <= k < i ==> ids[k] in store.Contents()
    {
      if !store.Contains(ids[i]) {
        return false;
      }
    }
    return true;
  }

  /** The positions of the given vertices, in order (`Mapped(vertices, &Vertex::position)`). */
  function Positions(vs: seq<VertexId>, m: map<VertexId, Vertex>): (ps: seq<Position>)
    requires forall i :: 0 <= i < |vs| ==> vs[i] in m
    ensures |ps| == |vs|
    ensures forall i :: 0 <= i < |vs| ==> ps[i] == m[vs[i]].position
  {
    seq(|vs|, i requires 0 <= i < |vs| => m[vs[i]].position)
  }

  /** The endpoints of the face's edges, each once. */
  function FaceEndpoints(face: Face, edges: map<EdgeId, Edge>): (vs: set<VertexId>)
    requires EdgesKnown(face, edges)
    ensures forall v :: v in vs <==>
      exists i :: 0 <= i < |face.edges| && (edges[face.edges[i]].a == v || edges[face.edges[i]].b == v)
  {
    (set i | 0 <= i < |face.edges| :: edges[face.edges[i]].a) + (set i | 0 <= i < |face.edges| :: edges[face.edges[i]].b)
  }

  /** The vertex map after an extrusion: the vertices in `moved` displaced by `delta`, the others as they were. */
  ghost function Displaced(m: map<VertexId, Vertex>, moved: set<VertexId>, extrude: (Position, Scalar) -> Position, delta: Scalar): map<VertexId, Vertex>
  {
    map v | v in m :: if v in moved then Vertex(extrude(m[v].position, delta)) else m[v]
  }

  /** Displacing one more vertex extends the displaced set by it. */
  lemma DisplaceOne(m: map<VertexId, Vertex>, done: set<VertexId>, v: VertexId, extrude: (Position, Scalar) -> Position, delta: Scalar)
    requires v in m && v !in done
    ensures v in Displaced(m, done, extrude, delta) && Displaced(m, done, extrude, delta)[v] == m[v]
    ensures Displaced(m, done, extrude, delta)[v := Vertex(extrude(m[v].position, delta))] == Displaced(m, done + {v}, extrude, delta)
  {
  }

  /** Moves every vertex of `moved` by `delta` in place, one overwrite at a time. */
  method DisplaceAll(store: SparseSet<Vertex>, moved: set<VertexId>, extrude: (Position, Scalar) -> Position, delta: Scalar)
    requires store.Valid() && forall v :: v in moved ==> v in store.Contents()
    modifies store
    ensures store.Valid()
    ensures store.Contents() == Displaced(old(store.Contents()), moved, extrude, delta)
    ensures store.denseToId == old(store.denseToId) && store.sparse == old(store.sparse) && store.freeIds == old(store.freeIds)
  {
    ghost var original := store.Contents();
    var rest := moved;
    while rest != {}
      invariant rest <= moved && store.Valid()
      invariant store.Contents() == Displaced(original, moved - rest, extrude, delta)
      invariant store.denseToId == old(store.denseToId) && store.sparse == old(store.sparse) && store.freeIds == old(store.freeIds)
      decreases rest
    {
      var v :| v in rest;
      var current := store.Get(v);
      DisplaceOne(original, moved - rest, v, extrude, delta);
      store.Put(v, Vertex(extrude(current.position, delta)));
      assert moved - (rest - {v}) == (moved - rest) + {v};
      rest := rest - {v};
    }
  }

  /** The scan of the dense edge array in `CanCreateEdge`: some stored edge joins the same two vertices. */
  method HasEqualEdge(dense: seq<Edge>, e: Edge) returns (found: bool)
    ensures found <==> exists k :: 0 <= k < |dense| && EdgeEquals(dense[k], e)
  {
    for i := 0 to |dense|
      invariant forall k :: 0 <= k < i ==> !EdgeEquals(dense[k], e)
    {
      if EdgeEquals(dense[i], e) {
        return true;
      }
    }
    return false;
  }

  /** `CanCreateEdge(a, b)`: distinct live endpoints and no live edge joining them in either order. */
  ghost predicate EdgeAllowed(a: VertexId, b: VertexId, vs: map<VertexId, Vertex>, es: map<EdgeId, Edge>)
  {
    a != b && a in vs && b in vs
    && forall id :: id in es ==> !EdgeEquals(es[id], Edge(a, b))
  }

  /** What `CanCreateFace` looks up: once the edges are live and form a valid loop, the loop's vertices. */
  ghost predicate FaceLookups(ids: seq<EdgeId>, vs: map<VertexId, Vertex>, es: map<EdgeId, Edge>)
  {
    var face := Face(ids);
    (|ids| >= 3 && EdgesKnown(face, es) && FaceValid(face, es))
      ==> forall i :: 0 <= i < |FaceLoop(face, es)| ==> FaceLoop(face, es)[i] in vs
  }

  /** `CanCreateFace(ids)`: at least 3 live edges forming a valid loop whose vertex positions are coplanar. */
  ghost predicate FaceAllowed(ids: seq<EdgeId>, vs: map<VertexId, Vertex>, es: map<EdgeId, Edge>, coplanar: seq<Position> -> bool)
    requires FaceLookups(ids, vs, es)
  {
    var face := Face(ids);
    |ids| >= 3 && EdgesKnown(face, es) && FaceValid(face, es)
    && coplanar(Positions(FaceLoop(face, es), vs))
  }

  /** `CanCreateVolume(ids)`: at least 4 live faces whose edges are each shared by exactly two of them. */
  ghost predicate VolumeAllowed(ids: seq<FaceId>, fs: map<FaceId, Face>)
  {
    |ids| >= 4 && FacesKnown(ids, fs) && VolumeValid(Volume(ids), fs)
  }

  /** What an extrusion of a live face looks up: its edges and their endpoints. */
  ghost predicate ExtrudeLookups(faceId: FaceId, vs: map<VertexId, Vertex>, es: map<EdgeId, Edge>, fs: map<FaceId, Face>)
  {
    faceId in fs && EdgesKnown(fs[faceId], es)
    && forall v :: v in FaceEndpoints(fs[faceId], es) ==> v in vs
  }

  class Model {
    const vertices: DirtySparseSet<Vertex>
    const edges: DirtySparseSet<Edge>
    const faces: DirtySparseSet<Face>
    const volumes: DirtySparseSet<Volume>
    /** `Geometry::AreCoplanar`, left uninterpreted. */
    const coplanar: seq<Position> -> bool
    /** Where an extrusion by a given amount moves one vertex, left uninterpreted. */
    const extrude: (Position, Scalar) -> Position

    ghost function Repr(): set<object>
    {
      {vertices, vertices.store, edges, edges.store, faces, faces.store, volumes, volumes.store}
    }

    ghost predicate Valid()
      reads Repr()
    {
      vertices.Valid() && edges.Valid() && faces.Valid() && volumes.Valid()
      && EdgesWellFormed(edges.store.Contents())
    }

    /** `Model()`: four empty stores, each tied to its own flag, all flags down. */
    constructor(coplanar: seq<Position> -> bool, extrude: (Position, Scalar) -> Position)
      ensures Valid()
      ensures fresh(vertices) && fresh(vertices.store) && fresh(edges) && fresh(edges.store)
      ensures fresh(faces) && fresh(faces.store) && fresh(volumes) && fresh(volumes.store)
      ensures VertexMap() == map[] && EdgeMap() == map[] && FaceMap() == map[] && VolumeMap() == map[]
      ensures !IsVerticesDirty() && !IsEdgesDirty() && !IsFacesDirty() && !IsVolumesDirty()
      ensures this.coplanar == coplanar && this.extrude == extrude
    {
      vertices := new DirtySparseSet(false);
      edges := new DirtySparseSet(false);
      faces := new DirtySparseSet(false);
      volumes := new DirtySparseSet(false);
      this.coplanar := coplanar;
      this.extrude := extrude;
      new;
      assert vertices.Valid() && edges.Valid() && faces.Valid() && volumes.Valid();
      assert edges.store.Contents() == map[];
    }

    // ---- the abstract state: every live entity by id -------------------

    function VertexMap(): map<VertexId, Vertex>
      reads vertices.store
      requires vertices.store.Valid()
    {
      vertices.store.Contents()
    }

    function EdgeMap(): map<EdgeId, Edge>
      reads edges.store
      requires edges.store.Valid()
    {
      edges.store.Contents()
    }

    function FaceMap(): map<FaceId, Face>
      reads faces.store
      requires faces.store.Valid()
    {
      faces.store.Contents()
    }

    function VolumeMap(): map<VolumeId, Volume>
      reads volumes.store
      requires volumes.store.Valid()
    {
      volumes.store.Contents()
    }

    function State(): Snapshot
      reads Repr()
      requires Valid()
    {
      Snapshot(VertexMap(), EdgeMap(), FaceMap(), VolumeMap())
    }

    // ---- dirty flags ---------------------------------------------------

    function IsVerticesDirty(): bool
      reads Repr()
    {
      vertices.dirty
    }

    function IsEdgesDirty(): bool
      reads Repr()
    {
      edges.dirty
    }

    function IsFacesDirty(): bool
      reads Repr()
    {
      faces.dirty
    }

    function IsVolumesDirty(): bool
      reads Repr()
    {
      volumes.dirty
    }

    function ShouldRender(): bool
      reads Repr()
    {
      IsVerticesDirty() || IsEdgesDirty() || IsFacesDirty() || IsVolumesDirty()
    }

    method ResetDirtyFlags()
      requires Valid()
      modifies vertices, edges, faces, volumes
      ensures Valid() && !ShouldRender()
      ensures !IsVerticesDirty() && !IsEdgesDirty() && !IsFacesDirty() && !IsVolumesDirty()
    {
      vertices.dirty := false;
      edges.dirty := false;
      faces.dirty := false;
      volumes.dirty := false;
    }

    // ---- queries -------------------------------------------------------

    function ContainsVertex(id: VertexId): (b: bool)
      reads Repr()
      requires Valid()
      ensures b <==> id in VertexMap()
    {
      vertices.store.Contains(id)
    }

    function ContainsEdge(id: EdgeId): (b: bool)
      reads Repr()
      requires Valid()
      ensures b <==> id in EdgeMap()
    {
      edges.store.Contains(id)
    }

    function ContainsFace(id: FaceId): (b: bool)
      reads Repr()
      requires Valid()
      ensures b <==> id in FaceMap()
    {
      faces.store.Contains(id)
    }

    function ContainsVolume(id: VolumeId): (b: bool)
      reads Repr()
      requires Valid()
      ensures b <==> id in VolumeMap()
    {
      volumes.store.Contains(id)
    }

    function GetVertex(id: VertexId): (v: Vertex)
      reads Repr()
      requires Valid() && ContainsVertex(id)
      ensures v == VertexMap()[id] && v in Vertices()
    {
      vertices.store.Get(id)
    }

    function GetEdge(id: EdgeId): (e: Edge)
      reads Repr()
      requires Valid() && ContainsEdge(id)
      ensures e == EdgeMap()[id] && e in Edges()
    {
      edges.store.Get(id)
    }

    function GetFace(id: FaceId): (f: Face)
      reads Repr()
      requires Valid() && ContainsFace(id)
      ensures f == FaceMap()[id] && f in Faces()
    {
      faces.store.Get(id)
    }

    function GetVolume(id: VolumeId): (v: Volume)
      reads Repr()
      requires Valid() && ContainsVolume(id)
      ensures v == VolumeMap()[id] && v in Volumes()
    {
      volumes.store.Get(id)
    }

    /** The live vertices in dense order: one per live id. */
    function Vertices(): (vs: seq<Vertex>)
      reads Repr()
      requires Valid()
      ensures |vs| == |VertexMap()|
      ensures forall i :: 0 <= i < |vs| ==> vs[i] in VertexMap().Values
    {
      vertices.store.LiveCount();
      vertices.store.Dense()
    }

    /** The live edges in dense order: one per live id. */
    function Edges(): (es: seq<Edge>)
      reads Repr()
      requires Valid()
      ensures |es| == |EdgeMap()|
      ensures forall i :: 0 <= i < |es| ==> es[i] in EdgeMap().Values
    {
      edges.store.LiveCount();
      edges.store.Dense()
    }

    /** The live faces in dense order: one per live id. */
    function Faces(): (fs: seq<Face>)
      reads Repr()
      requires Valid()
      ensures |fs| == |FaceMap()|
      ensures forall i :: 0 <= i < |fs| ==> fs[i] in FaceMap().Values
    {
      faces.store.LiveCount();
      faces.store.Dense()
    }

    /** The live volumes in dense order: one per live id. */
    function Volumes(): (vs: seq<Volume>)
      reads Repr()
      requires Valid()
      ensures |vs| == |VolumeMap()|
      ensures forall i :: 0 <= i < |vs| ==> vs[i] in VolumeMap().Values
    {
      volumes.store.LiveCount();
      volumes.store.Dense()
    }

    /** The position of a live vertex in `Vertices()`: the index a GPU vertex buffer uses. */
    function VertexIdToIndex(id: VertexId): (i: nat)
      reads Repr()
      requires Valid() && ContainsVertex(id)
      ensures i < |Vertices()| && Vertices()[i] == GetVertex(id)
    {
      vertices.store.DenseIndex(id)
    }

    // ---- creation gates ------------------------------------------------

    method CanCreateEdge(a: VertexId, b: VertexId) returns (ok: bool)
      requires Valid()
      ensures ok == EdgeAllowed(a, b, VertexMap(), EdgeMap())
    {
      if a == b {
        return false;
      }
      if !vertices.store.Contains(a) || !vertices.store.Contains(b) {
        return false;
      }
      var dense := edges.store.Dense();
      var taken := HasEqualEdge(dense, Edge(a, b));
      if taken {
        var k :| 0 <= k < |dense| && EdgeEquals(dense[k], Edge(a, b));
        assert EdgeMap()[edges.store.denseToId[k]] == dense[k];
        return false;
      }
      forall id | id in EdgeMap() ensures !EdgeEquals(EdgeMap()[id], Edge(a, b)) {
        var k := edges.store.DenseIndex(id);
      }
      return true;
    }

    method CanCreateFace(ids: seq<EdgeId>) returns (ok: bool)
      requires Valid() && FaceLookups(ids, VertexMap(), EdgeMap())
      ensures ok == FaceAllowed(ids, VertexMap(), EdgeMap(), coplanar)
    {
      ghost var vs, es := VertexMap(), EdgeMap();
      if |ids| < 3 {
        return false;
      }
      var known := AllLive(ids, edges.store);
      if !known {
        return false;
      }
      var temp := Face(ids);
      var valid := IsValidFace(temp, edges.store.Contents());
      if !valid {
        return false;
      }
      var vertexIds := ExtractVertices(temp, edges.store.Contents());
      assert vertexIds == FaceLoop(temp, es) && forall i :: 0 <= i < |vertexIds| ==> vertexIds[i] in vs;
      var positions := VertexPositions(vertexIds);
      ok := coplanar(positions);
    }

    /** `GetMany` on the vertex store followed by the positions of what it returns, in the order asked. */
    method VertexPositions(ids: seq<VertexId>) returns (positions: seq<Position>)
      requires vertices.store.Valid() && forall i :: 0 <= i < |ids| ==> ids[i] in VertexMap()
      ensures positions == Positions(ids, VertexMap())
    {
      var verts := vertices.store.GetMany(ids);
      positions := seq(|verts|, i requires 0 <= i < |verts| => verts[i].position);
    }

    method CanCreateVolume(ids: seq<FaceId>) returns (ok: bool)
      requires Valid()
      ensures ok == VolumeAllowed(ids, FaceMap())
    {
      if |ids| < 4 {
        return false;
      }
      var known := AllLive(ids, faces.store);
      if !known {
        return false;
      }
      ok := IsValidVolume(Volume(ids), faces.store.Contents());
    }

    // ---- creation and removal ------------------------------------------

    method CreateVertex(position: Position) returns (id: VertexId)
      requires Valid()
      modifies vertices, vertices.store
      ensures Valid() && IsVerticesDirty()
      ensures vertices.store.Emplaced(id, Vertex(position))
      ensures State() == old(State()).(vs := old(VertexMap())[id := Vertex(position)])
      ensures ContainsVertex(id) && GetVertex(id).position == position
    {
      id := vertices.Insert(Vertex(position));
    }

    method CreateEdge(a: VertexId, b: VertexId) returns (r: Option<EdgeId>)
      requires Valid()
      modifies edges, edges.store
      ensures Valid()
      ensures r.Some? <==> EdgeAllowed(a, b, old(VertexMap()), old(EdgeMap()))
      ensures r.Some? ==> IsEdgesDirty() && edges.store.Emplaced(r.value, Edge(a, b))
      ensures r.None? ==> unchanged(edges, edges.store)
      ensures State() == if r.Some? then old(State()).(es := old(EdgeMap())[r.value := Edge(a, b)]) else old(State())
    {
      var ok := CanCreateEdge(a, b);
      if !ok {
        return None;
      }
      ghost var before := EdgeMap();
      var id := edges.Insert(Edge(a, b));
      WellFormedAdd(before, id, Edge(a, b));
      return Some(id);
    }

    method CreateFace(ids: seq<EdgeId>) returns (r: Option<FaceId>)
      requires Valid() && FaceLookups(ids, VertexMap(), EdgeMap())
      modifies faces, faces.store
      ensures Valid()
      ensures r.Some? <==> FaceAllowed(ids, old(VertexMap()), old(EdgeMap()), coplanar)
      ensures r.Some? ==> IsFacesDirty() && faces.store.Emplaced(r.value, Face(ids))
      ensures r.None? ==> unchanged(faces, faces.store)
      ensures State() == if r.Some? then old(State()).(fs := old(FaceMap())[r.value := Face(ids)]) else old(State())
    {
      var ok := CanCreateFace(ids);
      if !ok {
        return None;
      }
      var id := faces.Insert(Face(ids));
      return Some(id);
    }

    method CreateVolume(ids: seq<FaceId>) returns (r: Option<VolumeId>)
      requires Valid()
      modifies volumes, volumes.store
      ensures Valid()
      ensures r.Some? <==> VolumeAllowed(ids, old(FaceMap()))
      ensures r.Some? ==> IsVolumesDirty() && volumes.store.Emplaced(r.value, Volume(ids))
      ensures r.None? ==> unchanged(volumes, volumes.store)
      ensures State() == if r.Some? then old(State()).(vols := old(VolumeMap())[r.value := Volume(ids)]) else old(State())
    {
      var ok := CanCreateVolume(ids);
      if !ok {
        return None;
      }
      var id := volumes.Insert(Volume(ids));
      return Some(id);
    }

    method RemoveVertex(id: VertexId) returns (ok: bool)
      requires Valid()
      modifies vertices, vertices.store
      ensures Valid()
      ensures ok == old(ContainsVertex(id))
      ensures ok ==> IsVerticesDirty() && vertices.store.Erased(id)
      ensures !ok ==> unchanged(vertices, vertices.store)
      ensures State() == old(State()).(vs := old(VertexMap()) - {id})
    {
      if !vertices.store.Contains(id) {
        return false;
      }
      vertices.Remove(id);
      return true;
    }

    method RemoveEdge(id: EdgeId) returns (ok: bool)
      requires Valid()
      modifies edges, edges.store
      ensures Valid()
      ensures ok == old(ContainsEdge(id))
      ensures ok ==> IsEdgesDirty() && edges.store.Erased(id)
      ensures !ok ==> unchanged(edges, edges.store)
      ensures State() == old(State()).(es := old(EdgeMap()) - {id})
    {
      if !edges.store.Contains(id) {
        return false;
      }
      ghost var before := EdgeMap();
      edges.Remove(id);
      WellFormedRemove(before, id);
      return true;
    }

    method RemoveFace(id: FaceId) returns (ok: bool)
      requires Valid()
      modifies faces, faces.store
      ensures Valid()
      ensures ok == old(ContainsFace(id))
      ensures ok ==> IsFacesDirty() && faces.store.Erased(id)
      ensures !ok ==> unchanged(faces, faces.store)
      ensures State() == old(State()).(fs := old(FaceMap()) - {id})
    {
      if !faces.store.Contains(id) {
        return false;
      }
      faces.Remove(id);
      return true;
    }

    method RemoveVolume(id: VolumeId) returns (ok: bool)
      requires Valid()
      modifies volumes, volumes.store
      ensures Valid()
      ensures ok == old(ContainsVolume(id))
      ensures ok ==> IsVolumesDirty() && volumes.store.Erased(id)
      ensures !ok ==> unchanged(volumes, volumes.store)
      ensures State() == old(State()).(vols := old(VolumeMap()) - {id})
    {
      if !volumes.store.Contains(id) {
        return false;
      }
      volumes.Remove(id);
      return true;
    }

    // ---- position updates ----------------------------------------------

    /** Moves one live vertex in place, keeping its id and its dense slot, and marks the vertices dirty. */
    method SetVertexPosition(id: VertexId, position: Position)
      requires Valid() && ContainsVertex(id)
      modifies vertices, vertices.store
      ensures Valid() && IsVerticesDirty()
      ensures vertices.store.Overwritten(id, Vertex(position))
      ensures State() == old(State()).(vs := old(VertexMap())[id := Vertex(position)])
    {
      vertices.dirty := true;
      vertices.Put(id, Vertex(position));
    }

    /**
     * Moves every distinct endpoint of the face's edges by `delta`, in place:
     * no vertex is created or removed and none changes its dense slot.
     */
    method ExtrudeFace(faceId: FaceId, delta: Scalar)
      requires Valid() && ExtrudeLookups(faceId, VertexMap(), EdgeMap(), FaceMap())
      modifies vertices, vertices.store
      ensures Valid() && IsVerticesDirty()
      ensures State() == old(State()).(vs := Displaced(old(VertexMap()), old(FaceEndpoints(FaceMap()[faceId], EdgeMap())), extrude, delta))
      ensures vertices.store.denseToId == old(vertices.store.denseToId)
      ensures vertices.store.sparse == old(vertices.store.sparse)
      ensures vertices.store.freeIds == old(vertices.store.freeIds)
    {
      var face := faces.store.Get(faceId);
      var moved := FaceEndpoints(face, edges.store.Contents());
      vertices.dirty := true;
      DisplaceAll(vertices.store, moved, extrude, delta);
    }
  }
}
