/**
 * The reversible editing commands (src/App/Commands/Commands.h and
 * Commands.cpp).  Each command is a value with its arguments and an optional
 * capture slot: `Execute` fills the slot from what the model did or held, and
 * `Undo` uses the slot to reverse it and then clears it.
 *
 * What one `Execute` or `Undo` does to the model is stated as a relation
 * between two snapshots of the model (`Executed`, `Undone`); the methods are
 * proved against those relations and the round trips are lemmas about them.
 */
module Commands {
  import opened Wrappers
  import opened SparseSets
  import opened Primitives
  import opened Models

  /**
   * The eight command structs of the source's `Command` variant, plus the
   * extrusion command that `Commands.cpp` implements and the input handler
   * pushes through the same stack.
   */
  datatype Command =
    | CreateVertexCommand(position: Position, createdVertex: Option<VertexId>)
    | RemoveVertexCommand(id: VertexId, removedVertex: Option<Vertex>)
    | CreateEdgeCommand(a: VertexId, b: VertexId, createdEdge: Option<EdgeId>)
    | RemoveEdgeCommand(id: EdgeId, removedEdge: Option<Edge>)
    | CreateFaceCommand(edges: seq<EdgeId>, createdFace: Option<FaceId>)
    | RemoveFaceCommand(id: FaceId, removedFace: Option<Face>)
    | CreateVolumeCommand(faces: seq<FaceId>, createdVolume: Option<VolumeId>)
    | RemoveVolumeCommand(id: VolumeId, removedVolume: Option<Volume>)
    | ExtrudeFaceCommand(faceId: FaceId, delta: Scalar, affectedVertices: seq<VertexId>, originalPositions: seq<Position>)

  /** A command as constructed: every capture slot empty. */
  predicate IsFresh(c: Command)
  {
    match c
    case CreateVertexCommand(_, slot) => slot.None?
    case RemoveVertexCommand(_, slot) => slot.None?
    case CreateEdgeCommand(_, _, slot) => slot.None?
    case RemoveEdgeCommand(_, slot) => slot.None?
    case CreateFaceCommand(_, slot) => slot.None?
    case RemoveFaceCommand(_, slot) => slot.None?
    case CreateVolumeCommand(_, slot) => slot.None?
    case RemoveVolumeCommand(_, slot) => slot.None?
    case ExtrudeFaceCommand(_, _, affected, original) => affected == [] && original == []
  }

  /** Whether the command is one of the four creations. */
  predicate IsCreate(c: Command)
  {
    c.CreateVertexCommand? || c.CreateEdgeCommand? || c.CreateFaceCommand? || c.CreateVolumeCommand?
  }

  /** What `Execute` looks up unchecked (the store asserts on an absent id). */
  ghost predicate Executable(c: Command, s: Snapshot)
  {
    match c
    case CreateFaceCommand(ids, _) => FaceLookups(ids, s.vs, s.es)
    case ExtrudeFaceCommand(faceId, _, _, _) => faceId in s.fs ==> ExtrudeLookups(faceId, s.vs, s.es, s.fs)
    case _ => true
  }

  /** What `Undo` looks up unchecked: a face re-creation's loop vertices, and one captured position per affected vertex. */
  ghost predicate Undoable(c: Command, s: Snapshot)
  {
    match c
    case RemoveFaceCommand(_, slot) => slot.Some? ==> FaceLookups(slot.value.edges, s.vs, s.es)
    case ExtrudeFaceCommand(_, _, affected, original) => |affected| <= |original|
    case _ => true
  }

  /** Strictly increasing ids: the iteration order of a `std::set`. */
  predicate Ascending(s: seq<VertexId>)
  {
    forall i, j :: 0 <= i < j < |s| ==> s[i] < s[j]
  }

  /** The extrusion's capture: the moved vertices in ascending order, each with its position before the move. */
  ghost predicate Captured(affected: seq<VertexId>, original: seq<Position>, moved: set<VertexId>, vs: map<VertexId, Vertex>)
  {
    Ascending(affected) && Elements(affected) == moved && |original| == |affected|
    && forall i :: 0 <= i < |affected| ==> affected[i] in vs && original[i] == vs[affected[i]].position
  }

  /** The vertex map after writing `original[i]` back into every still-live `affected[i]`, in order. */
  function Restore(vs: map<VertexId, Vertex>, affected: seq<VertexId>, original: seq<Position>): (r: map<VertexId, Vertex>)
    requires |affected| <= |original|
    ensures r.Keys == vs.Keys
    decreases |affected|
  {
    if affected == [] then vs
    else
      var n := |affected| - 1;
      var before := Restore(vs, affected[..n], original);
      if affected[n] in before then before[affected[n] := Vertex(original[n])] else before
  }

  /** Restoring one more id writes its captured position when it is still live. */
  lemma RestoreSnoc(vs: map<VertexId, Vertex>, affected: seq<VertexId>, original: seq<Position>, i: nat)
    requires i < |affected| <= |original|
    ensures var before := Restore(vs, affected[..i], original);
            Restore(vs, affected[..i + 1], original)
            == if affected[i] in before then before[affected[i] := Vertex(original[i])] else before
  {
    assert affected[..i + 1][..i] == affected[..i];
  }

  /**
   * One `Execute` of `c` took the model from `s` to `s'` and left the command as `c'`.
   * A creation records the new id or, when the model refused, an empty slot; a
   * removal of a live id records the removed value; an extrusion moves the
   * face's endpoints and, on its first effective run only, captures them.
   */
  ghost predicate Executed(m: Model, c: Command, c': Command, s: Snapshot, s': Snapshot)
  {
    match c
    case CreateVertexCommand(p, _) =>
      exists id: VertexId :: id !in s.vs && c' == CreateVertexCommand(p, Some(id)) && s' == s.(vs := s.vs[id := Vertex(p)])
    case RemoveVertexCommand(id, _) =>
      if id in s.vs then c' == RemoveVertexCommand(id, Some(s.vs[id])) && s' == s.(vs := s.vs - {id})
      else c' == c && s' == s
    case CreateEdgeCommand(a, b, _) =>
      if EdgeAllowed(a, b, s.vs, s.es)
      then exists id: EdgeId :: id !in s.es && c' == CreateEdgeCommand(a, b, Some(id)) && s' == s.(es := s.es[id := Edge(a, b)])
      else c' == CreateEdgeCommand(a, b, None) && s' == s
    case RemoveEdgeCommand(id, _) =>
      if id in s.es then c' == RemoveEdgeCommand(id, Some(s.es[id])) && s' == s.(es := s.es - {id})
      else c' == c && s' == s
    case CreateFaceCommand(ids, _) =>
      if FaceLookups(ids, s.vs, s.es) && FaceAllowed(ids, s.vs, s.es, m.coplanar)
      then exists id: FaceId :: id !in s.fs && c' == CreateFaceCommand(ids, Some(id)) && s' == s.(fs := s.fs[id := Face(ids)])
      else c' == CreateFaceCommand(ids, None) && s' == s
    case RemoveFaceCommand(id, _) =>
      if id in s.fs then c' == RemoveFaceCommand(id, Some(s.fs[id])) && s' == s.(fs := s.fs - {id})
      else c' == c && s' == s
    case CreateVolumeCommand(ids, _) =>
      if VolumeAllowed(ids, s.fs)
      then exists id: VolumeId :: id !in s.vols && c' == CreateVolumeCommand(ids, Some(id)) && s' == s.(vols := s.vols[id := Volume(ids)])
      else c' == CreateVolumeCommand(ids, None) && s' == s
    case RemoveVolumeCommand(id, _) =>
      if id in s.vols then c' == RemoveVolumeCommand(id, Some(s.vols[id])) && s' == s.(vols := s.vols - {id})
      else c' == c && s' == s
    case ExtrudeFaceCommand(faceId, delta, affected, original) =>
      if faceId in s.fs && ExtrudeLookups(faceId, s.vs, s.es, s.fs) then
        var moved := FaceEndpoints(s.fs[faceId], s.es);
        s' == s.(vs := Displaced(s.vs, moved, m.extrude, delta))
        && c'.ExtrudeFaceCommand? && c'.faceId == faceId && c'.delta == delta
        && (if affected == [] then Captured(c'.affectedVertices, c'.originalPositions, moved, s.vs) else c' == c)
      else c' == c && s' == s
  }

  /**
   * One `Undo` of `c` took the model from `s` to `s'` and left the command as `c'`.
   * A creation removes its captured id; a removal re-creates its captured value
   * through the model's gate, under whatever id the store hands out; both clear
   * the slot.  An extrusion writes the captured positions back and keeps them.
   */
  ghost predicate Undone(m: Model, c: Command, c': Command, s: Snapshot, s': Snapshot)
  {
    match c
    case CreateVertexCommand(p, slot) =>
      c' == CreateVertexCommand(p, None) && s' == (if slot.Some? then s.(vs := s.vs - {slot.value}) else s)
    case RemoveVertexCommand(id, slot) =>
      c' == RemoveVertexCommand(id, None)
      && if slot.Some? then exists nid: VertexId :: nid !in s.vs && s' == s.(vs := s.vs[nid := slot.value]) else s' == s
    case CreateEdgeCommand(a, b, slot) =>
      c' == CreateEdgeCommand(a, b, None) && s' == (if slot.Some? then s.(es := s.es - {slot.value}) else s)
    case RemoveEdgeCommand(id, slot) =>
      c' == RemoveEdgeCommand(id, None)
      && if slot.Some? && EdgeAllowed(slot.value.a, slot.value.b, s.vs, s.es)
         then exists nid: EdgeId :: nid !in s.es && s' == s.(es := s.es[nid := slot.value])
         else s' == s
    case CreateFaceCommand(ids, slot) =>
      c' == CreateFaceCommand(ids, None) && s' == (if slot.Some? then s.(fs := s.fs - {slot.value}) else s)
    case RemoveFaceCommand(id, slot) =>
      c' == RemoveFaceCommand(id, None)
      && if slot.Some? && FaceLookups(slot.value.edges, s.vs, s.es) && FaceAllowed(slot.value.edges, s.vs, s.es, m.coplanar)
         then exists nid: FaceId :: nid !in s.fs && s' == s.(fs := s.fs[nid := slot.value])
         else s' == s
    case CreateVolumeCommand(ids, slot) =>
      c' == CreateVolumeCommand(ids, None) && s' == (if slot.Some? then s.(vols := s.vols - {slot.value}) else s)
    case RemoveVolumeCommand(id, slot) =>
      c' == RemoveVolumeCommand(id, None)
      && if slot.Some? && VolumeAllowed(slot.value.faces, s.fs)
         then exists nid: VolumeId :: nid !in s.vols && s' == s.(vols := s.vols[nid := slot.value])
         else s' == s
    case ExtrudeFaceCommand(_, _, affected, original) =>
      c' == c && |affected| <= |original| && s' == s.(vs := Restore(s.vs, affected, original))
  }

  // ---- the extrusion's capture ------------------------------------------

  /** `x` is the least element of `s`. */
  predicate IsLeast(x: VertexId, s: set<VertexId>)
  {
    x in s && forall y :: y in s ==> x <= y
  }

  /** Every non-empty set of ids has a least element. */
  lemma {:induction false} SetHasMinimum(s: set<VertexId>)
    requires s != {}
    ensures exists x :: IsLeast(x, s)
    decreases |s|
  {
    var x :| x in s;
    if s == {x} {
      assert IsLeast(x, s);
    } else {
      SetHasMinimum(s - {x});
      var y :| IsLeast(y, s - {x});
      var least := if x < y then x else y;
      forall z | z in s ensures least <= z {
        if z != x {
          assert z in s - {x};
        }
      }
      assert IsLeast(least, s);
    }
  }

  /** The elements of a set in ascending order (iterating a `std::set` into a vector). */
  method SortedElements(s: set<VertexId>) returns (r: seq<VertexId>)
    ensures Ascending(r) && Elements(r) == s
  {
    r := [];
    var rest := s;
    while rest != {}
      invariant rest <= s && Ascending(r) && Elements(r) == s - rest
      invariant forall i, x :: 0 <= i < |r| && x in rest ==> r[i] < x
      decreases rest
    {
      SetHasMinimum(rest);
      var x :| IsLeast(x, rest);
      assert Elements(r + [x]) == Elements(r) + {x};
      r := r + [x];
      rest := rest - {x};
    }
  }

  /** Capturing the position of the next id extends a capture of the first ids by one. */
  lemma CaptureStep(original: seq<Position>, affected: seq<VertexId>, vs: map<VertexId, Vertex>, p: Position)
    requires |original| < |affected| && affected[|original|] in vs && p == vs[affected[|original|]].position
    requires forall k :: 0 <= k < |original| ==> affected[k] in vs && original[k] == vs[affected[k]].position
    ensures forall k :: 0 <= k < |original| + 1 ==> affected[k] in vs && (original + [p])[k] == vs[affected[k]].position
  {
  }

  /** The positions of the given live vertices, in order (the capture loop of `ExtrudeFaceCommand::Execute`). */
  method CapturePositions(m: Model, affected: seq<VertexId>) returns (original: seq<Position>)
    requires m.Valid() && forall i :: 0 <= i < |affected| ==> affected[i] in m.VertexMap()
    ensures |original| == |affected|
    ensures forall i :: 0 <= i < |affected| ==> affected[i] in m.VertexMap() && original[i] == m.VertexMap()[affected[i]].position
  {
    ghost var vs := m.VertexMap();
    original := [];
    for i := 0 to |affected|
      invariant |original| == i
      invariant forall k :: 0 <= k < i ==> original[k] == vs[affected[k]].position
    {
      var p := m.GetVertex(affected[i]).position;
      CaptureStep(original, affected, vs, p);
      original := original + [p];
    }
  }

  // ---- Execute ----------------------------------------------------------

  method ExecuteCreateVertex(m: Model, c: Command) returns (c': Command)
    requires m.Valid() && c.CreateVertexCommand?
    modifies m.vertices, m.vertices.store
    ensures m.Valid() && Executed(m, c, c', old(m.State()), m.State())
  {
    var id := m.CreateVertex(c.position);
    c' := c.(createdVertex := Some(id));
  }

  method ExecuteRemoveVertex(m: Model, c: Command) returns (c': Command)
    requires m.Valid() && c.RemoveVertexCommand?
    modifies m.vertices, m.vertices.store
    ensures m.Valid() && Executed(m, c, c', old(m.State()), m.State())
  {
    c' := c;
    if m.ContainsVertex(c.id) {
      var v := m.GetVertex(c.id);
      c' := c.(removedVertex := Some(v));
      var _ := m.RemoveVertex(c.id);
    }
  }

  method ExecuteCreateEdge(m: Model, c: Command) returns (c': Command)
    requires m.Valid() && c.CreateEdgeCommand?
    modifies m.edges, m.edges.store
    ensures m.Valid() && Executed(m, c, c', old(m.State()), m.State())
  {
    var r := m.CreateEdge(c.a, c.b);
    c' := c.(createdEdge := r);
  }

  method ExecuteRemoveEdge(m: Model, c: Command) returns (c': Command)
    requires m.Valid() && c.RemoveEdgeCommand?
    modifies m.edges, m.edges.store
    ensures m.Valid() && Executed(m, c, c', old(m.State()), m.State())
  {
    c' := c;
    if m.ContainsEdge(c.id) {
      var e := m.GetEdge(c.id);
      c' := c.(removedEdge := Some(e));
      var _ := m.RemoveEdge(c.id);
    }
  }

  method ExecuteCreateFace(m: Model, c: Command) returns (c': Command)
    requires m.Valid() && c.CreateFaceCommand? && Executable(c, m.State())
    modifies m.faces, m.faces.store
    ensures m.Valid() && Executed(m, c, c', old(m.State()), m.State())
  {
    var r := m.CreateFace(c.edges);
    c' := c.(createdFace := r);
  }

  method ExecuteRemoveFace(m: Model, c: Command) returns (c': Command)
    requires m.Valid() && c.RemoveFaceCommand?
    modifies m.faces, m.faces.store
    ensures m.Valid() && Executed(m, c, c', old(m.State()), m.State())
  {
    c' := c;
    if m.ContainsFace(c.id) {
      var f := m.GetFace(c.id);
      c' := c.(removedFace := Some(f));
      var _ := m.RemoveFace(c.id);
    }
  }

  method ExecuteCreateVolume(m: Model, c: Command) returns (c': Command)
    requires m.Valid() && c.CreateVolumeCommand?
    modifies m.volumes, m.volumes.store
    ensures m.Valid() && Executed(m, c, c', old(m.State()), m.State())
  {
    var r := m.CreateVolume(c.faces);
    c' := c.(createdVolume := r);
  }

  method ExecuteRemoveVolume(m: Model, c: Command) returns (c': Command)
    requires m.Valid() && c.RemoveVolumeCommand?
    modifies m.volumes, m.volumes.store
    ensures m.Valid() && Executed(m, c, c', old(m.State()), m.State())
  {
    c' := c;
    if m.ContainsVolume(c.id) {
      var v := m.GetVolume(c.id);
      c' := c.(removedVolume := Some(v));
      var _ := m.RemoveVolume(c.id);
    }
  }

  method ExecuteExtrudeFace(m: Model, c: Command) returns (c': Command)
    requires m.Valid() && c.ExtrudeFaceCommand? && Executable(c, m.State())
    modifies m.vertices, m.vertices.store
    ensures m.Valid() && Executed(m, c, c', old(m.State()), m.State())
  {
    c' := c;
    if !m.ContainsFace(c.faceId) {
      return;
    }
    if c.affectedVertices == [] {
      var face := m.GetFace(c.faceId);
      var unique := FaceEndpoints(face, m.EdgeMap());
      var affected := SortedElements(unique);
      var original := CapturePositions(m, affected);
      c' := c.(affectedVertices := affected, originalPositions := original);
    }
    m.ExtrudeFace(c.faceId, c.delta);
  }

  /** `ExecuteVisitor`: runs the held command's own `Execute` on the model. */
  method Execute(m: Model, c: Command) returns (c': Command)
    requires m.Valid() && Executable(c, m.State())
    modifies m.Repr()
    ensures m.Valid() && Executed(m, c, c', old(m.State()), m.State())
  {
    match c
    case CreateVertexCommand(_, _) => c' := ExecuteCreateVertex(m, c);
    case RemoveVertexCommand(_, _) => c' := ExecuteRemoveVertex(m, c);
    case CreateEdgeCommand(_, _, _) => c' := ExecuteCreateEdge(m, c);
    case RemoveEdgeCommand(_, _) => c' := ExecuteRemoveEdge(m, c);
    case CreateFaceCommand(_, _) => c' := ExecuteCreateFace(m, c);
    case RemoveFaceCommand(_, _) => c' := ExecuteRemoveFace(m, c);
    case CreateVolumeCommand(_, _) => c' := ExecuteCreateVolume(m, c);
    case RemoveVolumeCommand(_, _) => c' := ExecuteRemoveVolume(m, c);
    case ExtrudeFaceCommand(_, _, _, _) => c' := ExecuteExtrudeFace(m, c);
  }

  // ---- Undo -------------------------------------------------------------

  method UndoCreateVertex(m: Model, c: Command) returns (c': Command)
    requires m.Valid() && c.CreateVertexCommand?
    modifies m.vertices, m.vertices.store
    ensures m.Valid() && Undone(m, c, c', old(m.State()), m.State())
  {
    if c.createdVertex.Some? {
      var _ := m.RemoveVertex(c.createdVertex.value);
    }
    c' := c.(createdVertex := None);
  }

  method UndoRemoveVertex(m: Model, c: Command) returns (c': Command)
    requires m.Valid() && c.RemoveVertexCommand?
    modifies m.vertices, m.vertices.store
    ensures m.Valid() && Undone(m, c, c', old(m.State()), m.State())
  {
    if c.removedVertex.Some? {
      var id := m.CreateVertex(c.removedVertex.value.position);
    }
    c' := c.(removedVertex := None);
  }

  method UndoCreateEdge(m: Model, c: Command) returns (c': Command)
    requires m.Valid() && c.CreateEdgeCommand?
    modifies m.edges, m.edges.store
    ensures m.Valid() && Undone(m, c, c', old(m.State()), m.State())
  {
    if c.createdEdge.Some? {
      var _ := m.RemoveEdge(c.createdEdge.value);
    }
    c' := c.(createdEdge := None);
  }

  method UndoRemoveEdge(m: Model, c: Command) returns (c': Command)
    requires m.Valid() && c.RemoveEdgeCommand?
    modifies m.edges, m.edges.store
    ensures m.Valid() && Undone(m, c, c', old(m.State()), m.State())
  {
    if c.removedEdge.Some? {
      var e := c.removedEdge.value;
      var r := m.CreateEdge(e.a, e.b);
    }
    c' := c.(removedEdge := None);
  }

  method UndoCreateFace(m: Model, c: Command) returns (c': Command)
    requires m.Valid() && c.CreateFaceCommand?
    modifies m.faces, m.faces.store
    ensures m.Valid() && Undone(m, c, c', old(m.State()), m.State())
  {
    if c.createdFace.Some? {
      var _ := m.RemoveFace(c.createdFace.value);
    }
    c' := c.(createdFace := None);
  }

  method UndoRemoveFace(m: Model, c: Command) returns (c': Command)
    requires m.Valid() && c.RemoveFaceCommand? && Undoable(c, m.State())
    modifies m.faces, m.faces.store
    ensures m.Valid() && Undone(m, c, c', old(m.State()), m.State())
  {
    if c.removedFace.Some? {
      var f := c.removedFace.value;
      var r := m.CreateFace(f.edges);
    }
    c' := c.(removedFace := None);
  }

  method UndoCreateVolume(m: Model, c: Command) returns (c': Command)
    requires m.Valid() && c.CreateVolumeCommand?
    modifies m.volumes, m.volumes.store
    ensures m.Valid() && Undone(m, c, c', old(m.State()), m.State())
  {
    if c.createdVolume.Some? {
      var _ := m.RemoveVolume(c.createdVolume.value);
    }
    c' := c.(createdVolume := None);
  }

  method UndoRemoveVolume(m: Model, c: Command) returns (c': Command)
    requires m.Valid() && c.RemoveVolumeCommand?
    modifies m.volumes, m.volumes.store
    ensures m.Valid() && Undone(m, c, c', old(m.State()), m.State())
  {
    if c.removedVolume.Some? {
      var v := c.removedVolume.value;
      var r := m.CreateVolume(v.faces);
    }
    c' := c.(removedVolume := None);
  }

  /** Writes each captured position back over its vertex, skipping the ids that are no longer live. */
  method RestorePositions(m: Model, affected: seq<VertexId>, original: seq<Position>)
    requires m.Valid() && |affected| <= |original|
    modifies m.vertices, m.vertices.store
    ensures m.Valid() && m.State() == old(m.State()).(vs := Restore(old(m.VertexMap()), affected, original))
  {
    for i := 0 to |affected|
      invariant m.Valid()
      invariant m.VertexMap() == Restore(old(m.VertexMap()), affected[..i], original)
    {
      RestoreSnoc(old(m.VertexMap()), affected, original, i);
      if m.ContainsVertex(affected[i]) {
        ghost var before := m.VertexMap();
        m.SetVertexPosition(affected[i], original[i]);
        assert m.VertexMap() == before[affected[i] := Vertex(original[i])];
      }
    }
    assert affected[..|affected|] == affected;
  }

  method UndoExtrudeFace(m: Model, c: Command) returns (c': Command)
    requires m.Valid() && c.ExtrudeFaceCommand? && Undoable(c, m.State())
    modifies m.vertices, m.vertices.store
    ensures m.Valid() && Undone(m, c, c', old(m.State()), m.State())
  {
    RestorePositions(m, c.affectedVertices, c.originalPositions);
    c' := c;
  }

  /** `UndoVisitor`: runs the held command's own `Undo` on the model. */
  method Undo(m: Model, c: Command) returns (c': Command)
    requires m.Valid() && Undoable(c, m.State())
    modifies m.Repr()
    ensures m.Valid() && Undone(m, c, c', old(m.State()), m.State())
  {
    match c
    case CreateVertexCommand(_, _) => c' := UndoCreateVertex(m, c);
    case RemoveVertexCommand(_, _) => c' := UndoRemoveVertex(m, c);
    case CreateEdgeCommand(_, _, _) => c' := UndoCreateEdge(m, c);
    case RemoveEdgeCommand(_, _) => c' := UndoRemoveEdge(m, c);
    case CreateFaceCommand(_, _) => c' := UndoCreateFace(m, c);
    case RemoveFaceCommand(_, _) => c' := UndoRemoveFace(m, c);
    case CreateVolumeCommand(_, _) => c' := UndoCreateVolume(m, c);
    case RemoveVolumeCommand(_, _) => c' := UndoRemoveVolume(m, c);
    case ExtrudeFaceCommand(_, _, _, _) => c' := UndoExtrudeFace(m, c);
  }

  // ---- round trips --------------------------------------------------------

  /** Writing back distinct ids sets each live one to its own captured position and leaves every other vertex alone. */
  lemma {:induction false} RestoreValues(vs: map<VertexId, Vertex>, affected: seq<VertexId>, original: seq<Position>)
    requires |affected| <= |original| && Ascending(affected)
    ensures forall k :: 0 <= k < |affected| && affected[k] in vs ==> Restore(vs, affected, original)[affected[k]] == Vertex(original[k])
    ensures forall v :: v in vs && v !in affected ==> Restore(vs, affected, original)[v] == vs[v]
    decreases |affected|
  {
    if affected != [] {
      var n := |affected| - 1;
      var init := affected[..n];
      RestoreValues(vs, init, original);
      forall k | 0 <= k < |affected| && affected[k] in vs
        ensures Restore(vs, affected, original)[affected[k]] == Vertex(original[k])
      {
        if k < n {
          assert init[k] == affected[k] && affected[k] != affected[n];
        }
      }
    }
  }

  /** Writing the captured positions back over an extrusion gives back the vertex map it started from. */
  lemma UndoExtrudeRestores(vs: map<VertexId, Vertex>, moved: set<VertexId>, extrude: (Position, Scalar) -> Position,
                            delta: Scalar, affected: seq<VertexId>, original: seq<Position>)
    requires Captured(affected, original, moved, vs)
    ensures Restore(Displaced(vs, moved, extrude, delta), affected, original) == vs
  {
    var displaced := Displaced(vs, moved, extrude, delta);
    var r := Restore(displaced, affected, original);
    RestoreValues(displaced, affected, original);
    forall v | v in vs ensures r[v] == vs[v] {
      if v in moved {
        assert v in Elements(affected);
        var k :| 0 <= k < |affected| && affected[k] == v;
        assert r[affected[k]] == Vertex(original[k]);
      } else {
        assert v !in affected;
      }
    }
  }

  /** Removing a key that an insertion just added gives back the map before the insertion. */
  lemma RemoveInserted<K, V>(m: map<K, V>, k: K, v: V)
    requires k !in m
    ensures m[k := v] - {k} == m
  {
  }

  /** Undoing a creation right after it ran gives back the model it started from and a fresh command. */
  lemma CreateThenUndo(m: Model, c: Command, c1: Command, c2: Command, s0: Snapshot, s1: Snapshot, s2: Snapshot)
    requires IsCreate(c) && Executed(m, c, c1, s0, s1) && Undone(m, c1, c2, s1, s2)
    ensures s2 == s0 && IsFresh(c2)
  {
    if c.CreateVertexCommand? {
      var id: VertexId :| id !in s0.vs && c1 == CreateVertexCommand(c.position, Some(id)) && s1 == s0.(vs := s0.vs[id := Vertex(c.position)]);
      RemoveInserted(s0.vs, id, Vertex(c.position));
    } else if c.CreateEdgeCommand? {
      if c1.createdEdge.Some? {
        RemoveInserted(s0.es, c1.createdEdge.value, Edge(c.a, c.b));
      }
    } else if c.CreateFaceCommand? {
      if c1.createdFace.Some? {
        RemoveInserted(s0.fs, c1.createdFace.value, Face(c.edges));
      }
    } else {
      if c1.createdVolume.Some? {
        RemoveInserted(s0.vols, c1.createdVolume.value, Volume(c.faces));
      }
    }
  }

  /** Undoing a vertex removal right after it ran brings the same vertex value back, possibly under another id. */
  lemma RemoveVertexThenUndo(m: Model, c: Command, c1: Command, c2: Command, s0: Snapshot, s1: Snapshot, s2: Snapshot)
    requires c.RemoveVertexCommand? && c.id in s0.vs
    requires Executed(m, c, c1, s0, s1) && Undone(m, c1, c2, s1, s2)
    ensures s2.es == s0.es && s2.fs == s0.fs && s2.vols == s0.vols
    ensures |s2.vs| == |s0.vs| && s2.vs.Values == s0.vs.Values
    ensures IsFresh(c2)
  {
    var rest := s0.vs - {c.id};
    var nid :| nid !in rest && s2 == s1.(vs := rest[nid := s0.vs[c.id]]);
    ReinsertKeepsValues(s0.vs, c.id, nid);
  }

  /** Taking one entry out and putting its value back under a key not otherwise used keeps the size and the values. */
  lemma ReinsertKeepsValues<K, V>(m: map<K, V>, k: K, nid: K)
    requires k in m && nid !in m - {k}
    ensures |(m - {k})[nid := m[k]]| == |m|
    ensures ((m - {k})[nid := m[k]]).Values == m.Values
  {
    var rest := m - {k};
    var r := rest[nid := m[k]];
    assert |rest| == |m| - 1;
    forall x ensures x in r.Values <==> x in m.Values {
      if x in m.Values {
        var j :| j in m && m[j] == x;
        if j != k {
          assert j in rest && j != nid && r[j] == x;
        } else {
          assert r[nid] == x;
        }
      }
      if x in r.Values {
        var j :| j in r && r[j] == x;
        if j != nid {
          assert j in rest && m[j] == x;
        } else {
          assert m[k] == x;
        }
      }
    }
  }

  /** Undoing an edge removal right after it ran brings the edge back whenever both its endpoints are still live. */
  lemma RemoveEdgeThenUndo(m: Model, c: Command, c1: Command, c2: Command, s0: Snapshot, s1: Snapshot, s2: Snapshot)
    requires c.RemoveEdgeCommand? && c.id in s0.es && EdgesWellFormed(s0.es)
    requires s0.es[c.id].a in s0.vs && s0.es[c.id].b in s0.vs
    requires Executed(m, c, c1, s0, s1) && Undone(m, c1, c2, s1, s2)
    ensures exists nid: EdgeId :: nid !in s0.es - {c.id} && s2 == s0.(es := (s0.es - {c.id})[nid := s0.es[c.id]])
    ensures IsFresh(c2)
  {
    var e := s0.es[c.id];
    forall k | k in s1.es ensures !EdgeEquals(s1.es[k], Edge(e.a, e.b)) {
      assert k != c.id && !EdgeEquals(s0.es[k], s0.es[c.id]);
    }
    assert EdgeAllowed(e.a, e.b, s1.vs, s1.es);
  }

  /** A second `Undo` of a creation or removal changes nothing: the first one cleared the slot. */
  lemma UndoTwiceIsNoop(m: Model, c: Command, c1: Command, c2: Command, s0: Snapshot, s1: Snapshot, s2: Snapshot)
    requires !c.ExtrudeFaceCommand?
    requires Undone(m, c, c1, s0, s1) && Undone(m, c1, c2, s1, s2)
    ensures c2 == c1 && s2 == s1
  {
  }

  /** A second write-back of distinct captured positions changes nothing. */
  lemma {:induction false} RestoreIdempotent(vs: map<VertexId, Vertex>, affected: seq<VertexId>, original: seq<Position>)
    requires |affected| <= |original| && Ascending(affected)
    ensures Restore(Restore(vs, affected, original), affected, original) == Restore(vs, affected, original)
  {
    var once := Restore(vs, affected, original);
    var twice := Restore(once, affected, original);
    RestoreValues(vs, affected, original);
    RestoreValues(once, affected, original);
    forall v | v in once ensures twice[v] == once[v] {
      if v in affected {
        var k :| 0 <= k < |affected| && affected[k] == v;
        assert twice[affected[k]] == Vertex(original[k]);
      }
    }
  }

  /** Undoing a first extrusion right after it ran gives back the model it started from. */
  lemma ExtrudeThenUndo(m: Model, c: Command, c1: Command, c2: Command, s0: Snapshot, s1: Snapshot, s2: Snapshot)
    requires c.ExtrudeFaceCommand? && IsFresh(c)
    requires Executed(m, c, c1, s0, s1) && Undone(m, c1, c2, s1, s2)
    ensures s2 == s0 && c2 == c1
  {
    if c.faceId in s0.fs && ExtrudeLookups(c.faceId, s0.vs, s0.es, s0.fs) {
      var moved := FaceEndpoints(s0.fs[c.faceId], s0.es);
      UndoExtrudeRestores(s0.vs, moved, m.extrude, c.delta, c1.affectedVertices, c1.originalPositions);
    }
  }

  /**
   * An `Undo` leaves its command runnable again: a face creation's lookups see
   * the same vertices and edges, and an extrusion's write-back keeps every
   * vertex live.  This is what lets `Redo` follow `Undo`.
   */
  lemma UndoKeepsExecutable(m: Model, c: Command, c': Command, s: Snapshot, s': Snapshot)
    requires Executable(c, s) && Undone(m, c, c', s, s')
    ensures Executable(c', s')
  {
    if c.ExtrudeFaceCommand? && c.faceId in s'.fs {
      assert s'.vs.Keys == s.vs.Keys;
    }
  }
}
