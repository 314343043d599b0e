/**
 * Vertex extraction (src/Topology/Tools.h): walking a face's edge list into an
 * ordered vertex loop, and collecting the distinct vertices of a volume.  The
 * edge and face containers are given as maps from id to value; looking up an
 * absent id is an assertion failure in the source and a precondition here.
 */
module Tools {
  import opened Wrappers
  import opened SparseSets
  import opened Primitives

  /** Every edge id of the face has a value in `edges`. */
  predicate EdgesKnown(face: Face, edges: map<EdgeId, Edge>)
  {
    forall i :: 0 <= i < |face.edges| ==> face.edges[i] in edges
  }

  /** The edge ids a walk may look up: with at least 3 edges, every one up to the first that does not chain, so all are required; with fewer, none. */
  predicate WalkLookups(face: Face, edges: map<EdgeId, Edge>)
  {
    |face.edges| >= 3 ==> EdgesKnown(face, edges)
  }

  /** The face's edges as values, in face order. */
  function EdgesOf(face: Face, edges: map<EdgeId, Edge>): (es: seq<Edge>)
    requires EdgesKnown(face, edges)
    ensures |es| == |face.edges|
    ensures forall i :: 0 <= i < |es| ==> es[i] == edges[face.edges[i]]
  {
    seq(|face.edges|, i requires 0 <= i < |face.edges| => edges[face.edges[i]])
  }

  /** One chaining step: the endpoint of `e` other than `last`, if `e` touches `last` (`a` is tried first). */
  function Next(last: VertexId, e: Edge): (r: Option<VertexId>)
    ensures r.Some? <==> (e.a == last || e.b == last)
    ensures r.Some? ==> EdgeEquals(Edge(last, r.value), e)
  {
    if e.a == last then Some(e.b) else if e.b == last then Some(e.a) else None
  }

  /**
   * `w` is the vertex chain of `first` followed by `rest`: it starts with
   * first.a, first.b, and each later edge leads from the chain's current end to
   * the next entry.
   */
  ghost predicate IsWalk(first: Edge, rest: seq<Edge>, w: seq<VertexId>)
  {
    |w| == |rest| + 2 && w[0] == first.a && w[1] == first.b
    && forall i :: 0 <= i < |rest| ==> Next(w[i + 1], rest[i]) == Some(w[i + 2])
  }

  /** The chain the source's loop builds, or None when some edge does not touch the chain's end. */
  function Chain(first: Edge, rest: seq<Edge>): (r: Option<seq<VertexId>>)
    ensures r.Some? ==> IsWalk(first, rest, r.value)
    decreases |rest|
  {
    if rest == [] then Some([first.a, first.b])
    else
      match Chain(first, rest[..|rest| - 1])
      case None => None
      case Some(w) =>
        match Next(w[|w| - 1], rest[|rest| - 1])
        case None => None
        case Some(v) => Some(w + [v])
  }

  /** Every walk is the chain: the chain exists exactly when some walk does, and is then that walk. */
  lemma {:induction false} WalkIsChain(first: Edge, rest: seq<Edge>, w: seq<VertexId>)
    requires IsWalk(first, rest, w)
    ensures Chain(first, rest) == Some(w)
    decreases |rest|
  {
    if rest == [] {
      assert w == [first.a, first.b];
    } else {
      var n := |rest|;
      var w', init := w[..n + 1], rest[..n - 1];
      assert forall i :: 0 <= i < n - 1 ==> init[i] == rest[i];
      assert forall i :: 0 <= i < n + 1 ==> w'[i] == w[i];
      assert IsWalk(first, init, w');
      WalkIsChain(first, init, w');
      assert Next(w'[|w'| - 1], rest[n - 1]) == Some(w[n + 1]);
      assert rest[..|rest| - 1] == init;
      assert Chain(first, rest) == Some(w' + [w[n + 1]]);
      assert w == w' + [w[n + 1]];
    }
  }

  /** Once a prefix of the edges fails to chain, the whole list fails. */
  lemma {:induction false} ChainBreakPersists(first: Edge, rest: seq<Edge>, k: nat)
    requires k <= |rest| && Chain(first, rest[..k]).None?
    ensures Chain(first, rest).None?
    decreases |rest| - k
  {
    if k < |rest| {
      assert rest[..k + 1][..k] == rest[..k];
      ChainBreakPersists(first, rest, k + 1);
    } else {
      assert rest[..k] == rest;
    }
  }

  /** Extending the edge list by one edge extends the chain by that edge's far end, or breaks it. */
  lemma ChainExtend(first: Edge, rest: seq<Edge>, k: nat, w: seq<VertexId>)
    requires k < |rest| && Chain(first, rest[..k]) == Some(w)
    ensures Chain(first, rest[..k + 1]) ==
      match Next(w[|w| - 1], rest[k])
      case None => None
      case Some(v) => Some(w + [v])
  {
    assert rest[..k + 1][..k] == rest[..k];
  }

  /**
   * The ordered vertex loop of a face: empty for fewer than 3 edges or when the
   * edges are not listed in walk order; otherwise the chain, with the closing
   * duplicate of the first vertex dropped.
   */
  function FaceLoop(face: Face, edges: map<EdgeId, Edge>): (vs: seq<VertexId>)
    requires WalkLookups(face, edges)
    ensures |face.edges| < 3 ==> vs == []
    ensures vs != [] ==> 3 <= |face.edges| <= |vs| <= |face.edges| + 1
    ensures vs != [] ==> vs[0] == edges[face.edges[0]].a && vs[1] == edges[face.edges[0]].b
    ensures vs != [] ==>
      forall i :: 0 <= i < |vs| - 1 ==> EdgeEquals(Edge(vs[i], vs[i + 1]), edges[face.edges[i]])
    ensures vs != [] ==>
      var n := |face.edges|;
      (|vs| == n && EdgeEquals(Edge(vs[n - 1], vs[0]), edges[face.edges[n - 1]]))
      || (|vs| == n + 1 && vs[0] != vs[n])
  {
    if |face.edges| < 3 then []
    else
      var es := EdgesOf(face, edges);
      match Chain(es[0], es[1..])
      case None => []
      case Some(w) =>
        assert forall i :: 0 <= i < |w| - 1 ==> EdgeEquals(Edge(w[i], w[i + 1]), es[i]) by {
          forall i | 0 <= i < |w| - 1 ensures EdgeEquals(Edge(w[i], w[i + 1]), es[i]) {
            if i > 0 {
              assert Next(w[i], es[1..][i - 1]) == Some(w[i + 1]);
            }
          }
        }
        if w[0] == w[|w| - 1] then w[..|w| - 1] else w
  }

  /** The face loop of a face of at least 3 edges, in terms of the chain of its edges. */
  lemma FaceLoopOfChain(face: Face, edges: map<EdgeId, Edge>)
    requires |face.edges| >= 3 && EdgesKnown(face, edges)
    ensures var es := EdgesOf(face, edges);
            FaceLoop(face, edges) ==
              match Chain(es[0], es[1..])
              case None => []
              case Some(w) => if w[0] == w[|w| - 1] then w[..|w| - 1] else w
  {
  }

  /** The face loop is empty for a face of at least 3 edges exactly when no walk through its edges exists. */
  lemma FaceLoopEmptyIffNoWalk(face: Face, edges: map<EdgeId, Edge>)
    requires |face.edges| >= 3 && EdgesKnown(face, edges)
    ensures var es := EdgesOf(face, edges);
            FaceLoop(face, edges) == [] <==> forall w :: !IsWalk(es[0], es[1..], w)
  {
    var es := EdgesOf(face, edges);
    if FaceLoop(face, edges) == [] {
      forall w | IsWalk(es[0], es[1..], w) ensures false {
        WalkIsChain(es[0], es[1..], w);
      }
    }
  }

  /** `ExtractVertices(Face, edges)`: the loop walk of the source, one edge at a time. */
  method ExtractVertices(face: Face, edges: map<EdgeId, Edge>) returns (result: seq<VertexId>)
    requires WalkLookups(face, edges)
    ensures result == FaceLoop(face, edges)
  {
    result := [];
    if |face.edges| < 3 {
      return;
    }
    ghost var es := EdgesOf(face, edges);
    ghost var rest := es[1..];
    var first := edges[face.edges[0]];
    result := result + [first.a];
    result := result + [first.b];
    assert rest[..0] == [] && result == [first.a, first.b];
    for i := 1 to |face.edges|
      invariant Chain(first, rest[..i - 1]) == Some(result)
    {
      var e := edges[face.edges[i]];
      var last := result[|result| - 1];
      ChainExtend(first, rest, i - 1, result);
      if e.a == last {
        result := result + [e.b];
      } else if e.b == last {
        result := result + [e.a];
      } else {
        ChainBreakPersists(first, rest, i);
        return [];
      }
    }
    assert rest[..|face.edges| - 1] == rest;
    FaceLoopOfChain(face, edges);
    if result[0] == result[|result| - 1] {
      result := result[..|result| - 1];
    }
  }

  /** Every face of the volume is known, and so is every edge its walk looks up. */
  predicate VolumeLookups(fids: seq<FaceId>, faces: map<FaceId, Face>, edges: map<EdgeId, Edge>)
  {
    forall k :: 0 <= k < |fids| ==> fids[k] in faces && WalkLookups(faces[fids[k]], edges)
  }

  /** The union of the face loops of the given faces. */
  ghost function LoopUnion(fids: seq<FaceId>, faces: map<FaceId, Face>, edges: map<EdgeId, Edge>): set<VertexId>
    requires VolumeLookups(fids, faces, edges)
    decreases |fids|
  {
    if fids == [] then {}
    else
      var init := fids[..|fids| - 1];
      assert VolumeLookups(init, faces, edges) by {
        assert forall k :: 0 <= k < |init| ==> init[k] == fids[k];
      }
      LoopUnion(init, faces, edges) + Elements(FaceLoop(faces[fids[|fids| - 1]], edges))
  }

  /** The loop of the last face is part of the union. */
  lemma LoopUnionLast(fids: seq<FaceId>, faces: map<FaceId, Face>, edges: map<EdgeId, Edge>, v: VertexId)
    requires VolumeLookups(fids, faces, edges)
    requires fids != [] && v in FaceLoop(faces[fids[|fids| - 1]], edges)
    ensures v in LoopUnion(fids, faces, edges)
  {
    assert v in Elements(FaceLoop(faces[fids[|fids| - 1]], edges));
  }

  /** The union over all faces but the last is part of the union. */
  lemma LoopUnionInit(fids: seq<FaceId>, faces: map<FaceId, Face>, edges: map<EdgeId, Edge>, v: VertexId)
    requires VolumeLookups(fids, faces, edges) && fids != []
    requires VolumeLookups(fids[..|fids| - 1], faces, edges)
    requires v in LoopUnion(fids[..|fids| - 1], faces, edges)
    ensures v in LoopUnion(fids, faces, edges)
  {
  }

  /** Every vertex on the loop of a listed face is in the union. */
  lemma {:induction false} LoopUnionHas(fids: seq<FaceId>, faces: map<FaceId, Face>, edges: map<EdgeId, Edge>, k: nat, v: VertexId)
    requires VolumeLookups(fids, faces, edges)
    requires k < |fids| && v in FaceLoop(faces[fids[k]], edges)
    ensures v in LoopUnion(fids, faces, edges)
    decreases |fids|
  {
    var last := |fids| - 1;
    if k < last {
      var init := fids[..last];
      assert VolumeLookups(init, faces, edges) by {
        assert forall j :: 0 <= j < |init| ==> init[j] == fids[j];
      }
      assert init[k] == fids[k];
      LoopUnionHas(init, faces, edges, k, v);
      LoopUnionInit(fids, faces, edges, v);
    } else {
      LoopUnionLast(fids, faces, edges, v);
    }
  }

  /** Every vertex of the union lies on the loop of some listed face. */
  lemma {:induction false} LoopUnionOnly(fids: seq<FaceId>, faces: map<FaceId, Face>, edges: map<EdgeId, Edge>, v: VertexId)
    returns (k: nat)
    requires VolumeLookups(fids, faces, edges)
    requires v in LoopUnion(fids, faces, edges)
    ensures k < |fids| && v in FaceLoop(faces[fids[k]], edges)
    decreases |fids|
  {
    var last := |fids| - 1;
    var init := fids[..last];
    assert VolumeLookups(init, faces, edges) by {
      assert forall j :: 0 <= j < |init| ==> init[j] == fids[j];
    }
    if v in LoopUnion(init, faces, edges) {
      k := LoopUnionOnly(init, faces, edges, v);
      assert init[k] == fids[k];
    } else {
      k := last;
    }
  }

  /** A vertex is in the union exactly when it lies on the loop of one of the faces. */
  lemma LoopUnionMembers(fids: seq<FaceId>, faces: map<FaceId, Face>, edges: map<EdgeId, Edge>, v: VertexId)
    requires VolumeLookups(fids, faces, edges)
    ensures v in LoopUnion(fids, faces, edges) <==> exists k :: 0 <= k < |fids| && v in FaceLoop(faces[fids[k]], edges)
  {
    if v in LoopUnion(fids, faces, edges) {
      var k := LoopUnionOnly(fids, faces, edges, v);
    }
    if exists k :: 0 <= k < |fids| && v in FaceLoop(faces[fids[k]], edges) {
      var k :| 0 <= k < |fids| && v in FaceLoop(faces[fids[k]], edges);
      LoopUnionHas(fids, faces, edges, k, v);
    }
  }

  /** `ExtractVertices(Volume, faces, edges)`: each vertex of the volume's face loops, once, in no particular order. */
  method ExtractVolumeVertices(volume: Volume, faces: map<FaceId, Face>, edges: map<EdgeId, Edge>)
    returns (result: seq<VertexId>)
    requires VolumeLookups(volume.faces, faces, edges)
    ensures forall i, j :: 0 <= i < j < |result| ==> result[i] != result[j]
    ensures forall v :: v in result <==> v in LoopUnion(volume.faces, faces, edges)
  {
    var unique: set<VertexId> := {};
    for k := 0 to |volume.faces|
      invariant unique == LoopUnion(volume.faces[..k], faces, edges)
    {
      var face := faces[volume.faces[k]];
      var verts := ExtractVertices(face, edges);
      assert volume.faces[..k + 1][..k] == volume.faces[..k];
      unique := unique + Elements(verts);
    }
    assert volume.faces[..|volume.faces|] == volume.faces;
    result := Enumerate(unique);
  }

  /** Appending an element not yet present keeps the entries pairwise distinct. */
  lemma AppendDistinct(s: seq<VertexId>, v: VertexId)
    requires v !in s && forall i, j :: 0 <= i < j < |s| ==> s[i] != s[j]
    ensures forall i, j :: 0 <= i < j < |s + [v]| ==> (s + [v])[i] != (s + [v])[j]
  {
    forall i, j | 0 <= i < j < |s + [v]| ensures (s + [v])[i] != (s + [v])[j] {
      if j == |s| {
        assert (s + [v])[i] == s[i];
      }
    }
  }

  /** The elements of a set, each once, in an unspecified order (`std::vector(set.begin(), set.end())`). */
  method Enumerate(s: set<VertexId>) returns (result: seq<VertexId>)
    ensures forall i, j :: 0 <= i < j < |result| ==> result[i] != result[j]
    ensures forall v :: v in result <==> v in s
  {
    result := [];
    var rest := s;
    while rest != {}
      invariant rest <= s
      invariant forall v :: v in result <==> v in s - rest
      invariant forall i, j :: 0 <= i < j < |result| ==> result[i] != result[j]
      decreases rest
    {
      var v :| v in rest;
      AppendDistinct(result, v);
      result := result + [v];
      rest := rest - {v};
    }
  }
}
