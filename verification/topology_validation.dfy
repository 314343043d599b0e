/**
 * Topology validation (src/Topology/Validation.h): a face is valid when its
 * edges close into a single loop, and a volume when every edge of its faces is
 * shared by exactly two of them.
 */
module Validation {
  import opened SparseSets
  import opened Primitives
  import opened Tools

  /** The endpoints of the edges, counted with multiplicity: the degree of each vertex. */
  function Endpoints(es: seq<Edge>): (m: multiset<VertexId>)
    ensures |m| == 2 * |es|
  {
    if es == [] then multiset{}
    else Endpoints(es[..|es| - 1]) + multiset{es[|es| - 1].a, es[|es| - 1].b}
  }

  /** Every element of `m` occurs exactly twice. */
  ghost predicate AllTwice(m: multiset<Id>)
  {
    forall x :: x in m ==> m[x] == 2
  }

  /** `IsValidFace`: at least 3 edges, every vertex of degree 2, and a vertex loop of at least 3. */
  ghost predicate FaceValid(face: Face, edges: map<EdgeId, Edge>)
    requires WalkLookups(face, edges)
  {
    |face.edges| >= 3 && AllTwice(Endpoints(EdgesOf(face, edges))) && |FaceLoop(face, edges)| >= 3
  }

  /** `usage` is the source's counting map for the multiset `m`: the same keys, each with its count. */
  ghost predicate Tallies(usage: map<Id, int>, m: multiset<Id>)
  {
    forall x :: (x in usage <==> x in m) && (x in usage ==> usage[x] == m[x])
  }

  /** `usage[x]++` on a map whose absent entries read as 0. */
  function Bump(usage: map<Id, int>, x: Id): map<Id, int>
  {
    usage[x := (if x in usage then usage[x] else 0) + 1]
  }

  /** Bumping a key's count tallies one more occurrence of it. */
  lemma BumpTallies(usage: map<Id, int>, m: multiset<Id>, x: Id)
    requires Tallies(usage, m)
    ensures Tallies(Bump(usage, x), m + multiset{x})
  {
  }

  /** The scan over a counting map: true exactly when every count is 2. */
  method EveryCountIsTwo(usage: map<Id, int>) returns (ok: bool)
    ensures ok <==> forall x :: x in usage ==> usage[x] == 2
  {
    var keys := usage.Keys;
    while keys != {}
      invariant keys <= usage.Keys
      invariant forall x :: x in usage && x !in keys ==> usage[x] == 2
      decreases keys
    {
      var x :| x in keys;
      if usage[x] != 2 {
        return false;
      }
      keys := keys - {x};
    }
    return true;
  }

  /** Counting the endpoints of one more edge adds its two ends. */
  lemma EndpointsSnoc(es: seq<Edge>, e: Edge)
    ensures Endpoints(es + [e]) == Endpoints(es) + multiset{e.a, e.b}
  {
    assert (es + [e])[..|es|] == es;
  }

  /** A counting map that tallies `m` has every count equal to 2 exactly when every element of `m` occurs twice. */
  lemma TalliesAllTwice(usage: map<Id, int>, m: multiset<Id>)
    requires Tallies(usage, m)
    ensures (forall x :: x in usage ==> usage[x] == 2) <==> AllTwice(m)
  {
  }

  /** Counting both ends of edge i extends a tally of the ends of the first i edges to the first i + 1. */
  lemma TallyEdge(degree: map<VertexId, int>, es: seq<Edge>, i: nat)
    requires i < |es| && Tallies(degree, Endpoints(es[..i]))
    ensures Tallies(Bump(Bump(degree, es[i].a), es[i].b), Endpoints(es[..i + 1]))
  {
    var e := es[i];
    assert es[..i + 1] == es[..i] + [e];
    EndpointsSnoc(es[..i], e);
    BumpBoth(degree, Endpoints(es[..i]), e.a, e.b);
  }

  /** Bumping two keys in turn tallies one more occurrence of each. */
  lemma BumpBoth(usage: map<Id, int>, m: multiset<Id>, a: Id, b: Id)
    requires Tallies(usage, m)
    ensures Tallies(Bump(Bump(usage, a), b), m + multiset{a, b})
  {
    assert multiset{a, b} == multiset{a} + multiset{b};
    BumpTallies(usage, m, a);
    BumpTallies(Bump(usage, a), m + multiset{a}, b);
    assert m + multiset{a, b} == (m + multiset{a}) + multiset{b};
  }

  /** The degree-counting loop of `IsValidFace`: one count per endpoint of each edge. */
  method CountDegrees(face: Face, edges: map<EdgeId, Edge>) returns (degree: map<VertexId, int>)
    requires EdgesKnown(face, edges)
    ensures Tallies(degree, Endpoints(EdgesOf(face, edges)))
  {
    ghost var es := EdgesOf(face, edges);
    degree := map[];
    for i := 0 to |face.edges|
      invariant Tallies(degree, Endpoints(es[..i]))
    {
      var e := edges[face.edges[i]];
      TallyEdge(degree, es, i);
      degree := Bump(degree, e.a);
      degree := Bump(degree, e.b);
    }
    assert es[..|face.edges|] == es;
  }

  /** `IsValidFace(face, edges)`. */
  method IsValidFace(face: Face, edges: map<EdgeId, Edge>) returns (ok: bool)
    requires WalkLookups(face, edges)
    ensures ok == FaceValid(face, edges)
  {
    if |face.edges| < 3 {
      return false;
    }
    var degree := CountDegrees(face, edges);
    TalliesAllTwice(degree, Endpoints(EdgesOf(face, edges)));
    var allTwo := EveryCountIsTwo(degree);
    if !allTwo {
      return false;
    }
    var verts := ExtractVertices(face, edges);
    return |verts| >= 3;
  }

  /** An edge has the same endpoints, as a multiset, as every edge equal to it. */
  lemma EdgeEndpoints(u: VertexId, v: VertexId, e: Edge)
    requires EdgeEquals(Edge(u, v), e)
    ensures multiset{e.a, e.b} == multiset{u, v}
  {
    EdgeEqualsIsUnorderedPair(Edge(u, v), e);
  }

  /** `w` visits the ends of the edges in order: edge i joins w[i] and w[i + 1]. */
  ghost predicate Walks(es: seq<Edge>, w: seq<VertexId>)
  {
    |w| == |es| + 1 && forall i :: 0 <= i < |es| ==> EdgeEquals(Edge(w[i], w[i + 1]), es[i])
  }

  /** 1 when `u` is `v`, else 0. */
  function Hit(u: VertexId, v: VertexId): nat
  {
    if u == v then 1 else 0
  }

  /**
   * Along a walk each edge contributes its two ends, so every vertex is counted
   * twice per visit except that the walk's two ends lose one count each.
   */
  lemma {:induction false} WalkDegree(es: seq<Edge>, w: seq<VertexId>, v: VertexId)
    requires Walks(es, w)
    ensures Endpoints(es)[v] + Hit(w[0], v) + Hit(w[|es|], v) == 2 * multiset(w)[v]
    decreases |es|
  {
    var n := |es|;
    if n == 0 {
      WalkDegreeBase(es, w, v);
    } else {
      WalkPrefix(es, w);
      WalkDegree(es[..n - 1], w[..n], v);
      WalkDegreeStep(es, w, v);
    }
  }

  /** The base case of WalkDegree: a walk over no edges is a single vertex. */
  lemma WalkDegreeBase(es: seq<Edge>, w: seq<VertexId>, v: VertexId)
    requires Walks(es, w) && |es| == 0
    ensures Endpoints(es)[v] + Hit(w[0], v) + Hit(w[|es|], v) == 2 * multiset(w)[v]
  {
    assert w == [w[0]];
  }

  /** Dropping the last edge of a walk leaves a walk one vertex shorter. */
  lemma WalkPrefix(es: seq<Edge>, w: seq<VertexId>)
    requires Walks(es, w) && |es| > 0
    ensures Walks(es[..|es| - 1], w[..|es|])
  {
    var n := |es|;
    var init, w' := es[..n - 1], w[..n];
    assert forall i :: 0 <= i < n - 1 ==> init[i] == es[i];
    assert forall i :: 0 <= i < n ==> w'[i] == w[i];
  }

  /** The inductive step of WalkDegree: adding the last edge of the walk. */
  lemma WalkDegreeStep(es: seq<Edge>, w: seq<VertexId>, v: VertexId)
    requires Walks(es, w) && |es| > 0
    requires Endpoints(es[..|es| - 1])[v] + Hit(w[0], v) + Hit(w[|es| - 1], v) == 2 * multiset(w[..|es|])[v]
    ensures Endpoints(es)[v] + Hit(w[0], v) + Hit(w[|es|], v) == 2 * multiset(w)[v]
  {
    var n := |es|;
    var last := es[n - 1];
    EdgeEndpoints(w[n - 1], w[n], last);
    assert Endpoints(es) == Endpoints(es[..n - 1]) + multiset{last.a, last.b};
    assert Endpoints(es)[v] == Endpoints(es[..n - 1])[v] + Hit(w[n - 1], v) + Hit(w[n], v);
    assert w == w[..n] + [w[n]];
    assert multiset(w)[v] == multiset(w[..n])[v] + Hit(w[n], v);
  }

  /** An open walk leaves its first vertex with odd degree. */
  lemma OpenWalkOddEnd(es: seq<Edge>, w: seq<VertexId>)
    requires Walks(es, w) && w[0] != w[|es|]
    ensures Endpoints(es)[w[0]] % 2 == 1
  {
    WalkDegree(es, w, w[0]);
  }

  /** A closed walk counts every vertex twice as often as it occurs on the loop. */
  lemma ClosedLoopDegree(es: seq<Edge>, vs: seq<VertexId>, v: VertexId)
    requires |vs| == |es| > 0 && Walks(es, vs + [vs[0]])
    ensures Endpoints(es)[v] == 2 * multiset(vs)[v]
  {
    WalkDegree(es, vs + [vs[0]], v);
  }

  /** Two different positions holding the same value make it occur at least twice. */
  lemma RepeatCountsTwice(s: seq<VertexId>, i: int, j: int)
    requires 0 <= i < j < |s| && s[i] == s[j]
    ensures multiset(s)[s[i]] >= 2
  {
    assert s == s[..j] + [s[j]] + s[j + 1..];
    assert s[i] in multiset(s[..j]);
  }

  /** A valid face's loop is not an open walk: every vertex has even degree, an open walk's ends do not. */
  lemma ValidFaceLoopLength(face: Face, edges: map<EdgeId, Edge>)
    requires WalkLookups(face, edges) && FaceValid(face, edges)
    ensures |FaceLoop(face, edges)| == |face.edges|
  {
    var vs, n := FaceLoop(face, edges), |face.edges|;
    var es := EdgesOf(face, edges);
    if |vs| == n + 1 {
      assert Walks(es, vs);
      OpenWalkOddEnd(es, vs);
      assert false;
    }
  }

  /** A valid face's loop has one vertex per edge and closes: followed by its first vertex it walks every edge. */
  lemma ValidFaceCloses(face: Face, edges: map<EdgeId, Edge>)
    requires WalkLookups(face, edges) && FaceValid(face, edges)
    ensures var vs := FaceLoop(face, edges);
      |vs| == |face.edges| && Walks(EdgesOf(face, edges), vs + [vs[0]])
  {
    var vs, n := FaceLoop(face, edges), |face.edges|;
    var es := EdgesOf(face, edges);
    ValidFaceLoopLength(face, edges);
    var w := vs + [vs[0]];
    forall i | 0 <= i < n ensures EdgeEquals(Edge(w[i], w[i + 1]), es[i]) {
      if i < n - 1 {
        assert w[i] == vs[i] && w[i + 1] == vs[i + 1];
      }
    }
  }

  /**
   * The closed-loop property the degree check buys: a valid face's vertex loop
   * has exactly as many vertices as the face has edges, the last edge closes it
   * back to the first vertex, no vertex repeats, and every vertex touched by an
   * edge is on the loop.
   */
  lemma ValidFaceIsSimpleLoop(face: Face, edges: map<EdgeId, Edge>)
    requires WalkLookups(face, edges) && FaceValid(face, edges)
    ensures var vs, n := FaceLoop(face, edges), |face.edges|;
      && |vs| == n
      && EdgeEquals(Edge(vs[n - 1], vs[0]), edges[face.edges[n - 1]])
      && (forall i, j :: 0 <= i < j < n ==> vs[i] != vs[j])
      && (forall v :: v in Endpoints(EdgesOf(face, edges)) <==> v in vs)
  {
    var vs, n := FaceLoop(face, edges), |face.edges|;
    var es := EdgesOf(face, edges);
    var m := Endpoints(es);
    ValidFaceCloses(face, edges);
    forall i, j | 0 <= i < j < n ensures vs[i] != vs[j] {
      if vs[i] == vs[j] {
        RepeatCountsTwice(vs, i, j);
        ClosedLoopDegree(es, vs, vs[i]);
        assert false;
      }
    }
    forall v ensures v in m <==> v in vs {
      ClosedLoopDegree(es, vs, v);
    }
  }

  /** Every face id listed has a face in `faces`. */
  predicate FacesKnown(fids: seq<FaceId>, faces: map<FaceId, Face>)
  {
    forall k :: 0 <= k < |fids| ==> fids[k] in faces
  }

  /** How often each edge is used by the faces listed, counted with multiplicity. */
  ghost function EdgeUsage(fids: seq<FaceId>, faces: map<FaceId, Face>): multiset<EdgeId>
    requires FacesKnown(fids, faces)
  {
    if fids == [] then multiset{}
    else
      var init := fids[..|fids| - 1];
      assert forall k :: 0 <= k < |init| ==> init[k] == fids[k];
      EdgeUsage(init, faces) + multiset(faces[fids[|fids| - 1]].edges)
  }

  /** `IsValidVolume`: at least 4 faces, and every edge of them used exactly twice. */
  ghost predicate VolumeValid(volume: Volume, faces: map<FaceId, Face>)
    requires FacesKnown(volume.faces, faces)
  {
    |volume.faces| >= 4 && AllTwice(EdgeUsage(volume.faces, faces))
  }

  /** Counting edge j of a face extends a tally over its first j edges to the first j + 1. */
  lemma TallyFaceEdge(usage: map<EdgeId, int>, before: multiset<EdgeId>, edges: seq<EdgeId>, j: nat)
    requires j < |edges| && Tallies(usage, before + multiset(edges[..j]))
    ensures Tallies(Bump(usage, edges[j]), before + multiset(edges[..j + 1]))
  {
    assert edges[..j + 1] == edges[..j] + [edges[j]];
    BumpTallies(usage, before + multiset(edges[..j]), edges[j]);
  }

  /** The usage of the first k + 1 faces adds the edges of face k to that of the first k. */
  lemma EdgeUsageStep(fids: seq<FaceId>, faces: map<FaceId, Face>, k: nat)
    requires FacesKnown(fids, faces) && k < |fids|
    ensures FacesKnown(fids[..k], faces) && FacesKnown(fids[..k + 1], faces)
    ensures EdgeUsage(fids[..k + 1], faces) == EdgeUsage(fids[..k], faces) + multiset(faces[fids[k]].edges)
  {
    assert fids[..k + 1][..k] == fids[..k];
  }

  /** `IsValidVolume(volume, faces)`. */
  method IsValidVolume(volume: Volume, faces: map<FaceId, Face>) returns (ok: bool)
    requires FacesKnown(volume.faces, faces)
    ensures ok == VolumeValid(volume, faces)
  {
    if |volume.faces| < 4 {
      return false;
    }
    var edgeUsage: map<EdgeId, int> := map[];
    for k := 0 to |volume.faces|
      invariant Tallies(edgeUsage, EdgeUsage(volume.faces[..k], faces))
    {
      var face := faces[volume.faces[k]];
      EdgeUsageStep(volume.faces, faces, k);
      ghost var before := EdgeUsage(volume.faces[..k], faces);
      for j := 0 to |face.edges|
        invariant Tallies(edgeUsage, before + multiset(face.edges[..j]))
      {
        TallyFaceEdge(edgeUsage, before, face.edges, j);
        edgeUsage := Bump(edgeUsage, face.edges[j]);
      }
      assert face.edges[..|face.edges|] == face.edges;
    }
    assert volume.faces[..|volume.faces|] == volume.faces;
    ok := EveryCountIsTwo(edgeUsage);
  }

  /** The usage of two lists of faces together is the sum of their usages. */
  lemma {:induction false} EdgeUsageConcat(a: seq<FaceId>, b: seq<FaceId>, faces: map<FaceId, Face>)
    requires FacesKnown(a, faces)
    requires FacesKnown(b, faces)
    ensures FacesKnown(a + b, faces)
    ensures EdgeUsage(a + b, faces) == EdgeUsage(a, faces) + EdgeUsage(b, faces)
    decreases |b|
  {
    assert FacesKnown(a + b, faces) by {
      forall k | 0 <= k < |a + b| ensures (a + b)[k] in faces {
        if k >= |a| {
          assert (a + b)[k] == b[k - |a|];
        }
      }
    }
    if b == [] {
      assert a + b == a;
    } else {
      var n := |b|;
      var binit := b[..n - 1];
      assert forall k :: 0 <= k < |binit| ==> binit[k] == b[k];
      EdgeUsageConcat(a, binit, faces);
      assert (a + b)[..|a + b| - 1] == a + binit;
    }
  }

  /** Volume validity does not depend on the order in which the faces are listed. */
  lemma {:induction false} EdgeUsageIgnoresOrder(a: seq<FaceId>, b: seq<FaceId>, faces: map<FaceId, Face>)
    requires FacesKnown(a, faces)
    requires multiset(a) == multiset(b)
    ensures FacesKnown(b, faces)
    ensures EdgeUsage(a, faces) == EdgeUsage(b, faces)
    decreases |a|
  {
    assert FacesKnown(b, faces) by {
      forall k | 0 <= k < |b| ensures b[k] in faces {
        assert b[k] in multiset(a);
        var i :| 0 <= i < |a| && a[i] == b[k];
      }
    }
    if a == [] {
      assert |b| == |multiset(b)|;
    } else {
      var n := |a|;
      var x := a[n - 1];
      assert x in multiset(b);
      var j :| 0 <= j < |b| && b[j] == x;
      RemoveMatching(a, b, j);
      assert forall k :: 0 <= k < n - 1 ==> a[..n - 1][k] == a[k];
      EdgeUsageIgnoresOrder(a[..n - 1], b[..j] + b[j + 1..], faces);
      EdgeUsageSplit(b, j, faces);
    }
  }

  /** Removing the last element of `a` and a matching element of `b` keeps the two lists permutations of each other. */
  lemma RemoveMatching<X>(a: seq<X>, b: seq<X>, j: int)
    requires multiset(a) == multiset(b) && |a| > 0 && 0 <= j < |b| && b[j] == a[|a| - 1]
    ensures multiset(a[..|a| - 1]) == multiset(b[..j] + b[j + 1..])
  {
    var n := |a|;
    var pre, post := b[..j], b[j + 1..];
    assert b == pre + [b[j]] + post;
    assert a == a[..n - 1] + [a[n - 1]];
    forall y ensures multiset(a[..n - 1])[y] == multiset(pre + post)[y] {
      assert multiset(a)[y] == multiset(b)[y];
    }
  }

  /** Taking face slot `j` out of the list removes exactly that face's edges from the usage. */
  lemma EdgeUsageSplit(b: seq<FaceId>, j: int, faces: map<FaceId, Face>)
    requires 0 <= j < |b| && FacesKnown(b, faces)
    ensures FacesKnown(b[..j] + b[j + 1..], faces)
    ensures EdgeUsage(b, faces) == EdgeUsage(b[..j] + b[j + 1..], faces) + multiset(faces[b[j]].edges)
  {
    var pre, post, x := b[..j], b[j + 1..], b[j];
    assert b == pre + [x] + post;
    assert forall k :: 0 <= k < |pre| ==> pre[k] == b[k];
    assert forall k :: 0 <= k < |post| ==> post[k] == b[j + 1 + k];
    EdgeUsageConcat(pre, [x], faces);
    EdgeUsageConcat(pre + [x], post, faces);
    EdgeUsageConcat(pre, post, faces);
    assert EdgeUsage([x], faces) == multiset(faces[x].edges) by {
      assert [x][..0] == [];
    }
  }

  /** In a valid volume every edge of every listed face is shared by exactly two face slots. */
  lemma {:induction false} ValidVolumeEdgesSharedTwice(volume: Volume, faces: map<FaceId, Face>, k: nat, e: EdgeId)
    requires FacesKnown(volume.faces, faces)
    requires VolumeValid(volume, faces)
    requires k < |volume.faces| && e in faces[volume.faces[k]].edges
    ensures EdgeUsage(volume.faces, faces)[e] == 2
  {
    var fids := volume.faces;
    var pre, post := fids[..k], fids[k + 1..];
    assert fids == pre + [fids[k]] + post;
    assert forall i :: 0 <= i < |pre| ==> pre[i] == fids[i];
    assert forall i :: 0 <= i < |post| ==> post[i] == fids[k + 1 + i];
    EdgeUsageConcat(pre, [fids[k]], faces);
    EdgeUsageConcat(pre + [fids[k]], post, faces);
    assert EdgeUsage([fids[k]], faces) == multiset(faces[fids[k]].edges) by {
      assert [fids[k]][..0] == [];
    }
    assert e in EdgeUsage(fids, faces);
  }
}
