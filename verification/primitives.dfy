/**
 * The entity values of src/Core/Primitives.h.  Vertex positions are vectors of
 * floats in the source; here they are an uninterpreted type.
 */
module Primitives {
  import opened SparseSets

  /** A 3-D point of single-precision floats (`Vec3`), left uninterpreted. */
  type Position(==)

  /** A single-precision float (`float`), left uninterpreted. */
  type Scalar(==)

  type VertexId = Id
  type EdgeId = Id
  type FaceId = Id
  type VolumeId = Id

  datatype Vertex = Vertex(position: Position)

  /** A straight edge between two vertices, stored in the order given. */
  datatype Edge = Edge(a: VertexId, b: VertexId)

  /** A face: its edge ids in walk order.  The type itself imposes no length or loop invariant. */
  datatype Face = Face(edges: seq<EdgeId>)

  /** A volume: its face ids.  The type itself imposes no invariant. */
  datatype Volume = Volume(faces: seq<FaceId>)

  /** `Edge::operator==`: two edges are equal when they join the same endpoints in either order. */
  predicate EdgeEquals(e: Edge, f: Edge)
  {
    (e.a == f.a && e.b == f.b) || (e.a == f.b && e.b == f.a)
  }

  /** Reversing an edge's endpoints gives an equal edge. */
  lemma EdgeEqualsReversed(a: VertexId, b: VertexId)
    ensures EdgeEquals(Edge(a, b), Edge(b, a))
  {
  }

  /** Edge equality is an equivalence: reflexive, symmetric and transitive. */
  lemma EdgeEqualsIsEquivalence(e: Edge, f: Edge, g: Edge)
    ensures EdgeEquals(e, e)
    ensures EdgeEquals(e, f) ==> EdgeEquals(f, e)
    ensures EdgeEquals(e, f) && EdgeEquals(f, g) ==> EdgeEquals(e, g)
  {
  }

  /** Two edges are equal exactly when their endpoints agree as unordered pairs. */
  lemma EdgeEqualsIsUnorderedPair(e: Edge, f: Edge)
    ensures EdgeEquals(e, f) <==> multiset{e.a, e.b} == multiset{f.a, f.b}
  {
    if multiset{e.a, e.b} == multiset{f.a, f.b} {
      assert e.a in multiset{f.a, f.b};
      if e.a == f.a {
        assert multiset{e.a, e.b} - multiset{e.a} == multiset{e.b};
        assert multiset{f.a, f.b} - multiset{f.a} == multiset{f.b};
      } else {
        assert e.a == f.b;
        assert multiset{e.a, e.b} - multiset{e.a} == multiset{e.b};
        assert multiset{f.a, f.b} - multiset{f.b} == multiset{f.a};
      }
    }
  }
}
