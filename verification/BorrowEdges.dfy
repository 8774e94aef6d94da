/** Label paths and the edges of the borrow graph. */
module BorrowEdges {

  /** Field labels; the alphabet is not empty. */
  type Lbl(==, 00, !new)

  /** Where in the code an edge was made. */
  type Loc(==, !new)

  // ---------------------------------------------------------------- paths

  type Path = seq<Lbl>

  predicate PathLeq(lhs: Path, rhs: Path) {
    |lhs| <= |rhs| && forall i :: 0 <= i < |lhs| ==> lhs[i] == rhs[i]
  }

  /** Splits `rhs` after its prefix `lhs`. */
  function PathFactor(lhs: Path, rhs: Path): (r: (Path, Path))
    requires PathLeq(lhs, rhs)
    ensures r.0 == lhs && PathAppend(lhs, r.1) == rhs
  {
    (rhs[..|lhs|], rhs[|lhs|..])
  }

  function PathAppend(lhs: Path, rhs: Path): Path {
    lhs + rhs
  }

  // ---------------------------------------------------------------- edges

  /** What edges are compared by: a strong edge borrows exactly its path, a weak edge any
      extension of it. The location of an edge takes no part in comparisons. */
  datatype EdgeKey = EdgeKey(strong: bool, path: Path)

  datatype BorrowEdge = BorrowEdge(key: EdgeKey, loc: Loc)

  /** An ordered set of edges whose equality ignores locations: inserting an edge that is already
      there keeps the old one, and so its location. */
  type EdgeSet = map<EdgeKey, Loc>

  function Insert(edges: EdgeSet, edge: BorrowEdge): EdgeSet {
    if edge.key in edges then edges else edges[edge.key := edge.loc]
  }

  predicate EdgeLeq(self: EdgeKey, other: EdgeKey) {
    self == other || (!self.strong && PathLeq(self.path, other.path))
  }

  /** The label paths an edge stands for. */
  predicate Denotes(key: EdgeKey, p: Path) {
    if key.strong then p == key.path else PathLeq(key.path, p)
  }

  ghost predicate Contains(self: EdgeKey, other: EdgeKey) {
    forall p: Path :: Denotes(other, p) ==> Denotes(self, p)
  }

  /** Over a non-empty alphabet of labels, one edge is below another exactly when it stands for
      every path the other stands for. */
  lemma EdgeLeqIsContainment(self: EdgeKey, other: EdgeKey)
    ensures EdgeLeq(self, other) <==> Contains(self, other)
  {
    if Contains(self, other) {
      assert Denotes(other, other.path);
      if self.strong {
        var x: Lbl :| true;
        var longer := other.path + [x];
        assert Denotes(other, longer) ==> Denotes(self, longer);
      }
    }
  }

  /** Reading an edge through an exact prefix, as `factor` does. */
  function Extend(path: Path, key: EdgeKey): EdgeKey {
    EdgeKey(key.strong, PathAppend(path, key.path))
  }

  /** The edge that replaces a path through a released reference. */
  function Compose(into: EdgeKey, out: EdgeKey): EdgeKey {
    EdgeKey(into.strong && out.strong, if into.strong then PathAppend(into.path, out.path) else into.path)
  }

  /** The replacement stands for every concatenation of the two edges' paths. */
  lemma ComposeCovers(into: EdgeKey, out: EdgeKey, p: Path, q: Path)
    requires Denotes(into, p) && Denotes(out, q)
    ensures Denotes(Compose(into, out), p + q)
  {
  }

  /** The edge into the reference is exact, or the edge out of it begins where it ends. */
  predicate ComposesExactly(into: EdgeKey, out: EdgeKey) {
    into.strong || out.path == []
  }

  /** Where a path of the replacement goes from one edge to the other. */
  function SplitPoint(into: EdgeKey, p: Path): nat {
    if into.strong && |into.path| <= |p| then |into.path| else |p|
  }

  lemma ComposeSplits(into: EdgeKey, out: EdgeKey, p: Path)
    requires ComposesExactly(into, out) && Denotes(Compose(into, out), p)
    ensures SplitPoint(into, p) <= |p|
    ensures Denotes(into, p[..SplitPoint(into, p)]) && Denotes(out, p[SplitPoint(into, p)..])
    ensures p == p[..SplitPoint(into, p)] + p[SplitPoint(into, p)..]
  {
    var n := SplitPoint(into, p);
    assert p == p[..n] + p[n..];
    if into.strong {
      assert p[..n] == into.path;
      if out.strong { assert p[n..] == out.path; }
    } else {
      assert p[..n] == p && p[n..] == [];
    }
  }

  /** It is the concatenation of a path of each edge. */
  ghost predicate IsThrough(into: EdgeKey, out: EdgeKey, p: Path) {
    exists a, b :: Denotes(into, a) && Denotes(out, b) && p == PathAppend(a, b)
  }

  /** The replacement stands for nothing but such concatenations exactly when the edge into the
      reference is exact or the edge out of it has no labels. */
  lemma ComposeIsExactIff(into: EdgeKey, out: EdgeKey)
    ensures (forall p :: Denotes(Compose(into, out), p) ==> IsThrough(into, out, p))
       <==> ComposesExactly(into, out)
  {
    if ComposesExactly(into, out) {
      forall p | Denotes(Compose(into, out), p) ensures IsThrough(into, out, p) {
        ComposeSplits(into, out, p);
        assert p == PathAppend(p[..SplitPoint(into, p)], p[SplitPoint(into, p)..]);
      }
    } else {
      assert Denotes(Compose(into, out), into.path);
      assert !IsThrough(into, out, into.path);
    }
  }
}
