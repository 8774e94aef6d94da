/** What the borrow graph means: walks and the label paths they stand for, and the laws that the
    graph operations obey with respect to them. */
module BorrowSemantics {
  import opened Collections
  import opened BorrowEdges
  import opened BorrowGraph

  // ---------------------------------------------------------------- walks

  datatype Hop = Hop(parent: RefID, key: EdgeKey, child: RefID)

  ghost predicate IsHop(g: Graph, h: Hop) {
    h.key in Between(g, h.parent, h.child)
  }

  /** A walk along borrow edges from `u` to `v`. */
  ghost predicate IsWalk(g: Graph, u: RefID, v: RefID, walk: seq<Hop>)
    decreases |walk|
  {
    if |walk| == 0 then u == v
    else walk[0].parent == u && IsHop(g, walk[0]) && IsWalk(g, walk[0].child, v, walk[1..])
  }

  ghost predicate Reaches(g: Graph, u: RefID, v: RefID) {
    exists walk: seq<Hop> :: IsWalk(g, u, v, walk)
  }

  function Concat(parts: seq<Path>): Path {
    if |parts| == 0 then [] else parts[0] + Concat(parts[1..])
  }

  /** Each edge of the walk stands for the label path at its place. */
  ghost predicate Along(walk: seq<Hop>, parts: seq<Path>)
    decreases |walk|
  {
    && |walk| == |parts|
    && (|walk| > 0 ==> Denotes(walk[0].key, parts[0]) && Along(walk[1..], parts[1..]))
  }

  /** Some walk from `u` to `v` stands for the label path: its edges stand for paths that add up
      to it. */
  ghost predicate Borrows(g: Graph, u: RefID, v: RefID, p: Path) {
    exists walk, parts :: IsWalk(g, u, v, walk) && Along(walk, parts) && Concat(parts) == p
  }

  lemma NoHops(g: Graph, u: RefID)
    ensures Borrows(g, u, u, [])
  {
    var walk: seq<Hop>, parts: seq<Path> := [], [];
    assert IsWalk(g, u, u, walk) && Along(walk, parts) && Concat(parts) == [];
  }

  lemma PrependHop(g: Graph, h: Hop, v: RefID, q: Path, r: Path)
    requires IsHop(g, h) && Denotes(h.key, q) && Borrows(g, h.child, v, r)
    ensures Borrows(g, h.parent, v, q + r)
  {
    var walk, parts :| IsWalk(g, h.child, v, walk) && Along(walk, parts) && Concat(parts) == r;
    var walk', parts' := [h] + walk, [q] + parts;
    assert walk'[1..] == walk && parts'[1..] == parts;
    assert IsWalk(g, h.parent, v, walk') && Along(walk', parts') && Concat(parts') == q + r;
  }

  lemma PrependReach(g: Graph, h: Hop, v: RefID)
    requires IsHop(g, h) && Reaches(g, h.child, v)
    ensures Reaches(g, h.parent, v)
  {
    var walk :| IsWalk(g, h.child, v, walk);
    var longer := [h] + walk;
    assert longer[1..] == walk;
    assert IsWalk(g, h.parent, v, longer);
  }

  // ---------------------------------------------------------------- releasing is sound

  /** What a walk through the released reference turns into: one hop, or none at a round trip. */
  lemma ThroughReleased(g: Graph, id: RefID, g': Graph, into: Hop, out: Hop)
    requires Valid(g) && Released(g, id, g')
    requires IsHop(g, into) && IsHop(g, out) && into.child == id && out.parent == id
    ensures into.parent in g' && out.child in g'
    ensures into.parent != out.child ==> IsHop(g', Hop(into.parent, Compose(into.key, out.key), out.child))
  {
    ConnectedIffEdges(g, into.parent, id);
    ConnectedIffEdges(g, id, out.child);
    assert ComposedBetween(g, id, into.parent, out.child, Between(g, into.parent, out.child),
                           Between(g', into.parent, out.child));
    assert IsSplice(g, id, Splice(into.parent, into.key, out.child, out.key));
  }

  lemma KeptHop(g: Graph, id: RefID, g': Graph, h: Hop)
    requires Valid(g) && Released(g, id, g') && IsHop(g, h) && h.parent != id && h.child != id
    ensures IsHop(g', h)
  {
    ConnectedIffEdges(g, h.parent, h.child);
    assert ComposedBetween(g, id, h.parent, h.child, Between(g, h.parent, h.child), Between(g', h.parent, h.child));
  }

  /** Where a hop of the new graph comes from: an old hop, or two hops through the released
      reference. */
  lemma HopOrigin(g: Graph, id: RefID, g': Graph, h: Hop) returns (q: Splice)
    requires Valid(g) && Valid(g') && Released(g, id, g') && IsHop(g', h)
    ensures h.parent != id && h.child != id
    ensures IsHop(g, h) || (IsSplice(g, id, q) && q.parent == h.parent && q.child == h.child
                            && h.key == Compose(q.into, q.out))
  {
    ConnectedIffEdges(g', h.parent, h.child);
    assert ComposedBetween(g, id, h.parent, h.child, Between(g, h.parent, h.child), Between(g', h.parent, h.child));
    if IsHop(g, h) {
      q := Splice(h.parent, h.key, h.child, h.key);
    } else {
      q :| IsSplice(g, id, q) && q.parent == h.parent && q.child == h.child && h.key == Compose(q.into, q.out);
    }
  }

  /** Releasing a reference preserves reachability between the others exactly. */
  lemma ReleaseKeepsReachability(g: Graph, id: RefID, g': Graph, u: RefID, v: RefID)
    requires Valid(g) && Valid(g') && Released(g, id, g')
    requires u != id && v != id
    ensures Reaches(g, u, v) <==> Reaches(g', u, v)
  {
    if Reaches(g, u, v) {
      var walk :| IsWalk(g, u, v, walk);
      ReachAfter(g, id, g', u, v, walk);
    }
    if Reaches(g', u, v) {
      var walk :| IsWalk(g', u, v, walk);
      ReachBefore(g, id, g', u, v, walk);
    }
  }

  lemma {:induction false} ReachAfter(g: Graph, id: RefID, g': Graph, u: RefID, v: RefID, walk: seq<Hop>)
    requires Valid(g) && Released(g, id, g') && IsWalk(g, u, v, walk)
    requires u != id && v != id
    ensures Reaches(g', u, v)
    decreases |walk|
  {
    if |walk| == 0 {
      assert IsWalk(g', u, v, []);
    } else if walk[0].child != id {
      KeptHop(g, id, g', walk[0]);
      ReachAfter(g, id, g', walk[0].child, v, walk[1..]);
      PrependReach(g', walk[0], v);
    } else {
      var into, out := walk[0], walk[1..][0];
      ThroughReleased(g, id, g', into, out);
      ReachAfter(g, id, g', out.child, v, walk[1..][1..]);
      if u != out.child {
        PrependReach(g', Hop(u, Compose(into.key, out.key), out.child), v);
      }
    }
  }

  lemma {:induction false} ReachBefore(g: Graph, id: RefID, g': Graph, u: RefID, v: RefID, walk: seq<Hop>)
    requires Valid(g) && Valid(g') && Released(g, id, g') && IsWalk(g', u, v, walk)
    ensures Reaches(g, u, v)
    decreases |walk|
  {
    if |walk| == 0 {
      assert IsWalk(g, u, v, []);
    } else {
      var h := walk[0];
      ReachBefore(g, id, g', h.child, v, walk[1..]);
      var q := HopOrigin(g, id, g', h);
      if IsHop(g, h) {
        PrependReach(g, h, v);
      } else {
        PrependReach(g, Hop(id, q.out, h.child), v);
        PrependReach(g, Hop(h.parent, q.into, id), v);
      }
    }
  }

  /** No reference is both lender and borrower of the released one. */
  ghost predicate NoRoundTrip(g: Graph, id: RefID) {
    forall o: RefID :: Between(g, o, id) == map[] || Between(g, id, o) == map[]
  }

  ghost predicate OnlyStrongInto(g: Graph, id: RefID) {
    forall p: RefID, k :: k in Between(g, p, id) ==> k.strong
  }

  /** Each edge that the release makes stands for what was borrowed through the two it replaces. */
  ghost predicate ExactThrough(g: Graph, id: RefID) {
    forall q :: IsSplice(g, id, q) && q.parent != q.child ==> ComposesExactly(q.into, q.out)
  }

  /** A path from `o` through the released reference and back to `o`. */
  ghost predicate IsRoundTrip(g: Graph, id: RefID, o: RefID, p: Path) {
    exists q :: IsSplice(g, id, q) && q.parent == o && q.child == o && IsThrough(q.into, q.out, p)
  }

  /** A way between two other references: an edge, or an edge into the released reference and one
      out of it, taken together. */
  ghost predicate HopAround(g: Graph, id: RefID, h: Hop) {
    && h.parent != id && h.child != id
    && (IsHop(g, h)
        || (h.parent != h.child
            && exists q :: IsSplice(g, id, q) && q.parent == h.parent && q.child == h.child
                             && h.key == Compose(q.into, q.out)))
  }

  ghost predicate WalkAround(g: Graph, id: RefID, u: RefID, v: RefID, walk: seq<Hop>)
    decreases |walk|
  {
    if |walk| == 0 then u == v
    else walk[0].parent == u && HopAround(g, id, walk[0]) && WalkAround(g, id, walk[0].child, v, walk[1..])
  }

  ghost predicate BorrowsAround(g: Graph, id: RefID, u: RefID, v: RefID, p: Path) {
    exists walk, parts :: WalkAround(g, id, u, v, walk) && Along(walk, parts) && Concat(parts) == p
  }

  /** What is borrowed by a round trip is also borrowed some other way. */
  ghost predicate RoundTripsCovered(g: Graph, id: RefID) {
    forall o: RefID, p: Path :: IsRoundTrip(g, id, o, p) ==> BorrowsAround(g, id, o, o, p)
  }

  lemma HopAroundIsHop(g: Graph, id: RefID, g': Graph, h: Hop)
    requires Valid(g) && Valid(g') && Released(g, id, g')
    ensures HopAround(g, id, h) <==> IsHop(g', h)
  {
    if HopAround(g, id, h) {
      if IsHop(g, h) {
        KeptHop(g, id, g', h);
      } else {
        var q :| IsSplice(g, id, q) && q.parent == h.parent && q.child == h.child
          && h.key == Compose(q.into, q.out);
        ThroughReleased(g, id, g', Hop(q.parent, q.into, id), Hop(id, q.out, q.child));
      }
    }
    if IsHop(g', h) {
      var q := HopOrigin(g, id, g', h);
      ConnectedIffEdges(g', h.parent, h.child);
    }
  }

  lemma {:induction false} WalkAroundIsWalk(g: Graph, id: RefID, g': Graph, u: RefID, v: RefID, walk: seq<Hop>)
    requires Valid(g) && Valid(g') && Released(g, id, g')
    ensures WalkAround(g, id, u, v, walk) <==> IsWalk(g', u, v, walk)
    decreases |walk|
  {
    if |walk| > 0 {
      HopAroundIsHop(g, id, g', walk[0]);
      WalkAroundIsWalk(g, id, g', walk[0].child, v, walk[1..]);
    }
  }

  /** What can be borrowed around the reference is what is borrowed once it is released. */
  lemma BorrowsAroundIsBorrows(g: Graph, id: RefID, g': Graph, u: RefID, v: RefID, p: Path)
    requires Valid(g) && Valid(g') && Released(g, id, g')
    ensures BorrowsAround(g, id, u, v, p) <==> Borrows(g', u, v, p)
  {
    forall walk: seq<Hop> ensures WalkAround(g, id, u, v, walk) <==> IsWalk(g', u, v, walk) {
      WalkAroundIsWalk(g, id, g', u, v, walk);
    }
    if Borrows(g', u, v, p) {
      var walk, parts :| IsWalk(g', u, v, walk) && Along(walk, parts) && Concat(parts) == p;
      assert WalkAround(g, id, u, v, walk);
    }
    if BorrowsAround(g, id, u, v, p) {
      var walk, parts :| WalkAround(g, id, u, v, walk) && Along(walk, parts) && Concat(parts) == p;
      assert IsWalk(g', u, v, walk);
    }
  }

  lemma FirstHop(g: Graph, u: RefID, v: RefID, walk: seq<Hop>, parts: seq<Path>)
    requires IsWalk(g, u, v, walk) && Along(walk, parts) && |walk| > 0
    ensures IsHop(g, walk[0]) && walk[0].parent == u && Denotes(walk[0].key, parts[0])
    ensures IsWalk(g, walk[0].child, v, walk[1..]) && Along(walk[1..], parts[1..])
    ensures Concat(parts) == parts[0] + Concat(parts[1..])
  {}

  /** Every label path borrowed before is borrowed after, if those of round trips are. */
  lemma {:induction false} ReleaseKeepsPaths(g: Graph, id: RefID, g': Graph, u: RefID, v: RefID,
                                             walk: seq<Hop>, parts: seq<Path>)
    requires Valid(g) && Valid(g') && Released(g, id, g') && RoundTripsCovered(g, id)
    requires u != id && v != id
    requires IsWalk(g, u, v, walk) && Along(walk, parts)
    ensures Borrows(g', u, v, Concat(parts))
    decreases |walk|
  {
    if |walk| == 0 {
      NoHops(g', u);
    } else {
      FirstHop(g, u, v, walk, parts);
      if walk[0].child != id {
        KeptHop(g, id, g', walk[0]);
        ReleaseKeepsPaths(g, id, g', walk[0].child, v, walk[1..], parts[1..]);
        PrependHop(g', walk[0], v, parts[0], Concat(parts[1..]));
      } else {
        var walk', parts' := walk[1..], parts[1..];
        FirstHop(g, id, v, walk', parts');
        ConnectedIffEdges(g, id, walk'[0].child);
        ReleaseKeepsPaths(g, id, g', walk'[0].child, v, walk'[1..], parts'[1..]);
        HopOver(g, id, g', walk[0], walk'[0], v, parts[0], parts'[0], Concat(parts'[1..]));
        Associates(parts[0], parts'[0], Concat(parts'[1..]));
      }
    }
  }

  lemma HopOver(g: Graph, id: RefID, g': Graph, into: Hop, out: Hop, v: RefID, q: Path, r: Path, rest: Path)
    requires Valid(g) && Valid(g') && Released(g, id, g') && RoundTripsCovered(g, id)
    requires IsHop(g, into) && IsHop(g, out) && into.child == id && out.parent == id
    requires Denotes(into.key, q) && Denotes(out.key, r) && Borrows(g', out.child, v, rest)
    ensures Borrows(g', into.parent, v, (q + r) + rest)
  {
    if into.parent != out.child {
      ThroughReleased(g, id, g', into, out);
      ComposeCovers(into.key, out.key, q, r);
      PrependHop(g', Hop(into.parent, Compose(into.key, out.key), out.child), v, q + r, rest);
    } else {
      assert IsSplice(g, id, Splice(into.parent, into.key, out.child, out.key));
      assert q + r == PathAppend(q, r) && IsThrough(into.key, out.key, q + r);
      assert IsRoundTrip(g, id, into.parent, q + r);
      BorrowsAroundIsBorrows(g, id, g', into.parent, into.parent, q + r);
      BorrowsJoin(g', into.parent, out.child, v, q + r, rest);
    }
  }

  lemma BorrowsJoin(g: Graph, u: RefID, w: RefID, v: RefID, p: Path, q: Path)
    requires Borrows(g, u, w, p) && Borrows(g, w, v, q)
    ensures Borrows(g, u, v, p + q)
  {
    var walk, parts :| IsWalk(g, u, w, walk) && Along(walk, parts) && Concat(parts) == p;
    WalkThenBorrows(g, u, w, v, walk, parts, q);
  }

  lemma {:induction false} WalkThenBorrows(g: Graph, u: RefID, w: RefID, v: RefID, walk: seq<Hop>,
                                           parts: seq<Path>, q: Path)
    requires IsWalk(g, u, w, walk) && Along(walk, parts) && Borrows(g, w, v, q)
    ensures Borrows(g, u, v, Concat(parts) + q)
    decreases |walk|
  {
    if |walk| == 0 {
      assert [] + q == q;
    } else {
      FirstHop(g, u, w, walk, parts);
      WalkThenBorrows(g, walk[0].child, w, v, walk[1..], parts[1..], q);
      PrependHop(g, walk[0], v, parts[0], Concat(parts[1..]) + q);
      Associates(parts[0], Concat(parts[1..]), q);
    }
  }

  /** Whatever an edge that the release makes stands for is borrowed already. */
  ghost predicate ComposedAreBorrowed(g: Graph, id: RefID) {
    forall q, p :: IsSplice(g, id, q) && q.parent != q.child && Denotes(Compose(q.into, q.out), p) ==>
                     Borrows(g, q.parent, q.child, p)
  }

  /** Then no other path is borrowed after. */
  lemma {:induction false} ReleaseAddsNoPaths(g: Graph, id: RefID, g': Graph, u: RefID, v: RefID,
                                              walk: seq<Hop>, parts: seq<Path>)
    requires Valid(g) && Valid(g') && Released(g, id, g') && ComposedAreBorrowed(g, id)
    requires IsWalk(g', u, v, walk) && Along(walk, parts)
    ensures Borrows(g, u, v, Concat(parts))
    decreases |walk|
  {
    if |walk| == 0 {
      NoHops(g, u);
    } else {
      var h, q, r := walk[0], parts[0], Concat(parts[1..]);
      FirstHop(g', u, v, walk, parts);
      ReleaseAddsNoPaths(g, id, g', h.child, v, walk[1..], parts[1..]);
      OldHops(g, id, g', h, v, q, r);
    }
  }

  /** A hop of the new graph stands only for paths that were borrowed before. */
  lemma OldHops(g: Graph, id: RefID, g': Graph, h: Hop, v: RefID, q: Path, r: Path)
    requires Valid(g) && Valid(g') && Released(g, id, g') && ComposedAreBorrowed(g, id)
    requires IsHop(g', h) && Denotes(h.key, q) && Borrows(g, h.child, v, r)
    ensures Borrows(g, h.parent, v, q + r)
  {
    var s := HopOrigin(g, id, g', h);
    if IsHop(g, h) {
      PrependHop(g, h, v, q, r);
    } else {
      ConnectedIffEdges(g', h.parent, h.child);
      BorrowsJoin(g, h.parent, h.child, v, q, r);
    }
  }

  ghost predicate PathsKept(g: Graph, id: RefID, g': Graph) {
    forall u: RefID, v: RefID, p: Path :: u != id && v != id && Borrows(g, u, v, p) ==> Borrows(g', u, v, p)
  }

  ghost predicate NoPathsAdded(g: Graph, id: RefID, g': Graph) {
    forall u: RefID, v: RefID, p: Path :: u != id && v != id && Borrows(g', u, v, p) ==> Borrows(g, u, v, p)
  }

  /** Releasing keeps all label paths between the others exactly when, before the release, what each
      round trip borrows is also borrowed some other way: nothing else is ever lost. */
  lemma ReleaseLosesOnlyRoundTrips(g: Graph, id: RefID, g': Graph)
    requires Valid(g) && Valid(g') && Released(g, id, g')
    ensures PathsKept(g, id, g') <==> RoundTripsCovered(g, id)
  {
    if RoundTripsCovered(g, id) {
      forall u: RefID, v: RefID, p: Path | u != id && v != id && Borrows(g, u, v, p) ensures Borrows(g', u, v, p) {
        var walk, parts :| IsWalk(g, u, v, walk) && Along(walk, parts) && Concat(parts) == p;
        ReleaseKeepsPaths(g, id, g', u, v, walk, parts);
      }
    }
    if PathsKept(g, id, g') {
      forall o: RefID, p: Path | IsRoundTrip(g, id, o, p) ensures BorrowsAround(g, id, o, o, p) {
        RoundTripBorrows(g, id, o, p);
        BorrowsAroundIsBorrows(g, id, g', o, o, p);
      }
    }
  }

  lemma ThroughBorrows(g: Graph, id: RefID, q: Splice, a: Path, b: Path)
    requires IsSplice(g, id, q) && Denotes(q.into, a) && Denotes(q.out, b)
    ensures Borrows(g, q.parent, q.child, a + b)
  {
    NoHops(g, q.child);
    PrependHop(g, Hop(id, q.out, q.child), q.child, b, []);
    assert b + [] == b;
    PrependHop(g, Hop(q.parent, q.into, id), q.child, a, b);
  }

  lemma RoundTripBorrows(g: Graph, id: RefID, o: RefID, p: Path)
    requires Valid(g) && IsRoundTrip(g, id, o, p)
    ensures o != id && Borrows(g, o, o, p)
  {
    var s :| IsSplice(g, id, s) && s.parent == o && s.child == o && IsThrough(s.into, s.out, p);
    var a, b :| Denotes(s.into, a) && Denotes(s.out, b) && p == PathAppend(a, b);
    ConnectedIffEdges(g, o, id);
    ThroughBorrows(g, id, s, a, b);
  }

  /** There is no way round from a reference to itself. */
  ghost predicate NoCycleAround(g: Graph, id: RefID) {
    forall o: RefID, walk: seq<Hop> :: WalkAround(g, id, o, o, walk) ==> walk == []
  }

  /** The edges of a round trip are exact and have no labels. */
  ghost predicate RoundTripsAreEmpty(g: Graph, id: RefID) {
    forall q :: IsSplice(g, id, q) && q.parent == q.child ==>
                  q.into == EdgeKey(true, []) && q.out == EdgeKey(true, [])
  }

  /** Where no other way leads round, it is enough to look at the edges of the round trips. */
  lemma OnlyEmptyRoundTripsAreKept(g: Graph, id: RefID, g': Graph)
    requires Valid(g) && Valid(g') && Released(g, id, g') && NoCycleAround(g, id)
    ensures PathsKept(g, id, g') <==> RoundTripsAreEmpty(g, id)
  {
    ReleaseLosesOnlyRoundTrips(g, id, g');
    if RoundTripsCovered(g, id) {
      forall q | IsSplice(g, id, q) && q.parent == q.child
        ensures q.into == EdgeKey(true, []) && q.out == EdgeKey(true, [])
      {
        forall a: Path, b: Path | Denotes(q.into, a) && Denotes(q.out, b) ensures a == [] && b == [] {
          CoveredRoundTripIsEmpty(g, id, q, a, b);
        }
        DenotesOnlyEmpty(q.into);
        DenotesOnlyEmpty(q.out);
      }
    }
    if RoundTripsAreEmpty(g, id) {
      forall o: RefID, p: Path | IsRoundTrip(g, id, o, p) ensures BorrowsAround(g, id, o, o, p) {
        var walk: seq<Hop>, parts: seq<Path> := [], [];
        assert WalkAround(g, id, o, o, walk) && Along(walk, parts) && Concat(parts) == p;
      }
    }
  }

  lemma CoveredRoundTripIsEmpty(g: Graph, id: RefID, q: Splice, a: Path, b: Path)
    requires NoCycleAround(g, id) && RoundTripsCovered(g, id)
    requires IsSplice(g, id, q) && q.parent == q.child && Denotes(q.into, a) && Denotes(q.out, b)
    ensures a == [] && b == []
  {
    assert IsThrough(q.into, q.out, PathAppend(a, b));
    assert IsRoundTrip(g, id, q.parent, PathAppend(a, b));
    var walk, parts :| WalkAround(g, id, q.parent, q.parent, walk) && Along(walk, parts)
      && Concat(parts) == PathAppend(a, b);
    assert walk == [];
  }

  lemma DenotesOnlyEmpty(key: EdgeKey)
    ensures Denotes(key, key.path)
    ensures !key.strong ==> exists p :: Denotes(key, p) && p != []
  {
    var x: Lbl :| true;
    assert Denotes(key, key.path);
    if !key.strong { assert Denotes(key, key.path + [x]); }
  }

  /** The other way may itself lead through the released reference: the only cycles of this graph go
      through 1, and yet the round trip from 0 is covered by way of 2. */
  lemma CoveredThroughReleased(x: Lbl, y: Lbl, loc: Loc)
    ensures var to1, to0, to2, back :=
              EdgeKey(true, [x]), EdgeKey(true, [y]), EdgeKey(true, [y]), EdgeKey(true, []);
            var g: Graph := map[0 := Ref(map[1 := map[to1 := loc]], {1, 2}, true),
                                1 := Ref(map[0 := map[to0 := loc], 2 := map[to2 := loc]], {0}, true),
                                2 := Ref(map[0 := map[back := loc]], {1}, true)];
            && Valid(g)
            && (forall h :: IsHop(g, h) && h.parent != 1 && h.child != 1 ==> h == Hop(2, back, 0))
            && IsRoundTrip(g, 1, 0, [x, y]) && BorrowsAround(g, 1, 0, 0, [x, y])
  {
    var to1, to0, to2, back := EdgeKey(true, [x]), EdgeKey(true, [y]), EdgeKey(true, [y]), EdgeKey(true, []);
    var g: Graph := map[0 := Ref(map[1 := map[to1 := loc]], {1, 2}, true),
                        1 := Ref(map[0 := map[to0 := loc], 2 := map[to2 := loc]], {0}, true),
                        2 := Ref(map[0 := map[back := loc]], {1}, true)];
    assert [x] + [y] == [x, y];
    assert PathAppend([x], [y]) == [x, y] && IsThrough(to1, to0, [x, y]);
    assert IsSplice(g, 1, Splice(0, to1, 0, to0)) && IsSplice(g, 1, Splice(0, to1, 2, to2));
    var there, home := Hop(0, Compose(to1, to2), 2), Hop(2, back, 0);
    assert HopAround(g, 1, there) && HopAround(g, 1, home);
    var walk, parts := [there, home], [[x, y], []];
    assert walk[1..] == [home] && walk[1..][1..] == [] && parts[1..] == [[]] && parts[1..][1..] == [];
    assert WalkAround(g, 1, 0, 0, walk) && Along(walk, parts);
    assert Concat(parts[1..]) == [] && Concat(parts) == [x, y] + Concat(parts[1..]);
  }

  /** Releasing adds no label path between the others exactly when, before the release, whatever the
      edges it makes stand for is borrowed already. */
  lemma ReleaseAddsOnlyComposed(g: Graph, id: RefID, g': Graph)
    requires Valid(g) && Valid(g') && Released(g, id, g')
    ensures NoPathsAdded(g, id, g') <==> ComposedAreBorrowed(g, id)
  {
    if ComposedAreBorrowed(g, id) {
      forall u: RefID, v: RefID, p: Path | u != id && v != id && Borrows(g', u, v, p) ensures Borrows(g, u, v, p) {
        var walk, parts :| IsWalk(g', u, v, walk) && Along(walk, parts) && Concat(parts) == p;
        ReleaseAddsNoPaths(g, id, g', u, v, walk, parts);
      }
    }
    if NoPathsAdded(g, id, g') {
      forall q, p | IsSplice(g, id, q) && q.parent != q.child && Denotes(Compose(q.into, q.out), p)
        ensures Borrows(g, q.parent, q.child, p)
      {
        ConnectedIffEdges(g, q.parent, id);
        ConnectedIffEdges(g, id, q.child);
        ThroughReleased(g, id, g', Hop(q.parent, q.into, id), Hop(id, q.out, q.child));
        NoHops(g', q.child);
        PrependHop(g', Hop(q.parent, Compose(q.into, q.out), q.child), q.child, p, []);
        assert p + [] == p;
      }
    }
  }

  lemma ExactIsBorrowed(g: Graph, id: RefID)
    requires ExactThrough(g, id)
    ensures ComposedAreBorrowed(g, id)
  {
    forall q, p | IsSplice(g, id, q) && q.parent != q.child && Denotes(Compose(q.into, q.out), p)
      ensures Borrows(g, q.parent, q.child, p)
    {
      ComposeSplits(q.into, q.out, p);
      var n := SplitPoint(q.into, p);
      ThroughBorrows(g, id, q, p[..n], p[n..]);
    }
  }

  lemma SimpleReferences(g: Graph, id: RefID)
    ensures NoRoundTrip(g, id) ==> RoundTripsCovered(g, id)
    ensures OnlyStrongInto(g, id) ==> ExactThrough(g, id)
  {}

  /** Releasing a reference that has no round trip keeps the paths borrowed between the others, and
      adds none if it borrows exactly. */
  lemma ReleaseIsSound(g: Graph, id: RefID, g': Graph, u: RefID, v: RefID, p: Path)
    requires Valid(g) && Valid(g') && Released(g, id, g')
    requires u != id && v != id
    ensures NoRoundTrip(g, id) && Borrows(g, u, v, p) ==> Borrows(g', u, v, p)
    ensures OnlyStrongInto(g, id) && Borrows(g', u, v, p) ==> Borrows(g, u, v, p)
  {
    SimpleReferences(g, id);
    if NoRoundTrip(g, id) { ReleaseLosesOnlyRoundTrips(g, id, g'); }
    if OnlyStrongInto(g, id) {
      ExactIsBorrowed(g, id);
      ReleaseAddsOnlyComposed(g, id, g');
    }
  }

  /** A round trip is dropped: with an edge labelled x from 0 to 1 and one labelled y back,
      releasing 1 leaves 0 without the borrow of x.y from itself. */
  lemma RoundTripIsDropped(x: Lbl, y: Lbl, loc: Loc)
    ensures var g: Graph := map[0 := Ref(map[1 := map[EdgeKey(true, [x]) := loc]], {1}, true),
                                1 := Ref(map[0 := map[EdgeKey(true, [y]) := loc]], {0}, true)];
            var g': Graph := map[0 := Ref(map[], {}, true)];
            && Valid(g) && Released(g, 1, g')
            && Borrows(g, 0, 0, [x, y]) && !Borrows(g', 0, 0, [x, y])
  {
    var g: Graph := map[0 := Ref(map[1 := map[EdgeKey(true, [x]) := loc]], {1}, true),
                        1 := Ref(map[0 := map[EdgeKey(true, [y]) := loc]], {0}, true)];
    var g': Graph := map[0 := Ref(map[], {}, true)];
    var there, back := Hop(0, EdgeKey(true, [x]), 1), Hop(1, EdgeKey(true, [y]), 0);
    NoHops(g, 0);
    PrependHop(g, back, 0, [y], []);
    assert [y] + [] == [y];
    PrependHop(g, there, 0, [x], [y]);
    assert [x] + [y] == [x, y];
    forall walk: seq<Hop>, parts | IsWalk(g', 0, 0, walk) && Along(walk, parts) ensures Concat(parts) == [] {
    }
  }

  // ---------------------------------------------------------------- factoring and releasing undo each other

  /** The graph after creating a reference. */
  ghost predicate NewRefResult(g: Graph, mid: RefID, mutable: bool, g1: Graph) {
    && mid !in g && g1.Keys == g.Keys + {mid} && g1[mid] == Ref(map[], {}, mutable)
    && forall o :: o in g ==> g1[o] == g[o]
  }

  ghost predicate FactorResult(g: Graph, parent: RefID, loc: Loc, path: Path, mid: RefID, g': Graph) {
    && Valid(g') && SameRefs(g, g')
    && forall p: RefID, c: RefID :: Between(g', p, c) == FactorBetween(g, parent, loc, path, mid, p, c)
  }

  /** Creating a reference, factoring it in below any lender and releasing it again gives back the
      original graph: edges, locations and back edges. */
  lemma FactorThenRelease(g: Graph, parent: RefID, loc: Loc, path: Path, mid: RefID, mutable: bool,
                          g1: Graph, g2: Graph, g3: Graph)
    requires Valid(g) && parent in g
    requires NewRefResult(g, mid, mutable, g1) && FactorResult(g1, parent, loc, path, mid, g2)
    requires Valid(g3) && Released(g2, mid, g3)
    ensures g3 == g
  {
    forall p: RefID, c: RefID ensures Between(g3, p, c) == Between(g, p, c) {
      ConnectedIffEdges(g, p, c);
      ConnectedIffEdges(g3, p, c);
      if p in g && c in g { RestoredBetween(g, parent, loc, path, mid, g1, g2, g3, p, c); }
    }
    EdgesDetermineGraph(g3, g);
  }

  lemma RestoredBetween(g: Graph, parent: RefID, loc: Loc, path: Path, mid: RefID,
                        g1: Graph, g2: Graph, g3: Graph, p: RefID, c: RefID)
    requires Valid(g) && parent in g && p in g && c in g && mid !in g
    requires g1.Keys == g.Keys + {mid} && g1[mid].borrowedBy == map[] && forall o :: o in g ==> g1[o] == g[o]
    requires FactorResult(g1, parent, loc, path, mid, g2) && Released(g2, mid, g3)
    ensures Between(g3, p, c) == Between(g, p, c)
  {
    assert ComposedBetween(g2, mid, p, c, Between(g2, p, c), Between(g3, p, c));
    LendsOnlyThrough(g, parent, loc, path, mid, g1, g2);
    FactoredBetween(g, parent, loc, path, mid, g1, g2, p, c);
    if p != parent {
      UntouchedBetween(g, mid, g2, g3, p, c, parent);
    } else {
      RestoredAtParent(g, path, mid, g2, g3, p, c);
    }
  }

  lemma RestoredAtParent(g: Graph, path: Path, mid: RefID, g2: Graph, g3: Graph, p: RefID, c: RefID)
    requires Valid(g) && p in g && c in g
    requires ComposedBetween(g2, mid, p, c, Between(g2, p, c), Between(g3, p, c))
    requires Between(g2, p, c) == Keep(Between(g, p, c), path)
    requires Between(g2, mid, c) == Suffixes(Between(g, p, c), path)
    requires EdgeKey(true, path) in Between(g2, p, mid)
    requires forall q :: IsSplice(g2, mid, q) ==> q.parent == p && q.into == EdgeKey(true, path)
    ensures Between(g3, p, c) == Between(g, p, c)
  {
    forall k: EdgeKey ensures SameAt(Between(g3, p, c), Between(g, p, c), k) {
      RestoredEdge(g, path, mid, g2, g3, p, c, k);
    }
    SameEverywhere(Between(g3, p, c), Between(g, p, c));
  }

  ghost predicate SameAt(a: EdgeSet, b: EdgeSet, k: EdgeKey) {
    (k in a <==> k in b) && (k in a ==> a[k] == b[k])
  }

  lemma SameEverywhere(a: EdgeSet, b: EdgeSet)
    requires forall k: EdgeKey :: SameAt(a, b, k)
    ensures a == b
  {
    assert forall k: EdgeKey :: k in a <==> k in b by {
      forall k: EdgeKey ensures k in a <==> k in b { assert SameAt(a, b, k); }
    }
    forall k | k in a ensures a[k] == b[k] { assert SameAt(a, b, k); }
  }

  /** The factored graph's edges, spelled out for a fresh intermediate. */
  lemma FactoredBetween(g: Graph, parent: RefID, loc: Loc, path: Path, mid: RefID, g1: Graph, g2: Graph,
                        p: RefID, c: RefID)
    requires Valid(g) && parent in g && p in g && c in g && mid !in g
    requires g1.Keys == g.Keys + {mid} && g1[mid].borrowedBy == map[] && forall o :: o in g ==> g1[o] == g[o]
    requires FactorResult(g1, parent, loc, path, mid, g2)
    ensures Between(g2, p, c) == if p == parent then Keep(Between(g, p, c), path) else Between(g, p, c)
    ensures Between(g2, mid, c) == Suffixes(Between(g, parent, c), path)
  {
    assert Between(g1, p, c) == Between(g, p, c) && Between(g1, parent, c) == Between(g, parent, c);
    assert Between(g1, mid, c) == map[];
    assert Suffixes(Between(g, parent, c), path) + map[] == Suffixes(Between(g, parent, c), path);
  }

  lemma UntouchedBetween(g: Graph, mid: RefID, g2: Graph, g3: Graph, p: RefID, c: RefID, parent: RefID)
    requires ComposedBetween(g2, mid, p, c, Between(g2, p, c), Between(g3, p, c))
    requires Between(g2, p, c) == Between(g, p, c) && p != parent
    requires forall q :: IsSplice(g2, mid, q) ==> q.parent == parent
    ensures Between(g3, p, c) == Between(g, p, c)
  {
    assert forall k :: k in Between(g3, p, c) ==> k in Between(g2, p, c);
  }

  /** Only the parent lends to the intermediate, and exactly at the path. */
  lemma LendsOnlyThrough(g: Graph, parent: RefID, loc: Loc, path: Path, mid: RefID, g1: Graph, g2: Graph)
    requires Valid(g) && parent in g && mid !in g && g1.Keys == g.Keys + {mid} && g1[mid].borrowedBy == map[]
    requires forall o :: o in g ==> g1[o] == g[o]
    requires FactorResult(g1, parent, loc, path, mid, g2)
    ensures forall q :: IsSplice(g2, mid, q) ==> q.parent == parent && q.into == EdgeKey(true, path)
    ensures EdgeKey(true, path) in Between(g2, parent, mid)
  {
    forall p: RefID ensures Between(g1, p, mid) == map[] { ConnectedIffEdges(g, p, mid); }
    forall q | IsSplice(g2, mid, q) ensures q.parent == parent && q.into == EdgeKey(true, path) {
      assert Between(g2, q.parent, mid) == FactorBetween(g1, parent, loc, path, mid, q.parent, mid);
    }
    assert Between(g2, parent, mid) == FactorBetween(g1, parent, loc, path, mid, parent, mid);
  }

  lemma RestoredEdge(g: Graph, path: Path, mid: RefID, g2: Graph, g3: Graph, p: RefID, c: RefID, k: EdgeKey)
    requires Valid(g) && p in g && c in g
    requires ComposedBetween(g2, mid, p, c, Between(g2, p, c), Between(g3, p, c))
    requires Between(g2, p, c) == Keep(Between(g, p, c), path)
    requires Between(g2, mid, c) == Suffixes(Between(g, p, c), path)
    requires EdgeKey(true, path) in Between(g2, p, mid)
    requires forall q :: IsSplice(g2, mid, q) ==> q.parent == p && q.into == EdgeKey(true, path)
    ensures k in Between(g3, p, c) <==> k in Between(g, p, c)
    ensures k in Between(g3, p, c) ==> Between(g3, p, c)[k] == Between(g, p, c)[k]
  {
    var edges, after := Between(g, p, c), Between(g3, p, c);
    ConnectedIffEdges(g, p, c);
    if k in edges && Factored(path, k) {
      var short := EdgeKey(k.strong, PathFactor(path, k.path).1);
      SuffixAt(edges, path, short);
      var q := Splice(p, EdgeKey(true, path), c, short);
      assert IsSplice(g2, mid, q) && Compose(q.into, q.out) == k;
    }
    if k in after && k !in Keep(edges, path) { NewEdgeWasThere(edges, after, path, mid, g2, p, c, k); }
  }

  lemma NewEdgeWasThere(edges: EdgeSet, after: EdgeSet, path: Path, mid: RefID, g2: Graph, p: RefID, c: RefID, k: EdgeKey)
    requires Between(g2, mid, c) == Suffixes(edges, path) && k in after
    requires exists q :: IsSplice(g2, mid, q) && q.parent == p && q.child == c && p != c
                           && k == Compose(q.into, q.out) && after[k] == Between(g2, mid, c)[q.out]
    requires forall q :: IsSplice(g2, mid, q) ==> q.parent == p && q.into == EdgeKey(true, path)
    ensures k in edges && after[k] == edges[k]
  {
    var q :| IsSplice(g2, mid, q) && q.parent == p && q.child == c && p != c
             && k == Compose(q.into, q.out) && after[k] == Between(g2, mid, c)[q.out];
    SuffixAt(edges, path, q.out);
    assert Extend(path, q.out) == k;
  }

  lemma IntoIntermediate(g: Graph, parent: RefID, loc: Loc, path: Path, mid: RefID, g1: Graph, g2: Graph, o: RefID)
    requires Valid(g) && parent in g && mid !in g && g1.Keys == g.Keys + {mid} && g1[mid].borrowedBy == map[]
    requires forall o :: o in g ==> g1[o] == g[o]
    requires FactorResult(g1, parent, loc, path, mid, g2)
    ensures Between(g2, o, mid) == if o == parent then map[EdgeKey(true, path) := loc] else map[]
  {
    ConnectedIffEdges(g, o, mid);
    ConnectedIffEdges(g, parent, mid);
    var none: EdgeSet := map[];
    assert Keep(none, path) == none && Suffixes(none, path) == none;
    assert Between(g1, o, mid) == none && Between(g1, parent, mid) == none;
    assert Between(g2, o, mid) == FactorBetween(g1, parent, loc, path, mid, o, mid);
  }

  /** The intermediate is borrowed exactly, from one lender, to which it lends nothing. */
  lemma IntermediateIsSimple(g: Graph, parent: RefID, loc: Loc, path: Path, mid: RefID, g1: Graph, g2: Graph)
    requires Valid(g) && parent in g && mid !in g && g1.Keys == g.Keys + {mid} && g1[mid].borrowedBy == map[]
    requires forall o :: o in g ==> g1[o] == g[o]
    requires FactorResult(g1, parent, loc, path, mid, g2)
    ensures NoRoundTrip(g2, mid) && OnlyStrongInto(g2, mid)
  {
    FactoredBetween(g, parent, loc, path, mid, g1, g2, parent, parent);
    ConnectedIffEdges(g, parent, parent);
    assert Between(g2, mid, parent) == map[];
    forall o: RefID ensures Between(g2, o, mid) == if o == parent then map[EdgeKey(true, path) := loc] else map[] {
      IntoIntermediate(g, parent, loc, path, mid, g1, g2, o);
    }
  }

  /** Factoring changes nothing about the paths borrowed between the references there were. */
  lemma FactorIsSound(g: Graph, parent: RefID, loc: Loc, path: Path, mid: RefID, mutable: bool,
                      g1: Graph, g2: Graph, g3: Graph, u: RefID, v: RefID, p: Path)
    requires Valid(g) && parent in g
    requires NewRefResult(g, mid, mutable, g1) && FactorResult(g1, parent, loc, path, mid, g2)
    requires Valid(g3) && Released(g2, mid, g3)
    requires u != mid && v != mid
    ensures Borrows(g2, u, v, p) <==> Borrows(g, u, v, p)
  {
    FactorThenRelease(g, parent, loc, path, mid, mutable, g1, g2, g3);
    IntermediateIsSimple(g, parent, loc, path, mid, g1, g2);
    ReleaseIsSound(g2, mid, g3, u, v, p);
  }

  // ---------------------------------------------------------------- the order on graphs

  lemma EdgeLeqTransitive(a: EdgeKey, b: EdgeKey, c: EdgeKey)
    requires EdgeLeq(a, b) && EdgeLeq(b, c)
    ensures EdgeLeq(a, c)
  {
  }

  lemma GraphLeqReflexive(g: Graph)
    ensures GraphLeq(g, g)
  {
    forall p: RefID, c: RefID ensures CoversAt(g, g, p, c) {
      assert forall k :: k in Between(g, p, c) ==> EdgeLeq(k, k);
    }
  }

  lemma GraphLeqTransitive(g: Graph, h: Graph, i: Graph)
    requires GraphLeq(g, h) && GraphLeq(h, i)
    ensures GraphLeq(g, i)
  {
    forall p: RefID, c: RefID ensures CoversAt(g, i, p, c) {
      forall k | k in Between(i, p, c) ensures Matched(Between(g, p, c), k) {
        assert CoversAt(h, i, p, c) && CoversAt(g, h, p, c);
        var k1 :| k1 in Between(h, p, c) && EdgeLeq(k1, k);
        var k2 :| k2 in Between(g, p, c) && EdgeLeq(k2, k1);
        EdgeLeqTransitive(k2, k1, k);
      }
    }
  }

  /** A graph that covers another borrows every path the other borrows. */
  lemma {:induction false} LeqCoversPaths(g: Graph, h: Graph, u: RefID, v: RefID, walk: seq<Hop>, parts: seq<Path>)
    requires GraphLeq(g, h) && IsWalk(h, u, v, walk) && Along(walk, parts)
    ensures Borrows(g, u, v, Concat(parts))
    decreases |walk|
  {
    if |walk| == 0 {
      NoHops(g, u);
    } else {
      var hop := walk[0];
      LeqCoversPaths(g, h, hop.child, v, walk[1..], parts[1..]);
      assert CoversAt(g, h, hop.parent, hop.child);
      var k :| k in Between(g, hop.parent, hop.child) && EdgeLeq(k, hop.key);
      EdgeLeqIsContainment(k, hop.key);
      PrependHop(g, Hop(hop.parent, k, hop.child), v, parts[0], Concat(parts[1..]));
    }
  }

  /** The join covers both graphs and lies below everything that does. */
  lemma JoinIsLeastUpperBound(g: Graph, h: Graph, joined: Graph)
    requires IsJoin(g, h, joined)
    ensures GraphLeq(joined, g) && GraphLeq(joined, h)
    ensures forall u: Graph :: GraphLeq(u, g) && GraphLeq(u, h) ==> GraphLeq(u, joined)
  {
    forall p: RefID, c: RefID ensures CoversAt(joined, g, p, c) && CoversAt(joined, h, p, c) {
      JoinCoversAt(g, h, joined, p, c);
    }
    forall u: Graph | GraphLeq(u, g) && GraphLeq(u, h) ensures GraphLeq(u, joined) {
      forall p: RefID, c: RefID ensures CoversAt(u, joined, p, c) {
        assert CoversAt(u, g, p, c) && CoversAt(u, h, p, c);
        assert Between(joined, p, c) == Unmatched(g, h, p, c) + Between(g, p, c);
      }
    }
  }

  lemma JoinCoversAt(g: Graph, h: Graph, joined: Graph, p: RefID, c: RefID)
    requires IsJoin(g, h, joined)
    ensures CoversAt(joined, g, p, c) && CoversAt(joined, h, p, c)
  {
    var edges := Between(joined, p, c);
    assert edges == Unmatched(g, h, p, c) + Between(g, p, c);
    forall k | k in Between(g, p, c) ensures Matched(edges, k) { assert k in edges && EdgeLeq(k, k); }
    forall k | k in Between(h, p, c) ensures Matched(edges, k) {
      if Matched(Between(g, p, c), k) {
        var k' :| k' in Between(g, p, c) && EdgeLeq(k', k);
        assert k' in edges;
      } else {
        assert k in edges && EdgeLeq(k, k);
      }
    }
  }

  ghost predicate Equivalent(g: Graph, h: Graph) {
    GraphLeq(g, h) && GraphLeq(h, g)
  }

  lemma JoinCommutes(g: Graph, h: Graph, gh: Graph, hg: Graph)
    requires IsJoin(g, h, gh) && IsJoin(h, g, hg)
    ensures Equivalent(gh, hg)
  {
    JoinIsLeastUpperBound(g, h, gh);
    JoinIsLeastUpperBound(h, g, hg);
  }

  lemma JoinAssociates(g: Graph, h: Graph, i: Graph, gh: Graph, hi: Graph, left: Graph, right: Graph)
    requires IsJoin(g, h, gh) && IsJoin(gh, i, left)
    requires IsJoin(h, i, hi) && IsJoin(g, hi, right)
    ensures Equivalent(left, right)
  {
    JoinIsLeastUpperBound(g, h, gh);
    JoinIsLeastUpperBound(gh, i, left);
    JoinIsLeastUpperBound(h, i, hi);
    JoinIsLeastUpperBound(g, hi, right);
    GraphLeqTransitive(left, gh, g);
    GraphLeqTransitive(left, gh, h);
    GraphLeqTransitive(right, hi, h);
    GraphLeqTransitive(right, hi, i);
  }

  /** On valid graphs with the same references, the join answers the order: one graph covers
      another exactly when joining the other in changes no edge. */
  lemma LeqIffJoinUnchanged(g: Graph, h: Graph, joined: Graph)
    requires Valid(g) && IsJoin(g, h, joined)
    ensures GraphLeq(g, h) <==> joined == g
  {
    if GraphLeq(g, h) {
      forall p: RefID, c: RefID ensures Between(joined, p, c) == Between(g, p, c) {
        assert CoversAt(g, h, p, c);
        assert Unmatched(g, h, p, c) == map[];
      }
      EdgesDetermineGraph(joined, g);
    }
    if joined == g { JoinIsLeastUpperBound(g, h, joined); }
  }

  /** The same on the object: borrowing a field through a fresh reference and releasing it leaves
      the graph as it was. */
  method BorrowFieldAndRelease(graph: BorrowGraph, parent: RefID, loc: Loc, field: Lbl, id: RefID,
                               mutable: bool)
    requires Valid(graph.refs) && parent in graph.refs && id !in graph.refs
    modifies graph
    ensures graph.refs == old(graph.refs)
  {
    ghost var g := graph.refs;
    ConnectedIffEdges(g, parent, id);
    graph.NewRef(id, mutable);
    ghost var g1 := graph.refs;
    assert Between(g1, parent, id) == Between(g, parent, id);
    graph.AddStrongFieldBorrow(loc, parent, field, id);
    ghost var g2 := graph.refs;
    graph.Release(id);
    FactorThenRelease(g, parent, loc, [field], id, mutable, g1, g2, graph.refs);
  }
}
