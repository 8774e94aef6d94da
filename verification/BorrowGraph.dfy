/** The borrow graph: a map of references, changed in place by adding, factoring, releasing and
    joining. Every operation is specified by the edge sets between each pair of references. */
module BorrowGraph {
  import opened BorrowEdges

  type RefID = nat

  /** A reference: its outgoing edges by borrower, and its lenders. */
  datatype Ref = Ref(
    borrowedBy: map<RefID, EdgeSet>,
    borrowsFrom: set<RefID>,
    mutable: bool)

  type Graph = map<RefID, Ref>

  function Lookup(borrowedBy: map<RefID, EdgeSet>, child: RefID): EdgeSet {
    if child in borrowedBy then borrowedBy[child] else map[]
  }

  /** The edges from `parent` to `child`. */
  function Between(g: Graph, parent: RefID, child: RefID): EdgeSet {
    if parent in g then Lookup(g[parent].borrowedBy, child) else map[]
  }

  // ---------------------------------------------------------------- invariant

  ghost predicate IdConsistency(g: Graph) {
    forall id :: id in g ==>
      && (forall c :: c in g[id].borrowedBy ==> c in g)
      && (forall p :: p in g[id].borrowsFrom ==> p in g)
  }

  ghost predicate EdgeConsistency(g: Graph) {
    forall id :: id in g ==>
      && (forall c :: c in g[id].borrowedBy ==> c in g && id in g[c].borrowsFrom)
      && (forall p :: p in g[id].borrowsFrom ==> p in g && id in g[p].borrowedBy)
  }

  ghost predicate NoSelfLoops(g: Graph) {
    forall id :: id in g ==> id !in g[id].borrowedBy && id !in g[id].borrowsFrom
  }

  ghost predicate NoEmptyEdgeSets(g: Graph) {
    forall id :: id in g ==> forall c :: c in g[id].borrowedBy ==> g[id].borrowedBy[c] != map[]
  }

  ghost predicate CheckInvariant(g: Graph) {
    IdConsistency(g) && EdgeConsistency(g) && NoSelfLoops(g)
  }

  /** The invariant, for one pair of references. */
  ghost predicate ValidAt(g: Graph, p: RefID, c: RefID) {
    && (p in g && c in g[p].borrowedBy ==>
          c in g && p != c && p in g[c].borrowsFrom && g[p].borrowedBy[c] != map[])
    && (c in g && p in g[c].borrowsFrom ==> p in g && p != c && c in g[p].borrowedBy)
  }

  ghost predicate Valid(g: Graph) {
    forall p: RefID, c: RefID :: ValidAt(g, p, c)
  }

  lemma ValidIsInvariant(g: Graph)
    ensures Valid(g) <==> CheckInvariant(g) && NoEmptyEdgeSets(g)
  {
    if Valid(g) {
      forall id, o | id in g && (o in g[id].borrowedBy || o in g[id].borrowsFrom || o == id)
        ensures ValidAt(g, id, o) && ValidAt(g, o, id)
      {
      }
    }
  }

  /** Same references, with the same mutability. */
  ghost predicate SameRefs(g: Graph, h: Graph) {
    g.Keys == h.Keys && forall id :: id in g ==> g[id].mutable == h[id].mutable
  }

  ghost predicate SameEdges(g: Graph, h: Graph) {
    forall p: RefID, c: RefID :: Between(g, p, c) == Between(h, p, c)
  }

  lemma ConnectedIffEdges(g: Graph, p: RefID, c: RefID)
    requires Valid(g)
    ensures Between(g, p, c) != map[] <==> p in g && c in g[p].borrowedBy
    ensures Between(g, p, c) != map[] <==> c in g && p in g[c].borrowsFrom
    ensures Between(g, p, c) != map[] ==> p in g && c in g && p != c
  {
    assert ValidAt(g, p, c);
  }

  /** A valid graph is determined by its references and the edges between them: back edges and
      locations included. */
  lemma EdgesDetermineGraph(g: Graph, h: Graph)
    requires Valid(g) && Valid(h) && SameRefs(g, h) && SameEdges(g, h)
    ensures g == h
  {
    forall id | id in g ensures g[id] == h[id] {
      forall o: RefID
        ensures o in g[id].borrowedBy <==> o in h[id].borrowedBy
        ensures o in g[id].borrowedBy ==> g[id].borrowedBy[o] == h[id].borrowedBy[o]
        ensures o in g[id].borrowsFrom <==> o in h[id].borrowsFrom
      {
        ConnectedIffEdges(g, id, o);
        ConnectedIffEdges(h, id, o);
        ConnectedIffEdges(g, o, id);
        ConnectedIffEdges(h, o, id);
        assert Between(g, id, o) == Between(h, id, o) && Between(g, o, id) == Between(h, o, id);
      }
      assert g[id].borrowedBy == h[id].borrowedBy;
      assert g[id].borrowsFrom == h[id].borrowsFrom;
    }
  }

  // ---------------------------------------------------------------- adding an edge

  function AddEdge(g: Graph, parent: RefID, edge: BorrowEdge, child: RefID)
    : Graph
    requires parent in g && child in g && parent != child
  {
    map o | o in g :: Ref(
      if o == parent then g[o].borrowedBy[child := Insert(Lookup(g[o].borrowedBy, child), edge)] else g[o].borrowedBy,
      if o == child then g[o].borrowsFrom + {parent} else g[o].borrowsFrom,
      g[o].mutable)
  }

  lemma AddEdgeEffect(g: Graph, parent: RefID, edge: BorrowEdge, child: RefID)
    requires Valid(g) && parent in g && child in g && parent != child
    ensures var g' := AddEdge(g, parent, edge, child);
            && Valid(g') && SameRefs(g, g')
            && forall p: RefID, c: RefID ::
                 Between(g', p, c) ==
                   if p == parent && c == child then Insert(Between(g, p, c), edge) else Between(g, p, c)
  {
    var g' := AddEdge(g, parent, edge, child);
    forall p: RefID, c: RefID ensures ValidAt(g', p, c) {
      assert ValidAt(g, p, c);
    }
  }

  // ---------------------------------------------------------------- factoring

  /** `path` is a prefix of the edge's path, so the edge is to go through the intermediate. */
  predicate Factored(path: Path, key: EdgeKey) {
    PathLeq(path, key.path)
  }

  /** The edges that stay when those through `path` are taken out. */
  function Keep(edges: EdgeSet, path: Path): EdgeSet {
    map k | k in edges && !Factored(path, k) :: edges[k]
  }

  /** The edges read from the end of `path`: what the intermediate lends. */
  function Suffixes(edges: EdgeSet, path: Path): EdgeSet {
    map k | k in edges && Factored(path, k) :: EdgeKey(k.strong, PathFactor(path, k.path).1) := edges[k]
  }

  lemma SuffixAt(edges: EdgeSet, path: Path, k: EdgeKey)
    ensures k in Suffixes(edges, path) <==> Extend(path, k) in edges
    ensures k in Suffixes(edges, path) ==> Suffixes(edges, path)[k] == edges[Extend(path, k)]
  {
    var long := Extend(path, k);
    assert Factored(path, long) && PathFactor(path, long.path).1 == k.path;
  }

  /** An edge of the parent, with its borrower, that is to be factored. */
  datatype Factoring = Factoring(child: RefID, edge: BorrowEdge)

  ghost predicate Listed(list: seq<Factoring>, n: nat, child: RefID, key: EdgeKey)
    requires n <= |list|
  {
    exists j :: 0 <= j < n && list[j].child == child && list[j].edge.key == key
  }

  /** The list names every factored edge of the parent once, with its location. */
  ghost predicate NeedsFactored(borrowedBy: map<RefID, EdgeSet>, path: Path,
                                          list: seq<Factoring>)
  {
    && (forall child: RefID, k: EdgeKey ::
          Listed(list, |list|, child, k) <==> k in Lookup(borrowedBy, child) && Factored(path, k))
    && EntriesAreEdges(borrowedBy, list)
    && NoRepeats(list)
  }

  ghost predicate EntriesAreEdges(borrowedBy: map<RefID, EdgeSet>, list: seq<Factoring>) {
    forall j :: 0 <= j < |list| ==>
      var edges := Lookup(borrowedBy, list[j].child);
      list[j].edge.key in edges && list[j].edge.loc == edges[list[j].edge.key]
  }

  ghost predicate NoRepeats(list: seq<Factoring>) {
    forall i, j :: 0 <= i < j < |list| ==>
      list[i].child != list[j].child || list[i].edge.key != list[j].edge.key
  }

  /** What factoring leaves between each pair of references. Existing edges of the intermediate
      win over equal new ones, and keep their locations. */
  function FactorBetween(g: Graph, parent: RefID, loc: Loc, path: Path, mid: RefID,
                                       p: RefID, c: RefID): EdgeSet
  {
    if p == parent then
      var kept := Keep(Between(g, parent, c), path);
      if c == mid then Insert(kept, BorrowEdge(EdgeKey(true, path), loc)) else kept
    else if p == mid then Suffixes(Between(g, parent, c), path) + Between(g, mid, c)
    else Between(g, p, c)
  }

  /** `borrowedBy` with the first `n` listed edges taken out, and no empty edge set left. */
  ghost predicate TakenOut(before: map<RefID, EdgeSet>, after: map<RefID, EdgeSet>,
                                     list: seq<Factoring>, n: nat)
    requires n <= |list|
  {
    && (forall c: RefID, k: EdgeKey ::
          k in Lookup(after, c) <==> k in Lookup(before, c) && !Listed(list, n, c, k))
    && (forall c: RefID, k: EdgeKey :: k in Lookup(after, c) ==> Lookup(after, c)[k] == Lookup(before, c)[k])
    && (forall c :: c in after ==> after[c] != map[])
  }

  /** The same, with the borrowers that have been left without edges. */
  ghost predicate TakingOut(before: map<RefID, EdgeSet>, after: map<RefID, EdgeSet>, cleanupIds: set<RefID>,
                            list: seq<Factoring>, n: nat)
    requires n <= |list|
  {
    && TakenOut(before, after, list, n)
    && cleanupIds == before.Keys - after.Keys && after.Keys <= before.Keys
  }

  /** The graph with the parent's factored edges gone and the back edges cleaned up is valid. */
  lemma CutIsValid(g: Graph, parent: RefID, path: Path, g': Graph,
                             borrowedBy: map<RefID, EdgeSet>)
    requires Valid(g) && parent in g && SameRefs(g, g')
    requires g'[parent].borrowedBy == borrowedBy
    requires forall c: RefID :: Lookup(borrowedBy, c) == Keep(Lookup(g[parent].borrowedBy, c), path)
    requires forall c :: c in borrowedBy ==> borrowedBy[c] != map[]
    requires forall id :: id in g && id != parent ==> g'[id].borrowedBy == g[id].borrowedBy
    requires forall id :: id in g ==>
               var dropped := if id in g[parent].borrowedBy && id !in borrowedBy then {parent} else {};
               g'[id].borrowsFrom == g[id].borrowsFrom - dropped
    ensures Valid(g')
    ensures forall p: RefID, c: RefID :: Between(g', p, c) ==
              if p == parent then Keep(Between(g, p, c), path) else Between(g, p, c)
  {
    forall p: RefID, c: RefID ensures ValidAt(g', p, c) {
      assert ValidAt(g, p, c);
      if p == parent {
        assert Lookup(borrowedBy, c) == Keep(Lookup(g[parent].borrowedBy, c), path);
      }
    }
  }

  function WithoutLender(g: Graph, children: set<RefID>, lender: RefID): Graph {
    map o | o in g :: if o in children then g[o].(borrowsFrom := g[o].borrowsFrom - {lender}) else g[o]
  }

  // ---------------------------------------------------------------- the graph object

  class BorrowGraph {
    var refs: Graph

    constructor ()
      ensures refs == map[]
    {
      refs := map[];
    }

    /** Adds a reference; the id must be unused. */
    method NewRef(id: RefID, mutable: bool)
      requires id !in refs && Valid(refs)
      modifies this
      ensures Valid(refs)
      ensures refs.Keys == old(refs).Keys + {id} && refs[id] == Ref(map[], {}, mutable)
      ensures forall o :: o in old(refs) ==> refs[o] == old(refs)[o]
    {
      ghost var g := refs;
      refs := refs[id := Ref(map[], {}, mutable)];
      forall p: RefID, c: RefID ensures ValidAt(refs, p, c) {
        assert ValidAt(g, p, c);
      }
    }

    method AddEdgeInPlace(parent: RefID, edge: BorrowEdge, child: RefID)
      requires parent in refs && child in refs && parent != child
      modifies this
      ensures refs == AddEdge(old(refs), parent, edge, child)
    {
      var edges := if child in refs[parent].borrowedBy then refs[parent].borrowedBy[child] else map[];
      if edge.key !in edges {
        edges := edges[edge.key := edge.loc];
      }
      refs := refs[parent := refs[parent].(borrowedBy := refs[parent].borrowedBy[child := edges])];
      refs := refs[child := refs[child].(borrowsFrom := refs[child].borrowsFrom + {parent})];
    }

    /** The parent's edges whose path starts with `path`. */
    method CollectFactored(parent: RefID, path: Path) returns (list: seq<Factoring>)
      requires parent in refs
      ensures NeedsFactored(refs[parent].borrowedBy, path, list)
    {
      var borrowedBy := refs[parent].borrowedBy;
      list := [];
      var children := borrowedBy.Keys;
      while children != {}
        invariant children <= borrowedBy.Keys
        invariant forall c: RefID, k: EdgeKey :: Listed(list, |list|, c, k) <==>
          c !in children && k in Lookup(borrowedBy, c) && Factored(path, k)
        invariant EntriesAreEdges(borrowedBy, list) && NoRepeats(list)
        decreases children
      {
        var child :| child in children;
        var keys := borrowedBy[child].Keys;
        while keys != {}
          invariant keys <= borrowedBy[child].Keys
          invariant forall c: RefID, k: EdgeKey :: Listed(list, |list|, c, k) <==>
            && k in Lookup(borrowedBy, c) && Factored(path, k)
            && (c !in children || (c == child && k !in keys))
          invariant EntriesAreEdges(borrowedBy, list) && NoRepeats(list)
          decreases keys
        {
          var key :| key in keys;
          if PathLeq(path, key.path) {
            ghost var shorter := list;
            assert !Listed(list, |list|, child, key);
            list := list + [Factoring(child, BorrowEdge(key, borrowedBy[child][key]))];
            forall c: RefID, k: EdgeKey
              ensures Listed(list, |list|, c, k) <==> Listed(shorter, |shorter|, c, k) || (c == child && k == key)
            {
              ListedAppend(shorter, list[|shorter|], c, k);
            }
          }
          keys := keys - {key};
        }
        children := children - {child};
      }
    }

    /** Takes the listed edges out, dropping borrowers left without edges. */
    static method TakeOutAll(before: map<RefID, EdgeSet>, ghost path: Path, list: seq<Factoring>)
      returns (borrowedBy: map<RefID, EdgeSet>, cleanupIds: set<RefID>)
      requires NeedsFactored(before, path, list) && forall c :: c in before ==> before[c] != map[]
      ensures forall c: RefID :: Lookup(borrowedBy, c) == Keep(Lookup(before, c), path)
      ensures forall c :: c in borrowedBy ==> borrowedBy[c] != map[]
      ensures cleanupIds == before.Keys - borrowedBy.Keys && borrowedBy.Keys <= before.Keys
    {
      borrowedBy, cleanupIds := before, {};
      for i := 0 to |list|
        invariant TakingOut(before, borrowedBy, cleanupIds, list, i)
      {
        borrowedBy, cleanupIds := TakeOutOne(before, path, list, i, borrowedBy, cleanupIds);
      }
      KeepsRest(before, borrowedBy, path, list);
    }

    static method TakeOutOne(ghost before: map<RefID, EdgeSet>, ghost path: Path, list: seq<Factoring>, i: nat,
                             borrowedBy: map<RefID, EdgeSet>, cleanupIds: set<RefID>)
      returns (borrowedBy': map<RefID, EdgeSet>, cleanupIds': set<RefID>)
      requires NeedsFactored(before, path, list) && i < |list|
      requires TakingOut(before, borrowedBy, cleanupIds, list, i)
      ensures TakingOut(before, borrowedBy', cleanupIds', list, i + 1)
    {
      var child, key := list[i].child, list[i].edge.key;
      NotListedYet(before, path, list, i);
      assert key in Lookup(borrowedBy, child);
      var edges := borrowedBy[child] - {key};
      if edges == map[] {
        borrowedBy', cleanupIds' := borrowedBy - {child}, cleanupIds + {child};
      } else {
        borrowedBy', cleanupIds' := borrowedBy[child := edges], cleanupIds;
      }
      TakeOutNext(before, borrowedBy, borrowedBy', list, i);
    }

    method RemoveFactored(parent: RefID, ghost path: Path, list: seq<Factoring>)
      requires Valid(refs) && parent in refs
      requires NeedsFactored(refs[parent].borrowedBy, path, list)
      modifies this
      ensures Valid(refs) && SameRefs(old(refs), refs)
      ensures forall p: RefID, c: RefID :: Between(refs, p, c) ==
                if p == parent then Keep(Between(old(refs), p, c), path) else Between(old(refs), p, c)
    {
      ghost var g := refs;
      forall c | c in g[parent].borrowedBy ensures c in g && g[parent].borrowedBy[c] != map[] {
        assert ValidAt(g, parent, c);
      }
      var borrowedBy, cleanupIds := TakeOutAll(refs[parent].borrowedBy, path, list);
      refs := refs[parent := refs[parent].(borrowedBy := borrowedBy)];
      ForgetLender(cleanupIds, parent);
      CutIsValid(g, parent, path, refs, borrowedBy);
    }

    /** Drops a back edge from each of the given references. */
    method ForgetLender(children: set<RefID>, lender: RefID)
      requires children <= refs.Keys
      modifies this
      ensures refs == WithoutLender(old(refs), children, lender)
    {
      ghost var g := refs;
      var todo := children;
      while todo != {}
        invariant todo <= children <= refs.Keys
        invariant refs == WithoutLender(g, children - todo, lender)
        decreases todo
      {
        var child :| child in todo;
        ghost var before := refs;
        refs := refs[child := refs[child].(borrowsFrom := refs[child].borrowsFrom - {lender})];
        todo := todo - {child};
        forall o | o in g ensures refs[o] == WithoutLender(g, children - todo, lender)[o] {
          assert before[o] == WithoutLender(g, children - todo - {child}, lender)[o];
        }
      }
    }

    /** Puts `mid` between the parent and everything it lends through `path`: the parent's edges
        that extend `path` become edges of `mid`, and `mid` borrows exactly `path`. */
    method Factor(parent: RefID, loc: Loc, path: Path, mid: RefID)
      requires Valid(refs) && parent in refs && mid in refs && parent != mid
      requires forall k :: k in Between(refs, parent, mid) ==> !Factored(path, k)
      modifies this
      ensures Valid(refs) && SameRefs(old(refs), refs)
      ensures forall p: RefID, c: RefID ::
                Between(refs, p, c) == FactorBetween(old(refs), parent, loc, path, mid, p, c)
    {
      ghost var g := refs;
      var list := CollectFactored(parent, path);
      RemoveFactored(parent, path, list);
      ghost var cut := refs;
      MoveEdges(g, parent, path, mid, list);
      FactorDone(g, cut, refs, parent, loc, path, mid, list);
      AddEdgeInPlace(parent, BorrowEdge(EdgeKey(true, path), loc), mid);
    }

    /** The parent's factored edges become edges of `mid`; `g` is the graph before they were taken. */
    method MoveEdges(ghost g: Graph, ghost parent: RefID, path: Path, mid: RefID, list: seq<Factoring>)
      requires Valid(g) && parent in g && mid in g && parent != mid
      requires NeedsFactored(g[parent].borrowedBy, path, list)
      requires forall k :: k in Between(g, parent, mid) ==> !Factored(path, k)
      requires Valid(refs) && SameRefs(g, refs)
      requires forall p: RefID, c: RefID :: Between(refs, p, c) ==
                 if p == parent then Keep(Between(g, p, c), path) else Between(g, p, c)
      modifies this
      ensures Valid(refs) && SameRefs(g, refs)
      ensures Progress(g, old(refs), refs, parent, path, mid, list, |list|)
    {
      ghost var cut := refs;
      for i := 0 to |list|
        invariant Valid(refs) && SameRefs(g, refs)
        invariant Progress(g, cut, refs, parent, path, mid, list, i)
      {
        MoveEdge(g, cut, parent, path, mid, list, i);
      }
    }

    /** Replaces one path through the released reference, unless it leads back to its start. */
    method SpliceOutIntermediate(parent: RefID, into: BorrowEdge, child: RefID, out: BorrowEdge)
      requires parent in refs && child in refs
      modifies this
      ensures refs == SpliceOut(old(refs), Splice(parent, into.key, child, out.key), out.loc)
    {
      if parent == child { return; }
      var path := if into.key.strong then PathAppend(into.key.path, out.key.path) else into.key.path;
      AddEdgeInPlace(parent, BorrowEdge(EdgeKey(into.key.strong && out.key.strong, path), out.loc), child);
    }

    /** `child` borrows exactly what `parent` refers to. */
    method AddStrongBorrow(loc: Loc, parent: RefID, child: RefID)
      requires Valid(refs) && parent in refs && child in refs && parent != child
      requires Between(refs, parent, child) == map[]
      modifies this
      ensures Valid(refs) && SameRefs(old(refs), refs)
      ensures forall p: RefID, c: RefID :: Between(refs, p, c) == FactorBetween(old(refs), parent, loc, [], child, p, c)
    {
      Factor(parent, loc, [], child);
    }

    method AddStrongFieldBorrow(loc: Loc, parent: RefID, field: Lbl, child: RefID)
      requires Valid(refs) && parent in refs && child in refs && parent != child
      requires forall k :: k in Between(refs, parent, child) ==> !Factored([field], k)
      modifies this
      ensures Valid(refs) && SameRefs(old(refs), refs)
      ensures forall p: RefID, c: RefID ::
                Between(refs, p, c) == FactorBetween(old(refs), parent, loc, [field], child, p, c)
    {
      Factor(parent, loc, [field], child);
    }

    /** `child` borrows from anywhere below `path` in `parent`. */
    method AddWeakBorrow(loc: Loc, parent: RefID, path: Path, child: RefID)
      requires Valid(refs) && parent in refs && child in refs && parent != child
      modifies this
      ensures Valid(refs) && SameRefs(old(refs), refs)
      ensures forall p: RefID, c: RefID :: Between(refs, p, c) ==
                if p == parent && c == child
                then Insert(Between(old(refs), p, c), BorrowEdge(EdgeKey(false, path), loc))
                else Between(old(refs), p, c)
    {
      AddEdgeEffect(refs, parent, BorrowEdge(EdgeKey(false, path), loc), child);
      AddEdgeInPlace(parent, BorrowEdge(EdgeKey(false, path), loc), child);
    }

    /** Moves one factored edge from the parent to the intermediate. */
    method MoveEdge(ghost g: Graph, ghost cut: Graph, ghost parent: RefID, path: Path, mid: RefID,
                    list: seq<Factoring>, i: nat)
      requires Valid(g) && parent in g && mid in g && i < |list|
      requires NeedsFactored(g[parent].borrowedBy, path, list)
      requires forall k :: k in Between(g, parent, mid) ==> !Factored(path, k)
      requires Valid(refs) && SameRefs(g, refs) && Progress(g, cut, refs, parent, path, mid, list, i)
      modifies this
      ensures Valid(refs) && SameRefs(g, refs) && Progress(g, cut, refs, parent, path, mid, list, i + 1)
    {
      var child, edge := list[i].child, list[i].edge;
      ListedChildIsValid(g, parent, path, mid, list, i);
      var moved := BorrowEdge(EdgeKey(edge.key.strong, PathFactor(path, edge.key.path).1), edge.loc);
      AddEdgeEffect(refs, mid, moved, child);
      ProgressStep(g, cut, refs, AddEdge(refs, mid, moved, child), parent, path, mid, list, i, moved);
      AddEdgeInPlace(mid, moved, child);
    }

    /** Splices one path and records it. */
    method SplicePath(ghost g: Graph, id: RefID, ghost parents: set<RefID>, ghost clean: Graph, ghost done: set<Splice>,
                      parent: RefID, into: BorrowEdge, child: RefID, out: BorrowEdge)
      returns (ghost clean': Graph, ghost done': set<Splice>)
      requires Valid(g) && id in g && parent !in parents
      requires IsSplice(g, id, Splice(parent, into.key, child, out.key)) && Between(g, id, child)[out.key] == out.loc
      requires Spliced(g, id, done, clean) && refs == Dirty(g, id, parents, clean)
      modifies this
      ensures Spliced(g, id, done', clean') && refs == Dirty(g, id, parents, clean')
      ensures done' == done + {Splice(parent, into.key, child, out.key)}
    {
      ghost var q := Splice(parent, into.key, child, out.key);
      SpliceStep(g, id, done, clean, q);
      DirtySplice(g, id, parents, clean, q, out.loc);
      SpliceOutIntermediate(parent, into, child, out);
      clean' := SpliceOut(clean, q, out.loc);
      done' := done + {q};
    }

    /** Takes out a lender's edges to the released reference. */
    method TakeEdges(ghost g: Graph, id: RefID, ghost parents: set<RefID>, ghost clean: Graph, parent: RefID)
      returns (edges: EdgeSet)
      requires Valid(g) && id in g && parent in parents && parent in g[id].borrowsFrom
      requires Valid(clean) && clean.Keys == g.Keys - {id} && refs == Dirty(g, id, parents, clean)
      modifies this
      ensures edges == Between(g, parent, id) && refs == Dirty(g, id, parents - {parent}, clean)
    {
      ConnectedIffEdges(g, parent, id);
      edges := refs[parent].borrowedBy[id];
      refs := refs[parent := refs[parent].(borrowedBy := refs[parent].borrowedBy - {id})];
      DirtyParentDone(g, id, parents, parent, clean);
    }

    /** Splices one edge into the released reference with every edge out of it. The ghost values
        are the graph as it will be once the back edges are cleaned up, and the paths handled. */
    method SpliceEdge(ghost g: Graph, id: RefID, ghost parents: set<RefID>, ghost clean: Graph, ghost done: set<Splice>,
                      parent: RefID, into: BorrowEdge, borrowedBy: map<RefID, EdgeSet>)
      returns (ghost clean': Graph, ghost done': set<Splice>)
      requires Valid(g) && id in g && borrowedBy == g[id].borrowedBy
      requires into.key in Between(g, parent, id) && parent !in parents
      requires Spliced(g, id, done, clean) && refs == Dirty(g, id, parents, clean)
      modifies this
      ensures Spliced(g, id, done', clean') && refs == Dirty(g, id, parents, clean')
      ensures forall q :: q in done' <==>
                q in done || (IsSplice(g, id, q) && q.parent == parent && q.into == into.key)
    {
      clean', done' := clean, done;
      SpliceEnds(g, id);
      var children := borrowedBy.Keys;
      while children != {}
        invariant children <= borrowedBy.Keys
        invariant Spliced(g, id, done', clean') && refs == Dirty(g, id, parents, clean')
        invariant forall q :: q in done' <==>
          || q in done
          || (IsSplice(g, id, q) && q.parent == parent && q.into == into.key && q.child !in children)
        decreases children
      {
        var child :| child in children;
        children := children - {child};
        var outs := borrowedBy[child].Keys;
        while outs != {}
          invariant outs <= borrowedBy[child].Keys
          invariant Spliced(g, id, done', clean') && refs == Dirty(g, id, parents, clean')
          invariant forall q :: q in done' <==>
            || q in done
            || (IsSplice(g, id, q) && q.parent == parent && q.into == into.key && q.child !in children
                && (q.child == child ==> q.out !in outs))
          decreases outs
        {
          var out :| out in outs;
          outs := outs - {out};
          clean', done' := SplicePath(g, id, parents, clean', done', parent, into, child,
                                      BorrowEdge(out, borrowedBy[child][out]));
        }
      }
    }

    /** Removes a reference; each path through it becomes an edge of its lender. */
    method Release(id: RefID)
      requires Valid(refs) && id in refs
      modifies this
      ensures Valid(refs) && Released(old(refs), id, refs)
    {
      ghost var g := refs;
      ghost var clean, done := Detach(g, id), {};
      DetachIsValid(g, id);
      var borrowedBy, borrowsFrom := refs[id].borrowedBy, refs[id].borrowsFrom;
      refs := refs - {id};
      var parents := borrowsFrom;
      DirtyAtStart(g, id);
      SpliceEnds(g, id);
      while parents != {}
        invariant parents <= borrowsFrom
        invariant Spliced(g, id, done, clean) && refs == Dirty(g, id, parents, clean)
        invariant forall q :: q in done <==> IsSplice(g, id, q) && q.parent !in parents
        decreases parents
      {
        var parent :| parent in parents;
        var parentEdges := TakeEdges(g, id, parents, clean, parent);
        parents := parents - {parent};
        var intos := parentEdges.Keys;
        while intos != {}
          invariant intos <= parentEdges.Keys
          invariant Spliced(g, id, done, clean) && refs == Dirty(g, id, parents, clean)
          invariant forall q :: q in done <==>
            IsSplice(g, id, q) && q.parent !in parents && (q.parent == parent ==> q.into !in intos)
          decreases intos
        {
          var into :| into in intos;
          clean, done := SpliceEdge(g, id, parents, clean, done, parent, BorrowEdge(into, parentEdges[into]), borrowedBy);
          intos := intos - {into};
        }
      }
      forall c | c in borrowedBy ensures c in refs { ConnectedIffEdges(g, id, c); }
      ForgetLender(borrowedBy.Keys, id);
      CleanAtEnd(g, id, clean);
      SplicedIsReleased(g, id, done, clean);
    }

    /** The other graph's edges that no edge of this one is below. */
    method UnmatchedEdges(other: Graph) returns (list: seq<Arc>)
      requires Valid(other) && other.Keys <= refs.Keys
      ensures forall p: RefID, c: RefID, k: EdgeKey ::
                ListedArc(list, |list|, p, c, k) <==> k in Unmatched(refs, other, p, c)
      ensures ArcsFrom(other, list)
    {
      list := [];
      var parents := other.Keys;
      while parents != {}
        invariant parents <= other.Keys && ArcsFrom(other, list)
        invariant forall p: RefID, c: RefID, k: EdgeKey :: ListedArc(list, |list|, p, c, k) <==>
          k in Unmatched(refs, other, p, c) && p !in parents
        decreases parents
      {
        var parent :| parent in parents;
        parents := parents - {parent};
        var children := other[parent].borrowedBy.Keys;
        while children != {}
          invariant children <= other[parent].borrowedBy.Keys && ArcsFrom(other, list)
          invariant forall p: RefID, c: RefID, k: EdgeKey :: ListedArc(list, |list|, p, c, k) <==>
            k in Unmatched(refs, other, p, c) && p !in parents && (p == parent ==> c !in children)
          decreases children
        {
          var child :| child in children;
          children := children - {child};
          list := ListUnmatched(other, list, parents, children, parent, child);
        }
      }
    }

    method ListUnmatched(other: Graph, start: seq<Arc>, ghost parents: set<RefID>, ghost children: set<RefID>,
                         parent: RefID, child: RefID) returns (list: seq<Arc>)
      requires parent in other && child in other[parent].borrowedBy && parent in refs
      requires parent !in parents && child !in children
      requires ArcsFrom(other, start)
      requires forall p: RefID, c: RefID, k: EdgeKey :: ListedArc(start, |start|, p, c, k) <==>
        && k in Unmatched(refs, other, p, c)
        && p !in parents && (p == parent ==> c !in children && c != child)
      ensures ArcsFrom(other, list)
      ensures forall p: RefID, c: RefID, k: EdgeKey :: ListedArc(list, |list|, p, c, k) <==>
        k in Unmatched(refs, other, p, c) && p !in parents && (p == parent ==> c !in children)
    {
      list := start;
      var edges := other[parent].borrowedBy[child];
      var own := if child in refs[parent].borrowedBy then refs[parent].borrowedBy[child] else map[];
      var todo := edges.Keys;
      while todo != {}
        invariant todo <= edges.Keys && ArcsFrom(other, list)
        invariant forall p: RefID, c: RefID, k: EdgeKey :: ListedArc(list, |list|, p, c, k) <==>
          && k in Unmatched(refs, other, p, c)
          && p !in parents && (p == parent ==> c !in children && (c == child ==> k !in todo))
        decreases todo
      {
        var key :| key in todo;
        todo := todo - {key};
        if !Matched(own, key) {
          ghost var shorter := list;
          list := list + [Arc(parent, child, BorrowEdge(key, edges[key]))];
          forall p: RefID, c: RefID, k: EdgeKey
            ensures ListedArc(list, |list|, p, c, k) <==>
                      ListedArc(shorter, |shorter|, p, c, k) || (p == parent && c == child && k == key)
          {
            ListedArcAppend(shorter, list[|shorter|], p, c, k);
          }
        }
      }
    }

    /** Whether this graph covers the other. */
    method Leq(other: BorrowGraph) returns (r: bool)
      requires Valid(other.refs) && other.refs.Keys <= refs.Keys
      ensures r <==> GraphLeq(refs, other.refs)
    {
      var unmatched := UnmatchedEdges(other.refs);
      r := |unmatched| == 0;
      if !r {
        var a := unmatched[0];
        assert ListedArc(unmatched, |unmatched|, a.parent, a.child, a.edge.key);
        assert !CoversAt(refs, other.refs, a.parent, a.child);
      } else {
        forall p: RefID, c: RefID ensures CoversAt(refs, other.refs, p, c) {
          forall k | k in Between(other.refs, p, c) ensures Matched(Between(refs, p, c), k) {
            assert !ListedArc(unmatched, |unmatched|, p, c, k);
          }
        }
      }
    }

    /** A new graph with this one's edges and the unmatched edges of the other. */
    method Join(other: BorrowGraph) returns (joined: BorrowGraph)
      requires Valid(refs) && Valid(other.refs) && refs.Keys == other.refs.Keys
      ensures fresh(joined) && unchanged(this)
      ensures IsJoin(refs, other.refs, joined.refs)
    {
      joined := new BorrowGraph();
      joined.refs := refs;
      var unmatched := UnmatchedEdges(other.refs);
      for i := 0 to |unmatched|
        invariant Valid(joined.refs) && SameRefs(refs, joined.refs)
        invariant JoinProgress(refs, other.refs, joined.refs, unmatched, i)
      {
        var arc := unmatched[i];
        ConnectedIffEdges(other.refs, arc.parent, arc.child);
        AddEdgeEffect(joined.refs, arc.parent, arc.edge, arc.child);
        JoinStep(refs, other.refs, joined.refs, unmatched, i);
        joined.AddEdgeInPlace(arc.parent, arc.edge, arc.child);
      }
      JoinDone(refs, other.refs, joined.refs, unmatched);
    }
  }

  // ---------------------------------------------------------------- comparing and joining

  datatype Arc = Arc(parent: RefID, child: RefID, edge: BorrowEdge)

  predicate Matched(edges: EdgeSet, other: EdgeKey) {
    exists k :: k in edges && EdgeLeq(k, other)
  }

  function Unmatched(g: Graph, other: Graph, p: RefID, c: RefID): EdgeSet {
    map k | k in Between(other, p, c) && !Matched(Between(g, p, c), k) :: Between(other, p, c)[k]
  }

  ghost predicate CoversAt(g: Graph, other: Graph, p: RefID, c: RefID) {
    forall k :: k in Between(other, p, c) ==> Matched(Between(g, p, c), k)
  }

  /** Each edge of the other graph has an edge of this one below it. */
  ghost predicate GraphLeq(g: Graph, other: Graph) {
    forall p: RefID, c: RefID :: CoversAt(g, other, p, c)
  }

  /** The join: this graph's edges, and those of the other that this one does not cover. */
  ghost predicate IsJoin(g: Graph, other: Graph, joined: Graph) {
    && Valid(joined) && SameRefs(g, joined)
    && forall p: RefID, c: RefID :: Between(joined, p, c) == Unmatched(g, other, p, c) + Between(g, p, c)
  }

  ghost predicate ListedArc(list: seq<Arc>, n: nat, p: RefID, c: RefID, k: EdgeKey)
    requires n <= |list|
  {
    exists j :: 0 <= j < n && list[j].parent == p && list[j].child == c && list[j].edge.key == k
  }

  ghost predicate ArcsFrom(g: Graph, list: seq<Arc>) {
    forall j :: 0 <= j < |list| ==>
      var edges := Between(g, list[j].parent, list[j].child);
      list[j].edge.key in edges && list[j].edge.loc == edges[list[j].edge.key]
  }

  lemma ListedArcAppend(list: seq<Arc>, x: Arc, p: RefID, c: RefID, k: EdgeKey)
    ensures ListedArc(list + [x], |list| + 1, p, c, k) <==>
              ListedArc(list, |list|, p, c, k) || (x.parent == p && x.child == c && x.edge.key == k)
  {
    var longer := list + [x];
    if ListedArc(list, |list|, p, c, k) {
      var j :| 0 <= j < |list| && list[j].parent == p && list[j].child == c && list[j].edge.key == k;
      assert longer[j] == list[j];
    }
    if x.parent == p && x.child == c && x.edge.key == k { assert longer[|list|] == x; }
    if ListedArc(longer, |list| + 1, p, c, k) {
      var j :| 0 <= j < |list| + 1 && longer[j].parent == p && longer[j].child == c && longer[j].edge.key == k;
      assert j < |list| ==> list[j] == longer[j];
    }
  }

  ghost predicate JoinProgress(g: Graph, other: Graph, now: Graph, list: seq<Arc>, n: nat)
    requires n <= |list|
  {
    forall p: RefID, c: RefID :: JoinedAt(Between(g, p, c), Between(other, p, c), Between(now, p, c), list, n, p, c)
  }

  ghost predicate JoinedAt(before: EdgeSet, other: EdgeSet, now: EdgeSet, list: seq<Arc>, n: nat, p: RefID, c: RefID)
    requires n <= |list|
  {
    && (forall k :: k in now <==> k in before || ListedArc(list, n, p, c, k))
    && (forall k :: k in before ==> now[k] == before[k])
    && (forall k :: k in now && k !in before ==> k in other && now[k] == other[k])
  }

  lemma JoinedNext(before: EdgeSet, other: EdgeSet, now: EdgeSet, next: EdgeSet, list: seq<Arc>, i: nat,
                   p: RefID, c: RefID)
    requires i < |list| && JoinedAt(before, other, now, list, i, p, c)
    requires var here := p == list[i].parent && c == list[i].child;
             && next == (if here then Insert(now, list[i].edge) else now)
             && (here ==> list[i].edge.key in other && list[i].edge.loc == other[list[i].edge.key])
    ensures JoinedAt(before, other, next, list, i + 1, p, c)
  {
    forall k: EdgeKey ensures ListedArc(list, i + 1, p, c, k) <==>
      ListedArc(list, i, p, c, k) || (list[i].parent == p && list[i].child == c && list[i].edge.key == k)
    {
    }
  }

  lemma JoinStep(g: Graph, other: Graph, now: Graph, list: seq<Arc>, i: nat)
    requires i < |list| && ArcsFrom(other, list) && JoinProgress(g, other, now, list, i)
    requires Valid(now) && list[i].parent in now && list[i].child in now && list[i].parent != list[i].child
    ensures JoinProgress(g, other, AddEdge(now, list[i].parent, list[i].edge, list[i].child), list, i + 1)
  {
    var arc := list[i];
    var next := AddEdge(now, arc.parent, arc.edge, arc.child);
    AddEdgeEffect(now, arc.parent, arc.edge, arc.child);
    forall p: RefID, c: RefID
      ensures JoinedAt(Between(g, p, c), Between(other, p, c), Between(next, p, c), list, i + 1, p, c)
    {
      assert Between(next, p, c) ==
        if p == arc.parent && c == arc.child then Insert(Between(now, p, c), arc.edge) else Between(now, p, c);
      JoinedNext(Between(g, p, c), Between(other, p, c), Between(now, p, c), Between(next, p, c), list, i, p, c);
    }
  }

  lemma JoinDone(g: Graph, other: Graph, now: Graph, list: seq<Arc>)
    requires JoinProgress(g, other, now, list, |list|)
    requires forall p: RefID, c: RefID, k: EdgeKey ::
               ListedArc(list, |list|, p, c, k) <==> k in Unmatched(g, other, p, c)
    ensures forall p: RefID, c: RefID :: Between(now, p, c) == Unmatched(g, other, p, c) + Between(g, p, c)
  {
    forall p: RefID, c: RefID ensures Between(now, p, c) == Unmatched(g, other, p, c) + Between(g, p, c) {
      assert JoinedAt(Between(g, p, c), Between(other, p, c), Between(now, p, c), list, |list|, p, c);
    }
  }

  lemma SplicedIsReleased(g: Graph, id: RefID, done: set<Splice>, clean: Graph)
    requires Spliced(g, id, done, clean)
    requires forall q :: q in done <==> IsSplice(g, id, q)
    ensures Released(g, id, clean)
  {
    forall p: RefID, c: RefID | p in clean && c in clean
      ensures ComposedBetween(g, id, p, c, Between(g, p, c), Between(clean, p, c))
    {
      assert SplicedBetween(g, id, done, p, c, Between(g, p, c), Between(clean, p, c));
    }
  }

  // ---------------------------------------------------------------- releasing

  /** One path through a released reference: an edge into it and an edge out of it. */
  datatype Splice = Splice(parent: RefID, into: EdgeKey, child: RefID, out: EdgeKey)

  ghost predicate IsSplice(g: Graph, id: RefID, q: Splice) {
    q.into in Between(g, q.parent, id) && q.out in Between(g, id, q.child)
  }

  function SpliceOut(g: Graph, q: Splice, loc: Loc): Graph
    requires q.parent in g && q.child in g
  {
    if q.parent == q.child then g else AddEdge(g, q.parent, BorrowEdge(Compose(q.into, q.out), loc), q.child)
  }

  /** What releasing leaves: the other references; between any two of them the edges there were,
      unchanged, and the composition of every path through the released one. A new edge carries
      the location of some edge out of the released reference that it comes from. */
  ghost predicate Released(g: Graph, id: RefID, g': Graph) {
    && g'.Keys == g.Keys - {id}
    && (forall o :: o in g' ==> g'[o].mutable == g[o].mutable)
    && forall p: RefID, c: RefID :: p in g' && c in g' ==>
         ComposedBetween(g, id, p, c, Between(g, p, c), Between(g', p, c))
  }

  ghost predicate ComposedBetween(g: Graph, id: RefID, p: RefID, c: RefID, before: EdgeSet, after: EdgeSet) {
    && (forall k :: k in before ==> k in after && after[k] == before[k])
    && (forall q :: IsSplice(g, id, q) && q.parent == p && q.child == c && p != c ==> Compose(q.into, q.out) in after)
    && (forall k :: k in after && k !in before ==>
          exists q :: IsSplice(g, id, q) && q.parent == p && q.child == c && p != c
                        && k == Compose(q.into, q.out) && after[k] == Between(g, id, c)[q.out])
  }

  /** The graph without the reference and without any edge to or from it. */
  function Detach(g: Graph, id: RefID): Graph {
    map o | o in g && o != id :: Ref(g[o].borrowedBy - {id}, g[o].borrowsFrom - {id}, g[o].mutable)
  }

  lemma DetachIsValid(g: Graph, id: RefID)
    requires Valid(g)
    ensures Valid(Detach(g, id)) && Spliced(g, id, {}, Detach(g, id))
  {
    forall p: RefID, c: RefID ensures ValidAt(Detach(g, id), p, c) { assert ValidAt(g, p, c); }
  }

  /** The clean graph's edges after the paths in `done` have been replaced. */
  ghost predicate Spliced(g: Graph, id: RefID, done: set<Splice>, clean: Graph) {
    && Valid(clean)
    && clean.Keys == g.Keys - {id}
    && (forall o :: o in clean ==> clean[o].mutable == g[o].mutable)
    && forall p: RefID, c: RefID :: p in clean && c in clean ==>
         SplicedBetween(g, id, done, p, c, Between(g, p, c), Between(clean, p, c))
  }

  ghost predicate SplicedBetween(g: Graph, id: RefID, done: set<Splice>, p: RefID, c: RefID,
                                 before: EdgeSet, after: EdgeSet)
  {
    && (forall k :: k in before ==> k in after && after[k] == before[k])
    && (forall q :: q in done && q.parent == p && q.child == c && p != c ==> Compose(q.into, q.out) in after)
    && (forall k :: k in after && k !in before ==>
          exists q :: q in done && IsSplice(g, id, q) && q.parent == p && q.child == c && p != c
                        && k == Compose(q.into, q.out) && after[k] == Between(g, id, c)[q.out])
  }

  lemma SpliceStep(g: Graph, id: RefID, done: set<Splice>, clean: Graph, q: Splice)
    requires Valid(g) && Spliced(g, id, done, clean) && IsSplice(g, id, q)
    ensures q.parent in clean && q.child in clean
    ensures Spliced(g, id, done + {q}, SpliceOut(clean, q, Between(g, id, q.child)[q.out]))
  {
    ConnectedIffEdges(g, q.parent, id);
    ConnectedIffEdges(g, id, q.child);
    var loc := Between(g, id, q.child)[q.out];
    var clean' := SpliceOut(clean, q, loc);
    if q.parent != q.child {
      AddEdgeEffect(clean, q.parent, BorrowEdge(Compose(q.into, q.out), loc), q.child);
    }
    forall p: RefID, c: RefID | p in clean' && c in clean'
      ensures SplicedBetween(g, id, done + {q}, p, c, Between(g, p, c), Between(clean', p, c))
    {
      assert SplicedBetween(g, id, done, p, c, Between(g, p, c), Between(clean, p, c));
      if p == q.parent && c == q.child && p != c {
        assert Between(clean', p, c) == Insert(Between(clean, p, c), BorrowEdge(Compose(q.into, q.out), loc));
      } else {
        assert Between(clean', p, c) == Between(clean, p, c);
      }
    }
  }

  /** The graph as it stands during the release: lenders not yet handled still have their edges to
      the released reference, and borrowers still name it as a lender. */
  function Dirty(g: Graph, id: RefID, parents: set<RefID>, clean: Graph): Graph
    requires id in g
  {
    map o | o in clean :: DirtyRef(o in parents, o in g[id].borrowedBy, id, Between(g, o, id), clean[o])
  }

  function DirtyRef(lends: bool, borrows: bool, id: RefID, edges: EdgeSet, ref: Ref): Ref {
    Ref(if lends then ref.borrowedBy[id := edges] else ref.borrowedBy,
        if borrows then ref.borrowsFrom + {id} else ref.borrowsFrom,
        ref.mutable)
  }

  lemma CleanAtEnd(g: Graph, id: RefID, clean: Graph)
    requires id in g && id !in clean && Valid(clean)
    ensures WithoutLender(Dirty(g, id, {}, clean), g[id].borrowedBy.Keys, id) == clean
  {
    var final := WithoutLender(Dirty(g, id, {}, clean), g[id].borrowedBy.Keys, id);
    forall o | o in clean ensures final[o] == clean[o] {
      assert ValidAt(clean, id, o);
      assert final[o].borrowsFrom == clean[o].borrowsFrom;
    }
  }

  lemma SpliceEnds(g: Graph, id: RefID)
    requires Valid(g) && id in g
    ensures forall q :: IsSplice(g, id, q) ==> q.parent in g[id].borrowsFrom && q.child in g[id].borrowedBy
  {
    forall q | IsSplice(g, id, q) ensures q.parent in g[id].borrowsFrom && q.child in g[id].borrowedBy {
      ConnectedIffEdges(g, q.parent, id);
      ConnectedIffEdges(g, id, q.child);
    }
  }

  lemma DirtyAtStart(g: Graph, id: RefID)
    requires Valid(g) && id in g
    ensures g - {id} == Dirty(g, id, g[id].borrowsFrom, Detach(g, id))
  {
    var dirty := Dirty(g, id, g[id].borrowsFrom, Detach(g, id));
    forall o | o in g && o != id ensures g[o] == dirty[o] {
      ConnectedIffEdges(g, o, id);
      ConnectedIffEdges(g, id, o);
    }
  }

  lemma DirtyParentDone(g: Graph, id: RefID, parents: set<RefID>, parent: RefID, clean: Graph)
    requires id in g && parent in parents && parent in clean && Valid(clean) && id !in clean
    ensures var dirty := Dirty(g, id, parents, clean);
            dirty[parent := dirty[parent].(borrowedBy := dirty[parent].borrowedBy - {id})]
              == Dirty(g, id, parents - {parent}, clean)
  {
    var dirty, less := Dirty(g, id, parents, clean), Dirty(g, id, parents - {parent}, clean);
    assert ValidAt(clean, parent, id);
    assert dirty[parent].borrowedBy - {id} == less[parent].borrowedBy;
    forall o | o in dirty && o != parent ensures dirty[o] == less[o] {
    }
  }

  lemma DirtySplice(g: Graph, id: RefID, parents: set<RefID>, clean: Graph, q: Splice, loc: Loc)
    requires id in g && id !in clean && q.parent in clean && q.child in clean && q.parent !in parents
    ensures SpliceOut(Dirty(g, id, parents, clean), q, loc) == Dirty(g, id, parents, SpliceOut(clean, q, loc))
  {
    if q.parent != q.child {
      var a, b := SpliceOut(Dirty(g, id, parents, clean), q, loc), Dirty(g, id, parents, SpliceOut(clean, q, loc));
      forall o | o in clean ensures a[o] == b[o] {
        assert a[o].borrowsFrom == b[o].borrowsFrom;
        assert a[o].borrowedBy == b[o].borrowedBy;
      }
    }
  }

  /** Where factoring stands once the first `n` listed edges have moved to the intermediate. */
  ghost predicate Progress(g: Graph, cut: Graph, now: Graph, parent: RefID, path: Path, mid: RefID,
                           list: seq<Factoring>, n: nat)
    requires n <= |list|
  {
    && (forall p: RefID, c: RefID :: p != mid ==> Between(now, p, c) == Between(cut, p, c))
    && (forall c: RefID ::
          MovedTo(Between(g, parent, c), Between(g, mid, c), Between(now, mid, c), path, list, n, c))
  }

  lemma ListedChildIsValid(g: Graph, parent: RefID, path: Path, mid: RefID, list: seq<Factoring>, i: nat)
    requires Valid(g) && parent in g && i < |list|
    requires NeedsFactored(g[parent].borrowedBy, path, list)
    requires forall k :: k in Between(g, parent, mid) ==> !Factored(path, k)
    ensures list[i].child in g && list[i].child != mid && Factored(path, list[i].edge.key)
  {
    ListedHere(list, i);
    ConnectedIffEdges(g, parent, list[i].child);
  }

  lemma ProgressStep(g: Graph, cut: Graph, now: Graph, next: Graph, parent: RefID, path: Path, mid: RefID,
                     list: seq<Factoring>, i: nat, moved: BorrowEdge)
    requires parent in g && i < |list| && NeedsFactored(g[parent].borrowedBy, path, list)
    requires Factored(path, list[i].edge.key)
    requires Progress(g, cut, now, parent, path, mid, list, i)
    requires moved == BorrowEdge(EdgeKey(list[i].edge.key.strong, PathFactor(path, list[i].edge.key.path).1),
                                 list[i].edge.loc)
    requires forall p: RefID, c: RefID :: Between(next, p, c) ==
               if p == mid && c == list[i].child then Insert(Between(now, p, c), moved) else Between(now, p, c)
    ensures Progress(g, cut, next, parent, path, mid, list, i + 1)
  {
    forall c: RefID
      ensures MovedTo(Between(g, parent, c), Between(g, mid, c), Between(next, mid, c), path, list, i + 1, c)
    {
      assert Between(next, mid, c) == if c == list[i].child then Insert(Between(now, mid, c), moved) else Between(now, mid, c);
      MoveNext(Between(g, parent, c), Between(g, mid, c), Between(now, mid, c), Between(next, mid, c), path, list, i, c);
    }
  }

  lemma FactorDone(g: Graph, cut: Graph, now: Graph, parent: RefID, loc: Loc, path: Path, mid: RefID,
                   list: seq<Factoring>)
    requires parent in g && mid in g && parent != mid && NeedsFactored(g[parent].borrowedBy, path, list)
    requires Valid(now) && SameRefs(g, now) && Progress(g, cut, now, parent, path, mid, list, |list|)
    requires forall p: RefID, c: RefID :: Between(cut, p, c) ==
               if p == parent then Keep(Between(g, p, c), path) else Between(g, p, c)
    ensures var g' := AddEdge(now, parent, BorrowEdge(EdgeKey(true, path), loc), mid);
            && Valid(g') && SameRefs(g, g')
            && forall p: RefID, c: RefID :: Between(g', p, c) == FactorBetween(g, parent, loc, path, mid, p, c)
  {
    AddEdgeEffect(now, parent, BorrowEdge(EdgeKey(true, path), loc), mid);
    ProgressDone(g, cut, now, parent, path, mid, list);
  }

  lemma ProgressDone(g: Graph, cut: Graph, now: Graph, parent: RefID, path: Path, mid: RefID, list: seq<Factoring>)
    requires parent in g && NeedsFactored(g[parent].borrowedBy, path, list)
    requires Progress(g, cut, now, parent, path, mid, list, |list|)
    ensures forall c: RefID :: Between(now, mid, c) == Suffixes(Between(g, parent, c), path) + Between(g, mid, c)
  {
    forall c: RefID ensures Between(now, mid, c) == Suffixes(Between(g, parent, c), path) + Between(g, mid, c) {
      AllMoved(Between(g, parent, c), Between(g, mid, c), Between(now, mid, c), path, list, c);
    }
  }

  /** The intermediate's edges to `c` once the first `n` listed edges have moved over. */
  ghost predicate MovedTo(fromParent: EdgeSet, before: EdgeSet, after: EdgeSet, path: Path,
                          list: seq<Factoring>, n: nat, c: RefID)
    requires n <= |list|
  {
    && (forall k: EdgeKey :: k in after <==> k in before || Listed(list, n, c, Extend(path, k)))
    && (forall k :: k in before ==> after[k] == before[k])
    && (forall k :: k in after && k !in before ==>
          Extend(path, k) in fromParent && after[k] == fromParent[Extend(path, k)])
  }

  lemma MoveNext(fromParent: EdgeSet, before: EdgeSet, now: EdgeSet, after: EdgeSet, path: Path,
                 list: seq<Factoring>, i: nat, c: RefID)
    requires i < |list| && MovedTo(fromParent, before, now, path, list, i, c)
    requires Factored(path, list[i].edge.key)
    requires c == list[i].child ==> list[i].edge.key in fromParent && fromParent[list[i].edge.key] == list[i].edge.loc
    requires var edge := list[i].edge;
             var moved := BorrowEdge(EdgeKey(edge.key.strong, PathFactor(path, edge.key.path).1), edge.loc);
             after == if c == list[i].child then Insert(now, moved) else now
    ensures MovedTo(fromParent, before, after, path, list, i + 1, c)
  {
    var edge := list[i].edge;
    var short := EdgeKey(edge.key.strong, PathFactor(path, edge.key.path).1);
    assert Extend(path, short) == edge.key;
    forall k: EdgeKey
      ensures Listed(list, i + 1, c, Extend(path, k)) <==>
                Listed(list, i, c, Extend(path, k)) || (c == list[i].child && k == short)
    {
      ListedNext(list, i, c, Extend(path, k));
      if Extend(path, k) == edge.key { assert PathFactor(path, edge.key.path).1 == k.path; }
    }
  }

  lemma AllMoved(fromParent: EdgeSet, before: EdgeSet, after: EdgeSet, path: Path, list: seq<Factoring>, c: RefID)
    requires MovedTo(fromParent, before, after, path, list, |list|, c)
    requires forall k: EdgeKey :: Listed(list, |list|, c, k) <==> k in fromParent && Factored(path, k)
    ensures after == Suffixes(fromParent, path) + before
  {
    var expected := Suffixes(fromParent, path) + before;
    forall k: EdgeKey
      ensures k in after <==> k in expected
      ensures k in after ==> after[k] == expected[k]
    {
      SuffixAt(fromParent, path, k);
      assert Factored(path, Extend(path, k));
    }
  }

  lemma ListedNext(list: seq<Factoring>, i: nat, c: RefID, k: EdgeKey)
    requires i < |list|
    ensures Listed(list, i + 1, c, k) <==> Listed(list, i, c, k) || (list[i].child == c && list[i].edge.key == k)
  {
  }

  lemma ListedHere(list: seq<Factoring>, i: nat)
    requires i < |list|
    ensures Listed(list, |list|, list[i].child, list[i].edge.key)
  {
  }

  /** The next listed edge is still among the parent's edges. */
  lemma NotListedYet(before: map<RefID, EdgeSet>, path: Path, list: seq<Factoring>, i: nat)
    requires i < |list| && NeedsFactored(before, path, list)
    ensures !Listed(list, i, list[i].child, list[i].edge.key)
    ensures list[i].edge.key in Lookup(before, list[i].child)
  {
  }

  lemma TakeOutNext(before: map<RefID, EdgeSet>, now: map<RefID, EdgeSet>, after: map<RefID, EdgeSet>,
                    list: seq<Factoring>, i: nat)
    requires i < |list| && TakenOut(before, now, list, i) && list[i].child in now
    requires var edges := now[list[i].child] - {list[i].edge.key};
             after == if edges == map[] then now - {list[i].child} else now[list[i].child := edges]
    ensures TakenOut(before, after, list, i + 1)
  {
    forall c: RefID, k: EdgeKey
      ensures k in Lookup(after, c) <==> k in Lookup(before, c) && !Listed(list, i + 1, c, k)
    {
      ListedNext(list, i, c, k);
      assert k in Lookup(after, c) <==> k in Lookup(now, c) && !(c == list[i].child && k == list[i].edge.key);
    }
  }

  lemma KeepsRest(before: map<RefID, EdgeSet>, after: map<RefID, EdgeSet>, path: Path, list: seq<Factoring>)
    requires NeedsFactored(before, path, list) && TakenOut(before, after, list, |list|)
    ensures forall c: RefID :: Lookup(after, c) == Keep(Lookup(before, c), path)
    ensures forall c :: c in after ==> after[c] != map[]
  {
    forall c: RefID ensures Lookup(after, c) == Keep(Lookup(before, c), path) {
      assert forall k :: k in Lookup(after, c) <==> k in Keep(Lookup(before, c), path);
    }
  }

  lemma ListedAppend(list: seq<Factoring>, x: Factoring, c: RefID, k: EdgeKey)
    ensures Listed(list + [x], |list| + 1, c, k) <==>
              Listed(list, |list|, c, k) || (x.child == c && x.edge.key == k)
  {
    var longer := list + [x];
    if Listed(list, |list|, c, k) {
      var j :| 0 <= j < |list| && list[j].child == c && list[j].edge.key == k;
      assert longer[j] == list[j];
    }
    if x.child == c && x.edge.key == k { assert longer[|list|] == x; }
    if Listed(longer, |list| + 1, c, k) {
      var j :| 0 <= j < |list| + 1 && longer[j].child == c && longer[j].edge.key == k;
      assert j < |list| ==> list[j] == longer[j];
    }
  }
}
