/** The depth-first search that rejects cyclic dependencies and friends, and why a store that only
    takes accepted modules stays acyclic. */
module CyclicDependencies {
  import opened Collections
  import opened FileFormat

  /** The immediate successors of a node, or nothing when they cannot be had. */
  type Nexts<!N> = N -> Option<seq<N>>

  datatype Outcome = Found | NotFound | Failed

  // ---------------------------------------------------------------- reachability

  ghost predicate IsEdge<N>(nexts: Nexts<N>, x: N, y: N) {
    nexts(x).Some? && y in nexts(x).value
  }

  ghost predicate Path<N(!new)>(nexts: Nexts<N>, x: N, y: N, n: nat)
    decreases n
  {
    if n == 0 then x == y else exists z :: IsEdge(nexts, x, z) && Path(nexts, z, y, n - 1)
  }

  ghost predicate Reaches<N(!new)>(nexts: Nexts<N>, x: N, y: N) {
    exists n: nat :: Path(nexts, x, y, n)
  }

  ghost predicate ReachedFrom<N(!new)>(nexts: Nexts<N>, items: seq<N>, y: N) {
    exists x :: x in items && Reaches(nexts, x, y)
  }

  lemma {:induction false} PathJoins<N(!new)>(nexts: Nexts<N>, x: N, y: N, z: N, a: nat, b: nat)
    requires Path(nexts, x, y, a) && Path(nexts, y, z, b)
    ensures Path(nexts, x, z, a + b)
    decreases a
  {
    if a > 0 {
      var w :| IsEdge(nexts, x, w) && Path(nexts, w, y, a - 1);
      PathJoins(nexts, w, y, z, a - 1, b);
    }
  }

  lemma EdgeThenReaches<N(!new)>(nexts: Nexts<N>, x: N, y: N, z: N)
    requires IsEdge(nexts, x, y) && Reaches(nexts, y, z)
    ensures Reaches(nexts, x, z)
  {
    var n: nat :| Path(nexts, y, z, n);
    assert Path(nexts, x, z, n + 1);
  }

  lemma ReachesItself<N(!new)>(nexts: Nexts<N>, x: N)
    ensures Reaches(nexts, x, x)
  {
    assert Path(nexts, x, x, 0);
  }

  /** All successors of `x` are in `s`. */
  ghost predicate LeadsInto<N>(nexts: Nexts<N>, x: N, s: set<N>) {
    nexts(x).Some? && forall y :: y in nexts(x).value ==> y in s
  }

  ghost predicate IsClosed<N(!new)>(nexts: Nexts<N>, s: set<N>) {
    forall x :: x in s ==> LeadsInto(nexts, x, s)
  }

  lemma {:induction false} ClosedHoldsPath<N(!new)>(nexts: Nexts<N>, s: set<N>, x: N, y: N, n: nat)
    requires IsClosed(nexts, s) && x in s && Path(nexts, x, y, n)
    ensures y in s
    decreases n
  {
    if n > 0 {
      var z :| IsEdge(nexts, x, z) && Path(nexts, z, y, n - 1);
      assert LeadsInto(nexts, x, s);
      ClosedHoldsPath(nexts, s, z, y, n - 1);
    }
  }

  // ---------------------------------------------------------------- the search

  /** A finite set that holds whatever can be reached from it. */
  ghost predicate IsUniverse<N(!new)>(nexts: Nexts<N>, universe: set<N>) {
    forall x :: x in universe && nexts(x).Some? ==> forall y :: y in nexts(x).value ==> y in universe
  }

  /** What a search from `cursor` that began with `before` has established with `after`. */
  ghost predicate Explored<N(!new)>(nexts: Nexts<N>, target: N, cursor: N, before: set<N>, after: set<N>,
      r: Outcome)
  {
    match r
    case Found => Reaches(nexts, cursor, target)
    case Failed => exists x :: Reaches(nexts, cursor, x) && nexts(x).None?
    case NotFound =>
      && cursor in after && before <= after
      && (target in after ==> target in before)
      && forall x :: x in after - before ==> LeadsInto(nexts, x, after) && Reaches(nexts, cursor, x)
  }

  /** `collect_all_with_cycle_detection_recursive` */
  method Search<N(==, !new)>(target: N, cursor: N, nexts: Nexts<N>, visited: set<N>, ghost universe: set<N>)
    returns (r: Outcome, visited': set<N>)
    requires IsUniverse(nexts, universe) && cursor in universe && visited <= universe
    ensures visited <= visited' <= universe
    ensures Explored(nexts, target, cursor, visited, visited', r)
    decreases |universe - visited|
  {
    visited' := visited;
    if cursor == target {
      ReachesItself(nexts, cursor);
      return Found, visited';
    }
    if cursor in visited { return NotFound, visited'; }
    visited' := visited' + {cursor};
    ReachesItself(nexts, cursor);
    if nexts(cursor).None? { return Failed, visited'; }
    var todo := nexts(cursor).value;
    Shrinks(universe, visited, visited', cursor);
    for i := 0 to |todo|
      invariant visited + {cursor} <= visited' <= universe
      invariant target in visited' ==> target in visited
      invariant forall j :: 0 <= j < i ==> todo[j] in visited'
      invariant forall x :: x in visited' - visited - {cursor} ==>
                  LeadsInto(nexts, x, visited') && Reaches(nexts, cursor, x)
    {
      assert IsEdge(nexts, cursor, todo[i]);
      Shrinks(universe, visited, visited', cursor);
      ghost var before := visited';
      r, visited' := Search(target, todo[i], nexts, visited', universe);
      if r == Found {
        EdgeThenReaches(nexts, cursor, todo[i], target);
        return;
      }
      if r == Failed {
        ghost var x :| Reaches(nexts, todo[i], x) && nexts(x).None?;
        EdgeThenReaches(nexts, cursor, todo[i], x);
        return;
      }
      forall x | x in visited' - before ensures Reaches(nexts, cursor, x) {
        EdgeThenReaches(nexts, cursor, todo[i], x);
      }
      forall x | x in before - visited - {cursor} ensures LeadsInto(nexts, x, visited') {
        assert LeadsInto(nexts, x, before);
      }
    }
    assert LeadsInto(nexts, cursor, visited');
    return NotFound, visited';
  }

  lemma Shrinks<N>(universe: set<N>, before: set<N>, after: set<N>, cursor: N)
    requires before <= after && cursor in after - before && cursor in universe
    ensures |universe - after| < |universe - before|
  {
    assert universe - after <= universe - before - {cursor};
    SubsetSize(universe - after, universe - before - {cursor});
  }

  /** The answer to a search from several items. */
  ghost predicate IsAnswer<N(!new)>(nexts: Nexts<N>, target: N, items: seq<N>, r: Outcome, visited: set<N>) {
    match r
    case Found => ReachedFrom(nexts, items, target)
    case Failed => exists x :: ReachedFrom(nexts, items, x) && nexts(x).None?
    case NotFound =>
      && !ReachedFrom(nexts, items, target)
      && (forall y {:trigger ReachedFrom(nexts, items, y)} :: y in visited <==> ReachedFrom(nexts, items, y))
      && (forall x :: ReachedFrom(nexts, items, x) ==> nexts(x).Some?)
  }

  lemma ItemEnds<N(!new)>(nexts: Nexts<N>, target: N, items: seq<N>, i: nat, before: set<N>, after: set<N>,
      r: Outcome)
    requires i < |items| && r != NotFound && Explored(nexts, target, items[i], before, after, r)
    ensures IsAnswer(nexts, target, items, r, after)
  {
    if r == Failed {
      var x :| Reaches(nexts, items[i], x) && nexts(x).None?;
      assert ReachedFrom(nexts, items, x);
    }
  }

  /** `collect_all_with_cycle_detection`: it fails exactly when the target can be reached, and
      otherwise returns exactly what can be reached, unless some module on the way cannot be had. */
  method CollectAll<N(==, !new)>(target: N, items: seq<N>, nexts: Nexts<N>, ghost universe: set<N>)
    returns (r: Outcome, visited: set<N>)
    requires IsUniverse(nexts, universe) && forall i :: 0 <= i < |items| ==> items[i] in universe
    ensures IsAnswer(nexts, target, items, r, visited)
  {
    visited := {};
    for i := 0 to |items|
      invariant visited <= universe && target !in visited
      invariant Collected(nexts, items, visited)
      invariant forall j :: 0 <= j < i ==> items[j] in visited
    {
      ghost var before := visited;
      r, visited := Search(target, items[i], nexts, visited, universe);
      if r != NotFound {
        ItemEnds(nexts, target, items, i, before, visited, r);
        return;
      }
      ItemExplored(nexts, target, items, i, before, visited);
    }
    ClosureIsExact(nexts, items, visited);
    r := NotFound;
  }

  /** The part of the graph explored so far: closed, and reached from the items. */
  ghost predicate Collected<N(!new)>(nexts: Nexts<N>, items: seq<N>, visited: set<N>) {
    && IsClosed(nexts, visited)
    && forall y {:trigger ReachedFrom(nexts, items, y)} :: y in visited ==> ReachedFrom(nexts, items, y)
  }

  lemma ItemExplored<N(!new)>(nexts: Nexts<N>, target: N, items: seq<N>, i: nat, before: set<N>, after: set<N>)
    requires i < |items| && Collected(nexts, items, before)
    requires Explored(nexts, target, items[i], before, after, NotFound)
    ensures Collected(nexts, items, after)
  {
    forall x | x in after ensures LeadsInto(nexts, x, after) {
      if x in before { assert LeadsInto(nexts, x, before); }
    }
    forall y | y in after ensures ReachedFrom(nexts, items, y) {
      if y !in before { assert items[i] in items && Reaches(nexts, items[i], y); }
    }
  }

  lemma ClosureIsExact<N(!new)>(nexts: Nexts<N>, items: seq<N>, visited: set<N>)
    requires Collected(nexts, items, visited)
    requires forall j :: 0 <= j < |items| ==> items[j] in visited
    ensures forall y {:trigger ReachedFrom(nexts, items, y)} ::
              y in visited <==> ReachedFrom(nexts, items, y)
    ensures forall x :: ReachedFrom(nexts, items, x) ==> nexts(x).Some?
  {
    forall y | ReachedFrom(nexts, items, y) ensures y in visited && nexts(y).Some? {
      var x :| x in items && Reaches(nexts, x, y);
      var n: nat :| Path(nexts, x, y, n);
      ClosedHoldsPath(nexts, visited, x, y, n);
      assert LeadsInto(nexts, y, visited);
    }
  }

  // ---------------------------------------------------------------- publishing

  datatype ModuleInfo<N> = ModuleInfo(dependencies: seq<N>, friends: seq<N>)

  type Store<N> = map<N, ModuleInfo<N>>

  function Dependencies<N>(store: Store<N>): Nexts<N> {
    x => if x in store then Some(store[x].dependencies) else None
  }

  function Friends<N>(store: Store<N>): Nexts<N> {
    x => if x in store then Some(store[x].friends) else None
  }

  /** The module closes no dependency or friend cycle, and none of its dependencies is its friend. */
  ghost predicate IsAccepted<N(!new)>(store: Store<N>, id: N, info: ModuleInfo<N>) {
    && !ReachedFrom(Dependencies(store), info.dependencies, id)
    && !ReachedFrom(Friends(store), info.friends, id)
    && (forall x :: !(ReachedFrom(Dependencies(store), info.dependencies, x)
                      && ReachedFrom(Friends(store), info.friends, x)))
  }

  /** Every module that the two searches come across is in the store. */
  ghost predicate IsComplete<N(!new)>(store: Store<N>, info: ModuleInfo<N>) {
    && (forall x :: ReachedFrom(Dependencies(store), info.dependencies, x) ==> x in store)
    && (forall x :: ReachedFrom(Friends(store), info.friends, x) ==> x in store)
  }

  /** `verify_module_impl` */
  method VerifyModule<N(==, !new)>(store: Store<N>, id: N, info: ModuleInfo<N>) returns (ok: bool)
    ensures ok <==> IsAccepted(store, id, info) && IsComplete(store, info)
  {
    ghost var universe := Universe(store, info);
    UniverseHolds(store, info);
    var r, allDeps := CollectAll(id, info.dependencies, Dependencies(store), universe);
    if r != NotFound { return false; }
    var r', allFriends := CollectAll(id, info.friends, Friends(store), universe);
    if r' != NotFound { return false; }
    ok := allDeps * allFriends == {};
    NoneShared(allDeps, allFriends);
  }

  lemma NoneShared<N>(a: set<N>, b: set<N>)
    ensures a * b == {} <==> forall x :: !(x in a && x in b)
  {
    if a * b == {} {
      forall x ensures !(x in a && x in b) { assert x !in a * b; }
    }
  }

  ghost function Universe<N(!new)>(store: Store<N>, info: ModuleInfo<N>): set<N> {
    store.Keys + (set x | x in info.dependencies) + (set x | x in info.friends)
    + (set x, y | x in store && y in store[x].dependencies :: y)
    + (set x, y | x in store && y in store[x].friends :: y)
  }

  lemma UniverseHolds<N(!new)>(store: Store<N>, info: ModuleInfo<N>)
    ensures IsUniverse(Dependencies(store), Universe(store, info))
    ensures IsUniverse(Friends(store), Universe(store, info))
  {}

  // ---------------------------------------------------------------- acyclicity over all runs

  ghost predicate IsAcyclic<N(!new)>(nexts: Nexts<N>) {
    forall x, y :: IsEdge(nexts, x, y) ==> !Reaches(nexts, y, x)
  }

  /** Two graphs that differ only in the successors of `id`. */
  ghost predicate DiffersAt<N(!new)>(before: Nexts<N>, after: Nexts<N>, id: N) {
    forall x :: x != id ==> after(x) == before(x)
  }

  /** A path to `id` first gets there along old edges. */
  lemma {:induction false} FirstArrival<N(!new)>(before: Nexts<N>, after: Nexts<N>, id: N, x: N, n: nat)
    requires DiffersAt(before, after, id) && Path(after, x, id, n)
    ensures Reaches(before, x, id)
    decreases n
  {
    if x == id {
      ReachesItself(before, x);
    } else {
      var z :| IsEdge(after, x, z) && Path(after, z, id, n - 1);
      FirstArrival(before, after, id, z, n - 1);
      assert IsEdge(before, x, z);
      EdgeThenReaches(before, x, z, id);
    }
  }

  /** A new path is an old one, or passes through `id`. */
  lemma {:induction false} OldOrThrough<N(!new)>(before: Nexts<N>, after: Nexts<N>, id: N, x: N, y: N, n: nat)
    requires DiffersAt(before, after, id) && Path(after, x, y, n)
    ensures Path(before, x, y, n)
            || (Reaches(after, x, id) && exists z :: IsEdge(after, id, z) && Reaches(after, z, y))
    decreases n
  {
    if n > 0 {
      var z :| IsEdge(after, x, z) && Path(after, z, y, n - 1);
      if x == id {
        ReachesItself(after, id);
        assert Reaches(after, z, y);
      } else {
        OldOrThrough(before, after, id, z, y, n - 1);
        assert IsEdge(before, x, z);
        if !Path(before, z, y, n - 1) { EdgeThenReaches(after, x, z, id); }
      }
    }
  }

  /** Replacing the successors of one node by nodes that do not lead back to it creates no cycle. */
  lemma StaysAcyclic<N(!new)>(before: Nexts<N>, after: Nexts<N>, id: N)
    requires DiffersAt(before, after, id) && IsAcyclic(before)
    requires forall z :: IsEdge(after, id, z) ==> !Reaches(before, z, id)
    ensures IsAcyclic(after)
  {
    forall x, y | IsEdge(after, x, y) ensures !Reaches(after, y, x) {
      if Reaches(after, y, x) {
        var n: nat :| Path(after, y, x, n);
        if x == id {
          FirstArrival(before, after, id, y, n);
          assert false;
        }
        OldOrThrough(before, after, id, y, x, n);
        assert IsEdge(before, x, y);
        if !Path(before, y, x, n) { CycleThrough(before, after, id, x, y); }
      }
    }
  }

  lemma CycleThrough<N(!new)>(before: Nexts<N>, after: Nexts<N>, id: N, x: N, y: N)
    requires DiffersAt(before, after, id) && IsEdge(after, x, y) && Reaches(after, y, id)
    requires exists z :: IsEdge(after, id, z) && Reaches(after, z, x)
    ensures exists z :: IsEdge(after, id, z) && Reaches(before, z, id)
  {
    var z :| IsEdge(after, id, z) && Reaches(after, z, x);
    EdgeThenReaches(after, x, y, id);
    var a: nat :| Path(after, z, x, a);
    var b: nat :| Path(after, x, id, b);
    PathJoins(after, z, x, id, a, b);
    FirstArrival(before, after, id, z, a + b);
  }

  ghost predicate Sound<N(!new)>(store: Store<N>) {
    IsAcyclic(Dependencies(store)) && IsAcyclic(Friends(store))
  }

  /** Publishing a new module or a new version of one. */
  lemma PublishKeepsAcyclic<N(!new)>(store: Store<N>, id: N, info: ModuleInfo<N>)
    requires Sound(store) && IsAccepted(store, id, info)
    ensures Sound(store[id := info])
  {
    var store' := store[id := info];
    forall z | IsEdge(Dependencies(store'), id, z) ensures !Reaches(Dependencies(store), z, id) {
      assert z in info.dependencies;
    }
    StaysAcyclic(Dependencies(store), Dependencies(store'), id);
    forall z | IsEdge(Friends(store'), id, z) ensures !Reaches(Friends(store), z, id) {
      assert z in info.friends;
    }
    StaysAcyclic(Friends(store), Friends(store'), id);
  }

  datatype Publish<N> = Publish(id: N, info: ModuleInfo<N>)

  /** The store after a sequence of publishes, of which the rejected ones change nothing. */
  ghost function StoreAfter<N(!new)>(publishes: seq<Publish<N>>): Store<N> {
    if publishes == [] then map[]
    else
      var p := publishes[|publishes| - 1];
      var store := StoreAfter(publishes[..|publishes| - 1]);
      if IsAccepted(store, p.id, p.info) && IsComplete(store, p.info) then store[p.id := p.info] else store
  }

  /** Whatever is published and upgraded, in whatever order, no dependency or friend cycle arises. */
  lemma {:induction false} EveryStoreIsAcyclic<N(!new)>(publishes: seq<Publish<N>>)
    ensures Sound(StoreAfter(publishes))
  {
    if publishes != [] {
      var p := publishes[|publishes| - 1];
      var before := publishes[..|publishes| - 1];
      EveryStoreIsAcyclic(before);
      if IsAccepted(StoreAfter(before), p.id, p.info) && IsComplete(StoreAfter(before), p.info) {
        PublishKeepsAcyclic(StoreAfter(before), p.id, p.info);
      }
    }
  }
}
