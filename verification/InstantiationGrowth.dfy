/** The other half of the instantiation check: accepted modules instantiate finitely often, rejected
    ones without bound, and what goes wrong when a native definition comes first. */
module InstantiationGrowth {
  import opened Collections
  import opened FileFormat
  import opened Abilities
  import opened InstantiationLoops
  import opened InstantiationBound
  import Tokens = SignatureTokens

  // ---------------------------------------------------------------- finitely many instantiations

  function Seqs<T(==)>(s: set<T>, n: nat): (r: set<seq<T>>) {
    if n == 0 then {[]}
    else
      var shorter := Seqs(s, n - 1);
      shorter + set q, x | q in shorter && x in s :: [x] + q
  }

  lemma {:induction false} InSeqs<T>(s: set<T>, n: nat, q: seq<T>)
    requires |q| <= n && forall i :: 0 <= i < |q| ==> q[i] in s
    ensures q in Seqs(s, n)
  {
    if n > 0 {
      if q == [] {
        InSeqs(s, n - 1, q);
      } else {
        InSeqs(s, n - 1, q[1..]);
        assert q == [q[0]] + q[1..];
      }
    }
  }

  function Leaves(h: nat): set<SignatureToken> {
    {Bool, U8, U64, U128, Address, Signer} + set i | 0 <= i < h :: Struct(i)
  }

  function Wrapped(inner: set<SignatureToken>): set<SignatureToken> {
    (set t | t in inner :: Vector(t))
    + (set t | t in inner :: Reference(t))
    + (set t | t in inner :: MutableReference(t))
  }

  function Instances(inner: set<SignatureToken>, h: nat, a: nat): set<SignatureToken> {
    var args := Seqs(inner, a);
    set i, ts | 0 <= i < h && ts in args :: StructInstantiation(i, ts)
  }

  /** The closed types up to a depth, over `h` structs with up to `a` arguments. */
  function Types(depth: nat, h: nat, a: nat): set<SignatureToken> {
    if depth == 0 then {}
    else
      var inner := Types(depth - 1, h, a);
      Leaves(h) + Wrapped(inner) + Instances(inner, h, a)
  }

  predicate AllIn(ts: Signature, types: set<SignatureToken>) {
    forall i :: 0 <= i < |ts| ==> ts[i] in types
  }

  function ClosedNode(h: nat, a: nat): SignatureToken -> bool {
    (t: SignatureToken) => !t.TypeParameter? && NodeFits(h, a)(t)
  }

  lemma InTypesStep(t: SignatureToken, depth: nat, h: nat, a: nat)
    requires ClosedNode(h, a)(t) && depth > 0
    requires AllIn(Tokens.Kids(t), Types(depth - 1, h, a))
    ensures t in Types(depth, h, a)
  {
    var inner := Types(depth - 1, h, a);
    assert NodeFits(h, a)(t);
    if t.StructInstantiation? {
      assert Tokens.Kids(t) == t.typeArgs;
      InSeqs(inner, a, t.typeArgs);
      assert t in Instances(inner, h, a);
    } else if t.Vector? || t.Reference? || t.MutableReference? {
      assert Tokens.Kids(t)[0] in inner;
      assert t in Wrapped(inner);
    } else {
      assert t in Leaves(h);
    }
  }

  /** Nodes over `h` structs with up to `a` arguments. */
  function NodeFits(h: nat, a: nat): SignatureToken -> bool {
    (t: SignatureToken) =>
      match t
      case Struct(i) => i < h
      case StructInstantiation(i, args) => i < h && |args| <= a
      case _ => true
  }

  /** `t` is in the set for depth `d` when its children are in the set for one less. */
  predicate BuiltAt(types: nat -> set<SignatureToken>, h: nat, a: nat, t: SignatureToken, d: nat) {
    d > 0 && ClosedNode(h, a)(t) && AllIn(Tokens.Kids(t), types(d - 1)) ==> t in types(d)
  }

  ghost predicate AreBuilt(types: nat -> set<SignatureToken>, h: nat, a: nat) {
    forall t, d: nat :: BuiltAt(types, h, a, t, d)
  }

  lemma {:induction false} InTypes(types: nat -> set<SignatureToken>, t: SignatureToken, depth: nat,
      h: nat, a: nat)
    requires AreBuilt(types, h, a) && Tokens.Every(t, ClosedNode(h, a))
    requires Tokens.Depth(t) <= depth
    ensures t in types(depth)
    decreases Tokens.Nodes(t), 0
  {
    AllInTypes(types, Tokens.Kids(t), depth - 1, h, a);
    assert BuiltAt(types, h, a, t, depth);
  }

  lemma {:induction false} AllInTypes(types: nat -> set<SignatureToken>, ts: Signature, depth: nat,
      h: nat, a: nat)
    requires AreBuilt(types, h, a) && Tokens.EveryAll(ts, ClosedNode(h, a))
    requires Tokens.DepthAll(ts) <= depth
    ensures AllIn(ts, types(depth))
    decreases Tokens.NodesAll(ts), 1
  {
    if ts != [] {
      InTypes(types, ts[0], depth, h, a);
      AllInTypes(types, ts[1..], depth, h, a);
      AllInCons(ts, types(depth));
    }
  }

  lemma {:induction false} ClosedNodes(t: SignatureToken, h: nat, a: nat)
    requires Tokens.Every(t, NodeFits(h, a)) && ParametersBelow(t, 0)
    ensures Tokens.Every(t, ClosedNode(h, a))
    decreases Tokens.Nodes(t), 0
  {
    KidsBelow(t, 0);
    ClosedNodesAll(Tokens.Kids(t), h, a);
    assert ClosedNode(h, a)(t);
  }

  lemma {:induction false} ClosedNodesAll(ts: Signature, h: nat, a: nat)
    requires Tokens.EveryAll(ts, NodeFits(h, a))
    requires forall i :: 0 <= i < |ts| ==> ParametersBelow(ts[i], 0)
    ensures Tokens.EveryAll(ts, ClosedNode(h, a))
    decreases Tokens.NodesAll(ts), 1
  {
    if ts != [] {
      ClosedNodes(ts[0], h, a);
      ClosedNodesAll(ts[1..], h, a);
    }
  }

  lemma AllInCons(ts: Signature, types: set<SignatureToken>)
    requires ts != [] && ts[0] in types && AllIn(ts[1..], types)
    ensures AllIn(ts, types)
  {
    assert forall i :: 0 < i < |ts| ==> ts[i] == ts[1..][i - 1];
  }

  ghost predicate AllFit(tys: Signature, h: nat, a: nat) {
    forall j :: 0 <= j < |tys| ==> Tokens.Every(tys[j], NodeFits(h, a))
  }

  ghost predicate CallFits(m: Module, i: nat, k: nat, h: nat, a: nat) {
    IsCall(m, i, k) ==> AllFit(Actuals(m, i, k), h, a)
  }

  ghost predicate ActualsFit(m: Module, h: nat, a: nat) {
    forall i: nat, k: nat :: CallFits(m, i, k, h, a)
  }

  lemma {:induction false} InstanceFits(ty: SignatureToken, subst: Signature, h: nat, a: nat)
    requires Tokens.Every(ty, NodeFits(h, a))
    requires forall j :: 0 <= j < |subst| ==> Tokens.Every(subst[j], NodeFits(h, a))
    ensures Tokens.Every(Instantiate(ty, subst), NodeFits(h, a))
    decreases Tokens.Nodes(ty), 0
  {
    if !ty.TypeParameter? {
      SameKids(ty, subst);
      InstancesFit(Tokens.Kids(ty), subst, h, a);
      assert NodeFits(h, a)(ty);
      assert NodeFits(h, a)(Instantiate(ty, subst));
    }
  }

  lemma {:induction false} InstancesFit(tys: Signature, subst: Signature, h: nat, a: nat)
    requires Tokens.EveryAll(tys, NodeFits(h, a))
    requires forall j :: 0 <= j < |subst| ==> Tokens.Every(subst[j], NodeFits(h, a))
    ensures Tokens.EveryAll(InstantiateAll(tys, subst), NodeFits(h, a))
    decreases Tokens.NodesAll(tys), 1
  {
    if tys != [] {
      InstanceFits(tys[0], subst, h, a);
      InstancesFit(tys[1..], subst, h, a);
      InstantiateCons(tys, subst);
      assert InstantiateAll(tys, subst)[1..] == InstantiateAll(tys[1..], subst);
    }
  }

  lemma {:induction false} ChainKeepsFit(m: Module, c: Config, c': Config, n: nat, h: nat, a: nat)
    requires ActualsFit(m, h, a) && AllFit(c.args, h, a) && Chain(m, c, c', n)
    ensures AllFit(c'.args, h, a)
    decreases n
  {
    if n > 0 {
      var mid :| Chain(m, c, mid, n - 1) && Calls(m, mid, c');
      ChainKeepsFit(m, c, mid, n - 1, h, a);
      var k: nat :| CallsAt(m, mid, k, c');
      assert CallFits(m, mid.function_, k, h, a);
      forall j | 0 <= j < |c'.args| ensures Tokens.Every(c'.args[j], NodeFits(h, a)) {
        InstanceFits(Actuals(m, mid.function_, k)[j], mid.args, h, a);
      }
    }
  }

  /** The functions of the module with closed type arguments from a finite set of types. */
  function Configs(m: Module, types: set<SignatureToken>, formals: nat): set<Config> {
    set i, args | 0 <= i < |m| && args in Seqs(types, formals) :: Config(i, args)
  }

  lemma ChainStaysSmall(m: Module, edges: seq<Edge>, c: Config, c': Config, n: nat, d: nat, h: nat, a: nat)
    requires NativesLast(m) && IsWellFormed(m) && IsGraph(m, edges) && Accepted(edges)
    requires BoundsClosedActuals(m, d) && IsConfig(m, c) && Chain(m, c, c', n)
    requires ActualsFit(m, h, a) && AllFit(c.args, h, a)
    ensures IsConfig(m, c') && Shallow(c', StartDepth(c, d) + Total(edges)) && AllFit(c'.args, h, a)
  {
    BoundedInstantiation(m, edges, c, c', n, d);
    ChainKeepsFit(m, c, c', n, h, a);
  }

  /** Everything reached within the given bounds is one of finitely many configurations. */
  lemma InstantiationsWithin(m: Module, edges: seq<Edge>, c: Config, d: nat, h: nat, a: nat,
      formals: nat)
    returns (instantiations: set<Config>)
    requires NativesLast(m) && IsWellFormed(m) && IsGraph(m, edges) && Accepted(edges)
    requires BoundsClosedActuals(m, d) && IsConfig(m, c)
    requires ActualsFit(m, h, a) && AllFit(c.args, h, a) && FormalsFit(m, formals)
    ensures forall c', n: nat :: Chain(m, c, c', n) ==> c' in instantiations
  {
    var depth := StartDepth(c, d) + Total(edges);
    var types := (d: nat) => Types(d, h, a);
    TypesAreBuilt(types, h, a);
    instantiations := Configs(m, types(depth), formals);
    forall c', n: nat | Chain(m, c, c', n) ensures c' in instantiations {
      ChainStaysSmall(m, edges, c, c', n, d, h, a);
      ArgsInTypes(m, types, c', depth, h, a, formals);
    }
  }

  /** In an accepted module only finitely many instantiations arise from any start. */
  lemma FinitelyManyInstantiations(m: Module, edges: seq<Edge>, c: Config)
    returns (instantiations: set<Config>)
    requires NativesLast(m) && IsWellFormed(m) && IsGraph(m, edges) && Accepted(edges)
    requires IsConfig(m, c)
    ensures forall c', n: nat :: Chain(m, c, c', n) ==> c' in instantiations
  {
    var width := Max(ModuleMax(m, WidthAll), WidthAll(c.args));
    ActualsFitWidth(m, width);
    WidthAllFits(c.args, width);
    ClosedActualsAreBounded(m);
    FormalsAreBounded(m);
    instantiations := InstantiationsWithin(m, edges, c, ModuleMax(m, Tokens.DepthAll), width, width,
                                           MostFormals(m));
  }

  // ---------------------------------------------------------------- bounds that a module has

  /** The largest handle or number of arguments in the type. */
  function Width(t: SignatureToken): nat
    decreases Tokens.Nodes(t), 0
  {
    var here :=
      match t
      case Struct(i) => i + 1
      case StructInstantiation(i, args) => Max(i + 1, |args|)
      case _ => 0;
    Max(here, WidthAll(Tokens.Kids(t)))
  }

  function WidthAll(ts: Signature): nat
    decreases Tokens.NodesAll(ts), 1
  {
    if ts == [] then 0 else Max(Width(ts[0]), WidthAll(ts[1..]))
  }

  lemma {:induction false} WidthFits(t: SignatureToken, n: nat)
    requires Width(t) <= n
    ensures Tokens.Every(t, NodeFits(n, n))
    decreases Tokens.Nodes(t), 0
  {
    WidthAllFits(Tokens.Kids(t), n);
    assert NodeFits(n, n)(t);
  }

  lemma {:induction false} WidthAllFits(ts: Signature, n: nat)
    requires WidthAll(ts) <= n
    ensures Tokens.EveryAll(ts, NodeFits(n, n)) && AllFit(ts, n, n)
    decreases Tokens.NodesAll(ts), 1
  {
    if ts != [] {
      WidthFits(ts[0], n);
      WidthAllFits(ts[1..], n);
      assert forall j :: 0 < j < |ts| ==> ts[j] == ts[1..][j - 1];
    }
  }

  /** The largest measure of the type actuals of a call. */
  function CodeMax(code: Code, measure: Signature -> nat): nat {
    if code == [] then 0
    else Max(if code[0].Call? then measure(code[0].typeArgs) else 0, CodeMax(code[1..], measure))
  }

  function ModuleMax(m: Module, measure: Signature -> nat): nat {
    if m == [] then 0
    else Max(if m[0].code.Some? then CodeMax(m[0].code.value, measure) else 0, ModuleMax(m[1..], measure))
  }

  lemma {:induction false} CodeMaxBounds(code: Code, k: nat, measure: Signature -> nat)
    requires k < |code| && code[k].Call?
    ensures measure(code[k].typeArgs) <= CodeMax(code, measure)
    decreases k
  {
    if k > 0 { CodeMaxBounds(code[1..], k - 1, measure); }
  }

  lemma {:induction false} ModuleMaxBounds(m: Module, i: nat, measure: Signature -> nat)
    requires i < |m| && m[i].code.Some?
    ensures CodeMax(m[i].code.value, measure) <= ModuleMax(m, measure)
    decreases i
  {
    if i > 0 { ModuleMaxBounds(m[1..], i - 1, measure); }
  }

  lemma ActualsFitWidth(m: Module, n: nat)
    requires ModuleMax(m, WidthAll) <= n
    ensures ActualsFit(m, n, n)
  {
    forall i: nat, k: nat ensures CallFits(m, i, k, n, n) {
      if IsCall(m, i, k) {
        CodeMaxBounds(m[i].code.value, k, WidthAll);
        ModuleMaxBounds(m, i, WidthAll);
        WidthAllFits(Actuals(m, i, k), n);
      }
    }
  }

  lemma ClosedActualsAreBounded(m: Module)
    ensures BoundsClosedActuals(m, ModuleMax(m, Tokens.DepthAll))
  {
    var d := ModuleMax(m, Tokens.DepthAll);
    forall i: nat, k: nat ensures BoundsAtCall(m, i, k, d) {
      if IsCall(m, i, k) {
        CodeMaxBounds(m[i].code.value, k, Tokens.DepthAll);
        ModuleMaxBounds(m, i, Tokens.DepthAll);
        forall j | 0 <= j < |Actuals(m, i, k)| ensures Tokens.Depth(Actuals(m, i, k)[j]) <= d {
          DepthOfElement(Actuals(m, i, k), j);
        }
      }
    }
  }

  function MostFormals(m: Module): nat {
    if m == [] then 0 else Max(m[0].typeFormals, MostFormals(m[1..]))
  }

  lemma {:induction false} FormalsAreBounded(m: Module)
    ensures FormalsFit(m, MostFormals(m))
  {
    if m != [] {
      FormalsAreBounded(m[1..]);
      assert forall i :: 0 < i < |m| ==> m[i] == m[1..][i - 1];
    }
  }

  predicate Shallow(c: Config, depth: nat) {
    forall j :: 0 <= j < |c.args| ==> Tokens.Depth(c.args[j]) <= depth
  }

  predicate FormalsFit(m: Module, formals: nat) {
    forall i :: 0 <= i < |m| ==> m[i].typeFormals <= formals
  }

  lemma TypesAreBuilt(types: nat -> set<SignatureToken>, h: nat, a: nat)
    requires forall d: nat :: types(d) == Types(d, h, a)
    ensures AreBuilt(types, h, a)
  {
    forall t, d: nat ensures BuiltAt(types, h, a, t, d) {
      if d > 0 && ClosedNode(h, a)(t) && AllIn(Tokens.Kids(t), types(d - 1)) {
        assert types(d - 1) == Types(d - 1, h, a) && types(d) == Types(d, h, a);
        InTypesStep(t, d, h, a);
      }
    }
  }

  lemma ArgsInTypes(m: Module, types: nat -> set<SignatureToken>, c: Config, depth: nat, h: nat, a: nat,
      formals: nat)
    requires IsConfig(m, c) && AllFit(c.args, h, a) && FormalsFit(m, formals)
    requires Shallow(c, depth) && AreBuilt(types, h, a)
    ensures c in Configs(m, types(depth), formals)
  {
    forall j | 0 <= j < |c.args| ensures c.args[j] in types(depth) {
      ClosedNodes(c.args[j], h, a);
      InTypes(types, c.args[j], depth, h, a);
    }
    InConfigs(m, types(depth), formals, c);
  }

  lemma InConfigs(m: Module, types: set<SignatureToken>, formals: nat, c: Config)
    requires c.function_ < |m| && |c.args| <= formals
    requires forall j :: 0 <= j < |c.args| ==> c.args[j] in types
    ensures c in Configs(m, types, formals)
  {
    InSeqs(types, formals, c.args);
    assert c == Config(c.function_, c.args);
  }

  // ---------------------------------------------------------------- rejected modules grow

  lemma {:induction false} ChainJoins(m: Module, c: Config, mid: Config, c': Config, a: nat, b: nat)
    requires Chain(m, c, mid, a) && Chain(m, mid, c', b)
    ensures Chain(m, c, c', a + b)
    decreases b
  {
    if b > 0 {
      var last :| Chain(m, mid, last, b - 1) && Calls(m, last, c');
      ChainJoins(m, c, mid, last, a, b - 1);
    }
  }

  /** A configuration of the function of `v`, with an argument for its formal. */
  ghost predicate At(m: Module, c: Config, v: Node) {
    IsConfig(m, c) && c.function_ == v.function_ && v.formal < |c.args|
  }

  /** Some calls lead from `c` at `u` to a configuration at `v` that is deeper there by `gain`. */
  ghost predicate LeadsDeeper(m: Module, c: Config, u: Node, v: Node, gain: nat)
    requires At(m, c, u)
  {
    exists c', n: nat :: Chain(m, c, c', n) && At(m, c', v)
      && Tokens.Depth(c'.args[v.formal]) >= Tokens.Depth(c.args[u.formal]) + gain
  }

  lemma FollowEdge(m: Module, edges: seq<Edge>, e: Edge, c: Config)
    requires NativesLast(m) && IsWellFormed(m) && IsGraph(m, edges) && e in edges
    requires At(m, c, e.source)
    ensures LeadsDeeper(m, c, e.source, e.target, if e.IsTyConApp() then 1 else 0)
  {
    assert IsEdge(m, e);
    var i: nat, k: nat, j: nat, p: nat :|
      Passes(m, i, k, j, p) && e == EdgeFor(m, Number(m, i), i, k, j, p);
    NumberIsIndex(m, i);
    assert CallIsWellFormed(m, i, k);
    var ty := Actuals(m, i, k)[j];
    var c' := Config(Callee(m, i, k), InstantiateAll(Actuals(m, i, k), c.args));
    assert CallsAt(m, c, k, c');
    CallKeepsConfig(m, c, k, c');
    InstanceAtLeast(ty, c.args, p);
    assert Chain(m, c, c, 0) && Calls(m, c, c');
    assert Chain(m, c, c', 1);
  }

  lemma LeadsOn(m: Module, c: Config, u: Node, mid: Config, v: Node, w: Node, n: nat, gain: nat, more: nat)
    requires At(m, c, u) && At(m, mid, v) && Chain(m, c, mid, n)
    requires Tokens.Depth(mid.args[v.formal]) >= Tokens.Depth(c.args[u.formal]) + gain
    requires LeadsDeeper(m, mid, v, w, more)
    ensures LeadsDeeper(m, c, u, w, gain + more)
  {
    var c', k: nat :| Chain(m, mid, c', k) && At(m, c', w)
      && Tokens.Depth(c'.args[w.formal]) >= Tokens.Depth(mid.args[v.formal]) + more;
    ChainJoins(m, c, mid, c', n, k);
  }

  lemma {:induction false} FollowPath(m: Module, edges: seq<Edge>, u: Node, v: Node, n: nat, c: Config)
    requires NativesLast(m) && IsWellFormed(m) && IsGraph(m, edges)
    requires ReachesIn(edges, u, v, n) && At(m, c, u)
    ensures LeadsDeeper(m, c, u, v, 0)
    decreases n
  {
    if n == 0 {
      assert Chain(m, c, c, 0);
    } else {
      var e :| e in edges && e.target == v && ReachesIn(edges, u, e.source, n - 1);
      FollowPath(m, edges, u, e.source, n - 1, c);
      var mid, k: nat :| Chain(m, c, mid, k) && At(m, mid, e.source)
        && Tokens.Depth(mid.args[e.source.formal]) >= Tokens.Depth(c.args[u.formal]) + 0;
      FollowEdge(m, edges, e, mid);
      LeadsOn(m, c, u, mid, e.source, v, k, 0, if e.IsTyConApp() then 1 else 0);
      WeakerDepth(m, c, u, v, if e.IsTyConApp() then 1 else 0, 0);
    }
  }

  lemma WeakerDepth(m: Module, c: Config, u: Node, v: Node, gain: nat, less: nat)
    requires At(m, c, u) && LeadsDeeper(m, c, u, v, gain) && less <= gain
    ensures LeadsDeeper(m, c, u, v, less)
  {
    var c', n: nat :| Chain(m, c, c', n) && At(m, c', v)
      && Tokens.Depth(c'.args[v.formal]) >= Tokens.Depth(c.args[u.formal]) + gain;
    assert Chain(m, c, c', n) && At(m, c', v)
      && Tokens.Depth(c'.args[v.formal]) >= Tokens.Depth(c.args[u.formal]) + less;
  }

  /** Going round a component with a TyConApp edge `n` times. */
  lemma {:induction false} RoundTrips(m: Module, edges: seq<Edge>, e: Edge, c: Config, n: nat)
    requires NativesLast(m) && IsWellFormed(m) && IsGraph(m, edges) && IsGrowing(edges, e)
    requires At(m, c, e.target)
    ensures LeadsDeeper(m, c, e.target, e.target, n)
    decreases n
  {
    if n == 0 {
      assert Chain(m, c, c, 0);
    } else {
      var v := e.target;
      RoundTrips(m, edges, e, c, n - 1);
      var mid, k: nat :| Chain(m, c, mid, k) && At(m, mid, v)
        && Tokens.Depth(mid.args[v.formal]) >= Tokens.Depth(c.args[v.formal]) + (n - 1);
      var steps: nat :| ReachesIn(edges, v, e.source, steps);
      FollowPath(m, edges, v, e.source, steps, mid);
      var back, k': nat :| Chain(m, mid, back, k') && At(m, back, e.source)
        && Tokens.Depth(back.args[e.source.formal]) >= Tokens.Depth(mid.args[v.formal]) + 0;
      FollowEdge(m, edges, e, back);
      LeadsOn(m, mid, v, back, e.source, v, k', 0, 1);
      LeadsOn(m, c, v, mid, v, v, k, n - 1, 1);
    }
  }

  // ---------------------------------------------------------------- the check is exact

  ghost predicate Deepens(m: Module, c: Config, depth: nat) {
    exists c', n: nat, j: nat ::
      Chain(m, c, c', n) && j < |c'.args| && Tokens.Depth(c'.args[j]) >= depth
  }

  /** From `c` calls lead to type arguments of any depth. */
  ghost predicate Grows(m: Module, c: Config) {
    forall depth: nat :: Deepens(m, c, depth)
  }

  lemma GrowingEdgeGrows(m: Module, edges: seq<Edge>, e: Edge)
    requires NativesLast(m) && IsWellFormed(m) && IsGraph(m, edges) && IsGrowing(edges, e)
    ensures exists c :: IsConfig(m, c) && Grows(m, c)
  {
    var v := e.target;
    assert IsEdge(m, e);
    var i: nat, k: nat, j: nat, p: nat :|
      Passes(m, i, k, j, p) && e == EdgeFor(m, Number(m, i), i, k, j, p);
    assert CallIsWellFormed(m, i, k);
    var c := Config(v.function_, seq(m[v.function_].typeFormals, _ => Bool));
    assert At(m, c, v);
    forall depth: nat ensures Deepens(m, c, depth) {
      RoundTrips(m, edges, e, c, depth);
      var c', n: nat :| Chain(m, c, c', n) && At(m, c', v)
        && Tokens.Depth(c'.args[v.formal]) >= Tokens.Depth(c.args[v.formal]) + depth;
    }
    assert IsConfig(m, c) && Grows(m, c);
  }

  /** When natives come last, the check accepts exactly the modules in which no chain of generic calls
      builds types without bound. */
  lemma CheckIsExact(m: Module, edges: seq<Edge>)
    requires NativesLast(m) && IsWellFormed(m) && IsGraph(m, edges)
    ensures Accepted(edges) <==> forall c :: IsConfig(m, c) ==> !Grows(m, c)
  {
    if Accepted(edges) {
      forall c | IsConfig(m, c) ensures !Grows(m, c) {
        AcceptedDoesNotGrow(m, edges, c);
      }
    } else {
      var e :| IsGrowing(edges, e);
      GrowingEdgeGrows(m, edges, e);
    }
  }

  lemma AcceptedDoesNotGrow(m: Module, edges: seq<Edge>, c: Config)
    requires NativesLast(m) && IsWellFormed(m) && IsGraph(m, edges) && Accepted(edges) && IsConfig(m, c)
    ensures !Grows(m, c)
  {
    var d := ModuleMax(m, Tokens.DepthAll);
    ClosedActualsAreBounded(m);
    var limit := StartDepth(c, d) + Total(edges);
    if Deepens(m, c, limit + 1) {
      var c', n: nat, j: nat :|
        Chain(m, c, c', n) && j < |c'.args| && Tokens.Depth(c'.args[j]) >= limit + 1;
      BoundedInstantiation(m, edges, c, c', n, d);
    }
  }

  // ---------------------------------------------------------------- natives among the definitions

  /** Function `j` calls itself with a vector of its parameter; the other functions do nothing. */
  function SelfNesting(natives: seq<bool>, j: nat): Module {
    seq(|natives|, i requires 0 <= i < |natives| =>
      if natives[i] then FunctionDef(i, 0, None)
      else if i == j then FunctionDef(i, 1, Some([Call(i, [Vector(TypeParameter(0))])]))
      else FunctionDef(i, 0, Some([])))
  }

  predicate HasNatives(m: Module, natives: seq<bool>) {
    |m| == |natives| && forall i :: 0 <= i < |m| ==> m[i].IsNative() == natives[i]
  }

  ghost predicate MapsIndexes(defs: map<nat, nat>, n: nat) {
    forall h: nat :: (h in defs <==> h < n) && (h in defs ==> defs[h] == h)
  }

  lemma {:induction false} HandlesAreIndexes(m: Module, n: nat)
    requires n <= |m| && forall i :: 0 <= i < |m| ==> m[i].handle == i
    ensures MapsIndexes(HandleDefs(m, n), n)
    decreases n
  {
    if n > 0 { HandlesAreIndexes(m, n - 1); }
  }

  lemma {:induction false} NumberIsLess(m: Module, i: nat, j: nat)
    requires i < j <= |m| && m[i].IsNative()
    ensures Number(m, j) < j
    decreases j
  {
    if i < j - 1 { NumberIsLess(m, i, j - 1); } else { NumberIsAtMost(m, i); }
  }

  lemma {:induction false} NumberIsAtMost(m: Module, i: nat)
    requires i <= |m|
    ensures Number(m, i) <= i
    decreases i
  {
    if i > 0 { NumberIsAtMost(m, i - 1); }
  }

  lemma OnlySelfCall(natives: seq<bool>, j: nat)
    requires j < |natives| && !natives[j]
    ensures var m := SelfNesting(natives, j);
            && IsWellFormed(m)
            && IsCall(m, j, 0) && Actuals(m, j, 0) == [Vector(TypeParameter(0))] && Callee(m, j, 0) == j
            && (forall i, k :: IsCall(m, i, k) ==> i == j && k == 0)
  {
    var m := SelfNesting(natives, j);
    HandlesAreIndexes(m, |m|);
    assert m[j].code == Some([Call(j, [Vector(TypeParameter(0))])]);
    forall i: nat, k: nat ensures IsCall(m, i, k) ==> i == j && k == 0 {}
    assert j in HandleDefs(m, |m|) && m[j].code.value[0].function_ == j;
    assert IsCall(m, j, 0) && Callee(m, j, 0) == j;
    assert ParametersBelow(Vector(TypeParameter(0)), 1);
    forall i: nat, k: nat ensures CallIsWellFormed(m, i, k) {
      if IsCall(m, i, k) { assert i == j && k == 0; }
    }
  }

  function SelfEdge(natives: seq<bool>, j: nat): Edge
    requires j <= |natives|
  {
    Edge(Node(Number(SelfNesting(natives, j), j), 0), Node(j, 0), Vector(TypeParameter(0)))
  }

  lemma SelfNestingGraph(natives: seq<bool>, j: nat)
    requires j < |natives| && !natives[j]
    ensures IsGraph(SelfNesting(natives, j), [SelfEdge(natives, j)])
  {
    var m := SelfNesting(natives, j);
    OnlySelfCall(natives, j);
    assert Tokens.Kids(Vector(TypeParameter(0))) == [TypeParameter(0)];
    assert Params(Vector(TypeParameter(0))) == {0};
    assert Passes(m, j, 0, 0, 0) && SelfEdge(natives, j) == EdgeFor(m, Number(m, j), j, 0, 0, 0);
    forall e ensures e in [SelfEdge(natives, j)] <==> IsEdge(m, e) {
      if IsEdge(m, e) {
        var i: nat, k: nat, x: nat, p: nat :|
          Passes(m, i, k, x, p) && e == EdgeFor(m, Number(m, i), i, k, x, p);
      }
    }
  }

  /** Numbered without the natives, the caller is another node, and the loop is not seen. */
  lemma SelfNestingIsAccepted(natives: seq<bool>, i: nat, j: nat, edges: seq<Edge>)
    requires i < j < |natives| && natives[i] && !natives[j]
    requires IsGraph(SelfNesting(natives, j), edges)
    ensures Accepted(edges)
  {
    var m := SelfNesting(natives, j);
    OnlySelfCall(natives, j);
    NumberIsLess(m, i, j);
    forall e | e in edges ensures e.source.function_ == Number(m, j) && e.target.function_ == j {
      assert IsEdge(m, e);
    }
    forall e ensures !IsGrowing(edges, e) {
      if e in edges { NotReached(edges, e.target, e.source); }
    }
  }

  lemma NotReached(edges: seq<Edge>, u: Node, v: Node)
    requires ClosedUnder(edges, {u}) && v != u
    ensures !Reaches(edges, u, v)
  {
    forall n: nat ensures !ReachesIn(edges, u, v, n) {
      if ReachesIn(edges, u, v, n) { ClosedSetHoldsReached(edges, {u}, u, v, n); }
    }
  }

  function Nested(n: nat): SignatureToken {
    if n == 0 then Bool else Vector(Nested(n - 1))
  }

  lemma {:induction false} SelfNestingChain(natives: seq<bool>, j: nat, n: nat)
    requires j < |natives| && !natives[j]
    ensures Chain(SelfNesting(natives, j), Config(j, [Bool]), Config(j, [Nested(n)]), n)
    ensures Tokens.Depth(Nested(n)) > n
    decreases n
  {
    if n > 0 {
      SelfNestingChain(natives, j, n - 1);
      SelfNestingStep(natives, j, n - 1);
      NestedIsDeeper(n - 1);
    }
  }

  lemma NestedIsDeeper(n: nat)
    ensures Tokens.Depth(Nested(n + 1)) > Tokens.Depth(Nested(n))
  {
    assert Tokens.Kids(Nested(n + 1)) == [Nested(n)];
    DepthOfElement(Tokens.Kids(Nested(n + 1)), 0);
  }

  lemma SelfNestingStep(natives: seq<bool>, j: nat, n: nat)
    requires j < |natives| && !natives[j]
    ensures Calls(SelfNesting(natives, j), Config(j, [Nested(n)]), Config(j, [Nested(n + 1)]))
  {
    OnlySelfCall(natives, j);
    var before, after := Config(j, [Nested(n)]), Config(j, [Nested(n + 1)]);
    assert InstantiateAll([Vector(TypeParameter(0))], before.args) == after.args;
    assert CallsAt(SelfNesting(natives, j), before, 0, after);
  }

  lemma SelfNestingGrows(natives: seq<bool>, j: nat)
    requires j < |natives| && !natives[j]
    ensures IsConfig(SelfNesting(natives, j), Config(j, [Bool]))
    ensures Grows(SelfNesting(natives, j), Config(j, [Bool]))
  {
    var m, c := SelfNesting(natives, j), Config(j, [Bool]);
    forall depth: nat ensures Deepens(m, c, depth) {
      SelfNestingChain(natives, j, depth);
      var c' := Config(j, [Nested(depth)]);
      assert Chain(m, c, c', depth) && 0 < |c'.args| && Tokens.Depth(c'.args[0]) >= depth;
    }
  }

  ghost predicate CheckIsSound(m: Module, edges: seq<Edge>) {
    Accepted(edges) ==> forall c :: IsConfig(m, c) ==> !Grows(m, c)
  }

  /** The check can be relied on for every module with the given natives exactly when no native comes
      before a function with code. */
  lemma SoundExactlyWhenNativesLast(natives: seq<bool>)
    ensures (forall m, edges :: HasNatives(m, natives) && IsWellFormed(m) && IsGraph(m, edges) ==>
                                  CheckIsSound(m, edges))
            <==> forall i, j :: 0 <= i < j < |natives| && natives[i] ==> natives[j]
  {
    if i, j :| 0 <= i < j < |natives| && natives[i] && !natives[j] {
      var m := SelfNesting(natives, j);
      var edges := [SelfEdge(natives, j)];
      SelfNestingGraph(natives, j);
      OnlySelfCall(natives, j);
      SelfNestingIsAccepted(natives, i, j, edges);
      SelfNestingGrows(natives, j);
      assert HasNatives(m, natives) && !CheckIsSound(m, edges);
    } else {
      forall m, edges | HasNatives(m, natives) && IsWellFormed(m) && IsGraph(m, edges)
        ensures CheckIsSound(m, edges)
      {
        CheckIsExact(m, edges);
      }
    }
  }
}
