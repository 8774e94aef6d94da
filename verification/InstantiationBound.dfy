/** What acceptance means: chains of generic calls, the depth of the types they pass, and why
    rejection is needed. */
module InstantiationBound {
  import opened Collections
  import opened FileFormat
  import opened Abilities
  import opened InstantiationLoops
  import Tokens = SignatureTokens

  // ---------------------------------------------------------------- depth under instantiation

  lemma {:induction false} ClosedInstance(ty: SignatureToken, subst: Signature)
    requires Params(ty) == {}
    ensures Instantiate(ty, subst) == ty
    decreases Tokens.Nodes(ty), 0
  {
    if !ty.TypeParameter? {
      ClosedInstances(Tokens.Kids(ty), subst);
      SameKids(ty, subst);
    }
  }

  lemma {:induction false} ClosedInstances(tys: Signature, subst: Signature)
    requires ParamsAll(tys) == {}
    ensures InstantiateAll(tys, subst) == tys
    decreases Tokens.NodesAll(tys), 1
  {
    if tys != [] {
      ClosedInstance(tys[0], subst);
      ClosedInstances(tys[1..], subst);
      InstantiateCons(tys, subst);
      assert [tys[0]] + tys[1..] == tys;
    }
  }

  lemma InstantiateCons(tys: Signature, subst: Signature)
    requires tys != []
    ensures InstantiateAll(tys, subst) == [Instantiate(tys[0], subst)] + InstantiateAll(tys[1..], subst)
  {}

  lemma SameKids(ty: SignatureToken, subst: Signature)
    requires !ty.TypeParameter?
    ensures Tokens.Kids(Instantiate(ty, subst)) == InstantiateAll(Tokens.Kids(ty), subst)
    ensures InstantiateAll(Tokens.Kids(ty), subst) == Tokens.Kids(ty) ==> Instantiate(ty, subst) == ty
  {
    match ty {
      case Vector(inner) => assert Tokens.Kids(ty)[0] == inner;
      case Reference(inner) => assert Tokens.Kids(ty)[0] == inner;
      case MutableReference(inner) => assert Tokens.Kids(ty)[0] == inner;
      case StructInstantiation(h, args) =>
        assert Tokens.Kids(Instantiate(ty, subst)) == InstantiateAll(args, subst);
      case _ => assert InstantiateAll([], subst) == [];
    }
  }

  /** An instance is no deeper than the type around arguments of depth `b`. */
  lemma {:induction false} InstanceAtMost(ty: SignatureToken, subst: Signature, b: nat)
    requires b > 0
    requires forall p :: p in Params(ty) ==> p < |subst| && Tokens.Depth(subst[p]) <= b
    ensures Tokens.Depth(Instantiate(ty, subst)) <= Tokens.Depth(ty) - 1 + b
    decreases Tokens.Nodes(ty), 0
  {
    if !ty.TypeParameter? {
      SameKids(ty, subst);
      assert Params(ty) == ParamsAll(Tokens.Kids(ty));
      InstancesAtMost(Tokens.Kids(ty), subst, b);
    }
  }

  lemma {:induction false} InstancesAtMost(tys: Signature, subst: Signature, b: nat)
    requires b > 0
    requires forall p :: p in ParamsAll(tys) ==> p < |subst| && Tokens.Depth(subst[p]) <= b
    ensures tys == [] ==> Tokens.DepthAll(InstantiateAll(tys, subst)) == 0
    ensures tys != [] ==> Tokens.DepthAll(InstantiateAll(tys, subst)) <= Tokens.DepthAll(tys) - 1 + b
    decreases Tokens.NodesAll(tys), 1
  {
    if tys != [] {
      assert forall p :: p in Params(tys[0]) ==> p in ParamsAll(tys);
      InstanceAtMost(tys[0], subst, b);
      InstancesAtMost(tys[1..], subst, b);
      InstantiateCons(tys, subst);
      assert InstantiateAll(tys, subst)[1..] == InstantiateAll(tys[1..], subst);
    }
  }

  /** An instance is at least as deep as the argument of each parameter that occurs, and deeper
      below a constructor. */
  lemma {:induction false} InstanceAtLeast(ty: SignatureToken, subst: Signature, p: nat)
    requires p in Params(ty) && p < |subst|
    ensures Tokens.Depth(Instantiate(ty, subst))
         >= Tokens.Depth(subst[p]) + if ty.TypeParameter? then 0 else 1
    decreases Tokens.Nodes(ty), 0
  {
    if !ty.TypeParameter? {
      SameKids(ty, subst);
      assert Params(ty) == ParamsAll(Tokens.Kids(ty));
      InstancesAtLeast(Tokens.Kids(ty), subst, p);
    }
  }

  lemma {:induction false} InstancesAtLeast(tys: Signature, subst: Signature, p: nat)
    requires p in ParamsAll(tys) && p < |subst|
    ensures Tokens.DepthAll(InstantiateAll(tys, subst)) >= Tokens.Depth(subst[p])
    decreases Tokens.NodesAll(tys), 1
  {
    InstantiateCons(tys, subst);
    assert InstantiateAll(tys, subst)[1..] == InstantiateAll(tys[1..], subst);
    if p in Params(tys[0]) {
      InstanceAtLeast(tys[0], subst, p);
    } else {
      InstancesAtLeast(tys[1..], subst, p);
    }
  }

  lemma KidsBelow(ty: SignatureToken, n: nat)
    requires !ty.TypeParameter?
    ensures ParametersBelow(ty, n) <==>
            forall i :: 0 <= i < |Tokens.Kids(ty)| ==> ParametersBelow(Tokens.Kids(ty)[i], n)
  {
    match ty {
      case Vector(inner) => assert Tokens.Kids(ty)[0] == inner;
      case Reference(inner) => assert Tokens.Kids(ty)[0] == inner;
      case MutableReference(inner) => assert Tokens.Kids(ty)[0] == inner;
      case StructInstantiation(_, args) => assert Tokens.Kids(ty) == args;
      case _ =>
    }
  }

  predicate Below(ps: set<nat>, n: nat) {
    forall p :: p in ps ==> p < n
  }

  lemma {:induction false} ParamsBelow(ty: SignatureToken, n: nat)
    ensures ParametersBelow(ty, n) <==> Below(Params(ty), n)
    decreases Tokens.Nodes(ty), 0
  {
    if ty.TypeParameter? {
      assert ty.idx in Params(ty);
    } else {
      ParamsAllBelow(Tokens.Kids(ty), n);
      KidsBelow(ty, n);
      assert Params(ty) == ParamsAll(Tokens.Kids(ty));
    }
  }

  lemma {:induction false} ParamsAllBelow(tys: Signature, n: nat)
    ensures (forall i :: 0 <= i < |tys| ==> ParametersBelow(tys[i], n)) <==> Below(ParamsAll(tys), n)
    decreases Tokens.NodesAll(tys), 1
  {
    if tys != [] {
      ParamsBelow(tys[0], n);
      ParamsAllBelow(tys[1..], n);
      var first, rest := Params(tys[0]), ParamsAll(tys[1..]);
      assert ParamsAll(tys) == first + rest;
      assert Below(first + rest, n) <==> Below(first, n) && Below(rest, n) by {
        if Below(first + rest, n) {
          assert forall p :: p in first || p in rest ==> p in first + rest;
        }
      }
      assert (forall i :: 0 <= i < |tys| ==> ParametersBelow(tys[i], n)) <==>
             ParametersBelow(tys[0], n)
             && forall i :: 0 <= i < |tys[1..]| ==> ParametersBelow(tys[1..][i], n) by {
        assert forall i :: 0 < i < |tys| ==> tys[i] == tys[1..][i - 1];
        assert forall i :: 0 <= i < |tys[1..]| ==> tys[1..][i] == tys[i + 1];
      }
    }
  }

  // ---------------------------------------------------------------- chains of calls

  /** A function entered with closed type arguments. */
  datatype Config = Config(function_: nat, args: Signature)

  ghost predicate CallIsWellFormed(m: Module, i: nat, k: nat) {
    IsCall(m, i, k) ==>
      && Callee(m, i, k) < |m|
      && |Actuals(m, i, k)| == m[Callee(m, i, k)].typeFormals
      && forall j :: 0 <= j < |Actuals(m, i, k)| ==>
           ParametersBelow(Actuals(m, i, k)[j], m[i].typeFormals)
  }

  /** Calls pass as many type actuals as the callee has formals, over the caller's formals. */
  ghost predicate IsWellFormed(m: Module) {
    forall i: nat, k: nat :: CallIsWellFormed(m, i, k)
  }

  ghost predicate IsConfig(m: Module, c: Config) {
    && c.function_ < |m| && |c.args| == m[c.function_].typeFormals
    && forall j :: 0 <= j < |c.args| ==> ParametersBelow(c.args[j], 0)
  }

  ghost predicate CallsAt(m: Module, c: Config, k: nat, c': Config) {
    && IsCall(m, c.function_, k)
    && c' == Config(Callee(m, c.function_, k), InstantiateAll(Actuals(m, c.function_, k), c.args))
  }

  ghost predicate Calls(m: Module, c: Config, c': Config) {
    exists k: nat :: CallsAt(m, c, k, c')
  }

  /** `c'` is reached from `c` by `n` calls. */
  ghost predicate Chain(m: Module, c: Config, c': Config, n: nat)
    decreases n
  {
    if n == 0 then c == c' else exists mid :: Chain(m, c, mid, n - 1) && Calls(m, mid, c')
  }

  /** No native definition comes before a definition with code. */
  predicate NativesLast(m: Module) {
    forall i, j :: 0 <= i < j < |m| && m[i].IsNative() ==> m[j].IsNative()
  }

  lemma {:induction false} NumberIsIndex(m: Module, i: nat)
    requires NativesLast(m) && i < |m| && !m[i].IsNative()
    ensures Number(m, i) == i
  {
    if i > 0 { NumberIsIndex(m, i - 1); }
  }

  /** Then each call passes parameters along edges of the graph. */
  lemma PassesIsEdge(m: Module, edges: seq<Edge>, i: nat, k: nat, j: nat, p: nat)
    requires NativesLast(m) && IsGraph(m, edges) && Passes(m, i, k, j, p)
    ensures EdgeFor(m, i, i, k, j, p) in edges
  {
    NumberIsIndex(m, i);
    assert IsEdge(m, EdgeFor(m, i, i, k, j, p));
  }

  // ---------------------------------------------------------------- potential of a node

  /** The constructors that can come before `v`: the weights of the edges whose target reaches it. */
  ghost function Potential(all: seq<Edge>, es: seq<Edge>, v: Node): nat {
    if es == [] then 0
    else (if Reaches(all, es[0].target, v) then es[0].Weight() else 0) + Potential(all, es[1..], v)
  }

  function Total(es: seq<Edge>): nat {
    if es == [] then 0 else es[0].Weight() + Total(es[1..])
  }

  lemma {:induction false} PotentialAtMostTotal(all: seq<Edge>, es: seq<Edge>, v: Node)
    ensures Potential(all, es, v) <= Total(es)
  {
    if es != [] { PotentialAtMostTotal(all, es[1..], v); }
  }

  /** Along an edge the potential grows by at least the edge's own constructors, unless the edge can
      be returned from. */
  lemma {:induction false} PotentialAlongEdge(all: seq<Edge>, es: seq<Edge>, e: Edge)
    requires e in all && !IsGrowing(all, e)
    ensures Potential(all, es, e.source) + (if e in es then e.Weight() else 0)
         <= Potential(all, es, e.target)
  {
    if es != [] {
      PotentialAlongEdge(all, es[1..], e);
      if Reaches(all, es[0].target, e.source) { ReachesNext(all, es[0].target, e); }
      ReachesItself(all, e.target);
      assert es == [es[0]] + es[1..];
      if e.IsTyConApp() {
        assert !Reaches(all, e.target, e.source);
      } else {
        assert e.Weight() == 0 by { assert Tokens.DepthAll(Tokens.Kids(e.ty)) == 0; }
      }
    }
  }

  // ---------------------------------------------------------------- accepted modules are bounded

  /** `d` bounds the depth of the closed actuals in the module. */
  ghost predicate BoundsClosedActuals(m: Module, d: nat) {
    forall i: nat, k: nat :: BoundsAtCall(m, i, k, d)
  }

  ghost predicate BoundsAtCall(m: Module, i: nat, k: nat, d: nat) {
    IsCall(m, i, k) ==>
      forall j :: 0 <= j < |Actuals(m, i, k)| && Params(Actuals(m, i, k)[j]) == {} ==>
        Tokens.Depth(Actuals(m, i, k)[j]) <= d
  }

  ghost predicate WithinPotential(edges: seq<Edge>, c: Config, b: nat) {
    forall j: nat :: j < |c.args| ==>
      Tokens.Depth(c.args[j]) <= b + Potential(edges, edges, Node(c.function_, j))
  }

  lemma CallKeepsPotential(m: Module, edges: seq<Edge>, c: Config, k: nat, c': Config, b: nat)
    requires NativesLast(m) && IsWellFormed(m) && IsGraph(m, edges) && Accepted(edges)
    requires BoundsClosedActuals(m, b)
    requires CallsAt(m, c, k, c') && |c.args| == m[c.function_].typeFormals
    requires WithinPotential(edges, c, b)
    ensures WithinPotential(edges, c', b)
  {
    var actuals := Actuals(m, c.function_, k);
    assert CallIsWellFormed(m, c.function_, k) && BoundsAtCall(m, c.function_, k, b);
    forall j: nat | j < |c'.args|
      ensures Tokens.Depth(c'.args[j]) <= b + Potential(edges, edges, Node(c'.function_, j))
    {
      var ty := actuals[j];
      var there := Potential(edges, edges, Node(c'.function_, j));
      if Params(ty) == {} {
        ClosedInstance(ty, c.args);
      } else {
        ParamsBelow(ty, m[c.function_].typeFormals);
        var some :| some in Params(ty);
        PassesWithin(m, edges, c, k, j, some, b);
        var limit := b + there - (Tokens.Depth(ty) - 1);
        forall p | p in Params(ty) ensures p < |c.args| && Tokens.Depth(c.args[p]) <= limit {
          PassesWithin(m, edges, c, k, j, p, b);
        }
        InstanceAtMost(ty, c.args, limit);
      }
    }
  }

  lemma PassesWithin(m: Module, edges: seq<Edge>, c: Config, k: nat, j: nat, p: nat, b: nat)
    requires NativesLast(m) && IsGraph(m, edges) && Accepted(edges)
    requires Passes(m, c.function_, k, j, p) && p < |c.args| && WithinPotential(edges, c, b)
    ensures Tokens.Depth(c.args[p]) + Tokens.Depth(Actuals(m, c.function_, k)[j]) - 1
         <= b + Potential(edges, edges, Node(Callee(m, c.function_, k), j))
  {
    var e := EdgeFor(m, c.function_, c.function_, k, j, p);
    PassesIsEdge(m, edges, c.function_, k, j, p);
    PotentialAlongEdge(edges, edges, e);
  }

  lemma {:induction false} ChainKeepsPotential(m: Module, edges: seq<Edge>, c: Config, c': Config, n: nat,
      b: nat)
    requires NativesLast(m) && IsWellFormed(m) && IsGraph(m, edges) && Accepted(edges)
    requires BoundsClosedActuals(m, b) && Tokens.DepthAll(c.args) <= b
    requires IsConfig(m, c) && Chain(m, c, c', n)
    ensures WithinPotential(edges, c', b) && IsConfig(m, c')
    decreases n
  {
    if n == 0 {
      forall j: nat | j < |c.args|
        ensures Tokens.Depth(c.args[j]) <= b + Potential(edges, edges, Node(c.function_, j))
      {
        DepthOfElement(c.args, j);
      }
    } else {
      var mid :| Chain(m, c, mid, n - 1) && Calls(m, mid, c');
      ChainKeepsPotential(m, edges, c, mid, n - 1, b);
      var k: nat :| CallsAt(m, mid, k, c');
      CallKeepsPotential(m, edges, mid, k, c', b);
      CallKeepsConfig(m, mid, k, c');
    }
  }

  lemma {:induction false} DepthOfElement(tys: Signature, j: nat)
    requires j < |tys|
    ensures Tokens.Depth(tys[j]) <= Tokens.DepthAll(tys)
    decreases j
  {
    if j > 0 { DepthOfElement(tys[1..], j - 1); }
  }

  lemma CallKeepsConfig(m: Module, c: Config, k: nat, c': Config)
    requires IsWellFormed(m) && IsConfig(m, c) && CallsAt(m, c, k, c')
    ensures IsConfig(m, c')
  {
    assert CallIsWellFormed(m, c.function_, k);
    forall j | 0 <= j < |c'.args| ensures ParametersBelow(c'.args[j], 0) {
      InstanceIsClosed(Actuals(m, c.function_, k)[j], c.args);
    }
  }

  lemma {:induction false} InstanceIsClosed(ty: SignatureToken, subst: Signature)
    requires ParametersBelow(ty, |subst|)
    requires forall j :: 0 <= j < |subst| ==> ParametersBelow(subst[j], 0)
    ensures ParametersBelow(Instantiate(ty, subst), 0)
    decreases ty
  {
    match ty {
      case Vector(inner) => InstanceIsClosed(inner, subst);
      case Reference(inner) => InstanceIsClosed(inner, subst);
      case MutableReference(inner) => InstanceIsClosed(inner, subst);
      case StructInstantiation(h, args) =>
        forall i | 0 <= i < |args| ensures ParametersBelow(Instantiate(args[i], subst), 0) {
          InstanceIsClosed(args[i], subst);
        }
      case _ =>
    }
  }

  /** The deepest start argument or closed actual. */
  function StartDepth(c: Config, d: nat): nat {
    Max(Tokens.DepthAll(c.args), d)
  }

  /** Bounded instantiation: in an accepted module, along generic calls of any number, no type
      argument is deeper than the deepest start argument or closed actual plus all the constructors
      that the module's generic calls apply. */
  lemma BoundedInstantiation(m: Module, edges: seq<Edge>, c: Config, c': Config, n: nat, d: nat)
    requires NativesLast(m) && IsWellFormed(m) && IsGraph(m, edges) && Accepted(edges)
    requires BoundsClosedActuals(m, d) && IsConfig(m, c) && Chain(m, c, c', n)
    ensures IsConfig(m, c')
    ensures forall j :: 0 <= j < |c'.args| ==>
              Tokens.Depth(c'.args[j]) <= StartDepth(c, d) + Total(edges)
  {
    var b := StartDepth(c, d);
    assert forall i: nat, k: nat :: BoundsAtCall(m, i, k, d) ==> BoundsAtCall(m, i, k, b);
    ChainKeepsPotential(m, edges, c, c', n, b);
    forall j: nat | j < |c'.args| ensures Tokens.Depth(c'.args[j]) <= b + Total(edges) {
      PotentialAtMostTotal(edges, edges, Node(c'.function_, j));
    }
  }
}
