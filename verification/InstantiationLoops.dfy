/** The check against unbounded instantiation of generic functions: the graph of type formals, the
    condition on it, and what it says about chains of generic calls. */
module InstantiationLoops {
  import opened Collections
  import opened FileFormat
  import Tokens = SignatureTokens

  /** A native function has no code. */
  datatype FunctionDef = FunctionDef(handle: nat, typeFormals: nat, code: Option<Code>) {
    predicate IsNative() { code.None? }
  }

  type Module = seq<FunctionDef>

  datatype Node = Node(function_: nat, formal: nat)

  /** An edge is Identity when the actual is a bare type parameter, and TyConApp otherwise. */
  datatype Edge = Edge(source: Node, target: Node, ty: SignatureToken) {
    predicate IsTyConApp() { !ty.TypeParameter? }

    /** How much deeper than the parameter the actual may be. */
    function Weight(): nat { Tokens.Depth(ty) - 1 }
  }

  // ---------------------------------------------------------------- type parameters of a type

  function Params(ty: SignatureToken): set<nat>
    decreases Tokens.Nodes(ty), 0
  {
    if ty.TypeParameter? then {ty.idx} else ParamsAll(Tokens.Kids(ty))
  }

  function ParamsAll(tys: Signature): set<nat>
    decreases Tokens.NodesAll(tys), 1
  {
    if tys == [] then {} else Params(tys[0]) + ParamsAll(tys[1..])
  }

  /** `extract_type_parameters` */
  method ExtractTypeParameters(ty: SignatureToken) returns (typeParams: set<nat>)
    ensures typeParams == Params(ty)
  {
    typeParams := CollectTypeParameters({}, ty);
  }

  method CollectTypeParameters(typeParams: set<nat>, ty: SignatureToken) returns (r: set<nat>)
    ensures r == typeParams + Params(ty)
    decreases Tokens.Nodes(ty)
  {
    if ty.TypeParameter? { return typeParams + {ty.idx}; }
    r := typeParams;
    var rest := Tokens.Kids(ty);
    while rest != []
      invariant r + ParamsAll(rest) == typeParams + Params(ty)
      invariant Tokens.NodesAll(rest) < Tokens.Nodes(ty)
      decreases |rest|
    {
      r := CollectTypeParameters(r, rest[0]);
      rest := rest[1..];
    }
  }

  // ---------------------------------------------------------------- the graph

  /** The definition of a handle; a later definition of the same handle wins. */
  function HandleDefs(m: Module, n: nat): map<nat, nat>
    requires n <= |m|
  {
    if n == 0 then map[] else HandleDefs(m, n - 1)[m[n - 1].handle := n - 1]
  }

  /** The number the graph gives to definition `i` as a caller: natives are not counted. */
  function Number(m: Module, i: nat): nat
    requires i <= |m|
  {
    if i == 0 then 0 else Number(m, i - 1) + if m[i - 1].IsNative() then 0 else 1
  }

  /** Instruction `k` of function `i` is a call of a function of this module. */
  predicate IsCall(m: Module, i: nat, k: nat) {
    && i < |m| && m[i].code.Some? && k < |m[i].code.value|
    && m[i].code.value[k].Call?
    && m[i].code.value[k].function_ in HandleDefs(m, |m|)
  }

  function Actuals(m: Module, i: nat, k: nat): Signature
    requires IsCall(m, i, k)
  {
    m[i].code.value[k].typeArgs
  }

  function Callee(m: Module, i: nat, k: nat): nat
    requires IsCall(m, i, k)
  {
    HandleDefs(m, |m|)[m[i].code.value[k].function_]
  }

  /** Type parameter `p` of the caller occurs in the actual for formal `j`. */
  predicate Passes(m: Module, i: nat, k: nat, j: nat, p: nat) {
    IsCall(m, i, k) && j < |Actuals(m, i, k)| && p in Params(Actuals(m, i, k)[j])
  }

  function EdgeFor(m: Module, caller: nat, i: nat, k: nat, j: nat, p: nat): Edge
    requires Passes(m, i, k, j, p)
  {
    Edge(Node(caller, p), Node(Callee(m, i, k), j), Actuals(m, i, k)[j])
  }

  /** The edges of the graph as it is built. */
  ghost predicate IsEdge(m: Module, e: Edge) {
    exists i: nat, k: nat, j: nat, p: nat ::
      Passes(m, i, k, j, p) && e == EdgeFor(m, Number(m, i), i, k, j, p)
  }

  ghost predicate IsGraph(m: Module, edges: seq<Edge>) {
    forall e :: e in edges <==> IsEdge(m, e)
  }

  class InstantiationLoopChecker {
    const m: Module
    const funcHandleDefMap: map<nat, nat>
    var edges: seq<Edge>

    constructor (m: Module)
      ensures this.m == m && funcHandleDefMap == HandleDefs(m, |m|) && edges == []
    {
      this.m := m;
      var defs: map<nat, nat> := map[];
      for i := 0 to |m|
        invariant defs == HandleDefs(m, i)
      {
        defs := defs[m[i].handle := i];
      }
      funcHandleDefMap := defs;
      edges := [];
    }

    method AddEdge(from: Node, target: Node, ty: SignatureToken)
      modifies this`edges
      ensures edges == old(edges) + [Edge(from, target, ty)]
    {
      edges := edges + [Edge(from, target, ty)];
    }

    /** One type actual of a call. */
    method BuildGraphActual(caller: nat, callee: nat, formal: nat, ty: SignatureToken)
      modifies this`edges
      ensures forall e :: e in edges <==>
                e in old(edges)
                || (e.source.formal in Params(ty)
                    && e == Edge(Node(caller, e.source.formal), Node(callee, formal), ty))
    {
      if ty.TypeParameter? {
        AddEdge(Node(caller, ty.idx), Node(callee, formal), ty);
        return;
      }
      var todo := ExtractTypeParameters(ty);
      while todo != {}
        invariant todo <= Params(ty)
        invariant forall e :: e in edges <==>
                    e in old(edges)
                    || (e.source.formal in Params(ty) - todo
                        && e == Edge(Node(caller, e.source.formal), Node(callee, formal), ty))
        decreases |todo|
      {
        var p :| p in todo;
        AddEdge(Node(caller, p), Node(callee, formal), ty);
        todo := todo - {p};
      }
    }

    /** The edges of the first `n` actuals of a call. */
    ghost predicate CallEdge(e: Edge, caller: nat, callee: nat, actuals: Signature, n: nat) {
      && e.source.function_ == caller && e.target.function_ == callee
      && e.target.formal < n <= |actuals|
      && e.ty == actuals[e.target.formal] && e.source.formal in Params(e.ty)
    }

    method BuildGraphCall(caller: nat, callee: nat, actuals: Signature)
      modifies this`edges
      ensures forall e :: e in edges <==>
                e in old(edges) || CallEdge(e, caller, callee, actuals, |actuals|)
    {
      for j := 0 to |actuals|
        invariant forall e :: e in edges <==>
                    e in old(edges) || CallEdge(e, caller, callee, actuals, j)
      {
        BuildGraphActual(caller, callee, j, actuals[j]);
      }
    }

    /** The edges of the first `n` instructions of a function. */
    ghost predicate FunctionEdge(e: Edge, caller: nat, i: nat, n: nat) {
      exists k: nat :: k < n && IsCall(m, i, k)
        && CallEdge(e, caller, Callee(m, i, k), Actuals(m, i, k), |Actuals(m, i, k)|)
    }

    method BuildGraphFunctionDef(caller: nat, i: nat)
      requires i < |m| && funcHandleDefMap == HandleDefs(m, |m|)
      modifies this`edges
      ensures forall e :: e in edges <==>
                e in old(edges)
                || (m[i].code.Some? && FunctionEdge(e, caller, i, |m[i].code.value|))
    {
      if m[i].code.None? { return; }
      var code := m[i].code.value;
      for k := 0 to |code|
        invariant forall e :: e in edges <==> e in old(edges) || FunctionEdge(e, caller, i, k)
      {
        ghost var before := edges;
        if code[k].Call? && code[k].function_ in funcHandleDefMap {
          assert IsCall(m, i, k);
          BuildGraphCall(caller, funcHandleDefMap[code[k].function_], code[k].typeArgs);
        }
        forall e ensures e in edges <==> e in old(edges) || FunctionEdge(e, caller, i, k + 1) {
          FunctionEdgeStep(e, caller, i, k);
        }
      }
    }

    lemma FunctionEdgeStep(e: Edge, caller: nat, i: nat, k: nat)
      ensures FunctionEdge(e, caller, i, k + 1) <==>
              || FunctionEdge(e, caller, i, k)
              || (IsCall(m, i, k)
                  && CallEdge(e, caller, Callee(m, i, k), Actuals(m, i, k), |Actuals(m, i, k)|))
    {
      if FunctionEdge(e, caller, i, k + 1) {
        var x: nat :| x < k + 1 && IsCall(m, i, x)
          && CallEdge(e, caller, Callee(m, i, x), Actuals(m, i, x), |Actuals(m, i, x)|);
      }
    }

    /** The edges of the first `n` definitions. */
    ghost predicate ModuleEdge(e: Edge, n: nat) {
      exists i: nat :: i < n && i < |m| && m[i].code.Some?
        && FunctionEdge(e, Number(m, i), i, |m[i].code.value|)
    }

    /** Natives are filtered out before the definitions are numbered. */
    method BuildGraph()
      requires funcHandleDefMap == HandleDefs(m, |m|) && edges == []
      modifies this`edges
      ensures IsGraph(m, edges)
    {
      var number := 0;
      for i := 0 to |m|
        invariant number == Number(m, i)
        invariant forall e :: e in edges <==> ModuleEdge(e, i)
      {
        if !m[i].IsNative() {
          BuildGraphFunctionDef(number, i);
          number := number + 1;
        }
      }
      forall e ensures e in edges <==> IsEdge(m, e) {
        ModuleEdgeIsEdge(e);
      }
    }

    lemma ModuleEdgeIsEdge(e: Edge)
      ensures ModuleEdge(e, |m|) <==> IsEdge(m, e)
    {
      if ModuleEdge(e, |m|) {
        var i: nat :| i < |m| && m[i].code.Some?
          && FunctionEdge(e, Number(m, i), i, |m[i].code.value|);
        var k: nat :| k < |m[i].code.value| && IsCall(m, i, k)
          && CallEdge(e, Number(m, i), Callee(m, i, k), Actuals(m, i, k), |Actuals(m, i, k)|);
        assert Passes(m, i, k, e.target.formal, e.source.formal);
      }
      if IsEdge(m, e) {
        var i: nat, k: nat, j: nat, p: nat :|
          Passes(m, i, k, j, p) && e == EdgeFor(m, Number(m, i), i, k, j, p);
        assert CallEdge(e, Number(m, i), Callee(m, i, k), Actuals(m, i, k), |Actuals(m, i, k)|);
        assert FunctionEdge(e, Number(m, i), i, |m[i].code.value|);
      }
    }
  }

  // ---------------------------------------------------------------- the condition on the graph

  ghost predicate ReachesIn(edges: seq<Edge>, u: Node, v: Node, n: nat)
    decreases n
  {
    if n == 0 then u == v
    else exists e :: e in edges && e.target == v && ReachesIn(edges, u, e.source, n - 1)
  }

  ghost predicate Reaches(edges: seq<Edge>, u: Node, v: Node) {
    exists n: nat :: ReachesIn(edges, u, v, n)
  }

  /** A TyConApp edge inside a strongly connected component. */
  ghost predicate IsGrowing(edges: seq<Edge>, e: Edge) {
    e in edges && e.IsTyConApp() && Reaches(edges, e.target, e.source)
  }

  ghost predicate Accepted(edges: seq<Edge>) {
    forall e :: !IsGrowing(edges, e)
  }

  lemma ReachesNext(edges: seq<Edge>, u: Node, e: Edge)
    requires e in edges && Reaches(edges, u, e.source)
    ensures Reaches(edges, u, e.target)
  {
    var n: nat :| ReachesIn(edges, u, e.source, n);
    assert ReachesIn(edges, u, e.target, n + 1);
  }

  lemma ReachesItself(edges: seq<Edge>, u: Node)
    ensures Reaches(edges, u, u)
  {
    assert ReachesIn(edges, u, u, 0);
  }

  ghost predicate ClosedUnder(edges: seq<Edge>, seen: set<Node>) {
    forall e :: e in edges && e.source in seen ==> e.target in seen
  }

  lemma {:induction false} ClosedSetHoldsReached(edges: seq<Edge>, seen: set<Node>, u: Node, v: Node, n: nat)
    requires ClosedUnder(edges, seen) && u in seen && ReachesIn(edges, u, v, n)
    ensures v in seen
    decreases n
  {
    if n > 0 {
      var e :| e in edges && e.target == v && ReachesIn(edges, u, e.source, n - 1);
      ClosedSetHoldsReached(edges, seen, u, e.source, n - 1);
    }
  }

  /** The nodes reached from `u`. */
  method ReachedFrom(edges: seq<Edge>, u: Node) returns (seen: set<Node>)
    ensures forall v :: v in seen <==> Reaches(edges, u, v)
  {
    var all := {u} + set e | e in edges :: e.target;
    seen := {u};
    ReachesItself(edges, u);
    var changed := true;
    while changed
      invariant u in seen && seen <= all
      invariant forall v :: v in seen ==> Reaches(edges, u, v)
      invariant !changed ==> ClosedUnder(edges, seen)
      decreases |all - seen|, if changed then 1 else 0
    {
      var frontier := set e | e in edges && e.source in seen && e.target !in seen :: e.target;
      changed := frontier != {};
      forall v | v in frontier ensures Reaches(edges, u, v) {
        var e :| e in edges && e.source in seen && e.target !in seen && v == e.target;
        ReachesNext(edges, u, e);
      }
      if changed {
        var v :| v in frontier;
        assert all - (seen + frontier) < all - seen by {
          assert v in all - seen && v !in all - (seen + frontier);
        }
        SubsetSize(all - (seen + frontier), all - seen);
      } else {
        forall e | e in edges && e.source in seen ensures e.target in seen {
          assert e.target !in seen ==> e.target in frontier;
        }
      }
      seen := seen + frontier;
    }
    forall v ensures v in seen <==> Reaches(edges, u, v) {
      if Reaches(edges, u, v) {
        var n: nat :| ReachesIn(edges, u, v, n);
        ClosedSetHoldsReached(edges, seen, u, v, n);
      }
    }
  }

  /** `verify_module_impl`: the module is accepted when no TyConApp edge lies in a strongly connected
      component, that is, when none of them can be returned from. */
  method VerifyModule(m: Module) returns (ok: bool, ghost edges: seq<Edge>)
    ensures IsGraph(m, edges) && (ok <==> Accepted(edges))
  {
    var checker := new InstantiationLoopChecker(m);
    checker.BuildGraph();
    var es := checker.edges;
    edges := es;
    for i := 0 to |es|
      invariant forall k :: 0 <= k < i ==> !IsGrowing(es, es[k])
    {
      if es[i].IsTyConApp() {
        var reached := ReachedFrom(es, es[i].target);
        if es[i].source in reached {
          assert IsGrowing(es, es[i]);
          return false, edges;
        }
      }
    }
    forall e ensures !IsGrowing(es, e) {
      if e in es {
        var k :| 0 <= k < |es| && es[k] == e;
      }
    }
    return true, edges;
  }
}
