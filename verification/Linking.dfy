/** Linking a module or script against its dependencies: what the linker looks up, and the checks. */
module Linking {
  import opened FileFormat

  type Identifier = string

  datatype ModuleId = ModuleId(address: nat, name: Identifier)

  /** A module and the name of one of its structs or functions. */
  type Key = (ModuleId, Identifier)

  datatype Visibility = Public | Script | Friend | Private

  /** The handle of a struct, with the module that owns it. */
  datatype StructHandle = StructHandle(
    owner: ModuleId,
    name: Identifier,
    abilities: AbilitySet,
    typeParameters: seq<StructTypeParameter>)

  datatype FunHandle = FunHandle(
    owner: ModuleId,
    name: Identifier,
    parameters: Signature,
    return_: Signature,
    typeParameters: seq<AbilitySet>)

  datatype Field = Field(name: Identifier, ty: SignatureToken)

  /** A native struct has no fields. */
  datatype StructDef = StructDef(handle: nat, fields: Option<seq<Field>>)

  /** A native function has no code. */
  datatype FunDef = FunDef(handle: nat, visibility: Visibility, code: Option<Code>)

  datatype CompiledModule = CompiledModule(
    id: ModuleId,
    moduleHandles: seq<ModuleId>,
    structHandles: seq<StructHandle>,
    funHandles: seq<FunHandle>,
    structDefs: seq<StructDef>,
    funDefs: seq<FunDef>,
    friends: seq<ModuleId>)

  /** A body to check: its visibility and its code. */
  datatype Body = Body(visibility: Visibility, code: Code)

  /** What the linker sees of a module or a script; a script has no identity and no definitions. */
  datatype View = View(
    selfId: Option<ModuleId>,
    moduleHandles: seq<ModuleId>,
    structHandles: seq<StructHandle>,
    funHandles: seq<FunHandle>,
    funDefs: seq<FunDef>,
    bodies: seq<Body>)

  function Bodies(defs: seq<FunDef>): seq<Body> {
    if defs == [] then []
    else
      (if defs[0].code.Some? then [Body(defs[0].visibility, defs[0].code.value)] else [])
      + Bodies(defs[1..])
  }

  function ModuleView(m: CompiledModule): View {
    View(Some(m.id), m.moduleHandles, m.structHandles, m.funHandles, m.funDefs, Bodies(m.funDefs))
  }

  function ScriptView(moduleHandles: seq<ModuleId>, structHandles: seq<StructHandle>,
      funHandles: seq<FunHandle>, code: Code): View
  {
    View(None, moduleHandles, structHandles, funHandles, [], [Body(Script, code)])
  }

  // ---------------------------------------------------------------- tables in bounds

  /** Struct indexes in the type are in the table, and a struct that is not instantiated has no type
      parameters. */
  predicate TypeInBounds(handles: seq<StructHandle>, ty: SignatureToken)
    decreases ty
  {
    match ty
    case Struct(h) => h < |handles| && handles[h].typeParameters == []
    case StructInstantiation(h, args) =>
      h < |handles| && forall i :: 0 <= i < |args| ==> TypeInBounds(handles, args[i])
    case Vector(inner) => TypeInBounds(handles, inner)
    case Reference(inner) => TypeInBounds(handles, inner)
    case MutableReference(inner) => TypeInBounds(handles, inner)
    case _ => true
  }

  predicate SignatureInBounds(handles: seq<StructHandle>, sig: Signature) {
    forall i :: 0 <= i < |sig| ==> TypeInBounds(handles, sig[i])
  }

  predicate HandlesInBounds(structs: seq<StructHandle>, funs: seq<FunHandle>) {
    forall i :: 0 <= i < |funs| ==>
      SignatureInBounds(structs, funs[i].parameters) && SignatureInBounds(structs, funs[i].return_)
  }

  predicate FieldsInBounds(m: CompiledModule, def: StructDef) {
    def.fields.Some? ==>
      forall i :: 0 <= i < |def.fields.value| ==> TypeInBounds(m.structHandles, def.fields.value[i].ty)
  }

  /** What the bounds and signature checks establish for a module. */
  predicate InBounds(m: CompiledModule) {
    && HandlesInBounds(m.structHandles, m.funHandles)
    && (forall i :: 0 <= i < |m.structDefs| ==>
          m.structDefs[i].handle < |m.structHandles| && FieldsInBounds(m, m.structDefs[i]))
    && (forall i :: 0 <= i < |m.funDefs| ==> m.funDefs[i].handle < |m.funHandles|)
  }

  function FunName(m: CompiledModule, i: nat): Identifier
    requires InBounds(m) && i < |m.funDefs|
  {
    m.funHandles[m.funDefs[i].handle].name
  }

  function StructName(m: CompiledModule, i: nat): Identifier
    requires InBounds(m) && i < |m.structDefs|
  {
    m.structHandles[m.structDefs[i].handle].name
  }

  /** What the duplication check establishes for function definitions. */
  predicate UniqueFunctions(m: CompiledModule)
    requires InBounds(m)
  {
    forall i, j :: 0 <= i < j < |m.funDefs| ==> FunName(m, i) != FunName(m, j)
  }

  type Dependencies = map<ModuleId, CompiledModule>

  predicate DependenciesInBounds(deps: Dependencies) {
    forall id :: id in deps ==> InBounds(deps[id]) && deps[id].id == id
  }

  // ---------------------------------------------------------------- what the linker looks up

  /** The handle of the last definition of a struct name among the first `n`. */
  function FindStruct(m: CompiledModule, name: Identifier, n: nat): (r: Option<nat>)
    requires InBounds(m) && n <= |m.structDefs|
    ensures r.Some? ==> r.value < |m.structHandles| && m.structHandles[r.value].name == name
  {
    if n == 0 then None
    else if StructName(m, n - 1) == name then Some(m.structDefs[n - 1].handle)
    else FindStruct(m, name, n - 1)
  }

  predicate MayBeCalled(m: CompiledModule, visibility: Visibility, selfId: Option<ModuleId>) {
    match visibility
    case Public => true
    case Script => true
    case Friend => selfId.Some? && selfId.value in m.friends
    case Private => false
  }

  predicate Anyone(visibility: Visibility) { true }

  /** The last definition of a function name among the first `n` with an admitted visibility. */
  function FindFun(m: CompiledModule, name: Identifier, admits: Visibility -> bool, n: nat): (r: Option<nat>)
    requires InBounds(m) && n <= |m.funDefs|
    ensures r.Some? ==> r.value < n && FunName(m, r.value) == name && admits(m.funDefs[r.value].visibility)
  {
    if n == 0 then None
    else if FunName(m, n - 1) == name && admits(m.funDefs[n - 1].visibility) then Some(n - 1)
    else FindFun(m, name, admits, n - 1)
  }

  function Callable(m: CompiledModule, selfId: Option<ModuleId>): Visibility -> bool {
    (v: Visibility) => MayBeCalled(m, v, selfId)
  }

  /** The visibility of a function handle of the view: of its own definition, or of the dependency's. */
  function VisibilityOf(view: View, deps: Dependencies, h: nat): Option<Visibility>
    requires DependenciesInBounds(deps) && h < |view.funHandles|
  {
    var handle := view.funHandles[h];
    if Some(handle.owner) == view.selfId then OwnVisibility(view.funDefs, h)
    else if handle.owner !in deps then OwnVisibility(view.funDefs, h)
    else
      var m := deps[handle.owner];
      match FindFun(m, handle.name, Anyone, |m.funDefs|)
      case Some(i) => Some(m.funDefs[i].visibility)
      case None => OwnVisibility(view.funDefs, h)
  }

  function OwnVisibility(defs: seq<FunDef>, h: nat): Option<Visibility> {
    if defs == [] then None
    else if defs[|defs| - 1].handle == h then Some(defs[|defs| - 1].visibility)
    else OwnVisibility(defs[..|defs| - 1], h)
  }

  // ---------------------------------------------------------------- the context

  datatype Context = Context(
    deps: Dependencies,
    structIds: map<Key, nat>,
    funIds: map<Key, nat>,
    visibilities: map<nat, Visibility>)

  /** A context answers each lookup as the definitions say. */
  ghost predicate IsContext(view: View, deps: Dependencies, c: Context)
    requires DependenciesInBounds(deps)
  {
    && c.deps == deps
    && (forall id, name: Identifier :: id in deps ==> StructEntry(deps[id], name, c))
    && (forall id, name: Identifier :: id in deps ==> FunEntry(view.selfId, deps[id], name, c))
    && (forall h: nat :: h < |view.funHandles| ==> VisibilityEntry(view, deps, h, c))
  }

  ghost predicate StructEntry(m: CompiledModule, name: Identifier, c: Context)
    requires InBounds(m)
  {
    var r := FindStruct(m, name, |m.structDefs|);
    ((m.id, name) in c.structIds <==> r.Some?) && (r.Some? ==> c.structIds[(m.id, name)] == r.value)
  }

  ghost predicate FunEntry(selfId: Option<ModuleId>, m: CompiledModule, name: Identifier, c: Context)
    requires InBounds(m)
  {
    var r := FindFun(m, name, Callable(m, selfId), |m.funDefs|);
    && ((m.id, name) in c.funIds <==> r.Some?)
    && (r.Some? ==> c.funIds[(m.id, name)] == m.funDefs[r.value].handle)
  }

  ghost predicate VisibilityEntry(view: View, deps: Dependencies, h: nat, c: Context)
    requires DependenciesInBounds(deps) && h < |view.funHandles|
  {
    var r := VisibilityOf(view, deps, h);
    (h in c.visibilities <==> r.Some?) && (r.Some? ==> c.visibilities[h] == r.value)
  }

  /** Keeps the last dependency of each identity, except the module itself. */
  function DependencyMap(selfId: Option<ModuleId>, dependencies: seq<CompiledModule>): Dependencies {
    if dependencies == [] then map[]
    else
      var last := dependencies[|dependencies| - 1];
      var before := DependencyMap(selfId, dependencies[..|dependencies| - 1]);
      if Some(last.id) == selfId then before else before[last.id := last]
  }

  predicate AllInBounds(dependencies: seq<CompiledModule>) {
    forall i :: 0 <= i < |dependencies| ==> InBounds(dependencies[i])
  }

  lemma {:induction false} DependencyMapInBounds(selfId: Option<ModuleId>, dependencies: seq<CompiledModule>)
    requires AllInBounds(dependencies)
    ensures DependenciesInBounds(DependencyMap(selfId, dependencies))
    ensures selfId.Some? ==> selfId.value !in DependencyMap(selfId, dependencies)
  {
    if dependencies != [] { DependencyMapInBounds(selfId, dependencies[..|dependencies| - 1]); }
  }

  /** Only the entries of module `id` differ. */
  ghost predicate OthersKept<V>(id: ModuleId, before: map<Key, V>, after: map<Key, V>) {
    forall key: Key :: key.0 != id ==>
      (key in after <==> key in before) && (key in after ==> after[key] == before[key])
  }

  /** The first `n` struct definitions of the module have been entered. */
  ghost predicate StructsAdded(m: CompiledModule, name: Identifier, n: nat, r: map<Key, nat>)
    requires InBounds(m) && n <= |m.structDefs|
  {
    var found := FindStruct(m, name, n);
    ((m.id, name) in r <==> found.Some?) && (found.Some? ==> r[(m.id, name)] == found.value)
  }

  method AddStructs(m: CompiledModule, structIds: map<Key, nat>) returns (r: map<Key, nat>)
    requires InBounds(m) && forall key :: key in structIds ==> key.0 != m.id
    ensures OthersKept(m.id, structIds, r)
    ensures forall name: Identifier :: StructsAdded(m, name, |m.structDefs|, r)
  {
    r := structIds;
    for i := 0 to |m.structDefs|
      invariant OthersKept(m.id, structIds, r)
      invariant forall name: Identifier :: StructsAdded(m, name, i, r)
    {
      ghost var before, next := r, i + 1;
      r := r[(m.id, StructName(m, i)) := m.structDefs[i].handle];
      forall name: Identifier ensures StructsAdded(m, name, next, r) {
        assert StructsAdded(m, name, i, before);
      }
    }
  }

  ghost predicate FunsAdded(m: CompiledModule, selfId: Option<ModuleId>, name: Identifier, n: nat,
      r: map<Key, nat>, vis: map<Key, Visibility>)
    requires InBounds(m) && n <= |m.funDefs|
  {
    var found := FindFun(m, name, Callable(m, selfId), n);
    var any := FindFun(m, name, Anyone, n);
    && ((m.id, name) in r <==> found.Some?)
    && (found.Some? ==> r[(m.id, name)] == m.funDefs[found.value].handle)
    && ((m.id, name) in vis <==> any.Some?)
    && (any.Some? ==> vis[(m.id, name)] == m.funDefs[any.value].visibility)
  }

  method AddFuns(m: CompiledModule, selfId: Option<ModuleId>, funIds: map<Key, nat>,
      visibilities: map<Key, Visibility>)
    returns (r: map<Key, nat>, vis: map<Key, Visibility>)
    requires InBounds(m)
    requires forall key :: key in funIds ==> key.0 != m.id
    requires forall key :: key in visibilities ==> key.0 != m.id
    ensures OthersKept(m.id, funIds, r) && OthersKept(m.id, visibilities, vis)
    ensures forall name: Identifier :: FunsAdded(m, selfId, name, |m.funDefs|, r, vis)
  {
    r, vis := funIds, visibilities;
    for i := 0 to |m.funDefs|
      invariant OthersKept(m.id, funIds, r) && OthersKept(m.id, visibilities, vis)
      invariant forall name: Identifier :: FunsAdded(m, selfId, name, i, r, vis)
    {
      var def := m.funDefs[i];
      ghost var r0, vis0, next := r, vis, i + 1;
      vis := vis[(m.id, FunName(m, i)) := def.visibility];
      if MayBeCalled(m, def.visibility, selfId) {
        r := r[(m.id, FunName(m, i)) := def.handle];
      }
      forall name: Identifier ensures FunsAdded(m, selfId, name, next, r, vis) {
        assert FunsAdded(m, selfId, name, i, r0, vis0);
      }
    }
  }

  ghost predicate Entered(selfId: Option<ModuleId>, m: CompiledModule, name: Identifier,
      structIds: map<Key, nat>, funIds: map<Key, nat>, vis: map<Key, Visibility>)
    requires InBounds(m)
  {
    && StructsAdded(m, name, |m.structDefs|, structIds)
    && FunsAdded(m, selfId, name, |m.funDefs|, funIds, vis)
  }

  /** The definitions of the dependencies in `seen` have been entered, and nothing else. */
  ghost predicate Gathered(selfId: Option<ModuleId>, deps: Dependencies, seen: set<ModuleId>,
      structIds: map<Key, nat>, funIds: map<Key, nat>, vis: map<Key, Visibility>)
    requires DependenciesInBounds(deps) && seen <= deps.Keys
  {
    && (forall key :: key in structIds || key in funIds || key in vis ==> key.0 in seen)
    && (forall id, name: Identifier :: id in seen ==>
          Entered(selfId, deps[id], name, structIds, funIds, vis))
  }

  method AddDependency(selfId: Option<ModuleId>, deps: Dependencies, ghost seen: set<ModuleId>,
      id: ModuleId, structIds: map<Key, nat>, funIds: map<Key, nat>, vis: map<Key, Visibility>)
    returns (structIds': map<Key, nat>, funIds': map<Key, nat>, vis': map<Key, Visibility>)
    requires DependenciesInBounds(deps) && seen <= deps.Keys && id in deps.Keys - seen
    requires Gathered(selfId, deps, seen, structIds, funIds, vis)
    ensures Gathered(selfId, deps, seen + {id}, structIds', funIds', vis')
  {
    structIds' := AddStructs(deps[id], structIds);
    funIds', vis' := AddFuns(deps[id], selfId, funIds, vis);
    forall key | key in structIds' || key in funIds' || key in vis' ensures key.0 in seen + {id} {
      assert key.0 != id ==> key in structIds || key in funIds || key in vis;
    }
    forall x, name: Identifier | x in seen + {id}
      ensures Entered(selfId, deps[x], name, structIds', funIds', vis')
    {
      if x != id { assert Entered(selfId, deps[x], name, structIds, funIds, vis); }
    }
  }

  method CollectDependencies(selfId: Option<ModuleId>, dependencies: seq<CompiledModule>)
    returns (deps: Dependencies)
    ensures deps == DependencyMap(selfId, dependencies)
  {
    deps := map[];
    for i := 0 to |dependencies|
      invariant deps == DependencyMap(selfId, dependencies[..i])
    {
      assert dependencies[..i + 1][..i] == dependencies[..i];
      if Some(dependencies[i].id) != selfId {
        deps := deps[dependencies[i].id := dependencies[i]];
      }
    }
    assert dependencies[..|dependencies|] == dependencies;
  }

  lemma MoveOne<T>(all: set<T>, todo: set<T>)
    requires todo <= all
    ensures forall x :: x in todo ==> (all - todo) + {x} == all - (todo - {x})
    ensures all - all == {} && all - {} == all
  {}

  method GatherDependencies(selfId: Option<ModuleId>, deps: Dependencies)
    returns (structIds: map<Key, nat>, funIds: map<Key, nat>, vis: map<Key, Visibility>)
    requires DependenciesInBounds(deps)
    ensures Gathered(selfId, deps, deps.Keys, structIds, funIds, vis)
  {
    structIds, funIds, vis := map[], map[], map[];
    var all := deps.Keys;
    var todo := all;
    MoveOne(all, todo);
    while todo != {}
      invariant todo <= all
      invariant Gathered(selfId, deps, all - todo, structIds, funIds, vis)
      decreases |todo|
    {
      var id :| id in todo;
      structIds, funIds, vis := AddDependency(selfId, deps, all - todo, id, structIds, funIds, vis);
      MoveOne(all, todo);
      todo := todo - {id};
    }
    MoveOne(all, todo);
  }

  /** `Context::new` */
  method NewContext(view: View, dependencies: seq<CompiledModule>) returns (c: Context)
    requires AllInBounds(dependencies)
    ensures DependenciesInBounds(DependencyMap(view.selfId, dependencies))
    ensures IsContext(view, DependencyMap(view.selfId, dependencies), c)
  {
    DependencyMapInBounds(view.selfId, dependencies);
    var deps := CollectDependencies(view.selfId, dependencies);
    var structIds, funIds, vis := GatherDependencies(view.selfId, deps);
    var visibilities := AddVisibilities(view, deps, structIds, funIds, vis);
    c := Context(deps, structIds, funIds, visibilities);
    GatheredIsContext(view, deps, c, vis);
  }

  lemma GatheredIsContext(view: View, deps: Dependencies, c: Context, vis: map<Key, Visibility>)
    requires DependenciesInBounds(deps) && c.deps == deps
    requires Gathered(view.selfId, deps, deps.Keys, c.structIds, c.funIds, vis)
    requires forall h: nat :: h < |view.funHandles| ==> VisibilityEntry(view, deps, h, c)
    ensures IsContext(view, deps, c)
  {
    forall id, name: Identifier | id in deps
      ensures StructEntry(deps[id], name, c) && FunEntry(view.selfId, deps[id], name, c)
    {
      assert Entered(view.selfId, deps[id], name, c.structIds, c.funIds, vis);
    }
  }

  method AddVisibilities(view: View, deps: Dependencies, ghost structIds: map<Key, nat>,
      ghost funIds: map<Key, nat>, vis: map<Key, Visibility>)
    returns (visibilities: map<nat, Visibility>)
    requires DependenciesInBounds(deps)
    requires Gathered(view.selfId, deps, deps.Keys, structIds, funIds, vis)
    ensures forall h: nat :: h < |view.funHandles| ==>
              VisibilityEntry(view, deps, h, Context(deps, structIds, funIds, visibilities))
  {
    visibilities := map[];
    for i := 0 to |view.funDefs|
      invariant forall h: nat :: OwnEntry(view.funDefs[..i], h, visibilities)
    {
      ghost var before, defs := visibilities, view.funDefs[..i + 1];
      visibilities := visibilities[view.funDefs[i].handle := view.funDefs[i].visibility];
      assert defs[..i] == view.funDefs[..i];
      forall h: nat ensures OwnEntry(defs, h, visibilities) {
        assert OwnEntry(view.funDefs[..i], h, before);
      }
    }
    assert view.funDefs[..|view.funDefs|] == view.funDefs;
    for h := 0 to |view.funHandles|
      invariant forall x: nat :: h <= x ==> OwnEntry(view.funDefs, x, visibilities)
      invariant forall x: nat :: x < h ==>
                  VisibilityEntry(view, deps, x, Context(deps, structIds, funIds, visibilities))
    {
      ghost var before := visibilities;
      var handle := view.funHandles[h];
      assert OwnEntry(view.funDefs, h, visibilities);
      assert handle.owner in deps ==>
          Entered(view.selfId, deps[handle.owner], handle.name, structIds, funIds, vis);
      if Some(handle.owner) != view.selfId && (handle.owner, handle.name) in vis {
        visibilities := visibilities[h := vis[(handle.owner, handle.name)]];
      }
      forall x: nat | h < x ensures OwnEntry(view.funDefs, x, visibilities) {
        assert OwnEntry(view.funDefs, x, before);
      }
      forall x: nat | x < h
        ensures VisibilityEntry(view, deps, x, Context(deps, structIds, funIds, visibilities))
      {
        assert VisibilityEntry(view, deps, x, Context(deps, structIds, funIds, before));
      }
    }
  }

  ghost predicate OwnEntry(defs: seq<FunDef>, h: nat, visibilities: map<nat, Visibility>) {
    var r := OwnVisibility(defs, h);
    (h in visibilities <==> r.Some?) && (r.Some? ==> visibilities[h] == r.value)
  }
}
