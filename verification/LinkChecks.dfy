/** The linker's checks of a module or script against its dependencies. */
module LinkChecks {
  import opened FileFormat
  import opened Linking

  // ---------------------------------------------------------------- local view and definition

  predicate CompatibleConstraints(local: AbilitySet, defined: AbilitySet) {
    defined <= local
  }

  predicate CompatiblePhantom(local: StructTypeParameter, defined: StructTypeParameter) {
    !local.isPhantom || defined.isPhantom
  }

  predicate CompatibleFunTypeParameters(local: seq<AbilitySet>, defined: seq<AbilitySet>) {
    && |local| == |defined|
    && forall i :: 0 <= i < |local| ==> CompatibleConstraints(local[i], defined[i])
  }

  predicate CompatibleStructTypeParameters(local: seq<StructTypeParameter>, defined: seq<StructTypeParameter>) {
    && |local| == |defined|
    && forall i :: 0 <= i < |local| ==>
         && CompatiblePhantom(local[i], defined[i])
         && CompatibleConstraints(local[i].constraints, defined[i].constraints)
  }

  predicate CompatibleStructs(local: StructHandle, defined: StructHandle) {
    && local.abilities <= defined.abilities
    && CompatibleStructTypeParameters(local.typeParameters, defined.typeParameters)
  }

  /** `compare_structs`: the same module and name. */
  predicate SameStruct(local: StructHandle, defined: StructHandle) {
    local.owner == defined.owner && local.name == defined.name
  }

  /** `compare_types`, each side over its own struct handles */
  predicate TypesMatch(locals: seq<StructHandle>, a: SignatureToken, defs: seq<StructHandle>, b: SignatureToken)
    requires TypeInBounds(locals, a) && TypeInBounds(defs, b)
    decreases a
  {
    match (a, b)
    case (Bool, Bool) => true
    case (U8, U8) => true
    case (U64, U64) => true
    case (U128, U128) => true
    case (Address, Address) => true
    case (Signer, Signer) => true
    case (Vector(x), Vector(y)) => TypesMatch(locals, x, defs, y)
    case (Struct(i), Struct(j)) => SameStruct(locals[i], defs[j])
    case (StructInstantiation(i, xs), StructInstantiation(j, ys)) =>
      && SameStruct(locals[i], defs[j])
      && |xs| == |ys|
      && forall k :: 0 <= k < |xs| ==> TypesMatch(locals, xs[k], defs, ys[k])
    case (Reference(x), Reference(y)) => TypesMatch(locals, x, defs, y)
    case (MutableReference(x), MutableReference(y)) => TypesMatch(locals, x, defs, y)
    case (TypeParameter(i), TypeParameter(j)) => i == j
    case _ => false
  }

  /** `compare_cross_module_signatures` */
  predicate SignaturesMatch(locals: seq<StructHandle>, xs: Signature, defs: seq<StructHandle>, ys: Signature)
    requires SignatureInBounds(locals, xs) && SignatureInBounds(defs, ys)
  {
    && |xs| == |ys|
    && forall k :: 0 <= k < |xs| ==> TypesMatch(locals, xs[k], defs, ys[k])
  }

  // ---------------------------------------------------------------- what it means to link

  /** What the bounds and duplication checks establish for the view. */
  predicate ViewInBounds(view: View) {
    && HandlesInBounds(view.structHandles, view.funHandles)
    && (forall h :: 0 <= h < |view.structHandles| ==> view.structHandles[h].owner in view.moduleHandles)
    && (forall h :: 0 <= h < |view.funHandles| ==> view.funHandles[h].owner in view.moduleHandles)
    && (forall h :: 0 <= h < |view.funHandles| && Some(view.funHandles[h].owner) == view.selfId ==>
          OwnVisibility(view.funDefs, h).Some?)
    && (forall b :: 0 <= b < |view.bodies| ==> CallsInBounds(view, view.bodies[b].code))
  }

  predicate CallsInBounds(view: View, code: Code) {
    forall k :: 0 <= k < |code| && code[k].Call? ==> code[k].function_ < |view.funHandles|
  }

  predicate ModuleLinks(view: View, deps: Dependencies, id: ModuleId) {
    Some(id) == view.selfId || id in deps
  }

  predicate ModulesLink(view: View, deps: Dependencies) {
    forall i :: 0 <= i < |view.moduleHandles| ==> ModuleLinks(view, deps, view.moduleHandles[i])
  }

  predicate StructLinks(view: View, deps: Dependencies, h: nat)
    requires DependenciesInBounds(deps) && h < |view.structHandles|
  {
    var handle := view.structHandles[h];
    || Some(handle.owner) == view.selfId
    || (handle.owner in deps
        && var m := deps[handle.owner];
           var def := FindStruct(m, handle.name, |m.structDefs|);
           def.Some? && CompatibleStructs(handle, m.structHandles[def.value]))
  }

  predicate FunMatches(view: View, handle: FunHandle, m: CompiledModule, def: FunHandle)
    requires SignatureInBounds(view.structHandles, handle.parameters)
    requires SignatureInBounds(view.structHandles, handle.return_)
    requires SignatureInBounds(m.structHandles, def.parameters)
    requires SignatureInBounds(m.structHandles, def.return_)
  {
    && CompatibleFunTypeParameters(handle.typeParameters, def.typeParameters)
    && SignaturesMatch(view.structHandles, handle.parameters, m.structHandles, def.parameters)
    && SignaturesMatch(view.structHandles, handle.return_, m.structHandles, def.return_)
  }

  predicate FunLinks(view: View, deps: Dependencies, h: nat)
    requires DependenciesInBounds(deps) && ViewInBounds(view) && h < |view.funHandles|
  {
    var handle := view.funHandles[h];
    || Some(handle.owner) == view.selfId
    || (handle.owner in deps
        && var m := deps[handle.owner];
           var def := FindFun(m, handle.name, Callable(m, view.selfId), |m.funDefs|);
           def.Some? && FunMatches(view, handle, m, m.funHandles[m.funDefs[def.value].handle]))
  }

  /** Only script functions call script functions. */
  predicate CallIsAllowed(view: View, deps: Dependencies, caller: Visibility, h: nat)
    requires DependenciesInBounds(deps) && h < |view.funHandles|
  {
    VisibilityOf(view, deps, h) == Some(Script) ==> caller == Script
  }

  predicate CodeIsAllowed(view: View, deps: Dependencies, body: Body)
    requires DependenciesInBounds(deps) && CallsInBounds(view, body.code)
  {
    forall k :: 0 <= k < |body.code| && body.code[k].Call? ==>
      CallIsAllowed(view, deps, body.visibility, body.code[k].function_)
  }

  /** Everything that `verify_module` and `verify_script` check. */
  predicate Links(view: View, deps: Dependencies)
    requires DependenciesInBounds(deps) && ViewInBounds(view)
  {
    && ModulesLink(view, deps)
    && (forall h :: 0 <= h < |view.structHandles| ==> StructLinks(view, deps, h))
    && (forall h :: 0 <= h < |view.funHandles| ==> FunLinks(view, deps, h))
    && (forall b :: 0 <= b < |view.bodies| ==> CodeIsAllowed(view, deps, view.bodies[b]))
  }

  // ---------------------------------------------------------------- the checks

  method VerifyImportedModules(view: View, c: Context) returns (ok: bool)
    ensures ok <==> ModulesLink(view, c.deps)
  {
    for i := 0 to |view.moduleHandles|
      invariant forall j :: 0 <= j < i ==> ModuleLinks(view, c.deps, view.moduleHandles[j])
    {
      if Some(view.moduleHandles[i]) != view.selfId && view.moduleHandles[i] !in c.deps {
        return false;
      }
    }
    return true;
  }

  method VerifyImportedStructs(view: View, c: Context) returns (ok: bool)
    requires DependenciesInBounds(c.deps) && IsContext(view, c.deps, c)
    requires ViewInBounds(view) && ModulesLink(view, c.deps)
    ensures ok <==> forall h :: 0 <= h < |view.structHandles| ==> StructLinks(view, c.deps, h)
  {
    for h := 0 to |view.structHandles|
      invariant forall j :: 0 <= j < h ==> StructLinks(view, c.deps, j)
    {
      var handle := view.structHandles[h];
      if Some(handle.owner) != view.selfId {
        assert ModuleLinks(view, c.deps, handle.owner);
        var owner := c.deps[handle.owner];
        assert StructEntry(owner, handle.name, c);
        assert owner.id == handle.owner;
        if (handle.owner, handle.name) !in c.structIds {
          assert !StructLinks(view, c.deps, h);
          return false;
        }
        var def := owner.structHandles[c.structIds[(handle.owner, handle.name)]];
        if !(handle.abilities <= def.abilities)
          || !CompatibleStructTypeParameters(handle.typeParameters, def.typeParameters)
        {
          assert !StructLinks(view, c.deps, h);
          return false;
        }
      }
    }
    return true;
  }

  method VerifyImportedFunctions(view: View, c: Context) returns (ok: bool)
    requires DependenciesInBounds(c.deps) && IsContext(view, c.deps, c)
    requires ViewInBounds(view) && ModulesLink(view, c.deps)
    ensures ok <==> forall h :: 0 <= h < |view.funHandles| ==> FunLinks(view, c.deps, h)
  {
    for h := 0 to |view.funHandles|
      invariant forall j :: 0 <= j < h ==> FunLinks(view, c.deps, j)
    {
      var handle := view.funHandles[h];
      if Some(handle.owner) != view.selfId {
        assert ModuleLinks(view, c.deps, handle.owner);
        var owner := c.deps[handle.owner];
        assert FunEntry(view.selfId, owner, handle.name, c);
        assert owner.id == handle.owner;
        if (handle.owner, handle.name) !in c.funIds {
          assert !FunLinks(view, c.deps, h);
          return false;
        }
        var def := owner.funHandles[c.funIds[(handle.owner, handle.name)]];
        assert FunLinks(view, c.deps, h) <==> FunMatches(view, handle, owner, def);
        if !CompatibleFunTypeParameters(handle.typeParameters, def.typeParameters) { return false; }
        if !SignaturesMatch(view.structHandles, handle.parameters, owner.structHandles, def.parameters) {
          return false;
        }
        if !SignaturesMatch(view.structHandles, handle.return_, owner.structHandles, def.return_) {
          return false;
        }
      }
    }
    return true;
  }

  lemma {:induction false} FindFunAdmitsMore(m: CompiledModule, name: Identifier, p: Visibility -> bool, n: nat)
    requires InBounds(m) && n <= |m.funDefs|
    ensures FindFun(m, name, p, n).Some? ==> FindFun(m, name, Anyone, n).Some?
  {
    if n > 0 { FindFunAdmitsMore(m, name, p, n - 1); }
  }

  /** Once the imported functions link, each call has a known visibility. */
  lemma LinkedIsVisible(view: View, deps: Dependencies, h: nat)
    requires DependenciesInBounds(deps) && ViewInBounds(view) && h < |view.funHandles|
    requires FunLinks(view, deps, h)
    ensures VisibilityOf(view, deps, h).Some?
  {
    var handle := view.funHandles[h];
    if Some(handle.owner) != view.selfId {
      var m := deps[handle.owner];
      FindFunAdmitsMore(m, handle.name, Callable(m, view.selfId), |m.funDefs|);
    }
  }

  method VerifyScriptVisibilityUsage(view: View, c: Context, body: Body) returns (ok: bool)
    requires DependenciesInBounds(c.deps) && IsContext(view, c.deps, c)
    requires ViewInBounds(view) && CallsInBounds(view, body.code)
    requires forall h :: 0 <= h < |view.funHandles| ==> FunLinks(view, c.deps, h)
    ensures ok <==> CodeIsAllowed(view, c.deps, body)
  {
    for k := 0 to |body.code|
      invariant forall j :: 0 <= j < k && body.code[j].Call? ==>
                  CallIsAllowed(view, c.deps, body.visibility, body.code[j].function_)
    {
      if body.code[k].Call? {
        var h := body.code[k].function_;
        assert FunLinks(view, c.deps, h);
        LinkedIsVisible(view, c.deps, h);
        assert VisibilityEntry(view, c.deps, h, c);
        if c.visibilities[h] == Script && body.visibility != Script { return false; }
      }
    }
    return true;
  }

  /** `verify_module` and `verify_script` */
  method Verify(view: View, dependencies: seq<CompiledModule>) returns (ok: bool)
    requires AllInBounds(dependencies) && ViewInBounds(view)
    ensures DependenciesInBounds(DependencyMap(view.selfId, dependencies))
    ensures ok <==> Links(view, DependencyMap(view.selfId, dependencies))
  {
    var c := NewContext(view, dependencies);
    ok := VerifyImportedModules(view, c);
    if !ok { return; }
    ok := VerifyImportedStructs(view, c);
    if !ok { return; }
    ok := VerifyImportedFunctions(view, c);
    if !ok { return; }
    for b := 0 to |view.bodies|
      invariant forall j :: 0 <= j < b ==> CodeIsAllowed(view, c.deps, view.bodies[j])
    {
      ok := VerifyScriptVisibilityUsage(view, c, view.bodies[b]);
      if !ok { return; }
    }
    return true;
  }
}
