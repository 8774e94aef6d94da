/** What linking is for: the linker's comparisons of handles with definitions, stated by what client
    code may then do with types, type arguments and functions of the dependency. */
module LinkMeaning {
  import opened FileFormat
  import opened Abilities
  import opened Linking
  import opened LinkChecks

  // ---------------------------------------------------------------- type arguments

  /** Whatever closed type arguments the one list of constraints allows, the other allows as well. */
  ghost predicate ArgumentsCarryOver(local: seq<AbilitySet>, defined: seq<AbilitySet>) {
    forall structs, actuals :: Satisfies(structs, actuals, local, []) ==> Satisfies(structs, actuals, defined, [])
  }

  /** A struct for each set of abilities. */
  function Carriers(abilities: seq<AbilitySet>): seq<StructDecl> {
    seq(|abilities|, i requires 0 <= i < |abilities| => StructDecl(abilities[i], [], Native))
  }

  function CarrierTypes(n: nat): Signature {
    seq(n, i requires 0 <= i < n => Struct(i))
  }

  /** A function handle agrees on type parameters exactly when whatever arguments it allows the
      definition allows. */
  lemma FunTypeParametersMean(local: seq<AbilitySet>, defined: seq<AbilitySet>)
    ensures CompatibleFunTypeParameters(local, defined) <==> ArgumentsCarryOver(local, defined)
  {
    if CompatibleFunTypeParameters(local, defined) {
      forall structs, actuals | Satisfies(structs, actuals, local, [])
        ensures Satisfies(structs, actuals, defined, [])
      {
        SatisfiesLess(structs, actuals, local, defined, []);
      }
    }
    if ArgumentsCarryOver(local, defined) {
      assert Satisfies(Carriers(local), CarrierTypes(|local|), local, []);
      assert Satisfies(Carriers(local), CarrierTypes(|local|), defined, []);
    }
  }

  lemma SatisfiesLess(structs: seq<StructDecl>, actuals: Signature, local: seq<AbilitySet>,
      defined: seq<AbilitySet>, context: seq<AbilitySet>)
    requires CompatibleFunTypeParameters(local, defined) && Satisfies(structs, actuals, local, context)
    ensures Satisfies(structs, actuals, defined, context)
  {
    forall i | 0 <= i < |actuals|
      ensures TypeAbilities(structs, actuals[i], context).Some?
      ensures defined[i] <= TypeAbilities(structs, actuals[i], context).value
    {
      assert CompatibleConstraints(local[i], defined[i]);
    }
  }

  // ---------------------------------------------------------------- structs

  function DeclOf(handle: StructHandle): StructDecl {
    StructDecl(handle.abilities, handle.typeParameters, Native)
  }

  function ConstraintsOf(handle: StructHandle): (r: seq<AbilitySet>)
    ensures |r| == |handle.typeParameters|
    ensures forall i :: 0 <= i < |r| ==> r[i] == handle.typeParameters[i].constraints
  {
    seq(|handle.typeParameters|, i requires 0 <= i < |handle.typeParameters| => handle.typeParameters[i].constraints)
  }

  ghost predicate KeepsAbilitiesOf(local: StructHandle, defined: StructHandle, structs: seq<StructDecl>, h: nat,
      ty: SignatureToken, context: seq<AbilitySet>)
  {
    h < |structs| && structs[h] == DeclOf(local) && TypeAbilities(structs, ty, context).Some? ==>
      && TypeAbilities(structs[h := DeclOf(defined)], ty, context).Some?
      && TypeAbilities(structs, ty, context).value
         <= TypeAbilities(structs[h := DeclOf(defined)], ty, context).value
  }

  /** Every type has under the definition at least the abilities that it has under the handle. */
  ghost predicate AbilitiesCarryOver(local: StructHandle, defined: StructHandle) {
    forall structs, h, ty, context :: KeepsAbilitiesOf(local, defined, structs, h, ty, context)
  }

  ghost predicate KeepsPhantomsOf(local: StructHandle, defined: StructHandle, structs: seq<StructDecl>, h: nat,
      ty: SignatureToken, isPhantomPos: bool, typeParameters: seq<StructTypeParameter>)
  {
    h < |structs| && structs[h] == DeclOf(local) && CheckPhantomParams(structs, ty, isPhantomPos, typeParameters) ==>
      CheckPhantomParams(structs[h := DeclOf(defined)], ty, isPhantomPos, typeParameters)
  }

  /** Where the handle lets a phantom parameter stand the definition does. */
  ghost predicate PhantomsCarryOver(local: StructHandle, defined: StructHandle) {
    forall structs, h, ty, isPhantomPos, typeParameters ::
      KeepsPhantomsOf(local, defined, structs, h, ty, isPhantomPos, typeParameters)
  }

  ghost predicate StructCarriesOver(local: StructHandle, defined: StructHandle) {
    && ArgumentsCarryOver(ConstraintsOf(local), ConstraintsOf(defined))
    && AbilitiesCarryOver(local, defined)
    && PhantomsCarryOver(local, defined)
  }

  lemma {:induction false} AbilitiesAreKept(local: StructHandle, defined: StructHandle, structs: seq<StructDecl>,
      h: nat, ty: SignatureToken, context: seq<AbilitySet>)
    requires CompatibleStructs(local, defined)
    ensures KeepsAbilitiesOf(local, defined, structs, h, ty, context)
    decreases ty
  {
    if h < |structs| && structs[h] == DeclOf(local) && TypeAbilities(structs, ty, context).Some? {
      var structs' := structs[h := DeclOf(defined)];
      match ty {
        case Vector(elem) =>
          AbilitiesAreKept(local, defined, structs, h, elem, context);
          VectorAbilities(structs, elem, context);
          VectorAbilities(structs', elem, context);
        case StructInstantiation(d, typeArgs) =>
          forall i | 0 <= i < |typeArgs| ensures KeepsAbilitiesOf(local, defined, structs, h, typeArgs[i], context) {
            AbilitiesAreKept(local, defined, structs, h, typeArgs[i], context);
          }
          InstanceIsKept(local, defined, structs, h, d, typeArgs, context);
        case _ =>
      }
    }
  }

  lemma InstanceIsKept(local: StructHandle, defined: StructHandle, structs: seq<StructDecl>, h: nat, d: nat,
      typeArgs: Signature, context: seq<AbilitySet>)
    requires CompatibleStructs(local, defined) && h < |structs| && structs[h] == DeclOf(local)
    requires TypeAbilities(structs, StructInstantiation(d, typeArgs), context).Some?
    requires forall i :: 0 <= i < |typeArgs| ==>
               KeepsAbilitiesOf(local, defined, structs, h, typeArgs[i], context)
    ensures KeepsAbilitiesOf(local, defined, structs, h, StructInstantiation(d, typeArgs), context)
  {
    var structs' := structs[h := DeclOf(defined)];
    InstanceAbilities(structs, d, typeArgs, context);
    InstanceAbilities(structs', d, typeArgs, context);
    forall i | 0 <= i < |typeArgs|
      ensures TypeAbilities(structs', typeArgs[i], context).Some?
      ensures Known(TypeAbilities(structs, typeArgs[i], context)) <= Known(TypeAbilities(structs', typeArgs[i], context))
      ensures structs[d].typeParameters[i].isPhantom ==> structs'[d].typeParameters[i].isPhantom
    {
      assert KeepsAbilitiesOf(local, defined, structs, h, typeArgs[i], context);
      assert d == h ==> CompatiblePhantom(local.typeParameters[i], defined.typeParameters[i]);
    }
  }

  lemma {:induction false} PhantomPositionAdmitsMore(structs: seq<StructDecl>, ty: SignatureToken,
      typeParameters: seq<StructTypeParameter>)
    requires CheckPhantomParams(structs, ty, false, typeParameters)
    ensures CheckPhantomParams(structs, ty, true, typeParameters)
  {}

  lemma {:induction false} PhantomsAreKept(local: StructHandle, defined: StructHandle, structs: seq<StructDecl>,
      h: nat, ty: SignatureToken, isPhantomPos: bool, typeParameters: seq<StructTypeParameter>)
    requires CompatibleStructs(local, defined)
    ensures KeepsPhantomsOf(local, defined, structs, h, ty, isPhantomPos, typeParameters)
    decreases ty
  {
    if h < |structs| && structs[h] == DeclOf(local)
      && CheckPhantomParams(structs, ty, isPhantomPos, typeParameters)
    {
      var structs' := structs[h := DeclOf(defined)];
      match ty {
        case Vector(elem) => PhantomsAreKept(local, defined, structs, h, elem, false, typeParameters);
        case StructInstantiation(d, typeArgs) =>
          forall i | 0 <= i < |typeArgs|
            ensures CheckPhantomParams(structs', typeArgs[i], structs'[d].typeParameters[i].isPhantom, typeParameters)
          {
            var before := structs[d].typeParameters[i].isPhantom;
            PhantomsAreKept(local, defined, structs, h, typeArgs[i], before, typeParameters);
            assert d == h ==> CompatiblePhantom(local.typeParameters[i], defined.typeParameters[i]);
            if !before { PhantomPositionAdmitsMore(structs', typeArgs[i], typeParameters); }
          }
        case _ =>
      }
    }
  }

  /** An instance with the own phantom parameter in place `i`. */
  function PhantomAt(n: nat, i: nat): SignatureToken {
    StructInstantiation(0, seq(n, k requires 0 <= k < n => if k == i then TypeParameter(0) else Bool))
  }

  lemma PhantomsTell(local: StructHandle, defined: StructHandle, i: nat)
    requires PhantomsCarryOver(local, defined) && |local.typeParameters| == |defined.typeParameters|
    requires i < |local.typeParameters| && local.typeParameters[i].isPhantom
    ensures defined.typeParameters[i].isPhantom
  {
    var structs, ty := [DeclOf(local)], PhantomAt(|local.typeParameters|, i);
    var own := [StructTypeParameter({}, true)];
    assert CheckPhantomParams(structs, ty, false, own);
    assert KeepsPhantomsOf(local, defined, structs, 0, ty, false, own);
    assert structs[0 := DeclOf(defined)][0] == DeclOf(defined);
    assert CheckPhantomParams(structs[0 := DeclOf(defined)], ty.typeArgs[i], defined.typeParameters[i].isPhantom, own);
    assert ty.typeArgs[i] == TypeParameter(0);
  }

  /** A struct handle agrees with the definition exactly when type arguments, abilities and phantom
      positions carry over. */
  lemma CompatibleStructsMean(local: StructHandle, defined: StructHandle)
    ensures CompatibleStructs(local, defined) <==> StructCarriesOver(local, defined)
  {
    var locals, defineds := ConstraintsOf(local), ConstraintsOf(defined);
    FunTypeParametersMean(locals, defineds);
    if CompatibleStructs(local, defined) {
      assert forall i :: 0 <= i < |locals| ==>
        CompatibleConstraints(local.typeParameters[i].constraints, defined.typeParameters[i].constraints);
      forall structs, h, ty, context ensures KeepsAbilitiesOf(local, defined, structs, h, ty, context) {
        AbilitiesAreKept(local, defined, structs, h, ty, context);
      }
      forall structs, h, ty, isPhantomPos, typeParameters
        ensures KeepsPhantomsOf(local, defined, structs, h, ty, isPhantomPos, typeParameters)
      {
        PhantomsAreKept(local, defined, structs, h, ty, isPhantomPos, typeParameters);
      }
    }
    if StructCarriesOver(local, defined) {
      assert KeepsAbilitiesOf(local, defined, [DeclOf(local)], 0, Struct(0), []);
      assert [DeclOf(local)][0 := DeclOf(defined)][0] == DeclOf(defined);
      forall i | 0 <= i < |local.typeParameters|
        ensures CompatiblePhantom(local.typeParameters[i], defined.typeParameters[i])
        ensures CompatibleConstraints(local.typeParameters[i].constraints, defined.typeParameters[i].constraints)
      {
        if local.typeParameters[i].isPhantom { PhantomsTell(local, defined, i); }
        assert CompatibleConstraints(locals[i], defineds[i]);
      }
    }
  }

  // ---------------------------------------------------------------- types

  /** The struct that a type names, if its outermost constructor is one, with and without arguments. */
  predicate NamesStruct(ty: SignatureToken) {
    ty.Struct? || ty.StructInstantiation?
  }

  function Arguments(ty: SignatureToken): (args: Signature)
    ensures forall i :: 0 <= i < |args| ==> args[i] < ty
  {
    if ty.StructInstantiation? then ty.typeArgs else []
  }

  /** The two types name the same structs at every position, with equally many arguments. */
  predicate SameType(olds: seq<StructHandle>, a: SignatureToken, news: seq<StructHandle>, b: SignatureToken)
    requires TypeInBounds(olds, a) && TypeInBounds(news, b)
    decreases a
  {
    if NamesStruct(a) && NamesStruct(b) then
      && olds[a.handle].owner == news[b.handle].owner && olds[a.handle].name == news[b.handle].name
      && |Arguments(a)| == |Arguments(b)|
      && forall i :: 0 <= i < |Arguments(a)| ==> SameType(olds, Arguments(a)[i], news, Arguments(b)[i])
    else
      match (a, b)
      case (Vector(x), Vector(y)) => SameType(olds, x, news, y)
      case (Reference(x), Reference(y)) => SameType(olds, x, news, y)
      case (MutableReference(x), MutableReference(y)) => SameType(olds, x, news, y)
      case _ => a == b && !NamesStruct(a)
  }

  /** The two types use the instantiated form of a struct in the same places. */
  predicate SameForm(a: SignatureToken, b: SignatureToken)
    decreases a
  {
    match (a, b)
    case (Struct(_), StructInstantiation(_, _)) => false
    case (StructInstantiation(_, _), Struct(_)) => false
    case (StructInstantiation(_, xs), StructInstantiation(_, ys)) =>
      |xs| == |ys| && forall k :: 0 <= k < |xs| ==> SameForm(xs[k], ys[k])
    case (Vector(x), Vector(y)) => SameForm(x, y)
    case (Reference(x), Reference(y)) => SameForm(x, y)
    case (MutableReference(x), MutableReference(y)) => SameForm(x, y)
    case _ => true
  }

  /** The linker's comparison holds exactly of the same type in the same form. */
  lemma {:induction false} TypesMatchMeans(locals: seq<StructHandle>, a: SignatureToken,
      defs: seq<StructHandle>, b: SignatureToken)
    requires TypeInBounds(locals, a) && TypeInBounds(defs, b)
    ensures TypesMatch(locals, a, defs, b) <==> SameType(locals, a, defs, b) && SameForm(a, b)
    decreases a
  {
    match (a, b) {
      case (StructInstantiation(_, xs), StructInstantiation(_, ys)) =>
        forall k | 0 <= k < |xs| && k < |ys|
          ensures TypesMatch(locals, xs[k], defs, ys[k]) <==> SameType(locals, xs[k], defs, ys[k]) && SameForm(xs[k], ys[k])
        {
          TypesMatchMeans(locals, xs[k], defs, ys[k]);
        }
      case (Vector(x), Vector(y)) => TypesMatchMeans(locals, x, defs, y);
      case (Reference(x), Reference(y)) => TypesMatchMeans(locals, x, defs, y);
      case (MutableReference(x), MutableReference(y)) => TypesMatchMeans(locals, x, defs, y);
      case _ =>
    }
  }

  predicate SameSignature(locals: seq<StructHandle>, xs: Signature, defs: seq<StructHandle>, ys: Signature)
    requires SignatureInBounds(locals, xs) && SignatureInBounds(defs, ys)
  {
    && |xs| == |ys|
    && forall k :: 0 <= k < |xs| ==> SameType(locals, xs[k], defs, ys[k]) && SameForm(xs[k], ys[k])
  }

  lemma SignaturesMatchMeans(locals: seq<StructHandle>, xs: Signature, defs: seq<StructHandle>, ys: Signature)
    requires SignatureInBounds(locals, xs) && SignatureInBounds(defs, ys)
    ensures SignaturesMatch(locals, xs, defs, ys) <==> SameSignature(locals, xs, defs, ys)
  {
    forall k | 0 <= k < |xs| && k < |ys|
      ensures TypesMatch(locals, xs[k], defs, ys[k]) <==> SameType(locals, xs[k], defs, ys[k]) && SameForm(xs[k], ys[k])
    {
      TypesMatchMeans(locals, xs[k], defs, ys[k]);
    }
  }

  // ---------------------------------------------------------------- functions and calls

  /** With unique names a lookup finds the definition of that name, if it is admitted. */
  lemma {:induction false} UniqueFind(m: CompiledModule, i: nat, p: Visibility -> bool, n: nat)
    requires InBounds(m) && UniqueFunctions(m) && i < n <= |m.funDefs|
    ensures FindFun(m, FunName(m, i), p, n) == if p(m.funDefs[i].visibility) then Some(i) else None
  {
    if i == n - 1 {
      if !p(m.funDefs[i].visibility) { FindsNothing(m, i, p, n - 1); }
    } else {
      UniqueFind(m, i, p, n - 1);
    }
  }

  lemma {:induction false} FindsNothing(m: CompiledModule, i: nat, p: Visibility -> bool, n: nat)
    requires InBounds(m) && UniqueFunctions(m) && n <= i < |m.funDefs|
    ensures FindFun(m, FunName(m, i), p, n) == None
  {
    if n > 0 { FindsNothing(m, i, p, n - 1); }
  }

  /** A private function is for its module only, a friend function for the declared friends. */
  ghost predicate IsOpenTo(m: CompiledModule, visibility: Visibility, selfId: Option<ModuleId>) {
    visibility != Private && (visibility == Friend ==> exists id :: id in m.friends && selfId == Some(id))
  }

  /** Definition `i` is the one that the handle declares. */
  ghost predicate Declares(view: View, handle: FunHandle, m: CompiledModule, i: nat)
    requires InBounds(m) && SignatureInBounds(view.structHandles, handle.parameters)
    requires SignatureInBounds(view.structHandles, handle.return_)
  {
    && i < |m.funDefs| && FunName(m, i) == handle.name
    && IsOpenTo(m, m.funDefs[i].visibility, view.selfId)
    && var def := m.funHandles[m.funDefs[i].handle];
       && ArgumentsCarryOver(handle.typeParameters, def.typeParameters)
       && SameSignature(view.structHandles, handle.parameters, m.structHandles, def.parameters)
       && SameSignature(view.structHandles, handle.return_, m.structHandles, def.return_)
  }

  ghost predicate FunIsDeclared(view: View, deps: Dependencies, h: nat)
    requires DependenciesInBounds(deps) && ViewInBounds(view) && h < |view.funHandles|
  {
    var handle := view.funHandles[h];
    || Some(handle.owner) == view.selfId
    || (handle.owner in deps && exists i: nat :: Declares(view, handle, deps[handle.owner], i))
  }

  ghost predicate StructIsDeclared(view: View, deps: Dependencies, h: nat)
    requires DependenciesInBounds(deps) && h < |view.structHandles|
  {
    var handle := view.structHandles[h];
    || Some(handle.owner) == view.selfId
    || (handle.owner in deps
        && var m := deps[handle.owner];
           var def := FindStruct(m, handle.name, |m.structDefs|);
           def.Some? && StructCarriesOver(handle, m.structHandles[def.value]))
  }

  /** The function is a script function, by its own definition or that of the dependency. */
  ghost predicate IsScriptFunction(view: View, deps: Dependencies, h: nat)
    requires DependenciesInBounds(deps) && h < |view.funHandles|
  {
    var handle := view.funHandles[h];
    if Some(handle.owner) == view.selfId then
      exists i :: 0 <= i < |view.funDefs| && view.funDefs[i] == FunDef(h, Script, view.funDefs[i].code)
    else
      handle.owner in deps && exists i: nat :: IsNamed(deps[handle.owner], handle.name, i, Script)
  }

  predicate IsNamed(m: CompiledModule, name: Identifier, i: nat, visibility: Visibility)
    requires InBounds(m)
  {
    i < |m.funDefs| && FunName(m, i) == name && m.funDefs[i].visibility == visibility
  }

  ghost predicate ScriptsAreCalledFromScripts(view: View, deps: Dependencies, body: Body)
    requires DependenciesInBounds(deps) && CallsInBounds(view, body.code)
  {
    forall k :: 0 <= k < |body.code| && body.code[k].Call? && IsScriptFunction(view, deps, body.code[k].function_) ==>
      body.visibility == Script
  }

  /** Function names and own function handles are defined once. */
  predicate DefinitionsAreUnique(view: View, deps: Dependencies)
    requires DependenciesInBounds(deps)
  {
    && (forall id :: id in deps ==> UniqueFunctions(deps[id]))
    && (forall i, j :: 0 <= i < j < |view.funDefs| ==> view.funDefs[i].handle != view.funDefs[j].handle)
  }

  lemma MayBeCalledMeans(m: CompiledModule, visibility: Visibility, selfId: Option<ModuleId>)
    ensures MayBeCalled(m, visibility, selfId) <==> IsOpenTo(m, visibility, selfId)
  {}

  lemma FunLinksMeans(view: View, deps: Dependencies, h: nat)
    requires DependenciesInBounds(deps) && ViewInBounds(view) && h < |view.funHandles|
    requires DefinitionsAreUnique(view, deps)
    ensures FunLinks(view, deps, h) <==> FunIsDeclared(view, deps, h)
  {
    var handle := view.funHandles[h];
    if Some(handle.owner) != view.selfId && handle.owner in deps {
      var m := deps[handle.owner];
      forall i: nat | i < |m.funDefs| && FunName(m, i) == handle.name
        ensures Declares(view, handle, m, i) <==>
                MayBeCalled(m, m.funDefs[i].visibility, view.selfId)
                && FunMatches(view, handle, m, m.funHandles[m.funDefs[i].handle])
        ensures FindFun(m, handle.name, Callable(m, view.selfId), |m.funDefs|) ==
                if MayBeCalled(m, m.funDefs[i].visibility, view.selfId) then Some(i) else None
      {
        var def := m.funHandles[m.funDefs[i].handle];
        MayBeCalledMeans(m, m.funDefs[i].visibility, view.selfId);
        FunTypeParametersMean(handle.typeParameters, def.typeParameters);
        SignaturesMatchMeans(view.structHandles, handle.parameters, m.structHandles, def.parameters);
        SignaturesMatchMeans(view.structHandles, handle.return_, m.structHandles, def.return_);
        UniqueFind(m, i, Callable(m, view.selfId), |m.funDefs|);
      }
    }
  }

  lemma StructLinksMeans(view: View, deps: Dependencies, h: nat)
    requires DependenciesInBounds(deps) && h < |view.structHandles|
    ensures StructLinks(view, deps, h) <==> StructIsDeclared(view, deps, h)
  {
    var handle := view.structHandles[h];
    if Some(handle.owner) != view.selfId && handle.owner in deps {
      var m := deps[handle.owner];
      var def := FindStruct(m, handle.name, |m.structDefs|);
      if def.Some? { CompatibleStructsMean(handle, m.structHandles[def.value]); }
    }
  }

  lemma {:induction false} OwnVisibilityMeans(defs: seq<FunDef>, h: nat)
    requires forall i, j :: 0 <= i < j < |defs| ==> defs[i].handle != defs[j].handle
    ensures OwnVisibility(defs, h) == Some(Script) <==>
            exists i :: 0 <= i < |defs| && defs[i] == FunDef(h, Script, defs[i].code)
  {
    if defs != [] {
      var n := |defs| - 1;
      OwnVisibilityMeans(defs[..n], h);
      if defs[n].handle == h {
        if defs[n].visibility == Script { assert defs[n] == FunDef(h, Script, defs[n].code); }
      } else if i :| 0 <= i < |defs| && defs[i] == FunDef(h, Script, defs[i].code) {
        assert defs[..n][i] == FunDef(h, Script, defs[..n][i].code);
      }
    }
  }

  lemma VisibilityMeans(view: View, deps: Dependencies, h: nat)
    requires DependenciesInBounds(deps) && ViewInBounds(view) && h < |view.funHandles|
    requires DefinitionsAreUnique(view, deps) && FunLinks(view, deps, h)
    ensures VisibilityOf(view, deps, h) == Some(Script) <==> IsScriptFunction(view, deps, h)
  {
    var handle := view.funHandles[h];
    OwnVisibilityMeans(view.funDefs, h);
    if Some(handle.owner) != view.selfId {
      var m := deps[handle.owner];
      var i := FindFun(m, handle.name, Callable(m, view.selfId), |m.funDefs|).value;
      UniqueFind(m, i, Anyone, |m.funDefs|);
      if m.funDefs[i].visibility == Script { assert IsNamed(m, handle.name, i, Script); }
    }
  }

  /** A module or script links exactly when the modules it names are there, its struct and function
      handles promise no more than the definitions keep, and only scripts call script functions. */
  lemma LinksMeans(view: View, deps: Dependencies)
    requires DependenciesInBounds(deps) && ViewInBounds(view) && DefinitionsAreUnique(view, deps)
    ensures Links(view, deps) <==>
            && (forall i :: 0 <= i < |view.moduleHandles| ==>
                  Some(view.moduleHandles[i]) == view.selfId || view.moduleHandles[i] in deps)
            && (forall h :: 0 <= h < |view.structHandles| ==> StructIsDeclared(view, deps, h))
            && (forall h :: 0 <= h < |view.funHandles| ==> FunIsDeclared(view, deps, h))
            && (forall b :: 0 <= b < |view.bodies| ==> ScriptsAreCalledFromScripts(view, deps, view.bodies[b]))
  {
    assert ModulesLink(view, deps) <==> forall i :: 0 <= i < |view.moduleHandles| ==>
      Some(view.moduleHandles[i]) == view.selfId || view.moduleHandles[i] in deps by {
      assert forall i :: 0 <= i < |view.moduleHandles| ==>
        (ModuleLinks(view, deps, view.moduleHandles[i]) <==>
         Some(view.moduleHandles[i]) == view.selfId || view.moduleHandles[i] in deps);
    }
    forall h: nat | h < |view.structHandles|
      ensures StructLinks(view, deps, h) <==> StructIsDeclared(view, deps, h)
    {
      StructLinksMeans(view, deps, h);
    }
    forall h: nat | h < |view.funHandles|
      ensures FunLinks(view, deps, h) <==> FunIsDeclared(view, deps, h)
    {
      FunLinksMeans(view, deps, h);
    }
    if forall h :: 0 <= h < |view.funHandles| ==> FunLinks(view, deps, h) {
      forall b | 0 <= b < |view.bodies|
        ensures CodeIsAllowed(view, deps, view.bodies[b]) <==> ScriptsAreCalledFromScripts(view, deps, view.bodies[b])
      {
        CodeMeans(view, deps, view.bodies[b]);
      }
    }
  }

  lemma CodeMeans(view: View, deps: Dependencies, body: Body)
    requires DependenciesInBounds(deps) && ViewInBounds(view) && DefinitionsAreUnique(view, deps)
    requires CallsInBounds(view, body.code)
    requires forall h :: 0 <= h < |view.funHandles| ==> FunLinks(view, deps, h)
    ensures CodeIsAllowed(view, deps, body) <==> ScriptsAreCalledFromScripts(view, deps, body)
  {
    forall k | 0 <= k < |body.code| && body.code[k].Call?
      ensures CallIsAllowed(view, deps, body.visibility, body.code[k].function_) <==>
              (IsScriptFunction(view, deps, body.code[k].function_) ==> body.visibility == Script)
    {
      VisibilityMeans(view, deps, body.code[k].function_);
    }
  }
}
