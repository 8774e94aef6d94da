/** An upgrade that is reported as linking compatible keeps every module and script linking. */
module UpgradeLinking {
  import opened FileFormat
  import opened Linking
  import opened LinkChecks
  import opened LinkMeaning
  import opened Compatibility

  // ---------------------------------------------------------------- types

  /** No struct is instantiated with no arguments. */
  predicate NonEmptyInstantiations(ty: SignatureToken)
    decreases ty
  {
    match ty
    case StructInstantiation(_, args) =>
      args != [] && forall k :: 0 <= k < |args| ==> NonEmptyInstantiations(args[k])
    case Vector(inner) => NonEmptyInstantiations(inner)
    case Reference(inner) => NonEmptyInstantiations(inner)
    case MutableReference(inner) => NonEmptyInstantiations(inner)
    case _ => true
  }

  lemma ArgumentCount(handles: seq<StructHandle>, ty: SignatureToken)
    requires TypeInBounds(handles, ty)
    ensures Normal(handles, ty).StructT? <==> ty.Struct? || ty.StructInstantiation?
    ensures ty.Struct? ==> Normal(handles, ty).typeArguments == []
    ensures ty.StructInstantiation? ==>
              && |Normal(handles, ty).typeArguments| == |ty.typeArgs|
              && forall k :: 0 <= k < |ty.typeArgs| ==>
                   Normal(handles, ty).typeArguments[k] == Normal(handles, ty.typeArgs[k])
  {}

  lemma {:induction false} NonEmptySameForm(olds: seq<StructHandle>, a: SignatureToken,
      news: seq<StructHandle>, b: SignatureToken)
    requires TypeInBounds(olds, a) && TypeInBounds(news, b) && Normal(olds, a) == Normal(news, b)
    requires NonEmptyInstantiations(a) && NonEmptyInstantiations(b)
    ensures SameForm(a, b)
    decreases a
  {
    ArgumentCount(olds, a);
    ArgumentCount(news, b);
    match a {
      case StructInstantiation(_, xs) =>
        forall k | 0 <= k < |xs| ensures SameForm(xs[k], b.typeArgs[k]) {
          NonEmptySameForm(olds, xs[k], news, b.typeArgs[k]);
        }
      case Vector(x) => NonEmptySameForm(olds, x, news, b.elem);
      case Reference(x) => NonEmptySameForm(olds, x, news, b.inner);
      case MutableReference(x) => NonEmptySameForm(olds, x, news, b.inner);
      case _ =>
    }
  }

  /** A type that matches one definition matches every other of the same normal type and form. */
  lemma {:induction false} MatchCarriesOver(locals: seq<StructHandle>, ty: SignatureToken,
      olds: seq<StructHandle>, a: SignatureToken, news: seq<StructHandle>, b: SignatureToken)
    requires TypeInBounds(locals, ty) && TypeInBounds(olds, a) && TypeInBounds(news, b)
    requires TypesMatch(locals, ty, olds, a) && Normal(olds, a) == Normal(news, b) && SameForm(a, b)
    ensures TypesMatch(locals, ty, news, b)
    decreases ty
  {
    ArgumentCount(olds, a);
    ArgumentCount(news, b);
    match ty {
      case StructInstantiation(_, zs) =>
        forall k | 0 <= k < |zs| ensures TypesMatch(locals, zs[k], news, b.typeArgs[k]) {
          MatchCarriesOver(locals, zs[k], olds, a.typeArgs[k], news, b.typeArgs[k]);
        }
      case Vector(z) => MatchCarriesOver(locals, z, olds, a.elem, news, b.elem);
      case Reference(z) => MatchCarriesOver(locals, z, olds, a.inner, news, b.inner);
      case MutableReference(z) => MatchCarriesOver(locals, z, olds, a.inner, news, b.inner);
      case _ =>
    }
  }

  lemma {:induction false} MatchesItself(handles: seq<StructHandle>, ty: SignatureToken)
    requires TypeInBounds(handles, ty)
    ensures TypesMatch(handles, ty, handles, ty)
    decreases ty
  {
    match ty {
      case StructInstantiation(_, args) =>
        forall k | 0 <= k < |args| ensures TypesMatch(handles, args[k], handles, args[k]) {
          MatchesItself(handles, args[k]);
        }
      case Vector(inner) => MatchesItself(handles, inner);
      case Reference(inner) => MatchesItself(handles, inner);
      case MutableReference(inner) => MatchesItself(handles, inner);
      case _ =>
    }
  }

  lemma {:induction false} MatchHasForm(olds: seq<StructHandle>, a: SignatureToken,
      news: seq<StructHandle>, b: SignatureToken)
    requires TypeInBounds(olds, a) && TypeInBounds(news, b) && TypesMatch(olds, a, news, b)
    ensures SameForm(a, b)
    decreases a
  {
    match (a, b) {
      case (StructInstantiation(_, xs), StructInstantiation(_, ys)) =>
        forall k | 0 <= k < |xs| ensures SameForm(xs[k], ys[k]) {
          MatchHasForm(olds, xs[k], news, ys[k]);
        }
      case (Vector(x), Vector(y)) => MatchHasForm(olds, x, news, y);
      case (Reference(x), Reference(y)) => MatchHasForm(olds, x, news, y);
      case (MutableReference(x), MutableReference(y)) => MatchHasForm(olds, x, news, y);
      case _ =>
    }
  }

  /** Comparing normal types is enough exactly when the two types also have the same form: then, and
      only then, does everything that matches the old one match the new one. */
  lemma NormalTypesSuffice(olds: seq<StructHandle>, a: SignatureToken, news: seq<StructHandle>,
      b: SignatureToken)
    requires TypeInBounds(olds, a) && TypeInBounds(news, b) && Normal(olds, a) == Normal(news, b)
    ensures SameForm(a, b) <==>
            forall locals, ty :: TypeInBounds(locals, ty) && TypesMatch(locals, ty, olds, a) ==>
                                   TypesMatch(locals, ty, news, b)
  {
    if SameForm(a, b) {
      forall locals, ty | TypeInBounds(locals, ty) && TypesMatch(locals, ty, olds, a)
        ensures TypesMatch(locals, ty, news, b)
      {
        MatchCarriesOver(locals, ty, olds, a, news, b);
      }
    } else {
      MatchesItself(olds, a);
      if TypesMatch(olds, a, news, b) { MatchHasForm(olds, a, news, b); }
      assert TypeInBounds(olds, a) && TypesMatch(olds, a, olds, a) && !TypesMatch(olds, a, news, b);
    }
  }

  // ---------------------------------------------------------------- lookups

  lemma {:induction false} StructsOfFinds(m: CompiledModule, name: Identifier, n: nat)
    requires InBounds(m) && NoNativeStructs(m) && n <= |m.structDefs|
    ensures var r := FindStruct(m, name, n);
            && (name in StructsOf(m, n) <==> r.Some?)
            && (r.Some? ==>
                  && StructsOf(m, n)[name].abilities == m.structHandles[r.value].abilities
                  && StructsOf(m, n)[name].typeParameters == m.structHandles[r.value].typeParameters)
  {
    if n > 0 { StructsOfFinds(m, name, n - 1); }
  }

  lemma {:induction false} ExposedOfFinds(m: CompiledModule, name: Identifier, n: nat)
    requires InBounds(m) && n <= |m.funDefs|
    ensures var r := FindFun(m, name, IsExposed, n);
            && (name in ExposedOf(m, n) <==> r.Some?)
            && (r.Some? ==> ExposedOf(m, n)[name] == FunctionOf(m, r.value))
  {
    if n > 0 { ExposedOfFinds(m, name, n - 1); }
  }

  // ---------------------------------------------------------------- the upgrade

  predicate SameForms(xs: Signature, ys: Signature) {
    |xs| == |ys| && forall k :: 0 <= k < |xs| ==> SameForm(xs[k], ys[k])
  }

  /** A script or a module other than the owner may call the function. */
  ghost predicate HasCallers(m: CompiledModule, visibility: Visibility) {
    match visibility
    case Public => true
    case Script => true
    case Friend => exists id :: id in m.friends && id != m.id
    case Private => false
  }

  ghost predicate FormsAgreeAt(old_: CompiledModule, i: nat, new_: CompiledModule, j: nat)
    requires InBounds(old_) && InBounds(new_) && i < |old_.funDefs| && j < |new_.funDefs|
  {
    var before, after := old_.funHandles[old_.funDefs[i].handle], new_.funHandles[new_.funDefs[j].handle];
    SameForms(before.parameters, after.parameters) && SameForms(before.return_, after.return_)
  }

  /** The two versions use the instantiated form of a struct in the same places of each function that
      others may call. */
  ghost predicate FormsAgree(old_: CompiledModule, new_: CompiledModule)
    requires InBounds(old_) && InBounds(new_)
  {
    forall i: nat, j: nat ::
      i < |old_.funDefs| && j < |new_.funDefs| && FunName(old_, i) == FunName(new_, j)
      && HasCallers(old_, old_.funDefs[i].visibility) && IsExposed(new_.funDefs[j].visibility) ==>
        FormsAgreeAt(old_, i, new_, j)
  }

  predicate AllNonEmpty(tys: Signature) {
    forall k :: 0 <= k < |tys| ==> NonEmptyInstantiations(tys[k])
  }

  /** No exposed function mentions a struct instantiated with no arguments. */
  predicate PlainInterface(m: CompiledModule)
    requires InBounds(m)
  {
    forall i :: 0 <= i < |m.funDefs| && IsExposed(m.funDefs[i].visibility) ==>
      && AllNonEmpty(m.funHandles[m.funDefs[i].handle].parameters)
      && AllNonEmpty(m.funHandles[m.funDefs[i].handle].return_)
  }

  /** What publishing establishes for each version, apart from the upgrade check itself. */
  predicate IsVerified(m: CompiledModule) {
    InBounds(m) && NoNativeStructs(m) && UniqueFunctions(m)
  }

  ghost predicate IsUpgrade(old_: CompiledModule, new_: CompiledModule) {
    && IsVerified(old_) && IsVerified(new_)
    && LinkingCompatible(Normalized(old_), Normalized(new_))
  }

  lemma SignatureCarriesOver(locals: seq<StructHandle>, tys: Signature,
      olds: seq<StructHandle>, xs: Signature, news: seq<StructHandle>, ys: Signature)
    requires SignatureInBounds(locals, tys) && SignatureInBounds(olds, xs) && SignatureInBounds(news, ys)
    requires SignaturesMatch(locals, tys, olds, xs) && Normals(olds, xs) == Normals(news, ys)
    requires SameForms(xs, ys)
    ensures SignaturesMatch(locals, tys, news, ys)
  {
    forall k | 0 <= k < |tys| ensures TypesMatch(locals, tys[k], news, ys[k]) {
      assert Normals(olds, xs)[k] == Normals(news, ys)[k];
      MatchCarriesOver(locals, tys[k], olds, xs[k], news, ys[k]);
    }
  }

  lemma StructStillLinks(view: View, deps: Dependencies, old_: CompiledModule, new_: CompiledModule, h: nat)
    requires IsUpgrade(old_, new_) && DependenciesInBounds(deps)
    requires old_.id in deps && deps[old_.id] == old_ && h < |view.structHandles|
    requires StructLinks(view, deps, h)
    ensures StructLinks(view, deps[old_.id := new_], h)
  {
    var handle := view.structHandles[h];
    if handle.owner == old_.id && Some(handle.owner) != view.selfId {
      StructsOfFinds(old_, handle.name, |old_.structDefs|);
      StructsOfFinds(new_, handle.name, |new_.structDefs|);
      var o, n := Normalized(old_).structs[handle.name], Normalized(new_).structs[handle.name];
      assert StructsCompatible(o, n);
    }
  }

  /** What the upgrade does to a function that may be called. */
  lemma FunctionUpgrades(view: View, old_: CompiledModule, new_: CompiledModule, name: Identifier)
    returns (i: nat, j: nat)
    requires IsUpgrade(old_, new_)
    requires FindFun(old_, name, Callable(old_, view.selfId), |old_.funDefs|).Some?
    ensures FindFun(old_, name, Callable(old_, view.selfId), |old_.funDefs|) == Some(i)
    ensures FindFun(old_, name, Anyone, |old_.funDefs|) == Some(i)
    ensures FindFun(new_, name, Callable(new_, view.selfId), |new_.funDefs|) == Some(j)
    ensures FindFun(new_, name, Anyone, |new_.funDefs|) == Some(j)
    ensures FunName(old_, i) == name && FunName(new_, j) == name
    ensures MayBeCalled(old_, old_.funDefs[i].visibility, view.selfId)
    ensures IsExposed(old_.funDefs[i].visibility) && IsExposed(new_.funDefs[j].visibility)
    ensures FunctionsCompatible(FunctionOf(old_, i), FunctionOf(new_, j))
  {
    i := FindFun(old_, name, Callable(old_, view.selfId), |old_.funDefs|).value;
    UniqueFind(old_, i, Anyone, |old_.funDefs|);
    UniqueFind(old_, i, IsExposed, |old_.funDefs|);
    ExposedOfFinds(old_, name, |old_.funDefs|);
    ExposedOfFinds(new_, name, |new_.funDefs|);
    assert name in Normalized(old_).exposedFunctions;
    assert FunctionsCompatible(Normalized(old_).exposedFunctions[name],
                               Normalized(new_).exposedFunctions[name]);
    j := FindFun(new_, name, IsExposed, |new_.funDefs|).value;
    UniqueFind(new_, j, Anyone, |new_.funDefs|);
    UniqueFind(new_, j, Callable(new_, view.selfId), |new_.funDefs|);
  }

  lemma FunStillLinks(view: View, deps: Dependencies, old_: CompiledModule, new_: CompiledModule, h: nat)
    requires IsUpgrade(old_, new_) && FormsAgree(old_, new_)
    requires DependenciesInBounds(deps) && ViewInBounds(view)
    requires old_.id in deps && deps[old_.id] == old_ && h < |view.funHandles|
    requires FunLinks(view, deps, h)
    ensures FunLinks(view, deps[old_.id := new_], h)
    ensures VisibilityOf(view, deps[old_.id := new_], h) == Some(Script) ==>
              VisibilityOf(view, deps, h) == Some(Script)
  {
    var handle := view.funHandles[h];
    if handle.owner == old_.id && Some(handle.owner) != view.selfId {
      var i, j := FunctionUpgrades(view, old_, new_, handle.name);
      var before, after := old_.funHandles[old_.funDefs[i].handle], new_.funHandles[new_.funDefs[j].handle];
      assert FormsAgreeAt(old_, i, new_, j);
      SignatureCarriesOver(view.structHandles, handle.parameters, old_.structHandles, before.parameters,
                           new_.structHandles, after.parameters);
      SignatureCarriesOver(view.structHandles, handle.return_, old_.structHandles, before.return_,
                           new_.structHandles, after.return_);
    }
  }

  /** Upgrade preserves linking: if the forms agree, whatever links against the old version links
      against the new one. */
  lemma UpgradePreservesLinking(view: View, deps: Dependencies, old_: CompiledModule, new_: CompiledModule)
    requires IsUpgrade(old_, new_) && FormsAgree(old_, new_)
    requires DependenciesInBounds(deps) && ViewInBounds(view)
    requires old_.id in deps && deps[old_.id] == old_
    requires Links(view, deps)
    ensures Links(view, deps[old_.id := new_])
  {
    var deps' := deps[old_.id := new_];
    forall i | 0 <= i < |view.moduleHandles| ensures ModuleLinks(view, deps', view.moduleHandles[i]) {
      assert ModuleLinks(view, deps, view.moduleHandles[i]);
    }
    forall h | 0 <= h < |view.structHandles| ensures StructLinks(view, deps', h) {
      StructStillLinks(view, deps, old_, new_, h);
    }
    forall h: nat | h < |view.funHandles|
      ensures FunLinks(view, deps', h)
      ensures VisibilityOf(view, deps', h) == Some(Script) ==> VisibilityOf(view, deps, h) == Some(Script)
    {
      FunStillLinks(view, deps, old_, new_, h);
    }
    forall b | 0 <= b < |view.bodies| ensures CodeIsAllowed(view, deps', view.bodies[b]) {
      var body := view.bodies[b];
      assert CodeIsAllowed(view, deps, body);
      forall k | 0 <= k < |body.code| && body.code[k].Call?
        ensures CallIsAllowed(view, deps', body.visibility, body.code[k].function_)
      {
        assert CallIsAllowed(view, deps, body.visibility, body.code[k].function_);
      }
    }
  }

  /** Without empty instantiations in either interface the forms agree. */
  lemma PlainInterfacesAgree(old_: CompiledModule, new_: CompiledModule)
    requires IsUpgrade(old_, new_) && PlainInterface(old_) && PlainInterface(new_)
    ensures FormsAgree(old_, new_)
  {
    forall i: nat, j: nat | i < |old_.funDefs| && j < |new_.funDefs| && FunName(old_, i) == FunName(new_, j)
      && HasCallers(old_, old_.funDefs[i].visibility) && IsExposed(new_.funDefs[j].visibility)
      ensures FormsAgreeAt(old_, i, new_, j)
    {
      UniqueFind(old_, i, IsExposed, |old_.funDefs|);
      UniqueFind(new_, j, IsExposed, |new_.funDefs|);
      ExposedOfFinds(old_, FunName(old_, i), |old_.funDefs|);
      ExposedOfFinds(new_, FunName(old_, i), |new_.funDefs|);
      var before, after := old_.funHandles[old_.funDefs[i].handle], new_.funHandles[new_.funDefs[j].handle];
      assert FunctionsCompatible(FunctionOf(old_, i), FunctionOf(new_, j));
      NonEmptySameForms(old_.structHandles, before.parameters, new_.structHandles, after.parameters);
      NonEmptySameForms(old_.structHandles, before.return_, new_.structHandles, after.return_);
    }
  }

  lemma NonEmptySameForms(olds: seq<StructHandle>, xs: Signature, news: seq<StructHandle>, ys: Signature)
    requires SignatureInBounds(olds, xs) && SignatureInBounds(news, ys)
    requires Normals(olds, xs) == Normals(news, ys) && AllNonEmpty(xs) && AllNonEmpty(ys)
    ensures SameForms(xs, ys)
  {
    assert |Normals(olds, xs)| == |Normals(news, ys)|;
    forall k | 0 <= k < |xs| ensures SameForm(xs[k], ys[k]) {
      assert Normals(olds, xs)[k] == Normals(news, ys)[k];
      NonEmptySameForm(olds, xs[k], news, ys[k]);
    }
  }

  // ---------------------------------------------------------------- a client for each function

  /** What the duplication check establishes for struct handles. */
  predicate StructHandlesAreDistinct(m: CompiledModule) {
    forall h, k :: 0 <= h < k < |m.structHandles| ==>
      m.structHandles[h].owner != m.structHandles[k].owner || m.structHandles[h].name != m.structHandles[k].name
  }

  /** The module defines the structs that it owns. */
  predicate OwnStructsAreDefined(m: CompiledModule)
    requires InBounds(m)
  {
    forall h :: 0 <= h < |m.structHandles| && m.structHandles[h].owner == m.id ==>
      FindStruct(m, m.structHandles[h].name, |m.structDefs|) == Some(h)
  }

  /** A struct has at least one field; which they are does not matter to clients. */
  const SOME_FIELDS: Option<seq<Field>> := Some([Field("dummy_field", Bool)])

  /** Definitions of the structs that `id` owns. */
  function DefsOf(handles: seq<StructHandle>, id: ModuleId, n: nat): (defs: seq<StructDef>)
    requires n <= |handles|
    ensures forall d :: d in defs <==>
              exists h :: 0 <= h < n && handles[h].owner == id && d == StructDef(h, SOME_FIELDS)
  {
    if n == 0 then []
    else DefsOf(handles, id, n - 1) + if handles[n - 1].owner == id then [StructDef(n - 1, SOME_FIELDS)] else []
  }

  /** A dependency that provides the structs of one owner. */
  function Supplier(handles: seq<StructHandle>, id: ModuleId): CompiledModule {
    CompiledModule(id, [], handles, [], DefsOf(handles, id, |handles|), [], [])
  }

  lemma {:induction false} OnlyDefinition(m: CompiledModule, h: nat, n: nat)
    requires InBounds(m) && n <= |m.structDefs| && h < |m.structHandles|
    requires exists k :: 0 <= k < n && m.structDefs[k].handle == h
    requires forall k :: 0 <= k < n && StructName(m, k) == m.structHandles[h].name ==>
               m.structDefs[k].handle == h
    ensures FindStruct(m, m.structHandles[h].name, n) == Some(h)
  {
    if StructName(m, n - 1) != m.structHandles[h].name {
      OnlyDefinition(m, h, n - 1);
    }
  }

  lemma SupplierFinds(m: CompiledModule, h: nat)
    requires StructHandlesAreDistinct(m) && h < |m.structHandles|
    ensures var supplier := Supplier(m.structHandles, m.structHandles[h].owner);
            InBounds(supplier)
            && FindStruct(supplier, m.structHandles[h].name, |supplier.structDefs|) == Some(h)
  {
    var supplier := Supplier(m.structHandles, m.structHandles[h].owner);
    forall k | 0 <= k < |supplier.structDefs|
      ensures supplier.structDefs[k].handle < |m.structHandles| && supplier.structDefs[k].fields == SOME_FIELDS
      ensures m.structHandles[supplier.structDefs[k].handle].owner == m.structHandles[h].owner
    {
      assert supplier.structDefs[k] in supplier.structDefs;
    }
    assert StructDef(h, SOME_FIELDS) in supplier.structDefs;
    OnlyDefinition(supplier, h, |supplier.structDefs|);
  }

  function Owners(m: CompiledModule): set<ModuleId> {
    set h | 0 <= h < |m.structHandles| :: m.structHandles[h].owner
  }

  /** The module with a supplier for each owner of a struct that it mentions. */
  function Surroundings(m: CompiledModule): Dependencies {
    (map id | id in Owners(m) :: Supplier(m.structHandles, id))[m.id := m]
  }

  lemma SurroundingsInBounds(m: CompiledModule)
    requires InBounds(m) && StructHandlesAreDistinct(m)
    ensures DependenciesInBounds(Surroundings(m))
  {
    forall id | id in Owners(m) ensures InBounds(Supplier(m.structHandles, id)) {
      var h :| 0 <= h < |m.structHandles| && m.structHandles[h].owner == id;
      SupplierFinds(m, h);
    }
  }

  function Imported(m: CompiledModule): seq<ModuleId> {
    [m.id] + seq(|m.structHandles|, h requires 0 <= h < |m.structHandles| => m.structHandles[h].owner)
  }

  function Import(m: CompiledModule, i: nat): FunHandle
    requires InBounds(m) && i < |m.funDefs|
  {
    m.funHandles[m.funDefs[i].handle].(owner := m.id)
  }

  /** A script that calls the function or, for a friend, a module that imports it. */
  function Caller(m: CompiledModule, i: nat, selfId: Option<ModuleId>): View
    requires InBounds(m) && i < |m.funDefs|
  {
    match selfId
    case None => ScriptView(Imported(m), m.structHandles, [Import(m, i)], [Call(0, []), Ret])
    case Some(id) => ModuleView(CompiledModule(id, Imported(m), m.structHandles, [Import(m, i)], [], [], []))
  }

  ghost predicate IsClient(view: View) {
    || (exists m :: view == ModuleView(m))
    || (exists ids, structs, funs, code :: view == ScriptView(ids, structs, funs, code))
  }

  lemma CallerInBounds(m: CompiledModule, i: nat, selfId: Option<ModuleId>)
    requires InBounds(m) && i < |m.funDefs| && selfId != Some(m.id)
    ensures ViewInBounds(Caller(m, i, selfId)) && IsClient(Caller(m, i, selfId))
    ensures Caller(m, i, selfId).selfId == selfId
  {
    var view := Caller(m, i, selfId);
    forall h | 0 <= h < |view.structHandles| ensures view.structHandles[h].owner in view.moduleHandles {
      assert Imported(m)[h + 1] == m.structHandles[h].owner;
    }
    assert m.id == Imported(m)[0];
  }

  lemma CallerStructsLink(m: CompiledModule, i: nat, selfId: Option<ModuleId>, h: nat)
    requires IsVerified(m) && StructHandlesAreDistinct(m) && OwnStructsAreDefined(m)
    requires i < |m.funDefs| && selfId != Some(m.id) && h < |m.structHandles|
    requires DependenciesInBounds(Surroundings(m)) && ViewInBounds(Caller(m, i, selfId))
    ensures StructLinks(Caller(m, i, selfId), Surroundings(m), h)
  {
    SupplierFinds(m, h);
    assert CompatibleStructs(m.structHandles[h], m.structHandles[h]);
    assert m.structHandles[h].owner in Owners(m);
  }

  lemma CallerFunLinks(m: CompiledModule, i: nat, selfId: Option<ModuleId>)
    requires IsVerified(m) && i < |m.funDefs|
    requires DependenciesInBounds(Surroundings(m)) && ViewInBounds(Caller(m, i, selfId))
    requires selfId != Some(m.id) && MayBeCalled(m, m.funDefs[i].visibility, selfId)
    ensures FunLinks(Caller(m, i, selfId), Surroundings(m), 0)
  {
    UniqueFind(m, i, Callable(m, selfId), |m.funDefs|);
    var handle := m.funHandles[m.funDefs[i].handle];
    SignatureMatchesItself(m.structHandles, handle.parameters);
    SignatureMatchesItself(m.structHandles, handle.return_);
    assert FunMatches(Caller(m, i, selfId), Import(m, i), m, handle);
  }

  lemma CallerModulesLink(m: CompiledModule, i: nat, selfId: Option<ModuleId>)
    requires InBounds(m) && i < |m.funDefs|
    ensures ModulesLink(Caller(m, i, selfId), Surroundings(m))
  {
    var ids := Imported(m);
    forall k | 0 <= k < |ids| ensures ids[k] in Surroundings(m) {
      if k > 0 { assert ids[k] == m.structHandles[k - 1].owner && ids[k] in Owners(m); }
    }
  }

  lemma CallerMayCall(m: CompiledModule, i: nat, selfId: Option<ModuleId>, b: nat)
    requires InBounds(m) && i < |m.funDefs| && b < |Caller(m, i, selfId).bodies|
    requires DependenciesInBounds(Surroundings(m)) && ViewInBounds(Caller(m, i, selfId))
    ensures CodeIsAllowed(Caller(m, i, selfId), Surroundings(m), Caller(m, i, selfId).bodies[b])
  {
    assert Caller(m, i, selfId).bodies[b].visibility == Script;
  }

  /** The caller links against the module that it was made for. */
  lemma CallerLinks(m: CompiledModule, i: nat, selfId: Option<ModuleId>)
    requires IsVerified(m) && StructHandlesAreDistinct(m) && OwnStructsAreDefined(m)
    requires i < |m.funDefs| && selfId != Some(m.id) && MayBeCalled(m, m.funDefs[i].visibility, selfId)
    ensures DependenciesInBounds(Surroundings(m)) && ViewInBounds(Caller(m, i, selfId))
    ensures Links(Caller(m, i, selfId), Surroundings(m))
  {
    var view, deps := Caller(m, i, selfId), Surroundings(m);
    SurroundingsInBounds(m);
    CallerInBounds(m, i, selfId);
    CallerModulesLink(m, i, selfId);
    forall h | 0 <= h < |view.structHandles| ensures StructLinks(view, deps, h) {
      CallerStructsLink(m, i, selfId, h);
    }
    CallerFunLinks(m, i, selfId);
    forall b | 0 <= b < |view.bodies| ensures CodeIsAllowed(view, deps, view.bodies[b]) {
      CallerMayCall(m, i, selfId, b);
    }
  }

  lemma SignatureMatchesItself(handles: seq<StructHandle>, tys: Signature)
    requires SignatureInBounds(handles, tys)
    ensures SignaturesMatch(handles, tys, handles, tys)
  {
    forall k | 0 <= k < |tys| ensures TypesMatch(handles, tys[k], handles, tys[k]) {
      MatchesItself(handles, tys[k]);
    }
  }

  lemma MatchingSignaturesHaveForm(olds: seq<StructHandle>, xs: Signature, news: seq<StructHandle>, ys: Signature)
    requires SignatureInBounds(olds, xs) && SignatureInBounds(news, ys) && SignaturesMatch(olds, xs, news, ys)
    ensures SameForms(xs, ys)
  {
    forall k | 0 <= k < |xs| ensures SameForm(xs[k], ys[k]) {
      MatchHasForm(olds, xs[k], news, ys[k]);
    }
  }

  /** If the caller also links against the new version, the forms of its function agree. */
  lemma CallerStillLinks(old_: CompiledModule, i: nat, new_: CompiledModule, j: nat, selfId: Option<ModuleId>)
    requires IsUpgrade(old_, new_) && i < |old_.funDefs| && j < |new_.funDefs|
    requires FunName(old_, i) == FunName(new_, j) && selfId != Some(old_.id)
    requires ViewInBounds(Caller(old_, i, selfId)) && DependenciesInBounds(Surroundings(old_))
    ensures Links(Caller(old_, i, selfId), Surroundings(old_)[old_.id := new_]) ==>
              FormsAgreeAt(old_, i, new_, j)
  {
    var view, deps := Caller(old_, i, selfId), Surroundings(old_)[old_.id := new_];
    if Links(view, deps) {
      CallerInBounds(old_, i, selfId);
      assert FunLinks(view, deps, 0);
      UniqueFind(new_, j, Callable(new_, selfId), |new_.funDefs|);
      var before, after := old_.funHandles[old_.funDefs[i].handle], new_.funHandles[new_.funDefs[j].handle];
      assert FunMatches(view, Import(old_, i), new_, after);
      MatchingSignaturesHaveForm(old_.structHandles, before.parameters, new_.structHandles, after.parameters);
      MatchingSignaturesHaveForm(old_.structHandles, before.return_, new_.structHandles, after.return_);
    }
  }

  // ---------------------------------------------------------------- exactly when an upgrade is safe

  /** If the client links against the old version, it links against the new one. */
  predicate KeepsLinking(old_: CompiledModule, new_: CompiledModule, view: View, deps: Dependencies)
    requires IsVerified(old_) && IsVerified(new_) && old_.id == new_.id
  {
    && DependenciesInBounds(deps) && ViewInBounds(view)
    && old_.id in deps && deps[old_.id] == old_ && Links(view, deps)
    ==> Links(view, deps[old_.id := new_])
  }

  /** An upgrade that is reported as linking compatible keeps every script and module linking, whatever
      its other dependencies, exactly when the forms agree. */
  lemma SafeExactlyWhenFormsAgree(old_: CompiledModule, new_: CompiledModule)
    requires IsUpgrade(old_, new_) && StructHandlesAreDistinct(old_) && OwnStructsAreDefined(old_)
    ensures (forall view, deps :: IsClient(view) ==> KeepsLinking(old_, new_, view, deps))
            <==> FormsAgree(old_, new_)
  {
    if FormsAgree(old_, new_) {
      forall view, deps ensures KeepsLinking(old_, new_, view, deps) {
        if DependenciesInBounds(deps) && ViewInBounds(view) && old_.id in deps && deps[old_.id] == old_
          && Links(view, deps)
        {
          UpgradePreservesLinking(view, deps, old_, new_);
        }
      }
    }
    if forall view, deps :: IsClient(view) ==> KeepsLinking(old_, new_, view, deps) {
      forall i: nat, j: nat | i < |old_.funDefs| && j < |new_.funDefs| && FunName(old_, i) == FunName(new_, j)
        && HasCallers(old_, old_.funDefs[i].visibility) && IsExposed(new_.funDefs[j].visibility)
        ensures FormsAgreeAt(old_, i, new_, j)
      {
        var selfId := CallerId(old_, i);
        CallerLinks(old_, i, selfId);
        CallerInBounds(old_, i, selfId);
        assert KeepsLinking(old_, new_, Caller(old_, i, selfId), Surroundings(old_));
        CallerStillLinks(old_, i, new_, j, selfId);
      }
    }
  }

  lemma CallerId(m: CompiledModule, i: nat) returns (selfId: Option<ModuleId>)
    requires i < |m.funDefs| && HasCallers(m, m.funDefs[i].visibility)
    ensures selfId != Some(m.id) && MayBeCalled(m, m.funDefs[i].visibility, selfId)
  {
    if m.funDefs[i].visibility.Friend? {
      var id :| id in m.friends && id != m.id;
      selfId := Some(id);
    } else {
      selfId := None;
    }
  }

  // ---------------------------------------------------------------- where it fails

  /** A library with a struct and a public function that takes it, written in a given form. */
  function Library(parameter: SignatureToken): CompiledModule {
    var id := ModuleId(1, "Library");
    CompiledModule(id, [id], [StructHandle(id, "S", {}, [])], [FunHandle(id, "f", [parameter], [], [])],
      [StructDef(0, SOME_FIELDS)], [FunDef(0, Public, Some([Ret]))], [])
  }

  const PLAIN: SignatureToken := Struct(0)
  const EMPTY_INSTANCE: SignatureToken := StructInstantiation(0, [])

  lemma LibraryIsVerified(parameter: SignatureToken)
    requires parameter == PLAIN || parameter == EMPTY_INSTANCE
    ensures IsVerified(Library(parameter))
    ensures FindFun(Library(parameter), "f", Callable(Library(parameter), None), 1) == Some(0)
    ensures FindFun(Library(parameter), "f", Anyone, 1) == Some(0)
    ensures FindStruct(Library(parameter), "S", 1) == Some(0)
  {
    assert FunName(Library(parameter), 0) == "f" && StructName(Library(parameter), 0) == "S";
  }

  lemma LibrariesNormalizeAlike()
    ensures IsVerified(Library(PLAIN)) && IsVerified(Library(EMPTY_INSTANCE))
    ensures Normalized(Library(PLAIN)) == Normalized(Library(EMPTY_INSTANCE))
  {
    var old_, new_ := Library(PLAIN), Library(EMPTY_INSTANCE);
    LibraryIsVerified(PLAIN);
    LibraryIsVerified(EMPTY_INSTANCE);
    assert Normal(old_.structHandles, PLAIN) == Normal(new_.structHandles, EMPTY_INSTANCE);
    assert Normals(old_.structHandles, [PLAIN]) == Normals(new_.structHandles, [EMPTY_INSTANCE]);
    assert FunctionOf(old_, 0) == FunctionOf(new_, 0);
    assert StructOf(old_, 0) == StructOf(new_, 0);
    assert ExposedOf(old_, 1) == map[][FunName(old_, 0) := FunctionOf(old_, 0)];
    assert ExposedOf(new_, 1) == map[][FunName(new_, 0) := FunctionOf(new_, 0)];
    assert StructsOf(old_, 1) == map[][StructName(old_, 0) := StructOf(old_, 0)];
    assert StructsOf(new_, 1) == map[][StructName(new_, 0) := StructOf(new_, 0)];
  }

  lemma LibraryUpgrade()
    ensures IsUpgrade(Library(PLAIN), Library(EMPTY_INSTANCE))
    ensures OwnStructsAreDefined(Library(PLAIN)) && StructHandlesAreDistinct(Library(PLAIN))
    ensures FunName(Library(PLAIN), 0) == FunName(Library(EMPTY_INSTANCE), 0)
    ensures !FormsAgreeAt(Library(PLAIN), 0, Library(EMPTY_INSTANCE), 0)
  {
    LibrariesNormalizeAlike();
    CompatibleWithItself(Library(PLAIN));
    LibraryIsVerified(PLAIN);
    assert !SameForm([PLAIN][0], [EMPTY_INSTANCE][0]);
  }

  /** Rewriting a struct as an instantiation with no arguments is reported as compatible, and breaks
      a script that calls the function. */
  lemma EmptyInstantiationBreaksLinking()
    ensures var old_, new_ := Library(PLAIN), Library(EMPTY_INSTANCE);
            && IsUpgrade(old_, new_)
            && ViewInBounds(Caller(old_, 0, None)) && DependenciesInBounds(Surroundings(old_))
            && Links(Caller(old_, 0, None), Surroundings(old_))
            && !Links(Caller(old_, 0, None), Surroundings(old_)[old_.id := new_])
  {
    LibraryUpgrade();
    CallerLinks(Library(PLAIN), 0, None);
    CallerStillLinks(Library(PLAIN), 0, Library(EMPTY_INSTANCE), 0, None);
  }
}
