/** Normalized modules, the upgrade compatibility check, and what it promises to modules and scripts
    that link against the old version. */
module Compatibility {
  import opened FileFormat
  import opened Linking

  // ---------------------------------------------------------------- normalized modules

  /** Types that can be compared across modules: a struct is known by owner and name, and one without
      type arguments is an instantiation with none. */
  datatype Type =
    | BoolT | U8T | U64T | U128T | AddressT | SignerT
    | StructT(owner: ModuleId, name: Identifier, typeArguments: seq<Type>)
    | VectorT(elem: Type)
    | TypeParameterT(idx: nat)
    | ReferenceT(inner: Type)
    | MutableReferenceT(inner: Type)

  datatype NormalField = NormalField(name: Identifier, type_: Type)

  datatype NormalStruct = NormalStruct(
    abilities: AbilitySet,
    typeParameters: seq<StructTypeParameter>,
    fields: seq<NormalField>)

  datatype NormalFunction = NormalFunction(
    visibility: Visibility,
    typeParameters: seq<AbilitySet>,
    parameters: seq<Type>,
    return_: seq<Type>)

  datatype NormalModule = NormalModule(
    id: ModuleId,
    friends: seq<ModuleId>,
    structs: map<Identifier, NormalStruct>,
    exposedFunctions: map<Identifier, NormalFunction>)

  /** `Type::new` */
  function Normal(handles: seq<StructHandle>, ty: SignatureToken): Type
    requires TypeInBounds(handles, ty)
    decreases ty
  {
    match ty
    case Struct(h) => StructT(handles[h].owner, handles[h].name, [])
    case StructInstantiation(h, args) =>
      StructT(handles[h].owner, handles[h].name,
              seq(|args|, i requires 0 <= i < |args| => Normal(handles, args[i])))
    case Bool => BoolT
    case U8 => U8T
    case U64 => U64T
    case U128 => U128T
    case Address => AddressT
    case Signer => SignerT
    case Vector(inner) => VectorT(Normal(handles, inner))
    case TypeParameter(i) => TypeParameterT(i)
    case Reference(inner) => ReferenceT(Normal(handles, inner))
    case MutableReference(inner) => MutableReferenceT(Normal(handles, inner))
  }

  function Normals(handles: seq<StructHandle>, tys: Signature): (r: seq<Type>)
    requires SignatureInBounds(handles, tys)
    ensures |r| == |tys| && forall i :: 0 <= i < |tys| ==> r[i] == Normal(handles, tys[i])
  {
    seq(|tys|, i requires 0 <= i < |tys| => Normal(handles, tys[i]))
  }

  /** Extracting a native struct panics. */
  predicate NoNativeStructs(m: CompiledModule) {
    forall i :: 0 <= i < |m.structDefs| ==> m.structDefs[i].fields.Some?
  }

  function StructOf(m: CompiledModule, i: nat): NormalStruct
    requires InBounds(m) && NoNativeStructs(m) && i < |m.structDefs|
  {
    var handle := m.structHandles[m.structDefs[i].handle];
    var fields := m.structDefs[i].fields.value;
    assert FieldsInBounds(m, m.structDefs[i]);
    NormalStruct(handle.abilities, handle.typeParameters,
      seq(|fields|, k requires 0 <= k < |fields| =>
        NormalField(fields[k].name, Normal(m.structHandles, fields[k].ty))))
  }

  function FunctionOf(m: CompiledModule, i: nat): NormalFunction
    requires InBounds(m) && i < |m.funDefs|
  {
    var handle := m.funHandles[m.funDefs[i].handle];
    NormalFunction(m.funDefs[i].visibility, handle.typeParameters,
      Normals(m.structHandles, handle.parameters), Normals(m.structHandles, handle.return_))
  }

  function StructsOf(m: CompiledModule, n: nat): map<Identifier, NormalStruct>
    requires InBounds(m) && NoNativeStructs(m) && n <= |m.structDefs|
  {
    if n == 0 then map[] else StructsOf(m, n - 1)[StructName(m, n - 1) := StructOf(m, n - 1)]
  }

  predicate IsExposed(v: Visibility) { v != Private }

  function ExposedOf(m: CompiledModule, n: nat): map<Identifier, NormalFunction>
    requires InBounds(m) && n <= |m.funDefs|
  {
    if n == 0 then map[]
    else
      var before := ExposedOf(m, n - 1);
      if IsExposed(m.funDefs[n - 1].visibility)
      then before[FunName(m, n - 1) := FunctionOf(m, n - 1)]
      else before
  }

  /** `Module::new` */
  function Normalized(m: CompiledModule): NormalModule
    requires InBounds(m) && NoNativeStructs(m)
  {
    NormalModule(m.id, m.friends, StructsOf(m, |m.structDefs|), ExposedOf(m, |m.funDefs|))
  }

  // ---------------------------------------------------------------- the check

  datatype Verdict = Verdict(structAndFunctionLinking: bool, structLayout: bool)

  predicate StructsCompatible(old_: NormalStruct, new_: NormalStruct) {
    && old_.abilities <= new_.abilities
    && |old_.typeParameters| == |new_.typeParameters|
    && forall i :: 0 <= i < |old_.typeParameters| ==>
         && (!old_.typeParameters[i].isPhantom || new_.typeParameters[i].isPhantom)
         && new_.typeParameters[i].constraints <= old_.typeParameters[i].constraints
  }

  predicate VisibilityCompatible(old_: Visibility, new_: Visibility) {
    match old_
    case Public => new_ == Public
    case Script => new_ == Script
    case Friend => new_ == Public || new_ == Friend
    case Private => false
  }

  predicate FunctionsCompatible(old_: NormalFunction, new_: NormalFunction) {
    && VisibilityCompatible(old_.visibility, new_.visibility)
    && old_.parameters == new_.parameters
    && old_.return_ == new_.return_
    && |old_.typeParameters| == |new_.typeParameters|
    && forall i :: 0 <= i < |old_.typeParameters| ==> new_.typeParameters[i] <= old_.typeParameters[i]
  }

  /** Linking compatibility: nothing that others can use is removed or made stricter. */
  ghost predicate LinkingCompatible(old_: NormalModule, new_: NormalModule) {
    && old_.id == new_.id
    && (forall name :: name in old_.structs ==>
          name in new_.structs && StructsCompatible(old_.structs[name], new_.structs[name]))
    && (forall name :: name in old_.exposedFunctions ==>
          && name in new_.exposedFunctions
          && FunctionsCompatible(old_.exposedFunctions[name], new_.exposedFunctions[name]))
    && (forall id :: id in old_.friends ==> id in new_.friends)
  }

  /** Layout compatibility: structs that are still there have the same fields. */
  ghost predicate LayoutCompatible(old_: NormalModule, new_: NormalModule) {
    forall name :: name in old_.structs && name in new_.structs ==>
      old_.structs[name].fields == new_.structs[name].fields
  }

  method CheckStructs(old_: NormalModule, new_: NormalModule) returns (linking: bool, layout: bool)
    ensures linking <==> forall name :: name in old_.structs ==>
              name in new_.structs && StructsCompatible(old_.structs[name], new_.structs[name])
    ensures layout <==> LayoutCompatible(old_, new_)
  {
    linking, layout := true, true;
    var todo := old_.structs.Keys;
    while todo != {}
      invariant todo <= old_.structs.Keys
      invariant linking <==> forall name :: name in old_.structs.Keys - todo ==>
                  name in new_.structs && StructsCompatible(old_.structs[name], new_.structs[name])
      invariant layout <==> forall name :: name in old_.structs.Keys - todo && name in new_.structs ==>
                  old_.structs[name].fields == new_.structs[name].fields
      decreases |todo|
    {
      var name :| name in todo;
      todo := todo - {name};
      if name !in new_.structs {
        linking := false;
      } else {
        if !StructsCompatible(old_.structs[name], new_.structs[name]) { linking := false; }
        if new_.structs[name].fields != old_.structs[name].fields { layout := false; }
      }
    }
  }

  method CheckFunctions(old_: NormalModule, new_: NormalModule) returns (linking: bool)
    ensures linking <==> forall name :: name in old_.exposedFunctions ==>
              && name in new_.exposedFunctions
              && FunctionsCompatible(old_.exposedFunctions[name], new_.exposedFunctions[name])
  {
    linking := true;
    var todo := old_.exposedFunctions.Keys;
    while todo != {}
      invariant todo <= old_.exposedFunctions.Keys
      invariant linking <==> forall name :: name in old_.exposedFunctions.Keys - todo ==>
                  && name in new_.exposedFunctions
                  && FunctionsCompatible(old_.exposedFunctions[name], new_.exposedFunctions[name])
      decreases |todo|
    {
      var name :| name in todo;
      todo := todo - {name};
      if name !in new_.exposedFunctions
        || !FunctionsCompatible(old_.exposedFunctions[name], new_.exposedFunctions[name])
      {
        linking := false;
      }
    }
  }

  /** `Compatibility::check` */
  method Check(old_: NormalModule, new_: NormalModule) returns (v: Verdict)
    ensures v.structAndFunctionLinking <==> LinkingCompatible(old_, new_)
    ensures v.structLayout <==> LayoutCompatible(old_, new_)
  {
    var linking := old_.id == new_.id;
    var structs, layout := CheckStructs(old_, new_);
    if !structs { linking := false; }
    var functions := CheckFunctions(old_, new_);
    if !functions { linking := false; }
    var oldFriends, newFriends := set id | id in old_.friends, set id | id in new_.friends;
    assert oldFriends <= newFriends <==> forall id :: id in old_.friends ==> id in new_.friends by {
      assert forall id :: (id in oldFriends <==> id in old_.friends) && (id in newFriends <==> id in new_.friends);
    }
    if !(oldFriends <= newFriends) { linking := false; }
    v := Verdict(linking, layout);
  }

  lemma {:induction false} ExposedAreNotPrivate(m: CompiledModule, name: Identifier, n: nat)
    requires InBounds(m) && n <= |m.funDefs| && name in ExposedOf(m, n)
    ensures IsExposed(ExposedOf(m, n)[name].visibility)
  {
    if !IsExposed(m.funDefs[n - 1].visibility) || FunName(m, n - 1) != name {
      ExposedAreNotPrivate(m, name, n - 1);
    }
  }

  /** A module is a linking-compatible upgrade of itself. */
  lemma CompatibleWithItself(m: CompiledModule)
    requires InBounds(m) && NoNativeStructs(m)
    ensures LinkingCompatible(Normalized(m), Normalized(m))
  {
    forall name | name in Normalized(m).exposedFunctions
      ensures IsExposed(Normalized(m).exposedFunctions[name].visibility)
    {
      ExposedAreNotPrivate(m, name, |m.funDefs|);
    }
  }

  /** Linking-compatible upgrades can follow one another. */
  lemma CompatibilityComposes(a: NormalModule, b: NormalModule, c: NormalModule)
    requires LinkingCompatible(a, b) && LinkingCompatible(b, c)
    ensures LinkingCompatible(a, c)
  {
    forall name | name in a.structs
      ensures name in c.structs && StructsCompatible(a.structs[name], c.structs[name])
    {
      assert name in b.structs && StructsCompatible(a.structs[name], b.structs[name]);
      assert StructsCompatible(b.structs[name], c.structs[name]);
    }
    forall name | name in a.exposedFunctions
      ensures name in c.exposedFunctions
      ensures FunctionsCompatible(a.exposedFunctions[name], c.exposedFunctions[name])
    {
      assert FunctionsCompatible(a.exposedFunctions[name], b.exposedFunctions[name]);
      assert FunctionsCompatible(b.exposedFunctions[name], c.exposedFunctions[name]);
    }
  }
}
