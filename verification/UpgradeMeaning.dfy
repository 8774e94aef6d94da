/** What the two flags of the upgrade check say about the compiled modules, and what layout
    compatibility means for values that were stored under the old version. */
module UpgradeMeaning {
  import opened FileFormat
  import opened Linking
  import opened LinkChecks
  import opened LinkMeaning
  import opened Compatibility
  import opened UpgradeLinking

  // ---------------------------------------------------------------- types

  /** Normalized types are equal exactly when the types name the same structs everywhere. */
  lemma {:induction false} NormalMeans(olds: seq<StructHandle>, a: SignatureToken,
      news: seq<StructHandle>, b: SignatureToken)
    requires TypeInBounds(olds, a) && TypeInBounds(news, b)
    ensures Normal(olds, a) == Normal(news, b) <==> SameType(olds, a, news, b)
    decreases a
  {
    ArgumentCount(olds, a);
    ArgumentCount(news, b);
    if NamesStruct(a) && NamesStruct(b) {
      NormalArguments(olds, a);
      NormalArguments(news, b);
      var xs, ys := Arguments(a), Arguments(b);
      forall k | 0 <= k < |xs| && k < |ys|
        ensures Normal(olds, xs[k]) == Normal(news, ys[k]) <==> SameType(olds, xs[k], news, ys[k])
      {
        NormalMeans(olds, xs[k], news, ys[k]);
      }
      assert Normal(olds, a).typeArguments == Normals(olds, xs) && Normal(news, b).typeArguments == Normals(news, ys);
      if SameType(olds, a, news, b) {
        assert Normals(olds, xs) == Normals(news, ys);
      }
      if Normal(olds, a) == Normal(news, b) {
        assert forall k :: 0 <= k < |xs| ==> Normals(olds, xs)[k] == Normals(news, ys)[k];
      }
    } else {
      match (a, b) {
        case (Vector(x), Vector(y)) => NormalMeans(olds, x, news, y);
        case (Reference(x), Reference(y)) => NormalMeans(olds, x, news, y);
        case (MutableReference(x), MutableReference(y)) => NormalMeans(olds, x, news, y);
        case _ =>
      }
    }
  }

  lemma NormalArguments(handles: seq<StructHandle>, ty: SignatureToken)
    requires TypeInBounds(handles, ty) && NamesStruct(ty)
    ensures SignatureInBounds(handles, Arguments(ty))
    ensures Normal(handles, ty) == StructT(handles[ty.handle].owner, handles[ty.handle].name,
                                           Normals(handles, Arguments(ty)))
  {
    ArgumentCount(handles, ty);
  }

  predicate SameTypes(olds: seq<StructHandle>, xs: Signature, news: seq<StructHandle>, ys: Signature)
    requires SignatureInBounds(olds, xs) && SignatureInBounds(news, ys)
  {
    |xs| == |ys| && forall k :: 0 <= k < |xs| ==> SameType(olds, xs[k], news, ys[k])
  }

  lemma NormalsMean(olds: seq<StructHandle>, xs: Signature, news: seq<StructHandle>, ys: Signature)
    requires SignatureInBounds(olds, xs) && SignatureInBounds(news, ys)
    ensures Normals(olds, xs) == Normals(news, ys) <==> SameTypes(olds, xs, news, ys)
  {
    forall k | 0 <= k < |xs| && k < |ys|
      ensures Normals(olds, xs)[k] == Normals(news, ys)[k] <==> SameType(olds, xs[k], news, ys[k])
    {
      NormalMeans(olds, xs[k], news, ys[k]);
    }
  }

  // ---------------------------------------------------------------- the layout flag

  /** The last definition of a struct name among the first `n`. */
  function FindDefinition(m: CompiledModule, name: Identifier, n: nat): (r: Option<StructDef>)
    requires InBounds(m) && n <= |m.structDefs|
    ensures r.Some? ==> r.value in m.structDefs && r.value.handle < |m.structHandles| && FieldsInBounds(m, r.value)
    ensures r.Some? <==> FindStruct(m, name, n).Some?
    ensures r.Some? ==> FindStruct(m, name, n) == Some(r.value.handle)
  {
    if n == 0 then None
    else if StructName(m, n - 1) == name then Some(m.structDefs[n - 1])
    else FindDefinition(m, name, n - 1)
  }

  /** Two definitions have the same fields: as many, with the same names in the same order, of the same
      types. */
  predicate SameFields(old_: CompiledModule, o: StructDef, new_: CompiledModule, n: StructDef)
    requires FieldsInBounds(old_, o) && FieldsInBounds(new_, n) && o.fields.Some? && n.fields.Some?
  {
    var xs, ys := o.fields.value, n.fields.value;
    && |xs| == |ys|
    && forall k :: 0 <= k < |xs| ==>
         && xs[k].name == ys[k].name
         && SameType(old_.structHandles, xs[k].ty, new_.structHandles, ys[k].ty)
  }

  /** Every struct that both versions define has the same fields in both. */
  ghost predicate LayoutIsKept(old_: CompiledModule, new_: CompiledModule)
    requires IsVerified(old_) && IsVerified(new_)
  {
    forall name: Identifier ::
      var o, n := FindDefinition(old_, name, |old_.structDefs|), FindDefinition(new_, name, |new_.structDefs|);
      o.Some? && n.Some? ==> SameFields(old_, o.value, new_, n.value)
  }

  lemma {:induction false} FieldsOfFound(m: CompiledModule, name: Identifier, n: nat)
    requires InBounds(m) && NoNativeStructs(m) && n <= |m.structDefs|
    ensures name in StructsOf(m, n) <==> FindDefinition(m, name, n).Some?
    ensures name in StructsOf(m, n) ==>
              var fields, def := StructsOf(m, n)[name].fields, FindDefinition(m, name, n).value;
              && def.fields.Some? && |fields| == |def.fields.value|
              && forall k :: 0 <= k < |fields| ==>
                   fields[k] == NormalField(def.fields.value[k].name, Normal(m.structHandles, def.fields.value[k].ty))
  {
    if n > 0 { FieldsOfFound(m, name, n - 1); }
  }

  lemma FieldsMean(old_: CompiledModule, new_: CompiledModule, name: Identifier)
    requires IsVerified(old_) && IsVerified(new_)
    requires name in Normalized(old_).structs && name in Normalized(new_).structs
    ensures var o, n := FindDefinition(old_, name, |old_.structDefs|), FindDefinition(new_, name, |new_.structDefs|);
            && o.Some? && n.Some? && o.value.fields.Some? && n.value.fields.Some?
            && (Normalized(old_).structs[name].fields == Normalized(new_).structs[name].fields <==>
                SameFields(old_, o.value, new_, n.value))
  {
    FieldsOfFound(old_, name, |old_.structDefs|);
    FieldsOfFound(new_, name, |new_.structDefs|);
    var xs := FindDefinition(old_, name, |old_.structDefs|).value.fields.value;
    var ys := FindDefinition(new_, name, |new_.structDefs|).value.fields.value;
    var before, after := Normalized(old_).structs[name].fields, Normalized(new_).structs[name].fields;
    forall k | 0 <= k < |xs| && k < |ys|
      ensures before[k] == after[k] <==>
              xs[k].name == ys[k].name && SameType(old_.structHandles, xs[k].ty, new_.structHandles, ys[k].ty)
    {
      NormalMeans(old_.structHandles, xs[k].ty, new_.structHandles, ys[k].ty);
    }
  }

  /** The layout flag is set exactly when every struct that both versions define has the same fields. */
  lemma LayoutMeans(old_: CompiledModule, new_: CompiledModule)
    requires IsVerified(old_) && IsVerified(new_)
    ensures LayoutCompatible(Normalized(old_), Normalized(new_)) <==> LayoutIsKept(old_, new_)
  {
    forall name: Identifier
      ensures name in Normalized(old_).structs <==> FindDefinition(old_, name, |old_.structDefs|).Some?
      ensures name in Normalized(new_).structs <==> FindDefinition(new_, name, |new_.structDefs|).Some?
    {
      FieldsOfFound(old_, name, |old_.structDefs|);
      FieldsOfFound(new_, name, |new_.structDefs|);
    }
    forall name | name in Normalized(old_).structs && name in Normalized(new_).structs
      ensures var o, n := FindDefinition(old_, name, |old_.structDefs|), FindDefinition(new_, name, |new_.structDefs|);
              Normalized(old_).structs[name].fields == Normalized(new_).structs[name].fields <==>
              SameFields(old_, o.value, new_, n.value)
    {
      FieldsMean(old_, new_, name);
    }
  }

  // ---------------------------------------------------------------- stored values

  /** A value in storage, labelled with resolved types. */
  datatype Stored =
    | Bits(ty: Type, bits: nat)
    | Items(elem: Type, items: seq<Stored>)
    | Record(owner: ModuleId, name: Identifier, typeArguments: seq<Type>, fields: seq<Stored>)

  predicate IsPrimitive(ty: Type) {
    ty.BoolT? || ty.U8T? || ty.U64T? || ty.U128T? || ty.AddressT? || ty.SignerT?
  }

  /** A field type of a struct, for the type arguments of an instance. */
  function Resolve(handles: seq<StructHandle>, ty: SignatureToken, args: seq<Type>): Type
    requires TypeInBounds(handles, ty)
    decreases ty
  {
    match ty
    case Bool => BoolT
    case U8 => U8T
    case U64 => U64T
    case U128 => U128T
    case Address => AddressT
    case Signer => SignerT
    case Vector(inner) => VectorT(Resolve(handles, inner, args))
    case Struct(h) => StructT(handles[h].owner, handles[h].name, [])
    case StructInstantiation(h, typeArgs) =>
      StructT(handles[h].owner, handles[h].name,
              seq(|typeArgs|, i requires 0 <= i < |typeArgs| => Resolve(handles, typeArgs[i], args)))
    case TypeParameter(i) => if i < |args| then args[i] else TypeParameterT(i)
    case Reference(inner) => ReferenceT(Resolve(handles, inner, args))
    case MutableReference(inner) => MutableReferenceT(Resolve(handles, inner, args))
  }

  /** The value can be read at the type: the struct definitions it goes through have its fields. */
  predicate Reads(deps: Dependencies, v: Stored, ty: Type)
    requires DependenciesInBounds(deps)
    decreases v, 0
  {
    match v
    case Bits(t, _) => t == ty && IsPrimitive(ty)
    case Items(elem, items) => ty == VectorT(elem) && forall i :: 0 <= i < |items| ==> Reads(deps, items[i], elem)
    case Record(owner, name, args, fields) =>
      && ty == StructT(owner, name, args) && owner in deps
      && var m := deps[owner];
         var def := FindDefinition(m, name, |m.structDefs|);
         def.Some? && def.value.fields.Some? && ReadsAll(deps, fields, m, def.value, args)
  }

  /** The values can be read as the fields of the definition. */
  predicate ReadsAll(deps: Dependencies, vs: seq<Stored>, m: CompiledModule, def: StructDef, args: seq<Type>)
    requires DependenciesInBounds(deps) && FieldsInBounds(m, def) && def.fields.Some?
    decreases vs, 1
  {
    && |vs| == |def.fields.value|
    && forall k :: 0 <= k < |vs| ==> Reads(deps, vs[k], Resolve(m.structHandles, def.fields.value[k].ty, args))
  }

  lemma {:induction false} SameTypeResolves(olds: seq<StructHandle>, a: SignatureToken,
      news: seq<StructHandle>, b: SignatureToken, args: seq<Type>)
    requires TypeInBounds(olds, a) && TypeInBounds(news, b) && SameType(olds, a, news, b)
    ensures Resolve(olds, a, args) == Resolve(news, b, args)
    decreases a
  {
    if NamesStruct(a) {
      var xs, ys := Arguments(a), Arguments(b);
      forall k | 0 <= k < |xs| ensures Resolve(olds, xs[k], args) == Resolve(news, ys[k], args) {
        SameTypeResolves(olds, xs[k], news, ys[k], args);
      }
      assert Resolve(olds, a, args).typeArguments == Resolve(news, b, args).typeArguments;
    } else {
      match (a, b) {
        case (Vector(x), Vector(y)) => SameTypeResolves(olds, x, news, y, args);
        case (Reference(x), Reference(y)) => SameTypeResolves(olds, x, news, y, args);
        case (MutableReference(x), MutableReference(y)) => SameTypeResolves(olds, x, news, y, args);
        case _ =>
      }
    }
  }

  /** No struct of the old version is missing from the new one. */
  ghost predicate StructsRemain(old_: CompiledModule, new_: CompiledModule)
    requires InBounds(old_) && InBounds(new_)
  {
    forall name: Identifier :: FindDefinition(old_, name, |old_.structDefs|).Some? ==>
      FindDefinition(new_, name, |new_.structDefs|).Some?
  }

  /** Upgrade keeps stored values: where the layout flag is set and no struct is gone, whatever could be
      read before can be read after, at the same type. */
  lemma {:induction false} StoredValuesSurvive(deps: Dependencies, old_: CompiledModule, new_: CompiledModule,
      v: Stored, ty: Type)
    requires DependenciesInBounds(deps) && old_.id in deps && deps[old_.id] == old_ && new_.id == old_.id
    requires IsVerified(old_) && IsVerified(new_) && StructsRemain(old_, new_)
    requires LayoutCompatible(Normalized(old_), Normalized(new_))
    requires Reads(deps, v, ty)
    ensures Reads(deps[old_.id := new_], v, ty)
    decreases v
  {
    var deps' := deps[old_.id := new_];
    match v {
      case Bits(_, _) =>
      case Items(elem, items) =>
        forall i | 0 <= i < |items| ensures Reads(deps', items[i], elem) {
          StoredValuesSurvive(deps, old_, new_, items[i], elem);
        }
      case Record(owner, name, args, fields) =>
        var def := FindDefinition(deps[owner], name, |deps[owner].structDefs|).value;
        forall k | 0 <= k < |fields|
          ensures Reads(deps', fields[k], Resolve(deps[owner].structHandles, def.fields.value[k].ty, args))
        {
          StoredValuesSurvive(deps, old_, new_, fields[k],
                              Resolve(deps[owner].structHandles, def.fields.value[k].ty, args));
        }
        if owner == old_.id { FieldsSurvive(deps', old_, new_, name, args, fields); }
    }
  }

  /** What can be read as the fields of the old definition can be read as those of the new one. */
  lemma FieldsSurvive(deps: Dependencies, old_: CompiledModule, new_: CompiledModule, name: Identifier,
      args: seq<Type>, fields: seq<Stored>)
    requires DependenciesInBounds(deps) && IsVerified(old_) && IsVerified(new_) && StructsRemain(old_, new_)
    requires LayoutCompatible(Normalized(old_), Normalized(new_))
    requires var o := FindDefinition(old_, name, |old_.structDefs|);
             o.Some? && o.value.fields.Some? && ReadsAll(deps, fields, old_, o.value, args)
    ensures var n := FindDefinition(new_, name, |new_.structDefs|);
            n.Some? && n.value.fields.Some? && ReadsAll(deps, fields, new_, n.value, args)
  {
    LayoutMeans(old_, new_);
    var o, n := FindDefinition(old_, name, |old_.structDefs|).value, FindDefinition(new_, name, |new_.structDefs|).value;
    assert SameFields(old_, o, new_, n);
    forall k | 0 <= k < |fields| ensures Reads(deps, fields[k], Resolve(new_.structHandles, n.fields.value[k].ty, args)) {
      SameTypeResolves(old_.structHandles, o.fields.value[k].ty, new_.structHandles, n.fields.value[k].ty, args);
    }
  }

  // ---------------------------------------------------------------- the linking flag

  /** A function of this visibility admits a caller that is a friend or not, from a script function or
      not. */
  predicate Admits(visibility: Visibility, isFriend: bool, fromScript: bool) {
    visibility == Public || (visibility == Script && fromScript) || (visibility == Friend && isFriend)
  }

  /** The new visibility admits every caller of the old one, and a script function stays one. */
  lemma VisibilityCompatibleMeans(old_: Visibility, new_: Visibility)
    ensures VisibilityCompatible(old_, new_) <==>
            && old_ != Private
            && (forall isFriend, fromScript :: Admits(old_, isFriend, fromScript) ==> Admits(new_, isFriend, fromScript))
            && (old_ == Script ==> new_ == Script)
  {
    if old_ == Public { assert Admits(old_, false, false); }
    if old_ == Friend { assert Admits(old_, true, false); }
  }

  /** Function `j` of the new version takes the place of function `i` of the old one. */
  ghost predicate Replaces(old_: CompiledModule, i: nat, new_: CompiledModule, j: nat)
    requires InBounds(old_) && InBounds(new_) && i < |old_.funDefs|
  {
    && j < |new_.funDefs| && FunName(old_, i) == FunName(new_, j)
    && VisibilityCompatible(old_.funDefs[i].visibility, new_.funDefs[j].visibility)
    && var before, after := old_.funHandles[old_.funDefs[i].handle], new_.funHandles[new_.funDefs[j].handle];
       && ArgumentsCarryOver(before.typeParameters, after.typeParameters)
       && SameTypes(old_.structHandles, before.parameters, new_.structHandles, after.parameters)
       && SameTypes(old_.structHandles, before.return_, new_.structHandles, after.return_)
  }

  ghost predicate StructIsReplaced(old_: CompiledModule, new_: CompiledModule, name: Identifier)
    requires InBounds(old_) && InBounds(new_)
  {
    var o, n := FindStruct(old_, name, |old_.structDefs|), FindStruct(new_, name, |new_.structDefs|);
    o.Some? ==> n.Some? && StructCarriesOver(old_.structHandles[o.value], new_.structHandles[n.value])
  }

  lemma StructReplacementMeans(old_: CompiledModule, new_: CompiledModule, name: Identifier)
    requires IsVerified(old_) && IsVerified(new_)
    ensures var before, after := Normalized(old_).structs, Normalized(new_).structs;
            (name in before ==> name in after && StructsCompatible(before[name], after[name]))
            <==> StructIsReplaced(old_, new_, name)
  {
    StructsOfFinds(old_, name, |old_.structDefs|);
    StructsOfFinds(new_, name, |new_.structDefs|);
    var o, n := FindStruct(old_, name, |old_.structDefs|), FindStruct(new_, name, |new_.structDefs|);
    if o.Some? && n.Some? {
      var x, y := old_.structHandles[o.value], new_.structHandles[n.value];
      CompatibleStructsMean(x, y);
      assert CompatibleStructs(x, y) <==>
        StructsCompatible(Normalized(old_).structs[name], Normalized(new_).structs[name]) by {
        assert forall i :: 0 <= i < |x.typeParameters| && i < |y.typeParameters| ==>
          (CompatiblePhantom(x.typeParameters[i], y.typeParameters[i]) <==>
             !x.typeParameters[i].isPhantom || y.typeParameters[i].isPhantom)
          && (CompatibleConstraints(x.typeParameters[i].constraints, y.typeParameters[i].constraints) <==>
                y.typeParameters[i].constraints <= x.typeParameters[i].constraints);
      }
    }
  }

  lemma FunctionsCompatibleMean(old_: CompiledModule, i: nat, new_: CompiledModule, j: nat)
    requires InBounds(old_) && InBounds(new_) && i < |old_.funDefs| && j < |new_.funDefs|
    requires FunName(old_, i) == FunName(new_, j)
    ensures FunctionsCompatible(FunctionOf(old_, i), FunctionOf(new_, j)) <==> Replaces(old_, i, new_, j)
  {
    var before, after := old_.funHandles[old_.funDefs[i].handle], new_.funHandles[new_.funDefs[j].handle];
    FunTypeParametersMean(before.typeParameters, after.typeParameters);
    NormalsMean(old_.structHandles, before.parameters, new_.structHandles, after.parameters);
    NormalsMean(old_.structHandles, before.return_, new_.structHandles, after.return_);
    assert CompatibleFunTypeParameters(before.typeParameters, after.typeParameters) <==>
      |before.typeParameters| == |after.typeParameters|
      && forall k :: 0 <= k < |before.typeParameters| ==> after.typeParameters[k] <= before.typeParameters[k] by {
      assert forall k :: 0 <= k < |before.typeParameters| && k < |after.typeParameters| ==>
        (CompatibleConstraints(before.typeParameters[k], after.typeParameters[k]) <==>
         after.typeParameters[k] <= before.typeParameters[k]);
    }
  }

  ghost predicate FunctionIsReplaced(old_: CompiledModule, new_: CompiledModule, i: nat)
    requires InBounds(old_) && InBounds(new_) && i < |old_.funDefs|
  {
    IsExposed(old_.funDefs[i].visibility) ==> exists j: nat :: Replaces(old_, i, new_, j)
  }

  lemma FunctionReplacementMeans(old_: CompiledModule, new_: CompiledModule, i: nat)
    requires IsVerified(old_) && IsVerified(new_) && i < |old_.funDefs|
    ensures var before, after, name := Normalized(old_).exposedFunctions, Normalized(new_).exposedFunctions, FunName(old_, i);
            (name in before ==> name in after && FunctionsCompatible(before[name], after[name]))
            <==> FunctionIsReplaced(old_, new_, i)
  {
    var name := FunName(old_, i);
    UniqueFind(old_, i, IsExposed, |old_.funDefs|);
    ExposedOfFinds(old_, name, |old_.funDefs|);
    ExposedOfFinds(new_, name, |new_.funDefs|);
    forall j: nat | j < |new_.funDefs| && FunName(new_, j) == name
      ensures FindFun(new_, name, IsExposed, |new_.funDefs|) ==
              if IsExposed(new_.funDefs[j].visibility) then Some(j) else None
      ensures FunctionsCompatible(FunctionOf(old_, i), FunctionOf(new_, j)) <==> Replaces(old_, i, new_, j)
    {
      UniqueFind(new_, j, IsExposed, |new_.funDefs|);
      FunctionsCompatibleMean(old_, i, new_, j);
    }
    if FunctionIsReplaced(old_, new_, i) && IsExposed(old_.funDefs[i].visibility) {
      var j: nat :| Replaces(old_, i, new_, j);
      VisibilityCompatibleMeans(old_.funDefs[i].visibility, new_.funDefs[j].visibility);
    }
  }

  /** The linking flag is set exactly when every struct and every exposed function of the old version has
      its place taken, and no friend is gone. */
  lemma LinkingMeans(old_: CompiledModule, new_: CompiledModule)
    requires IsVerified(old_) && IsVerified(new_)
    ensures LinkingCompatible(Normalized(old_), Normalized(new_)) <==>
            && old_.id == new_.id
            && (forall name: Identifier :: StructIsReplaced(old_, new_, name))
            && (forall i: nat :: i < |old_.funDefs| ==> FunctionIsReplaced(old_, new_, i))
            && (forall id :: id in old_.friends ==> id in new_.friends)
  {
    var before, after := Normalized(old_), Normalized(new_);
    forall name: Identifier
      ensures (name in before.structs ==> name in after.structs && StructsCompatible(before.structs[name], after.structs[name]))
              <==> StructIsReplaced(old_, new_, name)
    {
      StructReplacementMeans(old_, new_, name);
    }
    forall i: nat | i < |old_.funDefs|
      ensures var name := FunName(old_, i);
              (name in before.exposedFunctions ==>
                 name in after.exposedFunctions
                 && FunctionsCompatible(before.exposedFunctions[name], after.exposedFunctions[name]))
              <==> FunctionIsReplaced(old_, new_, i)
    {
      FunctionReplacementMeans(old_, new_, i);
    }
    forall name | name in before.exposedFunctions
      ensures exists i: nat :: i < |old_.funDefs| && FunName(old_, i) == name
    {
      ExposedOfFinds(old_, name, |old_.funDefs|);
    }
  }

  /** The check on two compiled modules, and both its answers. */
  method CheckUpgrade(old_: CompiledModule, new_: CompiledModule) returns (v: Verdict)
    requires IsVerified(old_) && IsVerified(new_)
    ensures v.structLayout <==> LayoutIsKept(old_, new_)
    ensures v.structAndFunctionLinking <==>
            && old_.id == new_.id
            && (forall name: Identifier :: StructIsReplaced(old_, new_, name))
            && (forall i: nat :: i < |old_.funDefs| ==> FunctionIsReplaced(old_, new_, i))
            && (forall id :: id in old_.friends ==> id in new_.friends)
  {
    LayoutMeans(old_, new_);
    LinkingMeans(old_, new_);
    v := Check(Normalized(old_), Normalized(new_));
  }
}
