/** The ability system: abilities of instantiated types, the field requirement on structs, and
    the substitution lemmas that make both sound for generic code. */
module Abilities {
  import opened FileFormat

  // ---------------------------------------------------------------- abilities of a type

  /** The union of what each ability of a type argument is required by. */
  function RequiredByAny(abilities: AbilitySet): AbilitySet {
    (if Copy in abilities then Copy.RequiredBy() else {})
    + (if Drop in abilities then Drop.RequiredBy() else {})
    + (if Store in abilities then Store.RequiredBy() else {})
    + (if Key in abilities then Key.RequiredBy() else {})
  }

  /** Intersects the declared abilities with what every non-phantom argument allows. */
  function Restrict(acc: AbilitySet, phantoms: seq<bool>, typeArgs: seq<AbilitySet>): AbilitySet
    requires |phantoms| == |typeArgs|
  {
    if |typeArgs| == 0 then acc
    else
      var acc' := if phantoms[0] then acc else acc * RequiredByAny(typeArgs[0]);
      Restrict(acc', phantoms[1..], typeArgs[1..])
  }

  function PolymorphicAbilities(declared: AbilitySet, phantoms: seq<bool>, typeArgs: seq<AbilitySet>)
    : Option<AbilitySet>
  {
    if |phantoms| != |typeArgs| then None else Some(Restrict(declared, phantoms, typeArgs))
  }

  /** An instance has an ability exactly when it is declared and every non-phantom argument has
      what that ability requires. */
  lemma {:induction false} PolymorphicMeaning(
      acc: AbilitySet, phantoms: seq<bool>, typeArgs: seq<AbilitySet>, a: Ability)
    requires |phantoms| == |typeArgs|
    ensures a in Restrict(acc, phantoms, typeArgs) <==>
              a in acc && forall i :: 0 <= i < |typeArgs| && !phantoms[i] ==> a.Requires() in typeArgs[i]
  {
    if |typeArgs| > 0 {
      var acc' := if phantoms[0] then acc else acc * RequiredByAny(typeArgs[0]);
      PolymorphicMeaning(acc', phantoms[1..], typeArgs[1..], a);
      assert forall i :: 0 < i < |typeArgs| ==>
        phantoms[i] == phantoms[1..][i - 1] && typeArgs[i] == typeArgs[1..][i - 1];
    }
  }

  function Phantoms(decl: StructDecl): (r: seq<bool>)
    ensures |r| == |decl.typeParameters|
    ensures forall i :: 0 <= i < |r| ==> r[i] == decl.typeParameters[i].isPhantom
  {
    seq(|decl.typeParameters|, i requires 0 <= i < |decl.typeParameters| => decl.typeParameters[i].isPhantom)
  }

  function Known(abilities: Option<AbilitySet>): AbilitySet {
    if abilities.Some? then abilities.value else {}
  }

  /** The abilities of a type whose parameters have the given ones. None stands for an arity
      mismatch, or an index outside its table, anywhere in the type. */
  function TypeAbilities(structs: seq<StructDecl>, ty: SignatureToken, constraints: seq<AbilitySet>)
    : Option<AbilitySet>
    decreases ty
  {
    match ty
    case Bool | U8 | U64 | U128 | Address => Some(PRIMITIVES)
    case Reference(_) | MutableReference(_) => Some(REFERENCES)
    case Signer => Some(SIGNER)
    case TypeParameter(idx) => if idx < |constraints| then Some(constraints[idx]) else None
    case Vector(elem) =>
      var inner := TypeAbilities(structs, elem, constraints);
      if inner.None? then None else PolymorphicAbilities(VECTOR, [false], [inner.value])
    case Struct(h) => if h < |structs| then Some(structs[h].abilities) else None
    case StructInstantiation(h, typeArgs) =>
      var args := ArgAbilities(structs, typeArgs, constraints);
      if h >= |structs| || exists i :: 0 <= i < |typeArgs| && args[i].None? then None
      else PolymorphicAbilities(structs[h].abilities, Phantoms(structs[h]), AllKnown(args))
  }

  function ArgAbilities(structs: seq<StructDecl>, typeArgs: Signature, constraints: seq<AbilitySet>)
    : (args: seq<Option<AbilitySet>>)
    ensures |args| == |typeArgs|
    ensures forall i :: 0 <= i < |typeArgs| ==> args[i] == TypeAbilities(structs, typeArgs[i], constraints)
    decreases typeArgs
  {
    seq(|typeArgs|, i requires 0 <= i < |typeArgs| => TypeAbilities(structs, typeArgs[i], constraints))
  }

  function AllKnown(args: seq<Option<AbilitySet>>): (r: seq<AbilitySet>)
    ensures |r| == |args|
    ensures forall i :: 0 <= i < |args| ==> r[i] == Known(args[i])
  {
    seq(|args|, i requires 0 <= i < |args| => Known(args[i]))
  }

  /** When a struct instance has an ability, stated argument by argument. */
  lemma InstanceAbilities(structs: seq<StructDecl>, h: nat, typeArgs: Signature, constraints: seq<AbilitySet>)
    requires h < |structs|
    ensures TypeAbilities(structs, StructInstantiation(h, typeArgs), constraints).Some? <==>
              && |typeArgs| == |structs[h].typeParameters|
              && forall i :: 0 <= i < |typeArgs| ==> TypeAbilities(structs, typeArgs[i], constraints).Some?
    ensures TypeAbilities(structs, StructInstantiation(h, typeArgs), constraints).Some? ==>
              forall a: Ability ::
                a in TypeAbilities(structs, StructInstantiation(h, typeArgs), constraints).value <==>
                  && a in structs[h].abilities
                  && forall i :: 0 <= i < |typeArgs| && !structs[h].typeParameters[i].isPhantom ==>
                       a.Requires() in Known(TypeAbilities(structs, typeArgs[i], constraints))
  {
    var args := ArgAbilities(structs, typeArgs, constraints);
    if |typeArgs| == |structs[h].typeParameters| {
      forall a: Ability ensures a in Restrict(structs[h].abilities, Phantoms(structs[h]), AllKnown(args)) <==>
        && a in structs[h].abilities
        && forall i :: 0 <= i < |typeArgs| && !structs[h].typeParameters[i].isPhantom ==>
             a.Requires() in Known(args[i])
      {
        PolymorphicMeaning(structs[h].abilities, Phantoms(structs[h]), AllKnown(args), a);
      }
    }
  }

  lemma VectorAbilities(structs: seq<StructDecl>, elem: SignatureToken, constraints: seq<AbilitySet>)
    ensures TypeAbilities(structs, Vector(elem), constraints).Some? <==>
              TypeAbilities(structs, elem, constraints).Some?
    ensures TypeAbilities(structs, Vector(elem), constraints).Some? ==>
              forall a: Ability ::
                a in TypeAbilities(structs, Vector(elem), constraints).value <==>
                  a in VECTOR && a.Requires() in TypeAbilities(structs, elem, constraints).value
  {
    var inner := TypeAbilities(structs, elem, constraints);
    if inner.Some? {
      forall a: Ability ensures a in Restrict(VECTOR, [false], [inner.value]) <==>
        a in VECTOR && a.Requires() in inner.value
      {
        PolymorphicMeaning(VECTOR, [false], [inner.value], a);
      }
    }
  }

  // ---------------------------------------------------------------- instantiation

  /** Replaces type parameters. The bounds checker keeps indices in range; an index outside the
      substitution would stay as it is. */
  function Instantiate(ty: SignatureToken, subst: Signature): SignatureToken
    decreases ty
  {
    match ty
    case Vector(elem) => Vector(Instantiate(elem, subst))
    case StructInstantiation(h, typeArgs) =>
      StructInstantiation(h, seq(|typeArgs|, i requires 0 <= i < |typeArgs| => Instantiate(typeArgs[i], subst)))
    case Reference(inner) => Reference(Instantiate(inner, subst))
    case MutableReference(inner) => MutableReference(Instantiate(inner, subst))
    case TypeParameter(idx) => if idx < |subst| then subst[idx] else ty
    case _ => ty
  }

  function InstantiateAll(tys: Signature, subst: Signature): (r: Signature)
    ensures |r| == |tys|
    ensures forall i :: 0 <= i < |tys| ==> r[i] == Instantiate(tys[i], subst)
  {
    seq(|tys|, i requires 0 <= i < |tys| => Instantiate(tys[i], subst))
  }

  /** The type of a struct's instances. */
  function MaterializeType(h: nat, typeArgs: Signature): SignatureToken {
    if |typeArgs| == 0 then Struct(h) else StructInstantiation(h, typeArgs)
  }

  /** All type parameters of the type lie below `n`. */
  predicate ParametersBelow(ty: SignatureToken, n: nat)
    decreases ty
  {
    match ty
    case Vector(elem) => ParametersBelow(elem, n)
    case StructInstantiation(_, typeArgs) => forall i :: 0 <= i < |typeArgs| ==> ParametersBelow(typeArgs[i], n)
    case Reference(inner) => ParametersBelow(inner, n)
    case MutableReference(inner) => ParametersBelow(inner, n)
    case TypeParameter(idx) => idx < n
    case _ => true
  }

  /** Instantiating twice is instantiating once with the instantiated arguments. */
  lemma {:induction false} InstantiateComposes(ty: SignatureToken, inner: Signature, outer: Signature)
    requires ParametersBelow(ty, |inner|)
    ensures Instantiate(Instantiate(ty, inner), outer) == Instantiate(ty, InstantiateAll(inner, outer))
    decreases ty
  {
    match ty
    case Vector(elem) => InstantiateComposes(elem, inner, outer);
    case StructInstantiation(_, typeArgs) =>
      forall i | 0 <= i < |typeArgs|
        ensures Instantiate(Instantiate(typeArgs[i], inner), outer)
             == Instantiate(typeArgs[i], InstantiateAll(inner, outer))
      {
        InstantiateComposes(typeArgs[i], inner, outer);
      }
    case Reference(r) => InstantiateComposes(r, inner, outer);
    case MutableReference(r) => InstantiateComposes(r, inner, outer);
    case _ =>
  }

  /** The actual types have at least the abilities their parameters promise. */
  ghost predicate Satisfies(structs: seq<StructDecl>, actuals: Signature, constraints: seq<AbilitySet>,
                            context: seq<AbilitySet>)
  {
    && |actuals| == |constraints|
    && forall i :: 0 <= i < |actuals| ==>
         && TypeAbilities(structs, actuals[i], context).Some?
         && constraints[i] <= TypeAbilities(structs, actuals[i], context).value
  }

  /** A type whose abilities are known under its parameters' constraints keeps all of them under
      any actuals that satisfy the constraints. */
  lemma {:induction false} InstantiationKeepsAbilities(
      structs: seq<StructDecl>, ty: SignatureToken, constraints: seq<AbilitySet>,
      actuals: Signature, context: seq<AbilitySet>)
    requires Satisfies(structs, actuals, constraints, context)
    requires TypeAbilities(structs, ty, constraints).Some?
    ensures TypeAbilities(structs, Instantiate(ty, actuals), context).Some?
    ensures TypeAbilities(structs, ty, constraints).value
         <= TypeAbilities(structs, Instantiate(ty, actuals), context).value
    decreases ty
  {
    match ty
    case Vector(elem) =>
      VectorAbilities(structs, elem, constraints);
      VectorAbilities(structs, Instantiate(elem, actuals), context);
      InstantiationKeepsAbilities(structs, elem, constraints, actuals, context);
    case StructInstantiation(h, typeArgs) =>
      var typeArgs' := InstantiateAll(typeArgs, actuals);
      assert Instantiate(ty, actuals) == StructInstantiation(h, typeArgs');
      InstanceAbilities(structs, h, typeArgs, constraints);
      InstanceAbilities(structs, h, typeArgs', context);
      forall i | 0 <= i < |typeArgs|
        ensures TypeAbilities(structs, typeArgs'[i], context).Some?
        ensures Known(TypeAbilities(structs, typeArgs[i], constraints))
             <= Known(TypeAbilities(structs, typeArgs'[i], context))
      {
        InstantiationKeepsAbilities(structs, typeArgs[i], constraints, actuals, context);
      }
    case _ =>
  }

  /** The type-argument check at generic instructions and in signatures. */
  ghost predicate CheckGenericInstance(structs: seq<StructDecl>, typeArgs: Signature,
                                       constraints: seq<AbilitySet>, context: seq<AbilitySet>)
  {
    Satisfies(structs, typeArgs, constraints, context)
  }

  /** A generic instance checked once inside generic code is right for every instantiation of
      that code. */
  lemma GenericInstanceSubstitutes(structs: seq<StructDecl>, typeArgs: Signature,
                                   constraints: seq<AbilitySet>, callerConstraints: seq<AbilitySet>,
                                   actuals: Signature, context: seq<AbilitySet>)
    requires CheckGenericInstance(structs, typeArgs, constraints, callerConstraints)
    requires Satisfies(structs, actuals, callerConstraints, context)
    ensures CheckGenericInstance(structs, InstantiateAll(typeArgs, actuals), constraints, context)
  {
    forall i | 0 <= i < |typeArgs|
      ensures TypeAbilities(structs, InstantiateAll(typeArgs, actuals)[i], context).Some?
      ensures constraints[i] <= TypeAbilities(structs, InstantiateAll(typeArgs, actuals)[i], context).value
    {
      InstantiationKeepsAbilities(structs, typeArgs[i], callerConstraints, actuals, context);
    }
  }

  // ---------------------------------------------------------------- struct definitions

  /** Phantom parameters occur only in phantom positions. */
  predicate CheckPhantomParams(structs: seq<StructDecl>, ty: SignatureToken, isPhantomPos: bool,
                               typeParameters: seq<StructTypeParameter>)
    decreases ty
  {
    match ty
    case Vector(elem) => CheckPhantomParams(structs, elem, false, typeParameters)
    case StructInstantiation(h, typeArgs) =>
      && h < |structs| && |typeArgs| <= |structs[h].typeParameters|
      && forall i :: 0 <= i < |typeArgs| ==>
           CheckPhantomParams(structs, typeArgs[i], structs[h].typeParameters[i].isPhantom, typeParameters)
    case TypeParameter(idx) => idx < |typeParameters| && (typeParameters[idx].isPhantom ==> isPhantomPos)
    case _ => true
  }

  function AllAbilities(n: nat): (r: seq<AbilitySet>)
    ensures |r| == n
  {
    seq(n, _ => ALL)
  }

  /** Union over the declared abilities of what they require of fields. */
  function RequiredOfFields(declared: AbilitySet): AbilitySet {
    (if Copy in declared then {Copy.Requires()} else {})
    + (if Drop in declared then {Drop.Requires()} else {})
    + (if Store in declared then {Store.Requires()} else {})
    + (if Key in declared then {Key.Requires()} else {})
  }

  /** The field check of one struct: parameters are taken to have every ability. */
  predicate FieldAbilitiesOk(structs: seq<StructDecl>, decl: StructDecl) {
    decl.fieldInformation.Declared? ==>
      forall i :: 0 <= i < |decl.fieldInformation.fields| ==>
        var abilities := TypeAbilities(structs, decl.fieldInformation.fields[i], AllAbilities(|decl.typeParameters|));
        abilities.Some? && RequiredOfFields(decl.abilities) <= abilities.value
  }

  predicate FieldPhantomsOk(structs: seq<StructDecl>, decl: StructDecl) {
    decl.fieldInformation.Declared? ==>
      forall i :: 0 <= i < |decl.fieldInformation.fields| ==>
        CheckPhantomParams(structs, decl.fieldInformation.fields[i], false, decl.typeParameters)
  }

  /** What the verifier has checked of every struct definition. */
  predicate AcceptedStructs(structs: seq<StructDecl>) {
    forall h :: 0 <= h < |structs| ==>
      && FieldAbilitiesOk(structs, structs[h])
      && FieldPhantomsOk(structs, structs[h])
  }

  /** Types whose abilities are known have them after instantiation as well. */
  lemma {:induction false} InstantiationIsKnown(
      structs: seq<StructDecl>, ty: SignatureToken, constraints: seq<AbilitySet>,
      actuals: Signature, context: seq<AbilitySet>)
    requires |actuals| == |constraints|
    requires forall i :: 0 <= i < |actuals| ==> TypeAbilities(structs, actuals[i], context).Some?
    requires TypeAbilities(structs, ty, constraints).Some?
    ensures TypeAbilities(structs, Instantiate(ty, actuals), context).Some?
    decreases ty
  {
    match ty
    case Vector(elem) => InstantiationIsKnown(structs, elem, constraints, actuals, context);
    case StructInstantiation(h, typeArgs) =>
      InstanceAbilities(structs, h, typeArgs, constraints);
      InstanceAbilities(structs, h, InstantiateAll(typeArgs, actuals), context);
      forall i | 0 <= i < |typeArgs|
        ensures TypeAbilities(structs, Instantiate(typeArgs[i], actuals), context).Some?
      {
        InstantiationIsKnown(structs, typeArgs[i], constraints, actuals, context);
      }
    case _ =>
  }

  /** A field type that has an ability when all parameters do has it for any arguments that have
      it in the non-phantom positions. */
  lemma {:induction false} FieldInheritsAbility(
      structs: seq<StructDecl>, ty: SignatureToken, typeParameters: seq<StructTypeParameter>,
      actuals: Signature, context: seq<AbilitySet>, b: Ability)
    requires b.Requires() == b
    requires |actuals| == |typeParameters|
    requires CheckPhantomParams(structs, ty, false, typeParameters)
    requires TypeAbilities(structs, ty, AllAbilities(|typeParameters|)).Some?
    requires b in TypeAbilities(structs, ty, AllAbilities(|typeParameters|)).value
    requires forall i :: 0 <= i < |actuals| ==> TypeAbilities(structs, actuals[i], context).Some?
    requires forall i :: 0 <= i < |actuals| && !typeParameters[i].isPhantom ==>
               b in TypeAbilities(structs, actuals[i], context).value
    ensures TypeAbilities(structs, Instantiate(ty, actuals), context).Some?
    ensures b in TypeAbilities(structs, Instantiate(ty, actuals), context).value
    decreases ty
  {
    var all := AllAbilities(|typeParameters|);
    InstantiationIsKnown(structs, ty, all, actuals, context);
    match ty
    case Vector(elem) =>
      VectorAbilities(structs, elem, all);
      VectorAbilities(structs, Instantiate(elem, actuals), context);
      FieldInheritsAbility(structs, elem, typeParameters, actuals, context, b);
    case StructInstantiation(h, typeArgs) =>
      InstanceAbilities(structs, h, typeArgs, all);
      InstanceAbilities(structs, h, InstantiateAll(typeArgs, actuals), context);
      forall i | 0 <= i < |typeArgs| && !structs[h].typeParameters[i].isPhantom
        ensures b in Known(TypeAbilities(structs, Instantiate(typeArgs[i], actuals), context))
      {
        FieldInheritsAbility(structs, typeArgs[i], typeParameters, actuals, context, b);
      }
    case _ =>
  }

  /** Ability inheritance: if an instance of an accepted struct has an ability, every field type,
      instantiated, has what that ability requires. Phantom arguments need nothing. */
  lemma FieldsInheritAbilities(structs: seq<StructDecl>, h: nat, typeArgs: Signature,
                               context: seq<AbilitySet>, a: Ability, i: nat)
    requires AcceptedStructs(structs) && h < |structs|
    requires structs[h].fieldInformation.Declared? && i < |structs[h].fieldInformation.fields|
    requires |typeArgs| == |structs[h].typeParameters|
    requires forall j :: 0 <= j < |typeArgs| ==> TypeAbilities(structs, typeArgs[j], context).Some?
    requires a in Known(TypeAbilities(structs, MaterializeType(h, typeArgs), context))
    ensures a.Requires() in
              Known(TypeAbilities(structs, Instantiate(structs[h].fieldInformation.fields[i], typeArgs), context))
  {
    var field := structs[h].fieldInformation.fields[i];
    InstanceAbilities(structs, h, typeArgs, context);
    assert FieldAbilitiesOk(structs, structs[h]) && FieldPhantomsOk(structs, structs[h]);
    assert a.Requires() in RequiredOfFields(structs[h].abilities);
    FieldInheritsAbility(structs, field, structs[h].typeParameters, typeArgs, context, a.Requires());
  }

  // ---------------------------------------------------------------- the field check is exact

  /** Under arguments with every ability, the field type has what each declared ability requires. */
  ghost predicate FieldFollows(structs: seq<StructDecl>, decl: StructDecl, field: SignatureToken,
                               typeArgs: Signature, context: seq<AbilitySet>)
  {
    && |typeArgs| == |decl.typeParameters|
    && (forall j :: 0 <= j < |typeArgs| ==> TypeAbilities(structs, typeArgs[j], context) == Some(ALL)) ==>
      && TypeAbilities(structs, Instantiate(field, typeArgs), context).Some?
      && forall a: Ability :: a in decl.abilities ==>
           a.Requires() in TypeAbilities(structs, Instantiate(field, typeArgs), context).value
  }

  function OwnParameters(n: nat): Signature {
    seq(n, i requires 0 <= i < n => TypeParameter(i))
  }

  lemma {:induction false} InstantiateOwn(ty: SignatureToken, n: nat)
    ensures Instantiate(ty, OwnParameters(n)) == ty
    decreases ty
  {
    match ty
    case Vector(elem) => InstantiateOwn(elem, n);
    case Reference(inner) => InstantiateOwn(inner, n);
    case MutableReference(inner) => InstantiateOwn(inner, n);
    case StructInstantiation(_, typeArgs) =>
      forall i | 0 <= i < |typeArgs| ensures Instantiate(typeArgs[i], OwnParameters(n)) == typeArgs[i] {
        InstantiateOwn(typeArgs[i], n);
      }
    case _ =>
  }

  lemma RequiredOfFieldsMeans(declared: AbilitySet, abilities: AbilitySet)
    ensures RequiredOfFields(declared) <= abilities <==> forall a: Ability :: a in declared ==> a.Requires() in abilities
  {
    assert forall a: Ability :: a in declared ==> a.Requires() in RequiredOfFields(declared);
  }

  /** The field check accepts exactly the structs each of whose fields follows the declared abilities for
      all arguments that have every ability. */
  lemma FieldCheckIsExact(structs: seq<StructDecl>, decl: StructDecl)
    requires decl.fieldInformation.Declared?
    ensures FieldAbilitiesOk(structs, decl) <==>
            forall i, typeArgs, context :: 0 <= i < |decl.fieldInformation.fields| ==>
              FieldFollows(structs, decl, decl.fieldInformation.fields[i], typeArgs, context)
  {
    var fields, n := decl.fieldInformation.fields, |decl.typeParameters|;
    if FieldAbilitiesOk(structs, decl) {
      forall i, typeArgs, context | 0 <= i < |fields| && |typeArgs| == n
        && forall j :: 0 <= j < |typeArgs| ==> TypeAbilities(structs, typeArgs[j], context) == Some(ALL)
        ensures FieldFollows(structs, decl, fields[i], typeArgs, context)
      {
        InstantiationKeepsAbilities(structs, fields[i], AllAbilities(n), typeArgs, context);
        RequiredOfFieldsMeans(decl.abilities, TypeAbilities(structs, Instantiate(fields[i], typeArgs), context).value);
      }
    }
    if forall i, typeArgs, context :: 0 <= i < |fields| ==> FieldFollows(structs, decl, fields[i], typeArgs, context) {
      forall i | 0 <= i < |fields|
        ensures TypeAbilities(structs, fields[i], AllAbilities(n)).Some?
        ensures RequiredOfFields(decl.abilities) <= TypeAbilities(structs, fields[i], AllAbilities(n)).value
      {
        assert FieldFollows(structs, decl, fields[i], OwnParameters(n), AllAbilities(n));
        InstantiateOwn(fields[i], n);
        RequiredOfFieldsMeans(decl.abilities, TypeAbilities(structs, fields[i], AllAbilities(n)).value);
      }
    }
  }
}
