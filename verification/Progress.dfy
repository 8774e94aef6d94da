/** Which instructions the type checker accepts. A machine that checks types and abilities of the values
    it meets, at every instruction, is the measure: the static rules accept only what it lets pass, for
    all type arguments; for code without type parameters they accept exactly that. So checked code does
    not get stuck, and when it returns it holds values of the result types. */
module Progress {
  import opened Collections
  import opened FileFormat
  import opened ControlFlowGraph
  import opened StackUsage
  import opened Abilities
  import opened TypeSafety
  import opened Values
  import opened Machine
  import opened Preservation

  // ---------------------------------------------------------------- the checking machine

  predicate IsScalarOf(v: Value, ty: SignatureToken) {
    v.Scalar? && v.ty == ty
  }

  predicate IsIntegerValue(v: Value) {
    v.Scalar? && v.ty.IsInteger()
  }

  /** The type of the value has the ability. */
  ghost predicate ValueHas(env: Running, v: Value, a: Ability) {
    exists ty :: Holds(env, v, ty) && ClosedHas(env, ty, a)
  }

  ghost predicate SameTypeOfValues(env: Running, v: Value, w: Value) {
    exists ty :: Holds(env, v, ty) && Holds(env, w, ty)
  }

  /** The reference names a place of the type, and may be used to change it if need be. */
  predicate Names(env: Running, v: Value, ty: SignatureToken, forWriting: bool) {
    RefersTo(env, v, ty) && (forWriting ==> v.mutable)
  }

  predicate PlaceHas(env: Running, v: Value, a: Ability) {
    v.RefTo? && PlaceType(env, v.root, v.path).Some? && ClosedHas(env, PlaceType(env, v.root, v.path).value, a)
  }

  ghost predicate DefendsPlain(env: Running, instr: Bytecode, args: seq<Value>, mem: Memory)
    requires IsPlain(instr) && InstrInBounds(env.ctx, instr) && |args| == Pops(env.ctx, instr)
  {
    match instr
    case Pop => ValueHas(env, args[0], Drop)
    case BrTrue(_) | BrFalse(_) | Not => IsScalarOf(args[0], Bool)
    case StLoc(l) => Holds(env, args[0], RootType(env, LocalRoot(l)).value)
    case Abort => IsScalarOf(args[0], U64)
    case CopyLoc(l) => LocalRoot(l) in mem && ValueHas(env, mem[LocalRoot(l)], Copy)
    case CastU8 | CastU64 | CastU128 => IsIntegerValue(args[0])
    case Arithmetic | Comparison => IsIntegerValue(args[0]) && IsScalarOf(args[1], args[0].ty)
    case Shift => IsIntegerValue(args[0]) && IsScalarOf(args[1], U8)
    case Logical => IsScalarOf(args[0], Bool) && IsScalarOf(args[1], Bool)
    case Equality => SameTypeOfValues(env, args[0], args[1]) && ValueHas(env, args[0], Drop)
    case Branch(_) | Nop | LdU8 | LdU64 | LdU128 | LdTrue | LdFalse | LdConst(_) | MoveLoc(_) => true
  }

  ghost predicate DefendsStruct(env: Running, instr: Bytecode, args: seq<Value>)
    requires OnStructs(instr) && InstrInBounds(env.ctx, instr) && |args| == Pops(env.ctx, instr)
  {
    match instr
    case Call(f, typeArgs) =>
      HoldAll(env, args, InstantiateAll(InstantiateAll(env.ctx.functions[f].parameters, typeArgs), env.actuals))
    case Pack(d, typeArgs) =>
      var info := env.ctx.structs[d].fieldInformation;
      info.Declared? && HoldAll(env, args, InstantiateAll(InstantiateAll(info.fields, typeArgs), env.actuals))
    case Unpack(d, typeArgs) =>
      env.ctx.structs[d].fieldInformation.Declared? && Holds(env, args[0], InstanceType(env, d, typeArgs))
    case Exists(d, typeArgs) => IsScalarOf(args[0], Address) && ClosedHas(env, InstanceType(env, d, typeArgs), Key)
    case MoveFrom(d, typeArgs) => IsScalarOf(args[0], Address) && ClosedHas(env, InstanceType(env, d, typeArgs), Key)
  }

  ghost predicate DefendsReference(env: Running, instr: Bytecode, args: seq<Value>, mem: Memory)
    requires OnReferences(instr) && InstrInBounds(env.ctx, instr) && |args| == Pops(env.ctx, instr)
  {
    match instr
    case BorrowLoc(_, l) => LocalRoot(l) in mem && !mem[LocalRoot(l)].RefTo?
    case FreezeRef => args[0].RefTo? && args[0].mutable
    case ReadRef => PlaceHas(env, args[0], Copy)
    case WriteRef =>
      && PlaceHas(env, args[1], Drop) && args[1].mutable
      && Holds(env, args[0], PlaceType(env, args[1].root, args[1].path).value)
    case BorrowField(mutable, d, _, typeArgs) =>
      env.ctx.structs[d].fieldInformation.Declared? && Names(env, args[0], InstanceType(env, d, typeArgs), mutable)
    case BorrowGlobal(_, d, typeArgs) =>
      IsScalarOf(args[0], Address) && ClosedHas(env, InstanceType(env, d, typeArgs), Key)
    case MoveTo(d, typeArgs) =>
      && ClosedHas(env, InstanceType(env, d, typeArgs), Key)
      && Holds(env, args[1], InstanceType(env, d, typeArgs))
      && Names(env, args[0], Signer, false) && !args[0].mutable
  }

  ghost predicate DefendsVector(env: Running, instr: Bytecode, args: seq<Value>)
    requires OnVectors(instr) && InstrInBounds(env.ctx, instr) && |args| == Pops(env.ctx, instr)
  {
    var elem := Instantiate(instr.elemType, env.actuals);
    match instr
    case VecPack(_, _) => true
    case VecUnpack(_, _) => Holds(env, args[0], Vector(elem))
    case VecLen(_) => Names(env, args[0], Vector(elem), false)
    case VecBorrow(mutable, _) => Names(env, args[0], Vector(elem), mutable) && IsScalarOf(args[1], U64)
    case VecPushBack(_) => Names(env, args[0], Vector(elem), true) && Holds(env, args[1], elem)
    case VecPopBack(_) => Names(env, args[0], Vector(elem), true)
    case VecSwap(_) => Names(env, args[0], Vector(elem), true) && IsScalarOf(args[1], U64) && IsScalarOf(args[2], U64)
  }

  /** What the checking machine demands of the values that an instruction meets. */
  ghost predicate Defends(env: Running, instr: Bytecode, args: seq<Value>, mem: Memory)
    requires InstrInBounds(env.ctx, instr) && |args| == Pops(env.ctx, instr)
  {
    if instr.Ret? then HoldAll(env, args, InstantiateAll(env.ctx.results, env.actuals))
    else if OnStructs(instr) then DefendsStruct(env, instr, args)
    else if OnReferences(instr) then DefendsReference(env, instr, args, mem)
    else if OnVectors(instr) then DefendsVector(env, instr, args)
    else DefendsPlain(env, instr, args, mem)
  }

  /** What types do not decide: which locals are available, what storage holds and how long vectors are,
      whether references still lead anywhere, and whether a call returns. */
  ghost predicate IsReady(env: Running, instr: Bytecode, args: seq<Value>, mem: Memory)
    requires InstrInBounds(env.ctx, instr) && |args| == Pops(env.ctx, instr)
  {
    match instr
    case CopyLoc(l) => LocalRoot(l) in mem
    case MoveLoc(l) => LocalRoot(l) in mem
    case BorrowLoc(_, l) => LocalRoot(l) in mem
    case Call(f, typeArgs) => exists out, mem' :: ExecutesCall(env, f, typeArgs, args, mem, out, mem')
    case ReadRef | BorrowField(_, _, _, _) | VecLen(_) | VecPushBack(_) => Target(mem, args[0]).Some?
    case WriteRef => Target(mem, args[1]).Some?
    case MoveFrom(d, typeArgs) =>
      args[0].Scalar? ==> StorageRoot(args[0].bits, InstanceType(env, d, typeArgs)) in mem
    case BorrowGlobal(_, d, typeArgs) =>
      args[0].Scalar? ==> StorageRoot(args[0].bits, InstanceType(env, d, typeArgs)) in mem
    case MoveTo(d, typeArgs) =>
      && Target(mem, args[0]).Some?
      && (Target(mem, args[0]).value.Scalar? ==>
            StorageRoot(Target(mem, args[0]).value.bits, InstanceType(env, d, typeArgs)) !in mem)
    case VecUnpack(_, n) => args[0].VectorOf? ==> |args[0].items| == n
    case VecBorrow(_, _) =>
      Target(mem, args[0]).Some? && (ItemsOf(mem, args[0]).Some? && args[1].Scalar? ==>
                                       args[1].bits < |ItemsOf(mem, args[0]).value|)
    case VecPopBack(_) => Target(mem, args[0]).Some? && ItemsOf(mem, args[0]) != Some([])
    case VecSwap(_) =>
      Target(mem, args[0]).Some? && (ItemsOf(mem, args[0]).Some? && args[1].Scalar? && args[2].Scalar? ==>
                                       args[1].bits < |ItemsOf(mem, args[0]).value| && args[2].bits < |ItemsOf(mem, args[0]).value|)
    case _ => true
  }

  // ---------------------------------------------------------------- accepted code is let pass

  /** A typed situation: operands and memory have their types. */
  ghost predicate Meets(env: Running, instr: Bytecode, argTypes: Signature, args: seq<Value>, mem: Memory) {
    && InstrInBounds(env.ctx, instr) && InstantiationOk(env.ctx, instr) && IsRunning(env)
    && |args| == |argTypes| == Pops(env.ctx, instr)
    && HoldAll(env, args, InstantiateAll(argTypes, env.actuals))
    && MemoryTyped(env, mem)
    && IsReady(env, instr, args, mem)
  }

  lemma ScalarHolds(env: Running, v: Value, ty: SignatureToken)
    requires IsScalarType(ty)
    ensures Holds(env, v, Instantiate(ty, env.actuals)) <==> IsScalarOf(v, ty)
  {}

  lemma AbilityHolds(env: Running, ty: SignatureToken, a: Ability)
    requires IsRunning(env) && Has(env.ctx, ty, a)
    ensures ClosedHas(env, Instantiate(ty, env.actuals), a)
  {
    InstantiationKeepsAbilities(env.ctx.structs, ty, env.ctx.typeParameters, env.actuals, []);
  }

  lemma PlainIsDefended(env: Running, instr: Bytecode, argTypes: Signature, args: seq<Value>, mem: Memory)
    requires IsPlain(instr) && Meets(env, instr, argTypes, args, mem)
    requires PlainRule(env.ctx, instr, argTypes).Some?
    ensures DefendsPlain(env, instr, args, mem)
  {
    if |args| > 0 { OperandHolds(env, argTypes, args, 0); }
    if |args| > 1 { OperandHolds(env, argTypes, args, 1); }
    if instr.Pop? || instr.Equality? {
      var i := if instr.Pop? then 0 else 1;
      AbilityHolds(env, argTypes[i], Drop);
      assert Holds(env, args[0], Instantiate(argTypes[i], env.actuals));
    }
    if instr.CopyLoc? {
      AbilityHolds(env, LocalAt(env.ctx, instr.local), Copy);
      assert RootTyped(env, mem, LocalRoot(instr.local));
      assert Holds(env, mem[LocalRoot(instr.local)], Instantiate(LocalAt(env.ctx, instr.local), env.actuals));
    }
  }

  lemma StructIsDefended(env: Running, instr: Bytecode, argTypes: Signature, args: seq<Value>, mem: Memory)
    requires OnStructs(instr) && Meets(env, instr, argTypes, args, mem)
    requires StructRule(env.ctx, instr, argTypes).Some?
    ensures DefendsStruct(env, instr, args)
  {
    if instr.Unpack? || instr.Exists? || instr.MoveFrom? { OperandHolds(env, argTypes, args, 0); }
    if instr.Exists? || instr.MoveFrom? { AbilityHolds(env, MaterializeType(instr.def, instr.typeArgs), Key); }
  }

  lemma DereferenceIsDefended(env: Running, instr: Bytecode, argTypes: Signature, args: seq<Value>, mem: Memory)
    requires (instr.FreezeRef? || instr.ReadRef? || instr.WriteRef?) && Meets(env, instr, argTypes, args, mem)
    requires ReferenceRule(env.ctx, instr, argTypes).Some?
    ensures DefendsReference(env, instr, args, mem)
  {
    OperandHolds(env, argTypes, args, 0);
    if instr.ReadRef? { AbilityHolds(env, argTypes[0].inner, Copy); }
    if instr.WriteRef? {
      OperandHolds(env, argTypes, args, 1);
      AbilityHolds(env, argTypes[1].inner, Drop);
    }
  }

  lemma BorrowIsDefended(env: Running, instr: Bytecode, argTypes: Signature, args: seq<Value>, mem: Memory)
    requires (instr.BorrowLoc? || instr.BorrowField? || instr.BorrowGlobal? || instr.MoveTo?)
    requires Meets(env, instr, argTypes, args, mem) && ReferenceRule(env.ctx, instr, argTypes).Some?
    ensures DefendsReference(env, instr, args, mem)
  {
    if instr.BorrowLoc? {
      LocalIsPlain(env, instr.local, mem);
    } else {
      OperandHolds(env, argTypes, args, 0);
      if instr.MoveTo? { OperandHolds(env, argTypes, args, 1); }
      if OnStorage(instr) { AbilityHolds(env, MaterializeType(instr.def, instr.typeArgs), Key); }
    }
  }

  lemma LocalIsPlain(env: Running, l: nat, mem: Memory)
    requires IsRunning(env) && MemoryTyped(env, mem) && LocalRoot(l) in mem
    requires l < |env.ctx.parameters| + |env.ctx.locals| && !LocalAt(env.ctx, l).IsReference()
    ensures !mem[LocalRoot(l)].RefTo?
  {
    assert RootTyped(env, mem, LocalRoot(l)) && IsLocalType(LocalAt(env.ctx, l));
    InstanceHasNoReferences(LocalAt(env.ctx, l), env.actuals);
  }

  lemma VectorIsDefended(env: Running, instr: Bytecode, argTypes: Signature, args: seq<Value>, mem: Memory)
    requires OnVectors(instr) && Meets(env, instr, argTypes, args, mem)
    requires VectorRule(env.ctx, instr, argTypes).Some?
    ensures DefendsVector(env, instr, args)
  {
    if instr.VecPack? { return; }
    OperandHolds(env, argTypes, args, 0);
    if |args| > 1 { OperandHolds(env, argTypes, args, 1); }
    if |args| > 2 { OperandHolds(env, argTypes, args, 2); }
    if !instr.VecUnpack? {
      var forWriting := if instr.VecBorrow? then instr.mutable else !instr.VecLen?;
      VectorReferenceHolds(env, argTypes, args, forWriting, instr.elemType);
    }
  }

  /** What a static rule accepts the checking machine lets pass, for all type arguments. */
  lemma AcceptedIsDefended(env: Running, instr: Bytecode, argTypes: Signature, args: seq<Value>, mem: Memory)
    requires Meets(env, instr, argTypes, args, mem) && Rule(env.ctx, instr, argTypes).Some?
    ensures Defends(env, instr, args, mem)
  {
    if instr.Ret? {
      assert Rule(env.ctx, instr, argTypes) == PlainRule(env.ctx, instr, argTypes);
    } else if OnStructs(instr) {
      StructIsDefended(env, instr, argTypes, args, mem);
    } else if instr.FreezeRef? || instr.ReadRef? || instr.WriteRef? {
      DereferenceIsDefended(env, instr, argTypes, args, mem);
    } else if OnReferences(instr) {
      BorrowIsDefended(env, instr, argTypes, args, mem);
    } else if OnVectors(instr) {
      VectorIsDefended(env, instr, argTypes, args, mem);
    } else {
      PlainIsDefended(env, instr, argTypes, args, mem);
    }
  }

  // ---------------------------------------------------------------- what is let pass is accepted

  /** The run has no type arguments. */
  predicate IsClosed(env: Running) {
    env.ctx.typeParameters == [] && env.actuals == []
  }

  lemma {:induction false} InstantiateNothing(ty: SignatureToken)
    ensures Instantiate(ty, []) == ty
    decreases ty
  {
    match ty
    case Vector(elem) => InstantiateNothing(elem);
    case Reference(inner) => InstantiateNothing(inner);
    case MutableReference(inner) => InstantiateNothing(inner);
    case StructInstantiation(_, typeArgs) =>
      forall i | 0 <= i < |typeArgs| ensures Instantiate(typeArgs[i], []) == typeArgs[i] {
        InstantiateNothing(typeArgs[i]);
      }
    case _ =>
  }

  lemma InstantiateAllNothing(tys: Signature)
    ensures InstantiateAll(tys, []) == tys
  {
    forall i | 0 <= i < |tys| ensures Instantiate(tys[i], []) == tys[i] {
      InstantiateNothing(tys[i]);
    }
  }

  /** A value has one type. */
  lemma HoldsOnce(env: Running, v: Value, t: SignatureToken, u: SignatureToken)
    requires Holds(env, v, t) && Holds(env, v, u)
    ensures t == u
  {}

  lemma HoldAllOnce(env: Running, vs: seq<Value>, tys: Signature, others: Signature)
    requires HoldAll(env, vs, tys) && HoldAll(env, vs, others)
    ensures tys == others
  {
    forall i | 0 <= i < |vs| ensures tys[i] == others[i] {
      HoldsOnce(env, vs[i], tys[i], others[i]);
    }
  }

  lemma OperandIs(env: Running, argTypes: Signature, args: seq<Value>, i: nat)
    requires IsClosed(env) && HoldAll(env, args, InstantiateAll(argTypes, env.actuals)) && i < |argTypes|
    ensures i < |args| && Holds(env, args[i], argTypes[i])
    ensures args[i].Scalar? ==> argTypes[i] == args[i].ty
    ensures args[i].RefTo? ==> argTypes[i] == Borrowed(args[i].mutable, argTypes[i].inner)
                               && PlaceType(env, args[i].root, args[i].path) == Some(argTypes[i].inner)
  {
    OperandHolds(env, argTypes, args, i);
    InstantiateNothing(argTypes[i]);
  }

  lemma AbilityIsHad(env: Running, v: Value, ty: SignatureToken, a: Ability)
    requires IsClosed(env) && Holds(env, v, ty) && ValueHas(env, v, a)
    ensures Has(env.ctx, ty, a)
  {
    var other :| Holds(env, v, other) && ClosedHas(env, other, a);
    HoldsOnce(env, v, ty, other);
  }

  lemma PlainIsAccepted(env: Running, instr: Bytecode, argTypes: Signature, args: seq<Value>, mem: Memory)
    requires IsPlain(instr) && IsClosed(env) && Meets(env, instr, argTypes, args, mem)
    requires DefendsPlain(env, instr, args, mem)
    ensures PlainRule(env.ctx, instr, argTypes).Some?
  {
    if |args| > 0 { OperandIs(env, argTypes, args, 0); }
    if |args| > 1 { OperandIs(env, argTypes, args, 1); }
    if instr.Pop? { AbilityIsHad(env, args[0], argTypes[0], Drop); }
    if instr.Equality? { EqualityIsAccepted(env, argTypes, args); }
    if instr.StLoc? || instr.CopyLoc? {
      var ty := LocalAt(env.ctx, instr.local);
      InstantiateNothing(ty);
      if instr.StLoc? {
        HoldsOnce(env, args[0], argTypes[0], ty);
      } else {
        assert RootTyped(env, mem, LocalRoot(instr.local));
        AbilityIsHad(env, mem[LocalRoot(instr.local)], ty, Copy);
      }
    }
  }

  lemma EqualityIsAccepted(env: Running, argTypes: Signature, args: seq<Value>)
    requires IsClosed(env) && |args| == |argTypes| == 2
    requires Holds(env, args[0], argTypes[0]) && Holds(env, args[1], argTypes[1])
    requires SameTypeOfValues(env, args[0], args[1]) && ValueHas(env, args[0], Drop)
    ensures argTypes[0] == argTypes[1] && Has(env.ctx, argTypes[1], Drop)
  {
    var ty :| Holds(env, args[0], ty) && Holds(env, args[1], ty);
    HoldsOnce(env, args[0], argTypes[0], ty);
    HoldsOnce(env, args[1], argTypes[1], ty);
    AbilityIsHad(env, args[0], ty, Drop);
  }

  lemma StructIsAccepted(env: Running, instr: Bytecode, argTypes: Signature, args: seq<Value>, mem: Memory)
    requires OnStructs(instr) && IsClosed(env) && Meets(env, instr, argTypes, args, mem)
    requires DefendsStruct(env, instr, args)
    ensures StructRule(env.ctx, instr, argTypes).Some?
  {
    InstantiateAllNothing(argTypes);
    match instr {
      case Call(f, typeArgs) =>
        InstantiateAllNothing(InstantiateAll(env.ctx.functions[f].parameters, typeArgs));
        HoldAllOnce(env, args, argTypes, InstantiateAll(env.ctx.functions[f].parameters, typeArgs));
      case Pack(d, typeArgs) =>
        var fields := env.ctx.structs[d].fieldInformation.fields;
        InstantiateAllNothing(InstantiateAll(fields, typeArgs));
        HoldAllOnce(env, args, argTypes, InstantiateAll(fields, typeArgs));
      case Unpack(d, typeArgs) =>
        OperandIs(env, argTypes, args, 0);
        InstantiateNothing(MaterializeType(d, typeArgs));
        HoldsOnce(env, args[0], argTypes[0], MaterializeType(d, typeArgs));
      case Exists(d, typeArgs) =>
        OperandIs(env, argTypes, args, 0);
        InstantiateNothing(MaterializeType(d, typeArgs));
      case MoveFrom(d, typeArgs) =>
        OperandIs(env, argTypes, args, 0);
        InstantiateNothing(MaterializeType(d, typeArgs));
    }
  }

  lemma DereferenceIsAccepted(env: Running, instr: Bytecode, argTypes: Signature, args: seq<Value>, mem: Memory)
    requires (instr.FreezeRef? || instr.ReadRef? || instr.WriteRef?) && IsClosed(env)
    requires Meets(env, instr, argTypes, args, mem) && DefendsReference(env, instr, args, mem)
    ensures ReferenceRule(env.ctx, instr, argTypes).Some?
  {
    OperandIs(env, argTypes, args, 0);
    if instr.WriteRef? {
      OperandIs(env, argTypes, args, 1);
      HoldsOnce(env, args[0], argTypes[0], argTypes[1].inner);
    }
  }

  lemma BorrowIsAccepted(env: Running, instr: Bytecode, argTypes: Signature, args: seq<Value>, mem: Memory)
    requires instr.BorrowLoc? || instr.BorrowField? || instr.BorrowGlobal?
    requires IsClosed(env) && Meets(env, instr, argTypes, args, mem) && DefendsReference(env, instr, args, mem)
    ensures ReferenceRule(env.ctx, instr, argTypes).Some?
  {
    if instr.BorrowLoc? {
      assert RootTyped(env, mem, LocalRoot(instr.local));
      InstantiateNothing(LocalAt(env.ctx, instr.local));
    } else {
      OperandIs(env, argTypes, args, 0);
      InstantiateNothing(MaterializeType(instr.def, instr.typeArgs));
    }
  }

  lemma MoveToIsAccepted(env: Running, instr: Bytecode, argTypes: Signature, args: seq<Value>, mem: Memory)
    requires instr.MoveTo? && IsClosed(env) && Meets(env, instr, argTypes, args, mem)
    requires DefendsReference(env, instr, args, mem)
    ensures ReferenceRule(env.ctx, instr, argTypes).Some?
  {
    OperandIs(env, argTypes, args, 0);
    OperandIs(env, argTypes, args, 1);
    InstantiateNothing(MaterializeType(instr.def, instr.typeArgs));
    HoldsOnce(env, args[1], argTypes[1], MaterializeType(instr.def, instr.typeArgs));
  }

  lemma VectorOperandIs(env: Running, v: Value, ty: SignatureToken, elem: SignatureToken, mutRefOnly: bool)
    requires Holds(env, v, ty) && Names(env, v, Vector(elem), mutRefOnly)
    ensures VectorElementType(ty, mutRefOnly) == Some(elem)
  {}

  lemma VectorIsAccepted(env: Running, instr: Bytecode, argTypes: Signature, args: seq<Value>)
    requires OnVectors(instr) && IsClosed(env) && InstrInBounds(env.ctx, instr)
    requires |args| == |argTypes| == Pops(env.ctx, instr) && HoldAll(env, args, argTypes)
    requires DefendsVector(env, instr, args)
    ensures VectorRule(env.ctx, instr, argTypes).Some?
  {
    if instr.VecPack? { return; }
    InstantiateNothing(instr.elemType);
    if instr.VecUnpack? {
      HoldsOnce(env, args[0], argTypes[0], Vector(instr.elemType));
      return;
    }
    var forWriting := if instr.VecBorrow? then instr.mutable else !instr.VecLen?;
    VectorOperandIs(env, args[0], argTypes[0], instr.elemType, forWriting);
    if instr.VecPushBack? {
      HoldsOnce(env, args[1], argTypes[1], instr.elemType);
    } else if instr.VecBorrow? || instr.VecSwap? {
      HoldsOnce(env, args[1], argTypes[1], U64);
      if instr.VecSwap? { HoldsOnce(env, args[2], argTypes[2], U64); }
    }
  }

  /** For code without type parameters the static rules accept exactly what the checking machine lets
      pass: no more, and no less. */
  lemma RulesAreExact(env: Running, instr: Bytecode, argTypes: Signature, args: seq<Value>, mem: Memory)
    requires IsClosed(env) && Meets(env, instr, argTypes, args, mem)
    ensures Rule(env.ctx, instr, argTypes).Some? <==> Defends(env, instr, args, mem)
  {
    if Rule(env.ctx, instr, argTypes).Some? { AcceptedIsDefended(env, instr, argTypes, args, mem); }
    if Defends(env, instr, args, mem) {
      if instr.Ret? {
        InstantiateAllNothing(argTypes);
        InstantiateAllNothing(env.ctx.results);
        HoldAllOnce(env, args, argTypes, env.ctx.results);
      } else if OnStructs(instr) {
        StructIsAccepted(env, instr, argTypes, args, mem);
      } else if instr.FreezeRef? || instr.ReadRef? || instr.WriteRef? {
        DereferenceIsAccepted(env, instr, argTypes, args, mem);
      } else if instr.MoveTo? {
        MoveToIsAccepted(env, instr, argTypes, args, mem);
      } else if OnReferences(instr) {
        BorrowIsAccepted(env, instr, argTypes, args, mem);
      } else if OnVectors(instr) {
        InstantiateAllNothing(argTypes);
        VectorIsAccepted(env, instr, argTypes, args);
      } else {
        PlainIsAccepted(env, instr, argTypes, args, mem);
      }
    }
  }

  // ---------------------------------------------------------------- progress

  function SomeConstant(ty: SignatureToken): Value
    requires ty.IsValidForConstant()
  {
    if ty.Vector? then VectorOf(ty.elem, []) else Scalar(ty, 0)
  }

  /** The type of the scalar that an operator or a load leaves. */
  function ScalarPushed(instr: Bytecode, args: seq<Value>): SignatureToken {
    match instr
    case LdU8 | CastU8 => U8
    case LdU64 | CastU64 => U64
    case LdU128 | CastU128 => U128
    case Arithmetic => if |args| == 2 && args[1].Scalar? then args[1].ty else Bool
    case Shift => if |args| == 2 && args[0].Scalar? then args[0].ty else Bool
    case _ => Bool
  }

  lemma PlainExecutes(env: Running, instr: Bytecode, args: seq<Value>, mem: Memory)
    returns (out: seq<Value>, mem': Memory)
    requires IsPlain(instr) && !instr.Abort? && InstrInBounds(env.ctx, instr) && |args| == Pops(env.ctx, instr)
    requires instr.LdConst? ==> env.ctx.constants[instr.constant].IsValidForConstant()
    requires DefendsPlain(env, instr, args, mem) && IsReady(env, instr, args, mem)
    ensures ExecutesPlain(env, instr, args, mem, out, mem')
  {
    out, mem' := [], mem;
    if instr.StLoc? {
      mem' := mem[LocalRoot(instr.local) := args[0]];
    } else if instr.CopyLoc? {
      out := [mem[LocalRoot(instr.local)]];
    } else if instr.MoveLoc? {
      out, mem' := [mem[LocalRoot(instr.local)]], mem - {LocalRoot(instr.local)};
    } else if instr.LdConst? {
      out := [SomeConstant(env.ctx.constants[instr.constant])];
    } else if Pushes(env.ctx, instr) == 1 {
      out := [Scalar(ScalarPushed(instr, args), 0)];
    }
  }

  lemma StructExecutes(env: Running, instr: Bytecode, args: seq<Value>, mem: Memory)
    returns (out: seq<Value>, mem': Memory)
    requires OnStructs(instr) && InstrInBounds(env.ctx, instr) && |args| == Pops(env.ctx, instr)
    requires DefendsStruct(env, instr, args) && IsReady(env, instr, args, mem)
    ensures ExecutesStruct(env, instr, args, mem, out, mem')
  {
    out, mem' := [], mem;
    match instr {
      case Pack(d, typeArgs) => out := [Instance(d, InstantiateAll(typeArgs, env.actuals), args)];
      case Unpack(d, typeArgs) =>
        InstantiateMaterialized(d, typeArgs, env.actuals);
        out := args[0].fields;
      case Exists(d, typeArgs) =>
        out := [Scalar(Bool, if StorageRoot(args[0].bits, InstanceType(env, d, typeArgs)) in mem then 1 else 0)];
      case MoveFrom(d, typeArgs) =>
        var root := StorageRoot(args[0].bits, InstanceType(env, d, typeArgs));
        out, mem' := [mem[root]], mem - {root};
      case Call(f, typeArgs) =>
        out, mem' :| ExecutesCall(env, f, typeArgs, args, mem, out, mem');
    }
  }

  lemma ReferenceExecutes(env: Running, instr: Bytecode, args: seq<Value>, mem: Memory)
    returns (out: seq<Value>, mem': Memory)
    requires OnReferences(instr) && InstrInBounds(env.ctx, instr) && |args| == Pops(env.ctx, instr)
    requires DefendsReference(env, instr, args, mem) && IsReady(env, instr, args, mem) && MemoryTyped(env, mem)
    ensures ExecutesReference(env, instr, args, mem, out, mem')
  {
    out, mem' := [], mem;
    match instr {
      case BorrowLoc(mutable, l) => out := [RefTo(mutable, LocalRoot(l), [])];
      case FreezeRef => out := [args[0].(mutable := false)];
      case ReadRef => out := [Target(mem, args[0]).value];
      case WriteRef => mem' := WriteTo(mem, args[1], args[0]);
      case BorrowField(mutable, d, field, typeArgs) =>
        InstantiateMaterialized(d, typeArgs, env.actuals);
        TargetTyped(env, mem, args[0], InstanceType(env, d, typeArgs));
        out := [RefTo(mutable, args[0].root, args[0].path + [field])];
      case BorrowGlobal(mutable, d, typeArgs) =>
        out := [RefTo(mutable, StorageRoot(args[0].bits, InstanceType(env, d, typeArgs)), [])];
      case MoveTo(d, typeArgs) =>
        TargetTyped(env, mem, args[0], Signer);
        mem' := mem[StorageRoot(Target(mem, args[0]).value.bits, InstanceType(env, d, typeArgs)) := args[1]];
    }
  }

  /** A defended vector reference names a vector. */
  lemma ItemsAreThere(env: Running, mem: Memory, ref: Value, elem: SignatureToken)
    requires MemoryTyped(env, mem) && RefersTo(env, ref, Vector(elem)) && Target(mem, ref).Some?
    ensures ItemsOf(mem, ref).Some?
  {
    TargetTyped(env, mem, ref, Vector(elem));
  }

  lemma VectorReadExecutes(env: Running, instr: Bytecode, args: seq<Value>, mem: Memory) returns (out: seq<Value>)
    requires (instr.VecLen? || instr.VecUnpack? || instr.VecBorrow?) && InstrInBounds(env.ctx, instr)
    requires |args| == Pops(env.ctx, instr) && MemoryTyped(env, mem)
    requires DefendsVector(env, instr, args) && IsReady(env, instr, args, mem)
    ensures ExecutesVector(env, instr, args, mem, out, mem)
  {
    if instr.VecUnpack? {
      out := args[0].items;
    } else {
      ItemsAreThere(env, mem, args[0], Instantiate(instr.elemType, env.actuals));
      out := if instr.VecLen? then [Scalar(U64, |ItemsOf(mem, args[0]).value|)]
             else [RefTo(instr.mutable, args[0].root, args[0].path + [args[1].bits])];
    }
  }

  lemma VectorChangeExecutes(env: Running, instr: Bytecode, args: seq<Value>, mem: Memory)
    returns (out: seq<Value>, mem': Memory)
    requires (instr.VecPushBack? || instr.VecPopBack? || instr.VecSwap?) && InstrInBounds(env.ctx, instr)
    requires |args| == Pops(env.ctx, instr) && MemoryTyped(env, mem)
    requires DefendsVector(env, instr, args) && IsReady(env, instr, args, mem)
    ensures ExecutesVector(env, instr, args, mem, out, mem')
  {
    ItemsAreThere(env, mem, args[0], Instantiate(instr.elemType, env.actuals));
    var items := ItemsOf(mem, args[0]).value;
    if instr.VecPushBack? {
      out, mem' := [], WithItems(mem, args[0], items + [args[1]]);
    } else if instr.VecPopBack? {
      out, mem' := [items[|items| - 1]], WithItems(mem, args[0], items[..|items| - 1]);
    } else {
      var i, j := args[1].bits, args[2].bits;
      out, mem' := [], WithItems(mem, args[0], items[i := items[j]][j := items[i]]);
    }
  }

  /** What the checking machine lets pass executes. */
  lemma DefendedExecutes(env: Running, instr: Bytecode, args: seq<Value>, mem: Memory)
    returns (out: seq<Value>, mem': Memory)
    requires InstrInBounds(env.ctx, instr) && |args| == Pops(env.ctx, instr) && InstantiationOk(env.ctx, instr)
    requires Defends(env, instr, args, mem) && IsReady(env, instr, args, mem) && MemoryTyped(env, mem)
    requires !instr.Ret? && !instr.Abort? && !instr.VecPack?
    ensures Executes(env, instr, args, mem, out, mem')
  {
    if OnStructs(instr) {
      out, mem' := StructExecutes(env, instr, args, mem);
    } else if OnReferences(instr) {
      out, mem' := ReferenceExecutes(env, instr, args, mem);
    } else if instr.VecLen? || instr.VecUnpack? || instr.VecBorrow? {
      mem' := mem;
      out := VectorReadExecutes(env, instr, args, mem);
    } else if OnVectors(instr) {
      out, mem' := VectorChangeExecutes(env, instr, args, mem);
    } else {
      out, mem' := PlainExecutes(env, instr, args, mem);
    }
  }

  /** Control can go on, since the code ends in an unconditional branch. */
  lemma NextOffset(code: Code, pc: nat) returns (next: nat)
    requires pc < |code| && code[|code| - 1].IsUnconditionalBranch()
    requires !code[pc].Ret? && !code[pc].Abort?
    ensures Flows(code, pc, next)
  {
    next := if code[pc].Offset().Some? then code[pc].Offset().value else pc + 1;
  }

  /** What the checks say of the operands of a typed frame. */
  lemma OperandsAreTyped(env: Running, s: Frame) returns (argTypes: Signature)
    requires Checked(env) && FrameTyped(env, s)
    ensures Pops(env.ctx, env.ctx.code[s.pc]) <= |s.stack| && |argTypes| == Pops(env.ctx, env.ctx.code[s.pc])
    ensures Rule(env.ctx, env.ctx.code[s.pc], argTypes).Some?
    ensures HoldAll(env, Operands(env, s), InstantiateAll(argTypes, env.actuals))
  {
    assert TypedAt(env.ctx, s.pc);
    var tys := StackAt(env.ctx, s.pc).value;
    var base := |tys| - Pops(env.ctx, env.ctx.code[s.pc]);
    argTypes := tys[base..];
    SplitTyped(env, s.stack, tys, base);
  }

  /** Progress: a typed frame at an instruction that passes control on, and is ready, can step. */
  lemma TypedFramesStep(env: Running, s: Frame) returns (s': Frame)
    requires Checked(env) && FrameTyped(env, s)
    requires env.ctx.code[|env.ctx.code| - 1].IsUnconditionalBranch()
    requires !env.ctx.code[s.pc].Ret? && !env.ctx.code[s.pc].Abort? && !env.ctx.code[s.pc].VecPack?
    requires Pops(env.ctx, env.ctx.code[s.pc]) <= |s.stack| ==>
               IsReady(env, env.ctx.code[s.pc], Operands(env, s), s.mem)
    ensures FrameStep(env, s, s')
  {
    var instr := env.ctx.code[s.pc];
    var argTypes := OperandsAreTyped(env, s);
    var args, base := Operands(env, s), |s.stack| - Pops(env.ctx, instr);
    assert InstantiationOk(env.ctx, instr);
    AcceptedIsDefended(env, instr, argTypes, args, s.mem);
    var out, mem' := DefendedExecutes(env, instr, args, s.mem);
    var next := NextOffset(env.ctx.code, s.pc);
    s' := Frame(next, s.stack[..base] + out, mem');
    StepsThere(env, s, out, mem', next);
  }

  lemma StepsThere(env: Running, s: Frame, out: seq<Value>, mem': Memory, next: nat)
    requires InBounds(env.ctx) && Flows(env.ctx.code, s.pc, next) && Pops(env.ctx, env.ctx.code[s.pc]) <= |s.stack|
    requires Executes(env, env.ctx.code[s.pc], Operands(env, s), s.mem, out, mem')
    ensures FrameStep(env, s, Frame(next, s.stack[..|s.stack| - Pops(env.ctx, env.ctx.code[s.pc])] + out, mem'))
  {
    JoinedParts(s.stack[..|s.stack| - Pops(env.ctx, env.ctx.code[s.pc])], out);
  }

  /** When a run returns, the operand stack is exactly a list of values of the result types, under the
      type arguments of the run. */
  lemma RunReturnsResults(env: Running, run: seq<Frame>, n: nat)
    requires Checked(env) && IsFrameRun(env, run) && n < |run|
    requires run[n].pc < |env.ctx.code| && env.ctx.code[run[n].pc].Ret?
    ensures HoldAll(env, run[n].stack, InstantiateAll(env.ctx.results, env.actuals))
  {
    var ctx, pc := env.ctx, run[n].pc;
    RunsStayTyped(env, run, n);
    assert TypedAt(ctx, pc);
    assert EndsBlock(ctx.code, pc) by {
      if pc + 1 < |ctx.code| { assert ctx.code[pc + 1 - 1].IsBranch(); }
    }
    BalancedStacks(ctx, pc);
    var tys := StackAt(ctx, pc).value;
    var base := |tys| - |ctx.results|;
    assert tys[..base] == [] && tys[base..] == ctx.results;
    SplitAt(tys, base);
  }
}
