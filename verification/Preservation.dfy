/** Type preservation: along every run of checked code, the operand stack has the types that the
    checker computed, and locals, storage and lent memory have theirs. */
module Preservation {
  import opened Collections
  import opened FileFormat
  import opened ControlFlowGraph
  import opened StackUsage
  import opened Abilities
  import opened TypeSafety
  import opened Values
  import opened Machine

  // ---------------------------------------------------------------- types under instantiation

  lemma {:induction false} ConstantTypesAreClosed(ty: SignatureToken, actuals: Signature)
    requires ty.IsValidForConstant()
    ensures Instantiate(ty, actuals) == ty && NoReferences(ty)
  {
    if ty.Vector? { ConstantTypesAreClosed(ty.elem, actuals); }
  }

  lemma {:induction false} InstanceHasNoReferences(ty: SignatureToken, actuals: Signature)
    requires NoReferences(ty) && NoneHasReferences(actuals)
    ensures NoReferences(Instantiate(ty, actuals))
    decreases ty
  {
    match ty
    case Vector(elem) => InstanceHasNoReferences(elem, actuals);
    case StructInstantiation(_, typeArgs) =>
      forall i | 0 <= i < |typeArgs| ensures NoReferences(Instantiate(typeArgs[i], actuals)) {
        InstanceHasNoReferences(typeArgs[i], actuals);
      }
    case _ =>
  }

  lemma InstantiateMaterialized(d: nat, typeArgs: Signature, actuals: Signature)
    ensures Instantiate(MaterializeType(d, typeArgs), actuals)
         == MaterializeType(d, InstantiateAll(typeArgs, actuals))
  {
    if |typeArgs| > 0 {
      assert Instantiate(StructInstantiation(d, typeArgs), actuals)
          == StructInstantiation(d, InstantiateAll(typeArgs, actuals));
    }
  }

  lemma FieldTypesCompose(decl: StructDecl, typeArgs: Signature, actuals: Signature)
    requires decl.fieldInformation.Declared?
    requires AllParametersBelow(decl.fieldInformation.fields, |typeArgs|)
    ensures InstantiateAll(InstantiateAll(decl.fieldInformation.fields, typeArgs), actuals)
         == FieldTypes(decl, InstantiateAll(typeArgs, actuals))
  {
    var fields := decl.fieldInformation.fields;
    forall i | 0 <= i < |fields|
      ensures Instantiate(Instantiate(fields[i], typeArgs), actuals)
           == Instantiate(fields[i], InstantiateAll(typeArgs, actuals))
    {
      InstantiateComposes(fields[i], typeArgs, actuals);
    }
  }

  /** The type of an instance that an instruction names has no references, nor do its fields' types. */
  lemma InstanceTypesArePlain(env: Running, d: nat, typeArgs: Signature)
    requires IsRunning(env) && d < |env.ctx.structs| && StructInstanceOk(env.ctx, d, typeArgs)
    ensures NoReferences(InstanceType(env, d, typeArgs))
    ensures env.ctx.structs[d].fieldInformation.Declared? ==>
              NoneHasReferences(InstantiateAll(InstantiateAll(env.ctx.structs[d].fieldInformation.fields, typeArgs), env.actuals))
  {
    InstanceHasNoReferences(MaterializeType(d, typeArgs), env.actuals);
    if env.ctx.structs[d].fieldInformation.Declared? {
      var fields := env.ctx.structs[d].fieldInformation.fields;
      forall i | 0 <= i < |fields| ensures NoReferences(Instantiate(Instantiate(fields[i], typeArgs), env.actuals)) {
        InstanceHasNoReferences(fields[i], typeArgs);
        InstanceHasNoReferences(Instantiate(fields[i], typeArgs), env.actuals);
      }
    }
  }

  // ---------------------------------------------------------------- values and places

  lemma PlainHolds(env: Running, v: Value, ty: SignatureToken)
    requires NoReferences(ty)
    ensures Holds(env, v, ty) <==> HasType(env.ctx.structs, v, ty)
  {}

  lemma PlainHoldAll(env: Running, vs: seq<Value>, tys: Signature)
    requires NoneHasReferences(tys)
    ensures HoldAll(env, vs, tys) <==> HaveTypes(env.ctx.structs, vs, tys)
  {
    assert forall i :: 0 <= i < |vs| && i < |tys| ==>
      (Holds(env, vs[i], tys[i]) <==> HasType(env.ctx.structs, vs[i], tys[i]));
  }

  lemma OperandHolds(env: Running, argTypes: Signature, args: seq<Value>, i: nat)
    requires HoldAll(env, args, InstantiateAll(argTypes, env.actuals)) && i < |argTypes|
    ensures i < |args| && Holds(env, args[i], Instantiate(argTypes[i], env.actuals))
  {
    assert Holds(env, args[i], InstantiateAll(argTypes, env.actuals)[i]);
  }

  lemma OneHolds(env: Running, v: Value, ty: SignatureToken)
    requires Holds(env, v, Instantiate(ty, env.actuals))
    ensures HoldAll(env, [v], InstantiateAll([ty], env.actuals))
  {}

  /** A root that a reference names holds a value without references. */
  lemma RootIsPlain(env: Running, mem: Memory, ref: Value, inner: SignatureToken)
    requires MemoryTyped(env, mem) && RefersTo(env, ref, inner) && ref.root in mem
    ensures HasType(env.ctx.structs, mem[ref.root], RootType(env, ref.root).value)
  {
    assert RootTyped(env, mem, ref.root);
  }

  /** What a typed reference names has the type that it promises. */
  lemma TargetTyped(env: Running, mem: Memory, ref: Value, inner: SignatureToken)
    requires MemoryTyped(env, mem) && RefersTo(env, ref, inner) && Target(mem, ref).Some?
    ensures HasType(env.ctx.structs, Target(mem, ref).value, inner)
  {
    RootIsPlain(env, mem, ref, inner);
    ResolveTyped(env.ctx.structs, mem[ref.root], RootType(env, ref.root).value, ref.path);
  }

  /** Writing a value of that type keeps memory typed. */
  lemma WriteTyped(env: Running, mem: Memory, ref: Value, inner: SignatureToken, w: Value)
    requires MemoryTyped(env, mem) && RefersTo(env, ref, inner) && Target(mem, ref).Some?
    requires HasType(env.ctx.structs, w, inner)
    ensures MemoryTyped(env, WriteTo(mem, ref, w))
  {
    var mem', rootType := WriteTo(mem, ref, w), RootType(env, ref.root).value;
    RootIsPlain(env, mem, ref, inner);
    UpdateTyped(env.ctx.structs, mem[ref.root], rootType, ref.path, w);
    assert RootTyped(env, mem, ref.root);
    forall r | r in mem' ensures RootTyped(env, mem', r) {
      if r != ref.root { assert RootTyped(env, mem, r); }
    }
  }

  lemma StoredTyped(env: Running, mem: Memory, r: Root, v: Value)
    requires MemoryTyped(env, mem) && RootTyped(env, map[r := v], r)
    ensures MemoryTyped(env, mem[r := v])
  {
    var mem' := mem[r := v];
    forall q | q in mem' ensures RootTyped(env, mem', q) {
      if q != r { assert RootTyped(env, mem, q); }
    }
  }

  lemma RemovedTyped(env: Running, mem: Memory, r: Root)
    requires MemoryTyped(env, mem)
    ensures MemoryTyped(env, mem - {r})
  {
    var mem' := mem - {r};
    forall q | q in mem' ensures RootTyped(env, mem', q) {
      assert RootTyped(env, mem, q);
    }
  }

  /** A reference to an element or a field refers to the type of the element or field. */
  lemma StepInside(env: Running, ref: Value, outer: SignatureToken, i: nat, inner: SignatureToken)
    requires RefersTo(env, ref, outer) && NoReferences(inner)
    requires PathType(env.ctx.structs, outer, [i]) == Some(inner)
    ensures forall mutable :: RefersTo(env, RefTo(mutable, ref.root, ref.path + [i]), inner)
  {
    PathTypeSnoc(env.ctx.structs, RootType(env, ref.root).value, ref.path, i);
  }

  // ---------------------------------------------------------------- one instruction

  /** The instruction, well-typed and well-instantiated, executes on operands and memory of the right
      types. */
  ghost predicate Fires(env: Running, instr: Bytecode, argTypes: Signature, args: seq<Value>, mem: Memory,
                        out: seq<Value>, mem': Memory)
  {
    && InstrInBounds(env.ctx, instr) && InstantiationOk(env.ctx, instr) && IsRunning(env)
    && |args| == |argTypes| == Pops(env.ctx, instr)
    && Rule(env.ctx, instr, argTypes).Some?
    && HoldAll(env, args, InstantiateAll(argTypes, env.actuals))
    && MemoryTyped(env, mem)
    && Executes(env, instr, args, mem, out, mem')
  }

  /** What the instruction leaves has the types that its rule promises. */
  ghost predicate LeavesTyped(env: Running, instr: Bytecode, argTypes: Signature, out: seq<Value>, mem': Memory)
    requires InstrInBounds(env.ctx, instr) && |argTypes| == Pops(env.ctx, instr)
    requires Rule(env.ctx, instr, argTypes).Some?
  {
    && HoldAll(env, out, InstantiateAll(Rule(env.ctx, instr, argTypes).value, env.actuals))
    && MemoryTyped(env, mem')
  }

  predicate OnLocals(instr: Bytecode) {
    instr.StLoc? || instr.CopyLoc? || instr.MoveLoc?
  }

  lemma LocalsInstrTyped(env: Running, instr: Bytecode, argTypes: Signature, args: seq<Value>, mem: Memory,
                         out: seq<Value>, mem': Memory)
    requires OnLocals(instr) && Fires(env, instr, argTypes, args, mem, out, mem')
    ensures LeavesTyped(env, instr, argTypes, out, mem')
  {
    var r := LocalRoot(instr.local);
    if instr.StLoc? {
      OperandHolds(env, argTypes, args, 0);
      StoredTyped(env, mem, r, args[0]);
    } else {
      assert RootTyped(env, mem, r);
      OneHolds(env, mem[r], LocalAt(env.ctx, instr.local));
      if instr.MoveLoc? { RemovedTyped(env, mem, r); }
    }
  }

  lemma OperatorTyped(env: Running, instr: Bytecode, argTypes: Signature, args: seq<Value>, mem: Memory,
                      out: seq<Value>, mem': Memory)
    requires IsPlain(instr) && !OnLocals(instr) && Fires(env, instr, argTypes, args, mem, out, mem')
    ensures LeavesTyped(env, instr, argTypes, out, mem')
  {
    assert Rule(env.ctx, instr, argTypes) == PlainRule(env.ctx, instr, argTypes);
    if instr.LdConst? {
      ConstantTypesAreClosed(env.ctx.constants[instr.constant], env.actuals);
      assert HasType(env.ctx.structs, out[0], [env.ctx.constants[instr.constant]][0]);
      OneHolds(env, out[0], env.ctx.constants[instr.constant]);
    }
    if instr.Arithmetic? { OperandHolds(env, argTypes, args, 1); }
    if instr.Shift? { OperandHolds(env, argTypes, args, 0); }
  }

  /** Packing the operands of a struct's fields gives a value of the struct type. */
  lemma PackTyped(env: Running, d: nat, typeArgs: Signature, args: seq<Value>)
    requires IsRunning(env) && d < |env.ctx.structs| && StructInstanceOk(env.ctx, d, typeArgs)
    requires env.ctx.structs[d].fieldInformation.Declared?
    requires HoldAll(env, args, InstantiateAll(InstantiateAll(env.ctx.structs[d].fieldInformation.fields, typeArgs), env.actuals))
    ensures HasType(env.ctx.structs, Instance(d, InstantiateAll(typeArgs, env.actuals), args), InstanceType(env, d, typeArgs))
  {
    InstanceTypesArePlain(env, d, typeArgs);
    PlainHoldAll(env, args, InstantiateAll(InstantiateAll(env.ctx.structs[d].fieldInformation.fields, typeArgs), env.actuals));
    InstantiateMaterialized(d, typeArgs, env.actuals);
    FieldTypesCompose(env.ctx.structs[d], typeArgs, env.actuals);
    GenericInstanceSubstitutes(env.ctx.structs, typeArgs, StructConstraints(env.ctx.structs[d]), env.ctx.typeParameters,
                               env.actuals, []);
  }

  /** Unpacking a value of the struct type gives values of the field types. */
  lemma UnpackTyped(env: Running, d: nat, typeArgs: Signature, v: Value)
    requires IsRunning(env) && d < |env.ctx.structs| && StructInstanceOk(env.ctx, d, typeArgs)
    requires env.ctx.structs[d].fieldInformation.Declared?
    requires HasType(env.ctx.structs, v, InstanceType(env, d, typeArgs)) && v.Instance?
    ensures HoldAll(env, v.fields, InstantiateAll(InstantiateAll(env.ctx.structs[d].fieldInformation.fields, typeArgs), env.actuals))
  {
    InstanceTypesArePlain(env, d, typeArgs);
    InstantiateMaterialized(d, typeArgs, env.actuals);
    FieldTypesCompose(env.ctx.structs[d], typeArgs, env.actuals);
    PlainHoldAll(env, v.fields, InstantiateAll(InstantiateAll(env.ctx.structs[d].fieldInformation.fields, typeArgs), env.actuals));
  }

  lemma StructInstrTyped(env: Running, instr: Bytecode, argTypes: Signature, args: seq<Value>, mem: Memory,
      out: seq<Value>, mem': Memory)
    requires instr.Call? || instr.Pack? || instr.Unpack?
    requires Fires(env, instr, argTypes, args, mem, out, mem')
    ensures LeavesTyped(env, instr, argTypes, out, mem')
  {
    assert Rule(env.ctx, instr, argTypes) == StructRule(env.ctx, instr, argTypes);
    if !instr.Call? {
      InstanceTypesArePlain(env, instr.def, instr.typeArgs);
      if instr.Pack? {
        PackTyped(env, instr.def, instr.typeArgs, args);
        OneHolds(env, out[0], MaterializeType(instr.def, instr.typeArgs));
      } else {
        OperandHolds(env, argTypes, args, 0);
        UnpackTyped(env, instr.def, instr.typeArgs, args[0]);
      }
    }
  }

  lemma StorageInstrTyped(env: Running, instr: Bytecode, argTypes: Signature, args: seq<Value>, mem: Memory,
      out: seq<Value>, mem': Memory)
    requires instr.Exists? || instr.MoveFrom?
    requires Fires(env, instr, argTypes, args, mem, out, mem')
    ensures LeavesTyped(env, instr, argTypes, out, mem')
  {
    assert Rule(env.ctx, instr, argTypes) == StructRule(env.ctx, instr, argTypes);
    if instr.Exists? {
      OneHolds(env, out[0], Bool);
    } else {
      InstanceTypesArePlain(env, instr.def, instr.typeArgs);
      var r := StorageRoot(args[0].bits, InstanceType(env, instr.def, instr.typeArgs));
      assert RootTyped(env, mem, r);
      OneHolds(env, out[0], MaterializeType(instr.def, instr.typeArgs));
      RemovedTyped(env, mem, r);
    }
  }

  lemma BorrowLocTyped(env: Running, mutable: bool, l: nat)
    requires IsRunning(env) && l < |env.ctx.parameters| + |env.ctx.locals| && !LocalAt(env.ctx, l).IsReference()
    ensures HoldAll(env, [RefTo(mutable, LocalRoot(l), [])],
                    InstantiateAll([Borrowed(mutable, LocalAt(env.ctx, l))], env.actuals))
  {
    assert IsLocalType(LocalAt(env.ctx, l));
    InstanceHasNoReferences(LocalAt(env.ctx, l), env.actuals);
    OneHolds(env, RefTo(mutable, LocalRoot(l), []), Borrowed(mutable, LocalAt(env.ctx, l)));
  }

  lemma BorrowGlobalTyped(env: Running, mutable: bool, d: nat, typeArgs: Signature, address: nat)
    requires IsRunning(env) && d < |env.ctx.structs| && StructInstanceOk(env.ctx, d, typeArgs)
    ensures HoldAll(env, [RefTo(mutable, StorageRoot(address, InstanceType(env, d, typeArgs)), [])],
                    InstantiateAll([Borrowed(mutable, MaterializeType(d, typeArgs))], env.actuals))
  {
    InstanceTypesArePlain(env, d, typeArgs);
    OneHolds(env, RefTo(mutable, StorageRoot(address, InstanceType(env, d, typeArgs)), []),
             Borrowed(mutable, MaterializeType(d, typeArgs)));
  }

  lemma BorrowFieldTyped(env: Running, mutable: bool, d: nat, field: nat, typeArgs: Signature, operand: SignatureToken,
                         ref: Value)
    requires IsRunning(env) && d < |env.ctx.structs| && StructInstanceOk(env.ctx, d, typeArgs)
    requires env.ctx.structs[d].fieldInformation.Declared? && field < |env.ctx.structs[d].fieldInformation.fields|
    requires BorrowsFrom(operand, mutable, MaterializeType(d, typeArgs)) && Holds(env, ref, Instantiate(operand, env.actuals))
    ensures HoldAll(env, [RefTo(mutable, ref.root, ref.path + [field])],
                    InstantiateAll([Borrowed(mutable, Instantiate(env.ctx.structs[d].fieldInformation.fields[field], typeArgs))],
                                   env.actuals))
  {
    FieldBorrowTyped(env, d, field, typeArgs, ref);
    OneHolds(env, RefTo(mutable, ref.root, ref.path + [field]),
             Borrowed(mutable, Instantiate(env.ctx.structs[d].fieldInformation.fields[field], typeArgs)));
  }

  lemma BorrowTyped(env: Running, instr: Bytecode, argTypes: Signature, args: seq<Value>, mem: Memory,
                    out: seq<Value>, mem': Memory)
    requires instr.BorrowLoc? || instr.BorrowGlobal? || instr.BorrowField?
    requires Fires(env, instr, argTypes, args, mem, out, mem')
    ensures LeavesTyped(env, instr, argTypes, out, mem')
  {
    assert Rule(env.ctx, instr, argTypes) == ReferenceRule(env.ctx, instr, argTypes);
    if instr.BorrowLoc? {
      BorrowLocTyped(env, instr.mutable, instr.local);
    } else if instr.BorrowGlobal? {
      BorrowGlobalTyped(env, instr.mutable, instr.def, instr.typeArgs, args[0].bits);
    } else {
      OperandHolds(env, argTypes, args, 0);
      BorrowFieldTyped(env, instr.mutable, instr.def, instr.field, instr.typeArgs, argTypes[0], args[0]);
    }
  }

  lemma FieldBorrowTyped(env: Running, d: nat, field: nat, typeArgs: Signature, ref: Value)
    requires IsRunning(env) && d < |env.ctx.structs| && StructInstanceOk(env.ctx, d, typeArgs)
    requires env.ctx.structs[d].fieldInformation.Declared? && field < |env.ctx.structs[d].fieldInformation.fields|
    requires RefersTo(env, ref, InstanceType(env, d, typeArgs))
    ensures forall mutable ::
              RefersTo(env, RefTo(mutable, ref.root, ref.path + [field]),
                       Instantiate(Instantiate(env.ctx.structs[d].fieldInformation.fields[field], typeArgs), env.actuals))
  {
    var structs, closed := env.ctx.structs, InstantiateAll(typeArgs, env.actuals);
    InstanceTypesArePlain(env, d, typeArgs);
    InstantiateMaterialized(d, typeArgs, env.actuals);
    FieldTypesCompose(structs[d], typeArgs, env.actuals);
    var inner := FieldTypes(structs[d], closed)[field];
    assert inner == InstantiateAll(InstantiateAll(structs[d].fieldInformation.fields, typeArgs), env.actuals)[field];
    PathTypeAtInstance(structs, d, closed, [field]);
    assert [field][1..] == [];
    StepInside(env, ref, InstanceType(env, d, typeArgs), field, inner);
  }

  lemma FreezeOrReadTyped(env: Running, instr: Bytecode, argTypes: Signature, args: seq<Value>, mem: Memory,
      out: seq<Value>, mem': Memory)
    requires instr.FreezeRef? || instr.ReadRef?
    requires Fires(env, instr, argTypes, args, mem, out, mem')
    ensures LeavesTyped(env, instr, argTypes, out, mem')
  {
    assert Rule(env.ctx, instr, argTypes) == ReferenceRule(env.ctx, instr, argTypes);
    OperandHolds(env, argTypes, args, 0);
    if instr.FreezeRef? {
      OneHolds(env, out[0], Reference(argTypes[0].inner));
    } else {
      var inner := Instantiate(argTypes[0].inner, env.actuals);
      TargetTyped(env, mem, args[0], inner);
      PlainHolds(env, out[0], inner);
      OneHolds(env, out[0], argTypes[0].inner);
    }
  }

  lemma WriteRefTyped(env: Running, instr: Bytecode, argTypes: Signature, args: seq<Value>, mem: Memory,
      out: seq<Value>, mem': Memory)
    requires instr.WriteRef? && Fires(env, instr, argTypes, args, mem, out, mem')
    ensures LeavesTyped(env, instr, argTypes, out, mem')
  {
    assert Rule(env.ctx, instr, argTypes) == ReferenceRule(env.ctx, instr, argTypes);
    OperandHolds(env, argTypes, args, 0);
    OperandHolds(env, argTypes, args, 1);
    var inner := Instantiate(argTypes[1].inner, env.actuals);
    PlainHolds(env, args[0], inner);
    WriteTyped(env, mem, args[1], inner, args[0]);
  }

  lemma MoveToTyped(env: Running, instr: Bytecode, argTypes: Signature, args: seq<Value>, mem: Memory,
      out: seq<Value>, mem': Memory)
    requires instr.MoveTo? && Fires(env, instr, argTypes, args, mem, out, mem')
    ensures LeavesTyped(env, instr, argTypes, out, mem')
  {
    assert Rule(env.ctx, instr, argTypes) == ReferenceRule(env.ctx, instr, argTypes);
    OperandHolds(env, argTypes, args, 1);
    InstanceTypesArePlain(env, instr.def, instr.typeArgs);
    InstantiationKeepsAbilities(env.ctx.structs, MaterializeType(instr.def, instr.typeArgs), env.ctx.typeParameters,
                                env.actuals, []);
    StoredTyped(env, mem, StorageRoot(Target(mem, args[0]).value.bits, InstanceType(env, instr.def, instr.typeArgs)),
                args[1]);
  }

  lemma ItemsTyped(env: Running, mem: Memory, ref: Value, elem: SignatureToken)
    requires MemoryTyped(env, mem) && RefersTo(env, ref, Vector(elem)) && ItemsOf(mem, ref).Some?
    ensures forall i :: 0 <= i < |ItemsOf(mem, ref).value| ==> HasType(env.ctx.structs, ItemsOf(mem, ref).value[i], elem)
    ensures Target(mem, ref) == Some(VectorOf(elem, ItemsOf(mem, ref).value))
  {
    TargetTyped(env, mem, ref, Vector(elem));
  }

  lemma WithItemsTyped(env: Running, mem: Memory, ref: Value, elem: SignatureToken, items: seq<Value>)
    requires MemoryTyped(env, mem) && RefersTo(env, ref, Vector(elem)) && ItemsOf(mem, ref).Some?
    requires forall i :: 0 <= i < |items| ==> HasType(env.ctx.structs, items[i], elem)
    ensures MemoryTyped(env, WithItems(mem, ref, items))
  {
    ItemsTyped(env, mem, ref, elem);
    WriteTyped(env, mem, ref, Vector(elem), VectorOf(elem, items));
  }

  lemma VectorReferenceHolds(env: Running, argTypes: Signature, args: seq<Value>, mutRefOnly: bool, elem: SignatureToken)
    requires HoldAll(env, args, InstantiateAll(argTypes, env.actuals)) && 0 < |argTypes|
    requires VectorElementType(argTypes[0], mutRefOnly) == Some(elem)
    ensures |args| > 0 && RefersTo(env, args[0], Vector(Instantiate(elem, env.actuals)))
    ensures mutRefOnly ==> args[0].mutable
  {
    OperandHolds(env, argTypes, args, 0);
    assert Instantiate(argTypes[0].inner, env.actuals) == Vector(Instantiate(elem, env.actuals));
  }

  lemma VecUnpackTyped(env: Running, elem: SignatureToken, n: nat, v: Value)
    requires IsRunning(env) && NoReferences(elem)
    requires Holds(env, v, Instantiate(Vector(elem), env.actuals)) && v.VectorOf? && |v.items| == n
    ensures HoldAll(env, v.items, InstantiateAll(seq(n, _ => elem), env.actuals))
  {
    InstanceHasNoReferences(elem, env.actuals);
    forall i | 0 <= i < n ensures Holds(env, v.items[i], Instantiate(elem, env.actuals)) {
      PlainHolds(env, v.items[i], Instantiate(elem, env.actuals));
    }
  }

  lemma ElementBorrowTyped(env: Running, mutable: bool, elem: SignatureToken, ref: Value, i: nat)
    requires IsRunning(env) && NoReferences(elem) && RefersTo(env, ref, Vector(Instantiate(elem, env.actuals)))
    ensures HoldAll(env, [RefTo(mutable, ref.root, ref.path + [i])], InstantiateAll([Borrowed(mutable, elem)], env.actuals))
  {
    var closed := Instantiate(elem, env.actuals);
    InstanceHasNoReferences(elem, env.actuals);
    assert [i][1..] == [];
    StepInside(env, ref, Vector(closed), i, closed);
    OneHolds(env, RefTo(mutable, ref.root, ref.path + [i]), Borrowed(mutable, elem));
  }

  lemma VectorReadTyped(env: Running, instr: Bytecode, argTypes: Signature, args: seq<Value>, mem: Memory,
                        out: seq<Value>, mem': Memory)
    requires instr.VecUnpack? || instr.VecLen? || instr.VecBorrow?
    requires Fires(env, instr, argTypes, args, mem, out, mem')
    ensures LeavesTyped(env, instr, argTypes, out, mem')
  {
    assert Rule(env.ctx, instr, argTypes) == VectorRule(env.ctx, instr, argTypes);
    if instr.VecUnpack? {
      OperandHolds(env, argTypes, args, 0);
      VecUnpackTyped(env, instr.elemType, instr.num, args[0]);
    } else if instr.VecBorrow? {
      VectorReferenceHolds(env, argTypes, args, instr.mutable, instr.elemType);
      ElementBorrowTyped(env, instr.mutable, instr.elemType, args[0], args[1].bits);
    } else {
      OneHolds(env, out[0], U64);
    }
  }

  lemma PushBackTyped(env: Running, elem: SignatureToken, mem: Memory, ref: Value, v: Value)
    requires MemoryTyped(env, mem) && RefersTo(env, ref, Vector(elem)) && ItemsOf(mem, ref).Some?
    requires HasType(env.ctx.structs, v, elem)
    ensures MemoryTyped(env, WithItems(mem, ref, ItemsOf(mem, ref).value + [v]))
  {
    ItemsTyped(env, mem, ref, elem);
    WithItemsTyped(env, mem, ref, elem, ItemsOf(mem, ref).value + [v]);
  }

  lemma PopBackTyped(env: Running, elem: SignatureToken, mem: Memory, ref: Value)
    requires MemoryTyped(env, mem) && RefersTo(env, ref, Vector(elem)) && ItemsOf(mem, ref).Some?
    requires ItemsOf(mem, ref).value != []
    ensures var items := ItemsOf(mem, ref).value;
            && MemoryTyped(env, WithItems(mem, ref, items[..|items| - 1]))
            && HasType(env.ctx.structs, items[|items| - 1], elem)
  {
    ItemsTyped(env, mem, ref, elem);
    var items := ItemsOf(mem, ref).value;
    WithItemsTyped(env, mem, ref, elem, items[..|items| - 1]);
  }

  lemma SwapTyped(env: Running, elem: SignatureToken, mem: Memory, ref: Value, i: nat, j: nat)
    requires MemoryTyped(env, mem) && RefersTo(env, ref, Vector(elem)) && ItemsOf(mem, ref).Some?
    requires i < |ItemsOf(mem, ref).value| && j < |ItemsOf(mem, ref).value|
    ensures var items := ItemsOf(mem, ref).value;
            MemoryTyped(env, WithItems(mem, ref, items[i := items[j]][j := items[i]]))
  {
    ItemsTyped(env, mem, ref, elem);
    var items := ItemsOf(mem, ref).value;
    WithItemsTyped(env, mem, ref, elem, items[i := items[j]][j := items[i]]);
  }

  lemma VecPushBackTyped(env: Running, instr: Bytecode, argTypes: Signature, args: seq<Value>, mem: Memory,
      out: seq<Value>, mem': Memory)
    requires instr.VecPushBack? && Fires(env, instr, argTypes, args, mem, out, mem')
    ensures LeavesTyped(env, instr, argTypes, out, mem')
  {
    var elem := Instantiate(instr.elemType, env.actuals);
    assert Rule(env.ctx, instr, argTypes) == VectorRule(env.ctx, instr, argTypes);
    InstanceHasNoReferences(instr.elemType, env.actuals);
    VectorReferenceHolds(env, argTypes, args, true, instr.elemType);
    OperandHolds(env, argTypes, args, 1);
    PlainHolds(env, args[1], elem);
    PushBackTyped(env, elem, mem, args[0], args[1]);
  }

  lemma VecPopBackTyped(env: Running, instr: Bytecode, argTypes: Signature, args: seq<Value>, mem: Memory,
      out: seq<Value>, mem': Memory)
    requires instr.VecPopBack? && Fires(env, instr, argTypes, args, mem, out, mem')
    ensures LeavesTyped(env, instr, argTypes, out, mem')
  {
    var elem := Instantiate(instr.elemType, env.actuals);
    assert Rule(env.ctx, instr, argTypes) == VectorRule(env.ctx, instr, argTypes);
    InstanceHasNoReferences(instr.elemType, env.actuals);
    VectorReferenceHolds(env, argTypes, args, true, instr.elemType);
    PopBackTyped(env, elem, mem, args[0]);
    PlainHolds(env, out[0], elem);
    OneHolds(env, out[0], instr.elemType);
  }

  lemma VecSwapTyped(env: Running, instr: Bytecode, argTypes: Signature, args: seq<Value>, mem: Memory,
      out: seq<Value>, mem': Memory)
    requires instr.VecSwap? && Fires(env, instr, argTypes, args, mem, out, mem')
    ensures LeavesTyped(env, instr, argTypes, out, mem')
  {
    assert Rule(env.ctx, instr, argTypes) == VectorRule(env.ctx, instr, argTypes);
    VectorReferenceHolds(env, argTypes, args, true, instr.elemType);
    SwapTyped(env, Instantiate(instr.elemType, env.actuals), mem, args[0], args[1].bits, args[2].bits);
  }

  /** One instruction keeps operands and memory typed. */
  lemma ExecutesTyped(env: Running, instr: Bytecode, argTypes: Signature, args: seq<Value>, mem: Memory,
                      out: seq<Value>, mem': Memory)
    requires Fires(env, instr, argTypes, args, mem, out, mem')
    ensures LeavesTyped(env, instr, argTypes, out, mem')
  {
    if instr.Call? || instr.Pack? || instr.Unpack? {
      StructInstrTyped(env, instr, argTypes, args, mem, out, mem');
    } else if instr.Exists? || instr.MoveFrom? {
      StorageInstrTyped(env, instr, argTypes, args, mem, out, mem');
    } else if instr.BorrowLoc? || instr.BorrowGlobal? || instr.BorrowField? {
      BorrowTyped(env, instr, argTypes, args, mem, out, mem');
    } else if instr.FreezeRef? || instr.ReadRef? {
      FreezeOrReadTyped(env, instr, argTypes, args, mem, out, mem');
    } else if instr.WriteRef? {
      WriteRefTyped(env, instr, argTypes, args, mem, out, mem');
    } else if instr.MoveTo? {
      MoveToTyped(env, instr, argTypes, args, mem, out, mem');
    } else if instr.VecUnpack? || instr.VecLen? || instr.VecBorrow? {
      VectorReadTyped(env, instr, argTypes, args, mem, out, mem');
    } else if instr.VecPushBack? {
      VecPushBackTyped(env, instr, argTypes, args, mem, out, mem');
    } else if instr.VecPopBack? {
      VecPopBackTyped(env, instr, argTypes, args, mem, out, mem');
    } else if instr.VecSwap? {
      VecSwapTyped(env, instr, argTypes, args, mem, out, mem');
    } else if OnLocals(instr) {
      LocalsInstrTyped(env, instr, argTypes, args, mem, out, mem');
    } else {
      OperatorTyped(env, instr, argTypes, args, mem, out, mem');
    }
  }

  // ---------------------------------------------------------------- steps and runs

  /** Static types at the two ends of a step. */
  lemma StepStacks(ctx: FunctionContext, pc: nat, next: nat)
    requires InBounds(ctx) && Balanced(ctx.code, Effects(ctx)) && WellTyped(ctx)
    requires Flows(ctx.code, pc, next) && StackAt(ctx, pc).Some?
    ensures next < |ctx.code|
    ensures |StackAt(ctx, pc).value| >= Pops(ctx, ctx.code[pc])
    ensures StackAt(ctx, next).Some? && StackAt(ctx, next) == StackAfter(ctx, pc)
    ensures StackAfter(ctx, pc) == Apply(ctx, ctx.code[pc], StackAt(ctx, pc).value)
  {
    assert TypedAt(ctx, pc);
    BalancedStacks(ctx, pc);
    if EndsBlock(ctx.code, pc) {
      assert IsLeader(ctx.code, next);
    } else {
      StraightLine(ctx.code, pc, next);
    }
  }

  /** The operands that a step leaves alone lie below this. */
  ghost function Untouched(env: Running, s: Frame): nat
    requires InBounds(env.ctx) && s.pc < |env.ctx.code| && Pops(env.ctx, env.ctx.code[s.pc]) <= |s.stack|
  {
    |s.stack| - Pops(env.ctx, env.ctx.code[s.pc])
  }

  /** The static types at the next offset are those below, and those the instruction puts. */
  lemma NextTypes(ctx: FunctionContext, pc: nat, next: nat)
    requires InBounds(ctx) && Balanced(ctx.code, Effects(ctx)) && WellTyped(ctx)
    requires Flows(ctx.code, pc, next) && StackAt(ctx, pc).Some?
    ensures next < |ctx.code| && |StackAt(ctx, pc).value| >= Pops(ctx, ctx.code[pc])
    ensures var tys := StackAt(ctx, pc).value;
            var base := |tys| - Pops(ctx, ctx.code[pc]);
            && Rule(ctx, ctx.code[pc], tys[base..]).Some?
            && StackAt(ctx, next) == Some(tys[..base] + Rule(ctx, ctx.code[pc], tys[base..]).value)
  {
    StepStacks(ctx, pc, next);
  }

  lemma SplitTyped(env: Running, vs: seq<Value>, tys: Signature, n: nat)
    requires HoldAll(env, vs, InstantiateAll(tys, env.actuals)) && n <= |vs|
    ensures HoldAll(env, vs[..n], InstantiateAll(tys[..n], env.actuals))
    ensures HoldAll(env, vs[n..], InstantiateAll(tys[n..], env.actuals))
  {
    forall i | 0 <= i < |vs| - n ensures Holds(env, vs[n..][i], InstantiateAll(tys[n..], env.actuals)[i]) {
      assert Holds(env, vs[n + i], InstantiateAll(tys, env.actuals)[n + i]);
    }
  }

  lemma JoinTyped(env: Running, a: seq<Value>, b: seq<Value>, s: Signature, t: Signature)
    requires HoldAll(env, a, InstantiateAll(s, env.actuals))
    requires HoldAll(env, b, InstantiateAll(t, env.actuals))
    ensures HoldAll(env, a + b, InstantiateAll(s + t, env.actuals))
  {
    forall i | 0 <= i < |a + b| ensures Holds(env, (a + b)[i], InstantiateAll(s + t, env.actuals)[i]) {
      if i >= |a| { assert Holds(env, b[i - |a|], InstantiateAll(t, env.actuals)[i - |a|]); }
    }
  }

  lemma AssembleFires(env: Running, instr: Bytecode, stack: seq<Value>, tys: Signature, base: nat, mem: Memory,
                      out: seq<Value>, mem': Memory)
    requires InstrInBounds(env.ctx, instr) && InstantiationOk(env.ctx, instr) && IsRunning(env)
    requires HoldAll(env, stack, InstantiateAll(tys, env.actuals))
    requires base <= |stack| == |tys| && |stack| - base == Pops(env.ctx, instr)
    requires Rule(env.ctx, instr, tys[base..]).Some? && MemoryTyped(env, mem)
    requires Executes(env, instr, stack[base..], mem, out, mem')
    ensures Fires(env, instr, tys[base..], stack[base..], mem, out, mem')
    ensures HoldAll(env, stack[..base], InstantiateAll(tys[..base], env.actuals))
  {
    SplitTyped(env, stack, tys, base);
  }

  lemma StepFires(env: Running, s: Frame, s': Frame)
    requires Checked(env) && FrameTyped(env, s) && FrameStep(env, s, s')
    ensures var base, tys := Untouched(env, s), StackAt(env.ctx, s.pc).value;
            && |tys| == |s.stack|
            && Fires(env, env.ctx.code[s.pc], tys[base..], s.stack[base..], s.mem, s'.stack[base..], s'.mem)
            && HoldAll(env, s.stack[..base], InstantiateAll(tys[..base], env.actuals))
            && s'.pc < |env.ctx.code|
            && StackAt(env.ctx, s'.pc) == Some(tys[..base] + Rule(env.ctx, env.ctx.code[s.pc], tys[base..]).value)
  {
    var base, tys := Untouched(env, s), StackAt(env.ctx, s.pc).value;
    assert |InstantiateAll(tys, env.actuals)| == |tys| == |s.stack|;
    NextTypes(env.ctx, s.pc, s'.pc);
    assert InstantiationOk(env.ctx, env.ctx.code[s.pc]);
    AssembleFires(env, env.ctx.code[s.pc], s.stack, tys, base, s.mem, s'.stack[base..], s'.mem);
  }

  /** A step of checked code keeps the frame typed. */
  lemma StepKeepsTypes(env: Running, s: Frame, s': Frame)
    requires Checked(env) && FrameTyped(env, s) && FrameStep(env, s, s')
    ensures FrameTyped(env, s')
  {
    var base, tys := Untouched(env, s), StackAt(env.ctx, s.pc).value;
    StepFires(env, s, s');
    var instr := env.ctx.code[s.pc];
    ExecutesTyped(env, instr, tys[base..], s.stack[base..], s.mem, s'.stack[base..], s'.mem);
    JoinTyped(env, s.stack[..base], s'.stack[base..], tys[..base], Rule(env.ctx, instr, tys[base..]).value);
    SplitAt(s'.stack, base);
  }

  ghost predicate StepsAt(env: Running, run: seq<Frame>, i: nat)
    requires InBounds(env.ctx) && i + 1 < |run|
  {
    FrameStep(env, run[i], run[i + 1])
  }

  /** A run of a function frame from its entry, with an empty operand stack and typed memory. */
  ghost predicate IsFrameRun(env: Running, run: seq<Frame>)
    requires InBounds(env.ctx)
  {
    && |run| > 0 && |env.ctx.code| > 0
    && run[0].pc == 0 && run[0].stack == []
    && MemoryTyped(env, run[0].mem)
    && forall i :: 0 <= i < |run| - 1 ==> StepsAt(env, run, i)
  }

  /** Type preservation over whole runs: at every offset the stack has the types the checker
      computed for that offset, and memory is typed. */
  lemma {:induction false} RunsStayTyped(env: Running, run: seq<Frame>, n: nat)
    requires Checked(env) && IsFrameRun(env, run) && n < |run|
    ensures FrameTyped(env, run[n])
  {
    if n > 0 {
      RunsStayTyped(env, run, n - 1);
      assert StepsAt(env, run, n - 1);
      StepKeepsTypes(env, run[n - 1], run[n]);
    }
  }

  // ---------------------------------------------------------------- what the checks are for

  predicate OnStorage(instr: Bytecode) {
    instr.Exists? || instr.MoveFrom? || instr.MoveTo? || instr.BorrowGlobal?
  }

  /** Only types with Key are looked up in storage: every storage instruction that a run reaches names
      one, and so does all that is stored. */
  lemma StorageHoldsKeyTypes(env: Running, run: seq<Frame>, n: nat)
    requires Checked(env) && IsFrameRun(env, run) && n < |run|
    ensures forall a, ty :: StorageRoot(a, ty) in run[n].mem ==> ClosedHas(env, ty, Key)
    ensures run[n].pc < |env.ctx.code|
    ensures OnStorage(env.ctx.code[run[n].pc]) ==>
              ClosedHas(env, InstanceType(env, env.ctx.code[run[n].pc].def, env.ctx.code[run[n].pc].typeArgs), Key)
  {
    RunsStayTyped(env, run, n);
    var s := run[n];
    forall a, ty | StorageRoot(a, ty) in s.mem ensures ClosedHas(env, ty, Key) {
      assert RootTyped(env, s.mem, StorageRoot(a, ty));
    }
    var instr := env.ctx.code[s.pc];
    assert TypedAt(env.ctx, s.pc);
    if OnStorage(instr) {
      InstantiationKeepsAbilities(env.ctx.structs, MaterializeType(instr.def, instr.typeArgs), env.ctx.typeParameters,
                                  env.actuals, []);
    }
  }

  /** The reference, if any, through which an instruction changes what it names. */
  function WrittenThrough(instr: Bytecode, args: seq<Value>): Option<Value> {
    if instr.WriteRef? && |args| == 2 then Some(args[1])
    else if (instr.VecPushBack? || instr.VecPopBack? || instr.VecSwap?) && |args| > 0 then Some(args[0])
    else None
  }

  /** The reference, if any, from which an instruction derives the one it pushes. */
  function DerivedFrom(instr: Bytecode, args: seq<Value>): Option<Value> {
    if (instr.BorrowField? || instr.VecBorrow?) && |args| > 0 then Some(args[0]) else None
  }

  lemma WritesThroughMutable(env: Running, instr: Bytecode, argTypes: Signature, args: seq<Value>)
    requires InstrInBounds(env.ctx, instr) && |args| == |argTypes| == Pops(env.ctx, instr)
    requires Rule(env.ctx, instr, argTypes).Some? && HoldAll(env, args, InstantiateAll(argTypes, env.actuals))
    requires WrittenThrough(instr, args).Some?
    ensures WrittenThrough(instr, args).value.RefTo? && WrittenThrough(instr, args).value.mutable
  {
    if instr.WriteRef? {
      OperandHolds(env, argTypes, args, 1);
    } else {
      VectorReferenceHolds(env, argTypes, args, true, instr.elemType);
    }
  }

  lemma DerivesFromMutable(env: Running, instr: Bytecode, argTypes: Signature, args: seq<Value>)
    requires InstrInBounds(env.ctx, instr) && |args| == |argTypes| == Pops(env.ctx, instr)
    requires Rule(env.ctx, instr, argTypes).Some? && HoldAll(env, args, InstantiateAll(argTypes, env.actuals))
    requires DerivedFrom(instr, args).Some? && instr.mutable
    ensures DerivedFrom(instr, args).value.RefTo? && DerivedFrom(instr, args).value.mutable
  {
    if instr.BorrowField? {
      OperandHolds(env, argTypes, args, 0);
    } else {
      VectorReferenceHolds(env, argTypes, args, true, instr.elemType);
    }
  }

  /** Memory is changed through mutable references only, and mutable references are derived from mutable
      ones. */
  lemma WritesAreMutable(env: Running, run: seq<Frame>, n: nat)
    requires Checked(env) && IsFrameRun(env, run) && n + 1 < |run|
    ensures StepsAt(env, run, n)
    ensures var instr, args := env.ctx.code[run[n].pc], Operands(env, run[n]);
            && (WrittenThrough(instr, args).Some? ==>
                  WrittenThrough(instr, args).value.RefTo? && WrittenThrough(instr, args).value.mutable)
            && (DerivedFrom(instr, args).Some? && instr.mutable ==>
                  DerivedFrom(instr, args).value.RefTo? && DerivedFrom(instr, args).value.mutable)
  {
    RunsStayTyped(env, run, n);
    assert StepsAt(env, run, n);
    StepFires(env, run[n], run[n + 1]);
    var instr, base, tys := env.ctx.code[run[n].pc], Untouched(env, run[n]), StackAt(env.ctx, run[n].pc).value;
    var args := run[n].stack[base..];
    if WrittenThrough(instr, args).Some? { WritesThroughMutable(env, instr, tys[base..], args); }
    if DerivedFrom(instr, args).Some? && instr.mutable { DerivesFromMutable(env, instr, tys[base..], args); }
  }
}
