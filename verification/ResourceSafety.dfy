/** What type checking buys at run time: along every run of a checked function, values of a type
    without Copy are never duplicated and values of a type without Drop never vanish, on the stack, in
    locals, in storage, in lent memory, and inside other values. */
module ResourceSafety {
  import opened Collections
  import opened FileFormat
  import opened ControlFlowGraph
  import opened StackUsage
  import opened Abilities
  import opened TypeSafety
  import opened Values
  import opened Machine
  import opened Preservation

  // ---------------------------------------------------------------- counting one instruction

  /** What an instruction's operands and memory hold together. */
  ghost function Held(resource: SignatureToken, vs: seq<Value>, mem: Memory): nat {
    CountAll(resource, vs) + CountMemory(resource, mem)
  }

  predicate Lacks(env: Running, resource: SignatureToken, a: Ability) {
    !ClosedHas(env, resource, a)
  }

  /** The memory that a callee can get at. */
  function Exposed(args: seq<Value>, mem: Memory): Memory {
    map r | r in mem && !IsPrivate(args, r) :: mem[r]
  }

  function Private(args: seq<Value>, mem: Memory): Memory {
    map r | r in mem && IsPrivate(args, r) :: mem[r]
  }

  /** How many instances of a type an instruction may create: packing makes one; a call brings in what
      it returns and leaves in the memory it could get at. */
  ghost function Gain(env: Running, resource: SignatureToken, instr: Bytecode, args: seq<Value>,
                      out: seq<Value>, mem': Memory): nat
  {
    match instr
    case Pack(d, typeArgs) => if InstanceType(env, d, typeArgs) == resource then 1 else 0
    case Call(_, _) => Held(resource, out, Exposed(args, mem'))
    case _ => 0
  }

  /** How many an instruction may remove: unpacking takes one apart, a call takes its arguments and what
      it finds in the memory it can get at, and a store to a local overwrites what the local held. */
  ghost function Loss(env: Running, resource: SignatureToken, instr: Bytecode, args: seq<Value>, mem: Memory): nat {
    match instr
    case Unpack(d, typeArgs) => if InstanceType(env, d, typeArgs) == resource then 1 else 0
    case Call(_, _) => Held(resource, args, Exposed(args, mem))
    case StLoc(l) => CountAt(resource, mem, LocalRoot(l))
    case _ => 0
  }

  /** An instruction adds no more than its gain to the count of a type without Copy, and removes
      no more than its loss from that of a type without Drop. */
  ghost predicate CountsBounded(env: Running, resource: SignatureToken, instr: Bytecode, args: seq<Value>,
                                mem: Memory, out: seq<Value>, mem': Memory)
  {
    && (Lacks(env, resource, Copy) ==>
          Held(resource, out, mem') <= Held(resource, args, mem) + Gain(env, resource, instr, args, out, mem'))
    && (Lacks(env, resource, Drop) ==>
          Held(resource, args, mem) <= Held(resource, out, mem') + Loss(env, resource, instr, args, mem))
  }

  /** Nothing is duplicated and nothing lost. */
  ghost predicate Keeps(env: Running, resource: SignatureToken, args: seq<Value>, mem: Memory,
                        out: seq<Value>, mem': Memory)
  {
    && (Lacks(env, resource, Copy) ==> Held(resource, out, mem') <= Held(resource, args, mem))
    && (Lacks(env, resource, Drop) ==> Held(resource, args, mem) <= Held(resource, out, mem'))
  }

  predicate Converts(instr: Bytecode) {
    instr.Pack? || instr.Unpack? || instr.Call? || instr.StLoc?
  }

  lemma KeepsBounds(env: Running, resource: SignatureToken, instr: Bytecode, args: seq<Value>, mem: Memory,
                    out: seq<Value>, mem': Memory)
    requires !Converts(instr) && Keeps(env, resource, args, mem, out, mem')
    ensures CountsBounded(env, resource, instr, args, mem, out, mem')
  {}

  lemma CountTwo(resource: SignatureToken, v: Value, w: Value)
    ensures CountAll(resource, [v, w]) == Count(resource, v) + Count(resource, w)
  {
    assert [v, w][1..] == [w];
    CountOne(resource, w);
  }

  /** Types that only scalars inhabit, whatever the type arguments. */
  lemma ScalarTypesHoldNothing(env: Running, resource: SignatureToken, tys: Signature, vs: seq<Value>)
    requires HoldAll(env, vs, InstantiateAll(tys, env.actuals))
    requires forall i :: 0 <= i < |tys| ==> IsScalarType(tys[i])
    ensures CountAll(resource, vs) == 0
  {
    forall i | 0 <= i < |vs| ensures Count(resource, vs[i]) == 0 {
      OperandHolds(env, tys, vs, i);
    }
    NoneInAny(resource, vs);
  }

  lemma {:induction false} ConstantsHoldNothing(structs: seq<StructDecl>, v: Value, ty: SignatureToken,
                                                resource: SignatureToken)
    requires HasType(structs, v, ty) && ty.IsValidForConstant()
    ensures Count(resource, v) == 0
    decreases v
  {
    if v.VectorOf? {
      forall i | 0 <= i < |v.items| ensures Count(resource, v.items[i]) == 0 {
        ConstantsHoldNothing(structs, v.items[i], ty.elem, resource);
      }
      NoneInAny(resource, v.items);
    }
  }

  /** A check made on the generic type holds of every value the running code sees. */
  lemma CheckedAbilityReaches(env: Running, resource: SignatureToken, ty: SignatureToken, v: Value, a: Ability)
    requires IsRunning(env) && (Holds(env, v, Instantiate(ty, env.actuals))
                                || HasType(env.ctx.structs, v, Instantiate(ty, env.actuals)))
    requires a.Requires() == a && Has(env.ctx, ty, a) && Lacks(env, resource, a)
    ensures Count(resource, v) == 0
  {
    InstantiationKeepsAbilities(env.ctx.structs, ty, env.ctx.typeParameters, env.actuals, []);
    if !v.RefTo? {
      AbilityReachesInside(env.ctx.structs, v, Instantiate(ty, env.actuals), resource, a);
    }
  }

  /** Storing, taking and copying, as far as counts go. */
  lemma StoreMoves(resource: SignatureToken, mem: Memory, r: Root, v: Value)
    ensures Held(resource, [], mem[r := v]) + CountAt(resource, mem, r) == Held(resource, [v], mem)
  {
    CountOne(resource, v);
    CountStored(resource, mem, r, v);
  }

  lemma TakeMoves(resource: SignatureToken, mem: Memory, r: Root)
    requires r in mem
    ensures Held(resource, [mem[r]], mem - {r}) == Held(resource, [], mem)
  {
    CountOne(resource, mem[r]);
    CountWithout(resource, mem, r);
  }

  lemma HoldsNothing(resource: SignatureToken, v: Value, mem: Memory)
    ensures Held(resource, [v], mem) == Held(resource, [], mem) + Count(resource, v)
  {
    CountOne(resource, v);
  }

  lemma StoreCounts(env: Running, resource: SignatureToken, instr: Bytecode,
      args: seq<Value>, mem: Memory, out: seq<Value>, mem': Memory)
    requires instr.StLoc? && InstrInBounds(env.ctx, instr) && |args| == 1
    requires ExecutesPlain(env, instr, args, mem, out, mem')
    ensures CountsBounded(env, resource, instr, args, mem, out, mem')
  {
    assert args == [args[0]];
    StoreMoves(resource, mem, LocalRoot(instr.local), args[0]);
  }

  lemma MoveLocCounts(env: Running, resource: SignatureToken, instr: Bytecode,
      args: seq<Value>, mem: Memory, out: seq<Value>, mem': Memory)
    requires instr.MoveLoc? && InstrInBounds(env.ctx, instr) && |args| == Pops(env.ctx, instr)
    requires ExecutesPlain(env, instr, args, mem, out, mem')
    ensures Keeps(env, resource, args, mem, out, mem')
  {
    assert args == [];
    TakeMoves(resource, mem, LocalRoot(instr.local));
  }

  /** Copying a local needs Copy. */
  lemma CopyCounts(env: Running, resource: SignatureToken, instr: Bytecode, argTypes: Signature,
      args: seq<Value>, mem: Memory, out: seq<Value>, mem': Memory)
    requires instr.CopyLoc? && Fires(env, instr, argTypes, args, mem, out, mem')
    ensures Keeps(env, resource, args, mem, out, mem')
  {
    var r := LocalRoot(instr.local);
    assert args == [];
    HoldsNothing(resource, mem[r], mem);
    if Lacks(env, resource, Copy) {
      assert RootTyped(env, mem, r);
      assert Rule(env.ctx, instr, argTypes) == PlainRule(env.ctx, instr, argTypes);
      CheckedAbilityReaches(env, resource, LocalAt(env.ctx, instr.local), mem[r], Copy);
    }
  }

  /** What operators, loads and branches push holds no instances. */
  lemma OperatorPushesNothing(env: Running, resource: SignatureToken, instr: Bytecode, argTypes: Signature,
      args: seq<Value>, mem: Memory, out: seq<Value>, mem': Memory)
    requires IsPlain(instr) && !OnLocals(instr) && Fires(env, instr, argTypes, args, mem, out, mem')
    ensures CountAll(resource, out) == 0 && mem' == mem
  {
    if |out| > 0 {
      assert out == [out[0]];
      CountOne(resource, out[0]);
      if instr.LdConst? {
        ConstantsHoldNothing(env.ctx.structs, out[0], env.ctx.constants[instr.constant], resource);
      }
    }
  }

  /** What they pop either is a scalar or was checked to have Drop. */
  lemma OperatorPopsNothing(env: Running, resource: SignatureToken, instr: Bytecode, argTypes: Signature,
      args: seq<Value>)
    requires IsPlain(instr) && !OnLocals(instr) && !instr.Abort? && IsRunning(env) && InstrInBounds(env.ctx, instr)
    requires |args| == |argTypes| == Pops(env.ctx, instr) && PlainRule(env.ctx, instr, argTypes).Some?
    requires HoldAll(env, args, InstantiateAll(argTypes, env.actuals))
    ensures Lacks(env, resource, Drop) ==> CountAll(resource, args) == 0
  {
    if instr.Pop? || instr.Equality? {
      if Lacks(env, resource, Drop) {
        forall i | 0 <= i < |args| ensures Count(resource, args[i]) == 0 {
          OperandHolds(env, argTypes, args, i);
          CheckedAbilityReaches(env, resource, argTypes[i], args[i], Drop);
        }
        NoneInAny(resource, args);
      }
    } else {
      ScalarTypesHoldNothing(env, resource, argTypes, args);
    }
  }

  lemma OperatorCounts(env: Running, resource: SignatureToken, instr: Bytecode, argTypes: Signature,
      args: seq<Value>, mem: Memory, out: seq<Value>, mem': Memory)
    requires IsPlain(instr) && !OnLocals(instr) && Fires(env, instr, argTypes, args, mem, out, mem')
    ensures Keeps(env, resource, args, mem, out, mem')
  {
    OperatorPushesNothing(env, resource, instr, argTypes, args, mem, out, mem');
    OperatorPopsNothing(env, resource, instr, argTypes, args);
  }

  lemma PackCounts(env: Running, resource: SignatureToken, instr: Bytecode, argTypes: Signature,
      args: seq<Value>, mem: Memory, out: seq<Value>, mem': Memory)
    requires instr.Pack? && Fires(env, instr, argTypes, args, mem, out, mem')
    ensures CountsBounded(env, resource, instr, args, mem, out, mem')
  {
    InstantiateMaterialized(instr.def, instr.typeArgs, env.actuals);
    CountOne(resource, out[0]);
  }

  /** An instance has its own type, and that of its fields inside. */
  lemma UnpackedCounts(env: Running, resource: SignatureToken, v: Value, ty: SignatureToken)
    requires HasType(env.ctx.structs, v, ty) && v.Instance?
    ensures Count(resource, v) == CountAll(resource, v.fields) + if ty == resource then 1 else 0
  {}

  lemma UnpackCounts(env: Running, resource: SignatureToken, instr: Bytecode, argTypes: Signature,
      args: seq<Value>, mem: Memory, out: seq<Value>, mem': Memory)
    requires instr.Unpack? && Fires(env, instr, argTypes, args, mem, out, mem')
    ensures CountsBounded(env, resource, instr, args, mem, out, mem')
  {
    assert Rule(env.ctx, instr, argTypes) == StructRule(env.ctx, instr, argTypes);
    assert args == [args[0]];
    CountOne(resource, args[0]);
    OperandHolds(env, argTypes, args, 0);
    InstanceTypesArePlain(env, instr.def, instr.typeArgs);
    UnpackedCounts(env, resource, args[0], InstanceType(env, instr.def, instr.typeArgs));
  }

  /** Putting into storage moves what is held. */
  lemma MoveToCounts(env: Running, resource: SignatureToken, instr: Bytecode,
      args: seq<Value>, mem: Memory, out: seq<Value>, mem': Memory)
    requires instr.MoveTo? && InstrInBounds(env.ctx, instr) && |args| == Pops(env.ctx, instr)
    requires ExecutesReference(env, instr, args, mem, out, mem')
    ensures Keeps(env, resource, args, mem, out, mem')
  {
    var r := StorageRoot(Target(mem, args[0]).value.bits, InstanceType(env, instr.def, instr.typeArgs));
    assert args == [args[0], args[1]];
    CountTwo(resource, args[0], args[1]);
    CountOne(resource, args[1]);
    StoreMoves(resource, mem, r, args[1]);
  }

  /** Taking from storage moves it. */
  lemma MoveFromCounts(env: Running, resource: SignatureToken, instr: Bytecode,
      args: seq<Value>, mem: Memory, out: seq<Value>, mem': Memory)
    requires instr.MoveFrom? && InstrInBounds(env.ctx, instr) && |args| == Pops(env.ctx, instr)
    requires ExecutesStruct(env, instr, args, mem, out, mem')
    ensures Keeps(env, resource, args, mem, out, mem')
  {
    assert args == [args[0]] && out == [out[0]];
    HoldsNothing(resource, args[0], mem);
    TakeMoves(resource, mem, StorageRoot(args[0].bits, InstanceType(env, instr.def, instr.typeArgs)));
  }

  lemma ExistsCounts(env: Running, resource: SignatureToken, instr: Bytecode,
      args: seq<Value>, mem: Memory, out: seq<Value>, mem': Memory)
    requires instr.Exists? && InstrInBounds(env.ctx, instr) && |args| == Pops(env.ctx, instr)
    requires ExecutesStruct(env, instr, args, mem, out, mem')
    ensures Keeps(env, resource, args, mem, out, mem')
  {
    ScalarForOne(resource, args, mem, out);
  }

  lemma BorrowGlobalCounts(env: Running, resource: SignatureToken, instr: Bytecode,
      args: seq<Value>, mem: Memory, out: seq<Value>, mem': Memory)
    requires instr.BorrowGlobal? && InstrInBounds(env.ctx, instr) && |args| == Pops(env.ctx, instr)
    requires ExecutesReference(env, instr, args, mem, out, mem')
    ensures Keeps(env, resource, args, mem, out, mem')
  {
    ScalarForOne(resource, args, mem, out);
  }

  /** One operand that holds nothing is replaced by another. */
  lemma ScalarForOne(resource: SignatureToken, args: seq<Value>, mem: Memory, out: seq<Value>)
    requires |args| == |out| == 1 && (args[0].Scalar? || args[0].RefTo?) && (out[0].Scalar? || out[0].RefTo?)
    ensures Held(resource, args, mem) == Held(resource, out, mem)
  {
    assert args == [args[0]] && out == [out[0]];
    CountOne(resource, args[0]);
    CountOne(resource, out[0]);
  }

  /** Borrowing moves nothing. */
  lemma BorrowLocCounts(env: Running, resource: SignatureToken, instr: Bytecode,
      args: seq<Value>, mem: Memory, out: seq<Value>, mem': Memory)
    requires instr.BorrowLoc? && InstrInBounds(env.ctx, instr) && |args| == Pops(env.ctx, instr)
    requires ExecutesReference(env, instr, args, mem, out, mem')
    ensures Keeps(env, resource, args, mem, out, mem')
  {
    assert args == [] && out == [out[0]];
    CountOne(resource, out[0]);
  }

  lemma BorrowCounts(env: Running, resource: SignatureToken, instr: Bytecode,
      args: seq<Value>, mem: Memory, out: seq<Value>, mem': Memory)
    requires (instr.BorrowField? || instr.FreezeRef?) && InstrInBounds(env.ctx, instr) && |args| == Pops(env.ctx, instr)
    requires ExecutesReference(env, instr, args, mem, out, mem')
    ensures Keeps(env, resource, args, mem, out, mem')
  {
    ScalarForOne(resource, args, mem, out);
  }

  /** Reading copies, so the type needs Copy. */
  lemma ReadRefCounts(env: Running, resource: SignatureToken, instr: Bytecode, argTypes: Signature,
      args: seq<Value>, mem: Memory, out: seq<Value>, mem': Memory)
    requires instr.ReadRef? && Fires(env, instr, argTypes, args, mem, out, mem')
    ensures Keeps(env, resource, args, mem, out, mem')
  {
    assert args == [args[0]];
    CountOne(resource, args[0]);
    CountOne(resource, out[0]);
    if Lacks(env, resource, Copy) {
      assert Rule(env.ctx, instr, argTypes) == ReferenceRule(env.ctx, instr, argTypes);
      OperandHolds(env, argTypes, args, 0);
      TargetTyped(env, mem, args[0], Instantiate(argTypes[0].inner, env.actuals));
      CheckedAbilityReaches(env, resource, argTypes[0].inner, out[0], Copy);
    }
  }

  /** Writing destroys what was there, so the type needs Drop. */
  lemma OverwrittenHoldsNothing(env: Running, resource: SignatureToken, argTypes: Signature, args: seq<Value>, mem: Memory)
    requires IsRunning(env) && |args| == |argTypes| == 2 && ReferenceRule(env.ctx, WriteRef, argTypes).Some?
    requires HoldAll(env, args, InstantiateAll(argTypes, env.actuals)) && MemoryTyped(env, mem)
    requires Target(mem, args[1]).Some? && Lacks(env, resource, Drop)
    ensures Count(resource, Target(mem, args[1]).value) == 0
  {
    OperandHolds(env, argTypes, args, 1);
    TargetTyped(env, mem, args[1], Instantiate(argTypes[1].inner, env.actuals));
    CheckedAbilityReaches(env, resource, argTypes[1].inner, Target(mem, args[1]).value, Drop);
  }

  lemma WriteMoves(resource: SignatureToken, args: seq<Value>, mem: Memory)
    requires |args| == 2 && Target(mem, args[1]).Some?
    ensures Held(resource, [], WriteTo(mem, args[1], args[0])) + Count(resource, Target(mem, args[1]).value)
         == Held(resource, args, mem)
  {
    assert args == [args[0], args[1]];
    CountTwo(resource, args[0], args[1]);
    WriteCounts(resource, mem, args[1].root, args[1].path, args[0]);
  }

  lemma WriteRefCounts(env: Running, resource: SignatureToken, instr: Bytecode, argTypes: Signature,
      args: seq<Value>, mem: Memory, out: seq<Value>, mem': Memory)
    requires instr.WriteRef? && Fires(env, instr, argTypes, args, mem, out, mem')
    ensures Keeps(env, resource, args, mem, out, mem')
  {
    WriteMoves(resource, args, mem);
    if Lacks(env, resource, Drop) { OverwrittenHoldsNothing(env, resource, argTypes, args, mem); }
  }

  lemma WithItemsCounts(resource: SignatureToken, mem: Memory, ref: Value, items: seq<Value>)
    requires ItemsOf(mem, ref).Some?
    ensures CountMemory(resource, WithItems(mem, ref, items)) + CountAll(resource, ItemsOf(mem, ref).value)
         == CountMemory(resource, mem) + CountAll(resource, items)
  {
    WriteCounts(resource, mem, ref.root, ref.path, Target(mem, ref).value.(items := items));
  }

  lemma VecUnpackCounts(env: Running, resource: SignatureToken, instr: Bytecode,
      args: seq<Value>, mem: Memory, out: seq<Value>, mem': Memory)
    requires instr.VecUnpack? && InstrInBounds(env.ctx, instr) && |args| == Pops(env.ctx, instr)
    requires ExecutesVector(env, instr, args, mem, out, mem')
    ensures Keeps(env, resource, args, mem, out, mem')
  {
    assert args == [args[0]];
    CountOne(resource, args[0]);
  }

  lemma VecLenCounts(env: Running, resource: SignatureToken, instr: Bytecode,
      args: seq<Value>, mem: Memory, out: seq<Value>, mem': Memory)
    requires instr.VecLen? && InstrInBounds(env.ctx, instr) && |args| == Pops(env.ctx, instr)
    requires ExecutesVector(env, instr, args, mem, out, mem')
    ensures Keeps(env, resource, args, mem, out, mem')
  {
    ScalarForOne(resource, args, mem, out);
  }

  lemma VecBorrowCounts(env: Running, resource: SignatureToken, instr: Bytecode,
      args: seq<Value>, mem: Memory, out: seq<Value>, mem': Memory)
    requires instr.VecBorrow? && InstrInBounds(env.ctx, instr) && |args| == Pops(env.ctx, instr)
    requires ExecutesVector(env, instr, args, mem, out, mem')
    ensures Keeps(env, resource, args, mem, out, mem')
  {
    assert args == [args[0], args[1]] && out == [out[0]];
    CountTwo(resource, args[0], args[1]);
    HoldsNothing(resource, out[0], mem);
  }

  lemma PushBackCounts(env: Running, resource: SignatureToken, instr: Bytecode,
      args: seq<Value>, mem: Memory, out: seq<Value>, mem': Memory)
    requires instr.VecPushBack? && InstrInBounds(env.ctx, instr) && |args| == Pops(env.ctx, instr)
    requires ExecutesVector(env, instr, args, mem, out, mem')
    ensures Keeps(env, resource, args, mem, out, mem')
  {
    assert args == [args[0], args[1]];
    CountTwo(resource, args[0], args[1]);
    var items := ItemsOf(mem, args[0]).value;
    WithItemsCounts(resource, mem, args[0], items + [args[1]]);
    CountConcat(resource, items, [args[1]]);
    CountOne(resource, args[1]);
  }

  lemma PopBackCounts(env: Running, resource: SignatureToken, instr: Bytecode,
      args: seq<Value>, mem: Memory, out: seq<Value>, mem': Memory)
    requires instr.VecPopBack? && InstrInBounds(env.ctx, instr) && |args| == Pops(env.ctx, instr)
    requires ExecutesVector(env, instr, args, mem, out, mem')
    ensures Keeps(env, resource, args, mem, out, mem')
  {
    assert args == [args[0]];
    CountOne(resource, args[0]);
    var items := ItemsOf(mem, args[0]).value;
    WithItemsCounts(resource, mem, args[0], items[..|items| - 1]);
    assert items == items[..|items| - 1] + out;
    CountConcat(resource, items[..|items| - 1], out);
  }

  lemma SwapCounts(env: Running, resource: SignatureToken, instr: Bytecode,
      args: seq<Value>, mem: Memory, out: seq<Value>, mem': Memory)
    requires instr.VecSwap? && InstrInBounds(env.ctx, instr) && |args| == Pops(env.ctx, instr)
    requires ExecutesVector(env, instr, args, mem, out, mem')
    ensures Keeps(env, resource, args, mem, out, mem')
  {
    NoneInAny(resource, args);
    var items, i, j := ItemsOf(mem, args[0]).value, args[1].bits, args[2].bits;
    WithItemsCounts(resource, mem, args[0], items[i := items[j]][j := items[i]]);
    CountSwapped(resource, items, i, j);
  }

  lemma {:induction false} CountParts(resource: SignatureToken, args: seq<Value>, mem: Memory)
    ensures CountMemory(resource, mem)
         == CountMemory(resource, Private(args, mem)) + CountMemory(resource, Exposed(args, mem))
    decreases |mem|
  {
    if mem == map[] {
      assert Private(args, mem) == map[] && Exposed(args, mem) == map[];
    } else {
      var r :| r in mem;
      CountParts(resource, args, mem - {r});
      CountWithout(resource, mem, r);
      if IsPrivate(args, r) {
        CountWithout(resource, Private(args, mem), r);
        assert Private(args, mem - {r}) == Private(args, mem) - {r} && Exposed(args, mem - {r}) == Exposed(args, mem);
      } else {
        CountWithout(resource, Exposed(args, mem), r);
        assert Exposed(args, mem - {r}) == Exposed(args, mem) - {r} && Private(args, mem - {r}) == Private(args, mem);
      }
    }
  }

  lemma PrivateIsKept(env: Running, f: nat, typeArgs: Signature, args: seq<Value>, mem: Memory,
                      out: seq<Value>, mem': Memory)
    requires f < |env.ctx.functions| && ExecutesCall(env, f, typeArgs, args, mem, out, mem')
    ensures Private(args, mem') == Private(args, mem)
  {}

  lemma CallMoves(resource: SignatureToken, args: seq<Value>, mem: Memory, out: seq<Value>, mem': Memory)
    requires Private(args, mem') == Private(args, mem)
    ensures Held(resource, out, mem') + CountMemory(resource, Exposed(args, mem))
         == Held(resource, out, mem) + CountMemory(resource, Exposed(args, mem'))
  {
    CountParts(resource, args, mem);
    CountParts(resource, args, mem');
  }

  lemma CallCounts(env: Running, resource: SignatureToken, instr: Bytecode, args: seq<Value>, mem: Memory,
      out: seq<Value>, mem': Memory)
    requires instr.Call? && instr.function_ < |env.ctx.functions|
    requires ExecutesCall(env, instr.function_, instr.typeArgs, args, mem, out, mem')
    ensures CountsBounded(env, resource, instr, args, mem, out, mem')
  {
    PrivateIsKept(env, instr.function_, instr.typeArgs, args, mem, out, mem');
    CallMoves(resource, args, mem, out, mem');
  }

  lemma ReferenceCounts(env: Running, resource: SignatureToken, instr: Bytecode, argTypes: Signature,
      args: seq<Value>, mem: Memory, out: seq<Value>, mem': Memory)
    requires OnReferences(instr) && Fires(env, instr, argTypes, args, mem, out, mem')
    ensures Keeps(env, resource, args, mem, out, mem')
  {
    if instr.BorrowLoc? { BorrowLocCounts(env, resource, instr, args, mem, out, mem'); }
    else if instr.BorrowGlobal? { BorrowGlobalCounts(env, resource, instr, args, mem, out, mem'); }
    else if instr.BorrowField? || instr.FreezeRef? { BorrowCounts(env, resource, instr, args, mem, out, mem'); }
    else if instr.ReadRef? { ReadRefCounts(env, resource, instr, argTypes, args, mem, out, mem'); }
    else if instr.WriteRef? { WriteRefCounts(env, resource, instr, argTypes, args, mem, out, mem'); }
    else { MoveToCounts(env, resource, instr, args, mem, out, mem'); }
  }

  lemma VectorCounts(env: Running, resource: SignatureToken, instr: Bytecode,
      args: seq<Value>, mem: Memory, out: seq<Value>, mem': Memory)
    requires OnVectors(instr) && InstrInBounds(env.ctx, instr) && |args| == Pops(env.ctx, instr)
    requires ExecutesVector(env, instr, args, mem, out, mem')
    ensures Keeps(env, resource, args, mem, out, mem')
  {
    if instr.VecUnpack? { VecUnpackCounts(env, resource, instr, args, mem, out, mem'); }
    else if instr.VecLen? { VecLenCounts(env, resource, instr, args, mem, out, mem'); }
    else if instr.VecBorrow? { VecBorrowCounts(env, resource, instr, args, mem, out, mem'); }
    else if instr.VecPushBack? { PushBackCounts(env, resource, instr, args, mem, out, mem'); }
    else if instr.VecPopBack? { PopBackCounts(env, resource, instr, args, mem, out, mem'); }
    else { SwapCounts(env, resource, instr, args, mem, out, mem'); }
  }

  lemma PlainCounts(env: Running, resource: SignatureToken, instr: Bytecode, argTypes: Signature,
      args: seq<Value>, mem: Memory, out: seq<Value>, mem': Memory)
    requires !OnStructs(instr) && !OnReferences(instr) && !OnVectors(instr) && !instr.StLoc?
    requires Fires(env, instr, argTypes, args, mem, out, mem')
    ensures Keeps(env, resource, args, mem, out, mem')
  {
    if instr.MoveLoc? { MoveLocCounts(env, resource, instr, args, mem, out, mem'); }
    else if instr.CopyLoc? { CopyCounts(env, resource, instr, argTypes, args, mem, out, mem'); }
    else { OperatorCounts(env, resource, instr, argTypes, args, mem, out, mem'); }
  }

  lemma ExecutesCounts(env: Running, resource: SignatureToken, instr: Bytecode, argTypes: Signature,
      args: seq<Value>, mem: Memory, out: seq<Value>, mem': Memory)
    requires Fires(env, instr, argTypes, args, mem, out, mem')
    ensures CountsBounded(env, resource, instr, args, mem, out, mem')
  {
    if instr.Pack? { PackCounts(env, resource, instr, argTypes, args, mem, out, mem'); }
    else if instr.Unpack? { UnpackCounts(env, resource, instr, argTypes, args, mem, out, mem'); }
    else if instr.Call? { CallCounts(env, resource, instr, args, mem, out, mem'); }
    else if instr.StLoc? { StoreCounts(env, resource, instr, args, mem, out, mem'); }
    else {
      if instr.MoveFrom? { MoveFromCounts(env, resource, instr, args, mem, out, mem'); }
      else if instr.Exists? { ExistsCounts(env, resource, instr, args, mem, out, mem'); }
      else if OnReferences(instr) { ReferenceCounts(env, resource, instr, argTypes, args, mem, out, mem'); }
      else if OnVectors(instr) { VectorCounts(env, resource, instr, args, mem, out, mem'); }
      else { PlainCounts(env, resource, instr, argTypes, args, mem, out, mem'); }
      KeepsBounds(env, resource, instr, args, mem, out, mem');
    }
  }

  // ---------------------------------------------------------------- whole runs

  ghost function Total(resource: SignatureToken, s: Frame): nat {
    Held(resource, s.stack, s.mem)
  }

  ghost function StepGain(env: Running, resource: SignatureToken, s: Frame, s': Frame): nat
    requires InBounds(env.ctx) && FrameStep(env, s, s')
  {
    Gain(env, resource, env.ctx.code[s.pc], Operands(env, s), s'.stack[Untouched(env, s)..], s'.mem)
  }

  ghost function StepLoss(env: Running, resource: SignatureToken, s: Frame, s': Frame): nat
    requires InBounds(env.ctx) && FrameStep(env, s, s')
  {
    Loss(env, resource, env.ctx.code[s.pc], Operands(env, s), s.mem)
  }

  /** A step of checked code changes the operand stack only above the operands it takes, and within the
      instruction's bounds. */
  lemma StepBoundsCounts(env: Running, resource: SignatureToken, s: Frame, s': Frame)
    requires Checked(env) && FrameTyped(env, s) && FrameStep(env, s, s')
    ensures var base := Untouched(env, s);
            && CountsBounded(env, resource, env.ctx.code[s.pc], s.stack[base..], s.mem, s'.stack[base..], s'.mem)
            && Total(resource, s) == CountAll(resource, s.stack[..base]) + Held(resource, s.stack[base..], s.mem)
            && Total(resource, s') == CountAll(resource, s.stack[..base]) + Held(resource, s'.stack[base..], s'.mem)
  {
    var base, tys := Untouched(env, s), StackAt(env.ctx, s.pc).value;
    StepFires(env, s, s');
    ExecutesCounts(env, resource, env.ctx.code[s.pc], tys[base..], s.stack[base..], s.mem, s'.stack[base..], s'.mem);
    SplitAt(s.stack, base);
    SplitAt(s'.stack, base);
    CountConcat(resource, s.stack[..base], s.stack[base..]);
    CountConcat(resource, s.stack[..base], s'.stack[base..]);
  }

  lemma StepBoundsTotals(env: Running, resource: SignatureToken, s: Frame, s': Frame)
    requires Checked(env) && FrameTyped(env, s) && FrameStep(env, s, s')
    ensures Lacks(env, resource, Copy) ==>
              Total(resource, s') <= Total(resource, s) + StepGain(env, resource, s, s')
    ensures Lacks(env, resource, Drop) ==>
              Total(resource, s) <= Total(resource, s') + StepLoss(env, resource, s, s')
  {
    StepBoundsCounts(env, resource, s, s');
  }

  ghost function RunGain(env: Running, resource: SignatureToken, run: seq<Frame>, n: nat): nat
    requires InBounds(env.ctx) && IsFrameRun(env, run) && n < |run|
  {
    if n == 0 then 0
    else
      assert StepsAt(env, run, n - 1);
      RunGain(env, resource, run, n - 1) + StepGain(env, resource, run[n - 1], run[n])
  }

  ghost function RunLoss(env: Running, resource: SignatureToken, run: seq<Frame>, n: nat): nat
    requires InBounds(env.ctx) && IsFrameRun(env, run) && n < |run|
  {
    if n == 0 then 0
    else
      assert StepsAt(env, run, n - 1);
      RunLoss(env, resource, run, n - 1) + StepLoss(env, resource, run[n - 1], run[n])
  }

  lemma StepNeverDuplicates(env: Running, resource: SignatureToken, run: seq<Frame>, n: nat)
    requires Checked(env) && IsFrameRun(env, run) && 0 < n < |run|
    requires Lacks(env, resource, Copy)
    ensures StepsAt(env, run, n - 1)
    ensures Total(resource, run[n]) <= Total(resource, run[n - 1]) + StepGain(env, resource, run[n - 1], run[n])
  {
    RunsStayTyped(env, run, n - 1);
    assert StepsAt(env, run, n - 1);
    StepBoundsTotals(env, resource, run[n - 1], run[n]);
  }

  lemma StepNeverLoses(env: Running, resource: SignatureToken, run: seq<Frame>, n: nat)
    requires Checked(env) && IsFrameRun(env, run) && 0 < n < |run|
    requires Lacks(env, resource, Drop)
    ensures StepsAt(env, run, n - 1)
    ensures Total(resource, run[n - 1]) <= Total(resource, run[n]) + StepLoss(env, resource, run[n - 1], run[n])
  {
    RunsStayTyped(env, run, n - 1);
    assert StepsAt(env, run, n - 1);
    StepBoundsTotals(env, resource, run[n - 1], run[n]);
  }

  ghost predicate GainsAt(env: Running, resource: SignatureToken, run: seq<Frame>, k: nat)
    requires InBounds(env.ctx) && 0 < k < |run|
  {
    && StepsAt(env, run, k - 1)
    && Total(resource, run[k]) <= Total(resource, run[k - 1]) + StepGain(env, resource, run[k - 1], run[k])
  }

  lemma {:induction false} GainsAddUp(env: Running, resource: SignatureToken, run: seq<Frame>, n: nat)
    requires InBounds(env.ctx) && IsFrameRun(env, run) && n < |run|
    requires forall k :: 0 < k <= n ==> GainsAt(env, resource, run, k)
    ensures Total(resource, run[n]) <= Total(resource, run[0]) + RunGain(env, resource, run, n)
  {
    if n > 0 {
      GainsAddUp(env, resource, run, n - 1);
      assert GainsAt(env, resource, run, n);
    }
  }

  ghost predicate LosesAt(env: Running, resource: SignatureToken, run: seq<Frame>, k: nat)
    requires InBounds(env.ctx) && 0 < k < |run|
  {
    && StepsAt(env, run, k - 1)
    && Total(resource, run[k - 1]) <= Total(resource, run[k]) + StepLoss(env, resource, run[k - 1], run[k])
  }

  lemma {:induction false} LossesAddUp(env: Running, resource: SignatureToken, run: seq<Frame>, n: nat)
    requires InBounds(env.ctx) && IsFrameRun(env, run) && n < |run|
    requires forall k :: 0 < k <= n ==> LosesAt(env, resource, run, k)
    ensures Total(resource, run[0]) <= Total(resource, run[n]) + RunLoss(env, resource, run, n)
  {
    if n > 0 {
      LossesAddUp(env, resource, run, n - 1);
      assert LosesAt(env, resource, run, n);
    }
  }

  /** No duplication: along every run the number of live instances of a type without Copy exceeds
      the initial number by no more than what Pack and calls brought in. */
  lemma NoDuplication(env: Running, resource: SignatureToken, run: seq<Frame>, n: nat)
    requires Checked(env) && IsFrameRun(env, run) && n < |run|
    requires Lacks(env, resource, Copy)
    ensures Total(resource, run[n]) <= Total(resource, run[0]) + RunGain(env, resource, run, n)
  {
    forall k | 0 < k <= n ensures GainsAt(env, resource, run, k) {
      StepNeverDuplicates(env, resource, run, k);
    }
    GainsAddUp(env, resource, run, n);
  }

  /** No loss: instances of a type without Drop disappear only by Unpack, into a call, or under a
      store to a local that still held one. */
  lemma NoDisappearance(env: Running, resource: SignatureToken, run: seq<Frame>, n: nat)
    requires Checked(env) && IsFrameRun(env, run) && n < |run|
    requires Lacks(env, resource, Drop)
    ensures Total(resource, run[0]) <= Total(resource, run[n]) + RunLoss(env, resource, run, n)
  {
    forall k | 0 < k <= n ensures LosesAt(env, resource, run, k) {
      StepNeverLoses(env, resource, run, k);
    }
    LossesAddUp(env, resource, run, n);
  }
}
