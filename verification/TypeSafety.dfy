/** The block-local type checker: an abstract stack of types, pushed and popped by every
    instruction. The checker keeps one stack for the whole function and never resets it between
    blocks. */
module TypeSafety {
  import opened FileFormat
  import opened ControlFlowGraph
  import opened StackUsage
  import opened Abilities

  function LocalAt(ctx: FunctionContext, local: nat): SignatureToken
    requires local < |ctx.parameters| + |ctx.locals|
  {
    if local < |ctx.parameters| then ctx.parameters[local] else ctx.locals[local - |ctx.parameters|]
  }

  predicate Has(ctx: FunctionContext, ty: SignatureToken, a: Ability) {
    a in Known(TypeAbilities(ctx.structs, ty, ctx.typeParameters))
  }

  function VectorElementType(ty: SignatureToken, mutRefOnly: bool): Option<SignatureToken> {
    match ty
    case Reference(Vector(elem)) => if mutRefOnly then None else Some(elem)
    case MutableReference(Vector(elem)) => Some(elem)
    case _ => None
  }

  function Borrowed(mutable: bool, ty: SignatureToken): SignatureToken {
    if mutable then MutableReference(ty) else Reference(ty)
  }

  predicate BorrowsFrom(operand: SignatureToken, mutable: bool, owner: SignatureToken) {
    || operand == MutableReference(owner)
    || (!mutable && operand == Reference(owner))
  }

  /** Loads, locals, branches and operators. */
  function PlainRule(ctx: FunctionContext, instr: Bytecode, args: Signature): (r: Option<Signature>)
    requires !OnStructs(instr) && !OnReferences(instr) && !OnVectors(instr)
    requires InstrInBounds(ctx, instr) && |args| == Pops(ctx, instr)
    ensures r.Some? ==> |r.value| == Pushes(ctx, instr)
  {
    match instr
    case Pop => if Has(ctx, args[0], Drop) then Some([]) else None
    case BrTrue(_) => if args[0] == Bool then Some([]) else None
    case BrFalse(_) => if args[0] == Bool then Some([]) else None
    case StLoc(l) => if args[0] == LocalAt(ctx, l) then Some([]) else None
    case Abort => if args[0] == U64 then Some([]) else None
    case Ret => if args == ctx.results then Some([]) else None
    case Branch(_) => Some([])
    case Nop => Some([])
    case LdU8 => Some([U8])
    case LdU64 => Some([U64])
    case LdU128 => Some([U128])
    case LdTrue => Some([Bool])
    case LdFalse => Some([Bool])
    case LdConst(c) => Some([ctx.constants[c]])
    case CopyLoc(l) => if Has(ctx, LocalAt(ctx, l), Copy) then Some([LocalAt(ctx, l)]) else None
    case MoveLoc(l) => Some([LocalAt(ctx, l)])
    case CastU8 => if args[0].IsInteger() then Some([U8]) else None
    case CastU64 => if args[0].IsInteger() then Some([U64]) else None
    case CastU128 => if args[0].IsInteger() then Some([U128]) else None
    case Arithmetic => if args[1].IsInteger() && args[1] == args[0] then Some([args[1]]) else None
    case Shift => if args[0].IsInteger() && args[1] == U8 then Some([args[0]]) else None
    case Logical => if args[0] == Bool && args[1] == Bool then Some([Bool]) else None
    case Not => if args[0] == Bool then Some([Bool]) else None
    case Equality => if Has(ctx, args[1], Drop) && args[1] == args[0] then Some([Bool]) else None
    case Comparison => if args[1].IsInteger() && args[1] == args[0] then Some([Bool]) else None
  }

  predicate OnStructs(instr: Bytecode) {
    instr.Call? || instr.Pack? || instr.Unpack? || instr.Exists? || instr.MoveFrom?
  }

  /** Calls, and instructions on structs. */
  function StructRule(ctx: FunctionContext, instr: Bytecode, args: Signature): (r: Option<Signature>)
    requires OnStructs(instr)
    requires InstrInBounds(ctx, instr) && |args| == Pops(ctx, instr)
    ensures r.Some? ==> |r.value| == Pushes(ctx, instr)
  {
    match instr
    case Call(f, typeArgs) =>
      if args == InstantiateAll(ctx.functions[f].parameters, typeArgs)
      then Some(InstantiateAll(ctx.functions[f].results, typeArgs)) else None
    case Pack(d, typeArgs) =>
      var info := ctx.structs[d].fieldInformation;
      if info.Declared? && args == InstantiateAll(info.fields, typeArgs)
      then Some([MaterializeType(d, typeArgs)]) else None
    case Unpack(d, typeArgs) =>
      var info := ctx.structs[d].fieldInformation;
      if info.Declared? && args[0] == MaterializeType(d, typeArgs)
      then Some(InstantiateAll(info.fields, typeArgs)) else None
    case Exists(d, typeArgs) =>
      if Has(ctx, MaterializeType(d, typeArgs), Key) && args[0] == Address then Some([Bool]) else None
    case MoveFrom(d, typeArgs) =>
      var struct_ := MaterializeType(d, typeArgs);
      if Has(ctx, struct_, Key) && args[0] == Address then Some([struct_]) else None
  }

  predicate OnReferences(instr: Bytecode) {
    instr.BorrowLoc? || instr.FreezeRef? || instr.ReadRef? || instr.WriteRef? || instr.BorrowField?
    || instr.BorrowGlobal? || instr.MoveTo?
  }

  /** Instructions that make, use or consume references. */
  function ReferenceRule(ctx: FunctionContext, instr: Bytecode, args: Signature): (r: Option<Signature>)
    requires OnReferences(instr)
    requires InstrInBounds(ctx, instr) && |args| == Pops(ctx, instr)
    ensures r.Some? ==> |r.value| == Pushes(ctx, instr)
  {
    match instr
    case BorrowLoc(mutable, l) =>
      if LocalAt(ctx, l).IsReference() then None else Some([Borrowed(mutable, LocalAt(ctx, l))])
    case FreezeRef => if args[0].MutableReference? then Some([Reference(args[0].inner)]) else None
    case ReadRef =>
      if args[0].IsReference() && Has(ctx, args[0].inner, Copy) then Some([args[0].inner]) else None
    case WriteRef =>
      if args[1].MutableReference? && Has(ctx, args[1].inner, Drop) && args[0] == args[1].inner
      then Some([]) else None
    case BorrowField(mutable, d, field, typeArgs) =>
      var info := ctx.structs[d].fieldInformation;
      if info.Declared? && BorrowsFrom(args[0], mutable, MaterializeType(d, typeArgs))
      then Some([Borrowed(mutable, Instantiate(info.fields[field], typeArgs))]) else None
    case BorrowGlobal(mutable, d, typeArgs) =>
      var struct_ := MaterializeType(d, typeArgs);
      if args[0] == Address && Has(ctx, struct_, Key) then Some([Borrowed(mutable, struct_)]) else None
    case MoveTo(d, typeArgs) =>
      var struct_ := MaterializeType(d, typeArgs);
      if Has(ctx, struct_, Key) && args[1] == struct_ && args[0] == Reference(Signer) then Some([]) else None
  }

  predicate OnVectors(instr: Bytecode) {
    instr.VecPack? || instr.VecUnpack? || instr.VecLen? || instr.VecBorrow? || instr.VecPushBack?
    || instr.VecPopBack? || instr.VecSwap?
  }

  /** Vector instructions. `VecPack` looks at no operand. */
  function VectorRule(ctx: FunctionContext, instr: Bytecode, args: Signature): (r: Option<Signature>)
    requires OnVectors(instr)
    requires InstrInBounds(ctx, instr) && |args| == Pops(ctx, instr)
    ensures r.Some? ==> |r.value| == Pushes(ctx, instr)
  {
    match instr
    case VecPack(elem, _) => Some([Vector(elem)])
    case VecUnpack(elem, n) => if args[0] == Vector(elem) then Some(seq(n, _ => elem)) else None
    case VecLen(elem) => if VectorElementType(args[0], false) == Some(elem) then Some([U64]) else None
    case VecBorrow(mutable, elem) =>
      if args[1] == U64 && VectorElementType(args[0], mutable) == Some(elem)
      then Some([Borrowed(mutable, elem)]) else None
    case VecPushBack(elem) =>
      if args[1] == elem && VectorElementType(args[0], true) == Some(elem) then Some([]) else None
    case VecPopBack(elem) => if VectorElementType(args[0], true) == Some(elem) then Some([elem]) else None
    case VecSwap(elem) =>
      if args[1] == U64 && args[2] == U64 && VectorElementType(args[0], true) == Some(elem)
      then Some([]) else None
  }

  /** The typing rule of an instruction: the types it pushes for the operand types it pops
      (deepest first), or None when it is ill-typed. */
  function Rule(ctx: FunctionContext, instr: Bytecode, args: Signature): (r: Option<Signature>)
    requires InstrInBounds(ctx, instr) && |args| == Pops(ctx, instr)
    ensures r.Some? ==> |r.value| == Pushes(ctx, instr)
  {
    if OnStructs(instr) then StructRule(ctx, instr, args)
    else if OnReferences(instr) then ReferenceRule(ctx, instr, args)
    else if OnVectors(instr) then VectorRule(ctx, instr, args)
    else PlainRule(ctx, instr, args)
  }

  /** The rule applied to the top of a stack. */
  function Apply(ctx: FunctionContext, instr: Bytecode, stack: Signature): Option<Signature>
    requires InstrInBounds(ctx, instr) && Pops(ctx, instr) <= |stack|
  {
    var base := |stack| - Pops(ctx, instr);
    var pushed := Rule(ctx, instr, stack[base..]);
    if pushed.None? then None else Some(stack[..base] + pushed.value)
  }

  predicate IsPlain(instr: Bytecode) {
    !OnStructs(instr) && !OnReferences(instr) && !OnVectors(instr) && !instr.Ret?
  }

  predicate IsBinary(instr: Bytecode) {
    instr.Arithmetic? || instr.Shift? || instr.Logical? || instr.Equality? || instr.Comparison?
  }

  lemma ApplyToTop(ctx: FunctionContext, instr: Bytecode, rest: Signature, args: Signature)
    requires InstrInBounds(ctx, instr) && |args| == Pops(ctx, instr)
    ensures Apply(ctx, instr, rest + args) ==
            match Rule(ctx, instr, args)
            case None => None
            case Some(pushed) => Some(rest + pushed)
    ensures args == [] ==> rest + args == rest
    ensures forall pushed :: Rule(ctx, instr, args) == Some(pushed) && pushed == [] ==> rest + pushed == rest
  {
    assert (rest + args)[|rest|..] == args && (rest + args)[..|rest|] == rest;
  }

  /** `verifier.stack` is a vector that every instruction changes in place. `Pop` has a
      precondition, as `stack.pop().unwrap()` has: callers must show the stack is not empty. */
  class TypeSafetyChecker {
    const ctx: FunctionContext
    var stack: Signature

    constructor (ctx: FunctionContext)
      ensures this.ctx == ctx && stack == []
    {
      this.ctx := ctx;
      stack := [];
    }

    method Pop() returns (operand: SignatureToken)
      requires |stack| > 0
      modifies this`stack
      ensures old(stack) == stack + [operand]
    {
      operand := stack[|stack| - 1];
      stack := stack[..|stack| - 1];
    }

    method Push(ty: SignatureToken)
      modifies this`stack
      ensures stack == old(stack) + [ty]
    {
      stack := stack + [ty];
    }

    /** Pops operands against the expected types, last one first, stopping at a mismatch. */
    method PopExpected(expected: Signature) returns (ok: bool)
      requires |stack| >= |expected|
      modifies this`stack
      ensures ok <==> old(stack[|stack| - |expected|..]) == expected
      ensures ok ==> stack == old(stack[..|stack| - |expected|])
    {
      ghost var before := stack;
      ghost var base := |stack| - |expected|;
      var i := |expected|;
      while i > 0
        invariant 0 <= i <= |expected|
        invariant stack == before[..base + i]
        invariant before[base + i..] == expected[i..]
      {
        var arg := Pop();
        i := i - 1;
        if arg != expected[i] {
          assert before[base..][i] != expected[i];
          return false;
        }
        assert before[base + i..] == [before[base + i]] + before[base + i + 1..];
      }
      return true;
    }

    method PushAll(tys: Signature)
      modifies this`stack
      ensures stack == old(stack) + tys
    {
      for i := 0 to |tys|
        invariant stack == old(stack) + tys[..i]
      {
        Push(tys[i]);
        assert tys[..i + 1] == tys[..i] + [tys[i]];
      }
    }

    /** Calls, packing and returning: operand lists of any length. */
    method VerifyList(instr: Bytecode) returns (ok: bool)
      requires InstrInBounds(ctx, instr) && |stack| >= Pops(ctx, instr)
      requires instr.Ret? || instr.Call? || instr.Pack? || instr.Unpack? || instr.VecPack? || instr.VecUnpack?
      modifies this`stack
      ensures ok <==> Apply(ctx, instr, old(stack)).Some?
      ensures ok ==> stack == Apply(ctx, instr, old(stack)).value
    {
      match instr {
        case Ret =>
          ok := PopExpected(ctx.results);
        case Call(f, typeArgs) =>
          ok := PopExpected(InstantiateAll(ctx.functions[f].parameters, typeArgs));
          if ok { PushAll(InstantiateAll(ctx.functions[f].results, typeArgs)); }
        case Pack(d, typeArgs) =>
          match ctx.structs[d].fieldInformation {
            case Native => ok := false;
            case Declared(fields) =>
              ok := PopExpected(InstantiateAll(fields, typeArgs));
              if ok { Push(MaterializeType(d, typeArgs)); }
          }
        case Unpack(d, typeArgs) =>
          var arg := Pop();
          if arg != MaterializeType(d, typeArgs) { return false; }
          match ctx.structs[d].fieldInformation {
            case Native => ok := false;
            case Declared(fields) =>
              ok := true;
              PushAll(InstantiateAll(fields, typeArgs));
          }
        case VecPack(elem, num) =>
          var i := 0;
          while i < num
            invariant 0 <= i <= num && stack == old(stack)[..|old(stack)| - i]
          {
            var _ := Pop();
            i := i + 1;
          }
          Push(Vector(elem));
          ok := true;
        case VecUnpack(elem, num) =>
          var vec := Pop();
          if vec != Vector(elem) { return false; }
          PushAll(seq(num, _ => elem));
          ok := true;
      }
    }

    /** Loads, locals, branches and operators on one operand. */
    method VerifyPlain(instr: Bytecode) returns (ok: bool)
      requires IsPlain(instr) && !IsBinary(instr)
      requires InstrInBounds(ctx, instr) && |stack| >= Pops(ctx, instr)
      modifies this`stack
      ensures ok <==> Apply(ctx, instr, old(stack)).Some?
      ensures ok ==> stack == Apply(ctx, instr, old(stack)).value
    {
      if Pops(ctx, instr) == 0 {
        ApplyToTop(ctx, instr, stack, []);
        ok := VerifyLoad(instr);
        return;
      }
      var operand := Pop();
      ApplyToTop(ctx, instr, stack, [operand]);
      match instr {
        case Pop => ok := Has(ctx, operand, Drop);
        case BrTrue(_) => ok := operand == Bool;
        case BrFalse(_) => ok := operand == Bool;
        case StLoc(l) => ok := operand == LocalAt(ctx, l);
        case Abort => ok := operand == U64;
        case CastU8 => ok := operand.IsInteger(); if ok { Push(U8); }
        case CastU64 => ok := operand.IsInteger(); if ok { Push(U64); }
        case CastU128 => ok := operand.IsInteger(); if ok { Push(U128); }
        case Not => ok := operand == Bool; if ok { Push(Bool); }
      }
    }

    method VerifyLoad(instr: Bytecode) returns (ok: bool)
      requires IsPlain(instr) && InstrInBounds(ctx, instr) && Pops(ctx, instr) == 0
      modifies this`stack
      ensures ok <==> Rule(ctx, instr, []).Some?
      ensures ok ==> stack == old(stack) + Rule(ctx, instr, []).value
    {
      ok := true;
      match instr {
        case Branch(_) =>
        case Nop =>
        case LdU8 => Push(U8);
        case LdU64 => Push(U64);
        case LdU128 => Push(U128);
        case LdTrue => Push(Bool);
        case LdFalse => Push(Bool);
        case LdConst(c) => Push(ctx.constants[c]);
        case CopyLoc(l) =>
          ok := Has(ctx, LocalAt(ctx, l), Copy);
          if ok { Push(LocalAt(ctx, l)); }
        case MoveLoc(l) => Push(LocalAt(ctx, l));
      }
    }

    /** The binary operators: the right operand is popped first. */
    method VerifyBinary(instr: Bytecode) returns (ok: bool)
      requires IsBinary(instr) && |stack| >= Pops(ctx, instr)
      modifies this`stack
      ensures ok <==> Apply(ctx, instr, old(stack)).Some?
      ensures ok ==> stack == Apply(ctx, instr, old(stack)).value
    {
      var operand1 := Pop();
      var operand2 := Pop();
      ApplyToTop(ctx, instr, stack, [operand2, operand1]);
      match instr {
        case Arithmetic =>
          ok := operand1.IsInteger() && operand1 == operand2;
          if ok { Push(operand1); }
        case Shift =>
          ok := operand2.IsInteger() && operand1 == U8;
          if ok { Push(operand2); }
        case Logical =>
          ok := operand1 == Bool && operand2 == Bool;
          if ok { Push(Bool); }
        case Equality =>
          ok := Has(ctx, operand1, Drop) && operand1 == operand2;
          if ok { Push(Bool); }
        case Comparison =>
          ok := operand1.IsInteger() && operand1 == operand2;
          if ok { Push(Bool); }
      }
    }

    /** `exists` and `move_from`: the ability is looked at before the address is popped. */
    method VerifyGlobal(instr: Bytecode) returns (ok: bool)
      requires instr.Exists? || instr.MoveFrom?
      requires InstrInBounds(ctx, instr) && |stack| >= 1
      modifies this`stack
      ensures ok <==> Apply(ctx, instr, old(stack)).Some?
      ensures ok ==> stack == Apply(ctx, instr, old(stack)).value
    {
      ApplyToTop(ctx, instr, stack[..|stack| - 1], [stack[|stack| - 1]]);
      assert stack == stack[..|stack| - 1] + [stack[|stack| - 1]];
      var structType := MaterializeType(instr.def, instr.typeArgs);
      if !Has(ctx, structType, Key) { return false; }
      var operand := Pop();
      ok := operand == Address;
      if ok { Push(if instr.Exists? then Bool else structType); }
    }

    method BorrowGlobal(mutable: bool, d: nat, typeArgs: Signature) returns (ok: bool)
      requires d < |ctx.structs| && |stack| >= 1
      modifies this`stack
      ensures ok <==> Apply(ctx, Bytecode.BorrowGlobal(mutable, d, typeArgs), old(stack)).Some?
      ensures ok ==> stack == Apply(ctx, Bytecode.BorrowGlobal(mutable, d, typeArgs), old(stack)).value
    {
      var operand := Pop();
      ApplyToTop(ctx, Bytecode.BorrowGlobal(mutable, d, typeArgs), stack, [operand]);
      if operand != Address { return false; }
      var structType := MaterializeType(d, typeArgs);
      if !Has(ctx, structType, Key) { return false; }
      Push(Borrowed(mutable, structType));
      return true;
    }

    method MoveTo(d: nat, typeArgs: Signature) returns (ok: bool)
      requires d < |ctx.structs| && |stack| >= 2
      modifies this`stack
      ensures ok <==> Apply(ctx, Bytecode.MoveTo(d, typeArgs), old(stack)).Some?
      ensures ok ==> stack == Apply(ctx, Bytecode.MoveTo(d, typeArgs), old(stack)).value
    {
      var structType := MaterializeType(d, typeArgs);
      ghost var operands := stack[|stack| - 2..];
      ApplyToTop(ctx, Bytecode.MoveTo(d, typeArgs), stack[..|stack| - 2], operands);
      assert stack == stack[..|stack| - 2] + operands;
      if !Has(ctx, structType, Key) { return false; }
      var keyStructOperand := Pop();
      var signerReferenceOperand := Pop();
      if keyStructOperand != structType { return false; }
      ok := signerReferenceOperand.Reference? && signerReferenceOperand.inner == Signer;
    }

    method BorrowLoc(mutable: bool, l: nat) returns (ok: bool)
      requires l < |ctx.parameters| + |ctx.locals|
      modifies this`stack
      ensures ok <==> Apply(ctx, Bytecode.BorrowLoc(mutable, l), old(stack)).Some?
      ensures ok ==> stack == Apply(ctx, Bytecode.BorrowLoc(mutable, l), old(stack)).value
    {
      ApplyToTop(ctx, Bytecode.BorrowLoc(mutable, l), stack, []);
      if LocalAt(ctx, l).IsReference() { return false; }
      Push(Borrowed(mutable, LocalAt(ctx, l)));
      return true;
    }

    method BorrowField(mutable: bool, d: nat, field: nat, typeArgs: Signature) returns (ok: bool)
      requires InstrInBounds(ctx, Bytecode.BorrowField(mutable, d, field, typeArgs)) && |stack| >= 1
      modifies this`stack
      ensures ok <==> Apply(ctx, Bytecode.BorrowField(mutable, d, field, typeArgs), old(stack)).Some?
      ensures ok ==> stack == Apply(ctx, Bytecode.BorrowField(mutable, d, field, typeArgs), old(stack)).value
    {
      var operand := Pop();
      ApplyToTop(ctx, Bytecode.BorrowField(mutable, d, field, typeArgs), stack, [operand]);
      if mutable && !operand.MutableReference? { return false; }
      var expectedType := MaterializeType(d, typeArgs);
      if !operand.IsReference() || operand.inner != expectedType { return false; }
      match ctx.structs[d].fieldInformation {
        case Native => ok := false;
        case Declared(fields) =>
          ok := true;
          Push(Borrowed(mutable, Instantiate(fields[field], typeArgs)));
      }
    }

    /** Using a reference that is on the stack. */
    method VerifyDereference(instr: Bytecode) returns (ok: bool)
      requires instr.FreezeRef? || instr.ReadRef? || instr.WriteRef?
      requires |stack| >= Pops(ctx, instr)
      modifies this`stack
      ensures ok <==> Apply(ctx, instr, old(stack)).Some?
      ensures ok ==> stack == Apply(ctx, instr, old(stack)).value
    {
      var refOperand := Pop();
      match instr {
        case FreezeRef =>
          ApplyToTop(ctx, instr, stack, [refOperand]);
          ok := refOperand.MutableReference?;
          if ok { Push(Reference(refOperand.inner)); }
        case ReadRef =>
          ApplyToTop(ctx, instr, stack, [refOperand]);
          if !refOperand.IsReference() { return false; }
          ok := Has(ctx, refOperand.inner, Copy);
          if ok { Push(refOperand.inner); }
        case WriteRef =>
          var valOperand := Pop();
          ApplyToTop(ctx, instr, stack, [valOperand, refOperand]);
          if !refOperand.MutableReference? { return false; }
          if !Has(ctx, refOperand.inner, Drop) { return false; }
          ok := valOperand == refOperand.inner;
      }
    }

    /** Vector instructions on one operand, a reference to a vector. */
    method VerifyVector(instr: Bytecode) returns (ok: bool)
      requires instr.VecLen? || instr.VecPopBack?
      requires |stack| >= Pops(ctx, instr)
      modifies this`stack
      ensures ok <==> Apply(ctx, instr, old(stack)).Some?
      ensures ok ==> stack == Apply(ctx, instr, old(stack)).value
    {
      var operandVec := Pop();
      ApplyToTop(ctx, instr, stack, [operandVec]);
      match instr {
        case VecLen(declared) =>
          ok := VectorElementType(operandVec, false) == Some(declared);
          if ok { Push(U64); }
        case VecPopBack(declared) =>
          ok := VectorElementType(operandVec, true) == Some(declared);
          if ok { Push(declared); }
      }
    }

    method BorrowVectorElement(declared: SignatureToken, mutRefOnly: bool) returns (ok: bool)
      requires |stack| >= 2
      modifies this`stack
      ensures ok <==> Apply(ctx, VecBorrow(mutRefOnly, declared), old(stack)).Some?
      ensures ok ==> stack == Apply(ctx, VecBorrow(mutRefOnly, declared), old(stack)).value
    {
      var operandIdx := Pop();
      var operandVec := Pop();
      ApplyToTop(ctx, VecBorrow(mutRefOnly, declared), stack, [operandVec, operandIdx]);
      if operandIdx != U64 { return false; }
      ok := VectorElementType(operandVec, mutRefOnly) == Some(declared);
      if ok { Push(Borrowed(mutRefOnly, declared)); }
    }

    /** The changes in place: nothing is pushed. */
    method VerifyVectorChange(instr: Bytecode) returns (ok: bool)
      requires instr.VecPushBack? || instr.VecSwap?
      requires |stack| >= Pops(ctx, instr)
      modifies this`stack
      ensures ok <==> Apply(ctx, instr, old(stack)).Some?
      ensures ok ==> stack == Apply(ctx, instr, old(stack)).value
    {
      var top := Pop();
      if instr.VecPushBack? {
        var operandVec := Pop();
        ApplyToTop(ctx, instr, stack, [operandVec, top]);
        ok := instr.elemType == top && VectorElementType(operandVec, true) == Some(instr.elemType);
      } else {
        var operandIdx1 := Pop();
        var operandVec := Pop();
        ApplyToTop(ctx, instr, stack, [operandVec, operandIdx1, top]);
        if operandIdx1 != U64 || top != U64 { return false; }
        ok := VectorElementType(operandVec, true) == Some(instr.elemType);
      }
    }

    /** One instruction. The precondition on the height is what makes every `unwrap` succeed. */
    method VerifyInstr(instr: Bytecode) returns (ok: bool)
      requires InstrInBounds(ctx, instr) && |stack| >= Pops(ctx, instr)
      modifies this`stack
      ensures ok <==> Apply(ctx, instr, old(stack)).Some?
      ensures ok ==> stack == Apply(ctx, instr, old(stack)).value
    {
      if instr.Ret? || instr.Call? || instr.Pack? || instr.Unpack? || instr.VecPack? || instr.VecUnpack? {
        ok := VerifyList(instr);
      } else if IsBinary(instr) {
        ok := VerifyBinary(instr);
      } else if instr.Exists? || instr.MoveFrom? {
        ok := VerifyGlobal(instr);
      } else if instr.BorrowGlobal? {
        ok := BorrowGlobal(instr.mutable, instr.def, instr.typeArgs);
      } else if instr.MoveTo? {
        ok := MoveTo(instr.def, instr.typeArgs);
      } else if instr.BorrowLoc? {
        ok := BorrowLoc(instr.mutable, instr.local);
      } else if instr.BorrowField? {
        ok := BorrowField(instr.mutable, instr.def, instr.field, instr.typeArgs);
      } else if instr.FreezeRef? || instr.ReadRef? || instr.WriteRef? {
        ok := VerifyDereference(instr);
      } else if instr.VecLen? || instr.VecPopBack? {
        ok := VerifyVector(instr);
      } else if instr.VecBorrow? {
        ok := BorrowVectorElement(instr.elemType, instr.mutable);
      } else if OnVectors(instr) {
        ok := VerifyVectorChange(instr);
      } else {
        ok := VerifyPlain(instr);
      }
    }
  }

  // ---------------------------------------------------------------- the pass over a function

  /** The abstract stack before `pc`, built up from the entry of its block; None once an
      instruction of the block is ill-typed. */
  ghost function StackAt(ctx: FunctionContext, pc: nat): Option<Signature>
    requires InBounds(ctx) && pc < |ctx.code|
    decreases pc, 0
  {
    if IsLeader(ctx.code, pc) then Some([]) else StackAfter(ctx, pc - 1)
  }

  ghost function StackAfter(ctx: FunctionContext, pc: nat): Option<Signature>
    requires InBounds(ctx) && pc < |ctx.code|
    decreases pc, 1
  {
    match StackAt(ctx, pc)
    case None => None
    case Some(stack) =>
      if |stack| < Pops(ctx, ctx.code[pc]) then None else Apply(ctx, ctx.code[pc], stack)
  }

  ghost predicate TypedAt(ctx: FunctionContext, pc: nat)
    requires InBounds(ctx) && pc < |ctx.code|
  {
    StackAfter(ctx, pc).Some?
  }

  ghost predicate WellTyped(ctx: FunctionContext)
    requires InBounds(ctx)
  {
    forall pc :: 0 <= pc < |ctx.code| ==> TypedAt(ctx, pc)
  }

  lemma ApplyHeight(ctx: FunctionContext, instr: Bytecode, stack: Signature)
    requires InstrInBounds(ctx, instr) && Pops(ctx, instr) <= |stack|
    ensures Apply(ctx, instr, stack).Some? ==>
              |Apply(ctx, instr, stack).value| == |stack| - Pops(ctx, instr) + Pushes(ctx, instr)
  {
  }

  /** The type stack has the height that the stack-usage pass computed. */
  lemma {:induction false} StackHeight(ctx: FunctionContext, pc: nat)
    requires InBounds(ctx) && pc < |ctx.code|
    ensures StackAt(ctx, pc).Some? ==>
              |StackAt(ctx, pc).value| == HeightAt(ctx.code, Effects(ctx), pc)
    ensures StackAfter(ctx, pc).Some? ==>
              |StackAfter(ctx, pc).value| == HeightAfter(ctx.code, Effects(ctx), pc)
    decreases pc
  {
    if !IsLeader(ctx.code, pc) { StackHeight(ctx, pc - 1); }
    if StackAfter(ctx, pc).Some? {
      ApplyHeight(ctx, ctx.code[pc], StackAt(ctx, pc).value);
    }
  }

  /** In a balanced function the checker never meets an empty stack where it pops, and each
      block leaves the shared stack empty for the next. */
  lemma BalancedStacks(ctx: FunctionContext, pc: nat)
    requires InBounds(ctx) && Balanced(ctx.code, Effects(ctx)) && pc < |ctx.code|
    ensures StackAt(ctx, pc).Some? ==> |StackAt(ctx, pc).value| >= Pops(ctx, ctx.code[pc])
    ensures StackAfter(ctx, pc).Some? && EndsBlock(ctx.code, pc) ==> StackAfter(ctx, pc).value == []
  {
    StackHeight(ctx, pc);
    assert BalancedAt(ctx.code, Effects(ctx), pc);
  }

  ghost predicate RangeWellTyped(ctx: FunctionContext, lo: nat, hi: nat)
    requires InBounds(ctx) && hi <= |ctx.code|
    decreases hi
  {
    hi <= lo || (RangeWellTyped(ctx, lo, hi - 1) && TypedAt(ctx, hi - 1))
  }

  lemma {:induction false} RangeMeansEach(ctx: FunctionContext, lo: nat, hi: nat, pc: nat)
    requires InBounds(ctx) && lo <= pc < hi <= |ctx.code|
    requires RangeWellTyped(ctx, lo, hi)
    ensures TypedAt(ctx, pc)
  {
    if pc < hi - 1 { RangeMeansEach(ctx, lo, hi - 1, pc); }
  }

  lemma {:induction false} EachMeansRange(ctx: FunctionContext, lo: nat, hi: nat)
    requires InBounds(ctx) && hi <= |ctx.code| && WellTyped(ctx)
    ensures RangeWellTyped(ctx, lo, hi)
  {
    if lo < hi { EachMeansRange(ctx, lo, hi - 1); }
  }

  lemma {:induction false} RangeFails(ctx: FunctionContext, lo: nat, mid: nat, hi: nat)
    requires InBounds(ctx) && lo < mid <= hi <= |ctx.code|
    requires !RangeWellTyped(ctx, lo, mid)
    ensures !RangeWellTyped(ctx, lo, hi)
    decreases hi
  {
    if mid < hi { RangeFails(ctx, lo, mid, hi - 1); }
  }

  ghost predicate BlockWellTyped(ctx: FunctionContext, b: BasicBlock)
    requires InBounds(ctx)
  {
    b.exit < |ctx.code| && RangeWellTyped(ctx, b.entry, b.exit + 1)
  }

  lemma WellTypedInBlock(ctx: FunctionContext, cfg: Cfg, pc: nat)
    requires InBounds(ctx) && IsCfg(ctx.code, cfg) && pc < |ctx.code|
    ensures BlockEntry(ctx.code, pc) in cfg
    ensures BlockWellTyped(ctx, cfg[BlockEntry(ctx.code, pc)]) ==> TypedAt(ctx, pc)
  {
    BlocksPartition(ctx.code, cfg, pc);
    var b := BlockEntry(ctx.code, pc);
    assert CfgAt(ctx.code, cfg, b);
    if BlockWellTyped(ctx, cfg[b]) { RangeMeansEach(ctx, b, cfg[b].exit + 1, pc); }
  }

  lemma BlockInWellTyped(ctx: FunctionContext, cfg: Cfg, b: nat)
    requires InBounds(ctx) && IsCfg(ctx.code, cfg) && b in cfg && WellTyped(ctx)
    ensures BlockWellTyped(ctx, cfg[b])
  {
    assert CfgAt(ctx.code, cfg, b);
    EachMeansRange(ctx, b, cfg[b].exit + 1);
  }

  ghost predicate BlocksWellTyped(ctx: FunctionContext, cfg: Cfg)
    requires InBounds(ctx)
  {
    forall b :: b in cfg ==> BlockWellTyped(ctx, cfg[b])
  }

  /** Typing every block is typing every instruction. */
  lemma BlocksCoverCode(ctx: FunctionContext, cfg: Cfg)
    requires InBounds(ctx) && IsCfg(ctx.code, cfg)
    ensures BlocksWellTyped(ctx, cfg) <==> WellTyped(ctx)
  {
    if BlocksWellTyped(ctx, cfg) {
      forall pc | 0 <= pc < |ctx.code| ensures TypedAt(ctx, pc) {
        WellTypedInBlock(ctx, cfg, pc);
      }
    }
    if WellTyped(ctx) {
      forall b | b in cfg ensures BlockWellTyped(ctx, cfg[b]) { BlockInWellTyped(ctx, cfg, b); }
    }
  }

  /** Checks every block with the one shared stack. All calls of `VerifyInstr` meet its
      precondition, so no `unwrap` on an empty stack can fail; acceptance is per-block typing. */
  method Verify(ctx: FunctionContext, cfg: Cfg) returns (ok: bool)
    requires InBounds(ctx) && IsCfg(ctx.code, cfg) && Balanced(ctx.code, Effects(ctx))
    ensures ok <==> WellTyped(ctx)
  {
    BlocksCoverCode(ctx, cfg);
    var verifier := new TypeSafetyChecker(ctx);
    var todo := cfg.Keys;
    while todo != {}
      invariant verifier.ctx == ctx && verifier.stack == []
      invariant todo <= cfg.Keys
      invariant forall b :: b in cfg && b !in todo ==> BlockWellTyped(ctx, cfg[b])
      decreases todo
    {
      var b :| b in todo;
      assert CfgAt(ctx.code, cfg, b);
      ok := VerifyBlock(verifier, cfg[b]);
      if !ok { return; }
      todo := todo - {b};
    }
    return true;
  }

  method VerifyBlock(verifier: TypeSafetyChecker, b: BasicBlock) returns (ok: bool)
    requires InBounds(verifier.ctx) && Balanced(verifier.ctx.code, Effects(verifier.ctx))
    requires IsBlock(verifier.ctx.code, b) && verifier.stack == []
    modifies verifier`stack
    ensures ok <==> BlockWellTyped(verifier.ctx, b)
    ensures ok ==> verifier.stack == []
  {
    ghost var ctx := verifier.ctx;
    var offset := b.entry;
    ok := true;
    while offset <= b.exit
      invariant b.entry <= offset <= b.exit + 1
      invariant RangeWellTyped(ctx, b.entry, offset)
      invariant offset <= b.exit ==> StackAt(ctx, offset) == Some(verifier.stack)
      invariant offset == b.exit + 1 ==> verifier.stack == []
    {
      ok := VerifyNext(verifier, b, offset);
      if !ok { return; }
      offset := offset + 1;
    }
  }

  method VerifyNext(verifier: TypeSafetyChecker, b: BasicBlock, offset: nat) returns (ok: bool)
    requires InBounds(verifier.ctx) && Balanced(verifier.ctx.code, Effects(verifier.ctx))
    requires IsBlock(verifier.ctx.code, b) && b.entry <= offset <= b.exit
    requires RangeWellTyped(verifier.ctx, b.entry, offset)
    requires StackAt(verifier.ctx, offset) == Some(verifier.stack)
    modifies verifier`stack
    ensures ok ==> RangeWellTyped(verifier.ctx, b.entry, offset + 1)
    ensures !ok ==> !BlockWellTyped(verifier.ctx, b)
    ensures ok && offset < b.exit ==> StackAt(verifier.ctx, offset + 1) == Some(verifier.stack)
    ensures ok && offset == b.exit ==> verifier.stack == []
  {
    ok := VerifyOffset(verifier, b, offset);
    OneMoreOffset(verifier.ctx, b, offset);
  }

  lemma OneMoreOffset(ctx: FunctionContext, b: BasicBlock, offset: nat)
    requires InBounds(ctx) && b.entry <= offset <= b.exit < |ctx.code|
    requires RangeWellTyped(ctx, b.entry, offset)
    ensures if StackAfter(ctx, offset).Some? then RangeWellTyped(ctx, b.entry, offset + 1)
            else !BlockWellTyped(ctx, b)
  {
    if StackAfter(ctx, offset).None? { RangeFails(ctx, b.entry, offset + 1, b.exit + 1); }
  }

  method VerifyOffset(verifier: TypeSafetyChecker, b: BasicBlock, offset: nat) returns (ok: bool)
    requires InBounds(verifier.ctx) && Balanced(verifier.ctx.code, Effects(verifier.ctx))
    requires IsBlock(verifier.ctx.code, b) && b.entry <= offset <= b.exit
    requires StackAt(verifier.ctx, offset) == Some(verifier.stack)
    modifies verifier`stack
    ensures ok <==> StackAfter(verifier.ctx, offset).Some?
    ensures ok && offset < b.exit ==> StackAt(verifier.ctx, offset + 1) == Some(verifier.stack)
    ensures ok && offset == b.exit ==> verifier.stack == []
  {
    BlockStep(verifier.ctx, b, offset, verifier.stack);
    ok := verifier.VerifyInstr(verifier.ctx.code[offset]);
  }

  /** One instruction of a block, as the pass and the static stacks see it. */
  lemma BlockStep(ctx: FunctionContext, b: BasicBlock, pc: nat, stack: Signature)
    requires InBounds(ctx) && Balanced(ctx.code, Effects(ctx))
    requires IsBlock(ctx.code, b) && b.entry <= pc <= b.exit
    requires StackAt(ctx, pc) == Some(stack)
    ensures |stack| >= Pops(ctx, ctx.code[pc])
    ensures StackAfter(ctx, pc) == Apply(ctx, ctx.code[pc], stack)
    ensures pc < b.exit ==> StackAt(ctx, pc + 1) == StackAfter(ctx, pc)
    ensures pc == b.exit && StackAfter(ctx, pc).Some? ==> StackAfter(ctx, pc).value == []
  {
    BalancedStacks(ctx, pc);
    assert pc < b.exit ==> !IsLeader(ctx.code, pc + 1);
  }
}
