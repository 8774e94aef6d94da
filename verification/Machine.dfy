/** The machine: what each instruction does to a function frame and to memory, following the stack
    transitions that the binary format documents.

    A frame runs with memory of three kinds: its locals, the resources in storage, and memory that a
    caller lent. A call is one step that consumes its arguments, returns any values of the declared
    result types, and may change storage, lent memory and the locals that an argument refers to. Which
    local is available when is left open, so every schedule of moves and stores is a run. */
module Machine {
  import opened Collections
  import opened FileFormat
  import opened StackUsage
  import opened Abilities
  import opened TypeSafety
  import opened Values

  /** A run's function, type arguments, and the types of the memory that it was lent. */
  datatype Running = Running(ctx: FunctionContext, actuals: Signature, lent: map<nat, SignatureToken>)

  datatype Frame = Frame(pc: nat, stack: seq<Value>, mem: Memory)

  // ---------------------------------------------------------------- instructions

  predicate OneScalar(out: seq<Value>, ty: SignatureToken) {
    |out| == 1 && out[0].Scalar? && out[0].ty == ty
  }

  /** Loads, locals, branches and operators, whose numeric results are left open. Operands are given
      deepest first. */
  ghost predicate ExecutesPlain(env: Running, instr: Bytecode, args: seq<Value>, mem: Memory,
                                out: seq<Value>, mem': Memory)
    requires IsPlain(instr) && InstrInBounds(env.ctx, instr) && |args| == Pops(env.ctx, instr)
  {
    match instr
    case Pop | BrTrue(_) | BrFalse(_) | Branch(_) | Nop => out == [] && mem' == mem
    case Abort => false
    case StLoc(l) => out == [] && mem' == mem[LocalRoot(l) := args[0]]
    case CopyLoc(l) => LocalRoot(l) in mem && out == [mem[LocalRoot(l)]] && mem' == mem
    case MoveLoc(l) => LocalRoot(l) in mem && out == [mem[LocalRoot(l)]] && mem' == mem - {LocalRoot(l)}
    case LdU8 | CastU8 => OneScalar(out, U8) && mem' == mem
    case LdU64 | CastU64 => OneScalar(out, U64) && mem' == mem
    case LdU128 | CastU128 => OneScalar(out, U128) && mem' == mem
    case LdConst(c) => HaveTypes(env.ctx.structs, out, [env.ctx.constants[c]]) && mem' == mem
    case Arithmetic => args[1].Scalar? && OneScalar(out, args[1].ty) && mem' == mem
    case Shift => args[0].Scalar? && OneScalar(out, args[0].ty) && mem' == mem
    case LdTrue | LdFalse | Logical | Not | Equality | Comparison => OneScalar(out, Bool) && mem' == mem
  }

  /** The type of a struct instance under the run's type arguments. */
  function InstanceType(env: Running, d: nat, typeArgs: Signature): SignatureToken {
    Instantiate(MaterializeType(d, typeArgs), env.actuals)
  }

  ghost predicate ExecutesStruct(env: Running, instr: Bytecode, args: seq<Value>, mem: Memory,
                                 out: seq<Value>, mem': Memory)
    requires OnStructs(instr) && InstrInBounds(env.ctx, instr) && |args| == Pops(env.ctx, instr)
  {
    match instr
    case Call(f, typeArgs) => ExecutesCall(env, f, typeArgs, args, mem, out, mem')
    case Pack(d, typeArgs) =>
      out == [Instance(d, InstantiateAll(typeArgs, env.actuals), args)] && mem' == mem
    case Unpack(_, _) => args[0].Instance? && out == args[0].fields && mem' == mem
    case Exists(d, typeArgs) =>
      && args[0].Scalar? && mem' == mem
      && var root := StorageRoot(args[0].bits, InstanceType(env, d, typeArgs));
         out == [Scalar(Bool, if root in mem then 1 else 0)]
    case MoveFrom(d, typeArgs) =>
      && args[0].Scalar?
      && var root := StorageRoot(args[0].bits, InstanceType(env, d, typeArgs));
         root in mem && out == [mem[root]] && mem' == mem - {root}
  }

  /** The callee cannot get at the local. */
  predicate IsPrivate(args: seq<Value>, r: Root) {
    r.LocalRoot? && forall i :: 0 <= i < |args| && args[i].RefTo? ==> args[i].root != r
  }

  ghost predicate ExecutesCall(env: Running, f: nat, typeArgs: Signature, args: seq<Value>, mem: Memory,
                               out: seq<Value>, mem': Memory)
    requires f < |env.ctx.functions|
  {
    && HoldAll(env, out, InstantiateAll(InstantiateAll(env.ctx.functions[f].results, typeArgs), env.actuals))
    && MemoryTyped(env, mem')
    && forall r :: IsPrivate(args, r) ==> (r in mem' <==> r in mem) && (r in mem ==> mem'[r] == mem[r])
  }

  function Target(mem: Memory, ref: Value): Option<Value> {
    if ref.RefTo? then ReadPlace(mem, ref.root, ref.path) else None
  }

  function WriteTo(mem: Memory, ref: Value, w: Value): Memory
    requires Target(mem, ref).Some?
  {
    WritePlace(mem, ref.root, ref.path, w)
  }

  ghost predicate ExecutesReference(env: Running, instr: Bytecode, args: seq<Value>, mem: Memory,
                                    out: seq<Value>, mem': Memory)
    requires OnReferences(instr) && InstrInBounds(env.ctx, instr) && |args| == Pops(env.ctx, instr)
  {
    match instr
    case BorrowLoc(mutable, l) =>
      LocalRoot(l) in mem && out == [RefTo(mutable, LocalRoot(l), [])] && mem' == mem
    case FreezeRef => args[0].RefTo? && out == [args[0].(mutable := false)] && mem' == mem
    case ReadRef => Target(mem, args[0]).Some? && out == [Target(mem, args[0]).value] && mem' == mem
    case WriteRef => Target(mem, args[1]).Some? && out == [] && mem' == WriteTo(mem, args[1], args[0])
    case BorrowField(mutable, _, field, _) =>
      && Target(mem, args[0]).Some? && Target(mem, args[0]).value.Instance?
      && out == [RefTo(mutable, args[0].root, args[0].path + [field])] && mem' == mem
    case BorrowGlobal(mutable, d, typeArgs) =>
      && args[0].Scalar? && mem' == mem
      && var root := StorageRoot(args[0].bits, InstanceType(env, d, typeArgs));
         root in mem && out == [RefTo(mutable, root, [])]
    case MoveTo(d, typeArgs) =>
      && Target(mem, args[0]).Some? && Target(mem, args[0]).value.Scalar?
      && var root := StorageRoot(Target(mem, args[0]).value.bits, InstanceType(env, d, typeArgs));
         root !in mem && out == [] && mem' == mem[root := args[1]]
  }

  /** The items of the vector that the reference names. */
  function ItemsOf(mem: Memory, ref: Value): Option<seq<Value>> {
    match Target(mem, ref)
    case Some(VectorOf(_, items)) => Some(items)
    case _ => None
  }

  function WithItems(mem: Memory, ref: Value, items: seq<Value>): Memory
    requires ItemsOf(mem, ref).Some?
  {
    WriteTo(mem, ref, Target(mem, ref).value.(items := items))
  }

  /** Vector instructions except `VecPack`, whose typing rule looks at no operand. */
  ghost predicate ExecutesVector(env: Running, instr: Bytecode, args: seq<Value>, mem: Memory,
                                 out: seq<Value>, mem': Memory)
    requires OnVectors(instr) && InstrInBounds(env.ctx, instr) && |args| == Pops(env.ctx, instr)
  {
    match instr
    case VecPack(_, _) => false
    case VecUnpack(_, n) => args[0].VectorOf? && |args[0].items| == n && out == args[0].items && mem' == mem
    case VecLen(_) =>
      && ItemsOf(mem, args[0]).Some? && mem' == mem
      && out == [Scalar(U64, |ItemsOf(mem, args[0]).value|)]
    case VecBorrow(mutable, _) =>
      && ItemsOf(mem, args[0]).Some? && mem' == mem
      && args[1].Scalar? && args[1].bits < |ItemsOf(mem, args[0]).value|
      && out == [RefTo(mutable, args[0].root, args[0].path + [args[1].bits])]
    case VecPushBack(_) =>
      && ItemsOf(mem, args[0]).Some? && out == []
      && mem' == WithItems(mem, args[0], ItemsOf(mem, args[0]).value + [args[1]])
    case VecPopBack(_) =>
      && ItemsOf(mem, args[0]).Some?
      && var items := ItemsOf(mem, args[0]).value;
         && items != [] && out == [items[|items| - 1]]
         && mem' == WithItems(mem, args[0], items[..|items| - 1])
    case VecSwap(_) =>
      && ItemsOf(mem, args[0]).Some? && out == [] && args[1].Scalar? && args[2].Scalar?
      && var items, i, j := ItemsOf(mem, args[0]).value, args[1].bits, args[2].bits;
         i < |items| && j < |items| && mem' == WithItems(mem, args[0], items[i := items[j]][j := items[i]])
  }

  /** What an instruction does with its operands and memory. Ret and Abort end the run. */
  ghost predicate Executes(env: Running, instr: Bytecode, args: seq<Value>, mem: Memory,
                           out: seq<Value>, mem': Memory)
    requires InstrInBounds(env.ctx, instr) && |args| == Pops(env.ctx, instr)
  {
    if instr.Ret? then false
    else if OnStructs(instr) then ExecutesStruct(env, instr, args, mem, out, mem')
    else if OnReferences(instr) then ExecutesReference(env, instr, args, mem, out, mem')
    else if OnVectors(instr) then ExecutesVector(env, instr, args, mem, out, mem')
    else ExecutesPlain(env, instr, args, mem, out, mem')
  }

  function Operands(env: Running, s: Frame): seq<Value>
    requires s.pc < |env.ctx.code| && InstrInBounds(env.ctx, env.ctx.code[s.pc])
    requires Pops(env.ctx, env.ctx.code[s.pc]) <= |s.stack|
  {
    s.stack[|s.stack| - Pops(env.ctx, env.ctx.code[s.pc])..]
  }

  ghost predicate FrameStep(env: Running, s: Frame, s': Frame)
    requires InBounds(env.ctx)
  {
    && Flows(env.ctx.code, s.pc, s'.pc)
    && Pops(env.ctx, env.ctx.code[s.pc]) <= |s.stack|
    && var base := |s.stack| - Pops(env.ctx, env.ctx.code[s.pc]);
    && base <= |s'.stack| && s'.stack[..base] == s.stack[..base]
    && Executes(env, env.ctx.code[s.pc], s.stack[base..], s.mem, s'.stack[base..], s'.mem)
  }

  // ---------------------------------------------------------------- typed frames

  /** No reference occurs in the type. */
  predicate NoReferences(ty: SignatureToken)
    decreases ty
  {
    match ty
    case Reference(_) | MutableReference(_) => false
    case Vector(elem) => NoReferences(elem)
    case StructInstantiation(_, typeArgs) => forall i :: 0 <= i < |typeArgs| ==> NoReferences(typeArgs[i])
    case _ => true
  }

  predicate NoneHasReferences(tys: Signature) {
    forall i :: 0 <= i < |tys| ==> NoReferences(tys[i])
  }

  /** References occur at the outside only. */
  predicate IsLocalType(ty: SignatureToken) {
    match ty
    case Reference(inner) => NoReferences(inner)
    case MutableReference(inner) => NoReferences(inner)
    case _ => NoReferences(ty)
  }

  function RootType(env: Running, r: Root): Option<SignatureToken> {
    match r
    case LocalRoot(l) =>
      if l < |env.ctx.parameters| + |env.ctx.locals| then Some(Instantiate(LocalAt(env.ctx, l), env.actuals)) else None
    case StorageRoot(_, ty) => Some(ty)
    case LentRoot(id) => if id in env.lent then Some(env.lent[id]) else None
  }

  function PlaceType(env: Running, r: Root, path: seq<nat>): Option<SignatureToken> {
    match RootType(env, r)
    case None => None
    case Some(ty) => PathType(env.ctx.structs, ty, path)
  }

  /** The reference names a place of the type, whether or not there is anything at the place now. */
  predicate RefersTo(env: Running, v: Value, inner: SignatureToken) {
    v.RefTo? && PlaceType(env, v.root, v.path) == Some(inner) && NoReferences(inner)
  }

  /** An operand or a local has the type. */
  predicate Holds(env: Running, v: Value, ty: SignatureToken) {
    match ty
    case Reference(inner) => RefersTo(env, v, inner) && !v.mutable
    case MutableReference(inner) => RefersTo(env, v, inner) && v.mutable
    case _ => HasType(env.ctx.structs, v, ty)
  }

  predicate HoldAll(env: Running, vs: seq<Value>, tys: Signature) {
    |vs| == |tys| && forall i :: 0 <= i < |vs| ==> Holds(env, vs[i], tys[i])
  }

  predicate ClosedHas(env: Running, ty: SignatureToken, a: Ability) {
    a in Known(TypeAbilities(env.ctx.structs, ty, []))
  }

  /** Every root holds a value of its type; what is in storage has Key. */
  predicate RootTyped(env: Running, mem: Memory, r: Root)
    requires r in mem
  {
    match r
    case LocalRoot(_) => RootType(env, r).Some? && Holds(env, mem[r], RootType(env, r).value)
    case StorageRoot(_, ty) => HasType(env.ctx.structs, mem[r], ty) && ClosedHas(env, ty, Key)
    case LentRoot(_) => RootType(env, r).Some? && HasType(env.ctx.structs, mem[r], RootType(env, r).value)
  }

  ghost predicate MemoryTyped(env: Running, mem: Memory) {
    forall r :: r in mem ==> RootTyped(env, mem, r)
  }

  function StructConstraints(decl: StructDecl): (r: seq<AbilitySet>)
    ensures |r| == |decl.typeParameters|
  {
    seq(|decl.typeParameters|, i requires 0 <= i < |decl.typeParameters| => decl.typeParameters[i].constraints)
  }

  predicate AllParametersBelow(tys: Signature, n: nat) {
    forall i :: 0 <= i < |tys| ==> ParametersBelow(tys[i], n)
  }

  /** What the bounds and signature checks established about an instruction's type arguments. */
  ghost predicate InstantiationOk(ctx: FunctionContext, instr: Bytecode)
    requires InstrInBounds(ctx, instr)
  {
    match instr
    case Pack(d, typeArgs) => StructInstanceOk(ctx, d, typeArgs)
    case Unpack(d, typeArgs) => StructInstanceOk(ctx, d, typeArgs)
    case BorrowField(_, d, _, typeArgs) => StructInstanceOk(ctx, d, typeArgs)
    case BorrowGlobal(_, d, typeArgs) => StructInstanceOk(ctx, d, typeArgs)
    case MoveTo(d, typeArgs) => StructInstanceOk(ctx, d, typeArgs)
    case MoveFrom(d, typeArgs) => StructInstanceOk(ctx, d, typeArgs)
    case Exists(d, typeArgs) => StructInstanceOk(ctx, d, typeArgs)
    case LdConst(c) => ctx.constants[c].IsValidForConstant()
    case _ => OnVectors(instr) ==> NoReferences(instr.elemType)
  }

  ghost predicate StructInstanceOk(ctx: FunctionContext, d: nat, typeArgs: Signature)
    requires d < |ctx.structs|
  {
    && CheckGenericInstance(ctx.structs, typeArgs, StructConstraints(ctx.structs[d]), ctx.typeParameters)
    && NoneHasReferences(typeArgs)
    && (ctx.structs[d].fieldInformation.Declared? ==>
          AllParametersBelow(ctx.structs[d].fieldInformation.fields, |typeArgs|))
  }

  predicate FieldsHaveNoReferences(structs: seq<StructDecl>) {
    forall h :: 0 <= h < |structs| && structs[h].fieldInformation.Declared? ==>
      NoneHasReferences(structs[h].fieldInformation.fields)
  }

  /** The run's type arguments satisfy the function's constraints, and the signatures are checked. */
  ghost predicate IsRunning(env: Running) {
    && Satisfies(env.ctx.structs, env.actuals, env.ctx.typeParameters, [])
    && NoneHasReferences(env.actuals)
    && AcceptedStructs(env.ctx.structs) && FieldsHaveNoReferences(env.ctx.structs)
    && (forall l: nat :: l < |env.ctx.parameters| + |env.ctx.locals| ==> IsLocalType(LocalAt(env.ctx, l)))
  }

  /** A checked function, run with type arguments that satisfy its constraints. */
  ghost predicate Checked(env: Running) {
    && InBounds(env.ctx) && Balanced(env.ctx.code, Effects(env.ctx)) && WellTyped(env.ctx)
    && IsRunning(env)
    && forall pc :: 0 <= pc < |env.ctx.code| ==> InstantiationOk(env.ctx, env.ctx.code[pc])
  }

  ghost predicate FrameTyped(env: Running, s: Frame)
    requires InBounds(env.ctx)
  {
    && s.pc < |env.ctx.code|
    && StackAt(env.ctx, s.pc).Some?
    && HoldAll(env, s.stack, InstantiateAll(StackAt(env.ctx, s.pc).value, env.actuals))
    && MemoryTyped(env, s.mem)
  }
}
