/** The stack-usage pass: every block leaves the operand stack as it found it. */
module StackUsage {
  import opened FileFormat
  import opened ControlFlowGraph

  /** What the passes over one function can see: the tables and the function's own signature. */
  datatype FunctionContext = FunctionContext(
    structs: seq<StructDecl>,
    functions: seq<FunctionHandle>,
    constants: seq<SignatureToken>,
    parameters: Signature,
    locals: Signature,
    results: Signature,
    typeParameters: seq<AbilitySet>,
    code: Code)

  const U64_MODULUS := 0x1_0000_0000_0000_0000

  datatype Status = NegativeStackSizeWithinBlock | PositiveStackSizeAtBlockEnd

  datatype Verdict = Ok | Err(status: Status)

  /** The bounds checker's conclusion about one instruction. */
  predicate InstrInBounds(ctx: FunctionContext, instr: Bytecode) {
    match instr
    case LdConst(c) => c < |ctx.constants|
    case CopyLoc(l) => l < |ctx.parameters| + |ctx.locals|
    case MoveLoc(l) => l < |ctx.parameters| + |ctx.locals|
    case StLoc(l) => l < |ctx.parameters| + |ctx.locals|
    case BorrowLoc(_, l) => l < |ctx.parameters| + |ctx.locals|
    case Call(f, _) => f < |ctx.functions|
    case Pack(d, _) => d < |ctx.structs|
    case Unpack(d, _) => d < |ctx.structs|
    case BorrowField(_, d, field, _) =>
      && d < |ctx.structs|
      && (ctx.structs[d].fieldInformation.Declared? ==>
            field < |ctx.structs[d].fieldInformation.fields|)
    case BorrowGlobal(_, d, _) => d < |ctx.structs|
    case Exists(d, _) => d < |ctx.structs|
    case MoveFrom(d, _) => d < |ctx.structs|
    case MoveTo(d, _) => d < |ctx.structs|
    case VecPack(_, n) => n < U64_MODULUS
    case VecUnpack(_, n) => n < U64_MODULUS
    case _ => true
  }

  predicate InBounds(ctx: FunctionContext) {
    && |ctx.code| <= MAX_CODE_LENGTH
    && JumpsInBounds(ctx.code)
    && forall pc :: 0 <= pc < |ctx.code| ==> InstrInBounds(ctx, ctx.code[pc])
  }

  function FieldCount(decl: StructDecl): nat {
    match decl.fieldInformation
    case Native => 0
    case Declared(fields) => |fields|
  }

  /** How many operands an instruction takes, and how many results it leaves. */
  function Pops(ctx: FunctionContext, instr: Bytecode): nat
    requires InstrInBounds(ctx, instr)
  {
    match instr
    case Pop | BrTrue(_) | BrFalse(_) | StLoc(_) | Abort => 1
    case LdU8 | LdU64 | LdU128 | LdTrue | LdFalse | LdConst(_) => 0
    case CopyLoc(_) | MoveLoc(_) | BorrowLoc(_, _) => 0
    case Not | FreezeRef | ReadRef | CastU8 | CastU64 | CastU128 => 1
    case Exists(_, _) | BorrowGlobal(_, _, _) | BorrowField(_, _, _, _) | MoveFrom(_, _) => 1
    case VecLen(_) | VecPopBack(_) => 1
    case Arithmetic | Shift | Logical | Equality | Comparison => 2
    case VecPack(_, n) => n
    case VecUnpack(_, _) => 1
    case VecBorrow(_, _) => 2
    case MoveTo(_, _) | WriteRef | VecPushBack(_) => 2
    case VecSwap(_) => 3
    case Branch(_) | Nop => 0
    case Ret => |ctx.results|
    case Call(f, _) => |ctx.functions[f].parameters|
    case Pack(d, _) => FieldCount(ctx.structs[d])
    case Unpack(_, _) => 1
  }

  function Pushes(ctx: FunctionContext, instr: Bytecode): nat
    requires InstrInBounds(ctx, instr)
  {
    match instr
    case Pop | BrTrue(_) | BrFalse(_) | StLoc(_) | Abort => 0
    case LdU8 | LdU64 | LdU128 | LdTrue | LdFalse | LdConst(_) => 1
    case CopyLoc(_) | MoveLoc(_) | BorrowLoc(_, _) => 1
    case Not | FreezeRef | ReadRef | CastU8 | CastU64 | CastU128 => 1
    case Exists(_, _) | BorrowGlobal(_, _, _) | BorrowField(_, _, _, _) | MoveFrom(_, _) => 1
    case VecLen(_) | VecPopBack(_) => 1
    case Arithmetic | Shift | Logical | Equality | Comparison => 1
    case VecPack(_, _) => 1
    case VecUnpack(_, n) => n
    case VecBorrow(_, _) => 1
    case MoveTo(_, _) | WriteRef | VecPushBack(_) => 0
    case VecSwap(_) => 0
    case Branch(_) | Nop => 0
    case Ret => 0
    case Call(f, _) => |ctx.functions[f].results|
    case Pack(_, _) => 1
    case Unpack(d, _) => FieldCount(ctx.structs[d])
  }

  datatype Effect = Effect(pops: nat, pushes: nat)

  /** The effect of every instruction of the function. */
  function Effects(ctx: FunctionContext): (effects: seq<Effect>)
    requires InBounds(ctx)
    ensures |effects| == |ctx.code|
    ensures forall pc :: 0 <= pc < |ctx.code| ==>
              effects[pc] == Effect(Pops(ctx, ctx.code[pc]), Pushes(ctx, ctx.code[pc]))
  {
    seq(|ctx.code|, pc requires 0 <= pc < |ctx.code| =>
      Effect(Pops(ctx, ctx.code[pc]), Pushes(ctx, ctx.code[pc])))
  }

  // ---------------------------------------------------------------- the pass

  /** The pass's 64-bit counter after the instructions from `start` up to `end`; None once an
      instruction takes more than the block has pushed. */
  function Increment(effects: seq<Effect>, start: nat, end: nat): Option<nat>
    requires start <= end <= |effects|
  {
    if start == end then Some(0)
    else
      match Increment(effects, start, end - 1)
      case None => None
      case Some(n) =>
        var e := effects[end - 1];
        if n < e.pops then None else Some((n - e.pops + e.pushes) % U64_MODULUS)
  }

  lemma {:induction false} IncrementStaysNone(effects: seq<Effect>, start: nat, mid: nat, end: nat)
    requires start <= mid <= end <= |effects|
    requires Increment(effects, start, mid).None?
    ensures Increment(effects, start, end).None?
    decreases end
  {
    if mid < end { IncrementStaysNone(effects, start, mid, end - 1); }
  }

  lemma IncrementStep(ctx: FunctionContext, start: nat, i: nat, n: nat)
    requires InBounds(ctx) && start <= i < |ctx.code|
    requires Increment(Effects(ctx), start, i) == Some(n)
    ensures Increment(Effects(ctx), start, i + 1) ==
            if n < Pops(ctx, ctx.code[i]) then None
            else Some((n - Pops(ctx, ctx.code[i]) + Pushes(ctx, ctx.code[i])) % U64_MODULUS)
  {
    assert Effects(ctx)[i] == Effect(Pops(ctx, ctx.code[i]), Pushes(ctx, ctx.code[i]));
  }

  method VerifyBlock(ctx: FunctionContext, block: BasicBlock) returns (r: Verdict)
    requires InBounds(ctx) && block.entry <= block.exit < |ctx.code|
    ensures r.Ok? <==> Increment(Effects(ctx), block.entry, block.exit + 1) == Some(0)
    ensures r == Err(NegativeStackSizeWithinBlock) <==>
              Increment(Effects(ctx), block.entry, block.exit + 1).None?
  {
    ghost var effects := Effects(ctx);
    var stackSizeIncrement: nat := 0;
    for i := block.entry to block.exit + 1
      invariant Increment(effects, block.entry, i) == Some(stackSizeIncrement)
    {
      IncrementStep(ctx, block.entry, i, stackSizeIncrement);
      var numPops, numPushes := Pops(ctx, ctx.code[i]), Pushes(ctx, ctx.code[i]);
      if stackSizeIncrement < numPops {
        IncrementStaysNone(effects, block.entry, i + 1, block.exit + 1);
        return Err(NegativeStackSizeWithinBlock);
      }
      stackSizeIncrement := stackSizeIncrement - numPops;
      stackSizeIncrement := (stackSizeIncrement + numPushes) % U64_MODULUS;
    }
    return if stackSizeIncrement == 0 then Ok else Err(PositiveStackSizeAtBlockEnd);
  }

  ghost predicate BlockPasses(effects: seq<Effect>, block: BasicBlock) {
    block.entry <= block.exit < |effects| && Increment(effects, block.entry, block.exit + 1) == Some(0)
  }

  ghost predicate Passes(effects: seq<Effect>, cfg: Cfg) {
    forall b :: b in cfg ==> BlockPasses(effects, cfg[b])
  }

  method Verify(ctx: FunctionContext, cfg: Cfg) returns (r: Verdict)
    requires InBounds(ctx)
    requires forall b :: b in cfg ==> cfg[b].entry <= cfg[b].exit < |ctx.code|
    ensures r.Ok? <==> Passes(Effects(ctx), cfg)
  {
    ghost var effects := Effects(ctx);
    var todo := cfg.Keys;
    while todo != {}
      invariant todo <= cfg.Keys
      invariant forall b :: b in cfg && b !in todo ==> BlockPasses(effects, cfg[b])
      decreases |todo|
    {
      var b :| b in todo;
      r := VerifyBlock(ctx, cfg[b]);
      if !r.Ok? {
        assert !BlockPasses(effects, cfg[b]);
        return;
      }
      todo := todo - {b};
    }
    return Ok;
  }

  // ---------------------------------------------------------------- static heights

  /** The stack height the code gives `pc`, counting from the entry of its block. */
  ghost function HeightAt(code: Code, effects: seq<Effect>, pc: nat): int
    requires pc < |code| == |effects|
    decreases pc, 0
  {
    if IsLeader(code, pc) then 0 else HeightAfter(code, effects, pc - 1)
  }

  ghost function HeightAfter(code: Code, effects: seq<Effect>, pc: nat): int
    requires pc < |code| == |effects|
    decreases pc, 1
  {
    HeightAt(code, effects, pc) - effects[pc].pops + effects[pc].pushes
  }

  /** The instruction does not pop below its block's base, and a block ends where it began. */
  ghost predicate BalancedAt(code: Code, effects: seq<Effect>, pc: nat)
    requires pc < |code| == |effects|
  {
    && HeightAt(code, effects, pc) >= effects[pc].pops
    && (EndsBlock(code, pc) ==> HeightAfter(code, effects, pc) == 0)
  }

  ghost predicate Balanced(code: Code, effects: seq<Effect>) {
    && |code| == |effects|
    && forall pc :: 0 <= pc < |code| ==> BalancedAt(code, effects, pc)
  }

  /** The 64-bit counter never wraps. */
  ghost predicate CounterFits(code: Code, effects: seq<Effect>) {
    && |code| == |effects|
    && forall pc :: 0 <= pc < |code| ==> HeightAfter(code, effects, pc) < U64_MODULUS
  }

  ghost predicate NoUnderflow(code: Code, effects: seq<Effect>, pc: nat)
    requires pc < |code| == |effects|
  {
    HeightAt(code, effects, pc) >= effects[pc].pops
  }

  lemma IncrementNext(effects: seq<Effect>, start: nat, i: nat)
    requires start <= i < |effects|
    ensures Increment(effects, start, i).None? ==> Increment(effects, start, i + 1).None?
    ensures Increment(effects, start, i).Some? ==>
              var n := Increment(effects, start, i).value;
              Increment(effects, start, i + 1) ==
              if n < effects[i].pops then None
              else Some((n - effects[i].pops + effects[i].pushes) % U64_MODULUS)
  {}

  lemma {:induction false} IncrementIsHeight(code: Code, effects: seq<Effect>, start: nat, pc: nat)
    requires CounterFits(code, effects) && start <= pc < |code|
    requires IsLeader(code, start)
    requires forall x :: start < x <= pc ==> !IsLeader(code, x)
    ensures Increment(effects, start, pc + 1).Some? <==>
              forall x :: start <= x <= pc ==> NoUnderflow(code, effects, x)
    ensures Increment(effects, start, pc + 1).Some? ==>
              Increment(effects, start, pc + 1).value == HeightAfter(code, effects, pc)
  {
    assert HeightAfter(code, effects, pc) < U64_MODULUS;
    if pc > start {
      IncrementIsHeight(code, effects, start, pc - 1);
      assert HeightAt(code, effects, pc) == HeightAfter(code, effects, pc - 1);
      assert (forall x :: start <= x <= pc ==> NoUnderflow(code, effects, x))
        <==> (forall x :: start <= x <= pc - 1 ==> NoUnderflow(code, effects, x))
             && NoUnderflow(code, effects, pc);
    } else {
      assert Increment(effects, start, start) == Some(0) && HeightAt(code, effects, pc) == 0;
      assert (forall x :: start <= x <= pc ==> NoUnderflow(code, effects, x)) <==> NoUnderflow(code, effects, pc);
    }
    IncrementNext(effects, start, pc);
  }

  lemma PassingBlockIsBalanced(code: Code, effects: seq<Effect>, cfg: Cfg, b: nat)
    requires IsCfg(code, cfg) && CounterFits(code, effects) && b in cfg
    ensures BlockPasses(effects, cfg[b]) <==> BlockBalanced(code, effects, cfg[b])
  {
    assert CfgAt(code, cfg, b);
    IncrementIsHeight(code, effects, cfg[b].entry, cfg[b].exit);
  }

  lemma BalancedInBlock(code: Code, effects: seq<Effect>, cfg: Cfg, pc: nat)
    requires |code| == |effects| && IsCfg(code, cfg) && pc < |code|
    requires forall b :: b in cfg ==> BlockBalanced(code, effects, cfg[b])
    ensures BalancedAt(code, effects, pc)
  {
    BlocksPartition(code, cfg, pc);
    var b := cfg[BlockEntry(code, pc)];
    assert CfgAt(code, cfg, BlockEntry(code, pc)) && NoUnderflow(code, effects, pc);
    assert EndsBlock(code, pc) ==> pc == b.exit by {
      if pc < b.exit { assert !IsLeader(code, pc + 1); }
    }
  }

  lemma BlockInBalanced(code: Code, effects: seq<Effect>, cfg: Cfg, b: nat)
    requires IsCfg(code, cfg) && Balanced(code, effects) && b in cfg
    ensures BlockBalanced(code, effects, cfg[b])
  {
    assert CfgAt(code, cfg, b);
    assert BalancedAt(code, effects, cfg[b].exit);
    forall x | cfg[b].entry <= x <= cfg[b].exit ensures NoUnderflow(code, effects, x) {
      assert BalancedAt(code, effects, x);
    }
  }

  /** As long as the counter does not wrap, the pass accepts exactly the balanced functions. */
  lemma PassesMeansBalanced(code: Code, effects: seq<Effect>, cfg: Cfg)
    requires IsCfg(code, cfg) && CounterFits(code, effects)
    ensures Passes(effects, cfg) <==> Balanced(code, effects)
  {
    forall b | b in cfg ensures BlockPasses(effects, cfg[b]) <==> BlockBalanced(code, effects, cfg[b]) {
      PassingBlockIsBalanced(code, effects, cfg, b);
    }
    if Passes(effects, cfg) {
      forall pc | 0 <= pc < |code| ensures BalancedAt(code, effects, pc) {
        BalancedInBlock(code, effects, cfg, pc);
      }
    }
    if Balanced(code, effects) {
      forall b | b in cfg ensures BlockPasses(effects, cfg[b]) {
        BlockInBalanced(code, effects, cfg, b);
      }
    }
  }

  ghost predicate BlockBalanced(code: Code, effects: seq<Effect>, b: BasicBlock)
    requires |code| == |effects|
  {
    && b.exit < |code|
    && (forall x :: b.entry <= x <= b.exit ==> NoUnderflow(code, effects, x))
    && HeightAfter(code, effects, b.exit) == 0
  }

  ghost predicate HeightFits(code: Code, effects: seq<Effect>, pc: nat)
    requires pc < |code| == |effects|
  {
    HeightAfter(code, effects, pc) < U64_MODULUS
  }

  /** The counter never exceeds the height, and equals it exactly as long as no height has gone out
      of 64 bits: what a wrap takes off is never given back. */
  lemma {:induction false} IncrementUntilWrap(code: Code, effects: seq<Effect>, start: nat, pc: nat)
    requires start <= pc < |code| == |effects| && IsLeader(code, start)
    requires forall x :: start < x <= pc ==> !IsLeader(code, x)
    requires Increment(effects, start, pc + 1).Some?
    ensures NoUnderflow(code, effects, pc)
    ensures HeightAfter(code, effects, pc) >= Increment(effects, start, pc + 1).value
    ensures HeightAfter(code, effects, pc) == Increment(effects, start, pc + 1).value
       <==> forall x :: start <= x <= pc ==> HeightFits(code, effects, x)
  {
    if pc > start {
      IncrementUntilWrap(code, effects, start, pc - 1);
      assert HeightAt(code, effects, pc) == HeightAfter(code, effects, pc - 1);
      assert (forall x :: start <= x <= pc ==> HeightFits(code, effects, x))
        <==> (forall x :: start <= x <= pc - 1 ==> HeightFits(code, effects, x))
             && HeightFits(code, effects, pc);
    } else {
      assert Increment(effects, start, start) == Some(0);
      assert HeightFits(code, effects, start) <==> HeightAfter(code, effects, start) < U64_MODULUS;
    }
  }

  lemma {:induction false} PassedPrefix(effects: seq<Effect>, start: nat, mid: nat, end: nat)
    requires start <= mid <= end <= |effects| && Increment(effects, start, end).Some?
    ensures Increment(effects, start, mid).Some?
  {
    if Increment(effects, start, mid).None? { IncrementStaysNone(effects, start, mid, end); }
  }

  lemma PassedBlock(code: Code, effects: seq<Effect>, start: nat, end: nat)
    requires start <= end < |code| == |effects| && IsLeader(code, start)
    requires forall x :: start < x <= end ==> !IsLeader(code, x)
    requires Increment(effects, start, end + 1) == Some(0)
    ensures forall x :: start <= x <= end ==> NoUnderflow(code, effects, x)
    ensures HeightAfter(code, effects, end) == 0 <==>
              forall x :: start <= x <= end ==> HeightFits(code, effects, x)
  {
    forall x | start <= x <= end ensures NoUnderflow(code, effects, x) {
      PassedPrefix(effects, start, x + 1, end + 1);
      IncrementUntilWrap(code, effects, start, x);
    }
    IncrementUntilWrap(code, effects, start, end);
  }

  /** What the pass accepts is balanced exactly when no height goes out of 64 bits. */
  lemma AcceptedIsBalancedIff(code: Code, effects: seq<Effect>, cfg: Cfg)
    requires |code| == |effects| && IsCfg(code, cfg) && Passes(effects, cfg)
    ensures Balanced(code, effects) <==> CounterFits(code, effects)
  {
    if CounterFits(code, effects) { PassesMeansBalanced(code, effects, cfg); }
    if Balanced(code, effects) {
      forall pc | 0 <= pc < |code| ensures HeightAfter(code, effects, pc) < U64_MODULUS {
        BlocksPartition(code, cfg, pc);
        var b := cfg[BlockEntry(code, pc)];
        assert CfgAt(code, cfg, BlockEntry(code, pc)) && BlockPasses(effects, b);
        assert BalancedAt(code, effects, b.exit);
        PassedBlock(code, effects, b.entry, b.exit);
        assert HeightFits(code, effects, pc);
      }
    }
  }

  /** A block that unpacks a vector into 2^64 - 1 operands and then loads one more. */
  function WrappingContext(): FunctionContext {
    FunctionContext([], [], [Vector(U8)], [], [], [], [],
      [LdConst(0), VecUnpack(U8, U64_MODULUS - 1), LdU8, Branch(0)])
  }

  function WrappingEffects(): seq<Effect> {
    [Effect(0, 1), Effect(1, U64_MODULUS - 1), Effect(0, 1), Effect(0, 0)]
  }

  lemma WrappingEffectsAre()
    ensures InBounds(WrappingContext()) && Effects(WrappingContext()) == WrappingEffects()
  {
    var code := WrappingContext().code;
    assert code[0] == LdConst(0) && code[1] == VecUnpack(U8, U64_MODULUS - 1);
    assert code[2] == LdU8 && code[3] == Branch(0);
  }

  lemma WrappingIncrement()
    ensures Increment(WrappingEffects(), 0, 4) == Some(0)
  {
    var effects := WrappingEffects();
    assert Increment(effects, 0, 1) == Some(1);
    assert Increment(effects, 0, 2) == Some(U64_MODULUS - 1);
    assert Increment(effects, 0, 3) == Some(0);
  }

  lemma WrappingHeights()
    ensures var code := WrappingContext().code;
            HeightAfter(code, WrappingEffects(), 3) == U64_MODULUS && EndsBlock(code, 3)
  {
    var code, effects := WrappingContext().code, WrappingEffects();
    assert !IsLeader(code, 1) && !IsLeader(code, 2) && !IsLeader(code, 3);
    assert HeightAfter(code, effects, 0) == 1;
    assert HeightAfter(code, effects, 1) == U64_MODULUS - 1;
    assert HeightAfter(code, effects, 2) == U64_MODULUS;
  }

  /** The only block of the function is the whole function. */
  lemma WrappingCfg(cfg: Cfg)
    requires IsCfg(WrappingContext().code, cfg)
    ensures Passes(WrappingEffects(), cfg)
  {
    var code := WrappingContext().code;
    assert !IsLeader(code, 1) && !IsLeader(code, 2) && !IsLeader(code, 3);
    forall b | b in cfg ensures BlockPasses(WrappingEffects(), cfg[b]) {
      assert CfgAt(code, cfg, b);
      assert b == 0 && EndsBlock(code, cfg[b].exit) && cfg[b].exit == 3;
      WrappingIncrement();
    }
  }

  /** Wrap-around matters: the counter comes back to zero, so the pass accepts a function that
      leaves 2^64 operands behind. */
  lemma WrappedBlockIsAccepted()
    ensures var ctx := WrappingContext();
            && InBounds(ctx)
            && (forall cfg :: IsCfg(ctx.code, cfg) ==> Passes(Effects(ctx), cfg))
            && !Balanced(ctx.code, Effects(ctx))
            && HeightAfter(ctx.code, Effects(ctx), 3) == U64_MODULUS
  {
    WrappingEffectsAre();
    WrappingHeights();
    assert !BalancedAt(WrappingContext().code, WrappingEffects(), 3);
    forall cfg | IsCfg(WrappingContext().code, cfg) ensures Passes(WrappingEffects(), cfg) {
      WrappingCfg(cfg);
    }
  }

  // ---------------------------------------------------------------- whole runs

  /** A machine that only keeps the program counter and the stack height. It does not test for
      underflow: that none occurs is what is proved. */
  datatype Config = Config(pc: nat, height: int)

  ghost predicate Step(code: Code, effects: seq<Effect>, c: Config, c': Config)
    requires |code| == |effects|
  {
    && Flows(code, c.pc, c'.pc)
    && c'.height == c.height - effects[c.pc].pops + effects[c.pc].pushes
  }

  ghost predicate IsRun(code: Code, effects: seq<Effect>, run: seq<Config>)
    requires |code| == |effects|
  {
    && |run| > 0
    && run[0] == Config(0, 0)
    && forall i :: 0 <= i < |run| - 1 ==> Step(code, effects, run[i], run[i + 1])
  }

  lemma StepKeepsHeight(code: Code, effects: seq<Effect>, c: Config, c': Config)
    requires JumpsInBounds(code) && Balanced(code, effects)
    requires c.pc < |code| && c.height == HeightAt(code, effects, c.pc)
    requires Step(code, effects, c, c')
    ensures c'.pc < |code| && c'.height == HeightAt(code, effects, c'.pc)
  {
    assert c'.height == HeightAfter(code, effects, c.pc);
    assert BalancedAt(code, effects, c.pc);
    if EndsBlock(code, c.pc) {
      assert IsLeader(code, c'.pc);
    } else {
      StraightLine(code, c.pc, c'.pc);
    }
  }

  /** On every run each offset has one height; nothing pops an empty stack; blocks are entered
      at height zero. */
  lemma {:induction false} RunHeights(code: Code, effects: seq<Effect>, run: seq<Config>, i: nat)
    requires JumpsInBounds(code) && Balanced(code, effects) && |code| > 0
    requires IsRun(code, effects, run) && i < |run|
    ensures run[i].pc < |code|
    ensures run[i].height == HeightAt(code, effects, run[i].pc) >= effects[run[i].pc].pops
    ensures IsLeader(code, run[i].pc) ==> run[i].height == 0
  {
    if i > 0 {
      RunHeights(code, effects, run, i - 1);
      assert Step(code, effects, run[i - 1], run[i - 1 + 1]);
      StepKeepsHeight(code, effects, run[i - 1], run[i]);
    }
    assert BalancedAt(code, effects, run[i].pc);
  }

  /** Ret finds on the stack exactly the values the function returns. */
  lemma RetFindsItsResults(ctx: FunctionContext, run: seq<Config>, i: nat)
    requires InBounds(ctx) && |ctx.code| > 0 && Balanced(ctx.code, Effects(ctx))
    requires IsRun(ctx.code, Effects(ctx), run) && i < |run|
    requires run[i].pc < |ctx.code| && ctx.code[run[i].pc].Ret?
    ensures run[i].height == |ctx.results|
  {
    var code, effects, pc := ctx.code, Effects(ctx), run[i].pc;
    RunHeights(code, effects, run, i);
    assert EndsBlock(code, pc) by {
      if pc + 1 < |code| { assert code[pc + 1 - 1].IsBranch(); }
    }
    assert BalancedAt(code, effects, pc);
  }
}
