# Verified models of the Move toolchain's algorithmic cores

This project models, in Dafny, the parts of the Move bytecode toolchain whose correctness rests on
an argument rather than on a table: the borrow graph, the bytecode verifier's control-flow, stack,
type, ability and instantiation checks, the worklist analysis, the canonical serialization (BCS) and
the binary format's number and type encodings, the linker and the upgrade check, the
cyclic-dependency check, and two algorithms that generate test data. For each it proves what the
code is for, over every input, every graph or every run.

Code that changes state in place is modelled by methods and classes with `modifies` clauses, each
proved against a specification function or predicate; pure code is modelled by functions. The laws
are lemmas about those specifications.

## How the modules fit together

* `Collections` holds small facts about sequences and sets. `FileFormat` holds abilities, signature tokens and bytecode. Generic and non-generic instructions
  are one constructor with (possibly empty) type arguments, borrows carry a mutability flag, and
  the operators that every pass treats alike are one constructor each.
* **Control flow.** `LoopStructure` says which code is accepted, and proves accepted code reducible: loop ranges are strictly nested,
  a run inside a loop has passed the loop's head and not left it since, and a step leaves at most one
  loop, landing right after it. `ControlFlowGraph` builds the basic blocks and proves that they
  partition the code. `AbstractInterpreter` proves the worklist analysis terminating and sound for
  any domain of finite height, and its result the least solution.
* **Stack and types.** `StackUsage` gives every offset one static height on every run, and says
  exactly when the pass's 64-bit counter tells the truth. `TypeSafety` is the block-local type
  checker, whose stack never runs empty because its height is that of `StackUsage`.
  `Values` and `Machine` are a run-time model with references into locals, storage and lent memory;
  `Preservation` proves that runs of checked code stay typed, keep to types with `key` in storage and
  write through mutable references only; `ResourceSafety` proves that values of types without `copy`
  are never duplicated and values of types without `drop` never vanish; `Progress` proves that checked
  code does not get stuck, and that for code without type parameters the static rules accept exactly
  what a machine that checks every value at run time would let pass.
* **Abilities and generics.** `Abilities` proves that abilities survive instantiation and that an
  instance's abilities are inherited by its fields. `InstantiationLoops` builds the graph of type
  formals, `InstantiationBound` bounds the depth of every type argument an accepted module can
  produce, and `InstantiationGrowth` proves the converse, so the check is exact.
* **Borrow graph.** `BorrowEdges` gives edges their meaning as sets of label paths; `BorrowGraph` is
  the mutable graph; `BorrowSemantics` proves what factoring, releasing, comparing and joining do to
  reachability and to the borrowed paths.
* **Encodings.** `Uleb128`; `SignatureTokens` (an iterative printer against a stack parser, both
  against a recursive-descent grammar); `KeyOrder`, `Bcs`, `BcsBijection`, `BcsMaps`,
  `BcsSerializer`, `BcsDeserializer` (the serializer and deserializer are inverse bijections
  between values within the limits and accepted strings).
* **Module evolution.** `Linking` builds the linker's context, `LinkChecks` runs the checks, and
  `LinkMeaning` says what client code may rely on once they pass. `Compatibility` is the upgrade check,
  `UpgradeMeaning` says what its two answers mean for compiled modules and stored values, and
  `UpgradeLinking` proves that a linking-compatible upgrade keeps all clients linking. `CyclicDependencies` proves the search exact and every store of accepted
  modules acyclic.
* **Test data.** `RepeatVec` refines deletion from a plain sequence; `FloydSampling` is uniform.

## Where the code does not do what one would expect

Each of these is modelled as the code has it, with a concrete witness and the exact condition.

* The stack-usage counter wraps at 64 bits when overflow is not trapped. `StackUsage.WrappedBlockIsAccepted`
  is a function that leaves 2^64 operands and passes; `StackUsage.AcceptedIsBalancedIff` says that an accepted function
  is balanced exactly when no static height reaches 2^64.
* The graph of type formals numbers callers after native functions have been filtered out, and
  callees before. `InstantiationGrowth.SelfNestingIsAccepted` is a family of accepted modules that
  instantiate without bound; `InstantiationGrowth.SoundExactlyWhenNativesLast` says that the check
  can be relied on exactly when no native function precedes one with code.
* The BCS serializer does not count a unit variant as a container, the deserializer does.
  `BcsMaps.UnitVariantAtTheLimit` is a value that is written and then refused; `BcsMaps.RoundTrip`
  says that a written value is read back exactly when its nesting, unit variants included, is within
  the limit.
* A type instantiation that declares no arguments still takes one when it is parsed.
  `SignatureTokens.ZeroArityTakesAnArgument` is the second spelling; `SignatureTokens.PrintLoad`
  says that an accepted string is the printed one exactly when no instantiation in it declares none.
* Normalized types do not tell a plain struct from an instantiation with no arguments, the linker
  does. `UpgradeLinking.EmptyInstantiationBreaksLinking` is an upgrade reported as compatible that
  breaks a client; `UpgradeLinking.SafeExactlyWhenFormsAgree` says that an upgrade reported as linking
  compatible keeps all clients linking exactly when both versions use the same form in every function
  that others may call. The witness is a module built in memory: by
  `SignatureTokens.DescendIsRegular` no parsed type holds an instantiation with no arguments.
* Releasing a reference deliberately drops edges that would lead from a lender to itself.
  `BorrowSemantics.RoundTripIsDropped` shows the lost path;
  `BorrowSemantics.ReleaseLosesOnlyRoundTrips` says that paths are kept exactly when, in the graph
  before the release, what each round trip borrows can also be borrowed around the reference, and
  `BorrowSemantics.OnlyEmptyRoundTripsAreKept` that where nothing leads round it is enough to look at
  the edges of the round trips.
* A comment promises an entry block for every control-flow graph, even of empty code; the
  construction makes none for empty code (`ControlFlowGraph.EntryBlockExists`).

## Model

| member | source | states |
|---|---|---|
| `LoopStructure.LabelsMeaning` | language/bytecode-verifier/src/control_flow.rs:76-93 | An offset is labelled as a loop head exactly when some jump goes back to it, and the label names the last such jump. |
| `LoopStructure.InstructionLabels` | language/bytecode-verifier/src/control_flow.rs:76-93 | The in-place labelling loop computes those labels. |
| `LoopStructure.BackJumpIsEnclosed` | language/bytecode-verifier/src/control_flow.rs:108-137 | At every jump back the jump's own loop is open, so the open-loop stack is not empty there. |
| `LoopStructure.ClosingAdvances` | language/bytecode-verifier/src/control_flow.rs:108-137 | After a loop's last continue exactly the loops below it remain open. |
| `LoopStructure.StackAdvances` | language/bytecode-verifier/src/control_flow.rs:108-137 | Popping at a last continue and pushing at a head keeps the stack equal to the loops that enclose the instruction, outermost first. |
| `LoopStructure.CheckCode` | language/bytecode-verifier/src/control_flow.rs:108-137 | The traversal accepts exactly when its check accepts every instruction together with the loops that really enclose it; a rejection is one such check's. |
| `LoopStructure.CountLoopDepth` | language/bytecode-verifier/src/control_flow.rs:213-233 | Counting heads up and last continues down gives each instruction the number of its enclosing loops. |
| `LoopStructure.DepthAdvances` | language/bytecode-verifier/src/control_flow.rs:213-233 | From one instruction to the next the number of enclosing loops changes by the loops that end and begin there. |
| `LoopStructure.DepthCountsLoops` | language/bytecode-verifier/src/control_flow.rs:213-233 | The computed depth is the cardinality of the set of loop heads whose range contains the instruction. |
| `LoopStructure.Verify` | language/bytecode-verifier/src/control_flow.rs:18-106 | Accepts exactly the structured code: non-empty, ending in an unconditional branch, jumps back going to the head of the innermost loop, forward jumps entering loops at their heads and leaving only the innermost one, to right after it. Each error is returned exactly when its condition is the first to fail, and the `unwrap` on the loop stack never fails. |
| `LoopStructure.AcceptedIsStructured` | language/bytecode-verifier/src/control_flow.rs:99-210 | The three checks with their loop stack and depths hold exactly for the code whose jumps enter and leave loop ranges in that way. |
| `LoopStructure.PassesMeans` | language/bytecode-verifier/src/control_flow.rs:140-178 | The continue check holds exactly when jumps back go to innermost heads, the break check exactly when jumps out of the innermost loop land right after it. |
| `LoopStructure.StaysAtDepth` | language/bytecode-verifier/src/control_flow.rs:180-210 | A forward jump that enters and leaves loops properly and is no break stays at its depth, entering at most the loop whose head it is to. |
| `LoopStructure.StrictlyNested` | language/bytecode-verifier/src/control_flow.rs:140-157 | A loop whose head lies in another loop's range ends before that loop does. |
| `LoopStructure.InnermostEndsFirst` | language/bytecode-verifier/src/control_flow.rs:140-157 | The innermost loop around an instruction ends before every other loop around it. |
| `LoopStructure.ForwardJumpStaysOutside` | language/bytecode-verifier/src/control_flow.rs:159-210 | No forward jump lands inside a loop whose head it jumps over. |
| `LoopStructure.DeeperInside` | language/bytecode-verifier/src/control_flow.rs:180-210 | Reaching a further loop's body without leaving a loop raises the depth, which is what the split check relies on. |
| `LoopStructure.EntersAtHead` | language/bytecode-verifier/src/control_flow.rs:140-210 | In accepted code a step from outside a loop into it lands on the loop's head. |
| `LoopStructure.HeadDominatesBody` | language/bytecode-verifier/src/control_flow.rs:99-210 | In accepted code every run that is inside a loop has passed its head and has stayed in the loop since. |
| `LoopStructure.LeavesOneLoop` | language/bytecode-verifier/src/control_flow.rs:140-178 | A step leaves at most one loop, the innermost, and then lands right after its last continue. |
| `LoopStructure.BackJumpsAreNatural` | language/bytecode-verifier/src/control_flow.rs:99-157 | Every run that takes a jump back has passed the jump's target: the target dominates the jump. |
| `ControlFlowGraph.GetSuccessors` | language/move-binary-format/src/file_format.rs:1662-1692 | The successors are exactly the offsets control can pass to, each once and ascending. |
| `ControlFlowGraph.RecordBlockIds` | language/move-binary-format/src/control_flow_graph.rs:92-102 | Adds the jump target and, after a branch, the next offset. |
| `ControlFlowGraph.CollectBlockIds` | language/move-binary-format/src/control_flow_graph.rs:56-65 | The collected ids are exactly the leaders: offset zero, jump targets, and offsets after branches. |
| `ControlFlowGraph.New` | language/move-binary-format/src/control_flow_graph.rs:56-90 | The graph has exactly one block per leader below the end, each a maximal run without a leader inside, with the successors of its last instruction. |
| `ControlFlowGraph.AddBlock` | language/move-binary-format/src/control_flow_graph.rs:66-86 | Adding the next block keeps the graph right for the code below it. |
| `ControlFlowGraph.BlocksPartition` | language/move-binary-format/src/control_flow_graph.rs:56-102 | Each instruction lies in exactly one block. |
| `ControlFlowGraph.StraightLine` | language/move-binary-format/src/control_flow_graph.rs:88-102 | Inside a block control only moves to the next instruction, and no branch occurs. |
| `ControlFlowGraph.LeavesToEntry` | language/move-binary-format/src/control_flow_graph.rs:56-102 | Control leaves a block only to the entry of a block of the graph. |
| `ControlFlowGraph.EntryBlockExists` | language/move-binary-format/src/control_flow_graph.rs:36-86 | There is an entry block exactly when there is code; the comment's claim fails for empty code. |
| `StackUsage.VerifyBlock` | language/bytecode-verifier/src/stack_usage_verifier.rs:44-70 | A block is accepted exactly when the wrapping counter ends at zero, and rejected as negative exactly when some instruction takes more than the counter holds. |
| `StackUsage.Verify` | language/bytecode-verifier/src/stack_usage_verifier.rs:27-42 | A function is accepted exactly when each of its blocks is. |
| `StackUsage.IncrementIsHeight` | language/bytecode-verifier/src/stack_usage_verifier.rs:44-70 | While heights stay below 2^64 the counter is the static height, and fails exactly at an underflow. |
| `StackUsage.PassesMeansBalanced` | language/bytecode-verifier/src/stack_usage_verifier.rs:27-70 | If no height reaches 2^64, the pass accepts exactly the functions in which no instruction underflows its block and each block ends at height zero. |
| `StackUsage.IncrementUntilWrap` | language/bytecode-verifier/src/stack_usage_verifier.rs:52-64 | The counter never exceeds the height, and equals it exactly as long as no height has reached 2^64. |
| `StackUsage.AcceptedIsBalancedIff` | language/bytecode-verifier/src/stack_usage_verifier.rs:27-70 | An accepted function is balanced exactly when no static height reaches 2^64. |
| `StackUsage.WrappedBlockIsAccepted` | language/bytecode-verifier/src/stack_usage_verifier.rs:27-64 | A concrete function that leaves 2^64 operands behind passes under every control-flow graph of it, because the counter wraps. |
| `StackUsage.StepKeepsHeight` | language/bytecode-verifier/src/stack_usage_verifier.rs:44-220 | One step of a balanced function takes the static height of one offset to that of the next. |
| `StackUsage.RunHeights` | language/bytecode-verifier/src/stack_usage_verifier.rs:27-220 | On every run of a balanced function each offset has one height, no instruction underflows, and blocks are entered at height zero. |
| `StackUsage.RetFindsItsResults` | language/bytecode-verifier/src/stack_usage_verifier.rs:44-220 | Every Ret that a run reaches finds exactly the function's results on the stack. |
| `Abilities.PolymorphicMeaning` | language/move-binary-format/src/file_format.rs:673-716 | An instance has an ability exactly when it is declared and every non-phantom argument has what that ability requires. |
| `Abilities.InstanceAbilities` | language/move-binary-format/src/binary_views.rs:254-290 | When the abilities of a struct instance are known, and which they are, argument by argument. |
| `Abilities.VectorAbilities` | language/move-binary-format/src/binary_views.rs:254-290 | The same for vectors. |
| `Abilities.InstantiateComposes` | language/bytecode-verifier/src/type_safety.rs:818-846 | Substituting twice is substituting once with the substituted arguments. |
| `Abilities.InstantiationKeepsAbilities` | language/move-binary-format/src/binary_views.rs:254-290 | A type keeps, under any arguments that satisfy the constraints, every ability it has under the constraints. |
| `Abilities.GenericInstanceSubstitutes` | language/bytecode-verifier/src/signature.rs:336-366 | A generic instance checked once in generic code is right for every instantiation of that code. |
| `Abilities.InstantiationIsKnown` | language/move-binary-format/src/binary_views.rs:254-290 | Instantiating a well-formed type gives a well-formed type. |
| `Abilities.FieldInheritsAbility` | language/bytecode-verifier/src/ability_field_requirements.rs:20-52 | A field type that has an ability when all parameters do keeps it for arguments of which only the non-phantom ones have it. |
| `Abilities.FieldCheckIsExact` | language/bytecode-verifier/src/ability_field_requirements.rs:20-52 | A struct passes the field check exactly when each of its fields, for all arguments that have every ability, has what each declared ability requires. |
| `Abilities.FieldsInheritAbilities` | language/bytecode-verifier/src/signature.rs:220-260 | Ability inheritance: if an instance of an accepted struct has an ability, each of its field types has what that ability requires; phantom arguments are irrelevant. |
| `TypeSafety.ApplyHeight` | language/bytecode-verifier/src/type_safety.rs:378-804 | Every typing rule changes the height of the type stack as the stack-usage table says. |
| `TypeSafety.TypeSafetyChecker.Pop` | language/bytecode-verifier/src/type_safety.rs:378-804 | Popping succeeds on the stacks it is called on and takes the top type. |
| `TypeSafety.TypeSafetyChecker.PopExpected` | language/bytecode-verifier/src/type_safety.rs:194-211 | Popping operands one by one against a signature succeeds exactly when the top of the stack is that signature. |
| `TypeSafety.TypeSafetyChecker.PushAll` | language/bytecode-verifier/src/type_safety.rs:194-273 | Pushing a signature appends it in order. |
| `TypeSafety.TypeSafetyChecker.VerifyList` | language/bytecode-verifier/src/type_safety.rs:194-273 | Calls, Ret, packing and unpacking of any arity accept and transform the stack as their typing rule says. |
| `TypeSafety.TypeSafetyChecker.VerifyBinary` | language/bytecode-verifier/src/type_safety.rs:602-667 | Binary operators pop the right operand first, and accept and push as the rule says for operands in stack order. |
| `TypeSafety.TypeSafetyChecker.VerifyDereference` | language/bytecode-verifier/src/type_safety.rs:427-578 | Freezing, reading and writing pop the reference first, and accept and push as the rule says. |
| `TypeSafety.TypeSafetyChecker.VerifyGlobal` | language/bytecode-verifier/src/type_safety.rs:275-321 | Testing for and taking a resource look at the key ability before they pop the address, and accept and push as the rule says. |
| `TypeSafety.TypeSafetyChecker.MoveTo` | language/bytecode-verifier/src/type_safety.rs:323-347 | Publishing pops the resource, then the signer reference, and accepts as the rule says. |
| `TypeSafety.TypeSafetyChecker.BorrowField` | language/bytecode-verifier/src/type_safety.rs:101-143 | Borrowing a field checks mutability, owner and fields one after the other, and accepts and pushes as the rule says. |
| `TypeSafety.TypeSafetyChecker.BorrowGlobal` | language/bytecode-verifier/src/type_safety.rs:166-192 | Borrowing from storage accepts and pushes as the rule says. |
| `TypeSafety.TypeSafetyChecker.BorrowVectorElement` | language/bytecode-verifier/src/type_safety.rs:349-376 | Borrowing an element pops the index, then the vector reference, and accepts and pushes as the rule says. |
| `TypeSafety.TypeSafetyChecker.VerifyVectorChange` | language/bytecode-verifier/src/type_safety.rs:754-801 | Pushing back and swapping pop element or indexes before the vector reference, and accept as the rule says. |
| `TypeSafety.TypeSafetyChecker.VerifyInstr` | language/bytecode-verifier/src/type_safety.rs:378-804 | Every instruction, arm by arm, accepts exactly the stacks its typing rule accepts and leaves what the rule gives, with no `unwrap` failing when the height suffices. |
| `TypeSafety.StackHeight` | language/bytecode-verifier/src/type_safety.rs:84-98 | The checker's stack has at every offset the height that the stack-usage pass computed. |
| `TypeSafety.BalancedStacks` | language/bytecode-verifier/src/type_safety.rs:84-98 | In a balanced function the checker never pops an empty stack and ends each block with an empty one. |
| `TypeSafety.BlockStep` | language/bytecode-verifier/src/type_safety.rs:84-98 | One instruction of a block takes the static stack of one offset to that of the next. |
| `TypeSafety.VerifyBlock` | language/bytecode-verifier/src/type_safety.rs:84-98 | Checking a block on an empty stack accepts exactly when each of its instructions is typed, and leaves the stack empty. |
| `TypeSafety.BlocksCoverCode` | language/bytecode-verifier/src/type_safety.rs:84-98 | Typing every block is typing every instruction. |
| `TypeSafety.Verify` | language/bytecode-verifier/src/type_safety.rs:84-98 | With one stack shared by all blocks, the pass accepts exactly the functions in which every instruction is typed by its block's static stack. |
| `Values.AbilityReachesInside` | language/bytecode-verifier/src/ability_field_requirements.rs:20-52 | A value whose type has Copy, Drop or Store holds, at any depth, no instance of a type without it. |
| `Values.ResolveTyped` | language/move-binary-format/src/file_format.rs:1098-1551 | What is at a path inside a typed value has the type at the path. |
| `Values.UpdateTyped` | language/move-binary-format/src/file_format.rs:1098-1551 | Putting a value of that type at the path keeps the value typed. |
| `Values.UpdateCounts` | language/move-binary-format/src/file_format.rs:1098-1551 | It changes the number of instances by what the two values hold. |
| `Preservation.PackTyped` | language/bytecode-verifier/src/type_safety.rs:234-251 | Packing values of the instantiated field types gives a value of the instantiated struct type. |
| `Preservation.UnpackTyped` | language/bytecode-verifier/src/type_safety.rs:253-273 | Unpacking a value of the struct type gives values of the instantiated field types. |
| `Preservation.TargetTyped` | language/move-binary-format/src/file_format.rs:1098-1551 | What a typed reference names has the type that the reference promises. |
| `Preservation.WriteTyped` | language/move-binary-format/src/file_format.rs:1098-1551 | Writing a value of that type through it keeps all of memory typed. |
| `Preservation.FieldBorrowTyped` | language/bytecode-verifier/src/type_safety.rs:101-143 | A reference to a field of an instance refers to the instantiated field type. |
| `Preservation.ElementBorrowTyped` | language/bytecode-verifier/src/type_safety.rs:349-376 | A reference to an element of a vector refers to the element type. |
| `Preservation.ExecutesTyped` | language/bytecode-verifier/src/type_safety.rs:378-804 | Each typing rule, references and vectors included, is sound for its instruction: on operands and memory of the static types it leaves values of the types it promises and memory typed. |
| `ResourceSafety.ExecutesCounts` | language/move-binary-format/src/file_format.rs:1098-1551 | No instruction raises the number of instances of a type without Copy by more than it packs or a call brings in, or lowers that of a type without Drop by more than it unpacks, a call takes or a store to a local overwrites; reading through a reference needs Copy, writing needs Drop. |
| `Preservation.StepKeepsTypes` | language/bytecode-verifier/src/type_safety.rs:84-98 | A step of checked code takes a typed frame to a typed frame. |
| `ResourceSafety.StepBoundsCounts` | language/bytecode-verifier/src/type_safety.rs:84-98 | A step of checked code changes the operand stack only above the operands it takes, within the instruction's bounds. |
| `Preservation.RunsStayTyped` | language/bytecode-verifier/src/type_safety.rs:84-98 | On every run of checked code, under any type arguments that satisfy the constraints, the stack has the static types at every offset, and locals, storage and lent memory have theirs. |
| `Preservation.StorageHoldsKeyTypes` | language/bytecode-verifier/src/type_safety.rs:166-347 | On every run, all that is in storage has a type with Key, and every storage instruction that is reached names such a type. |
| `Preservation.WritesAreMutable` | language/bytecode-verifier/src/type_safety.rs:101-376 | On every run, memory is changed through mutable references only, and mutable references are derived from mutable ones. |
| `ResourceSafety.StepNeverDuplicates` | language/bytecode-verifier/src/type_safety.rs:378-804 | On every run, a step raises the number of live instances of a type without Copy, over stack, locals, storage and lent memory, only by Pack or a call. |
| `ResourceSafety.NoDuplication` | language/bytecode-verifier/src/type_safety.rs:378-804 | Over a whole run that number exceeds the initial one by no more than what was packed or calls brought in. |
| `ResourceSafety.StepNeverLoses` | language/bytecode-verifier/src/type_safety.rs:378-804 | On every run, a step lowers the number of live instances of a type without Drop only by Unpack, by a call or under a store to a local. |
| `ResourceSafety.NoDisappearance` | language/bytecode-verifier/src/type_safety.rs:378-804 | Over a whole run no more of them disappear than were unpacked, taken by calls or overwritten in locals. |
| `Progress.TypedFramesStep` | language/bytecode-verifier/src/type_safety.rs:378-804 | A typed frame of checked code at any instruction other than Ret, Abort and VecPack can step, provided locals are available, references lead somewhere, indexes are in range, storage is as expected and a call returns. |
| `Progress.AcceptedIsDefended` | language/bytecode-verifier/src/type_safety.rs:378-804 | What a static rule accepts a machine that checks the types and abilities of the values it meets lets pass, for all type arguments. |
| `Progress.RulesAreExact` | language/bytecode-verifier/src/type_safety.rs:378-804 | For code without type parameters the static rules accept exactly what that machine lets pass: no more and no less. |
| `Progress.DefendedExecutes` | language/move-binary-format/src/file_format.rs:1098-1551 | What that machine lets pass executes. |
| `Progress.RunReturnsResults` | language/bytecode-verifier/src/type_safety.rs:415-423 | At every Ret that a run reaches, the operand stack is exactly a list of values of the result types under the type arguments of the run. |
| `AbstractInterpreter.ExecuteBlock` | language/bytecode-verifier/src/absint.rs:147-160 | Executing a block folds the transfer function over its instructions, stopping at the first error. |
| `AbstractInterpreter.Raise` | language/bytecode-verifier/src/absint.rs:109-141 | Raising or creating one block's pre-state keeps the other blocks settled. |
| `AbstractInterpreter.Scheduled` | language/bytecode-verifier/src/absint.rs:109-141 | A successor that is raised and scheduled keeps the loop invariant and lowers the termination measure. |
| `AbstractInterpreter.Propagate` | language/bytecode-verifier/src/absint.rs:109-141 | After one successor has been treated it covers the block's outcome, the map is still below every solution, and either nothing changed or the measure went down. |
| `AbstractInterpreter.Popped` | language/bytecode-verifier/src/absint.rs:91-107 | Popping a block and recording its outcome leaves only its successors to be treated. |
| `AbstractInterpreter.PropagateAll` | language/bytecode-verifier/src/absint.rs:109-141 | After all successors have been treated whatever is not scheduled is settled. |
| `AbstractInterpreter.AnalyzeNext` | language/bytecode-verifier/src/absint.rs:91-142 | One round of the worklist keeps that invariant and makes progress in a well-founded order. |
| `AbstractInterpreter.AnalyzeFunction` | language/bytecode-verifier/src/absint.rs:75-145 | The analysis terminates; its map covers the initial state at the entry, and each block's recorded outcome is that of its pre-state and lies below the pre-state of every successor. If join gives least upper bounds and execution is monotone, the map is the least one: it reaches no further and no higher than any solution, and errs nowhere if there is a solution. |
| `AbstractInterpreter.ExecuteFrom` | language/bytecode-verifier/src/absint.rs:147-160 | Executing a block can be split at any of its instructions. |
| `AbstractInterpreter.ExecuteKeepsOrder` | language/bytecode-verifier/src/absint.rs:147-160 | For monotone transfer functions, what succeeds from a greater state succeeds from a smaller one and ends below. |
| `AbstractInterpreter.PoppedIsLeast` | language/bytecode-verifier/src/absint.rs:91-107 | Executing a block of a map below every solution keeps it so, and its outcome is covered at the successors in every solution. |
| `AbstractInterpreter.ScheduledIsLeast` | language/bytecode-verifier/src/absint.rs:109-141 | Mapping a successor to the outcome, or to the join with it, stays below every solution. |
| `AbstractInterpreter.ErrsUnlessSolvable` | language/bytecode-verifier/src/absint.rs:75-145 | The analysis errs at no block exactly when there are pre-states under which no block errs and every outcome is covered. |
| `AbstractInterpreter.CoverageStep` | language/bytecode-verifier/src/absint.rs:75-160 | One concrete step keeps the concrete state covered. |
| `AbstractInterpreter.RunsAreCovered` | language/bytecode-verifier/src/absint.rs:75-160 | When no block errs, every concrete state of every run that enters a block is one that the block's pre-state stands for. |
| `InstantiationLoops.ExtractTypeParameters` | language/bytecode-verifier/src/instantiation_loops.rs:140-163 | The parameters extracted are exactly those that occur in the type. |
| `InstantiationLoops.InstantiationLoopChecker.constructor` | language/bytecode-verifier/src/instantiation_loops.rs:75-87 | Maps each handle to its last definition and starts with no edges. |
| `InstantiationLoops.InstantiationLoopChecker.AddEdge` | language/bytecode-verifier/src/instantiation_loops.rs:167-171 | Adds one edge. |
| `InstantiationLoops.InstantiationLoopChecker.BuildGraphActual` | language/bytecode-verifier/src/instantiation_loops.rs:181-200 | Adds, for one type actual, an edge from each parameter that occurs in it. |
| `InstantiationLoops.InstantiationLoopChecker.BuildGraphCall` | language/bytecode-verifier/src/instantiation_loops.rs:175-202 | Adds exactly the edges of one call. |
| `InstantiationLoops.InstantiationLoopChecker.BuildGraphFunctionDef` | language/bytecode-verifier/src/instantiation_loops.rs:206-225 | Adds exactly the edges of the calls of one function to functions of the module. |
| `InstantiationLoops.InstantiationLoopChecker.BuildGraph` | language/bytecode-verifier/src/instantiation_loops.rs:232-242 | The graph has exactly the edges of the module's calls, callers numbered with natives left out. |
| `InstantiationLoops.ReachedFrom` | language/bytecode-verifier/src/instantiation_loops.rs:248-279 | Computes exactly the nodes reachable from a node, which decides what a strongly connected component holds. |
| `InstantiationLoops.VerifyModule` | language/bytecode-verifier/src/instantiation_loops.rs:93-123 | Accepts exactly when no TyConApp edge lies in a strongly connected component of the module's graph. |
| `InstantiationBound.InstanceAtMost` | language/bytecode-verifier/src/instantiation_loops.rs:173-202 | An instance is no deeper than the type around its deepest argument. |
| `InstantiationBound.InstanceAtLeast` | language/bytecode-verifier/src/instantiation_loops.rs:173-202 | An instance is at least as deep as the argument of each parameter that occurs, and deeper below a constructor. |
| `InstantiationBound.PotentialAlongEdge` | language/bytecode-verifier/src/instantiation_loops.rs:248-279 | Along an edge that is not in a cycle with a constructor, the constructors that can come before a node grow by at least the edge's own. |
| `InstantiationBound.CallKeepsPotential` | language/bytecode-verifier/src/instantiation_loops.rs:175-279 | One generic call keeps every argument within its node's potential. |
| `InstantiationBound.ChainKeepsPotential` | language/bytecode-verifier/src/instantiation_loops.rs:175-279 | So does any chain of calls. |
| `InstantiationBound.BoundedInstantiation` | language/bytecode-verifier/src/instantiation_loops.rs:175-279 | In an accepted module, along call chains of any length no type argument is deeper than the deepest start argument or closed actual plus the summed depth of the constructors on TyConApp edges. |
| `InstantiationGrowth.FinitelyManyInstantiations` | language/bytecode-verifier/src/instantiation_loops.rs:93-123 | In an accepted module a finite set holds every instantiation that arises from a start. |
| `InstantiationGrowth.FollowEdge` | language/bytecode-verifier/src/instantiation_loops.rs:175-202 | An edge of the graph is a call that passes the argument on, deeper by one on a TyConApp edge. |
| `InstantiationGrowth.RoundTrips` | language/bytecode-verifier/src/instantiation_loops.rs:248-279 | Going round a component with a TyConApp edge n times deepens an argument by at least n. |
| `InstantiationGrowth.CheckIsExact` | language/bytecode-verifier/src/instantiation_loops.rs:93-123 | When natives come last, a module is accepted exactly when from no start calls lead to type arguments of unbounded depth. |
| `InstantiationGrowth.SelfNestingIsAccepted` | language/bytecode-verifier/src/instantiation_loops.rs:232-242 | With a native before it, a function that calls itself with a vector of its parameter is accepted. |
| `InstantiationGrowth.SelfNestingGrows` | language/bytecode-verifier/src/instantiation_loops.rs:232-242 | That function instantiates without bound. |
| `InstantiationGrowth.SoundExactlyWhenNativesLast` | language/bytecode-verifier/src/instantiation_loops.rs:232-242 | The check can be relied on for all modules with natives at given places exactly when no native precedes a function with code. |
| `BorrowEdges.EdgeLeqIsContainment` | language/borrow-graph/src/references.rs:70-72 | One edge is below another exactly when it stands for every label path the other stands for. |
| `BorrowEdges.PathFactor` | language/borrow-graph/src/paths.rs:14-18 | Splitting a path after a prefix gives two parts that append to the path. |
| `BorrowEdges.ComposeCovers` | language/borrow-graph/src/graph.rs:274-282 | The edge that replaces a path through a released reference stands for every concatenation of the two edges' paths. |
| `BorrowEdges.ComposeIsExactIff` | language/borrow-graph/src/graph.rs:274-282 | It stands for nothing else exactly when the edge into the reference is strong or the edge out of it has no labels. |
| `BorrowGraph.ValidIsInvariant` | language/borrow-graph/src/graph.rs:373-411 | The pairwise invariant used in the proofs is the code's invariant together with the absence of empty edge sets. |
| `BorrowGraph.EdgesDetermineGraph` | language/borrow-graph/src/graph.rs:389-403 | A valid graph is determined by its references and the edges between them; back edges follow. |
| `BorrowGraph.AddEdgeEffect` | language/borrow-graph/src/graph.rs:148-159 | Adding an edge keeps the invariant and changes only the edges between its two ends; an equal edge keeps its old location. |
| `BorrowGraph.BorrowGraph.AddEdgeInPlace` | language/borrow-graph/src/graph.rs:148-159 | The in-place update is that addition. |
| `BorrowGraph.BorrowGraph.NewRef` | language/borrow-graph/src/graph.rs:41-47 | Adds a reference without edges and changes no other. |
| `BorrowGraph.BorrowGraph.CollectFactored` | language/borrow-graph/src/graph.rs:173-184 | Lists every edge of the parent whose path has the prefix, once and with its location, and no other. |
| `BorrowGraph.BorrowGraph.RemoveFactored` | language/borrow-graph/src/graph.rs:186-203 | Takes exactly those edges out, drops borrowers left without edges and their back edges, and keeps the invariant. |
| `BorrowGraph.BorrowGraph.Factor` | language/borrow-graph/src/graph.rs:173-223 | The parent's edges through the path become suffix edges of the intermediate, one strong edge leads to it, all other edges stay, and the invariant is kept. |
| `BorrowGraph.BorrowGraph.AddStrongBorrow` | language/borrow-graph/src/graph.rs:115-117 | Factors everything the parent lends through the new reference. |
| `BorrowGraph.BorrowGraph.AddStrongFieldBorrow` | language/borrow-graph/src/graph.rs:120-128 | Factors everything the parent lends below the field. |
| `BorrowGraph.BorrowGraph.AddWeakBorrow` | language/borrow-graph/src/graph.rs:132-146 | Adds one weak edge and nothing else. |
| `BorrowGraph.BorrowGraph.SpliceOutIntermediate` | language/borrow-graph/src/graph.rs:262-283 | Adds the composed edge with the outgoing edge's location, unless it would lead back to its start. |
| `BorrowGraph.BorrowGraph.Release` | language/borrow-graph/src/graph.rs:232-260 | The reference is gone; between any two others there are the old edges and one composed edge for each way through it, nothing else, and the invariant is kept. |
| `BorrowGraph.BorrowGraph.UnmatchedEdges` | language/borrow-graph/src/graph.rs:294-323 | Lists exactly the other graph's edges that no edge of this one is below. |
| `BorrowGraph.BorrowGraph.Leq` | language/borrow-graph/src/graph.rs:290-292 | Answers whether every edge of the other graph has an edge of this one below it. |
| `BorrowGraph.BorrowGraph.Join` | language/borrow-graph/src/graph.rs:351-367 | Returns a new valid graph with this one's edges and the other's uncovered ones, changing neither argument. |
| `BorrowSemantics.ReleaseKeepsReachability` | language/borrow-graph/src/graph.rs:232-283 | Reachability between the surviving references is exactly preserved. |
| `BorrowSemantics.ReleaseKeepsPaths` | language/borrow-graph/src/graph.rs:232-283 | Every label path borrowed along an old walk between survivors is borrowed along a new one, if those of round trips are. |
| `BorrowSemantics.ReleaseAddsNoPaths` | language/borrow-graph/src/graph.rs:232-283 | When whatever the new edges stand for was borrowed before, every path borrowed along a new walk was borrowed before. |
| `BorrowSemantics.ReleaseIsSound` | language/borrow-graph/src/graph.rs:232-283 | Without a reference that is both lender and borrower of the released one no borrowed path is lost, and with only strong edges into it none is added. |
| `BorrowSemantics.ReleaseLosesOnlyRoundTrips` | language/borrow-graph/src/graph.rs:262-272 | All paths between survivors are kept exactly when, in the graph before, the paths of every dropped round trip are also borrowed by a walk around the reference. |
| `BorrowSemantics.BorrowsAroundIsBorrows` | language/borrow-graph/src/graph.rs:232-283 | The walks around a reference, defined on the graph before, borrow exactly what is borrowed once it is released. |
| `BorrowSemantics.OnlyEmptyRoundTripsAreKept` | language/borrow-graph/src/graph.rs:262-272 | Where no walk around the reference returns to its start, paths are kept exactly when every round trip consists of strong edges without labels. |
| `BorrowSemantics.CoveredThroughReleased` | language/borrow-graph/src/graph.rs:262-283 | A concrete graph whose only cycles pass the reference, and whose round trip is covered all the same: walks around it may use the edges that replace it. |
| `BorrowSemantics.ReleaseAddsOnlyComposed` | language/borrow-graph/src/graph.rs:274-282 | No path is added exactly when, in the graph before, every path that a new edge stands for is already borrowed between its ends. |
| `BorrowSemantics.ExactIsBorrowed` | language/borrow-graph/src/graph.rs:274-282 | That is so when each edge into the reference is strong or meets only label-less edges out of it. |
| `BorrowSemantics.RoundTripIsDropped` | language/borrow-graph/src/graph.rs:269-272 | A concrete two-reference cycle whose release loses a borrowed path. |
| `BorrowSemantics.FactorThenRelease` | language/borrow-graph/src/graph.rs:173-260 | Creating a reference, factoring it in below any parent at any path and releasing it gives back the original graph exactly, locations and back edges included. |
| `BorrowSemantics.FactorIsSound` | language/borrow-graph/src/graph.rs:173-223 | Factoring changes nothing about the label paths borrowed between the references there were. |
| `BorrowSemantics.BorrowFieldAndRelease` | language/borrow-graph/src/graph.rs:120-128 | On the object: borrowing a field through a fresh reference and releasing it leaves the graph as it was. |
| `BorrowSemantics.GraphLeqReflexive` | language/borrow-graph/src/graph.rs:290-292 | The order on graphs is reflexive. |
| `BorrowSemantics.GraphLeqTransitive` | language/borrow-graph/src/graph.rs:290-292 | It is transitive. |
| `BorrowSemantics.LeqCoversPaths` | language/borrow-graph/src/graph.rs:290-323 | A graph that covers another borrows every label path the other borrows. |
| `BorrowSemantics.JoinIsLeastUpperBound` | language/borrow-graph/src/graph.rs:351-367 | The join covers both graphs, and whatever covers both covers the join. |
| `BorrowSemantics.JoinCommutes` | language/borrow-graph/src/graph.rs:351-367 | The two joins of a pair cover each other. |
| `BorrowSemantics.JoinAssociates` | language/borrow-graph/src/graph.rs:351-367 | The two groupings of a triple join cover each other. |
| `BorrowSemantics.LeqIffJoinUnchanged` | language/borrow-graph/src/graph.rs:290-367 | One graph covers another exactly when joining the other to it changes nothing. |
| `Uleb128.CanonicalNumbers` | language/move-binary-format/src/file_format_common.rs:283-353 | A number is read from a string exactly when the string is the one the writer emits for it, followed by what is left. |
| `Uleb128.DecodeEncode` | language/move-binary-format/src/file_format_common.rs:330-353 | Reading after writing returns the number and leaves the rest of the input. |
| `Uleb128.EncodeDecode` | language/move-binary-format/src/file_format_common.rs:330-353 | Every accepted string is the one the writer emits. |
| `Uleb128.WriteU64AsUleb128` | language/move-binary-format/src/file_format_common.rs:283-295 | The shifting loop appends the encoding of any u64. |
| `Uleb128.OutputU32AsUleb128` | bcs/src/ser.rs:89-99 | The shifting loop appends the encoding of any u32. |
| `Uleb128.ShiftLosesBits` | language/move-binary-format/src/file_format_common.rs:330-353 | Shifting a digit left and back in 64 bits gives another digit exactly when the shifted digit does not fit. |
| `Uleb128.FitsInU64` | language/move-binary-format/src/file_format_common.rs:330-353 | Combining digits that passed this test cannot overflow 64 bits. |
| `Uleb128.ReadUleb128AsU64` | language/move-binary-format/src/file_format_common.rs:330-353 | Accepts exactly the canonical encodings of numbers below 2^64, and leaves the cursor right after them. |
| `Uleb128.ReadUlebInternal` | language/move-binary-format/src/deserializer.rs:83-100 | Accepts exactly the canonical encodings of numbers within both the bound and the target type. |
| `Uleb128.ParseU32FromUleb128` | bcs/src/de.rs:141-161 | Accepts exactly the canonical encodings of numbers below 2^32, with at most five digits collected. |
| `Uleb128.ReadersAgree` | bcs/src/de.rs:141-161 | The two codecs' readers give the same answer on every input when the bound is 2^32 - 1. |
| `SignatureTokens.WriteAsUleb128` | language/move-binary-format/src/serializer.rs:43-54 | Writes a number within its limit, and fails exactly beyond it. |
| `SignatureTokens.SerializeSingleNode` | language/move-binary-format/src/serializer.rs:592-627 | Writes one node, failing exactly when an instantiation has more arguments than a signature may have. |
| `SignatureTokens.Visit` | language/move-binary-format/src/file_format.rs:876-900 | One step of the preorder traversal prints the node on top, and printability is that of the node at its depth and of what is then pending. |
| `SignatureTokens.SerializeSignatureToken` | language/move-binary-format/src/serializer.rs:644-656 | The printer succeeds exactly for types of depth at most 256 whose instantiations are within the limit, and emits the preorder form. |
| `SignatureTokens.ReadNext` | language/move-binary-format/src/deserializer.rs:924-961 | Reads one type constructor with its index and declared arity. |
| `SignatureTokens.LoadSignatureToken` | language/move-binary-format/src/deserializer.rs:844-980 | The loop terminates by bytes left and stack height, reaches none of its unreachable arms, and computes what the stack machine computes. |
| `SignatureTokens.BuilderDescends` | language/move-binary-format/src/deserializer.rs:882-920 | A partly built constructor on the stack reads its missing arguments as recursive descent would. |
| `SignatureTokens.LoadDescends` | language/move-binary-format/src/deserializer.rs:844-980 | The stack machine reads exactly the language of recursive descent to depth 256. |
| `SignatureTokens.NextAfterNode` | language/move-binary-format/src/serializer.rs:592-627 | Reading a printed node gives the constructor that its children complete to the printed type. |
| `SignatureTokens.NodeBeforeNext` | language/move-binary-format/src/deserializer.rs:924-961 | Apart from a declared arity of zero, only a printed node is read as its constructor. |
| `SignatureTokens.DescendIsRegular` | language/move-binary-format/src/deserializer.rs:844-980 | Whatever the parser returns is within the printer's limits. |
| `SignatureTokens.LoadPrint` | language/move-binary-format/src/serializer.rs:644-656 | A type is parsed back from its printed form, with the rest of the input left, exactly when its depth is at most 256 and its instantiations have 1 to 255 arguments. |
| `SignatureTokens.PrinterAndParserAgree` | language/move-binary-format/src/serializer.rs:644-656 | For types whose instantiations have 1 to 255 arguments, the printer succeeds exactly when the depth is at most 256, exactly when the parser accepts, and parsing returns the type. |
| `SignatureTokens.PrintLoad` | language/move-binary-format/src/deserializer.rs:844-980 | An accepted string is the printed form of its type exactly when it is in the grammar that asks for at least one declared argument. |
| `SignatureTokens.ZeroArityTakesAnArgument` | language/move-binary-format/src/deserializer.rs:890-904 | A concrete string that declares no arguments, takes one, and differs from the printed form. |
| `KeyOrder.CanonMeaning` | bcs/src/ser.rs:451-467 | Sorting and removing duplicates leaves entries strictly ascending by key bytes, with the same keys, and for each key the entry that was added first. |
| `KeyOrder.DedupInsert` | bcs/src/ser.rs:454-459 | Removing duplicates after a stable insertion is inserting into the entries without duplicates unless the key is there. |
| `KeyOrder.CanonOfSorted` | bcs/src/ser.rs:451-467 | Entries that are strictly sorted stay as they are. |
| `KeyOrder.CanonIgnoresOrder` | bcs/src/ser.rs:451-467 | With distinct keys the order of adding does not matter. |
| `Bcs.FromLeBytes` | bcs/src/ser.rs:137-180 | Reading the little-endian bytes of an integer in range gives the integer. |
| `Bcs.LeBytesFrom` | bcs/src/de.rs:116-138 | Every byte string of the width is the one of the integer it is read as. |
| `Bcs.FromLeInRange` | bcs/src/de.rs:214-282 | What is read from the bytes of a width is in its range, for signed and unsigned integers. |
| `BcsBijection.ReadBack` | bcs/src/ser.rs:131-323 | Every value within the limits is read back from its bytes, whatever follows them. |
| `BcsBijection.Written` | bcs/src/de.rs:197-439 | Every accepted prefix is exactly the bytes of the value it is read as, and that value is within the limits. |
| `BcsBijection.Bijection` | bcs/src/de.rs:197-439 | For every type description, recursive ones included: reading returns a value exactly when the value is within the limits and the input is its bytes followed by the rest. |
| `BcsBijection.SortedAscends` | bcs/src/de.rs:513-536 | Strictly sorted keys pass the reader's comparison with the previous key. |
| `BcsBijection.AscendingSorts` | bcs/src/de.rs:513-536 | Keys that pass that comparison one by one are strictly sorted. |
| `BcsMaps.NormForm` | bcs/src/ser.rs:451-467 | A value whose maps list entries in any order is written as its sorted form is, within the same limits. |
| `BcsMaps.RoundTrip` | bcs/src/ser.rs:224-323 | A written value is read back as its sorted form exactly when that form's nesting, unit variants counted, is within the depth limit. |
| `BcsMaps.NormOfSorted` | bcs/src/ser.rs:451-467 | A value with sorted maps is its own sorted form. |
| `BcsMaps.InsertionOrderIsIrrelevant` | bcs/src/ser.rs:451-467 | Two maps with the same entries and distinct keys are written alike. |
| `BcsMaps.NestIsWrittenNotRead` | bcs/src/ser.rs:229-236 | For every limit, a value nested to the limit above a unit variant is written and then refused. |
| `BcsMaps.UnitVariantAtTheLimit` | bcs/src/de.rs:426-439 | The same under the actual limit of 500. |
| `BcsSerializer.OutputSeqLen` | bcs/src/ser.rs:106-111 | Writes a length, failing exactly beyond 2^31 - 1. |
| `BcsSerializer.SerializeBytes` | bcs/src/ser.rs:200-204 | Writes a length and the bytes. |
| `BcsSerializer.Serialize` | bcs/src/ser.rs:131-323 | Succeeds exactly for values within lengths and remaining depth, and appends exactly the value's bytes. |
| `BcsSerializer.SerializeVariant` | bcs/src/ser.rs:229-323 | The same for enum variants; a unit variant does not use up depth. |
| `BcsSerializer.SerializeElements` | bcs/src/ser.rs:335-395 | The same for lists, tuples and fields, element by element. |
| `BcsSerializer.MapSerializer.SerializeKey` | bcs/src/ser.rs:416-431 | Holds one serialized key back, and fails when one is held already. |
| `BcsSerializer.MapSerializer.SerializeValue` | bcs/src/ser.rs:433-449 | Pairs the value with the key held back, and fails without one. |
| `BcsSerializer.MapSerializer.End` | bcs/src/ser.rs:451-467 | Writes the number of entries and the entries sorted by key without duplicates, and fails with a key still held back. |
| `BcsSerializer.SerializeMap` | bcs/src/ser.rs:300-302 | Writes a map through the map serializer as the map's bytes. |
| `BcsSerializer.ToBytes` | bcs/src/ser.rs:50-66 | Returns a value's bytes, exactly for the values within the limits and nesting 500. |
| `BcsDeserializer.Deserializer.ParseBool` | bcs/src/de.rs:95-103 | Accepts 0 and 1 only. |
| `BcsDeserializer.Deserializer.FillSlice` | bcs/src/de.rs:105-110 | Takes that many bytes, failing exactly when the input is shorter. |
| `BcsDeserializer.Deserializer.ParseLength` | bcs/src/de.rs:163-169 | Accepts exactly the canonical encodings of lengths up to 2^31 - 1. |
| `BcsDeserializer.Deserializer.ParseBytes` | bcs/src/de.rs:171-176 | Reads a length and that many bytes. |
| `BcsDeserializer.Deserializer.Deserialize` | bcs/src/de.rs:207-439 | Moves the input past exactly one value of the described type, and gives the depth back that nested containers used. |
| `BcsDeserializer.Deserializer.DeserializeContainer` | bcs/src/de.rs:353-439 | The same for named structs and enums, every variant counted. |
| `BcsDeserializer.Deserializer.VisitSeq` | bcs/src/de.rs:477-487 | Reads the remaining elements one by one. |
| `BcsDeserializer.Deserializer.NextKey` | bcs/src/de.rs:513-536 | Accepts a key exactly when the bytes consumed for it are greater than those of the key before. |
| `BcsDeserializer.Deserializer.NextEntry` | bcs/src/de.rs:513-543 | Reads one entry, and hands its key bytes on to the next comparison. |
| `BcsDeserializer.Deserializer.VisitMap` | bcs/src/de.rs:403-409 | Reads as many entries as announced, keys ascending. |
| `BcsDeserializer.FromBytes` | bcs/src/de.rs:37-81 | Accepts exactly the written forms, with nothing left over, of the values within the limits, and returns those values. |
| `Linking.DependencyMapInBounds` | language/bytecode-verifier/src/dependencies.rs:61-66 | The dependency map never holds the module itself and files each dependency under its own id. |
| `Linking.CollectDependencies` | language/bytecode-verifier/src/dependencies.rs:61-66 | The loop keeps the last dependency of each id, except the module itself. |
| `Linking.AddStructs` | language/bytecode-verifier/src/dependencies.rs:79-87 | Enters exactly the module's struct definitions, the last of each name winning, and touches no other module's entries. |
| `Linking.AddFuns` | language/bytecode-verifier/src/dependencies.rs:88-109 | Enters exactly the functions that the client may call, and the visibility of every function. |
| `Linking.GatherDependencies` | language/bytecode-verifier/src/dependencies.rs:75-109 | Over all dependencies, in any order, exactly their definitions are entered. |
| `Linking.AddVisibilities` | language/bytecode-verifier/src/dependencies.rs:111-135 | Each function handle gets the visibility of its own definition or of the dependency's. |
| `Linking.NewContext` | language/bytecode-verifier/src/dependencies.rs:50-138 | The context answers every lookup as the dependencies' definitions say. |
| `LinkChecks.VerifyImportedModules` | language/bytecode-verifier/src/dependencies.rs:180-195 | Accepts exactly when every module handle is the module itself or a dependency. |
| `LinkChecks.VerifyImportedStructs` | language/bytecode-verifier/src/dependencies.rs:197-238 | Accepts exactly when every imported struct is defined with compatible abilities and type parameters. |
| `LinkChecks.VerifyImportedFunctions` | language/bytecode-verifier/src/dependencies.rs:240-321 | Accepts exactly when every imported function may be called and has compatible type parameters and matching signatures; what these comparisons mean is `LinkMeaning.FunLinksMeans`. |
| `LinkChecks.LinkedIsVisible` | language/bytecode-verifier/src/dependencies.rs:508-544 | Once imported functions link, the visibility of every callee is known. |
| `LinkChecks.VerifyScriptVisibilityUsage` | language/bytecode-verifier/src/dependencies.rs:508-544 | Accepts a body exactly when it calls script functions only from script visibility. |
| `LinkChecks.Verify` | language/bytecode-verifier/src/dependencies.rs:141-178 | Accepts exactly the modules and scripts that link, in all four respects. |
| `LinkMeaning.FunTypeParametersMean` | language/bytecode-verifier/src/dependencies.rs:337-356 | A function handle agrees on type parameters exactly when every list of type arguments that satisfies its constraints satisfies those of the definition. |
| `LinkMeaning.CompatibleStructsMean` | language/bytecode-verifier/src/dependencies.rs:328-399 | A struct handle agrees with the definition exactly when the definition allows every argument list the handle allows, every type has at least the abilities it has under the handle, and phantom positions stay phantom. |
| `LinkMeaning.TypesMatchMeans` | language/bytecode-verifier/src/dependencies.rs:416-480 | Two types match exactly when they name the same structs at every position and use the instantiated form in the same places. |
| `LinkMeaning.MayBeCalledMeans` | language/bytecode-verifier/src/dependencies.rs:98-104 | A function may be called exactly when it is not private and, if it is for friends, the client is one of them. |
| `LinkMeaning.FunLinksMeans` | language/bytecode-verifier/src/dependencies.rs:240-321 | A function handle links exactly when its owner defines a function of that name that is open to the client, allows whatever arguments the handle allows and has the same signature. |
| `LinkMeaning.StructLinksMeans` | language/bytecode-verifier/src/dependencies.rs:197-238 | A struct handle links exactly when its owner defines the struct and arguments, abilities and phantom positions carry over. |
| `LinkMeaning.VisibilityMeans` | language/bytecode-verifier/src/dependencies.rs:508-544 | A callee counts as a script function exactly when its own or the dependency's definition is one. |
| `LinkMeaning.LinksMeans` | language/bytecode-verifier/src/dependencies.rs:141-178 | A module or script links exactly when the modules it names are there, its handles promise no more than the definitions keep, and only scripts call script functions. |
| `Compatibility.CheckStructs` | language/move-binary-format/src/compatibility.rs:40-86 | The two flags after the struct loop say exactly whether old structs remain linkable and whether layouts are kept. |
| `Compatibility.CheckFunctions` | language/move-binary-format/src/compatibility.rs:88-129 | The flag after the function loop says exactly whether every exposed function remains usable. |
| `Compatibility.Check` | language/move-binary-format/src/compatibility.rs:31-149 | The two flags over normalized modules; what they say of the compiled modules is `UpgradeMeaning.CheckUpgrade`. |
| `Compatibility.CompatibilityComposes` | language/move-binary-format/src/compatibility.rs:31-209 | Linking-compatible upgrades can follow one another. |
| `Compatibility.CompatibleWithItself` | language/move-binary-format/src/compatibility.rs:31-149 | Every native-free module is a linking-compatible upgrade of itself. |
| `UpgradeMeaning.NormalMeans` | language/move-binary-format/src/normalized.rs:125-160 | Normalized types are equal exactly when the types name the same structs at every position. |
| `UpgradeMeaning.LayoutMeans` | language/move-binary-format/src/normalized.rs:256-282 | The layout flag is set exactly when each struct that both compiled modules define has, in the definitions the linker finds, as many fields with the same names in the same order and of the same types. |
| `UpgradeMeaning.LinkingMeans` | language/move-binary-format/src/compatibility.rs:31-149 | The linking flag is set exactly when the module keeps its identity and friends, and each struct and exposed function of the old version has its place taken by one that allows as much. |
| `UpgradeMeaning.VisibilityCompatibleMeans` | language/move-binary-format/src/compatibility.rs:109-119 | A visibility may replace another exactly when it admits every caller the old one admits, and a script function stays one. |
| `UpgradeMeaning.CheckUpgrade` | language/move-binary-format/src/compatibility.rs:31-149 | On two compiled modules the check answers exactly these two questions. |
| `UpgradeMeaning.FieldsSurvive` | language/move-binary-format/src/compatibility.rs:69-84 | Where the layout flag is set, values that can be read as the fields of the old definition can be read as those of the new one. |
| `UpgradeMeaning.StoredValuesSurvive` | language/move-binary-format/src/compatibility.rs:40-86 | Where the layout flag is set and no struct is gone, every stored value that could be read before, however nested, can be read after at the same type. |
| `UpgradeLinking.MatchCarriesOver` | language/bytecode-verifier/src/dependencies.rs:416-455 | A client's type that matches the old definition matches a new one of the same normalized type and form. |
| `UpgradeLinking.NormalTypesSuffice` | language/move-binary-format/src/normalized.rs:125-160 | Equal normalized types are interchangeable for every client exactly when both use the instantiated form of a struct in the same places. |
| `UpgradeLinking.NonEmptySameForm` | language/move-binary-format/src/normalized.rs:125-160 | Without empty instantiations equal normalized types have the same form. |
| `UpgradeLinking.StructsOfFinds` | language/move-binary-format/src/normalized.rs:96-116 | The normalized module maps a struct name exactly to what the linker's lookup finds. |
| `UpgradeLinking.ExposedOfFinds` | language/move-binary-format/src/normalized.rs:96-116 | The same for exposed functions. |
| `UpgradeLinking.FunctionUpgrades` | language/move-binary-format/src/compatibility.rs:88-149 | A function that a client may call has a compatible successor that the client may call. |
| `UpgradeLinking.StructStillLinks` | language/bytecode-verifier/src/dependencies.rs:197-238 | A struct handle that links against the old version links against the new one. |
| `UpgradeLinking.FunStillLinks` | language/bytecode-verifier/src/dependencies.rs:240-321 | So does a function handle, and no function becomes a script function. |
| `UpgradeLinking.UpgradePreservesLinking` | language/move-binary-format/src/compatibility.rs:31-149 | Whatever links against the old version of a native-free dependency links against every version reported as linking compatible whose callable functions use the same struct forms. |
| `UpgradeLinking.CallerLinks` | language/bytecode-verifier/src/dependencies.rs:141-178 | For each function that others may call there is a client, with suppliers for every struct it mentions, that links against the module. |
| `UpgradeLinking.CallerStillLinks` | language/bytecode-verifier/src/dependencies.rs:240-321 | If that client also links against the new version, the function has the same struct forms in both. |
| `UpgradeLinking.SafeExactlyWhenFormsAgree` | language/move-binary-format/src/compatibility.rs:31-149 | An upgrade reported as linking compatible keeps every script and module linking, whatever else they depend on, exactly when the struct forms agree in every function that others may call. |
| `UpgradeLinking.PlainInterfacesAgree` | language/move-binary-format/src/normalized.rs:125-160 | Without empty instantiations in the exposed signatures of either version the forms agree. |
| `UpgradeLinking.EmptyInstantiationBreaksLinking` | language/move-binary-format/src/normalized.rs:125-160 | A concrete upgrade that is reported as linking compatible and breaks a client. |
| `CyclicDependencies.Search` | language/bytecode-verifier/src/cyclic_dependencies.rs:28-52 | The recursive search terminates on any finite graph and finds the target, fails at an unknown module, or adds exactly what is newly reached. |
| `CyclicDependencies.ClosureIsExact` | language/bytecode-verifier/src/cyclic_dependencies.rs:54-66 | A set that holds the items, is closed under successors and holds only reached modules is the reachable set. |
| `CyclicDependencies.CollectAll` | language/bytecode-verifier/src/cyclic_dependencies.rs:22-66 | Reports a cycle only if the target can be reached, fails only at a reached module that is not known, and otherwise the target is not reachable and exactly the reachable set is returned. |
| `CyclicDependencies.VerifyModule` | language/bytecode-verifier/src/cyclic_dependencies.rs:77-115 | Accepts exactly the modules that close no dependency or friend cycle, share no module between the two, and depend only on known modules. |
| `CyclicDependencies.StaysAcyclic` | language/bytecode-verifier/src/cyclic_dependencies.rs:77-115 | Giving one node successors that do not lead back to it creates no cycle. |
| `CyclicDependencies.PublishKeepsAcyclic` | language/bytecode-verifier/src/cyclic_dependencies.rs:77-115 | Publishing or upgrading an accepted module keeps dependencies and friends acyclic. |
| `CyclicDependencies.EveryStoreIsAcyclic` | language/bytecode-verifier/src/cyclic_dependencies.rs:77-115 | After any sequence of publishes and upgrades, rejected ones included, no cycle exists. |
| `RepeatVec.StartsAscend` | common/proptest-helpers/src/repeat_vec.rs:247-266 | The starts of the runs ascend strictly from zero and lie below the length. |
| `RepeatVec.ExpandAt` | common/proptest-helpers/src/repeat_vec.rs:206-220 | Each logical item is that of the run around its position. |
| `RepeatVec.DeleteRun` | common/proptest-helpers/src/repeat_vec.rs:172-196 | Shrinking and shifting one more run by the positions counted so far deletes exactly those positions from it. |
| `RepeatVec.CountBelow` | common/proptest-helpers/src/repeat_vec.rs:177-184 | The inner loop's counter ends at the number of listed positions before the run's end. |
| `RepeatVec.DeleteRuns` | common/proptest-helpers/src/repeat_vec.rs:166-201 | The outer loop deletes the listed positions from all runs from the first affected one. |
| `RepeatVec.SortedDistinctMeaning` | common/proptest-helpers/src/repeat_vec.rs:122-127 | The prepared list is strictly ascending and lists the same positions. |
| `RepeatVec.RepeatVec.Extend` | common/proptest-helpers/src/repeat_vec.rs:102-108 | Appends the item as often as asked, an empty extension adding no run. |
| `RepeatVec.RepeatVec.Get` | common/proptest-helpers/src/repeat_vec.rs:206-220 | Returns the logical item at a position and its place in its run, and nothing exactly beyond the end. |
| `RepeatVec.RepeatVec.Remove` | common/proptest-helpers/src/repeat_vec.rs:114-116 | Deletes one position. |
| `RepeatVec.RepeatVec.RemoveAll` | common/proptest-helpers/src/repeat_vec.rs:122-127 | Leaves the old logical sequence without exactly the listed positions, in any order, repeated or out of range. |
| `RepeatVec.RepeatVec.RemoveAllImpl` | common/proptest-helpers/src/repeat_vec.rs:129-202 | The in-place pass over the runs does that for ascending positions, its internal assertion never failing. |
| `FloydSampling.SelectedSize` | common/proptest-helpers/src/lib.rs:71-84 | Each draw adds exactly one number, below the number of candidates. |
| `FloydSampling.PickIdxs` | common/proptest-helpers/src/lib.rs:64-85 | Yields exactly as many distinct ascending numbers below the maximum as there are sources, or all of them, and they are the ones the draws select. |
| `FloydSampling.VectorsAreLegal` | common/proptest-helpers/src/lib.rs:71-84 | The choice vectors counted are exactly the legal ones. |
| `FloydSampling.LastDraw` | common/proptest-helpers/src/lib.rs:71-84 | The last draw of a vector selecting a set is in the set, and fixes what was selected before. |
| `FloydSampling.EverySubsetEquallyLikely` | common/proptest-helpers/src/lib.rs:56-85 | Every k-subset is selected by exactly k! choice vectors. |

## Left out

- Error messages, status codes, locations and index annotations: results say which check failed where callers can tell, and otherwise only that one did.
- serde's visitor and trait machinery: a type description and a value datatype take its place; which byte strings are UTF-8 is a parameter of the environment.
- std's sort and dedup, `BTreeMap`, `HashMap`, petgraph's component search and proptest's index source: modelled by what they return; iteration over a map or set follows no particular order.
- `ResourceSafety.NoDuplication`: leaves out `VecPack`, whose typing rule does not compare operand types; a call is one step that returns values of the declared types and leaves the memory it can get at typed, and what it creates or removes is not bounded.
- `Progress.RulesAreExact`: exactness is stated for code without type parameters; a generic rule may reject what some instantiation would allow.
- `AbstractInterpreter.ErrsUnlessSolvable`: leastness assumes a join that gives least upper bounds and monotone transfer functions, which each analysis has to supply.
- `UpgradeMeaning.StoredValuesSurvive`: goes one way, since a changed field name or a type without values changes no stored value; the flag's exact meaning is `UpgradeMeaning.LayoutMeans`.
- `ResourceSafety.ExecutesCounts`: leaves the numeric results of operators open.
- `TypeSafety.Verify`: the tables of generic instantiations are resolved into the instructions, and a struct's handle and definition share one index.
- `Progress.TypedFramesStep`: whether a local is available and whether a reference still leads anywhere is what the locals and reference passes decide; vector lengths and storage are known only at run time.
- `UpgradeLinking.SafeExactlyWhenFormsAgree`: takes from the duplication check that the old version lists each struct handle once and defines the structs it owns.
- `AbstractInterpreter.AnalyzeFunction`: transfer functions carry no auxiliary data, and join and execute return states in place of updating them.
- `Linking.NewContext`: module handles are compared by identity (address and name) rather than by table index.
- `SignatureTokens.SerializeSignatureToken`: the overall size limit of a binary is not modelled, so writing to the buffer does not fail for lack of room.
- `remap_refs`, edge queries and display of the borrow graph: renaming and reporting.
- The locals and reference safety passes and the VM runtime: the abstract domain is a parameter.
- Bounds and duplication checks: their conclusions are preconditions of the later passes.
- The opcode table, the table loaders and the rest of the binary format: case lists.
- Panics of debug assertions in the borrow graph are preconditions of its operations.
- f32, f64, char, and untyped data in BCS: the code refuses them.
- crypto, macros, storage, session and gas tables, genesis, chain ids and build scripts.
