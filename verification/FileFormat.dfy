/** The parts of the binary format that the verifier passes share: abilities, signature
    tokens, the struct and function tables, and the instruction set.

    Plain and generic forms of an instruction are one constructor: the plain form carries no
    type arguments. Immutable and mutable borrows are one constructor with a flag. Operations
    that every pass treats alike (Add, Sub, ..., Xor) are one constructor. */
module FileFormat {

  datatype Option<+T> = None | Some(value: T)

  datatype Ability = Copy | Drop | Store | Key {
    /** What each field of a struct with this ability needs. */
    function Requires(): Ability {
      match this
      case Copy => Copy
      case Drop => Drop
      case Store => Store
      case Key => Store
    }

    /** The abilities whose `Requires` is this one. */
    function RequiredBy(): AbilitySet {
      match this
      case Copy => {Copy}
      case Drop => {Drop}
      case Store => {Store, Key}
      case Key => {}
    }
  }

  type AbilitySet = set<Ability>

  const ALL: AbilitySet := {Copy, Drop, Store, Key}
  const PRIMITIVES: AbilitySet := {Copy, Drop, Store}
  const REFERENCES: AbilitySet := {Copy, Drop}
  const SIGNER: AbilitySet := {Drop}
  const VECTOR: AbilitySet := {Copy, Drop, Store}

  datatype SignatureToken =
    | Bool | U8 | U64 | U128 | Address | Signer
    | Vector(elem: SignatureToken)
    | Struct(handle: nat)
    | StructInstantiation(handle: nat, typeArgs: seq<SignatureToken>)
    | Reference(inner: SignatureToken)
    | MutableReference(inner: SignatureToken)
    | TypeParameter(idx: nat)
  {
    predicate IsInteger() { U8? || U64? || U128? }

    predicate IsReference() { Reference? || MutableReference? }

    predicate IsValidForConstant() {
      match this
      case Bool | U8 | U64 | U128 | Address => true
      case Vector(inner) => inner.IsValidForConstant()
      case _ => false
    }
  }

  type Signature = seq<SignatureToken>

  datatype StructTypeParameter = StructTypeParameter(constraints: AbilitySet, isPhantom: bool)

  datatype FieldInformation = Native | Declared(fields: seq<SignatureToken>)

  /** A struct handle together with its definition. */
  datatype StructDecl = StructDecl(
    abilities: AbilitySet,
    typeParameters: seq<StructTypeParameter>,
    fieldInformation: FieldInformation)

  datatype FunctionHandle = FunctionHandle(
    parameters: Signature,
    results: Signature,
    typeParameters: seq<AbilitySet>)

  datatype Bytecode =
    | Pop | Ret | Abort | Nop
    | BrTrue(target: nat) | BrFalse(target: nat) | Branch(target: nat)
    | LdU8 | LdU64 | LdU128 | LdTrue | LdFalse | LdConst(constant: nat)
    | CopyLoc(local: nat) | MoveLoc(local: nat) | StLoc(local: nat)
    | Call(function_: nat, typeArgs: Signature)
    | Pack(def: nat, typeArgs: Signature) | Unpack(def: nat, typeArgs: Signature)
    | ReadRef | WriteRef | FreezeRef
    | BorrowLoc(mutable: bool, local: nat)
    | BorrowField(mutable: bool, def: nat, field: nat, typeArgs: Signature)
    | BorrowGlobal(mutable: bool, def: nat, typeArgs: Signature)
    | CastU8 | CastU64 | CastU128
    | Arithmetic | Shift | Logical | Not | Equality | Comparison
    | Exists(def: nat, typeArgs: Signature)
    | MoveFrom(def: nat, typeArgs: Signature)
    | MoveTo(def: nat, typeArgs: Signature)
    | VecPack(elemType: SignatureToken, num: nat)
    | VecUnpack(elemType: SignatureToken, num: nat)
    | VecLen(elemType: SignatureToken)
    | VecBorrow(mutable: bool, elemType: SignatureToken)
    | VecPushBack(elemType: SignatureToken)
    | VecPopBack(elemType: SignatureToken)
    | VecSwap(elemType: SignatureToken)
  {
    predicate IsUnconditionalBranch() { Ret? || Abort? || Branch? }

    predicate IsConditionalBranch() { BrTrue? || BrFalse? }

    predicate IsBranch() { IsConditionalBranch() || IsUnconditionalBranch() }

    /** The jump target, if there is one; Ret and Abort are branches without one. */
    function Offset(): Option<nat> {
      match this
      case BrTrue(t) => Some(t)
      case BrFalse(t) => Some(t)
      case Branch(t) => Some(t)
      case _ => None
    }
  }

  type Code = seq<Bytecode>

  /** The bounds checker's conclusion about jumps. */
  predicate JumpsInBounds(code: Code) {
    forall pc :: 0 <= pc < |code| && code[pc].Offset().Some? ==> code[pc].Offset().value < |code|
  }

  /** Control can pass from `pc` to `next` in one step. */
  predicate Flows(code: Code, pc: nat, next: nat) {
    && pc < |code|
    && (code[pc].Offset() == Some(next)
        || (next == pc + 1 < |code| && !code[pc].IsUnconditionalBranch()))
  }

  /** A sequence of program counters that control can follow. */
  predicate IsTrace(code: Code, trace: seq<nat>) {
    && |trace| > 0
    && trace[0] < |code|
    && forall i :: 0 <= i < |trace| - 1 ==> Flows(code, trace[i], trace[i + 1])
  }

  predicate IsRun(code: Code, trace: seq<nat>) {
    IsTrace(code, trace) && trace[0] == 0
  }
}
