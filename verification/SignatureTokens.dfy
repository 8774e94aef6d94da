/** The byte form of signature tokens: a preorder printer and a parser that keeps partially built
    types on a stack, both without recursion and both limited to a nesting depth of 256. */
module SignatureTokens {
  import opened Collections
  import opened FileFormat
  import opened Uleb128

  const U16_MAX := 65535
  const STRUCT_HANDLE_INDEX_MAX := 65535
  const SIGNATURE_SIZE_MAX := 255
  const TYPE_PARAMETER_COUNT_MAX := 255
  const TYPE_PARAMETER_INDEX_MAX := 65536
  const SIGNATURE_TOKEN_DEPTH_MAX := 256

  const BOOL: Byte := 0x1
  const U8_CODE: Byte := 0x2
  const U64_CODE: Byte := 0x3
  const U128_CODE: Byte := 0x4
  const ADDRESS: Byte := 0x5
  const REFERENCE: Byte := 0x6
  const MUTABLE_REFERENCE: Byte := 0x7
  const STRUCT: Byte := 0x8
  const TYPE_PARAMETER: Byte := 0x9
  const VECTOR_CODE: Byte := 0xA
  const STRUCT_INST: Byte := 0xB
  const SIGNER_CODE: Byte := 0xC

  // ---------------------------------------------------------------- tokens as trees

  function Nodes(t: SignatureToken): (n: nat)
    ensures n > 0
  {
    match t
    case Vector(inner) => 1 + Nodes(inner)
    case Reference(inner) => 1 + Nodes(inner)
    case MutableReference(inner) => 1 + Nodes(inner)
    case StructInstantiation(_, args) => 1 + NodesAll(args)
    case _ => 1
  }

  function NodesAll(ts: seq<SignatureToken>): nat {
    if ts == [] then 0 else Nodes(ts[0]) + NodesAll(ts[1..])
  }

  function Kids(t: SignatureToken): (ts: seq<SignatureToken>)
    ensures NodesAll(ts) < Nodes(t)
  {
    match t
    case Vector(inner) => [inner]
    case Reference(inner) => [inner]
    case MutableReference(inner) => [inner]
    case StructInstantiation(_, args) => args
    case _ => []
  }

  function Depth(t: SignatureToken): (d: nat)
    ensures d > 0
    decreases Nodes(t), 0
  {
    1 + DepthAll(Kids(t))
  }

  function DepthAll(ts: seq<SignatureToken>): nat
    decreases NodesAll(ts), 1
  {
    if ts == [] then 0
    else var first, others := Depth(ts[0]), DepthAll(ts[1..]);
      if first > others then first else others
  }

  predicate Every(t: SignatureToken, p: SignatureToken -> bool)
    decreases Nodes(t), 0
  {
    p(t) && EveryAll(Kids(t), p)
  }

  predicate EveryAll(ts: seq<SignatureToken>, p: SignatureToken -> bool)
    decreases NodesAll(ts), 1
  {
    ts == [] || (Every(ts[0], p) && EveryAll(ts[1..], p))
  }

  /** Indexes are 16 bits wide. */
  predicate Widths(t: SignatureToken) {
    match t
    case Struct(handle) => handle <= U16_MAX
    case StructInstantiation(handle, _) => handle <= U16_MAX
    case TypeParameter(idx) => idx <= U16_MAX
    case _ => true
  }

  predicate ArityFits(t: SignatureToken) {
    t.StructInstantiation? ==> |t.typeArgs| <= SIGNATURE_SIZE_MAX
  }

  /** What the two sides agree on: an instantiation has between 1 and 255 arguments. */
  predicate Regular(t: SignatureToken) {
    Widths(t) && ArityFits(t) && (t.StructInstantiation? ==> t.typeArgs != [])
  }

  lemma {:induction false} RegularFits(t: SignatureToken)
    requires Every(t, Regular)
    ensures Every(t, Widths) && Every(t, ArityFits)
    decreases Nodes(t), 0
  {
    RegularFitsAll(Kids(t));
  }

  lemma {:induction false} RegularFitsAll(ts: seq<SignatureToken>)
    requires EveryAll(ts, Regular)
    ensures EveryAll(ts, Widths) && EveryAll(ts, ArityFits)
    decreases NodesAll(ts), 1
  {
    if ts != [] {
      RegularFits(ts[0]);
      RegularFitsAll(ts[1..]);
    }
  }

  // ---------------------------------------------------------------- printing

  /** One node, without its children. */
  function Node(t: SignatureToken): (bytes: seq<Byte>)
    ensures bytes != []
  {
    match t
    case Bool => [BOOL]
    case U8 => [U8_CODE]
    case U64 => [U64_CODE]
    case U128 => [U128_CODE]
    case Address => [ADDRESS]
    case Signer => [SIGNER_CODE]
    case Vector(_) => [VECTOR_CODE]
    case Struct(handle) => [STRUCT] + Encode(handle)
    case StructInstantiation(handle, args) => [STRUCT_INST] + Encode(handle) + Encode(|args|)
    case Reference(_) => [REFERENCE]
    case MutableReference(_) => [MUTABLE_REFERENCE]
    case TypeParameter(idx) => [TYPE_PARAMETER] + Encode(idx)
  }

  /** The tree in preorder. */
  function Print(t: SignatureToken): seq<Byte>
    decreases Nodes(t), 0
  {
    Node(t) + PrintAll(Kids(t))
  }

  function PrintAll(ts: seq<SignatureToken>): seq<Byte>
    decreases NodesAll(ts), 1
  {
    if ts == [] then [] else Print(ts[0]) + PrintAll(ts[1..])
  }

  /** `write_as_uleb128` */
  method WriteAsUleb128(binary: Buffer, x: nat, max: nat) returns (ok: bool)
    requires max < U64_LIMIT
    modifies binary
    ensures ok <==> x <= max
    ensures ok ==> binary.bytes == old(binary.bytes) + Encode(x)
  {
    if x > max { return false; }
    WriteU64AsUleb128(binary, x);
    return true;
  }

  /** `serialize_signature_token_single_node_impl` */
  method SerializeSingleNode(binary: Buffer, t: SignatureToken) returns (ok: bool)
    requires Widths(t)
    modifies binary
    ensures ok <==> ArityFits(t)
    ensures ok ==> binary.bytes == old(binary.bytes) + Node(t)
  {
    ok := true;
    match t {
      case Bool => binary.Push(BOOL);
      case U8 => binary.Push(U8_CODE);
      case U64 => binary.Push(U64_CODE);
      case U128 => binary.Push(U128_CODE);
      case Address => binary.Push(ADDRESS);
      case Signer => binary.Push(SIGNER_CODE);
      case Vector(_) => binary.Push(VECTOR_CODE);
      case Struct(idx) =>
        binary.Push(STRUCT);
        Associates(old(binary.bytes), [STRUCT], Encode(idx));
        ok := WriteAsUleb128(binary, idx, STRUCT_HANDLE_INDEX_MAX);
      case StructInstantiation(idx, args) =>
        binary.Push(STRUCT_INST);
        Associates(old(binary.bytes), [STRUCT_INST], Encode(idx));
        Associates(old(binary.bytes), [STRUCT_INST] + Encode(idx), Encode(|args|));
        ok := WriteAsUleb128(binary, idx, STRUCT_HANDLE_INDEX_MAX);
        if !ok { return; }
        ok := WriteAsUleb128(binary, |args|, SIGNATURE_SIZE_MAX);
      case Reference(_) => binary.Push(REFERENCE);
      case MutableReference(_) => binary.Push(MUTABLE_REFERENCE);
      case TypeParameter(idx) =>
        binary.Push(TYPE_PARAMETER);
        Associates(old(binary.bytes), [TYPE_PARAMETER], Encode(idx));
        ok := WriteAsUleb128(binary, idx, TYPE_PARAMETER_INDEX_MAX);
    }
  }

  /** The traversal's stack: tokens with their depth, the next one last. */
  type Pending = seq<(SignatureToken, nat)>

  /** The children in reverse order, so that the first is on top. */
  function Pushed(ts: seq<SignatureToken>, depth: nat): Pending {
    if ts == [] then [] else Pushed(ts[1..], depth) + [(ts[0], depth)]
  }

  function PrintPending(stack: Pending): seq<Byte> {
    if stack == [] then []
    else Print(stack[|stack| - 1].0) + PrintPending(stack[..|stack| - 1])
  }

  function NodesPending(stack: Pending): nat {
    if stack == [] then 0
    else Nodes(stack[|stack| - 1].0) + NodesPending(stack[..|stack| - 1])
  }

  predicate Printable(t: SignatureToken, depth: nat) {
    Every(t, ArityFits) && depth + Depth(t) <= 1 + SIGNATURE_TOKEN_DEPTH_MAX
  }

  predicate PrintableAll(ts: seq<SignatureToken>, depth: nat) {
    EveryAll(ts, ArityFits) && (ts != [] ==> depth + DepthAll(ts) <= 1 + SIGNATURE_TOKEN_DEPTH_MAX)
  }

  predicate PrintablePending(stack: Pending) {
    stack == [] || (Printable(stack[|stack| - 1].0, stack[|stack| - 1].1)
                    && PrintablePending(stack[..|stack| - 1]))
  }

  predicate WidthsPending(stack: Pending) {
    stack == [] || (Every(stack[|stack| - 1].0, Widths) && WidthsPending(stack[..|stack| - 1]))
  }

  lemma Top(stack: Pending, t: SignatureToken, depth: nat)
    ensures PrintPending(stack + [(t, depth)]) == Print(t) + PrintPending(stack)
    ensures NodesPending(stack + [(t, depth)]) == Nodes(t) + NodesPending(stack)
    ensures PrintablePending(stack + [(t, depth)]) <==>
            (Printable(t, depth) && PrintablePending(stack))
    ensures WidthsPending(stack + [(t, depth)]) <==> (Every(t, Widths) && WidthsPending(stack))
  {
    assert (stack + [(t, depth)])[..|stack|] == stack;
  }

  lemma {:induction false} PushPrints(stack: Pending, ts: seq<SignatureToken>, depth: nat)
    ensures PrintPending(stack + Pushed(ts, depth)) == PrintAll(ts) + PrintPending(stack)
    ensures NodesPending(stack + Pushed(ts, depth)) == NodesAll(ts) + NodesPending(stack)
  {
    if ts == [] {
      assert stack + [] == stack;
    } else {
      var under := stack + Pushed(ts[1..], depth);
      PushPrints(stack, ts[1..], depth);
      Top(under, ts[0], depth);
      Associates(stack, Pushed(ts[1..], depth), [(ts[0], depth)]);
      Cons(ts, depth);
      Associates(Print(ts[0]), PrintAll(ts[1..]), PrintPending(stack));
    }
  }

  lemma {:induction false} PushFits(stack: Pending, ts: seq<SignatureToken>, depth: nat)
    ensures PrintablePending(stack + Pushed(ts, depth)) <==>
            (PrintableAll(ts, depth) && PrintablePending(stack))
    ensures WidthsPending(stack + Pushed(ts, depth)) <==>
            (EveryAll(ts, Widths) && WidthsPending(stack))
  {
    if ts == [] {
      assert stack + [] == stack;
    } else {
      var under := stack + Pushed(ts[1..], depth);
      PushFits(stack, ts[1..], depth);
      Top(under, ts[0], depth);
      Associates(stack, Pushed(ts[1..], depth), [(ts[0], depth)]);
      Cons(ts, depth);
    }
  }

  lemma Cons(ts: seq<SignatureToken>, depth: nat)
    requires ts != []
    ensures PrintableAll(ts, depth) <==> Printable(ts[0], depth) && PrintableAll(ts[1..], depth)
    ensures PrintAll(ts) == Print(ts[0]) + PrintAll(ts[1..])
    ensures NodesAll(ts) == Nodes(ts[0]) + NodesAll(ts[1..])
    ensures EveryAll(ts, Widths) <==> Every(ts[0], Widths) && EveryAll(ts[1..], Widths)
  {
    assert EveryAll(ts, ArityFits) <==> Every(ts[0], ArityFits) && EveryAll(ts[1..], ArityFits);
    assert DepthAll(ts) == Depth(ts[0]) > DepthAll(ts[1..]) || DepthAll(ts) == DepthAll(ts[1..]);
    assert ts[1..] == [] ==> DepthAll(ts[1..]) == 0;
  }

  lemma OneNode(t: SignatureToken, depth: nat)
    ensures Print(t) == Node(t) + PrintAll(Kids(t)) && Nodes(t) > NodesAll(Kids(t))
    ensures Printable(t, depth) <==>
            ArityFits(t) && depth <= SIGNATURE_TOKEN_DEPTH_MAX && PrintableAll(Kids(t), depth + 1)
    ensures Every(t, Widths) <==> Widths(t) && EveryAll(Kids(t), Widths)
  {
    assert Every(t, ArityFits) <==> ArityFits(t) && EveryAll(Kids(t), ArityFits);
    assert Depth(t) == 1 + DepthAll(Kids(t));
    assert Kids(t) == [] ==> DepthAll(Kids(t)) == 0;
  }

  /** Taking the top of the traversal and pushing its children. */
  lemma Visit(stack: Pending, t: SignatureToken, depth: nat)
    ensures var before, after := stack + [(t, depth)], stack + Pushed(Kids(t), depth + 1);
            && PrintPending(before) == Node(t) + PrintPending(after)
            && NodesPending(before) > NodesPending(after)
            && (PrintablePending(before) <==>
                (ArityFits(t) && depth <= SIGNATURE_TOKEN_DEPTH_MAX && PrintablePending(after)))
            && (WidthsPending(before) <==> Widths(t) && WidthsPending(after))
  {
    Top(stack, t, depth);
    OneNode(t, depth);
    PushPrints(stack, Kids(t), depth + 1);
    PushFits(stack, Kids(t), depth + 1);
    Associates(Node(t), PrintAll(Kids(t)), PrintPending(stack));
  }

  /** `bytes` have been written of `goal`, and what is pending spells the rest. */
  predicate Printing(bytes: seq<Byte>, stack: Pending, goal: seq<Byte>) {
    WidthsPending(stack) && bytes + PrintPending(stack) == goal
  }

  lemma VisitTop(bytes: seq<Byte>, under: Pending, t: SignatureToken, depth: nat, goal: seq<Byte>)
    requires Printing(bytes, under + [(t, depth)], goal)
    ensures Widths(t) && Printing(bytes + Node(t), under + Pushed(Kids(t), depth + 1), goal)
  {
    Visit(under, t, depth);
    Associates(bytes, Node(t), PrintPending(under + Pushed(Kids(t), depth + 1)));
  }

  /** `after` is what is pending once `t` at `depth` has been taken from `before` and printed. */
  ghost predicate Visited(bytes: seq<Byte>, before: Pending, t: SignatureToken, depth: nat, after: Pending,
                          goal: seq<Byte>)
  {
    && Widths(t) && Printing(bytes + Node(t), after, goal)
    && NodesPending(after) < NodesPending(before)
    && (PrintablePending(before) <==>
        (ArityFits(t) && depth <= SIGNATURE_TOKEN_DEPTH_MAX && PrintablePending(after)))
  }

  method NextPending(ghost bytes: seq<Byte>, stack: Pending, ghost goal: seq<Byte>)
    returns (t: SignatureToken, depth: nat, after: Pending)
    requires stack != [] && Printing(bytes, stack, goal)
    ensures Visited(bytes, stack, t, depth, after, goal)
  {
    t, depth := stack[|stack| - 1].0, stack[|stack| - 1].1;
    ghost var under := stack[..|stack| - 1];
    after := stack[..|stack| - 1] + Pushed(Kids(t), depth + 1);
    assert stack == under + [(t, depth)];
    Visit(under, t, depth);
    VisitTop(bytes, under, t, depth, goal);
  }

  lemma PrintingStarts(bytes: seq<Byte>, token: SignatureToken)
    requires Every(token, Widths)
    ensures Printing(bytes, [(token, 1)], bytes + Print(token))
    ensures PrintablePending([(token, 1)]) <==> Printable(token, 1)
  {
    Top([], token, 1);
    assert [] + [(token, 1)] == [(token, 1)];
    assert Print(token) + [] == Print(token);
  }

  /** `serialize_signature_token` */
  method SerializeSignatureToken(binary: Buffer, token: SignatureToken) returns (ok: bool)
    requires Every(token, Widths)
    modifies binary
    ensures ok <==> Depth(token) <= SIGNATURE_TOKEN_DEPTH_MAX && Every(token, ArityFits)
    ensures ok ==> binary.bytes == old(binary.bytes) + Print(token)
  {
    ghost var goal := binary.bytes + Print(token);
    var stack: Pending := [(token, 1)];
    PrintingStarts(binary.bytes, token);
    while stack != []
      invariant Printing(binary.bytes, stack, goal)
      invariant PrintablePending(stack) <==> Printable(token, 1)
      decreases NodesPending(stack)
    {
      var t, depth, after := NextPending(binary.bytes, stack, goal);
      if depth > SIGNATURE_TOKEN_DEPTH_MAX { return false; }
      ok := SerializeSingleNode(binary, t);
      if !ok { return; }
      stack := after;
    }
    return true;
  }

  // ---------------------------------------------------------------- parsing

  datatype TypeBuilder =
    | Saturated(tok: SignatureToken)
    | VectorOf
    | ReferenceTo
    | MutableReferenceTo
    | StructInst(shIdx: nat, arity: nat, tyArgs: seq<SignatureToken>)
  {
    /** Any arity, 0 too, is met only once an argument has been taken. */
    function Apply(t: SignatureToken): TypeBuilder
      requires !Saturated?
    {
      match this
      case VectorOf => Saturated(Vector(t))
      case ReferenceTo => Saturated(Reference(t))
      case MutableReferenceTo => Saturated(MutableReference(t))
      case StructInst(idx, n, args) =>
        if |args| + 1 >= n
        then Saturated(StructInstantiation(idx, args + [t]))
        else StructInst(idx, n, args + [t])
    }

    /** How many more arguments saturate the builder. */
    function Missing(): nat {
      match this
      case Saturated(_) => 0
      case StructInst(_, n, args) => if |args| < n then n - |args| else 1
      case _ => 1
    }

    /** The type once all missing arguments are there. */
    function Finish(ts: seq<SignatureToken>): SignatureToken
      requires |ts| == Missing()
    {
      match this
      case Saturated(t) => t
      case VectorOf => Vector(ts[0])
      case ReferenceTo => Reference(ts[0])
      case MutableReferenceTo => MutableReference(ts[0])
      case StructInst(idx, n, args) => StructInstantiation(idx, args + ts)
    }
  }

  /** The next builder on the input. */
  function Next(s: seq<Byte>): (r: Option<(TypeBuilder, seq<Byte>)>)
    ensures r.Some? ==> |r.value.1| < |s|
    ensures r.Some? && r.value.0.StructInst? ==> r.value.0.tyArgs == []
  {
    if s == [] then None
    else if s[0] == BOOL then Some((Saturated(Bool), s[1..]))
    else if s[0] == U8_CODE then Some((Saturated(U8), s[1..]))
    else if s[0] == U64_CODE then Some((Saturated(U64), s[1..]))
    else if s[0] == U128_CODE then Some((Saturated(U128), s[1..]))
    else if s[0] == ADDRESS then Some((Saturated(Address), s[1..]))
    else if s[0] == SIGNER_CODE then Some((Saturated(Signer), s[1..]))
    else if s[0] == VECTOR_CODE then Some((VectorOf, s[1..]))
    else if s[0] == REFERENCE then Some((ReferenceTo, s[1..]))
    else if s[0] == MUTABLE_REFERENCE then Some((MutableReferenceTo, s[1..]))
    else if s[0] == STRUCT then
      match DecodeMax(s[1..], U16_MAX)
      case None => None
      case Some((idx, rest)) => Some((Saturated(Struct(idx)), rest))
    else if s[0] == STRUCT_INST then
      match DecodeMax(s[1..], U16_MAX)
      case None => None
      case Some((idx, rest)) =>
        match DecodeMax(rest, TYPE_PARAMETER_COUNT_MAX)
        case None => None
        case Some((arity, rest')) => Some((StructInst(idx, arity, []), rest'))
    else if s[0] == TYPE_PARAMETER then
      match DecodeMax(s[1..], U16_MAX)
      case None => None
      case Some((idx, rest)) => Some((Saturated(TypeParameter(idx)), rest))
    else None
  }

  /** The closure `read_next` */
  method ReadNext(cursor: Cursor) returns (r: Option<TypeBuilder>)
    modifies cursor
    ensures r.None? <==> Next(old(cursor.rest)).None?
    ensures r.Some? ==> Next(old(cursor.rest)) == Some((r.value, cursor.rest))
  {
    var b := cursor.ReadU8();
    if b.None? { return None; }
    var code := b.value;
    if code == BOOL { return Some(Saturated(Bool)); }
    if code == U8_CODE { return Some(Saturated(U8)); }
    if code == U64_CODE { return Some(Saturated(U64)); }
    if code == U128_CODE { return Some(Saturated(U128)); }
    if code == ADDRESS { return Some(Saturated(Address)); }
    if code == SIGNER_CODE { return Some(Saturated(Signer)); }
    if code == VECTOR_CODE { return Some(VectorOf); }
    if code == REFERENCE { return Some(ReferenceTo); }
    if code == MUTABLE_REFERENCE { return Some(MutableReferenceTo); }
    if code == STRUCT {
      var idx := ReadUlebInternal(cursor, STRUCT_HANDLE_INDEX_MAX, U16_MAX);
      return if idx.Some? then Some(Saturated(Struct(idx.value))) else None;
    }
    if code == STRUCT_INST {
      var idx := ReadUlebInternal(cursor, STRUCT_HANDLE_INDEX_MAX, U16_MAX);
      if idx.None? { return None; }
      var arity := ReadUlebInternal(cursor, TYPE_PARAMETER_COUNT_MAX, U64_LIMIT - 1);
      return if arity.Some? then Some(StructInst(idx.value, arity.value, [])) else None;
    }
    if code == TYPE_PARAMETER {
      var idx := ReadUlebInternal(cursor, TYPE_PARAMETER_INDEX_MAX, U16_MAX);
      return if idx.Some? then Some(Saturated(TypeParameter(idx.value))) else None;
    }
    return None;
  }

  /** Only the top of the stack may be saturated. */
  predicate Building(stack: seq<TypeBuilder>) {
    stack != [] && forall i :: 0 <= i < |stack| - 1 ==> !stack[i].Saturated?
  }

  /** What the stack machine goes on to read. */
  function Run(stack: seq<TypeBuilder>, s: seq<Byte>): Option<(SignatureToken, seq<Byte>)>
    requires Building(stack)
    decreases |s|, |stack|
  {
    var n := |stack|;
    if n > SIGNATURE_TOKEN_DEPTH_MAX then None
    else if stack[n - 1].Saturated? then
      if n == 1 then Some((stack[0].tok, s))
      else Run(stack[..n - 2] + [stack[n - 2].Apply(stack[n - 1].tok)], s)
    else
      match Next(s)
      case None => None
      case Some((b, rest)) => Run(stack + [b], rest)
  }

  function Load(s: seq<Byte>): Option<(SignatureToken, seq<Byte>)> {
    match Next(s)
    case None => None
    case Some((b, rest)) => if b.Saturated? then Some((b.tok, rest)) else Run([b], rest)
  }

  /** `load_signature_token`: the loop ends by bytes left, then stack height, and neither `unwrap`
      nor the unreachable arms are ever reached. */
  method LoadSignatureToken(cursor: Cursor) returns (r: Option<SignatureToken>)
    modifies cursor
    ensures r.None? <==> Load(old(cursor.rest)).None?
    ensures r.Some? ==> Load(old(cursor.rest)) == Some((r.value, cursor.rest))
  {
    var first := ReadNext(cursor);
    if first.None? { return None; }
    if first.value.Saturated? { return Some(first.value.tok); }
    var stack := [first.value];
    while true
      invariant Building(stack)
      invariant Load(old(cursor.rest)) == Run(stack, cursor.rest)
      decreases |cursor.rest|, |stack|
    {
      var n := |stack|;
      if n > SIGNATURE_TOKEN_DEPTH_MAX { return None; }
      if stack[n - 1].Saturated? {
        if n == 1 { return Some(stack[0].tok); }
        stack := stack[..n - 2] + [stack[n - 2].Apply(stack[n - 1].tok)];
      } else {
        var next := ReadNext(cursor);
        if next.None? { return None; }
        stack := stack + [next.value];
      }
    }
  }

  // ---------------------------------------------------------------- the grammar

  /** The same language by recursive descent. Instantiations declaring fewer than `least` arguments
      are refused; the declared number counts as 1 when it is 0. */
  function Descend(s: seq<Byte>, depth: nat, least: nat): (r: Option<(SignatureToken, seq<Byte>)>)
    ensures r.Some? ==> |r.value.1| < |s|
    decreases |s|, 0
  {
    if depth == 0 then None
    else
      match Next(s)
      case None => None
      case Some((b, rest)) =>
        if b.StructInst? && b.arity < least then None
        else
          match DescendAll(rest, depth - 1, b.Missing(), least)
          case None => None
          case Some((ts, rest')) => Some((b.Finish(ts), rest'))
  }

  function DescendAll(s: seq<Byte>, depth: nat, n: nat, least: nat)
    : (r: Option<(seq<SignatureToken>, seq<Byte>)>)
    ensures r.Some? ==> |r.value.0| == n && |r.value.1| <= |s|
    decreases |s|, n
  {
    if n == 0 then Some(([], s))
    else
      match Descend(s, depth, least)
      case None => None
      case Some((t, rest)) =>
        match DescendAll(rest, depth, n - 1, least)
        case None => None
        case Some((ts, rest')) => Some(([t] + ts, rest'))
  }

  /** What the machine does with the outcome of reading one more type. */
  function Continue(stack: seq<TypeBuilder>, r: Option<(SignatureToken, seq<Byte>)>)
    : Option<(SignatureToken, seq<Byte>)>
    requires forall i :: 0 <= i < |stack| ==> !stack[i].Saturated?
  {
    match r
    case None => None
    case Some((t, rest)) => Run(stack + [Saturated(t)], rest)
  }

  lemma {:induction false} RunDescends(stack: seq<TypeBuilder>, s: seq<Byte>)
    requires forall i :: 0 <= i < |stack| ==> !stack[i].Saturated?
    requires 0 < |stack| <= SIGNATURE_TOKEN_DEPTH_MAX
    ensures Run(stack, s) == Continue(stack, Descend(s, SIGNATURE_TOKEN_DEPTH_MAX - |stack|, 0))
    decreases |s|, 0
  {
    var next := Next(s);
    if next.Some? {
      var (b, rest) := next.value;
      if |stack| < SIGNATURE_TOKEN_DEPTH_MAX && !b.Saturated? {
        BuilderDescends(stack, b, rest);
      }
    }
  }

  lemma ApplyStep(stack: seq<TypeBuilder>, b: TypeBuilder, t: SignatureToken, s: seq<Byte>)
    requires forall i :: 0 <= i < |stack| ==> !stack[i].Saturated?
    requires !b.Saturated? && |stack| + 2 <= SIGNATURE_TOKEN_DEPTH_MAX
    ensures Run(stack + [b] + [Saturated(t)], s) == Run(stack + [b.Apply(t)], s)
  {
    var both := stack + [b] + [Saturated(t)];
    assert both[..|both| - 2] == stack;
  }

  lemma FinishStep(b: TypeBuilder, t: SignatureToken, ts: seq<SignatureToken>)
    requires 1 + |ts| == b.Missing()
    ensures b.Apply(t).Missing() == |ts| && b.Apply(t).Finish(ts) == b.Finish([t] + ts)
    ensures b.Apply(t).Saturated? <==> ts == []
  {
    if b.StructInst? { Associates(b.tyArgs, [t], ts); }
  }

  lemma {:induction false} BuilderDescends(stack: seq<TypeBuilder>, b: TypeBuilder, s: seq<Byte>)
    requires forall i :: 0 <= i < |stack| ==> !stack[i].Saturated?
    requires !b.Saturated? && |stack| < SIGNATURE_TOKEN_DEPTH_MAX
    ensures var r := DescendAll(s, SIGNATURE_TOKEN_DEPTH_MAX - 1 - |stack|, b.Missing(), 0);
            Run(stack + [b], s) ==
            Continue(stack, if r.None? then None else Some((b.Finish(r.value.0), r.value.1)))
    decreases |s|, b.Missing()
  {
    var depth := SIGNATURE_TOKEN_DEPTH_MAX - 1 - |stack|;
    RunDescends(stack + [b], s);
    var first := Descend(s, depth, 0);
    if first.Some? {
      var (t, rest) := first.value;
      var others := DescendAll(rest, depth, b.Missing() - 1, 0);
      ApplyStep(stack, b, t, rest);
      if b.Missing() == 1 {
        FinishStep(b, t, []);
      } else {
        FinishStep(b, t, seq(b.Missing() - 1, _ => t));
        BuilderDescends(stack, b.Apply(t), rest);
        if others.Some? { FinishStep(b, t, others.value.0); }
      }
    }
  }

  /** The stack machine reads exactly the language of the recursive descent to depth 256. */
  lemma LoadDescends(s: seq<Byte>)
    ensures Load(s) == Descend(s, SIGNATURE_TOKEN_DEPTH_MAX, 0)
  {
    var next := Next(s);
    if next.Some? {
      var (b, rest) := next.value;
      if !b.Saturated? {
        BuilderDescends([], b, rest);
        assert [] + [b] == [b];
      }
    }
  }

  // ---------------------------------------------------------------- printing against parsing

  function BuilderOf(t: SignatureToken): TypeBuilder {
    match t
    case Vector(_) => VectorOf
    case Reference(_) => ReferenceTo
    case MutableReference(_) => MutableReferenceTo
    case StructInstantiation(handle, args) => StructInst(handle, |args|, [])
    case _ => Saturated(t)
  }

  lemma NextAfterIndex(code: Byte, idx: nat, more: seq<Byte>)
    ensures var s := [code] + Encode(idx) + more;
            s[0] == code && s[1..] == Encode(idx) + more && Decode(s[1..]) == Some((idx, more))
  {
    Associates([code], Encode(idx), more);
    DecodeEncode(idx, more);
  }

  lemma NextAfterInstantiation(handle: nat, arity: nat, rest: seq<Byte>)
    requires handle <= U16_MAX && arity <= TYPE_PARAMETER_COUNT_MAX
    ensures Next([STRUCT_INST] + Encode(handle) + Encode(arity) + rest)
         == Some((StructInst(handle, arity, []), rest))
  {
    NextAfterIndex(STRUCT_INST, handle, Encode(arity) + rest);
    DecodeEncode(arity, rest);
    Associates([STRUCT_INST] + Encode(handle), Encode(arity), rest);
  }

  lemma NextAfterNode(t: SignatureToken, rest: seq<Byte>)
    requires Regular(t)
    ensures Next(Node(t) + rest) == Some((BuilderOf(t), rest))
    ensures BuilderOf(t).Missing() == |Kids(t)| && BuilderOf(t).Finish(Kids(t)) == t
  {
    if t.Struct? {
      NextAfterIndex(STRUCT, t.handle, rest);
    } else if t.TypeParameter? {
      NextAfterIndex(TYPE_PARAMETER, t.idx, rest);
    } else if t.StructInstantiation? {
      NextAfterInstantiation(t.handle, |t.typeArgs|, rest);
      assert [] + t.typeArgs == t.typeArgs;
    } else {
      assert (Node(t) + rest)[1..] == rest;
    }
  }

  /** Only the node that the printer emits makes the reader see its builder, unless the declared
      arity is 0. */
  lemma NodeBeforeNext(s: seq<Byte>, ts: seq<SignatureToken>)
    requires Next(s).Some? && |ts| == Next(s).value.0.Missing()
    requires var b := Next(s).value.0; b.StructInst? ==> b.arity > 0
    ensures var (b, rest) := Next(s).value;
            Regular(b.Finish(ts)) && Kids(b.Finish(ts)) == ts && s == Node(b.Finish(ts)) + rest
  {
    assert s == [s[0]] + s[1..];
    if s[0] == STRUCT || s[0] == TYPE_PARAMETER {
      EncodeDecode(s[1..]);
    } else if s[0] == STRUCT_INST {
      EncodeDecode(s[1..]);
      var (idx, mid) := Decode(s[1..]).value;
      EncodeDecode(mid);
      var (arity, rest) := Decode(mid).value;
      Associates(Encode(idx), Encode(arity), rest);
      Associates([STRUCT_INST], Encode(idx) + Encode(arity), rest);
      Associates([STRUCT_INST], Encode(idx), Encode(arity));
      assert [] + ts == ts;
    }
  }

  lemma {:induction false} DescendPrint(t: SignatureToken, rest: seq<Byte>, depth: nat, least: nat)
    requires Every(t, Regular) && least <= 1
    ensures Descend(Print(t) + rest, depth, least) ==
            if Depth(t) <= depth then Some((t, rest)) else None
    decreases Nodes(t), 0
  {
    Associates(Node(t), PrintAll(Kids(t)), rest);
    NextAfterNode(t, PrintAll(Kids(t)) + rest);
    if depth > 0 { DescendPrintAll(Kids(t), rest, depth - 1, least); }
  }

  lemma {:induction false} DescendPrintAll(ts: seq<SignatureToken>, rest: seq<Byte>, depth: nat, least: nat)
    requires EveryAll(ts, Regular) && least <= 1
    ensures DescendAll(PrintAll(ts) + rest, depth, |ts|, least) ==
            if DepthAll(ts) <= depth then Some((ts, rest)) else None
    decreases NodesAll(ts), 1
  {
    if ts == [] {
      assert [] + rest == rest;
    } else {
      Associates(Print(ts[0]), PrintAll(ts[1..]), rest);
      DescendPrint(ts[0], PrintAll(ts[1..]) + rest, depth, least);
      DescendPrintAll(ts[1..], rest, depth, least);
      assert [ts[0]] + ts[1..] == ts;
    }
  }

  lemma {:induction false} PrintDescend(s: seq<Byte>, depth: nat)
    requires Descend(s, depth, 1).Some?
    ensures var (t, rest) := Descend(s, depth, 1).value;
            Every(t, Regular) && Depth(t) <= depth && s == Print(t) + rest
    decreases |s|, 0
  {
    var (b, mid) := Next(s).value;
    PrintDescendAll(mid, depth - 1, b.Missing());
    var (ts, rest) := DescendAll(mid, depth - 1, b.Missing(), 1).value;
    NodeBeforeNext(s, ts);
    Associates(Node(b.Finish(ts)), PrintAll(ts), rest);
  }

  lemma {:induction false} PrintDescendAll(s: seq<Byte>, depth: nat, n: nat)
    requires DescendAll(s, depth, n, 1).Some?
    ensures var (ts, rest) := DescendAll(s, depth, n, 1).value;
            EveryAll(ts, Regular) && DepthAll(ts) <= depth && s == PrintAll(ts) + rest
    decreases |s|, n
  {
    if n == 0 {
      assert [] + s == s;
    } else {
      PrintDescend(s, depth);
      var (t, mid) := Descend(s, depth, 1).value;
      PrintDescendAll(mid, depth, n - 1);
      var (ts, rest) := DescendAll(mid, depth, n - 1, 1).value;
      assert ([t] + ts)[1..] == ts;
      Associates(Print(t), PrintAll(ts), rest);
    }
  }

  /** Whatever the loader returns could have been printed within the limits. */
  lemma {:induction false} DescendIsRegular(s: seq<Byte>, depth: nat)
    requires Descend(s, depth, 0).Some?
    ensures var (t, rest) := Descend(s, depth, 0).value; Every(t, Regular) && Depth(t) <= depth
    decreases |s|, 0
  {
    var (b, mid) := Next(s).value;
    DescendIsRegularAll(mid, depth - 1, b.Missing());
    var (ts, rest) := DescendAll(mid, depth - 1, b.Missing(), 0).value;
    if b.StructInst? {
      assert [] + ts == ts;
    }
    assert Kids(b.Finish(ts)) == ts && Regular(b.Finish(ts));
  }

  lemma {:induction false} DescendIsRegularAll(s: seq<Byte>, depth: nat, n: nat)
    requires DescendAll(s, depth, n, 0).Some?
    ensures var (ts, rest) := DescendAll(s, depth, n, 0).value;
            EveryAll(ts, Regular) && DepthAll(ts) <= depth
    decreases |s|, n
  {
    if n > 0 {
      DescendIsRegular(s, depth);
      var (t, mid) := Descend(s, depth, 0).value;
      DescendIsRegularAll(mid, depth, n - 1);
      var (ts, rest) := DescendAll(mid, depth, n - 1, 0).value;
      assert ([t] + ts)[1..] == ts;
    }
  }

  /** The parser returns a token from its printed form, leaving the rest of the input, exactly when
      every instantiation has 1 to 255 arguments and the depth is at most 256. */
  lemma LoadPrint(t: SignatureToken, rest: seq<Byte>)
    ensures Load(Print(t) + rest) == Some((t, rest)) <==>
            Every(t, Regular) && Depth(t) <= SIGNATURE_TOKEN_DEPTH_MAX
  {
    var s := Print(t) + rest;
    LoadDescends(s);
    if Every(t, Regular) {
      DescendPrint(t, rest, SIGNATURE_TOKEN_DEPTH_MAX, 0);
    } else if Load(s).Some? {
      DescendIsRegular(s, SIGNATURE_TOKEN_DEPTH_MAX);
    }
  }

  /** For tokens whose instantiations have 1 to 255 arguments, the printer succeeds exactly when the
      parser accepts what it prints. */
  method PrinterAndParserAgree(token: SignatureToken, rest: seq<Byte>)
    returns (printed: bool, parsed: Option<SignatureToken>)
    requires Every(token, Regular)
    ensures printed <==> Depth(token) <= SIGNATURE_TOKEN_DEPTH_MAX
    ensures printed ==> parsed == Some(token)
    ensures !printed ==> Load(Print(token) + rest).None?
  {
    RegularFits(token);
    var binary := new Buffer();
    printed := SerializeSignatureToken(binary, token);
    parsed := None;
    LoadPrint(token, rest);
    if printed {
      var cursor := new Cursor(binary.bytes + rest);
      assert [] + Print(token) == Print(token);
      parsed := LoadSignatureToken(cursor);
      assert cursor.rest == rest;
    } else {
      LoadDescends(Print(token) + rest);
      DescendPrint(token, rest, SIGNATURE_TOKEN_DEPTH_MAX, 0);
    }
  }

  /** An accepted string is the printed form of what it is parsed to exactly when no instantiation
      in it declares 0 arguments. */
  lemma PrintLoad(s: seq<Byte>)
    requires Load(s).Some?
    ensures var (t, rest) := Load(s).value;
            s == Print(t) + rest <==> Descend(s, SIGNATURE_TOKEN_DEPTH_MAX, 1).Some?
  {
    var (t, rest) := Load(s).value;
    LoadDescends(s);
    DescendIsRegular(s, SIGNATURE_TOKEN_DEPTH_MAX);
    if s == Print(t) + rest {
      DescendPrint(t, rest, SIGNATURE_TOKEN_DEPTH_MAX, 1);
    }
    if Descend(s, SIGNATURE_TOKEN_DEPTH_MAX, 1).Some? {
      PrintDescend(s, SIGNATURE_TOKEN_DEPTH_MAX);
      var (t', rest') := Descend(s, SIGNATURE_TOKEN_DEPTH_MAX, 1).value;
      DescendPrint(t', rest', SIGNATURE_TOKEN_DEPTH_MAX, 0);
    }
  }

  /** Declaring 0 arguments and supplying one is a second spelling of an instantiation with one. */
  lemma ZeroArityTakesAnArgument()
    ensures var s: seq<Byte> := [STRUCT_INST, 0, 0, BOOL];
            && Load(s) == Some((StructInstantiation(0, [Bool]), []))
            && Print(StructInstantiation(0, [Bool])) == [STRUCT_INST, 0, 1, BOOL]
  {
    var s: seq<Byte> := [STRUCT_INST, 0, 0, BOOL];
    LoadDescends(s);
    assert s[1..] == [0, 0, BOOL] && s[1..][1..] == [0, BOOL] && s[1..][1..][1..] == [BOOL];
    assert Next(s) == Some((StructInst(0, 0, []), [BOOL]));
    assert Next([BOOL]) == Some((Saturated(Bool), []));
    assert Descend([BOOL], 255, 0) == Some((Bool, []));
    assert DescendAll([], 255, 0, 0) == Some(([], []));
    assert [Bool] + [] == [Bool];
    assert DescendAll([BOOL], 255, 1, 0) == Some(([Bool], []));
    assert [] + [Bool] == [Bool];
    assert PrintAll([Bool]) == Print(Bool) + [] == [BOOL];
  }
}
