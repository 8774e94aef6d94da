/** What BCS writes and reads: type descriptions (named containers may refer to each other), values,
    the bytes of a value, and the strict reader as a function. */
module Bcs {
  import opened Collections
  import opened FileFormat
  import opened KeyOrder
  import opened Uleb128

  const MAX_SEQUENCE_LENGTH := 0x7fff_ffff
  const MAX_CONTAINER_DEPTH := 500

  /** The width of an integer in bytes. */
  type IntWidth = w: nat | w == 1 || w == 2 || w == 4 || w == 8 || w == 16 witness 1

  datatype Desc =
    | BoolD
    | IntD(width: IntWidth, signed: bool)
    | BytesD
    | StrD
    | UnitD
    | OptionD(elem: Desc)
    | SeqD(elem: Desc)
    | TupleD(elems: seq<Desc>)
    | MapD(key: Desc, value: Desc)
    | NamedD(name: nat)

  /** Unit, newtype and tuple structs and structs are products; a variant carries nothing or fields. */
  datatype Variant = UnitVariant | FieldsVariant(fields: seq<Desc>)

  datatype Container = Product(fields: seq<Desc>) | EnumOf(variants: seq<Variant>)

  /** The named containers, and which byte strings are UTF-8. */
  datatype Env = Env(containers: seq<Container>, utf8: seq<Byte> -> bool)

  datatype Value =
    | BoolV(b: bool)
    | IntV(i: int)
    | BytesV(bytes: seq<Byte>)
    | UnitV
    | NoneV
    | SomeV(value: Value)
    | ListV(vs: seq<Value>)
    | MapV(keys: seq<Value>, values: seq<Value>) // keys[i] maps to values[i]
    | ContainerV(fields: seq<Value>)
    | VariantV(index: nat, payload: seq<Value>)

  /** The types of the elements of a list: all alike, or one each. */
  datatype Shape = Each(elem: Desc) | Fields(descs: seq<Desc>) {
    predicate IsEmpty() { Fields? && descs == [] }

    function Head(): Desc
      requires !IsEmpty()
    {
      match this
      case Each(d) => d
      case Fields(ds) => ds[0]
    }

    function Tail(): Shape
      requires !IsEmpty()
    {
      match this
      case Each(_) => this
      case Fields(ds) => Fields(ds[1..])
    }
  }

  // ---------------------------------------------------------------- integers

  function Pow256(w: nat): (r: nat)
    ensures r > 0
  {
    if w == 0 then 1 else 256 * Pow256(w - 1)
  }

  predicate InRange(w: nat, signed: bool, i: int)
    requires w > 0
  {
    if signed then -128 * Pow256(w - 1) <= i < 128 * Pow256(w - 1) else 0 <= i < Pow256(w)
  }

  /** `to_le_bytes` of the low `8 * w` bits. */
  function LeBytes(w: nat, i: int): (s: seq<Byte>)
    ensures |s| == w
  {
    if w == 0 then [] else [i % 256] + LeBytes(w - 1, i / 256)
  }

  /** `from_le_bytes`, the last byte carrying the sign of a signed number. */
  function FromLe(s: seq<Byte>, signed: bool): int {
    if s == [] then 0
    else if |s| == 1 then (if signed && s[0] >= 128 then s[0] - 256 else s[0])
    else s[0] + 256 * FromLe(s[1..], signed)
  }

  lemma LowByte(low: Byte, high: int)
    ensures (low + 256 * high) % 256 == low && (low + 256 * high) / 256 == high
  {}

  lemma LeBytesCons(w: nat, low: Byte, high: int)
    ensures LeBytes(w + 1, low + 256 * high) == [low] + LeBytes(w, high)
  {
    LowByte(low, high);
  }

  lemma {:induction false} FromLeBytes(w: nat, signed: bool, i: int)
    requires w > 0 && InRange(w, signed, i)
    ensures FromLe(LeBytes(w, i), signed) == i
  {
    if w > 1 {
      assert LeBytes(w, i)[1..] == LeBytes(w - 1, i / 256);
      FromLeBytes(w - 1, signed, i / 256);
    } else {
      assert LeBytes(1, i) == [i % 256];
    }
  }

  lemma {:induction false} FromLeInRange(s: seq<Byte>, signed: bool)
    requires s != []
    ensures InRange(|s|, signed, FromLe(s, signed))
  {
    if |s| > 1 {
      FromLeInRange(s[1..], signed);
      assert Pow256(|s|) == 256 * Pow256(|s| - 1);
    }
  }

  lemma {:induction false} LeBytesFrom(s: seq<Byte>, signed: bool)
    requires s != []
    ensures LeBytes(|s|, FromLe(s, signed)) == s
  {
    assert s == [s[0]] + s[1..];
    if |s| > 1 {
      LeBytesFrom(s[1..], signed);
      LeBytesCons(|s| - 1, s[0], FromLe(s[1..], signed));
    } else {
      LowByte(s[0], if signed && s[0] >= 128 then -1 else 0);
      LeBytesCons(0, s[0], if signed && s[0] >= 128 then -1 else 0);
    }
  }

  // ---------------------------------------------------------------- the bytes of a value

  function Concat(es: seq<Entry<seq<Byte>>>): seq<Byte> {
    if es == [] then [] else es[0].key + es[0].payload + Concat(es[1..])
  }

  function Bytes(env: Env, d: Desc, v: Value): seq<Byte>
    decreases v
  {
    match v
    case BoolV(b) => [if b then 1 else 0]
    case IntV(i) => if d.IntD? then LeBytes(d.width, i) else []
    case BytesV(bytes) => Encode(|bytes|) + bytes
    case UnitV => []
    case NoneV => [0]
    case SomeV(inner) => if d.OptionD? then [1] + Bytes(env, d.elem, inner) else []
    case ListV(vs) =>
      if d.SeqD? then Encode(|vs|) + BytesAll(env, Each(d.elem), vs)
      else if d.TupleD? then BytesAll(env, Fields(d.elems), vs)
      else []
    case MapV(keys, values) =>
      if !d.MapD? then []
      else
        var es := Canon(Zip(BytesEach(env, d.key, keys), BytesEach(env, d.value, values)));
        Encode(|es|) + Concat(es)
    case ContainerV(vs) =>
      if IsProduct(env, d) then BytesAll(env, Fields(env.containers[d.name].fields), vs) else []
    case VariantV(index, vs) =>
      if !IsVariant(env, d, index) then []
      else
        match env.containers[d.name].variants[index]
        case UnitVariant => Encode(index)
        case FieldsVariant(ds) => Encode(index) + BytesAll(env, Fields(ds), vs)
  }

  predicate IsProduct(env: Env, d: Desc) {
    d.NamedD? && d.name < |env.containers| && env.containers[d.name].Product?
  }

  /** Variant indexes are 32 bits wide. */
  predicate IsVariant(env: Env, d: Desc, index: nat) {
    && d.NamedD? && d.name < |env.containers| && env.containers[d.name].EnumOf?
    && index < |env.containers[d.name].variants| && index < U32_LIMIT
  }

  function BytesAll(env: Env, sh: Shape, vs: seq<Value>): seq<Byte>
    decreases vs
  {
    if vs == [] || sh.IsEmpty() then []
    else Bytes(env, sh.Head(), vs[0]) + BytesAll(env, sh.Tail(), vs[1..])
  }

  function BytesEach(env: Env, d: Desc, vs: seq<Value>): (r: seq<seq<Byte>>)
    ensures |r| == |vs|
    decreases vs
  {
    if vs == [] then [] else [Bytes(env, d, vs[0])] + BytesEach(env, d, vs[1..])
  }

  function Zip<T>(keys: seq<seq<Byte>>, values: seq<T>): (es: seq<Entry<T>>)
    ensures |es| == if |keys| < |values| then |keys| else |values|
    ensures forall i :: 0 <= i < |es| ==> es[i] == Entry(keys[i], values[i])
  {
    if keys == [] || values == [] then []
    else [Entry(keys[0], values[0])] + Zip(keys[1..], values[1..])
  }

  /** The serialized entries of a map, in the order in which they are added. */
  function Keyed(env: Env, d: Desc, keys: seq<Value>, values: seq<Value>): seq<Entry<seq<Byte>>>
    requires d.MapD?
  {
    Zip(BytesEach(env, d.key, keys), BytesEach(env, d.value, values))
  }

  // ---------------------------------------------------------------- typing and limits

  /** `v` is a value of the described type; if `sorted`, its maps list their entries strictly sorted
      by the bytes of the keys. */
  predicate Typed(env: Env, d: Desc, v: Value, sorted: bool)
    decreases v
  {
    match v
    case BoolV(_) => d.BoolD?
    case IntV(i) => d.IntD? && InRange(d.width, d.signed, i)
    case BytesV(bytes) => d.BytesD? || (d.StrD? && env.utf8(bytes))
    case UnitV => d.UnitD?
    case NoneV => d.OptionD?
    case SomeV(inner) => d.OptionD? && Typed(env, d.elem, inner, sorted)
    case ListV(vs) =>
      || (d.SeqD? && TypedAll(env, Each(d.elem), vs, sorted))
      || (d.TupleD? && TypedAll(env, Fields(d.elems), vs, sorted))
    case MapV(keys, values) =>
      && d.MapD?
      && |keys| == |values|
      && TypedAll(env, Each(d.key), keys, sorted)
      && TypedAll(env, Each(d.value), values, sorted)
      && (sorted ==> StrictlySorted(Keyed(env, d, keys, values)))
    case ContainerV(vs) =>
      IsProduct(env, d) && TypedAll(env, Fields(env.containers[d.name].fields), vs, sorted)
    case VariantV(index, vs) =>
      && IsVariant(env, d, index)
      && match env.containers[d.name].variants[index]
         case UnitVariant => vs == []
         case FieldsVariant(ds) => TypedAll(env, Fields(ds), vs, sorted)
  }

  predicate TypedAll(env: Env, sh: Shape, vs: seq<Value>, sorted: bool)
    decreases vs
  {
    if vs == [] then sh.Each? || sh.IsEmpty()
    else
      && !sh.IsEmpty()
      && Typed(env, sh.Head(), vs[0], sorted)
      && TypedAll(env, sh.Tail(), vs[1..], sorted)
  }

  /** The value keeps within the writer's limits: lengths, and nesting of named containers, where a
      unit variant does not count. */
  predicate Writable(env: Env, d: Desc, v: Value, depth: nat)
    decreases v
  {
    match v
    case BytesV(bytes) => |bytes| <= MAX_SEQUENCE_LENGTH
    case SomeV(inner) => d.OptionD? && Writable(env, d.elem, inner, depth)
    case ListV(vs) =>
      || (d.SeqD? && |vs| <= MAX_SEQUENCE_LENGTH && WritableAll(env, Each(d.elem), vs, depth))
      || (d.TupleD? && WritableAll(env, Fields(d.elems), vs, depth))
    case MapV(keys, values) =>
      && d.MapD?
      && WritableAll(env, Each(d.key), keys, depth)
      && WritableAll(env, Each(d.value), values, depth)
      && |Canon(Keyed(env, d, keys, values))| <= MAX_SEQUENCE_LENGTH
    case ContainerV(vs) =>
      && IsProduct(env, d) && depth > 0
      && WritableAll(env, Fields(env.containers[d.name].fields), vs, depth - 1)
    case VariantV(index, vs) =>
      && IsVariant(env, d, index)
      && (match env.containers[d.name].variants[index]
          case UnitVariant => true
          case FieldsVariant(ds) => depth > 0 && WritableAll(env, Fields(ds), vs, depth - 1))
    case _ => true
  }

  predicate WritableAll(env: Env, sh: Shape, vs: seq<Value>, depth: nat)
    decreases vs
  {
    vs == []
    || (&& !sh.IsEmpty()
        && Writable(env, sh.Head(), vs[0], depth)
        && WritableAll(env, sh.Tail(), vs[1..], depth))
  }

  /** The nesting of named containers, unit variants included. */
  function Depth(v: Value): nat {
    match v
    case SomeV(inner) => Depth(inner)
    case ListV(vs) => DepthAll(vs)
    case MapV(keys, values) => Max(DepthAll(keys), DepthAll(values))
    case ContainerV(vs) => 1 + DepthAll(vs)
    case VariantV(_, vs) => 1 + DepthAll(vs)
    case _ => 0
  }

  function DepthAll(vs: seq<Value>): nat {
    if vs == [] then 0 else Max(Depth(vs[0]), DepthAll(vs[1..]))
  }

  // ---------------------------------------------------------------- reading

  function Size(d: Desc): (n: nat)
    ensures n > 0
  {
    match d
    case OptionD(e) => 1 + Size(e)
    case SeqD(e) => 1 + Size(e)
    case TupleD(ds) => 1 + SizeAll(ds)
    case MapD(k, x) => 1 + Size(k) + Size(x)
    case _ => 1
  }

  function SizeAll(ds: seq<Desc>): nat {
    if ds == [] then 0 else Size(ds[0]) + SizeAll(ds[1..])
  }

  function ShapeSize(sh: Shape): nat {
    match sh
    case Each(d) => Size(d)
    case Fields(ds) => SizeAll(ds)
  }

  function ReadBytes(s: seq<Byte>): (r: Option<(seq<Byte>, seq<Byte>)>)
    ensures r.Some? ==> |r.value.1| < |s|
  {
    match DecodeMax(s, MAX_SEQUENCE_LENGTH)
    case None => None
    case Some((n, rest)) => if |rest| < n then None else Some((rest[..n], rest[n..]))
  }

  function Read(env: Env, d: Desc, s: seq<Byte>, depth: nat): (r: Option<(Value, seq<Byte>)>)
    ensures r.Some? ==> |r.value.1| <= |s|
    decreases depth, Size(d), 0, 0
  {
    match d
    case BoolD => if s == [] || s[0] > 1 then None else Some((BoolV(s[0] == 1), s[1..]))
    case IntD(w, signed) =>
      if |s| < w then None else Some((IntV(FromLe(s[..w], signed)), s[w..]))
    case BytesD =>
      (match ReadBytes(s)
       case None => None
       case Some((bytes, rest)) => Some((BytesV(bytes), rest)))
    case StrD =>
      (match ReadBytes(s)
       case None => None
       case Some((bytes, rest)) => if env.utf8(bytes) then Some((BytesV(bytes), rest)) else None)
    case UnitD => Some((UnitV, s))
    case OptionD(e) =>
      if s == [] || s[0] > 1 then None
      else if s[0] == 0 then Some((NoneV, s[1..]))
      else
        (match Read(env, e, s[1..], depth)
         case None => None
         case Some((v, rest)) => Some((SomeV(v), rest)))
    case SeqD(e) =>
      (match DecodeMax(s, MAX_SEQUENCE_LENGTH)
       case None => None
       case Some((n, rest)) =>
         match ReadAll(env, Each(e), rest, n, depth)
         case None => None
         case Some((vs, rest')) => Some((ListV(vs), rest')))
    case TupleD(ds) =>
      (match ReadAll(env, Fields(ds), s, |ds|, depth)
       case None => None
       case Some((vs, rest)) => Some((ListV(vs), rest)))
    case MapD(k, x) =>
      (match DecodeMax(s, MAX_SEQUENCE_LENGTH)
       case None => None
       case Some((n, rest)) =>
         match ReadEntries(env, k, x, rest, n, None, depth)
         case None => None
         case Some((keys, values, rest')) => Some((MapV(keys, values), rest')))
    case NamedD(name) =>
      if depth == 0 || name >= |env.containers| then None
      else ReadContainer(env, env.containers[name], s, depth - 1)
  }

  function ReadContainer(env: Env, c: Container, s: seq<Byte>, depth: nat)
    : (r: Option<(Value, seq<Byte>)>)
    ensures r.Some? ==> |r.value.1| <= |s|
    decreases depth + 1, 0, 0, 0
  {
    match c
    case Product(ds) =>
      (match ReadAll(env, Fields(ds), s, |ds|, depth)
       case None => None
       case Some((vs, rest)) => Some((ContainerV(vs), rest)))
    case EnumOf(variants) =>
      match DecodeMax(s, U32_LIMIT - 1)
      case None => None
      case Some((index, rest)) =>
        if index >= |variants| then None
        else
          match variants[index]
          case UnitVariant => Some((VariantV(index, []), rest))
          case FieldsVariant(ds) =>
            match ReadAll(env, Fields(ds), rest, |ds|, depth)
            case None => None
            case Some((vs, rest')) => Some((VariantV(index, vs), rest'))
  }

  function ReadAll(env: Env, sh: Shape, s: seq<Byte>, n: nat, depth: nat)
    : (r: Option<(seq<Value>, seq<Byte>)>)
    requires sh.Fields? ==> n == |sh.descs|
    ensures r.Some? ==> |r.value.1| <= |s| && |r.value.0| == n
    decreases depth, ShapeSize(sh), 1, n
  {
    if n == 0 then Some(([], s))
    else
      match Read(env, sh.Head(), s, depth)
      case None => None
      case Some((v, rest)) =>
        match ReadAll(env, sh.Tail(), rest, n - 1, depth)
        case None => None
        case Some((vs, rest')) => Some(([v] + vs, rest'))
  }

  /** Each key's bytes must be greater than those of the key before it. */
  function ReadEntries(env: Env, k: Desc, x: Desc, s: seq<Byte>, n: nat,
      previous: Option<seq<Byte>>, depth: nat)
    : (r: Option<(seq<Value>, seq<Value>, seq<Byte>)>)
    ensures r.Some? ==> |r.value.2| <= |s| && |r.value.0| == |r.value.1| == n
    decreases depth, Size(k) + Size(x), 1, n
  {
    if n == 0 then Some(([], [], s))
    else
      match Read(env, k, s, depth)
      case None => None
      case Some((key, mid)) =>
        var keyBytes := s[..|s| - |mid|];
        if previous.Some? && !Less(previous.value, keyBytes) then None
        else
          match Read(env, x, mid, depth)
          case None => None
          case Some((value, rest)) =>
            match ReadEntries(env, k, x, rest, n - 1, Some(keyBytes), depth)
            case None => None
            case Some((keys, values, rest')) => Some(([key] + keys, [value] + values, rest'))
  }

  // ---------------------------------------------------------------- reading element by element

  /** What is read once `done` has been read. */
  function Prepend(done: seq<Value>, r: Option<(seq<Value>, seq<Byte>)>)
    : Option<(seq<Value>, seq<Byte>)>
  {
    match r
    case None => None
    case Some((vs, rest)) => Some((done + vs, rest))
  }

  function PrependEntries(ks: seq<Value>, xs: seq<Value>,
      r: Option<(seq<Value>, seq<Value>, seq<Byte>)>)
    : Option<(seq<Value>, seq<Value>, seq<Byte>)>
  {
    match r
    case None => None
    case Some((keys, values, rest)) => Some((ks + keys, xs + values, rest))
  }

  lemma PrependMore(done: seq<Value>, more: seq<Value>, r: Option<(seq<Value>, seq<Byte>)>)
    ensures Prepend([], r) == r
    ensures Prepend(done, Prepend(more, r)) == Prepend(done + more, r)
  {
    if r.Some? {
      assert [] + r.value.0 == r.value.0;
      Associates(done, more, r.value.0);
    }
  }

  lemma PrependMoreEntries(ks: seq<Value>, xs: seq<Value>, ks': seq<Value>, xs': seq<Value>,
      r: Option<(seq<Value>, seq<Value>, seq<Byte>)>)
    ensures PrependEntries([], [], r) == r
    ensures PrependEntries(ks, xs, PrependEntries(ks', xs', r)) == PrependEntries(ks + ks', xs + xs', r)
  {
    if r.Some? {
      assert [] + r.value.0 == r.value.0 && [] + r.value.1 == r.value.1;
      Associates(ks, ks', r.value.0);
      Associates(xs, xs', r.value.1);
    }
  }

  /** Reading one entry and then the others. */
  lemma ReadEntry(env: Env, d: Desc, keyBytes: seq<Byte>, mid: seq<Byte>, n: nat,
      previous: Option<seq<Byte>>, key: Value, value: Value, tail: seq<Byte>, depth: nat)
    requires d.MapD? && n > 0
    requires Read(env, d.key, keyBytes + mid, depth) == Some((key, mid))
    requires Read(env, d.value, mid, depth) == Some((value, tail))
    requires previous.Some? ==> Less(previous.value, keyBytes)
    ensures ReadEntries(env, d.key, d.value, keyBytes + mid, n, previous, depth) ==
            PrependEntries([key], [value],
              ReadEntries(env, d.key, d.value, tail, n - 1, Some(keyBytes), depth))
  {
    var s := keyBytes + mid;
    assert s[..|s| - |mid|] == keyBytes;
  }
}
