/** Run-time values and the memory they live in: typing, counting the instances of a type, and places
    inside values, which references point to. */
module Values {
  import opened Collections
  import opened FileFormat
  import opened Abilities

  /** Where a place begins: a local, a resource in storage, or memory that the caller lent. */
  datatype Root =
    | LocalRoot(local: nat)
    | StorageRoot(address: nat, ty: SignatureToken)
    | LentRoot(id: nat)

  /** A reference names a place: from its root, an index into a vector or a struct at each step. */
  datatype Value =
    | Scalar(ty: SignatureToken, bits: nat)
    | VectorOf(elemType: SignatureToken, items: seq<Value>)
    | Instance(def: nat, typeArgs: Signature, fields: seq<Value>)
    | RefTo(mutable: bool, root: Root, path: seq<nat>)

  type Memory = map<Root, Value>

  // ---------------------------------------------------------------- typing

  predicate IsScalarType(ty: SignatureToken) {
    ty.Bool? || ty.U8? || ty.U64? || ty.U128? || ty.Address? || ty.Signer?
  }

  /** Closed types with known abilities. */
  predicate AllKnownTypes(structs: seq<StructDecl>, tys: Signature) {
    forall i :: 0 <= i < |tys| ==> TypeAbilities(structs, tys[i], []).Some?
  }

  /** The value has the type; inside a value there are no references. */
  predicate HasType(structs: seq<StructDecl>, v: Value, ty: SignatureToken)
    decreases v, 0
  {
    match v
    case Scalar(t, _) => t == ty && IsScalarType(t)
    case VectorOf(elem, items) =>
      ty == Vector(elem) && forall i :: 0 <= i < |items| ==> HasType(structs, items[i], elem)
    case Instance(d, typeArgs, fields) =>
      && ty == MaterializeType(d, typeArgs)
      && d < |structs| && |typeArgs| == |structs[d].typeParameters|
      && AllKnownTypes(structs, typeArgs)
      && HaveTypes(structs, fields, FieldTypes(structs[d], typeArgs))
    case RefTo(_, _, _) => false
  }

  predicate HaveTypes(structs: seq<StructDecl>, vs: seq<Value>, tys: Signature)
    decreases vs, 1
  {
    |vs| == |tys| && forall i :: 0 <= i < |vs| ==> HasType(structs, vs[i], tys[i])
  }

  function FieldTypes(decl: StructDecl, typeArgs: Signature): Signature {
    match decl.fieldInformation
    case Native => []
    case Declared(fields) => InstantiateAll(fields, typeArgs)
  }

  /** A value determines its type. */
  lemma TypeIsUnique(structs: seq<StructDecl>, v: Value, t: SignatureToken, u: SignatureToken)
    requires HasType(structs, v, t) && HasType(structs, v, u)
    ensures t == u
  {}

  // ---------------------------------------------------------------- counting

  /** How many instances of a type a value holds, at any depth. A reference holds none. */
  function Count(resource: SignatureToken, v: Value): nat
    decreases v, 0
  {
    match v
    case Scalar(_, _) => 0
    case VectorOf(_, items) => CountAll(resource, items)
    case Instance(d, typeArgs, fields) =>
      (if MaterializeType(d, typeArgs) == resource then 1 else 0) + CountAll(resource, fields)
    case RefTo(_, _, _) => 0
  }

  function CountAll(resource: SignatureToken, vs: seq<Value>): nat
    decreases vs, 1
  {
    if |vs| == 0 then 0 else Count(resource, vs[0]) + CountAll(resource, vs[1..])
  }

  lemma {:induction false} CountConcat(resource: SignatureToken, a: seq<Value>, b: seq<Value>)
    ensures CountAll(resource, a + b) == CountAll(resource, a) + CountAll(resource, b)
  {
    if |a| == 0 {
      assert a + b == b;
    } else {
      assert (a + b)[1..] == a[1..] + b;
      CountConcat(resource, a[1..], b);
    }
  }

  lemma CountOne(resource: SignatureToken, v: Value)
    ensures CountAll(resource, [v]) == Count(resource, v)
  {
    assert [v][1..] == [];
  }

  lemma {:induction false} NoneInAny(resource: SignatureToken, vs: seq<Value>)
    requires forall i :: 0 <= i < |vs| ==> Count(resource, vs[i]) == 0
    ensures CountAll(resource, vs) == 0
  {
    if |vs| > 0 { NoneInAny(resource, vs[1..]); }
  }

  /** Exchanging one element changes the count by what the two hold. */
  lemma {:induction false} CountUpdated(resource: SignatureToken, vs: seq<Value>, i: nat, v: Value)
    requires i < |vs|
    ensures CountAll(resource, vs[i := v]) + Count(resource, vs[i]) == CountAll(resource, vs) + Count(resource, v)
  {
    if i > 0 {
      assert vs[i := v][1..] == vs[1..][i - 1 := v];
      CountUpdated(resource, vs[1..], i - 1, v);
    }
  }

  lemma CountSwapped(resource: SignatureToken, vs: seq<Value>, i: nat, j: nat)
    requires i < |vs| && j < |vs|
    ensures CountAll(resource, vs[i := vs[j]][j := vs[i]]) == CountAll(resource, vs)
  {
    CountUpdated(resource, vs, i, vs[j]);
    CountUpdated(resource, vs[i := vs[j]], j, vs[i]);
  }

  /** A value whose type has Copy (or Drop, or Store) holds no instance, however deep, of a type
      that lacks it. */
  lemma {:induction false} AbilityReachesInside(
      structs: seq<StructDecl>, v: Value, ty: SignatureToken, resource: SignatureToken, a: Ability)
    requires AcceptedStructs(structs) && HasType(structs, v, ty)
    requires a.Requires() == a
    requires a in Known(TypeAbilities(structs, ty, []))
    requires a !in Known(TypeAbilities(structs, resource, []))
    ensures Count(resource, v) == 0
    decreases v
  {
    match v
    case Scalar(_, _) =>
    case VectorOf(elem, items) =>
      VectorAbilities(structs, elem, []);
      forall i | 0 <= i < |items| ensures Count(resource, items[i]) == 0 {
        AbilityReachesInside(structs, items[i], elem, resource, a);
      }
      NoneInAny(resource, items);
    case Instance(d, typeArgs, fields) =>
      forall i | 0 <= i < |fields| ensures Count(resource, fields[i]) == 0 {
        FieldsInheritAbilities(structs, d, typeArgs, [], a, i);
        AbilityReachesInside(structs, fields[i], FieldTypes(structs[d], typeArgs)[i], resource, a);
      }
      NoneInAny(resource, fields);
    case RefTo(_, _, _) =>
  }

  /** The instances in memory, one root after the other. */
  ghost function CountMemory(resource: SignatureToken, mem: Memory): nat {
    if mem == map[] then 0
    else
      var r :| r in mem;
      Count(resource, mem[r]) + CountMemory(resource, mem - {r})
  }

  /** It does not matter which root comes first. */
  lemma {:induction false} CountWithout(resource: SignatureToken, mem: Memory, r: Root)
    requires r in mem
    ensures CountMemory(resource, mem) == Count(resource, mem[r]) + CountMemory(resource, mem - {r})
    decreases |mem|
  {
    var q :| q in mem && CountMemory(resource, mem) == Count(resource, mem[q]) + CountMemory(resource, mem - {q});
    if q != r {
      CountWithout(resource, mem - {q}, r);
      CountWithout(resource, mem - {r}, q);
      assert mem - {q} - {r} == mem - {r} - {q};
    }
  }

  function CountAt(resource: SignatureToken, mem: Memory, r: Root): nat {
    if r in mem then Count(resource, mem[r]) else 0
  }

  lemma CountStored(resource: SignatureToken, mem: Memory, r: Root, v: Value)
    ensures CountMemory(resource, mem[r := v]) + CountAt(resource, mem, r)
         == CountMemory(resource, mem) + Count(resource, v)
  {
    CountWithout(resource, mem[r := v], r);
    if r in mem {
      CountWithout(resource, mem, r);
      assert mem[r := v] - {r} == mem - {r};
    } else {
      assert mem[r := v] - {r} == mem;
    }
  }

  // ---------------------------------------------------------------- places

  /** The value at a path inside a value, if there is one. */
  function Resolve(v: Value, path: seq<nat>): Option<Value>
    decreases |path|
  {
    if path == [] then Some(v)
    else
      match v
      case VectorOf(_, items) => if path[0] < |items| then Resolve(items[path[0]], path[1..]) else None
      case Instance(_, _, fields) => if path[0] < |fields| then Resolve(fields[path[0]], path[1..]) else None
      case _ => None
  }

  /** The value with another one at the path. */
  function Update(v: Value, path: seq<nat>, w: Value): Value
    requires Resolve(v, path).Some?
    decreases |path|
  {
    if path == [] then w
    else
      match v
      case VectorOf(elem, items) =>
        VectorOf(elem, items[path[0] := Update(items[path[0]], path[1..], w)])
      case Instance(d, typeArgs, fields) =>
        Instance(d, typeArgs, fields[path[0] := Update(fields[path[0]], path[1..], w)])
      case _ => v
  }

  /** The type at a path inside a value of the type. */
  function PathType(structs: seq<StructDecl>, ty: SignatureToken, path: seq<nat>): Option<SignatureToken>
    decreases |path|
  {
    if path == [] then Some(ty)
    else
      match ty
      case Vector(elem) => PathType(structs, elem, path[1..])
      case Struct(h) => FieldPathType(structs, h, [], path)
      case StructInstantiation(h, typeArgs) => FieldPathType(structs, h, typeArgs, path)
      case _ => None
  }

  function FieldPathType(structs: seq<StructDecl>, h: nat, typeArgs: Signature, path: seq<nat>): Option<SignatureToken>
    requires path != []
    decreases |path|, 0
  {
    if h < |structs| && path[0] < |FieldTypes(structs[h], typeArgs)|
    then PathType(structs, FieldTypes(structs[h], typeArgs)[path[0]], path[1..])
    else None
  }

  /** Going one step further. */
  lemma {:induction false} PathTypeSnoc(structs: seq<StructDecl>, ty: SignatureToken, path: seq<nat>, i: nat)
    requires PathType(structs, ty, path).Some?
    ensures PathType(structs, ty, path + [i]) == PathType(structs, PathType(structs, ty, path).value, [i])
    decreases |path|
  {
    if path == [] {
      assert path + [i] == [i];
    } else {
      assert (path + [i])[1..] == path[1..] + [i];
      match ty {
        case Vector(elem) => PathTypeSnoc(structs, elem, path[1..], i);
        case Struct(h) => PathTypeSnoc(structs, FieldTypes(structs[h], [])[path[0]], path[1..], i);
        case StructInstantiation(h, typeArgs) =>
          PathTypeSnoc(structs, FieldTypes(structs[h], typeArgs)[path[0]], path[1..], i);
      }
    }
  }

  lemma PathTypeAtInstance(structs: seq<StructDecl>, d: nat, typeArgs: Signature, path: seq<nat>)
    requires path != []
    ensures PathType(structs, MaterializeType(d, typeArgs), path) == FieldPathType(structs, d, typeArgs, path)
  {}

  /** What is at a path of a typed value has the type at the path. */
  lemma {:induction false} ResolveTyped(structs: seq<StructDecl>, v: Value, ty: SignatureToken, path: seq<nat>)
    requires HasType(structs, v, ty) && Resolve(v, path).Some? && PathType(structs, ty, path).Some?
    ensures HasType(structs, Resolve(v, path).value, PathType(structs, ty, path).value)
    decreases |path|
  {
    if path != [] {
      match v {
        case VectorOf(elem, items) => ResolveTyped(structs, items[path[0]], elem, path[1..]);
        case Instance(d, typeArgs, fields) =>
          PathTypeAtInstance(structs, d, typeArgs, path);
          ResolveTyped(structs, fields[path[0]], FieldTypes(structs[d], typeArgs)[path[0]], path[1..]);
      }
    }
  }

  /** Putting a value of the type at a path there keeps the value typed. */
  lemma {:induction false} UpdateTyped(structs: seq<StructDecl>, v: Value, ty: SignatureToken, path: seq<nat>, w: Value)
    requires HasType(structs, v, ty) && Resolve(v, path).Some? && PathType(structs, ty, path).Some?
    requires HasType(structs, w, PathType(structs, ty, path).value)
    ensures HasType(structs, Update(v, path, w), ty)
    decreases |path|
  {
    if path != [] {
      match v {
        case VectorOf(elem, items) => UpdateTyped(structs, items[path[0]], elem, path[1..], w);
        case Instance(d, typeArgs, fields) =>
          PathTypeAtInstance(structs, d, typeArgs, path);
          UpdateTyped(structs, fields[path[0]], FieldTypes(structs[d], typeArgs)[path[0]], path[1..], w);
      }
    }
  }

  /** It changes the count by what the two values hold. */
  lemma {:induction false} UpdateCounts(resource: SignatureToken, v: Value, path: seq<nat>, w: Value)
    requires Resolve(v, path).Some?
    ensures Count(resource, Update(v, path, w)) + Count(resource, Resolve(v, path).value)
         == Count(resource, v) + Count(resource, w)
    decreases |path|
  {
    if path != [] {
      match v {
        case VectorOf(elem, items) =>
          UpdateCounts(resource, items[path[0]], path[1..], w);
          CountUpdated(resource, items, path[0], Update(items[path[0]], path[1..], w));
        case Instance(d, typeArgs, fields) =>
          UpdateCounts(resource, fields[path[0]], path[1..], w);
          CountUpdated(resource, fields, path[0], Update(fields[path[0]], path[1..], w));
      }
    }
  }

  /** What a place holds, and memory with another value in the place. */
  function ReadPlace(mem: Memory, root: Root, path: seq<nat>): Option<Value> {
    if root in mem then Resolve(mem[root], path) else None
  }

  function WritePlace(mem: Memory, root: Root, path: seq<nat>, w: Value): Memory
    requires ReadPlace(mem, root, path).Some?
  {
    mem[root := Update(mem[root], path, w)]
  }

  lemma WriteCounts(resource: SignatureToken, mem: Memory, root: Root, path: seq<nat>, w: Value)
    requires ReadPlace(mem, root, path).Some?
    ensures CountMemory(resource, WritePlace(mem, root, path, w)) + Count(resource, ReadPlace(mem, root, path).value)
         == CountMemory(resource, mem) + Count(resource, w)
  {
    UpdateCounts(resource, mem[root], path, w);
    CountStored(resource, mem, root, Update(mem[root], path, w));
  }
}
