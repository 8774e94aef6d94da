/** Reading undoes writing, and only strings that writing emits are read. */
module BcsBijection {
  import opened Collections
  import opened FileFormat
  import opened KeyOrder
  import opened Uleb128
  import opened Bcs

  /** Values the reader can return under a depth limit. */
  predicate Good(env: Env, d: Desc, v: Value, depth: nat) {
    Typed(env, d, v, true) && Writable(env, d, v, depth) && Depth(v) <= depth
  }

  predicate GoodAll(env: Env, sh: Shape, vs: seq<Value>, depth: nat) {
    TypedAll(env, sh, vs, true) && WritableAll(env, sh, vs, depth) && DepthAll(vs) <= depth
  }

  lemma {:induction false} GoodEach(env: Env, d: Desc, vs: seq<Value>, depth: nat)
    ensures GoodAll(env, Each(d), vs, depth) <==>
            forall i :: 0 <= i < |vs| ==> Good(env, d, vs[i], depth)
  {
    if vs != [] {
      GoodEach(env, d, vs[1..], depth);
      assert forall i :: 0 < i < |vs| ==> vs[i] == vs[1..][i - 1];
      if forall i :: 0 <= i < |vs| ==> Good(env, d, vs[i], depth) {
        assert Good(env, d, vs[0], depth);
      }
    }
  }

  lemma GoodMap(env: Env, d: Desc, keys: seq<Value>, values: seq<Value>, depth: nat)
    requires d.MapD? && |keys| == |values|
    ensures Good(env, d, MapV(keys, values), depth) <==>
            && GoodAll(env, Each(d.key), keys, depth)
            && GoodAll(env, Each(d.value), values, depth)
            && StrictlySorted(Keyed(env, d, keys, values))
            && |keys| <= MAX_SEQUENCE_LENGTH
    ensures StrictlySorted(Keyed(env, d, keys, values)) ==>
              Bytes(env, d, MapV(keys, values)) ==
              Encode(|keys|) + Concat(Keyed(env, d, keys, values))
  {
    if StrictlySorted(Keyed(env, d, keys, values)) { CanonOfSorted(Keyed(env, d, keys, values)); }
  }

  /** Strict sortedness as the reader checks it, one key after the other. */
  predicate Ascending<T>(previous: Option<seq<Byte>>, es: seq<Entry<T>>)
    decreases es
  {
    es == []
    || (&& (previous.Some? ==> Less(previous.value, es[0].key))
        && Ascending(Some(es[0].key), es[1..]))
  }

  lemma {:induction false} SortedAscends<T>(previous: Option<seq<Byte>>, es: seq<Entry<T>>)
    requires StrictlySorted(es)
    requires previous.Some? && es != [] ==> Less(previous.value, es[0].key)
    ensures Ascending(previous, es)
    decreases es
  {
    if es != [] { SortedAscends(Some(es[0].key), es[1..]); }
  }

  lemma {:induction false} AscendingSorts<T>(previous: Option<seq<Byte>>, es: seq<Entry<T>>)
    requires Ascending(previous, es)
    ensures StrictlySorted(es)
    ensures previous.Some? ==> forall i :: 0 <= i < |es| ==> Less(previous.value, es[i].key)
    decreases es
  {
    if es != [] {
      AscendingSorts(Some(es[0].key), es[1..]);
      assert forall i :: 0 < i < |es| ==> es[i] == es[1..][i - 1];
      if previous.Some? {
        forall i | 0 < i < |es| ensures Less(previous.value, es[i].key) {
          LessTransitive(previous.value, es[0].key, es[i].key);
        }
      }
    }
  }

  // ---------------------------------------------------------------- what was written is read

  ghost predicate ReadsBack(env: Env, d: Desc, v: Value, depth: nat) {
    forall rest :: Read(env, d, Bytes(env, d, v) + rest, depth) == Some((v, rest))
  }

  lemma AfterNumber(n: nat, body: seq<Byte>, rest: seq<Byte>)
    ensures Decode(Encode(n) + body + rest) == Some((n, body + rest))
  {
    Associates(Encode(n), body, rest);
    DecodeEncode(n, body + rest);
  }

  lemma ReadBackLeaf(env: Env, d: Desc, v: Value, rest: seq<Byte>, depth: nat)
    requires Good(env, d, v, depth)
    requires v.BoolV? || v.IntV? || v.BytesV? || v.UnitV? || v.NoneV?
    ensures Read(env, d, Bytes(env, d, v) + rest, depth) == Some((v, rest))
  {
    if v.IntV? {
      JoinedParts(LeBytes(d.width, v.i), rest);
      FromLeBytes(d.width, d.signed, v.i);
    } else if v.BytesV? {
      AfterNumber(|v.bytes|, v.bytes, rest);
      JoinedParts(v.bytes, rest);
    } else {
      JoinedParts(Bytes(env, d, v), rest);
      assert [] + rest == rest;
    }
  }

  lemma ReadBackSome(env: Env, d: Desc, inner: Value, rest: seq<Byte>, depth: nat)
    requires d.OptionD? && ReadsBack(env, d.elem, inner, depth)
    ensures Read(env, d, Bytes(env, d, SomeV(inner)) + rest, depth) == Some((SomeV(inner), rest))
  {
    var s := Bytes(env, d, SomeV(inner)) + rest;
    assert s == [1] + (Bytes(env, d.elem, inner) + rest);
    JoinedParts([1], Bytes(env, d.elem, inner) + rest);
    assert Read(env, d.elem, Bytes(env, d.elem, inner) + rest, depth) == Some((inner, rest));
  }

  lemma ReadBackList(env: Env, d: Desc, vs: seq<Value>, rest: seq<Byte>, depth: nat)
    requires Good(env, d, ListV(vs), depth)
    requires d.SeqD? ==>
               ReadAll(env, Each(d.elem), BytesAll(env, Each(d.elem), vs) + rest, |vs|, depth)
               == Some((vs, rest))
    requires d.TupleD? ==>
               && |vs| == |d.elems|
               && ReadAll(env, Fields(d.elems), BytesAll(env, Fields(d.elems), vs) + rest, |vs|, depth)
                  == Some((vs, rest))
    ensures Read(env, d, Bytes(env, d, ListV(vs)) + rest, depth) == Some((ListV(vs), rest))
  {
    if d.SeqD? { AfterNumber(|vs|, BytesAll(env, Each(d.elem), vs), rest); }
  }

  lemma ReadBackVariant(env: Env, d: Desc, index: nat, vs: seq<Value>, rest: seq<Byte>, depth: nat)
    requires Good(env, d, VariantV(index, vs), depth)
    requires var variant := env.containers[d.name].variants[index];
             variant.FieldsVariant? ==>
               && |vs| == |variant.fields|
               && var sh := Fields(variant.fields);
                  ReadAll(env, sh, BytesAll(env, sh, vs) + rest, |vs|, depth - 1) == Some((vs, rest))
    ensures Read(env, d, Bytes(env, d, VariantV(index, vs)) + rest, depth)
         == Some((VariantV(index, vs), rest))
  {
    match env.containers[d.name].variants[index] {
      case UnitVariant => DecodeEncode(index, rest);
      case FieldsVariant(ds) => AfterNumber(index, BytesAll(env, Fields(ds), vs), rest);
    }
  }

  lemma {:induction false} ReadBack(env: Env, d: Desc, v: Value, depth: nat)
    requires Good(env, d, v, depth)
    ensures ReadsBack(env, d, v, depth)
    decreases v
  {
    forall rest ensures Read(env, d, Bytes(env, d, v) + rest, depth) == Some((v, rest)) {
      match v {
        case SomeV(inner) =>
          ReadBack(env, d.elem, inner, depth);
          ReadBackSome(env, d, inner, rest, depth);
        case ListV(vs) =>
          ReadBackAll(env, if d.SeqD? then Each(d.elem) else Fields(d.elems), vs, rest, depth);
          ReadBackList(env, d, vs, rest, depth);
        case MapV(keys, values) =>
          GoodMap(env, d, keys, values, depth);
          GoodEach(env, d.key, keys, depth);
          GoodEach(env, d.value, values, depth);
          forall i | 0 <= i < |keys| ensures ReadsBack(env, d.key, keys[i], depth) {
            ReadBack(env, d.key, keys[i], depth);
          }
          forall i | 0 <= i < |keys| ensures ReadsBack(env, d.value, values[i], depth) {
            ReadBack(env, d.value, values[i], depth);
          }
          ReadBackMap(env, d, keys, values, rest, depth);
        case ContainerV(vs) =>
          ReadBackAll(env, Fields(env.containers[d.name].fields), vs, rest, depth - 1);
        case VariantV(index, vs) =>
          var variant := env.containers[d.name].variants[index];
          if variant.FieldsVariant? {
            ReadBackAll(env, Fields(variant.fields), vs, rest, depth - 1);
          }
          ReadBackVariant(env, d, index, vs, rest, depth);
        case _ => ReadBackLeaf(env, d, v, rest, depth);
      }
    }
  }

  lemma {:induction false} TypedLength(env: Env, sh: Shape, vs: seq<Value>, sorted: bool)
    requires TypedAll(env, sh, vs, sorted)
    ensures sh.Fields? ==> |vs| == |sh.descs|
    decreases vs
  {
    if vs != [] { TypedLength(env, sh.Tail(), vs[1..], sorted); }
  }

  lemma {:induction false} ReadBackAll(env: Env, sh: Shape, vs: seq<Value>, rest: seq<Byte>, depth: nat)
    requires GoodAll(env, sh, vs, depth)
    ensures sh.Fields? ==> |vs| == |sh.descs|
    ensures ReadAll(env, sh, BytesAll(env, sh, vs) + rest, |vs|, depth) == Some((vs, rest))
    decreases vs
  {
    TypedLength(env, sh, vs, true);
    if vs == [] {
      assert [] + rest == rest;
    } else {
      var first, others := Bytes(env, sh.Head(), vs[0]), BytesAll(env, sh.Tail(), vs[1..]);
      Associates(first, others, rest);
      ReadBack(env, sh.Head(), vs[0], depth);
      assert Read(env, sh.Head(), first + (others + rest), depth) == Some((vs[0], others + rest));
      ReadBackAll(env, sh.Tail(), vs[1..], rest, depth);
      assert [vs[0]] + vs[1..] == vs;
    }
  }

  lemma KeyedCons(env: Env, d: Desc, keys: seq<Value>, values: seq<Value>)
    requires d.MapD? && |keys| == |values| > 0
    ensures var es := Keyed(env, d, keys, values);
            && es[0] == Entry(Bytes(env, d.key, keys[0]), Bytes(env, d.value, values[0]))
            && es[1..] == Keyed(env, d, keys[1..], values[1..])
  {}

  /** The bytes of the first entry, then those of the others. */
  lemma ConcatCons(es: seq<Entry<seq<Byte>>>, rest: seq<Byte>)
    requires es != []
    ensures Concat(es) + rest == es[0].key + (es[0].payload + (Concat(es[1..]) + rest))
  {
    Associates(es[0].key + es[0].payload, Concat(es[1..]), rest);
    Associates(es[0].key, es[0].payload, Concat(es[1..]) + rest);
  }

  lemma {:induction false} ReadBackEntries(env: Env, d: Desc, keys: seq<Value>, values: seq<Value>,
      rest: seq<Byte>, previous: Option<seq<Byte>>, depth: nat)
    requires d.MapD? && |keys| == |values|
    requires forall i :: 0 <= i < |keys| ==> ReadsBack(env, d.key, keys[i], depth)
    requires forall i :: 0 <= i < |keys| ==> ReadsBack(env, d.value, values[i], depth)
    requires Ascending(previous, Keyed(env, d, keys, values))
    ensures ReadEntries(env, d.key, d.value, Concat(Keyed(env, d, keys, values)) + rest, |keys|,
              previous, depth) == Some((keys, values, rest))
    decreases keys
  {
    if keys == [] {
      assert [] + rest == rest;
    } else {
      var es := Keyed(env, d, keys, values);
      var key, value, others := es[0].key, es[0].payload, Concat(es[1..]) + rest;
      KeyedCons(env, d, keys, values);
      ConcatCons(es, rest);
      assert ReadsBack(env, d.key, keys[0], depth) && ReadsBack(env, d.value, values[0], depth);
      assert Read(env, d.value, value + others, depth) == Some((values[0], others));
      ReadBackEntries(env, d, keys[1..], values[1..], rest, Some(key), depth);
      assert [keys[0]] + keys[1..] == keys && [values[0]] + values[1..] == values;
      ReadEntry(env, d, key, value + others, |keys|, previous, keys[0], values[0], others, depth);
    }
  }

  lemma ReadBackMap(env: Env, d: Desc, keys: seq<Value>, values: seq<Value>, rest: seq<Byte>, depth: nat)
    requires d.MapD? && |keys| == |values| <= MAX_SEQUENCE_LENGTH
    requires forall i :: 0 <= i < |keys| ==> ReadsBack(env, d.key, keys[i], depth)
    requires forall i :: 0 <= i < |keys| ==> ReadsBack(env, d.value, values[i], depth)
    requires StrictlySorted(Keyed(env, d, keys, values))
    ensures Read(env, d, Bytes(env, d, MapV(keys, values)) + rest, depth)
         == Some((MapV(keys, values), rest))
  {
    var body := Concat(Keyed(env, d, keys, values));
    GoodMap(env, d, keys, values, depth);
    SortedAscends(None, Keyed(env, d, keys, values));
    ReadBackEntries(env, d, keys, values, rest, None, depth);
    AfterNumber(|keys|, body, rest);
    ReadMapFrom(env, d, Encode(|keys|) + body + rest, |keys|, body + rest, depth);
  }

  lemma ReadMapFrom(env: Env, d: Desc, s: seq<Byte>, n: nat, tail: seq<Byte>, depth: nat)
    requires d.MapD? && n <= MAX_SEQUENCE_LENGTH && Decode(s) == Some((n, tail))
    ensures var r := ReadEntries(env, d.key, d.value, tail, n, None, depth);
            Read(env, d, s, depth) ==
            if r.None? then None else Some((MapV(r.value.0, r.value.1), r.value.2))
  {}

  // ---------------------------------------------------------------- what is read was written

  lemma BeforeNumber(s: seq<Byte>, body: seq<Byte>, rest: seq<Byte>)
    requires Decode(s).Some? && Decode(s).value.1 == body + rest
    ensures s == Encode(Decode(s).value.0) + body + rest
  {
    EncodeDecode(s);
    Associates(Encode(Decode(s).value.0), body, rest);
  }

  lemma WrittenLeaf(env: Env, d: Desc, s: seq<Byte>, depth: nat)
    requires Read(env, d, s, depth).Some?
    requires d.BoolD? || d.IntD? || d.BytesD? || d.StrD? || d.UnitD?
    ensures var (v, rest) := Read(env, d, s, depth).value;
            Good(env, d, v, depth) && s == Bytes(env, d, v) + rest
  {
    if d.BoolD? {
      SplitAt(s, 1);
    } else if d.IntD? {
      LeBytesFrom(s[..d.width], d.signed);
      FromLeInRange(s[..d.width], d.signed);
      SplitAt(s, d.width);
    } else if d.UnitD? {
      assert s == [] + s;
    } else {
      var (n, tail) := Decode(s).value;
      SplitAt(tail, n);
      BeforeNumber(s, tail[..n], tail[n..]);
    }
  }

  lemma {:induction false} Written(env: Env, d: Desc, s: seq<Byte>, depth: nat)
    requires Read(env, d, s, depth).Some?
    ensures var (v, rest) := Read(env, d, s, depth).value;
            Good(env, d, v, depth) && s == Bytes(env, d, v) + rest
    decreases depth, Size(d), 0, 0
  {
    match d {
      case OptionD(e) => WrittenOption(env, d, s, depth);
      case SeqD(e) =>
        var (n, tail) := Decode(s).value;
        WrittenAll(env, Each(e), tail, n, depth);
        var (vs, rest) := ReadAll(env, Each(e), tail, n, depth).value;
        BeforeNumber(s, BytesAll(env, Each(e), vs), rest);
      case TupleD(ds) => WrittenAll(env, Fields(ds), s, |ds|, depth);
      case MapD(k, x) => WrittenMap(env, d, s, depth);
      case NamedD(name) => WrittenContainer(env, d, s, depth);
      case _ => WrittenLeaf(env, d, s, depth);
    }
  }

  lemma {:induction false} WrittenOption(env: Env, d: Desc, s: seq<Byte>, depth: nat)
    requires d.OptionD? && Read(env, d, s, depth).Some?
    ensures var (v, rest) := Read(env, d, s, depth).value;
            Good(env, d, v, depth) && s == Bytes(env, d, v) + rest
    decreases depth, Size(d.elem), 1, 0
  {
    SplitAt(s, 1);
    if s[0] == 1 {
      Written(env, d.elem, s[1..], depth);
      var (v, rest) := Read(env, d.elem, s[1..], depth).value;
      assert s[..1] == [1];
      Associates([1], Bytes(env, d.elem, v), rest);
    }
  }

  lemma {:induction false} WrittenContainer(env: Env, d: Desc, s: seq<Byte>, depth: nat)
    requires d.NamedD? && Read(env, d, s, depth).Some?
    ensures var (v, rest) := Read(env, d, s, depth).value;
            Good(env, d, v, depth) && s == Bytes(env, d, v) + rest
    decreases depth, 0, 0, 0
  {
    match env.containers[d.name] {
      case Product(ds) => WrittenAll(env, Fields(ds), s, |ds|, depth - 1);
      case EnumOf(variants) =>
        var (index, tail) := Decode(s).value;
        match variants[index] {
          case UnitVariant => EncodeDecode(s);
          case FieldsVariant(ds) =>
            WrittenAll(env, Fields(ds), tail, |ds|, depth - 1);
            var (vs, rest) := ReadAll(env, Fields(ds), tail, |ds|, depth - 1).value;
            BeforeNumber(s, BytesAll(env, Fields(ds), vs), rest);
        }
    }
  }

  lemma {:induction false} WrittenAll(env: Env, sh: Shape, s: seq<Byte>, n: nat, depth: nat)
    requires sh.Fields? ==> n == |sh.descs|
    requires ReadAll(env, sh, s, n, depth).Some?
    ensures var (vs, rest) := ReadAll(env, sh, s, n, depth).value;
            GoodAll(env, sh, vs, depth) && s == BytesAll(env, sh, vs) + rest
    decreases depth, ShapeSize(sh), 1, n
  {
    if n == 0 {
      assert s == [] + s;
    } else {
      Written(env, sh.Head(), s, depth);
      var (v, mid) := Read(env, sh.Head(), s, depth).value;
      WrittenAll(env, sh.Tail(), mid, n - 1, depth);
      var (vs, rest) := ReadAll(env, sh.Tail(), mid, n - 1, depth).value;
      assert ([v] + vs)[1..] == vs;
      Associates(Bytes(env, sh.Head(), v), BytesAll(env, sh.Tail(), vs), rest);
    }
  }

  /** `s` spells the entries `keys[i]`, `values[i]`, all within the limits, keys ascending. */
  predicate SpellsEntries(env: Env, d: Desc, keys: seq<Value>, values: seq<Value>, s: seq<Byte>,
      rest: seq<Byte>, previous: Option<seq<Byte>>, depth: nat)
    requires d.MapD?
  {
    && GoodAll(env, Each(d.key), keys, depth)
    && GoodAll(env, Each(d.value), values, depth)
    && |keys| == |values|
    && Ascending(previous, Keyed(env, d, keys, values))
    && s == Concat(Keyed(env, d, keys, values)) + rest
  }

  lemma SpellsMore(env: Env, d: Desc, key: Value, value: Value, keys: seq<Value>,
      values: seq<Value>, tail: seq<Byte>, rest: seq<Byte>, previous: Option<seq<Byte>>, depth: nat)
    requires d.MapD? && Good(env, d.key, key, depth) && Good(env, d.value, value, depth)
    requires SpellsEntries(env, d, keys, values, tail, rest, Some(Bytes(env, d.key, key)), depth)
    requires previous.Some? ==> Less(previous.value, Bytes(env, d.key, key))
    ensures SpellsEntries(env, d, [key] + keys, [value] + values,
              Bytes(env, d.key, key) + (Bytes(env, d.value, value) + tail), rest, previous, depth)
  {
    assert ([key] + keys)[1..] == keys && ([value] + values)[1..] == values;
    KeyedCons(env, d, [key] + keys, [value] + values);
    ConcatCons(Keyed(env, d, [key] + keys, [value] + values), rest);
  }

  lemma {:induction false} WrittenEntries(env: Env, d: Desc, s: seq<Byte>, n: nat,
      previous: Option<seq<Byte>>, depth: nat)
    requires d.MapD? && ReadEntries(env, d.key, d.value, s, n, previous, depth).Some?
    ensures var (keys, values, rest) := ReadEntries(env, d.key, d.value, s, n, previous, depth).value;
            SpellsEntries(env, d, keys, values, s, rest, previous, depth)
    decreases depth, Size(d.key) + Size(d.value), 1, n
  {
    if n == 0 {
      assert s == [] + s;
    } else {
      Written(env, d.key, s, depth);
      var (key, mid) := Read(env, d.key, s, depth).value;
      assert s[..|s| - |mid|] == Bytes(env, d.key, key);
      Written(env, d.value, mid, depth);
      var (value, tail) := Read(env, d.value, mid, depth).value;
      var keyBytes := Bytes(env, d.key, key);
      WrittenEntries(env, d, tail, n - 1, Some(keyBytes), depth);
      var (keys, values, rest) :=
        ReadEntries(env, d.key, d.value, tail, n - 1, Some(keyBytes), depth).value;
      SpellsMore(env, d, key, value, keys, values, tail, rest, previous, depth);
    }
  }

  lemma {:induction false} WrittenMap(env: Env, d: Desc, s: seq<Byte>, depth: nat)
    requires d.MapD? && Read(env, d, s, depth).Some?
    ensures var (v, rest) := Read(env, d, s, depth).value;
            Good(env, d, v, depth) && s == Bytes(env, d, v) + rest
    decreases depth, Size(d.key) + Size(d.value), 2, 0
  {
    var (n, tail) := Decode(s).value;
    ReadMapFrom(env, d, s, n, tail, depth);
    WrittenEntries(env, d, tail, n, None, depth);
    var (keys, values, rest) := ReadEntries(env, d.key, d.value, tail, n, None, depth).value;
    AscendingSorts(None, Keyed(env, d, keys, values));
    GoodMap(env, d, keys, values, depth);
    BeforeNumber(s, Concat(Keyed(env, d, keys, values)), rest);
  }

  /** BCS is a bijection on its accepted strings: the reader returns exactly the values within the
      limits (unit variants counting) whose maps are sorted, each from exactly its written form. */
  lemma Bijection(env: Env, d: Desc, s: seq<Byte>, depth: nat, v: Value, rest: seq<Byte>)
    ensures Read(env, d, s, depth) == Some((v, rest)) <==>
            Good(env, d, v, depth) && s == Bytes(env, d, v) + rest
  {
    if Read(env, d, s, depth) == Some((v, rest)) { Written(env, d, s, depth); }
    if Good(env, d, v, depth) { ReadBack(env, d, v, depth); }
  }
}
