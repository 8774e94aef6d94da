/** Maps whose entries were added in any order: what is written is the sorted form of the value, and
    the round trip through it; and the one place where the two depth counts differ. */
module BcsMaps {
  import opened Collections
  import opened FileFormat
  import opened KeyOrder
  import opened Uleb128
  import opened Bcs
  import opened BcsBijection

  /** The normalized entries of a map, under the bytes of their keys, in the order of adding. */
  function Normed(env: Env, d: Desc, keys: seq<Value>, normKeys: seq<Value>, normValues: seq<Value>)
    : seq<Entry<(Value, Value)>>
    requires d.MapD? && |normKeys| == |normValues|
  {
    Zip(BytesEach(env, d.key, keys),
        seq(|normKeys|, i requires 0 <= i < |normKeys| => (normKeys[i], normValues[i])))
  }

  function Payloads(es: seq<Entry<(Value, Value)>>): (r: (seq<Value>, seq<Value>))
    ensures |r.0| == |r.1| == |es|
    ensures forall i :: 0 <= i < |es| ==> (r.0[i], r.1[i]) == es[i].payload
  {
    (seq(|es|, i requires 0 <= i < |es| => es[i].payload.0),
     seq(|es|, i requires 0 <= i < |es| => es[i].payload.1))
  }

  /** Every map sorted by the bytes of its keys, the first entry of each key kept. */
  function Norm(env: Env, d: Desc, v: Value): Value
    decreases v
  {
    match v
    case SomeV(inner) => if d.OptionD? then SomeV(Norm(env, d.elem, inner)) else v
    case ListV(vs) =>
      if d.SeqD? then ListV(NormAll(env, Each(d.elem), vs))
      else if d.TupleD? then ListV(NormAll(env, Fields(d.elems), vs))
      else v
    case MapV(keys, values) =>
      if !d.MapD? || |keys| != |values| then v
      else
        var ks, xs := NormAll(env, Each(d.key), keys), NormAll(env, Each(d.value), values);
        var (ks', xs') := Payloads(Canon(Normed(env, d, keys, ks, xs)));
        MapV(ks', xs')
    case ContainerV(vs) =>
      if IsProduct(env, d)
      then ContainerV(NormAll(env, Fields(env.containers[d.name].fields), vs))
      else v
    case VariantV(index, vs) =>
      if IsVariant(env, d, index) && env.containers[d.name].variants[index].FieldsVariant?
      then VariantV(index, NormAll(env, Fields(env.containers[d.name].variants[index].fields), vs))
      else v
    case _ => v
  }

  function NormAll(env: Env, sh: Shape, vs: seq<Value>): (r: seq<Value>)
    ensures |r| == |vs|
    decreases vs
  {
    if vs == [] then []
    else if sh.IsEmpty() then vs
    else [Norm(env, sh.Head(), vs[0])] + NormAll(env, sh.Tail(), vs[1..])
  }

  /** `w` is the sorted form of `v` and is written as the same bytes within the same limits. */
  predicate SameForm(env: Env, d: Desc, v: Value, w: Value, depth: nat) {
    && Typed(env, d, w, true)
    && Bytes(env, d, w) == Bytes(env, d, v)
    && Writable(env, d, w, depth)
  }

  predicate SameForms(env: Env, sh: Shape, vs: seq<Value>, ws: seq<Value>, depth: nat) {
    && TypedAll(env, sh, ws, true)
    && BytesAll(env, sh, ws) == BytesAll(env, sh, vs)
    && WritableAll(env, sh, ws, depth)
  }

  lemma {:induction false} EachTyped(env: Env, d: Desc, vs: seq<Value>, sorted: bool, depth: nat)
    ensures TypedAll(env, Each(d), vs, sorted) <==>
            forall i :: 0 <= i < |vs| ==> Typed(env, d, vs[i], sorted)
    ensures WritableAll(env, Each(d), vs, depth) <==>
            forall i :: 0 <= i < |vs| ==> Writable(env, d, vs[i], depth)
  {
    if vs != [] {
      EachTyped(env, d, vs[1..], sorted, depth);
      assert forall i :: 0 < i < |vs| ==> vs[i] == vs[1..][i - 1];
      if forall i :: 0 <= i < |vs| ==> Typed(env, d, vs[i], sorted) {
        assert Typed(env, d, vs[0], sorted);
      }
      if forall i :: 0 <= i < |vs| ==> Writable(env, d, vs[i], depth) {
        assert Writable(env, d, vs[0], depth);
      }
    }
  }

  lemma {:induction false} BytesAt(env: Env, d: Desc, vs: seq<Value>, i: nat)
    requires i < |vs|
    ensures BytesEach(env, d, vs)[i] == Bytes(env, d, vs[i])
  {
    if i > 0 { BytesAt(env, d, vs[1..], i - 1); }
  }

  lemma {:induction false} NormAt(env: Env, d: Desc, vs: seq<Value>, i: nat)
    requires i < |vs|
    ensures NormAll(env, Each(d), vs)[i] == Norm(env, d, vs[i])
  {
    if i > 0 { NormAt(env, d, vs[1..], i - 1); }
  }

  lemma {:induction false} NormForm(env: Env, d: Desc, v: Value, depth: nat)
    requires Typed(env, d, v, false) && Writable(env, d, v, depth)
    ensures SameForm(env, d, v, Norm(env, d, v), depth)
    decreases v
  {
    match v {
      case SomeV(inner) => NormForm(env, d.elem, inner, depth);
      case ListV(vs) =>
        NormForms(env, if d.SeqD? then Each(d.elem) else Fields(d.elems), vs, depth);
      case MapV(keys, values) =>
        EachTyped(env, d.key, keys, false, depth);
        EachTyped(env, d.value, values, false, depth);
        forall i | 0 <= i < |keys|
          ensures SameForm(env, d.key, keys[i], Norm(env, d.key, keys[i]), depth)
        {
          NormForm(env, d.key, keys[i], depth);
        }
        forall i | 0 <= i < |values|
          ensures SameForm(env, d.value, values[i], Norm(env, d.value, values[i]), depth)
        {
          NormForm(env, d.value, values[i], depth);
        }
        NormMap(env, d, keys, values, depth);
      case ContainerV(vs) =>
        NormForms(env, Fields(env.containers[d.name].fields), vs, depth - 1);
      case VariantV(index, vs) =>
        var variant := env.containers[d.name].variants[index];
        if variant.FieldsVariant? {
          NormForms(env, Fields(variant.fields), vs, depth - 1);
        }
      case _ =>
    }
  }

  lemma {:induction false} NormForms(env: Env, sh: Shape, vs: seq<Value>, depth: nat)
    requires TypedAll(env, sh, vs, false) && WritableAll(env, sh, vs, depth)
    ensures SameForms(env, sh, vs, NormAll(env, sh, vs), depth)
    decreases vs
  {
    if vs != [] {
      NormForm(env, sh.Head(), vs[0], depth);
      NormForms(env, sh.Tail(), vs[1..], depth);
      assert NormAll(env, sh, vs)[1..] == NormAll(env, sh.Tail(), vs[1..]);
    }
  }

  lemma {:induction false} FirstIsIn<T>(es: seq<Entry<T>>, e: Entry<T>)
    requires FirstOfItsKey(es, e)
    ensures e in es
  {
    var init := es[..|es| - 1];
    if FirstOfItsKey(init, e) { FirstIsIn(init, e); }
    assert es == init + [es[|es| - 1]];
    InLast(init, es[|es| - 1], e);
  }

  /** Each entry that is kept is one that was added, so it has the form of one. */
  lemma KeptEntry(env: Env, d: Desc, keys: seq<Value>, values: seq<Value>, i: nat, depth: nat)
    returns (j: nat)
    requires d.MapD? && |keys| == |values|
    requires forall i :: 0 <= i < |keys| ==>
               SameForm(env, d.key, keys[i], Norm(env, d.key, keys[i]), depth)
    requires forall i :: 0 <= i < |values| ==>
               SameForm(env, d.value, values[i], Norm(env, d.value, values[i]), depth)
    requires Norm(env, d, MapV(keys, values)).MapV? && i < |Norm(env, d, MapV(keys, values)).keys|
    ensures var es := Canon(Normed(env, d, keys, NormAll(env, Each(d.key), keys),
                                                 NormAll(env, Each(d.value), values)));
            var w := Norm(env, d, MapV(keys, values));
            && |es| == |w.keys| == |w.values| && j < |keys|
            && w.keys[i] == Norm(env, d.key, keys[j]) && w.values[i] == Norm(env, d.value, values[j])
            && es[i] == Entry(Bytes(env, d.key, w.keys[i]), (w.keys[i], w.values[i]))
            && SameForm(env, d.key, keys[j], w.keys[i], depth)
            && SameForm(env, d.value, values[j], w.values[i], depth)
  {
    var added := Normed(env, d, keys, NormAll(env, Each(d.key), keys),
                                      NormAll(env, Each(d.value), values));
    var es := Canon(added);
    assert es[i] in es;
    j := KeptIsAdded(added, es[i]);
    BytesAt(env, d.key, keys, j);
    NormAt(env, d.key, keys, j);
    NormAt(env, d.value, values, j);
  }

  lemma KeptIsAdded<T>(added: seq<Entry<T>>, e: Entry<T>) returns (j: nat)
    requires e in Canon(added)
    ensures j < |added| && added[j] == e
  {
    CanonIn(added, e);
    FirstIsIn(added, e);
    j :| 0 <= j < |added| && added[j] == e;
  }

  lemma NormMap(env: Env, d: Desc, keys: seq<Value>, values: seq<Value>, depth: nat)
    requires d.MapD? && |keys| == |values|
    requires Writable(env, d, MapV(keys, values), depth)
    requires forall i :: 0 <= i < |keys| ==>
               SameForm(env, d.key, keys[i], Norm(env, d.key, keys[i]), depth)
    requires forall i :: 0 <= i < |values| ==>
               SameForm(env, d.value, values[i], Norm(env, d.value, values[i]), depth)
    ensures SameForm(env, d, MapV(keys, values), Norm(env, d, MapV(keys, values)), depth)
  {
    var w := Norm(env, d, MapV(keys, values));
    forall i: nat | i < |w.keys|
      ensures Typed(env, d.key, w.keys[i], true) && Writable(env, d.key, w.keys[i], depth)
      ensures Typed(env, d.value, w.values[i], true) && Writable(env, d.value, w.values[i], depth)
    {
      var j := KeptEntry(env, d, keys, values, i, depth);
    }
    EachTyped(env, d.key, w.keys, true, depth);
    EachTyped(env, d.value, w.values, true, depth);
    NormKeyed(env, d, keys, values, depth);
    var es := Keyed(env, d, keys, values);
    CanonSorted(es);
    CanonOfSorted(Canon(es));
  }

  function ValueBytes(env: Env, d: Desc): ((Value, Value)) -> seq<Byte>
    requires d.MapD?
  {
    (p: (Value, Value)) => Bytes(env, d.value, p.1)
  }

  lemma NormedBytes(env: Env, d: Desc, keys: seq<Value>, values: seq<Value>, depth: nat)
    requires d.MapD? && |keys| == |values|
    requires forall i :: 0 <= i < |values| ==>
               SameForm(env, d.value, values[i], Norm(env, d.value, values[i]), depth)
    ensures Carry(Normed(env, d, keys, NormAll(env, Each(d.key), keys),
                                       NormAll(env, Each(d.value), values)), ValueBytes(env, d))
         == Keyed(env, d, keys, values)
  {
    var carried := Carry(Normed(env, d, keys, NormAll(env, Each(d.key), keys),
                                              NormAll(env, Each(d.value), values)),
                         ValueBytes(env, d));
    var es := Keyed(env, d, keys, values);
    forall i: nat | i < |es| ensures carried[i] == es[i] {
      NormAt(env, d.value, values, i);
      BytesAt(env, d.value, values, i);
      assert SameForm(env, d.value, values[i], Norm(env, d.value, values[i]), depth);
    }
  }

  /** The serialized entries of the sorted form are the sorted serialized entries. */
  lemma NormKeyed(env: Env, d: Desc, keys: seq<Value>, values: seq<Value>, depth: nat)
    requires d.MapD? && |keys| == |values|
    requires forall i :: 0 <= i < |keys| ==>
               SameForm(env, d.key, keys[i], Norm(env, d.key, keys[i]), depth)
    requires forall i :: 0 <= i < |values| ==>
               SameForm(env, d.value, values[i], Norm(env, d.value, values[i]), depth)
    ensures var w := Norm(env, d, MapV(keys, values));
            w.MapV? && |w.keys| == |w.values|
            && Keyed(env, d, w.keys, w.values) == Canon(Keyed(env, d, keys, values))
  {
    var w := Norm(env, d, MapV(keys, values));
    var added := Normed(env, d, keys, NormAll(env, Each(d.key), keys),
                                      NormAll(env, Each(d.value), values));
    forall i: nat | i < |w.keys|
      ensures Canon(added)[i].key == Bytes(env, d.key, Canon(added)[i].payload.0)
    {
      var j := KeptEntry(env, d, keys, values, i, depth);
    }
    NormedBytes(env, d, keys, values, depth);
    CarryCanon(added, ValueBytes(env, d));
    PayloadsKeyed(env, d, Canon(added));
  }

  lemma PayloadsKeyed(env: Env, d: Desc, es: seq<Entry<(Value, Value)>>)
    requires d.MapD?
    requires forall i :: 0 <= i < |es| ==> es[i].key == Bytes(env, d.key, es[i].payload.0)
    ensures Keyed(env, d, Payloads(es).0, Payloads(es).1) == Carry(es, ValueBytes(env, d))
  {
    var written, kept := Keyed(env, d, Payloads(es).0, Payloads(es).1), Carry(es, ValueBytes(env, d));
    forall i: nat | i < |es| ensures written[i] == kept[i] {
      KeyedAt(env, d, Payloads(es).0, Payloads(es).1, i);
    }
  }

  lemma KeyedAt(env: Env, d: Desc, keys: seq<Value>, values: seq<Value>, i: nat)
    requires d.MapD? && i < |keys| == |values|
    ensures Keyed(env, d, keys, values)[i] ==
            Entry(Bytes(env, d.key, keys[i]), Bytes(env, d.value, values[i]))
  {
    BytesAt(env, d.key, keys, i);
    BytesAt(env, d.value, values, i);
  }

  // ---------------------------------------------------------------- main results

  /** Writing and reading back gives the sorted form of the value, exactly when that form is within
      the depth limit with its unit variants counted. */
  lemma RoundTrip(env: Env, d: Desc, v: Value, depth: nat, rest: seq<Byte>)
    requires Typed(env, d, v, false) && Writable(env, d, v, depth)
    ensures Read(env, d, Bytes(env, d, v) + rest, depth) == Some((Norm(env, d, v), rest))
            <==> Depth(Norm(env, d, v)) <= depth
    ensures Typed(env, d, v, true) ==> Norm(env, d, v) == v
  {
    var w := Norm(env, d, v);
    NormForm(env, d, v, depth);
    Bijection(env, d, Bytes(env, d, v) + rest, depth, w, rest);
    if Typed(env, d, v, true) { NormOfSorted(env, d, v); }
  }

  lemma {:induction false} NormOfSorted(env: Env, d: Desc, v: Value)
    requires Typed(env, d, v, true)
    ensures Norm(env, d, v) == v
    decreases v
  {
    match v {
      case SomeV(inner) => NormOfSorted(env, d.elem, inner);
      case ListV(vs) => NormOfSortedAll(env, if d.SeqD? then Each(d.elem) else Fields(d.elems), vs);
      case MapV(keys, values) =>
        NormOfSortedAll(env, Each(d.key), keys);
        NormOfSortedAll(env, Each(d.value), values);
        NormOfSortedMap(env, d, keys, values);
      case ContainerV(vs) =>
        NormOfSortedAll(env, Fields(env.containers[d.name].fields), vs);
      case VariantV(index, vs) =>
        var variant := env.containers[d.name].variants[index];
        if variant.FieldsVariant? { NormOfSortedAll(env, Fields(variant.fields), vs); }
      case _ =>
    }
  }

  lemma NormOfSortedMap(env: Env, d: Desc, keys: seq<Value>, values: seq<Value>)
    requires d.MapD? && |keys| == |values|
    requires StrictlySorted(Keyed(env, d, keys, values))
    requires NormAll(env, Each(d.key), keys) == keys && NormAll(env, Each(d.value), values) == values
    ensures Norm(env, d, MapV(keys, values)) == MapV(keys, values)
  {
    NormedOfSorted(env, d, keys, values);
    CanonOfSorted(Normed(env, d, keys, keys, values));
  }

  lemma NormedOfSorted(env: Env, d: Desc, keys: seq<Value>, values: seq<Value>)
    requires d.MapD? && |keys| == |values|
    requires StrictlySorted(Keyed(env, d, keys, values))
    ensures StrictlySorted(Normed(env, d, keys, keys, values))
    ensures Payloads(Normed(env, d, keys, keys, values)) == (keys, values)
  {
    var added, es := Normed(env, d, keys, keys, values), Keyed(env, d, keys, values);
    assert forall i :: 0 <= i < |keys| ==> added[i].key == es[i].key;
    assert Payloads(added).0 == keys && Payloads(added).1 == values;
  }

  lemma {:induction false} NormOfSortedAll(env: Env, sh: Shape, vs: seq<Value>)
    requires TypedAll(env, sh, vs, true)
    ensures NormAll(env, sh, vs) == vs
    decreases vs
  {
    if vs != [] {
      NormOfSorted(env, sh.Head(), vs[0]);
      NormOfSortedAll(env, sh.Tail(), vs[1..]);
      assert [vs[0]] + vs[1..] == vs;
    }
  }

  /** Two maps with the same entries and no two keys alike are written alike. */
  lemma InsertionOrderIsIrrelevant(env: Env, d: Desc, v: Value, w: Value)
    requires d.MapD? && v.MapV? && w.MapV?
    requires DistinctKeys(Keyed(env, d, v.keys, v.values))
    requires DistinctKeys(Keyed(env, d, w.keys, w.values))
    requires forall e :: e in Keyed(env, d, v.keys, v.values) <==>
                         e in Keyed(env, d, w.keys, w.values)
    ensures Bytes(env, d, v) == Bytes(env, d, w)
  {
    CanonIgnoresOrder(Keyed(env, d, v.keys, v.values), Keyed(env, d, w.keys, w.values));
  }

  // ---------------------------------------------------------------- unit variants and depth

  /** An enumeration that nests itself and ends with a unit variant. */
  const NESTING: seq<Container> := [EnumOf([UnitVariant, FieldsVariant([NamedD(0)])])]

  function Nest(n: nat): Value {
    if n == 0 then VariantV(0, []) else VariantV(1, [Nest(n - 1)])
  }

  /** The writer does not count the innermost unit variant, the reader does: `n` levels above it are
      written under the limit `n` and then refused. */
  lemma {:induction false} NestIsWrittenNotRead(utf8: seq<Byte> -> bool, n: nat, rest: seq<Byte>)
    ensures var env := Env(NESTING, utf8);
            && Typed(env, NamedD(0), Nest(n), true)
            && Writable(env, NamedD(0), Nest(n), n)
            && Read(env, NamedD(0), Bytes(env, NamedD(0), Nest(n)) + rest, n).None?
  {
    var env := Env(NESTING, utf8);
    var d := NamedD(0);
    if n > 0 {
      NestIsWrittenNotRead(utf8, n - 1, rest);
      var sh := Fields([d]);
      var inner := Bytes(env, d, Nest(n - 1));
      assert BytesAll(env, sh, [Nest(n - 1)]) == inner + [] == inner;
      assert Bytes(env, d, Nest(n)) == Encode(1) + inner;
      AfterNumber(1, inner, rest);
      assert ReadAll(env, sh, inner + rest, 1, n - 1).None?;
    }
  }

  /** Under the actual limit: 500 levels above a unit variant. */
  lemma UnitVariantAtTheLimit(utf8: seq<Byte> -> bool)
    ensures var env := Env(NESTING, utf8);
            && Typed(env, NamedD(0), Nest(MAX_CONTAINER_DEPTH), true)
            && Writable(env, NamedD(0), Nest(MAX_CONTAINER_DEPTH), MAX_CONTAINER_DEPTH)
            && Read(env, NamedD(0), Bytes(env, NamedD(0), Nest(MAX_CONTAINER_DEPTH)),
                    MAX_CONTAINER_DEPTH).None?
  {
    NestIsWrittenNotRead(utf8, MAX_CONTAINER_DEPTH, []);
    var s := Bytes(Env(NESTING, utf8), NamedD(0), Nest(MAX_CONTAINER_DEPTH));
    assert s + [] == s;
  }
}
