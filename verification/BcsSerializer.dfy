/** The BCS serializer: it appends to one output buffer and passes the remaining depth down. */
module BcsSerializer {
  import opened Collections
  import opened FileFormat
  import opened KeyOrder
  import opened Uleb128
  import opened Bcs
  import opened BcsBijection

  method OutputSeqLen(output: Buffer, len: nat) returns (ok: bool)
    modifies output
    ensures ok <==> len <= MAX_SEQUENCE_LENGTH
    ensures ok ==> output.bytes == old(output.bytes) + Encode(len)
  {
    if len > MAX_SEQUENCE_LENGTH { return false; }
    OutputU32AsUleb128(output, len);
    return true;
  }

  method SerializeBytes(output: Buffer, bytes: seq<Byte>) returns (ok: bool)
    modifies output
    ensures ok <==> |bytes| <= MAX_SEQUENCE_LENGTH
    ensures ok ==> output.bytes == old(output.bytes) + (Encode(|bytes|) + bytes)
  {
    ok := OutputSeqLen(output, |bytes|);
    if !ok { return; }
    output.Append(bytes);
    Associates(old(output.bytes), Encode(|bytes|), bytes);
  }

  /** `max_remaining_depth` is the limit left for the value; each nested serializer gets its own. */
  method Serialize(env: Env, d: Desc, v: Value, output: Buffer, maxRemainingDepth: nat)
    returns (ok: bool)
    requires Typed(env, d, v, false)
    modifies output
    ensures ok <==> Writable(env, d, v, maxRemainingDepth)
    ensures ok ==> output.bytes == old(output.bytes) + Bytes(env, d, v)
    decreases v, 2
  {
    ok := true;
    match v {
      case BoolV(b) => output.Append([if b then 1 else 0]);
      case IntV(i) => output.Append(LeBytes(d.width, i));
      case BytesV(bytes) => ok := SerializeBytes(output, bytes);
      case UnitV => assert output.bytes + [] == output.bytes;
      case NoneV => output.Append([0]);
      case SomeV(inner) =>
        output.Append([1]);
        ok := Serialize(env, d.elem, inner, output, maxRemainingDepth);
        Associates(old(output.bytes), [1], Bytes(env, d.elem, inner));
      case ListV(vs) =>
        if d.SeqD? {
          ok := OutputSeqLen(output, |vs|);
          if !ok { return; }
          ok := SerializeElements(env, Each(d.elem), vs, output, maxRemainingDepth);
          Associates(old(output.bytes), Encode(|vs|), BytesAll(env, Each(d.elem), vs));
        } else {
          ok := SerializeElements(env, Fields(d.elems), vs, output, maxRemainingDepth);
        }
      case MapV(keys, values) =>
        ok := SerializeMap(env, d, keys, values, output, maxRemainingDepth);
      case ContainerV(vs) =>
        if maxRemainingDepth == 0 { return false; }
        ok := SerializeElements(env, Fields(env.containers[d.name].fields), vs, output,
                                maxRemainingDepth - 1);
      case VariantV(index, vs) =>
        ok := SerializeVariant(env, d, index, vs, output, maxRemainingDepth);
    }
  }

  /** A unit variant does not enter a container. */
  method SerializeVariant(env: Env, d: Desc, index: nat, vs: seq<Value>, output: Buffer,
      maxRemainingDepth: nat)
    returns (ok: bool)
    requires Typed(env, d, VariantV(index, vs), false)
    modifies output
    ensures ok <==> Writable(env, d, VariantV(index, vs), maxRemainingDepth)
    ensures ok ==> output.bytes == old(output.bytes) + Bytes(env, d, VariantV(index, vs))
    decreases vs, 3
  {
    match env.containers[d.name].variants[index] {
      case UnitVariant =>
        OutputU32AsUleb128(output, index);
        ok := true;
      case FieldsVariant(ds) =>
        if maxRemainingDepth == 0 { return false; }
        OutputU32AsUleb128(output, index);
        ok := SerializeElements(env, Fields(ds), vs, output, maxRemainingDepth - 1);
        Associates(old(output.bytes), Encode(index), BytesAll(env, Fields(ds), vs));
    }
  }

  method SerializeElements(env: Env, sh: Shape, vs: seq<Value>, output: Buffer,
      maxRemainingDepth: nat)
    returns (ok: bool)
    requires TypedAll(env, sh, vs, false)
    modifies output
    ensures ok <==> WritableAll(env, sh, vs, maxRemainingDepth)
    ensures ok ==> output.bytes == old(output.bytes) + BytesAll(env, sh, vs)
    decreases vs, 0
  {
    var i, shape := 0, sh;
    while i < |vs|
      invariant 0 <= i <= |vs|
      invariant TypedAll(env, shape, vs[i..], false)
      invariant WritableAll(env, shape, vs[i..], maxRemainingDepth) <==>
                WritableAll(env, sh, vs, maxRemainingDepth)
      invariant output.bytes + BytesAll(env, shape, vs[i..]) ==
                old(output.bytes) + BytesAll(env, sh, vs)
    {
      var first, others := Bytes(env, shape.Head(), vs[i]), BytesAll(env, shape.Tail(), vs[i + 1..]);
      assert vs[i..][1..] == vs[i + 1..] && vs[i..][0] == vs[i];
      Associates(output.bytes, first, others);
      ok := Serialize(env, shape.Head(), vs[i], output, maxRemainingDepth);
      if !ok { return; }
      i, shape := i + 1, shape.Tail();
    }
    return true;
  }

  // ---------------------------------------------------------------- maps

  /** Collects serialized entries; nothing reaches the output before `End`. */
  class MapSerializer {
    const output: Buffer
    const maxRemainingDepth: nat
    var entries: seq<Entry<seq<Byte>>>
    var nextKey: Option<seq<Byte>>

    constructor (output: Buffer, maxRemainingDepth: nat)
      ensures this.output == output && this.maxRemainingDepth == maxRemainingDepth
      ensures entries == [] && nextKey == None
    {
      this.output := output;
      this.maxRemainingDepth := maxRemainingDepth;
      entries := [];
      nextKey := None;
    }

    method SerializeKey(env: Env, d: Desc, key: Value) returns (ok: bool)
      requires Typed(env, d, key, false)
      modifies this`nextKey
      ensures ok <==> old(nextKey).None? && Writable(env, d, key, maxRemainingDepth)
      ensures nextKey == if ok then Some(Bytes(env, d, key)) else old(nextKey)
      decreases key, 3
    {
      if nextKey.Some? { return false; }
      var out := new Buffer();
      ok := Serialize(env, d, key, out, maxRemainingDepth);
      if !ok { return; }
      assert [] + Bytes(env, d, key) == Bytes(env, d, key);
      nextKey := Some(out.bytes);
    }

    method SerializeValue(env: Env, d: Desc, value: Value) returns (ok: bool)
      requires Typed(env, d, value, false)
      modifies this
      ensures ok <==> old(nextKey).Some? && Writable(env, d, value, maxRemainingDepth)
      ensures nextKey == None
      ensures entries == if ok then old(entries) + [Entry(old(nextKey).value, Bytes(env, d, value))]
                         else old(entries)
      decreases value, 3
    {
      var key := nextKey;
      nextKey := None;
      if key.None? { return false; }
      var out := new Buffer();
      ok := Serialize(env, d, value, out, maxRemainingDepth);
      if !ok { return; }
      assert [] + Bytes(env, d, value) == Bytes(env, d, value);
      entries := entries + [Entry(key.value, out.bytes)];
    }

    method End() returns (ok: bool)
      modifies this`entries, output
      ensures ok <==> nextKey.None? && |Canon(old(entries))| <= MAX_SEQUENCE_LENGTH
      ensures ok ==> entries == Canon(old(entries))
      ensures ok ==> output.bytes == old(output.bytes) + (Encode(|entries|) + Concat(entries))
    {
      if nextKey.Some? { return false; }
      entries := SortByKey(entries);
      entries := DedupByKey(entries);
      ok := OutputSeqLen(output, |entries|);
      if !ok { return; }
      ghost var before := output.bytes;
      for i := 0 to |entries|
        invariant entries == Canon(old(entries))
        invariant output.bytes + Concat(entries[i..]) == before + Concat(entries)
      {
        assert entries[i..][1..] == entries[i + 1..] && entries[i..][0] == entries[i];
        ConcatCons(entries[i..], []);
        var key, payload, others := entries[i].key, entries[i].payload, Concat(entries[i + 1..]);
        Associates(output.bytes, key + payload, others);
        Associates(output.bytes, key, payload);
        output.Append(key);
        output.Append(payload);
      }
      assert output.bytes + [] == output.bytes;
      Associates(old(output.bytes), Encode(|entries|), Concat(entries));
    }
  }

  method SerializeEntries(env: Env, d: Desc, keys: seq<Value>, values: seq<Value>,
      serializer: MapSerializer)
    returns (ok: bool)
    requires Typed(env, d, MapV(keys, values), false)
    requires serializer.nextKey == None && serializer.entries == []
    modifies serializer
    ensures ok <==> WritableAll(env, Each(d.key), keys, serializer.maxRemainingDepth)
                    && WritableAll(env, Each(d.value), values, serializer.maxRemainingDepth)
    ensures ok ==> serializer.nextKey == None && serializer.entries == Keyed(env, d, keys, values)
    decreases MapV(keys, values), 0
  {
    ghost var depth := serializer.maxRemainingDepth;
    for i := 0 to |keys|
      invariant serializer.nextKey == None
      invariant serializer.entries == Keyed(env, d, keys[..i], values[..i])
      invariant WritableAll(env, Each(d.key), keys[..i], depth)
      invariant WritableAll(env, Each(d.value), values[..i], depth)
    {
      ElementOf(env, d.key, keys, i, depth);
      ElementOf(env, d.value, values, i, depth);
      ok := serializer.SerializeKey(env, d.key, keys[i]);
      if !ok { return; }
      ok := serializer.SerializeValue(env, d.value, values[i]);
      if !ok { return; }
      AddEntry(env, d, keys, values, i, depth);
    }
    assert keys[..|keys|] == keys && values[..|keys|] == values;
    return true;
  }

  lemma {:induction false} ElementOf(env: Env, d: Desc, vs: seq<Value>, i: nat, depth: nat)
    requires i < |vs| && TypedAll(env, Each(d), vs, false)
    ensures Typed(env, d, vs[i], false)
    ensures WritableAll(env, Each(d), vs, depth) ==> Writable(env, d, vs[i], depth)
  {
    if i > 0 { ElementOf(env, d, vs[1..], i - 1, depth); }
  }

  lemma {:induction false} WritableSnoc(env: Env, d: Desc, vs: seq<Value>, v: Value, depth: nat)
    requires WritableAll(env, Each(d), vs, depth) && Writable(env, d, v, depth)
    ensures WritableAll(env, Each(d), vs + [v], depth)
    decreases vs
  {
    if vs == [] {
      assert (vs + [v])[1..] == [];
    } else {
      WritableSnoc(env, d, vs[1..], v, depth);
      assert (vs + [v])[1..] == vs[1..] + [v];
    }
  }

  method SerializeMap(env: Env, d: Desc, keys: seq<Value>, values: seq<Value>, output: Buffer,
      maxRemainingDepth: nat)
    returns (ok: bool)
    requires Typed(env, d, MapV(keys, values), false)
    modifies output
    ensures ok <==> Writable(env, d, MapV(keys, values), maxRemainingDepth)
    ensures ok ==> output.bytes == old(output.bytes) + Bytes(env, d, MapV(keys, values))
    decreases MapV(keys, values), 1
  {
    var serializer := new MapSerializer(output, maxRemainingDepth);
    ok := SerializeEntries(env, d, keys, values, serializer);
    if !ok { return; }
    ok := serializer.End();
  }

  lemma AddEntry(env: Env, d: Desc, keys: seq<Value>, values: seq<Value>, i: nat, depth: nat)
    requires d.MapD? && i < |keys| == |values|
    requires WritableAll(env, Each(d.key), keys[..i], depth) && Writable(env, d.key, keys[i], depth)
    requires WritableAll(env, Each(d.value), values[..i], depth)
    requires Writable(env, d.value, values[i], depth)
    ensures WritableAll(env, Each(d.key), keys[..i + 1], depth)
    ensures WritableAll(env, Each(d.value), values[..i + 1], depth)
    ensures Keyed(env, d, keys[..i + 1], values[..i + 1]) ==
            Keyed(env, d, keys[..i], values[..i])
            + [Entry(Bytes(env, d.key, keys[i]), Bytes(env, d.value, values[i]))]
  {
    assert keys[..i + 1] == keys[..i] + [keys[i]] && values[..i + 1] == values[..i] + [values[i]];
    WritableSnoc(env, d.key, keys[..i], keys[i], depth);
    WritableSnoc(env, d.value, values[..i], values[i], depth);
    BytesEachSnoc(env, d.key, keys[..i], keys[i]);
    BytesEachSnoc(env, d.value, values[..i], values[i]);
    ZipSnoc(BytesEach(env, d.key, keys[..i]), BytesEach(env, d.value, values[..i]),
            Bytes(env, d.key, keys[i]), Bytes(env, d.value, values[i]));
  }

  lemma {:induction false} BytesEachSnoc(env: Env, d: Desc, vs: seq<Value>, v: Value)
    ensures BytesEach(env, d, vs + [v]) == BytesEach(env, d, vs) + [Bytes(env, d, v)]
    decreases vs
  {
    if vs == [] {
      assert (vs + [v])[1..] == [];
    } else {
      BytesEachSnoc(env, d, vs[1..], v);
      assert (vs + [v])[1..] == vs[1..] + [v];
      Associates([Bytes(env, d, vs[0])], BytesEach(env, d, vs[1..]), [Bytes(env, d, v)]);
    }
  }

  lemma ZipSnoc<T>(keys: seq<seq<Byte>>, values: seq<T>, key: seq<Byte>, value: T)
    requires |keys| == |values|
    ensures Zip(keys + [key], values + [value]) == Zip(keys, values) + [Entry(key, value)]
  {}

  /** `to_bytes` */
  method ToBytes(env: Env, d: Desc, v: Value) returns (r: Option<seq<Byte>>)
    requires Typed(env, d, v, false)
    ensures r.Some? <==> Writable(env, d, v, MAX_CONTAINER_DEPTH)
    ensures r.Some? ==> r.value == Bytes(env, d, v)
  {
    var output := new Buffer();
    var ok := Serialize(env, d, v, output, MAX_CONTAINER_DEPTH);
    assert [] + Bytes(env, d, v) == Bytes(env, d, v);
    return if ok then Some(output.bytes) else None;
  }
}
