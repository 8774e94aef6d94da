/** The BCS deserializer: a moving input and the depth that is left, restored after each container. */
module BcsDeserializer {
  import opened FileFormat
  import opened KeyOrder
  import opened Uleb128
  import opened Bcs
  import opened BcsBijection

  class Deserializer {
    const input: Cursor
    var maxRemainingDepth: nat

    constructor (bytes: seq<Byte>, maxRemainingDepth: nat)
      ensures fresh(input) && input.rest == bytes && this.maxRemainingDepth == maxRemainingDepth
    {
      input := new Cursor(bytes);
      this.maxRemainingDepth := maxRemainingDepth;
    }

    method ParseBool() returns (r: Option<bool>)
      modifies input
      ensures var s := old(input.rest);
              r == if s == [] || s[0] > 1 then None else Some(s[0] == 1)
      ensures r.Some? ==> input.rest == old(input.rest)[1..]
    {
      var byte := input.ReadU8();
      if byte.None? || byte.value > 1 { return None; }
      return Some(byte.value == 1);
    }

    method FillSlice(n: nat) returns (r: Option<seq<Byte>>)
      modifies input
      ensures var s := old(input.rest); r == if |s| < n then None else Some(s[..n])
      ensures r.Some? ==> input.rest == old(input.rest)[n..]
    {
      var slice: seq<Byte> := [];
      for i := 0 to n
        invariant i <= |old(input.rest)|
        invariant slice == old(input.rest)[..i] && input.rest == old(input.rest)[i..]
      {
        var byte := input.ReadU8();
        if byte.None? { return None; }
        slice := slice + [byte.value];
      }
      return Some(slice);
    }

    method ParseLength() returns (r: Option<nat>)
      modifies input
      ensures r.None? <==> DecodeMax(old(input.rest), MAX_SEQUENCE_LENGTH).None?
      ensures r.Some? ==> DecodeMax(old(input.rest), MAX_SEQUENCE_LENGTH) == Some((r.value, input.rest))
    {
      r := ParseU32FromUleb128(input);
      if r.Some? && r.value > MAX_SEQUENCE_LENGTH { return None; }
    }

    method ParseBytes() returns (r: Option<seq<Byte>>)
      modifies input
      ensures r.None? <==> ReadBytes(old(input.rest)).None?
      ensures r.Some? ==> ReadBytes(old(input.rest)) == Some((r.value, input.rest))
    {
      var len := ParseLength();
      if len.None? || len.value > |input.rest| { return None; }
      r := Some(input.rest[..len.value]);
      input.rest := input.rest[len.value..];
    }

    method Deserialize(env: Env, d: Desc) returns (r: Option<Value>)
      modifies this, input
      ensures maxRemainingDepth == old(maxRemainingDepth)
      ensures r.None? <==> Read(env, d, old(input.rest), maxRemainingDepth).None?
      ensures r.Some? ==>
                Read(env, d, old(input.rest), maxRemainingDepth) == Some((r.value, input.rest))
      decreases maxRemainingDepth, Size(d), 0, 0
    {
      match d {
        case BoolD =>
          var b := ParseBool();
          return if b.Some? then Some(BoolV(b.value)) else None;
        case IntD(w, signed) =>
          var bytes := FillSlice(w);
          return if bytes.Some? then Some(IntV(FromLe(bytes.value, signed))) else None;
        case BytesD =>
          var bytes := ParseBytes();
          return if bytes.Some? then Some(BytesV(bytes.value)) else None;
        case StrD =>
          var bytes := ParseBytes();
          return if bytes.Some? && env.utf8(bytes.value) then Some(BytesV(bytes.value)) else None;
        case UnitD => return Some(UnitV);
        case OptionD(e) => r := DeserializeOption(env, e);
        case SeqD(e) =>
          var len := ParseLength();
          if len.None? { return None; }
          var vs := VisitSeq(env, Each(e), len.value);
          return if vs.Some? then Some(ListV(vs.value)) else None;
        case TupleD(ds) =>
          var vs := VisitSeq(env, Fields(ds), |ds|);
          return if vs.Some? then Some(ListV(vs.value)) else None;
        case MapD(k, x) =>
          var len := ParseLength();
          if len.None? { return None; }
          var entries := VisitMap(env, d, len.value);
          return if entries.Some? then Some(MapV(entries.value.0, entries.value.1)) else None;
        case NamedD(name) =>
          if name >= |env.containers| { return None; }
          // enter_named_container
          if maxRemainingDepth == 0 { return None; }
          maxRemainingDepth := maxRemainingDepth - 1;
          r := DeserializeContainer(env, env.containers[name]);
          // leave_named_container
          maxRemainingDepth := maxRemainingDepth + 1;
      }
    }

    method DeserializeOption(env: Env, e: Desc) returns (r: Option<Value>)
      modifies this, input
      ensures maxRemainingDepth == old(maxRemainingDepth)
      ensures r.None? <==> Read(env, OptionD(e), old(input.rest), maxRemainingDepth).None?
      ensures r.Some? ==>
                Read(env, OptionD(e), old(input.rest), maxRemainingDepth) == Some((r.value, input.rest))
      decreases maxRemainingDepth, Size(e), 1, 0
    {
      var byte := input.ReadU8();
      if byte.None? { return None; }
      if byte.value == 0 { return Some(NoneV); }
      if byte.value != 1 { return None; }
      var v := Deserialize(env, e);
      return if v.Some? then Some(SomeV(v.value)) else None;
    }

    method DeserializeContainer(env: Env, c: Container) returns (r: Option<Value>)
      modifies this, input
      ensures maxRemainingDepth == old(maxRemainingDepth)
      ensures r.None? <==> ReadContainer(env, c, old(input.rest), maxRemainingDepth).None?
      ensures r.Some? ==>
                ReadContainer(env, c, old(input.rest), maxRemainingDepth) == Some((r.value, input.rest))
      decreases maxRemainingDepth + 1, 0, 0, 0
    {
      match c {
        case Product(ds) =>
          var vs := VisitSeq(env, Fields(ds), |ds|);
          return if vs.Some? then Some(ContainerV(vs.value)) else None;
        case EnumOf(variants) =>
          var index := ParseU32FromUleb128(input);
          if index.None? || index.value >= |variants| { return None; }
          match variants[index.value] {
            case UnitVariant => return Some(VariantV(index.value, []));
            case FieldsVariant(ds) =>
              var vs := VisitSeq(env, Fields(ds), |ds|);
              return if vs.Some? then Some(VariantV(index.value, vs.value)) else None;
          }
      }
    }

    method VisitSeq(env: Env, sh: Shape, n: nat) returns (r: Option<seq<Value>>)
      requires sh.Fields? ==> n == |sh.descs|
      modifies this, input
      ensures maxRemainingDepth == old(maxRemainingDepth)
      ensures r.None? <==> ReadAll(env, sh, old(input.rest), n, maxRemainingDepth).None?
      ensures r.Some? ==>
                ReadAll(env, sh, old(input.rest), n, maxRemainingDepth) == Some((r.value, input.rest))
      decreases maxRemainingDepth, ShapeSize(sh), 1, n
    {
      var remaining, shape := n, sh;
      var done: seq<Value> := [];
      PrependMore([], [], ReadAll(env, sh, input.rest, n, maxRemainingDepth));
      while remaining > 0
        invariant 0 <= remaining && ShapeSize(shape) <= ShapeSize(sh)
        invariant shape.Fields? ==> remaining == |shape.descs|
        invariant maxRemainingDepth == old(maxRemainingDepth)
        invariant ReadAll(env, sh, old(input.rest), n, maxRemainingDepth)
               == Prepend(done, ReadAll(env, shape, input.rest, remaining, maxRemainingDepth))
      {
        remaining := remaining - 1;
        var v := Deserialize(env, shape.Head());
        if v.None? { return None; }
        shape := shape.Tail();
        PrependMore(done, [v.value], ReadAll(env, shape, input.rest, remaining, maxRemainingDepth));
        done := done + [v.value];
      }
      assert done + [] == done;
      return Some(done);
    }

    /** `next_key_seed` when entries remain: the key must be greater than the one before. */
    method NextKey(env: Env, k: Desc, previousKeyBytes: Option<seq<Byte>>)
      returns (r: Option<Value>, keyBytes: seq<Byte>)
      modifies this, input
      ensures maxRemainingDepth == old(maxRemainingDepth)
      ensures var key := Read(env, k, old(input.rest), maxRemainingDepth);
              if key.None? then r.None?
              else
                var consumed := old(input.rest)[..|old(input.rest)| - |key.value.1|];
                if previousKeyBytes.Some? && !Less(previousKeyBytes.value, consumed) then r.None?
                else r.Some? && key == Some((r.value, input.rest)) && keyBytes == consumed
      decreases maxRemainingDepth, Size(k), 1, 0
    {
      var previousInput := input.rest;
      keyBytes := [];
      r := Deserialize(env, k);
      if r.None? { return; }
      keyBytes := previousInput[..|previousInput| - |input.rest|];
      if previousKeyBytes.Some? && !Less(previousKeyBytes.value, keyBytes) { r := None; }
    }

    /** One key and its value; `remaining` counts the entries still to come, this one included. */
    method NextEntry(env: Env, d: Desc, previousKeyBytes: Option<seq<Byte>>, ghost remaining: nat)
      returns (r: Option<(Value, Value)>, keyBytes: seq<Byte>)
      requires d.MapD? && remaining > 0
      modifies this, input
      ensures maxRemainingDepth == old(maxRemainingDepth)
      ensures ReadEntries(env, d.key, d.value, old(input.rest), remaining, previousKeyBytes,
                          maxRemainingDepth) ==
              if r.None? then None
              else PrependEntries([r.value.0], [r.value.1],
                     ReadEntries(env, d.key, d.value, input.rest, remaining - 1, Some(keyBytes),
                                 maxRemainingDepth))
      decreases maxRemainingDepth, Size(d.key) + Size(d.value), 0, 0
    {
      var key;
      key, keyBytes := NextKey(env, d.key, previousKeyBytes);
      if key.None? { return None, []; }
      ghost var mid := input.rest;
      assert old(input.rest) == keyBytes + mid by {
        Written(env, d.key, old(input.rest), maxRemainingDepth);
      }
      var value := Deserialize(env, d.value);
      if value.None? { return None, []; }
      ReadEntry(env, d, keyBytes, mid, remaining, previousKeyBytes, key.value, value.value, input.rest,
                maxRemainingDepth);
      r := Some((key.value, value.value));
    }

    method VisitMap(env: Env, d: Desc, n: nat) returns (r: Option<(seq<Value>, seq<Value>)>)
      requires d.MapD?
      modifies this, input
      ensures maxRemainingDepth == old(maxRemainingDepth)
      ensures r.None? <==>
              ReadEntries(env, d.key, d.value, old(input.rest), n, None, maxRemainingDepth).None?
      ensures r.Some? ==>
                ReadEntries(env, d.key, d.value, old(input.rest), n, None, maxRemainingDepth)
                == Some((r.value.0, r.value.1, input.rest))
      decreases maxRemainingDepth, Size(d.key) + Size(d.value), 1, n
    {
      var remaining := n;
      var previousKeyBytes: Option<seq<Byte>> := None;
      var ks: seq<Value>, xs: seq<Value> := [], [];
      PrependMoreEntries([], [], [], [],
        ReadEntries(env, d.key, d.value, input.rest, n, None, maxRemainingDepth));
      while remaining > 0
        invariant 0 <= remaining && maxRemainingDepth == old(maxRemainingDepth)
        invariant ReadEntries(env, d.key, d.value, old(input.rest), n, None, maxRemainingDepth) ==
                  PrependEntries(ks, xs, ReadEntries(env, d.key, d.value, input.rest, remaining,
                                                     previousKeyBytes, maxRemainingDepth))
      {
        var entry, keyBytes := NextEntry(env, d, previousKeyBytes, remaining);
        if entry.None? { return None; }
        remaining := remaining - 1;
        previousKeyBytes := Some(keyBytes);
        PrependMoreEntries(ks, xs, [entry.value.0], [entry.value.1],
          ReadEntries(env, d.key, d.value, input.rest, remaining, previousKeyBytes, maxRemainingDepth));
        ks, xs := ks + [entry.value.0], xs + [entry.value.1];
      }
      assert ks + [] == ks && xs + [] == xs;
      return Some((ks, xs));
    }
  }

  /** `from_bytes`: accepts exactly the written forms of the values within the limits, and returns
      the value whose written form it is. */
  method FromBytes(env: Env, d: Desc, bytes: seq<Byte>) returns (r: Option<Value>)
    ensures forall v :: r == Some(v) <==> Good(env, d, v, MAX_CONTAINER_DEPTH) && bytes == Bytes(env, d, v)
  {
    var deserializer := new Deserializer(bytes, MAX_CONTAINER_DEPTH);
    r := deserializer.Deserialize(env, d);
    if deserializer.input.rest != [] { r := None; }
    forall v ensures r == Some(v) <==>
                     Good(env, d, v, MAX_CONTAINER_DEPTH) && bytes == Bytes(env, d, v)
    {
      Bijection(env, d, bytes, MAX_CONTAINER_DEPTH, v, []);
      assert Bytes(env, d, v) + [] == Bytes(env, d, v);
    }
  }
}
