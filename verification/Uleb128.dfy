/** Unsigned LEB128 numbers (section 7.6 of the DWARF 3 standard), as both codecs write and read
    them: the binary format with 64-bit numbers, BCS with 32-bit ones.

    Bit operations are written arithmetically: `x & 0x7f` is `x % 128`, `x >> 7` is `x / 128`,
    `x | 0x80` on seven bits adds 128, and an `|` of disjoint bits is a sum. */
module Uleb128 {
  import opened Collections
  import opened FileFormat

  type Byte = b: nat | b < 256

  const U64_LIMIT := 0x1_0000_0000_0000_0000
  const U32_LIMIT := 0x1_0000_0000

  /** A growing byte buffer. */
  class Buffer {
    var bytes: seq<Byte>

    constructor ()
      ensures bytes == []
    {
      bytes := [];
    }

    method Push(b: Byte)
      modifies this
      ensures bytes == old(bytes) + [b]
    {
      bytes := bytes + [b];
    }

    method Append(more: seq<Byte>)
      modifies this
      ensures bytes == old(bytes) + more
    {
      bytes := bytes + more;
    }
  }

  /** The input that is still to be read. */
  class Cursor {
    var rest: seq<Byte>

    constructor (input: seq<Byte>)
      ensures rest == input
    {
      rest := input;
    }

    method ReadU8() returns (b: Option<Byte>)
      modifies this
      ensures old(rest) == [] ==> b.None? && rest == []
      ensures old(rest) != [] ==> b == Some(old(rest)[0]) && rest == old(rest)[1..]
    {
      if rest == [] { return None; }
      b := Some(rest[0]);
      rest := rest[1..];
    }
  }

  // ---------------------------------------------------------------- the encoding

  function Encode(v: nat): (bytes: seq<Byte>)
    ensures |bytes| > 0
  {
    if v < 128 then [v] else [v % 128 + 128] + Encode(v / 128)
  }

  /** Reads one canonical number of any size: the last digit of a longer number is not zero. */
  function Decode(s: seq<Byte>): (r: Option<(nat, seq<Byte>)>)
    ensures r.Some? ==> |r.value.1| < |s|
  {
    if s == [] then None
    else if s[0] < 128 then Some((s[0], s[1..]))
    else
      match Decode(s[1..])
      case None => None
      case Some((v, rest)) => if v == 0 then None else Some((s[0] - 128 + 128 * v, rest))
  }

  /** Reads one canonical number up to `max`. */
  function DecodeMax(s: seq<Byte>, max: nat): (r: Option<(nat, seq<Byte>)>)
    ensures r.Some? ==> |r.value.1| < |s|
  {
    match Decode(s)
    case Some((v, rest)) => if v <= max then Some((v, rest)) else None
    case None => None
  }

  lemma {:induction false} DecodeEncode(v: nat, rest: seq<Byte>)
    ensures Decode(Encode(v) + rest) == Some((v, rest))
  {
    var s := Encode(v) + rest;
    if v < 128 {
      assert s[1..] == rest;
    } else {
      assert s[1..] == Encode(v / 128) + rest;
      DecodeEncode(v / 128, rest);
    }
  }

  lemma {:induction false} EncodeDecode(s: seq<Byte>)
    ensures Decode(s).Some? ==> s == Encode(Decode(s).value.0) + Decode(s).value.1
    decreases |s|
  {
    if s != [] {
      assert s == [s[0]] + s[1..];
      if s[0] >= 128 {
        EncodeDecode(s[1..]);
        if Decode(s).Some? {
          var v, rest := Decode(s[1..]).value.0, Decode(s[1..]).value.1;
          assert (s[0] - 128 + 128 * v) / 128 == v && (s[0] - 128 + 128 * v) % 128 == s[0] - 128;
        }
      }
    }
  }

  /** The encoding is canonical: reading returns a number exactly for the string the writer emits
      for it, and leaves the rest of the input. */
  lemma CanonicalNumbers(s: seq<Byte>, v: nat, rest: seq<Byte>)
    ensures Decode(s) == Some((v, rest)) <==> s == Encode(v) + rest
  {
    EncodeDecode(s);
    DecodeEncode(v, rest);
  }

  // ---------------------------------------------------------------- the writers

  /** `write_u64_as_uleb128` */
  method WriteU64AsUleb128(binary: Buffer, val: nat)
    requires val < U64_LIMIT
    modifies binary
    ensures binary.bytes == old(binary.bytes) + Encode(val)
  {
    var value := val;
    while value % 128 != value
      invariant binary.bytes + Encode(value) == old(binary.bytes) + Encode(val)
    {
      binary.Push(value % 128 + 128);
      value := value / 128;
    }
    binary.Push(value);
  }

  /** `output_u32_as_uleb128` */
  method OutputU32AsUleb128(output: Buffer, val: nat)
    requires val < U32_LIMIT
    modifies output
    ensures output.bytes == old(output.bytes) + Encode(val)
  {
    var value := val;
    while value >= 0x80
      invariant output.bytes + Encode(value) == old(output.bytes) + Encode(val)
    {
      output.Append([value % 128 + 128]);
      value := value / 128;
    }
    output.Append([value]);
  }

  // ---------------------------------------------------------------- the readers

  /** `x << 7 * n` without a bound on the width, and `x >> 7 * n`. */
  function Shl(x: nat, n: nat): nat {
    if n == 0 then x else 128 * Shl(x, n - 1)
  }

  function Shr(x: nat, n: nat): nat {
    if n == 0 then x else Shr(x / 128, n - 1)
  }

  lemma {:induction false} ShlSum(x: nat, y: nat, n: nat)
    ensures Shl(x + y, n) == Shl(x, n) + Shl(y, n)
  {
    if n > 0 { ShlSum(x, y, n - 1); }
  }

  lemma {:induction false} ShlNext(x: nat, n: nat)
    ensures Shl(128 * x, n) == Shl(x, n + 1)
  {
    if n > 0 { ShlNext(x, n - 1); }
  }

  lemma ShlGrows(x: nat, y: nat, n: nat)
    requires x <= y
    ensures Shl(x, n) <= Shl(y, n)
  {
    ShlSum(x, y - x, n);
  }

  lemma {:induction false} ShrShl(x: nat, y: nat, n: nat)
    ensures Shr(Shl(x, n), n) == x
    ensures Shl(Shr(y, n), n) <= y
  {
    if n > 0 {
      ShrShl(x, y / 128, n - 1);
      assert Shl(x, n) / 128 == Shl(x, n - 1);
    }
  }

  lemma WidestPlaces()
    ensures Shl(1, 5) == 0x8_0000_0000
    ensures Shl(1, 9) == 0x8000_0000_0000_0000
    ensures Shl(1, 10) >= U64_LIMIT
  {
    assert Shl(1, 2) == 0x4000;
    assert Shl(1, 4) == 0x1000_0000;
    assert Shl(1, 6) == 0x400_0000_0000;
    assert Shl(1, 8) == 0x100_0000_0000_0000;
  }

  lemma {:induction false} PlacesGrow(m: nat, n: nat)
    requires m <= n
    ensures Shl(1, m) <= Shl(1, n)
    decreases n
  {
    if m < n { PlacesGrow(m, n - 1); }
  }

  /** What the whole input decodes to, once `n` continued digits worth `value` have been read. */
  function Resume(value: nat, n: nat, rest: seq<Byte>): Option<(nat, seq<Byte>)> {
    match Decode(rest)
    case None => None
    case Some((v, rest')) => if n > 0 && v == 0 then None else Some((value + Shl(v, n), rest'))
  }

  /** Reading one more continued digit. */
  lemma ResumeNext(value: nat, n: nat, rest: seq<Byte>)
    requires rest != [] && rest[0] >= 128
    ensures Resume(value, n, rest) == Resume(value + Shl(rest[0] - 128, n), n + 1, rest[1..])
  {
    var inner := Decode(rest[1..]);
    if inner.Some? {
      ShlSum(rest[0] - 128, 128 * inner.value.0, n);
      ShlNext(inner.value.0, n);
    }
  }

  /** A digit that does not fit at its place, or a further digit at a place beyond the limit, makes
      the number too large. */
  lemma TooLarge(value: nat, n: nat, rest: seq<Byte>, limit: nat)
    requires || (rest != [] && Shl(rest[0] % 128, n) >= limit)
             || (n > 0 && Shl(1, n) >= limit)
    ensures Resume(value, n, rest).Some? ==> Resume(value, n, rest).value.0 >= limit
  {
    if Resume(value, n, rest).Some? {
      var v := Decode(rest).value.0;
      ShlGrows(rest[0] % 128, v, n);
      if v > 0 { ShlGrows(1, v, n); }
    }
  }

  lemma LastDigit(value: nat, n: nat, rest: seq<Byte>)
    requires rest != [] && rest[0] < 128
    ensures Resume(value, n, rest) ==
            if n > 0 && rest[0] == 0 then None else Some((value + Shl(rest[0], n), rest[1..]))
  {}

  /** `(cur << shift) >> shift != cur` on 64 bits */
  predicate LosesBits(cur: nat, n: nat) {
    Shr(Shl(cur, n) % U64_LIMIT, n) != cur
  }

  /** Shifting a digit left and back again loses bits exactly when it does not fit. */
  lemma ShiftLosesBits(cur: nat, n: nat)
    ensures LosesBits(cur, n) <==> Shl(cur, n) >= U64_LIMIT
  {
    var x := Shl(cur, n);
    ShrShl(cur, x % U64_LIMIT, n);
    if x < U64_LIMIT {
      assert x % U64_LIMIT == x;
    } else {
      assert Shl(Shr(x % U64_LIMIT, n), n) < U64_LIMIT;
    }
  }

  lemma DigitsStayBelow(value: nat, n: nat, cur: nat)
    requires value < Shl(1, n) && cur < 128
    ensures value + Shl(cur, n) < Shl(1, n + 1)
  {
    ShlGrows(cur, 127, n);
    ShlSum(127, 1, n);
    ShlNext(1, n);
  }

  /** The ninth place is the last whose digits all fit; on the tenth only 0 and 1 do. */
  lemma FitsInU64(value: nat, n: nat, cur: nat)
    requires n <= 9 && cur < 128 && Shl(cur, n) < U64_LIMIT && value < Shl(1, n)
    ensures value + Shl(cur, n) < U64_LIMIT
  {
    WidestPlaces();
    if n == 9 {
      if cur >= 2 {
        ShlSum(1, 1, 9);
        ShlGrows(2, cur, 9);
      } else if cur == 0 {
        ShlSum(0, 0, 9);
      }
    } else {
      DigitsStayBelow(value, n, cur);
      PlacesGrow(n + 1, 9);
    }
  }

  /** Reading `start` has come to `rest`, with `n` continued digits worth `value`. */
  ghost predicate Reading(start: seq<Byte>, value: nat, n: nat, rest: seq<Byte>) {
    value < Shl(1, n) && Decode(start) == Resume(value, n, rest)
  }

  lemma ReadingDigit(start: seq<Byte>, value: nat, n: nat, rest: seq<Byte>)
    requires Reading(start, value, n, rest) && rest != []
    ensures rest[0] >= 128 ==> Reading(start, value + Shl(rest[0] % 128, n), n + 1, rest[1..])
    ensures rest[0] < 128 ==>
              Decode(start) == if n > 0 && rest[0] == 0 then None
                               else Some((value + Shl(rest[0], n), rest[1..]))
    ensures Shl(rest[0] % 128, n) >= U64_LIMIT ==> DecodeMax(start, U64_LIMIT - 1).None?
  {
    if rest[0] >= 128 {
      ResumeNext(value, n, rest);
      DigitsStayBelow(value, n, rest[0] % 128);
    } else {
      LastDigit(value, n, rest);
    }
    if Shl(rest[0] % 128, n) >= U64_LIMIT { TooLarge(value, n, rest, U64_LIMIT); }
  }

  lemma ReadingEnds(start: seq<Byte>, value: nat, n: nat, rest: seq<Byte>, limit: nat)
    requires Reading(start, value, n, rest)
    requires limit > 0 && (rest == [] || (n > 0 && Shl(1, n) >= limit))
    ensures DecodeMax(start, limit - 1).None?
  {
    if rest != [] { TooLarge(value, n, rest, limit); }
  }

  /** `read_uleb128_as_u64` */
  method ReadUleb128AsU64(cursor: Cursor) returns (r: Option<nat>)
    modifies cursor
    ensures r.None? <==> DecodeMax(old(cursor.rest), U64_LIMIT - 1).None?
    ensures r.Some? ==> DecodeMax(old(cursor.rest), U64_LIMIT - 1) == Some((r.value, cursor.rest))
  {
    var value: nat := 0;
    var n := 0; // `shift` is 7 * n
    var continues := true;
    while continues
      invariant 0 <= n <= 10
      invariant continues ==> n <= 9
      invariant !continues ==> n == 10 || cursor.rest == []
      invariant Reading(old(cursor.rest), value, n, cursor.rest)
      decreases if continues then 1 else 0, |cursor.rest|
    {
      ghost var before := cursor.rest;
      var byte := cursor.ReadU8();
      if byte.None? {
        continues := false;
      } else {
        var cur := byte.value % 128;
        ReadingDigit(old(cursor.rest), value, n, before);
        ShiftLosesBits(cur, n);
        if LosesBits(cur, n) { return None; }
        if byte.value < 128 {
          if n > 0 && cur == 0 { return None; }
          FitsInU64(value, n, cur);
          return Some(value + Shl(cur, n));
        }
        value := value + Shl(cur, n);
        n := n + 1;
        if 7 * n > 64 {
          continues := false;
        }
      }
    }
    WidestPlaces();
    ReadingEnds(old(cursor.rest), value, n, cursor.rest, U64_LIMIT);
    return None;
  }

  /** `read_uleb_internal`, where `widest` is the largest value of the target type. */
  method ReadUlebInternal(cursor: Cursor, max: nat, widest: nat) returns (r: Option<nat>)
    requires max < U64_LIMIT
    modifies cursor
    ensures r.None? <==> DecodeMax(old(cursor.rest), Min(max, widest)).None?
    ensures r.Some? ==> DecodeMax(old(cursor.rest), Min(max, widest)) == Some((r.value, cursor.rest))
  {
    var x := ReadUleb128AsU64(cursor);
    if x.None? || x.value > max { return None; }
    // `try_into`
    if x.value > widest { return None; }
    return x;
  }

  /** `parse_u32_from_uleb128`: at most five digits, collected in 64 bits. */
  method ParseU32FromUleb128(cursor: Cursor) returns (r: Option<nat>)
    modifies cursor
    ensures r.None? <==> DecodeMax(old(cursor.rest), U32_LIMIT - 1).None?
    ensures r.Some? ==> DecodeMax(old(cursor.rest), U32_LIMIT - 1) == Some((r.value, cursor.rest))
  {
    var value: nat := 0;
    for n := 0 to 5
      invariant Reading(old(cursor.rest), value, n, cursor.rest)
    {
      ghost var before := cursor.rest;
      var byte := cursor.ReadU8();
      if byte.None? { return None; }
      var digit := byte.value % 128;
      ReadingDigit(old(cursor.rest), value, n, before);
      if digit == byte.value {
        if n > 0 && digit == 0 { return None; }
        if value + Shl(digit, n) >= U32_LIMIT { return None; }
        return Some(value + Shl(digit, n));
      }
      value := value + Shl(digit, n);
    }
    WidestPlaces();
    ReadingEnds(old(cursor.rest), value, 5, cursor.rest, U32_LIMIT);
    return None;
  }

  /** Given the same bound, the two readers accept the same strings and read the same numbers. */
  method ReadersAgree(input: seq<Byte>) returns (wide: Option<nat>, narrow: Option<nat>)
    ensures wide == narrow
  {
    var a := new Cursor(input);
    var b := new Cursor(input);
    wide := ReadUlebInternal(a, U32_LIMIT - 1, U32_LIMIT - 1);
    narrow := ParseU32FromUleb128(b);
  }
}
