/** Unsigned LEB128 lengths and the bounded cursor the decoder reads through
    (go/kdb/codec/wire_numbers.go). */
module Varint {
  import opened Words

  /** What a read does: yield a value and the position after it, report an error, or stop the
      process (an index or allocation out of range). */
  datatype Read<+T> = Ok(value: T, pos: nat) | Err | Panic {
    predicate IsFailure() { !Ok? }
    function PropagateFailure<U>(): Read<U>
      requires !Ok?
    {
      if Err? then Err else Panic
    }
    function Extract(): (T, nat)
      requires Ok?
    {
      (value, pos)
    }
  }

  // ---------------------------------------------------------------- writing

  /** Seven bits a byte, lowest first, the high bit set on every byte but the last. */
  function Leb(v: nat): (r: Bytes)
    ensures |r| >= 1
  {
    if v < 128 then [v] else [v % 128 + 128] + Leb(v / 128)
  }

  /** Byte `i` carries the seven bits of weight 128 to the `i`, and its top bit says whether another follows. */
  lemma {:induction false} LebAt(v: nat, i: nat)
    requires i < |Leb(v)|
    ensures Leb(v)[i] == v / Pow128(i) % 128 + if i < |Leb(v)| - 1 then 128 else 0
  {
    if v >= 128 && i > 0 {
      LebAt(v / 128, i - 1);
      Divided128(v, i - 1);
    }
  }

  /** There are no more bytes than the number needs. */
  lemma {:induction false} LebSize(v: nat)
    ensures v < Pow128(|Leb(v)|) && (|Leb(v)| > 1 ==> Pow128(|Leb(v)| - 1) <= v)
  {
    assert Pow128(1) == 128;
    if v >= 128 {
      LebSize(v / 128);
      Longer(v, |Leb(v / 128)|);
    }
  }

  lemma Divided128(v: nat, i: nat)
    ensures v / 128 / Pow128(i) == v / Pow128(i + 1)
  {
    var p := Pow128(i);
    var q, r := v / 128, v % 128;
    var a, b := q / p, q % p;
    assert v == 128 * (a * p + b) + r == a * (128 * p) + (128 * b + r) && 0 <= 128 * b + r < 128 * p;
    QuotientIs(v, 128 * p, a, 128 * b + r);
  }

  lemma Longer(v: nat, n: nat)
    requires n > 0
    ensures v / 128 < Pow128(n) ==> v < Pow128(n + 1)
    ensures Pow128(n - 1) <= v / 128 ==> Pow128(n) <= v
  {}

  /** appendLeb128U32. */
  method AppendLeb128U32(dst: Bytes, v: uint32) returns (out: Bytes)
    ensures out == dst + Leb(v)
  {
    var cur: nat := v;
    out := dst;
    while cur >= 128
      invariant out + Leb(cur) == dst + Leb(v)
    {
      assert out + Leb(cur) == (out + [cur % 128 + 128]) + Leb(cur / 128);
      out := out + [cur % 128 + 128];
      cur := cur / 128;
    }
    out := out + [cur];
  }

  // ---------------------------------------------------------------- reading

  /** The number the varint at `pos` spells, before it is cut to 64 bits. `i` bytes precede it; a
      tenth byte that still asks for another is an overflow. */
  function LebDigits(raw: Bytes, pos: nat, i: nat): (r: Read<nat>)
    requires pos <= |raw| && i <= 9
    ensures r.Ok? ==> pos < r.pos <= |raw|
    ensures !r.Panic?
    decreases |raw| - pos
  {
    if pos == |raw| then Err
    else if raw[pos] < 128 then Ok(raw[pos], pos + 1)
    else if i == 9 then Err
    else
      var (v, p) :- LebDigits(raw, pos + 1, i + 1);
      Ok(raw[pos] - 128 + 128 * v, p)
  }

  /** readLeb128U64: the shifted tenth byte drops the bits above 2^64. */
  function ReadLeb(raw: Bytes, pos: nat): (r: Read<uint64>)
    requires pos <= |raw|
    ensures r.Ok? ==> pos < r.pos <= |raw|
    ensures !r.Panic?
  {
    var (v, p) :- LebDigits(raw, pos, 0);
    Ok(v % TWO_64, p)
  }

  function Pow128(n: nat): (r: int)
    ensures r > 0
  {
    if n == 0 then 1 else 128 * Pow128(n - 1)
  }

  lemma {:induction false} LebDigitsOfLeb(raw: Bytes, pos: nat, i: nat, v: nat)
    requires At(raw, pos, Leb(v)) && i <= 9 && v < Pow128(10 - i)
    ensures LebDigits(raw, pos, i) == Ok(v, pos + |Leb(v)|)
    decreases v
  {
    if v < 128 {
      assert Leb(v) == [v] + [];
      AtHead(raw, pos, v, []);
    } else {
      AtHead(raw, pos, v % 128 + 128, Leb(v / 128));
      assert Pow128(1) == 128;
      LebDigitsOfLeb(raw, pos + 1, i + 1, v / 128);
    }
  }

  /** What the writer puts down the reader takes up, for every 64-bit value and whatever follows. */
  lemma LebRoundTrip(raw: Bytes, pos: nat, v: uint64)
    requires At(raw, pos, Leb(v))
    ensures ReadLeb(raw, pos) == Ok(v, pos + |Leb(v)|)
  {
    assert Pow128(10) >= TWO_64 by {
      assert Pow128(4) == 0x1000_0000;
      assert Pow128(8) == 128 * (128 * (128 * (128 * Pow128(4))));
      assert Pow128(10) == 128 * (128 * Pow128(8));
    }
    LebDigitsOfLeb(raw, pos, 0, v);
  }

  /** A varint within `s` is the one that stands in `raw` where `s` does, if that one ends within `s`. */
  lemma {:induction false} DigitsWithin(raw: Bytes, pos: nat, s: Bytes, j: nat, i: nat)
    requires At(raw, pos, s) && j <= |s| && i <= 9
    ensures var inner, outer := LebDigits(s, j, i), LebDigits(raw, pos + j, i);
      && (inner.Ok? <==> outer.Ok? && outer.pos <= pos + |s|)
      && (inner.Ok? ==> outer == Ok(inner.value, pos + inner.pos))
    decreases |s| - j
  {
    if j < |s| {
      assert raw[pos + j] == s[j];
      if s[j] >= 128 && i < 9 { DigitsWithin(raw, pos, s, j + 1, i + 1); }
    }
  }

  lemma LebWithin(raw: Bytes, pos: nat, s: Bytes, j: nat)
    requires At(raw, pos, s) && j <= |s|
    ensures var inner, outer := ReadLeb(s, j), ReadLeb(raw, pos + j);
      && (inner.Ok? <==> outer.Ok? && outer.pos <= pos + |s|)
      && (inner.Ok? ==> outer == Ok(inner.value, pos + inner.pos))
  {
    DigitsWithin(raw, pos, s, j, 0);
  }

  ghost function Scaled(acc: nat, weight: nat, rest: Read<nat>): Read<nat> {
    match rest
    case Ok(v, p) => Ok(acc + weight * v, p)
    case _ => rest
  }

  lemma ScaledStep(acc: nat, weight: nat, b: byte, rest: Read<nat>)
    requires b >= 128
    ensures Scaled(acc, weight, match rest case Ok(v, p) => Ok(b - 128 + 128 * v, p) case _ => rest)
         == Scaled(acc + weight * (b - 128), weight * 128, rest)
  {
    if rest.Ok? {
      var v := rest.value;
      assert weight * (b - 128 + 128 * v) == weight * (b - 128) + (weight * 128) * v;
    }
  }

  /** One turn of the loop of readLeb128U64. */
  lemma LebTurn(raw: Bytes, p: nat, i: nat, acc: nat, weight: nat)
    requires p < |raw| && i <= 9
    ensures raw[p] < 128 ==>
              Scaled(acc, weight, LebDigits(raw, p, i)) == Ok(acc + weight * (raw[p] % 128), p + 1)
    ensures raw[p] >= 128 && i < 9 ==>
              Scaled(acc, weight, LebDigits(raw, p, i)) ==
              Scaled(acc + weight * (raw[p] % 128), weight * 128, LebDigits(raw, p + 1, i + 1))
    ensures raw[p] >= 128 && i == 9 ==> Scaled(acc, weight, LebDigits(raw, p, i)) == Err
  {
    if raw[p] >= 128 && i < 9 { ScaledStep(acc, weight, raw[p], LebDigits(raw, p + 1, i + 1)); }
  }

  lemma LebEnds(raw: Bytes, pos: nat, i: nat, acc: nat, weight: nat)
    requires pos <= |raw| && i <= 9
    ensures Scaled(0, 1, LebDigits(raw, pos, i)) == LebDigits(raw, pos, i)
    ensures pos == |raw| ==> Scaled(acc, weight, LebDigits(raw, pos, i)) == Err
  {}

  function Low64(x: nat): uint64 { x % TWO_64 }

  lemma Low64Add(a: nat, b: nat)
    ensures Low64(Low64(a) + b) == Low64(a + b)
  {}

  /** The loop of readLeb128U64: `result` keeps the low 64 bits of what the bytes so far spell. */
  method ReadLeb128U64(raw: Bytes, pos: nat) returns (r: Read<uint64>)
    requires pos <= |raw|
    ensures r == ReadLeb(raw, pos)
  {
    hide LebDigits, Scaled;
    var p := pos;
    ghost var acc: nat := 0;
    var result: uint64, weight: nat := 0, 1;
    LebEnds(raw, pos, 0, acc, weight);
    for i := 0 to 10
      invariant pos <= p <= |raw|
      invariant i == 10 ==> LebDigits(raw, pos, 0).Err?
      invariant i < 10 ==> LebDigits(raw, pos, 0) == Scaled(acc, weight, LebDigits(raw, p, i))
      invariant result == Low64(acc)
    {
      LebEnds(raw, p, i, acc, weight);
      if p >= |raw| { return Err; }
      LebTurn(raw, p, i, acc, weight);
      var b := raw[p];
      p := p + 1;
      var bits: nat := weight * (b % 128);
      Low64Add(acc, bits);
      result := Low64(result + bits);
      acc := acc + bits;
      if b < 128 { return Ok(result, p); }
      weight := weight * 128;
    }
    return Err;
  }

  // ---------------------------------------------------------------- bounded reads

  function U8(raw: Bytes, pos: nat): (r: Read<byte>)
    requires pos <= |raw|
    ensures r.Ok? ==> r.pos == pos + 1 <= |raw|
  {
    if pos == |raw| then Err else Ok(raw[pos], pos + 1)
  }

  /** rawN: the bounds test adds in 64 bits; a sum that wraps passes it and the copy stops the
      process. */
  function RawN(raw: Bytes, pos: nat, n: int): (r: Read<Bytes>)
    requires pos <= |raw|
    ensures r.Ok? ==> pos <= r.pos <= |raw| && r.value == raw[pos..r.pos]
  {
    if n < 0 || WrapInt64(pos + n) > |raw| then Err
    else if pos + n > |raw| then Panic
    else Ok(raw[pos..pos + n], pos + n)
  }

  /** The bounds test of rawN is exact — a length the input backs is read, any other is an error —
      if and only if the 64-bit sum does not wrap. */
  lemma RawNExact(raw: Bytes, pos: nat, n: int64)
    requires pos <= |raw| < TWO_63
    ensures RawN(raw, pos, n) == (if 0 <= n <= |raw| - pos then Ok(raw[pos..pos + n], pos + n) else Err)
       <==> pos + n < TWO_63
  {
    if n >= 0 && pos + n >= TWO_63 {
      assert WrapInt64(pos + n) == pos + n - TWO_64;
    }
  }

  lemma RawNAt(raw: Bytes, pos: nat, s: Bytes)
    requires At(raw, pos, s) && |raw| < TWO_63
    ensures RawN(raw, pos, |s|) == Ok(s, pos + |s|)
  {}

  /** readLebBytes: a length, then that many bytes. */
  function ReadLebBytes(raw: Bytes, pos: nat): (r: Read<Bytes>)
    requires pos <= |raw|
    ensures r.Ok? ==> pos < r.pos <= |raw|
  {
    var (n, p) :- ReadLeb(raw, pos);
    RawN(raw, p, FromU64(n))
  }

  /** appendLebBytes and appendLebString: the length is cut to 32 bits. */
  function LebBytes(s: Bytes): Bytes { Leb(|s| % TWO_32) + s }

  /** A byte string survives its length prefix exactly when the prefix did not cut its length. */
  lemma LebBytesRoundTrip(raw: Bytes, pos: nat, s: Bytes)
    requires At(raw, pos, LebBytes(s)) && |raw| < TWO_63
    ensures ReadLebBytes(raw, pos) == Ok(s, pos + |LebBytes(s)|) <==> |s| < TWO_32
  {
    var n := |s| % TWO_32;
    AtSplit(raw, pos, Leb(n), s);
    LebRoundTrip(raw, pos, n);
    if |s| < TWO_32 {
      RawNAt(raw, pos + |Leb(n)|, s);
    }
  }

  // ---------------------------------------------------------------- the cursor object

  datatype Outcome<+T> = Value(v: T) | Error | Abort

  /** What a cursor method returns and where it leaves `pos`, against the read it performs. */
  ghost predicate Performs<T(!new)>(spec: Read<T>, out: Outcome<T>, pos: nat) {
    match spec
    case Ok(v, p) => out == Value(v) && pos == p
    case Err => out.Error?
    case Panic => out.Abort?
  }

  class Cursor {
    const raw: Bytes
    var pos: nat
    const limit: nat

    ghost predicate Valid()
      reads this
    {
      pos <= limit == |raw|
    }

    constructor (raw: Bytes, pos: nat)
      requires pos <= |raw|
      ensures Valid() && this.raw == raw && this.pos == pos
    {
      this.raw, this.pos, this.limit := raw, pos, |raw|;
    }

    method ReadU8() returns (r: Outcome<byte>)
      requires Valid()
      modifies this
      ensures Valid() && Performs(U8(raw, old(pos)), r, pos)
      ensures !r.Value? ==> pos == old(pos)
    {
      if pos >= limit { return Error; }
      r := Value(raw[pos]);
      pos := pos + 1;
    }

    method ReadRaw(n: int) returns (r: Outcome<Bytes>)
      requires Valid()
      modifies this
      ensures Valid() && Performs(RawN(raw, old(pos), n), r, pos)
      ensures !r.Value? ==> pos == old(pos)
    {
      if n < 0 || WrapInt64(pos + n) > limit { return Error; }
      if pos + n > limit { return Abort; }
      r := Value(raw[pos..pos + n]);
      pos := pos + n;
    }

    method ReadLength() returns (r: Outcome<uint64>)
      requires Valid()
      modifies this
      ensures Valid() && Performs(ReadLeb(raw, old(pos)), r, pos) && old(pos) <= pos
    {
      var read := ReadLeb128U64(raw, pos);
      match read {
        case Ok(v, p) => pos := p; r := Value(v);
        case _ => r := Error;
      }
    }

    /** checkElementCount: no more elements than bytes left. */
    predicate CountFits(n: uint64)
      reads this
    {
      limit - pos >= 0 && n <= limit - pos
    }

    method ReadPrefixed() returns (r: Outcome<Bytes>)
      requires Valid()
      modifies this
      ensures Valid() && Performs(ReadLebBytes(raw, old(pos)), r, pos) && old(pos) <= pos
    {
      var n := ReadLength();
      match n {
        case Value(len) => r := ReadRaw(FromU64(len));
        case _ => r := Error;
      }
    }
  }
}
