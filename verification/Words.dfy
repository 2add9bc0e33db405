/** Bytes, machine words and the two byte orders of the wire format
    (go/kdb/codec/primitives.go, go/kdb/codec/wire_numbers.go). */
module Words {
  const TWO_31: int := 0x8000_0000
  const TWO_32: int := 0x1_0000_0000
  const TWO_63: int := 0x8000_0000_0000_0000
  const TWO_64: int := 0x1_0000_0000_0000_0000

  type byte = b: int | 0 <= b < 256
  type Bytes = seq<byte>
  type int32 = x: int | -0x8000_0000 <= x < 0x8000_0000
  type int64 = x: int | -0x8000_0000_0000_0000 <= x < 0x8000_0000_0000_0000
  type uint32 = x: int | 0 <= x < 0x1_0000_0000
  type uint64 = x: int | 0 <= x < 0x1_0000_0000_0000_0000

  // Go's conversions between the signed and unsigned words of one width.
  function ToU32(x: int32): uint32 { if x < 0 then x + TWO_32 else x }
  function FromU32(x: uint32): int32 { if x < TWO_31 then x else x - TWO_32 }
  function ToU64(x: int64): uint64 { if x < 0 then x + TWO_64 else x }
  function FromU64(x: uint64): int64 { if x < TWO_63 then x else x - TWO_64 }

  /** The value a 64-bit signed addition or conversion leaves of `x`. */
  function WrapInt64(x: int): int64 { FromU64(x % TWO_64) }

  /** `s` stands in `raw` at `pos`. */
  ghost predicate At(raw: Bytes, pos: nat, s: Bytes) {
    pos + |s| <= |raw| && raw[pos..pos + |s|] == s
  }

  lemma AtSplit(raw: Bytes, pos: nat, a: Bytes, b: Bytes)
    requires At(raw, pos, a + b)
    ensures At(raw, pos, a) && At(raw, pos + |a|, b)
  {
    assert raw[pos..pos + |a|] == (a + b)[..|a|];
    assert raw[pos + |a|..pos + |a| + |b|] == (a + b)[|a|..];
  }

  lemma AtHead(raw: Bytes, pos: nat, x: byte, rest: Bytes)
    requires At(raw, pos, [x] + rest)
    ensures pos < |raw| && raw[pos] == x && At(raw, pos + 1, rest)
  {
    AtSplit(raw, pos, [x], rest);
    assert raw[pos] == raw[pos..pos + 1][0];
  }

  /** The parts one after another. */
  ghost function Flat<T>(parts: seq<seq<T>>): seq<T> {
    if parts == [] then [] else parts[0] + Flat(parts[1..])
  }

  lemma {:induction false} FlatSnoc<T>(parts: seq<seq<T>>, last: seq<T>)
    ensures Flat(parts + [last]) == Flat(parts) + last
  {
    if parts == [] {
      assert [] + [last] == [last] && [last][1..] == [] && last + [] == last && [] + last == last;
    } else {
      FlatSnoc(parts[1..], last);
      assert (parts + [last])[1..] == parts[1..] + [last];
      assert parts[0] + (Flat(parts[1..]) + last) == (parts[0] + Flat(parts[1..])) + last;
    }
  }

  /** 256 to the power `n`. */
  function Pow256(n: nat): (r: int)
    ensures r > 0
  {
    if n == 0 then 1 else 256 * Pow256(n - 1)
  }

  lemma Pow256Words()
    ensures Pow256(4) == TWO_32 && Pow256(8) == TWO_64
  {
    assert Pow256(4) == TWO_32;
    assert Pow256(8) == 256 * (256 * (256 * (256 * Pow256(4))));
  }

  // ---------------------------------------------------------------- little endian

  /** The `width` low bytes of `v`, lowest first. */
  function Le(v: nat, width: nat): (r: Bytes)
    ensures |r| == width
  {
    if width == 0 then [] else [v % 256] + Le(v / 256, width - 1)
  }

  function UnLe(s: Bytes): nat {
    if s == [] then 0 else s[0] + 256 * UnLe(s[1..])
  }

  lemma {:induction false} LeRoundTrip(v: nat, width: nat)
    requires v < Pow256(width)
    ensures UnLe(Le(v, width)) == v
  {
    if width > 0 {
      LeRoundTrip(v / 256, width - 1);
      assert Le(v, width)[1..] == Le(v / 256, width - 1);
    }
  }

  /** Every byte string of the width is the encoding of the number it reads as. */
  lemma {:induction false} LeOnto(s: Bytes)
    ensures UnLe(s) < Pow256(|s|) && Le(UnLe(s), |s|) == s
  {
    if s != [] {
      LeOnto(s[1..]);
      assert s == [s[0]] + s[1..];
    }
  }

  /** Byte `i` is the one of weight 256 to the `i`. */
  lemma {:induction false} LeWeights(v: nat, width: nat, i: nat)
    requires i < width
    ensures Le(v, width)[i] == v / Pow256(i) % 256
  {
    if i > 0 {
      LeWeights(v / 256, width - 1, i - 1);
      DividedTwice(v, i - 1);
    }
  }

  lemma DividedTwice(v: nat, i: nat)
    ensures v / 256 / Pow256(i) == v / Pow256(i + 1)
  {
    var p := Pow256(i);
    var q, r := v / 256, v % 256;
    var a, b := q / p, q % p;
    assert v == 256 * (a * p + b) + r == a * (256 * p) + (256 * b + r) && 0 <= 256 * b + r < 256 * p;
    QuotientIs(v, 256 * p, a, 256 * b + r);
  }

  lemma QuotientIs(v: int, d: int, q: int, r: int)
    requires d > 0 && v == q * d + r && 0 <= r < d
    ensures v / d == q
  {
    assert (q - v / d) * d == v % d - r;
    Multiple(q - v / d, d);
  }

  lemma Multiple(x: int, d: int)
    requires d > 0
    ensures x >= 1 ==> x * d >= d
    ensures x <= -1 ==> x * d <= -d
  {}

  // ---------------------------------------------------------------- big endian

  /** The `width` low bytes of `v`, highest first. */
  function Be(v: nat, width: nat): (r: Bytes)
    ensures |r| == width
  {
    if width == 0 then [] else Be(v / 256, width - 1) + [v % 256]
  }

  function UnBe(s: Bytes): nat {
    if s == [] then 0 else 256 * UnBe(s[..|s| - 1]) + s[|s| - 1]
  }

  /** Byte `i` from the end is the one of weight 256 to the `i`. */
  lemma {:induction false} BeWeights(v: nat, width: nat, i: nat)
    requires i < width
    ensures Be(v, width)[width - 1 - i] == v / Pow256(i) % 256
  {
    if i > 0 {
      BeWeights(v / 256, width - 1, i - 1);
      DividedTwice(v, i - 1);
    }
  }

  lemma {:induction false} BeRoundTrip(v: nat, width: nat)
    requires v < Pow256(width)
    ensures UnBe(Be(v, width)) == v
  {
    if width > 0 {
      BeRoundTrip(v / 256, width - 1);
      assert Be(v, width)[..width - 1] == Be(v / 256, width - 1);
    }
  }

  lemma {:induction false} BeOnto(s: Bytes)
    ensures UnBe(s) < Pow256(|s|) && Be(UnBe(s), |s|) == s
  {
    if s != [] {
      var init := s[..|s| - 1];
      BeOnto(init);
      assert s == init + [s[|s| - 1]];
    }
  }

  // ---------------------------------------------------------------- the loops

  /** `v` shifted right by `8 * i` bits. */
  function Shr8(v: nat, i: nat): nat
    decreases i
  {
    if i == 0 then v else Shr8(v, i - 1) / 256
  }

  lemma {:induction false} LeAt(v: nat, width: nat, i: nat)
    requires i < width
    ensures Le(v, width)[i] == Shr8(v, i) % 256
  {
    if i > 0 {
      LeAt(v / 256, width - 1, i - 1);
      Shr8Shift(v, i - 1);
    }
  }

  lemma {:induction false} Shr8Shift(v: nat, i: nat)
    ensures Shr8(v / 256, i) == Shr8(v, i + 1)
  {
    if i > 0 { Shr8Shift(v, i - 1); }
  }

  lemma {:induction false} BeAt(v: nat, width: nat, i: nat)
    requires i < width
    ensures Be(v, width)[i] == Shr8(v, width - 1 - i) % 256
  {
    if i < width - 1 {
      BeAt(v / 256, width - 1, i);
      Shr8Shift(v, width - 2 - i);
    }
  }

  /** putLe32 and putLe64: the byte order is written into `out` one index at a time. */
  method PutLe(v: nat, out: array<byte>)
    modifies out
    ensures out[..] == Le(v, out.Length)
  {
    var cur := v;
    for i := 0 to out.Length
      invariant cur == Shr8(v, i)
      invariant forall k :: 0 <= k < i ==> out[k] == Le(v, out.Length)[k]
    {
      LeAt(v, out.Length, i);
      out[i] := cur % 256;
      cur := cur / 256;
    }
  }

  /** writeBE64 at any width and offset; the rest of `out` is left alone. */
  method WriteBe(v: nat, width: nat, out: array<byte>, off: nat)
    requires off + width <= out.Length
    modifies out
    ensures out[off..off + width] == Be(v, width)
    ensures out[..off] == old(out[..off]) && out[off + width..] == old(out[off + width..])
  {
    for i := 0 to width
      invariant out[off..off + i] == Be(v, width)[..i]
      invariant forall k :: 0 <= k < out.Length && !(off <= k < off + width) ==> out[k] == old(out[k])
    {
      BeAt(v, width, i);
      out[off + i] := Shr8(v, width - 1 - i) % 256;
      assert out[off..off + i + 1] == out[off..off + i] + [out[off + i]];
    }
  }

  lemma {:induction false} UnLeSnoc(s: Bytes, x: byte)
    ensures UnLe(s + [x]) == UnLe(s) + Pow256(|s|) * x
  {
    if s == [] {
      assert s + [x] == [x];
      assert UnLe([x]) == x + 256 * UnLe([]);
    } else {
      UnLeSnoc(s[1..], x);
      assert (s + [x])[1..] == s[1..] + [x];
      assert 256 * (Pow256(|s| - 1) * x) == Pow256(|s|) * x;
    }
  }

  /** readLe32 and readLe64; adding stands for the source's `|=`, whose operands share no bit. */
  method ReadLe(b: Bytes, off: nat, width: nat) returns (v: nat)
    requires off + width <= |b|
    ensures v == UnLe(b[off..off + width])
  {
    v := 0;
    var weight: nat := 1;
    for i := 0 to width
      invariant weight == Pow256(i) && v == UnLe(b[off..off + i])
    {
      UnLeSnoc(b[off..off + i], b[off + i]);
      assert b[off..off + i + 1] == b[off..off + i] + [b[off + i]];
      v := v + weight * b[off + i];
      weight := weight * 256;
    }
  }

  /** readBE64. */
  method ReadBe(b: Bytes, off: nat, width: nat) returns (v: nat)
    requires off + width <= |b|
    ensures v == UnBe(b[off..off + width])
  {
    v := 0;
    for i := 0 to width
      invariant v == UnBe(b[off..off + i])
    {
      assert b[off..off + i + 1][..i] == b[off..off + i];
      v := v * 256 + b[off + i];
    }
  }

  // ---------------------------------------------------------------- timestamps

  /** Go's `/` and `%`, which truncate toward zero. */
  function QuoTrunc(a: int, b: int): int
    requires b > 0
  {
    if a >= 0 then a / b else -((-a) / b)
  }

  function RemTrunc(a: int, b: int): int
    requires b > 0
  {
    a - b * QuoTrunc(a, b)
  }

  datatype Timestamp = Timestamp(epochMillis: int, microRemainder: int)

  function EpochMicros(t: Timestamp): int { t.epochMillis * 1000 + t.microRemainder }

  /** TimestampFromEpochMicros splits with a remainder that is never negative, and so is the one
      inverse of EpochMicros on such timestamps. */
  function TimestampFromEpochMicros(micros: int): (t: Timestamp)
    ensures EpochMicros(t) == micros && 0 <= t.microRemainder < 1000
  {
    var ms := QuoTrunc(micros, 1000);
    var r := RemTrunc(micros, 1000);
    if micros < 0 && r != 0 then Timestamp(ms - 1, 1000 + r) else Timestamp(ms, r)
  }
}
