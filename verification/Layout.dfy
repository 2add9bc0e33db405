/** The wire format of go/kdb/codec/wirecodec.go, byte by byte. */
module Layout {
  import opened Words
  import opened Varint
  import opened Schema
  import opened Encode
  import opened Typing

  /** Byte `i` of `s`, a word of that many bytes, is the digit of `x` to the base 256, in two's complement, that weighs
      least for `i == 0`. */
  ghost predicate LowFirst(s: Bytes, x: int, i: nat) {
    i < |s| ==> s[i] == x % Pow256(|s|) / Pow256(i) % 256
  }

  /** The same, weighing most for `i == 0`. */
  ghost predicate HighFirst(s: Bytes, x: int, i: nat) {
    i < |s| ==> s[i] == x % Pow256(|s|) / Pow256(|s| - 1 - i) % 256
  }

  lemma WordBytes(x: int, v: nat, width: nat, i: nat)
    requires v == x % Pow256(width)
    ensures |Le(v, width)| == width == |Be(v, width)| && LowFirst(Le(v, width), x, i) && HighFirst(Be(v, width), x, i)
  {
    hide Le, Be, Pow256;
    if i < width {
      LeWeights(v, width, i);
      BeWeights(v, width, width - 1 - i);
    }
  }

  lemma TwosComplement(x: int32, y: int64, bits: uint64)
    ensures ToU32(x) == x % Pow256(4) && ToU64(y) == y % Pow256(8) && bits == bits % Pow256(8)
  {
    Pow256Words();
  }

  /** Primitives on the wire: booleans as 0 and 1, numbers low byte first in four or eight bytes and two's complement
      (dates and timestamps among them, floats as their bits), UUIDs high byte first, strings and bytes behind their
      length. */
  lemma Primitive(v: Value, k: Kind, l: Logical, i: nat)
    requires TypedPrim(v, k, l)
    ensures EncodePrim(v, k, l).Encoded?
    ensures var s := EncodePrim(v, k, l).bytes;
      && (v.NullV? ==> s == []) && (v.BoolV? ==> s == [if v.b then 1 else 0])
      && (v.Int32V? ==> |s| == 4 && LowFirst(s, v.i, i)) && (v.DateV? ==> |s| == 4 && LowFirst(s, v.days, i))
      && (v.Int64V? ==> |s| == 8 && LowFirst(s, v.l, i)) && (v.TimestampV? ==> |s| == 8 && LowFirst(s, v.micros, i))
      && (v.Float64V? ==> |s| == 8 && LowFirst(s, v.bits, i))
      && (v.UuidV? ==> |s| == 16 && HighFirst(s[..8], v.msb, i) && HighFirst(s[8..], v.lsb, i))
      && (v.FixedV? ==> s == v.raw)
      && (v.StringV? && |v.s| < TWO_32 ==> s == Leb(|v.s|) + v.s)
      && (v.BytesV? && |v.data| < TWO_32 ==> s == Leb(|v.data|) + v.data)
  {
    PrimIffTyped(v, k, l);
    FixedWidth(v, i);
    hide Leb, Le, Be, LowFirst, HighFirst, Finite, Number;
    if v.UuidV? {
      var s := UuidBytes(v.msb, v.lsb);
      assert s[..8] == Be(ToU64(v.msb), 8) && s[8..] == Be(ToU64(v.lsb), 8);
    }
  }

  lemma FixedWidth(v: Value, i: nat)
    ensures v.Int32V? ==> |Int32Bytes(v.i)| == 4 && LowFirst(Int32Bytes(v.i), v.i, i)
    ensures v.DateV? ==> |Int32Bytes(v.days)| == 4 && LowFirst(Int32Bytes(v.days), v.days, i)
    ensures v.Int64V? ==> |Int64Bytes(v.l)| == 8 && LowFirst(Int64Bytes(v.l), v.l, i)
    ensures v.TimestampV? ==> |Int64Bytes(v.micros)| == 8 && LowFirst(Int64Bytes(v.micros), v.micros, i)
    ensures v.Float64V? ==> |Le(v.bits, 8)| == 8 && LowFirst(Le(v.bits, 8), v.bits, i)
    ensures v.UuidV? ==> |Be(ToU64(v.msb), 8)| == 8 && HighFirst(Be(ToU64(v.msb), 8), v.msb, i)
    ensures v.UuidV? ==> |Be(ToU64(v.lsb), 8)| == 8 && HighFirst(Be(ToU64(v.lsb), 8), v.lsb, i)
  {
    hide Pow256, Le, Be, LowFirst, HighFirst;
    match v
    case Int32V(x) => TwosComplement(x, 0, 0); WordBytes(x, ToU32(x), 4, i);
    case DateV(x) => TwosComplement(x, 0, 0); WordBytes(x, ToU32(x), 4, i);
    case Int64V(x) => TwosComplement(0, x, 0); WordBytes(x, ToU64(x), 8, i);
    case TimestampV(x, _) => TwosComplement(0, x, 0); WordBytes(x, ToU64(x), 8, i);
    case Float64V(x) => TwosComplement(0, 0, x); WordBytes(x, x, 8, i);
    case UuidV(x, y) =>
      TwosComplement(0, x, 0);
      TwosComplement(0, y, 0);
      WordBytes(x, ToU64(x), 8, i);
      WordBytes(y, ToU64(y), 8, i);
    case _ =>
  }

  /** A nullable value is 0, or 1 and the value; a union's is the number of its branch and the value. */
  lemma Markers(v: Value, t: Type, reg: Registry)
    requires Typed(v, t, reg) && EncodeValue(v, t, reg).Encoded?
    ensures var s := EncodeValue(v, t, reg).bytes;
      && (t.Nullable? && v == NullV ==> s == [0])
      && (t.Nullable? && v != NullV ==> s != [] && s[0] == 1 && EncodeValue(v, t.inner, reg) == Encoded(s[1..]))
      && (t.Union? && v.branch < 256 ==>
            s != [] && s[0] == v.branch && EncodeValue(v.member, t.branches[v.branch], reg) == Encoded(s[1..]))
  {
    hide EncodePrim, EncodeElements, EncodeEntries, EncodeNamed;
    var s := EncodeValue(v, t, reg).bytes;
    if t.Nullable? && v != NullV {
      assert s == [1] + EncodeValue(v, t.inner, reg).bytes;
    } else if t.Union? {
      assert s == [v.branch % 256] + EncodeValue(v.member, t.branches[v.branch], reg).bytes;
    }
  }

  /** The header of a field is its id and the number of its kind. */
  lemma TagNumbers(id: int, t: Type, d: Default, reg: Registry)
    requires 0 <= id < 128
    ensures FieldHeader(Field(id, "", t, d), reg) == [id, KindNumber(t, reg)]
  {
    assert Leb(id) == [id];
  }

  function KindNumber(t: Type, reg: Registry): byte {
    match t
    case Prim(k, _) =>
      (match k
       case KNull => 0 case KBool => 1 case KInt8 => 2 case KInt16 => 3 case KInt32 => 4 case KInt64 => 5
       case KFloat32 => 6 case KFloat64 => 7 case KBytes => 8 case KString => 9 case KArray => 10 case KMap => 11
       case KRecord => 12 case KEnum => 13 case KUnion => 14 case KFixed => 15)
    case ArrayOf(_) => 10
    case MapOf(_, _) => 11
    case Union(_) => 14
    case Nullable(_) => 14
    case Ref(name) =>
      if name in reg.records then 12 else if name in reg.enums then 13 else if name in reg.fixeds then 15 else 12
  }
}
