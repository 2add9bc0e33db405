/** Primitive values survive the wire, and skipping one by its kind passes exactly its bytes. */
module Primitives {
  import opened Words
  import opened Varint
  import opened Schema
  import opened Encode
  import opened Typing
  import opened Decode

  /** The value a primitive reads back as: a DATE may be written from an INT32 and a UUID from
      sixteen fixed bytes, and a timestamp's zone is not on the wire. */
  function Normal(v: Value, l: Logical): Value {
    match l
    case LDate => if v.Int32V? then DateV(v.i) else v
    case LTimestampMicros => if v.TimestampV? then TimestampV(v.micros, None) else v
    case LUuid => if v.FixedV? && |v.raw| == 16 then UuidOf(v.raw) else v
    case _ => v
  }

  lemma Int32Read(raw: Bytes, pos: nat, x: int32)
    requires At(raw, pos, Int32Bytes(x)) && |raw| < TWO_63
    ensures Int32At(raw, pos) == Ok(x, pos + 4)
  {
    Pow256Words();
    LeRoundTrip(ToU32(x), 4);
    RawNAt(raw, pos, Int32Bytes(x));
  }

  lemma Word64Read(raw: Bytes, pos: nat, x: uint64)
    requires At(raw, pos, Le(x, 8)) && |raw| < TWO_63
    ensures Word64At(raw, pos) == Ok(x, pos + 8)
  {
    Pow256Words();
    LeRoundTrip(x, 8);
    RawNAt(raw, pos, Le(x, 8));
  }

  lemma UuidRead(msb: int64, lsb: int64)
    ensures UuidOf(UuidBytes(msb, lsb)) == UuidV(msb, lsb)
  {
    Pow256Words();
    BeRoundTrip(ToU64(msb), 8);
    BeRoundTrip(ToU64(lsb), 8);
    assert UuidBytes(msb, lsb)[..8] == Be(ToU64(msb), 8);
    assert UuidBytes(msb, lsb)[8..16] == Be(ToU64(lsb), 8);
  }

  /** Length prefixes are 32 bits wide. */
  predicate LengthFits(v: Value) {
    (v.StringV? ==> |v.s| < TWO_32) && (v.BytesV? ==> |v.data| < TWO_32)
  }

  lemma PhysicalRead(v: Value, k: Kind, raw: Bytes, pos: nat)
    requires TypedPrim(v, k, NoLogical) && LengthFits(v)
    ensures EncodePhysical(v, k).Encoded?
    ensures At(raw, pos, EncodePhysical(v, k).bytes) && |raw| < TWO_63 ==>
            DecodePhysical(raw, pos, k) == Ok(v, pos + |EncodePhysical(v, k).bytes|)
  {
    PrimIffTyped(v, k, NoLogical);
    if At(raw, pos, EncodePhysical(v, k).bytes) && |raw| < TWO_63 { PhysicalReadAt(v, k, raw, pos); }
  }

  lemma PhysicalReadAt(v: Value, k: Kind, raw: Bytes, pos: nat)
    requires EncodePhysical(v, k).Encoded? && LengthFits(v)
    requires At(raw, pos, EncodePhysical(v, k).bytes) && |raw| < TWO_63
    ensures DecodePhysical(raw, pos, k) == Ok(v, pos + |EncodePhysical(v, k).bytes|)
  {
    match k
    case KNull =>
    case KBool =>
      var b: byte := if v.b then 1 else 0;
      assert [b] == [b] + [];
      AtHead(raw, pos, b, []);
    case KInt32 => Int32Read(raw, pos, v.i);
    case KInt64 => Word64Read(raw, pos, ToU64(v.l));
    case KFloat64 => Word64Read(raw, pos, v.bits);
    case KString => LebBytesRoundTrip(raw, pos, v.s);
    case KBytes => LebBytesRoundTrip(raw, pos, v.data);
  }

  lemma PrimRead(v: Value, k: Kind, l: Logical, raw: Bytes, pos: nat)
    requires EncodePrim(v, k, l).Encoded? && LengthFits(v)
    requires At(raw, pos, EncodePrim(v, k, l).bytes) && |raw| < TWO_63
    ensures DecodePrim(raw, pos, k, l) == Ok(Normal(v, l), pos + |EncodePrim(v, k, l).bytes|)
  {
    hide EncodePhysical, DecodePhysical, Le, Be, UnLe, UnBe, UuidOf, UuidBytes;
    match l
    case LDate => Int32Read(raw, pos, if v.DateV? then v.days else v.i);
    case LTimestampMicros => Word64Read(raw, pos, ToU64(v.micros));
    case LUuid => UuidPrimRead(v, k, raw, pos);
    case _ => PhysicalReadAt(v, k, raw, pos);
  }

  lemma UuidPrimRead(v: Value, k: Kind, raw: Bytes, pos: nat)
    requires EncodePrim(v, k, LUuid).Encoded? && At(raw, pos, EncodePrim(v, k, LUuid).bytes) && |raw| < TWO_63
    ensures DecodePrim(raw, pos, k, LUuid) == Ok(Normal(v, LUuid), pos + |EncodePrim(v, k, LUuid).bytes|)
  {
    hide Le, Be, UnLe, UnBe, UuidOf;
    var s := EncodePrim(v, k, LUuid).bytes;
    assert |s| == 16;
    RawNAt(raw, pos, s);
    if v.UuidV? { UuidRead(v.msb, v.lsb); }
  }

  /** The types whose extent the physical kind alone tells: a logical annotation must not change
      the width of its kind. */
  predicate SkipsCleanly(t: Type) {
    t.Prim? &&
    match t.logical
    case LDate => t.kind == KInt32 || t.kind == KFloat32
    case LTimestampMicros => t.kind == KInt64 || t.kind == KFloat64
    case LUuid => false
    case _ => t.kind in {KBool, KInt32, KInt64, KFloat64, KString, KBytes}
  }

  lemma SkipRead(v: Value, t: Type, raw: Bytes, pos: nat)
    requires SkipsCleanly(t) && EncodePrim(v, t.kind, t.logical).Encoded? && LengthFits(v)
    requires At(raw, pos, EncodePrim(v, t.kind, t.logical).bytes) && |raw| < TWO_63
    ensures SkipTagged(raw, pos, t.kind) == Ok((), pos + |EncodePrim(v, t.kind, t.logical).bytes|)
  {
    var s := EncodePrim(v, t.kind, t.logical).bytes;
    match t.kind
    case KString => LebBytesRoundTrip(raw, pos, v.s);
    case KBytes => LebBytesRoundTrip(raw, pos, v.data);
    case _ => RawNAt(raw, pos, s);
  }

  /** `s` is a length and exactly as many bytes. */
  predicate SpellsItsLength(s: Bytes) {
    var n := ReadLeb(s, 0);
    n.Ok? && n.pos + n.value == |s|
  }

  /** Skipping a value of kind `k` passes exactly the bytes `s`. */
  predicate SkipsRight(s: Bytes, k: Kind) {
    match k
    case KBool => |s| == 1
    case KInt8 => |s| == 1
    case KInt16 => |s| == 2
    case KInt32 => |s| == 4
    case KFloat32 => |s| == 4
    case KInt64 => |s| == 8
    case KFloat64 => |s| == 8
    case KString => SpellsItsLength(s)
    case KBytes => SpellsItsLength(s)
    case _ => false
  }

  /** Whatever the bytes are and whatever follows them, skipping by a kind ends where they end if and only if
      they have the width of the kind, or for strings and bytes begin with what is left as their length. */
  lemma SkipLands(raw: Bytes, pos: nat, s: Bytes, k: Kind)
    requires At(raw, pos, s) && |raw| < TWO_63
    ensures SkipTagged(raw, pos, k) == Ok((), pos + |s|) <==> SkipsRight(s, k)
  {
    hide RawN, U8, ReadLebBytes, SpellsItsLength;
    WidthLands(raw, pos, s);
    LengthLands(raw, pos, s);
  }

  lemma WidthLands(raw: Bytes, pos: nat, s: Bytes)
    requires At(raw, pos, s) && |raw| < TWO_63
    ensures Passed(U8(raw, pos)) == Ok((), pos + |s|) <==> |s| == 1
    ensures forall n :: 0 < n <= 8 ==> (Passed(RawN(raw, pos, n)) == Ok((), pos + |s|) <==> |s| == n)
  {}

  lemma LengthLands(raw: Bytes, pos: nat, s: Bytes)
    requires At(raw, pos, s) && |raw| < TWO_63
    ensures Passed(ReadLebBytes(raw, pos)) == Ok((), pos + |s|) <==> SpellsItsLength(s)
  {
    LebWithin(raw, pos, s, 0);
    hide ReadLeb;
  }

  /** So a field annotated as a date, a timestamp or a UUID is passed by its kind if and only if the kind has the
      width of the annotation, which for a UUID none has, or its own bytes happen to spell their length. */
  lemma AnnotatedSkips(v: Value, k: Kind, l: Logical, raw: Bytes, pos: nat)
    requires l == LDate || l == LTimestampMicros || l == LUuid
    requires EncodePrim(v, k, l).Encoded? && At(raw, pos, EncodePrim(v, k, l).bytes) && |raw| < TWO_63
    ensures var s := EncodePrim(v, k, l).bytes;
      SkipTagged(raw, pos, k) == Ok((), pos + |s|) <==>
      || (l == LDate && (k == KInt32 || k == KFloat32))
      || (l == LTimestampMicros && (k == KInt64 || k == KFloat64))
      || ((k == KString || k == KBytes) && SpellsItsLength(s))
  {
    SkipLands(raw, pos, EncodePrim(v, k, l).bytes, k);
    hide SpellsItsLength, SkipTagged;
  }

  lemma CleanSkipsRight(v: Value, t: Type)
    requires SkipsCleanly(t) && EncodePrim(v, t.kind, t.logical).Encoded? && LengthFits(v)
    requires |EncodePrim(v, t.kind, t.logical).bytes| < TWO_63
    ensures SkipsRight(EncodePrim(v, t.kind, t.logical).bytes, t.kind)
  {
    var s := EncodePrim(v, t.kind, t.logical).bytes;
    assert At(s, 0, s);
    SkipRead(v, t, s, 0);
    SkipLands(s, 0, s, t.kind);
  }

  lemma KindOfTag(k: Kind)
    ensures KindOf(Tag(k)) == Some(k)
  {}
}
