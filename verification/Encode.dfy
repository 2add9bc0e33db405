/** What the encoder writes (go/kdb/codec/wirecodec.go, encode side). */
module Encode {
  import opened Words
  import opened Varint
  import opened Schema

  /** The bytes written, an encode error, or a failed type assertion. */
  datatype Enc = Encoded(bytes: Bytes) | EncErr | EncPanic {
    predicate IsFailure() { !Encoded? }
    function PropagateFailure(): Enc
      requires !Encoded?
    {
      this
    }
    function Extract(): Bytes
      requires Encoded?
    {
      bytes
    }
  }

  /** math.IsInf and math.IsNaN: an exponent of all ones. */
  predicate Finite(bits: uint64) { (bits / 0x10_0000_0000_0000) % 0x800 != 0x7FF }

  function Int32Bytes(x: int32): Bytes { Le(ToU32(x), 4) }
  function Int64Bytes(x: int64): Bytes { Le(ToU64(x), 8) }
  function UuidBytes(msb: int64, lsb: int64): Bytes { Be(ToU64(msb), 8) + Be(ToU64(lsb), 8) }

  function EncodePhysical(v: Value, k: Kind): Enc {
    match k
    case KNull => if v.NullV? then Encoded([]) else EncErr
    case KBool => if v.BoolV? then Encoded([if v.b then 1 else 0]) else EncPanic
    case KInt32 => if v.Int32V? then Encoded(Int32Bytes(v.i)) else EncPanic
    case KInt64 => if v.Int64V? then Encoded(Int64Bytes(v.l)) else EncPanic
    case KFloat64 =>
      if !v.Float64V? then EncPanic else if Finite(v.bits) then Encoded(Le(v.bits, 8)) else EncErr
    case KString => if v.StringV? then Encoded(LebBytes(v.s)) else EncPanic
    case KBytes => if v.BytesV? then Encoded(LebBytes(v.data)) else EncPanic
    case _ => EncErr
  }

  function EncodePrim(v: Value, k: Kind, l: Logical): Enc {
    match l
    case LDate =>
      if v.DateV? then Encoded(Int32Bytes(v.days))
      else if v.Int32V? then Encoded(Int32Bytes(v.i))
      else EncErr
    case LTimestampMicros => if v.TimestampV? then Encoded(Int64Bytes(v.micros)) else EncErr
    case LUuid =>
      if v.UuidV? then Encoded(UuidBytes(v.msb, v.lsb))
      else if v.FixedV? && |v.raw| == 16 then Encoded(v.raw)
      else EncPanic
    case _ => EncodePhysical(v, k)
  }

  /** omitField: shallow equality, for the four value kinds it knows. */
  predicate OmitField(cur: Value, default: Default) {
    default.DefaultIs? && cur == default.v && (cur.NullV? || cur.Int32V? || cur.StringV? || cur.BoolV?)
  }

  function EncodeValue(v: Value, t: Type, reg: Registry): Enc
    decreases v, 3, t
  {
    match t
    case Nullable(inner) =>
      if v.NullV? then Encoded([0])
      else
        var b :- EncodeValue(v, inner, reg);
        Encoded([1] + b)
    case Union(branches) =>
      if !v.UnionV? || !(0 <= v.branch < |branches|) then EncErr
      else
        var b :- EncodeValue(v.member, branches[v.branch], reg);
        Encoded([v.branch % 256] + b)
    case Prim(k, l) => EncodePrim(v, k, l)
    case ArrayOf(element) =>
      if !v.ArrayV? then EncErr
      else
        var b :- EncodeElements(v.elements, element, reg);
        Encoded(Leb(|v.elements| % TWO_32) + b)
    case MapOf(key, value) =>
      if !v.MapV? then EncErr
      else
        var b :- EncodeEntries(v.entries, key, value, reg);
        Encoded(Leb(|v.entries| % TWO_32) + b)
    case Ref(name) => EncodeNamed(v, name, reg)
  }

  function EncodeElements(vs: seq<Value>, t: Type, reg: Registry): Enc
    decreases vs, 0
  {
    if vs == [] then Encoded([])
    else
      var a :- EncodeValue(vs[0], t, reg);
      var b :- EncodeElements(vs[1..], t, reg);
      Encoded(a + b)
  }

  function EncodeEntry(e: Entry, key: Type, value: Type, reg: Registry): Enc
    decreases e, 0
  {
    var a :- EncodeValue(e.key, key, reg);
    var b :- EncodeValue(e.val, value, reg);
    Encoded(a + b)
  }

  function EncodeEntries(es: seq<Entry>, key: Type, value: Type, reg: Registry): Enc
    decreases es, 0
  {
    if es == [] then Encoded([])
    else
      var a :- EncodeEntry(es[0], key, value, reg);
      var b :- EncodeEntries(es[1..], key, value, reg);
      Encoded(a + b)
  }

  function EncodeNamed(v: Value, name: string, reg: Registry): Enc
    decreases v, 2
  {
    match Resolve(reg, name)
    case None => EncErr
    case Some(IsRecord(sch)) => if v.RecordV? then EncodeRecord(v, sch, reg) else EncErr
    case Some(IsEnum(symbols)) =>
      if v.EnumV? && 0 <= v.ordinal < |symbols| then Encoded(Le(v.ordinal % TWO_32, 4)) else EncErr
    case Some(IsFixed(f)) => if v.FixedV? && |v.raw| == f.size then Encoded(v.raw) else EncErr
  }

  /** encodeRecord: a slab of tagged fields in id order behind its length. */
  function EncodeRecord(v: Value, sch: RecordSchema, reg: Registry): Enc
    requires v.RecordV?
    decreases v, 1
  {
    var body :- EncodeFields(v, WireOrder(sch.fields), reg);
    Encoded(Leb(|body| % TWO_32) + body)
  }

  function FieldHeader(f: Field, reg: Registry): Bytes {
    Leb(f.id % TWO_32) + [Tag(PhysicalTag(f.typ, reg))]
  }

  /** A field is on the wire when the record has it and it is not its own default. */
  predicate Written(v: Value, f: Field)
    requires v.RecordV?
  {
    f.id in v.fields && !OmitField(v.fields[f.id], f.default)
  }

  function EncodeField(v: Value, f: Field, reg: Registry): Enc
    requires v.RecordV?
    decreases v, 0, 0
  {
    if Written(v, f) then
      var b :- EncodeValue(v.fields[f.id], f.typ, reg);
      Encoded(FieldHeader(f, reg) + b)
    else if f.id in v.fields || !f.default.NoDefault? then Encoded([])
    else EncErr
  }

  function EncodeFields(v: Value, fs: seq<Field>, reg: Registry): Enc
    requires v.RecordV?
    decreases v, 0, 1, |fs|
  {
    if fs == [] then Encoded([])
    else
      var a :- EncodeField(v, fs[0], reg);
      var b :- EncodeFields(v, fs[1..], reg);
      Encoded(a + b)
  }

  // ---------------------------------------------------------------- order of declaration

  /** The two registries name the same types; their records differ at most in the order in which
      they declare their fields. */
  ghost predicate SameUpToOrder(a: Registry, b: Registry) {
    && a.enums == b.enums && a.fixeds == b.fixeds && a.records.Keys == b.records.Keys
    && forall n :: n in a.records ==>
         && SameFields(a.records[n].fields, b.records[n].fields)
         && DistinctIds(a.records[n].fields) && DistinctIds(b.records[n].fields)
  }

  /** An encoding depends on which fields each record has, not on the order they are declared in. */
  lemma {:induction false} OrderOfDeclarationIsInvisible(v: Value, t: Type, a: Registry, b: Registry)
    requires SameUpToOrder(a, b)
    ensures EncodeValue(v, t, a) == EncodeValue(v, t, b)
    decreases v, 3, t
  {
    match t
    case Nullable(inner) => OrderOfDeclarationIsInvisible(v, inner, a, b);
    case Union(branches) =>
      if v.UnionV? && 0 <= v.branch < |branches| {
        OrderOfDeclarationIsInvisible(v.member, branches[v.branch], a, b);
      }
    case Prim(_, _) =>
    case ArrayOf(element) => if v.ArrayV? { ElementsOrderFree(v.elements, element, a, b); }
    case MapOf(key, value) => if v.MapV? { EntriesOrderFree(v.entries, key, value, a, b); }
    case Ref(name) =>
      if v.RecordV? && name in a.records {
        WireOrderCanonical(a.records[name].fields, b.records[name].fields);
        FieldsOrderFree(v, WireOrder(a.records[name].fields), a, b);
        assert EncodeNamed(v, name, a) == EncodeRecord(v, a.records[name], a);
        assert EncodeNamed(v, name, b) == EncodeRecord(v, b.records[name], b);
      }
  }

  lemma {:induction false} ElementsOrderFree(vs: seq<Value>, t: Type, a: Registry, b: Registry)
    requires SameUpToOrder(a, b)
    ensures EncodeElements(vs, t, a) == EncodeElements(vs, t, b)
    decreases vs, 0
  {
    if vs != [] {
      OrderOfDeclarationIsInvisible(vs[0], t, a, b);
      ElementsOrderFree(vs[1..], t, a, b);
    }
  }

  lemma EntryOrderFree(e: Entry, key: Type, value: Type, a: Registry, b: Registry)
    requires SameUpToOrder(a, b)
    ensures EncodeEntry(e, key, value, a) == EncodeEntry(e, key, value, b)
    decreases e, 0
  {
    OrderOfDeclarationIsInvisible(e.key, key, a, b);
    OrderOfDeclarationIsInvisible(e.val, value, a, b);
  }

  lemma {:induction false} EntriesOrderFree(es: seq<Entry>, key: Type, value: Type, a: Registry, b: Registry)
    requires SameUpToOrder(a, b)
    ensures EncodeEntries(es, key, value, a) == EncodeEntries(es, key, value, b)
    decreases es, 0
  {
    if es != [] {
      EntryOrderFree(es[0], key, value, a, b);
      EntriesOrderFree(es[1..], key, value, a, b);
    }
  }

  lemma {:induction false} FieldsOrderFree(v: Value, fs: seq<Field>, a: Registry, b: Registry)
    requires SameUpToOrder(a, b) && v.RecordV?
    ensures EncodeFields(v, fs, a) == EncodeFields(v, fs, b)
    decreases v, 0, 1, |fs|
  {
    if fs != [] {
      if Written(v, fs[0]) { OrderOfDeclarationIsInvisible(v.fields[fs[0].id], fs[0].typ, a, b); }
      FieldsOrderFree(v, fs[1..], a, b);
    }
  }
}
