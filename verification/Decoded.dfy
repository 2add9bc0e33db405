/** What the decoder hands out for any bytes at all (go/kdb/codec/wirecodec.go, decode side): only values of the type
    it was asked for, no longer than the input, and in a form that survives being encoded and decoded again. */
module Decoded {
  import opened Words
  import opened Varint
  import opened Schema
  import opened Encode
  import opened Typing
  import opened Decode
  import opened Primitives
  import opened RoundTrip
  import opened Evolution
  import opened Codec

  // ---------------------------------------------------------------- what may come out

  /** A primitive as it is decoded: annotated ones in their own form, no string or run of bytes longer than `n`. */
  predicate DeliveredPrim(v: Value, k: Kind, l: Logical, n: nat) {
    match l
    case LDate => v.DateV?
    case LTimestampMicros => v.TimestampV? && v.tz == None
    case LUuid => v.UuidV?
    case _ =>
      match v
      case NullV => k == KNull
      case BoolV(_) => k == KBool
      case Int32V(_) => k == KInt32
      case Int64V(_) => k == KInt64
      case Float64V(_) => k == KFloat64
      case StringV(s) => k == KString && |s| <= n
      case BytesV(s) => k == KBytes && |s| <= n
      case _ => false
  }

  /** A value of type `t` in which nothing but a default is longer than `n`: an enum names the symbol of its ordinal,
      and a record has only fields of its schema, and every field that has a default. */
  ghost predicate Delivered(v: Value, t: Type, reg: Registry, n: nat)
    decreases v, 3, t
  {
    match t
    case Nullable(inner) => v == NullV || Delivered(v, inner, reg, n)
    case Union(branches) => v.UnionV? && 0 <= v.branch < |branches| && Delivered(v.member, branches[v.branch], reg, n)
    case Prim(k, l) => DeliveredPrim(v, k, l, n)
    case ArrayOf(element) =>
      v.ArrayV? && |v.elements| <= n && forall i :: 0 <= i < |v.elements| ==> Delivered(v.elements[i], element, reg, n)
    case MapOf(key, value) =>
      && v.MapV? && |v.entries| <= n
      && forall i :: 0 <= i < |v.entries| ==> DeliveredEntry(v.entries[i], key, value, reg, n)
    case Ref(name) =>
      match Resolve(reg, name)
      case None => false
      case Some(IsRecord(sch)) =>
        && v.RecordV? && (forall id :: id in v.fields ==> DeliveredField(v, id, sch, reg, n))
        && forall f :: f in sch.fields && f.default.DefaultIs? ==> f.id in v.fields
      case Some(IsEnum(symbols)) => v.EnumV? && v.symbol == SymbolOf(symbols, v.ordinal)
      case Some(IsFixed(f)) => if f.logical == LUuid then v.UuidV? else v.FixedV? && |v.raw| == f.size
  }

  ghost predicate DeliveredEntry(e: Entry, key: Type, value: Type, reg: Registry, n: nat)
    decreases e, 0
  {
    Delivered(e.key, key, reg, n) && Delivered(e.val, value, reg, n)
  }

  /** The field is one of the schema's, and was decoded as such or is its default. */
  ghost predicate DeliveredField(v: Value, id: int, sch: RecordSchema, reg: Registry, n: nat)
    requires v.RecordV? && id in v.fields
    decreases v, 2
  {
    var f := FieldById(sch.fields, id);
    f.Some? && (Delivered(v.fields[id], f.value.typ, reg, n) || IsADefault(sch.fields, id, v.fields[id]))
  }

  ghost predicate IsADefault(fs: seq<Field>, id: int, x: Value) {
    exists f :: f in fs && f.id == id && f.default == DefaultIs(x)
  }

  function SymbolOf(symbols: seq<string>, ordinal: int): string {
    if 0 <= ordinal < |symbols| then symbols[ordinal] else "<unknown>"
  }

  // ---------------------------------------------------------------- and nothing else does

  lemma PrimDecoded(raw: Bytes, pos: nat, k: Kind, l: Logical, n: nat)
    requires pos <= |raw| <= n
    ensures var r := DecodePrim(raw, pos, k, l); r.Ok? ==> DeliveredPrim(r.value, k, l, n)
  {
    hide ReadLeb;
  }

  /** Whatever the bytes, a value that is decoded is of the type asked for, and nothing in it but a default is longer
      than the input. */
  lemma {:induction false} DecodedIsOfType(raw: Bytes, pos: nat, t: Type, reg: Registry, n: nat)
    requires pos <= |raw| <= n
    ensures var r := DecodeValue(raw, pos, t, reg); r.Ok? ==> Delivered(r.value, t, reg, n)
    decreases |raw| - pos, 3
  {
    hide ReadLeb, DecodePrim, DecodeElements, DecodeEntries, DecodeNamed, DeliveredPrim;
    match t
    case Nullable(inner) => if pos < |raw| { DecodedIsOfType(raw, pos + 1, inner, reg, n); }
    case Union(branches) =>
      if pos < |raw| && raw[pos] < |branches| { DecodedIsOfType(raw, pos + 1, branches[raw[pos]], reg, n); }
    case Prim(k, l) => PrimDecoded(raw, pos, k, l, n);
    case ArrayOf(element) =>
      var r := ReadLeb(raw, pos);
      if r.Ok? { ElementsDecoded(raw, r.pos, r.value, element, reg, n); }
    case MapOf(key, value) =>
      var r := ReadLeb(raw, pos);
      if r.Ok? { EntriesDecoded(raw, r.pos, r.value, key, value, reg, n); }
    case Ref(name) => NamedDecoded(raw, pos, name, reg, n);
  }

  lemma {:induction false} ElementsDecoded(raw: Bytes, pos: nat, count: nat, t: Type, reg: Registry, n: nat)
    requires pos <= |raw| <= n
    ensures var r := DecodeElements(raw, pos, count, t, reg);
      r.Ok? ==> |r.value| == count && forall i :: 0 <= i < count ==> Delivered(r.value[i], t, reg, n)
    decreases |raw| - pos, 4, count
  {
    hide DecodeValue, Delivered;
    if count > 0 {
      DecodedIsOfType(raw, pos, t, reg, n);
      var r := DecodeValue(raw, pos, t, reg);
      if r.Ok? { ElementsDecoded(raw, r.pos, count - 1, t, reg, n); }
    }
  }

  lemma {:induction false} EntriesDecoded(raw: Bytes, pos: nat, count: nat, key: Type, value: Type, reg: Registry,
                                          n: nat)
    requires pos <= |raw| <= n
    ensures var r := DecodeEntries(raw, pos, count, key, value, reg);
      r.Ok? ==> |r.value| == count && forall i :: 0 <= i < count ==> DeliveredEntry(r.value[i], key, value, reg, n)
    decreases |raw| - pos, 4, count
  {
    hide DecodeValue, Delivered;
    if count > 0 {
      DecodedIsOfType(raw, pos, key, reg, n);
      var k := DecodeValue(raw, pos, key, reg);
      if k.Ok? {
        DecodedIsOfType(raw, k.pos, value, reg, n);
        var x := DecodeValue(raw, k.pos, value, reg);
        if x.Ok? { EntriesDecoded(raw, x.pos, count - 1, key, value, reg, n); }
      }
    }
  }

  lemma {:induction false} NamedDecoded(raw: Bytes, pos: nat, name: string, reg: Registry, n: nat)
    requires pos <= |raw| <= n
    ensures var r := DecodeNamed(raw, pos, name, reg); r.Ok? ==> Delivered(r.value, Ref(name), reg, n)
    decreases |raw| - pos, 2
  {
    hide DecodeRecord, DeliveredField;
    match Resolve(reg, name)
    case None =>
    case Some(IsRecord(sch)) => RecordDecoded(raw, pos, sch, reg, n);
    case Some(IsEnum(_)) =>
    case Some(IsFixed(f)) => RawNSize(raw, pos, f.size);
  }

  lemma RawNSize(raw: Bytes, pos: nat, n: int)
    requires pos <= |raw|
    ensures var r := RawN(raw, pos, n); r.Ok? ==> |r.value| == n && r.pos == pos + n
  {}

  /** The fields read so far are the schema's, and of their types. */
  ghost predicate AllGot(got: Fields, sch: RecordSchema, reg: Registry, n: nat) {
    forall id :: id in got ==>
      FieldById(sch.fields, id).Some? && Delivered(got[id], FieldById(sch.fields, id).value.typ, reg, n)
  }

  ghost predicate RecordDelivered(v: Value, sch: RecordSchema, reg: Registry, n: nat) {
    && v.RecordV? && (forall id :: id in v.fields ==> DeliveredField(v, id, sch, reg, n))
    && forall f :: f in sch.fields && f.default.DefaultIs? ==> f.id in v.fields
  }

  lemma {:induction false} RecordDecoded(raw: Bytes, pos: nat, sch: RecordSchema, reg: Registry, n: nat)
    requires pos <= |raw| <= n
    ensures var r := DecodeRecord(raw, pos, sch, reg); r.Ok? ==> RecordDelivered(r.value, sch, reg, n)
    decreases |raw| - pos, 1
  {
    hide ReadLeb, DecodeFields, FillDefaults, Delivered, IsADefault, FieldById;
    var r := ReadLeb(raw, pos);
    if r.Ok? {
      var s := RawN(raw, r.pos, FromU64(r.value));
      if s.Ok? {
        FieldsDecoded(s.value, 0, map[], sch, reg, n);
        var got := DecodeFields(s.value, 0, map[], sch, reg);
        if got.Ok? { AllDelivered(got.value, sch, reg, n); }
      }
    }
  }

  lemma AllDelivered(got: Fields, sch: RecordSchema, reg: Registry, n: nat)
    requires AllGot(got, sch, reg, n)
    ensures RecordDelivered(RecordV(FillDefaults(got, sch.fields)), sch, reg, n)
  {
    hide FillDefaults, Delivered, FieldById;
    Filled(got, sch.fields);
    var v := RecordV(FillDefaults(got, sch.fields));
    forall id | id in v.fields ensures DeliveredField(v, id, sch, reg, n) {
      if id !in got { Known(sch.fields, id); }
    }
  }

  lemma Known(fs: seq<Field>, id: int)
    ensures FieldById(fs, id).Some? <==> exists f :: f in fs && f.id == id
  {}

  /** The last loop of decodeRecord adds defaults, all of them, and nothing else. */
  lemma {:induction false} Filled(got: Fields, fs: seq<Field>)
    ensures var out := FillDefaults(got, fs);
      && (forall id :: id in got ==> id in out && out[id] == got[id])
      && (forall id :: id in out && id !in got ==> IsADefault(fs, id, out[id]))
      && forall f :: f in fs && f.default.DefaultIs? ==> f.id in out
    decreases |fs|
  {
    if fs != [] {
      var f := fs[0];
      var more := if f.id !in got && f.default.DefaultIs? then got[f.id := f.default.v] else got;
      Filled(more, fs[1..]);
      var out := FillDefaults(got, fs);
      assert fs == [f] + fs[1..] && out == FillDefaults(more, fs[1..]);
      forall id | id in out && id !in got ensures IsADefault(fs, id, out[id]) {
        if id in more {
          assert f in fs && f.id == id && f.default == DefaultIs(out[id]);
        } else {
          var g :| g in fs[1..] && g.id == id && g.default == DefaultIs(out[id]);
          assert g in fs;
        }
      }
    }
  }

  lemma {:induction false} FieldsDecoded(slab: Bytes, pos: nat, got: Fields, sch: RecordSchema, reg: Registry, n: nat)
    requires pos <= |slab| <= n && AllGot(got, sch, reg, n)
    ensures var r := DecodeFields(slab, pos, got, sch, reg); r.Ok? ==> AllGot(r.value, sch, reg, n)
    decreases |slab| - pos, 0
  {
    hide ReadLeb, SkipTagged, DecodeValue, PhysicalTag, FieldById, KindOf, Delivered;
    if pos < |slab| {
      var r := ReadLeb(slab, pos);
      if r.Ok? && r.pos < |slab| && KindOf(slab[r.pos]).Some? {
        var kind, p := KindOf(slab[r.pos]).value, r.pos + 1;
        var id := FromU64(r.value);
        match FieldById(sch.fields, id)
        case None =>
          var s := SkipTagged(slab, p, kind);
          if s.Ok? { FieldsDecoded(slab, s.pos, got, sch, reg, n); }
        case Some(f) =>
          if kind == PhysicalTag(f.typ, reg) {
            DecodedIsOfType(slab, p, f.typ, reg, n);
            var x := DecodeValue(slab, p, f.typ, reg);
            if x.Ok? { FieldsDecoded(slab, x.pos, got[id := x.value], sch, reg, n); }
          }
      }
    }
  }

  // ---------------------------------------------------------------- what is malformed is refused

  /** Refused: a marker other than 0 and 1, a branch there is not, a count the bytes left cannot back, a name there is
      not, and the end of the input where a value should be. */
  lemma MalformedIsRefused(raw: Bytes, pos: nat, t: Type, reg: Registry)
    requires pos <= |raw|
    ensures t.Nullable? && pos < |raw| && raw[pos] > 1 ==> DecodeValue(raw, pos, t, reg) == Err
    ensures t.Union? && pos < |raw| && raw[pos] >= |t.branches| ==> DecodeValue(raw, pos, t, reg) == Err
    ensures (t.ArrayOf? || t.MapOf?) && ReadLeb(raw, pos).Ok? && ReadLeb(raw, pos).value > |raw| - ReadLeb(raw, pos).pos
            ==> DecodeValue(raw, pos, t, reg) == Err
    ensures t.Ref? && Resolve(reg, t.name) == None ==> DecodeValue(raw, pos, t, reg) == Err
    ensures pos == |raw| && !ZeroWidth(t, reg) ==> !DecodeValue(raw, pos, t, reg).Ok?
  {
    hide DecodeElements, DecodeEntries, DecodeFields, FillDefaults, LebDigits;
    if t.Ref? {
      var n := Resolve(reg, t.name);
      if n.Some? && n.value.IsFixed? { RawNSize(raw, pos, n.value.fixed.size); }
    }
  }

  /** And in a record: a tag that is no kind, a field of a kind other than its type's, and a field that is not the
      schema's of a kind whose extent cannot be told. */
  lemma MisTaggedIsRefused(slab: Bytes, pos: nat, got: Fields, sch: RecordSchema, reg: Registry)
    requires pos < |slab| && ReadLeb(slab, pos).Ok? && ReadLeb(slab, pos).pos < |slab|
    requires
      var r := ReadLeb(slab, pos);
      var kind := KindOf(slab[r.pos]);
      || kind == None
      || (FieldById(sch.fields, FromU64(r.value)).Some? &&
          kind.value != PhysicalTag(FieldById(sch.fields, FromU64(r.value)).value.typ, reg))
      || (FieldById(sch.fields, FromU64(r.value)) == None && Refused(kind.value))
    ensures DecodeFields(slab, pos, got, sch, reg) == Err
  {
    hide ReadLeb, KindOf, FieldById, PhysicalTag, DecodeValue;
  }

  // ---------------------------------------------------------------- decoded, encoded and decoded again

  /** Every default is of its field's type, in decoded form. */
  ghost predicate DefaultsCanonical(reg: Registry) {
    forall name :: name in reg.records ==> AllDefaultsCanonical(reg.records[name].fields, reg)
  }

  ghost predicate AllDefaultsCanonical(fs: seq<Field>, reg: Registry) {
    forall f :: f in fs && f.default.DefaultIs? ==> Canonical(f.default.v, f.typ, reg)
  }

  /** A decoded value that can be encoded is canonical. */
  lemma {:induction false} DeliveredIsCanonical(v: Value, t: Type, reg: Registry, n: nat)
    requires WellFormed(reg) && DefaultsCanonical(reg) && Delivered(v, t, reg, n) && Typed(v, t, reg)
    ensures Canonical(v, t, reg)
    decreases v, 3, t
  {
    match t
    case Nullable(inner) => if v != NullV { DeliveredIsCanonical(v, inner, reg, n); }
    case Union(branches) => DeliveredIsCanonical(v.member, branches[v.branch], reg, n);
    case Prim(_, _) =>
    case ArrayOf(element) => ElementsAreCanonical(v.elements, element, reg, n);
    case MapOf(key, value) => EntriesAreCanonical(v.entries, key, value, reg, n);
    case Ref(name) => if name in reg.records { RecordIsCanonical(v, name, reg, n); }
  }

  lemma {:induction false} ElementsAreCanonical(vs: seq<Value>, t: Type, reg: Registry, n: nat)
    requires WellFormed(reg) && DefaultsCanonical(reg)
    requires forall i :: 0 <= i < |vs| ==> Delivered(vs[i], t, reg, n) && Typed(vs[i], t, reg)
    ensures ElementsCanonical(vs, t, reg)
    decreases vs, 0
  {
    hide Canonical, Delivered, Typed, WellFormed, DefaultsCanonical;
    if vs != [] {
      DeliveredIsCanonical(vs[0], t, reg, n);
      ElementsAreCanonical(vs[1..], t, reg, n);
    }
  }

  lemma EntryIsCanonical(e: Entry, key: Type, value: Type, reg: Registry, n: nat)
    requires WellFormed(reg) && DefaultsCanonical(reg)
    requires DeliveredEntry(e, key, value, reg, n) && TypedEntry(e, key, value, reg)
    ensures EntryCanonical(e, key, value, reg)
    decreases e, 0
  {
    hide Canonical, Delivered, Typed, WellFormed, DefaultsCanonical;
    DeliveredIsCanonical(e.key, key, reg, n);
    DeliveredIsCanonical(e.val, value, reg, n);
  }

  lemma {:induction false} EntriesAreCanonical(es: seq<Entry>, key: Type, value: Type, reg: Registry, n: nat)
    requires WellFormed(reg) && DefaultsCanonical(reg)
    requires forall i :: 0 <= i < |es| ==>
      DeliveredEntry(es[i], key, value, reg, n) && TypedEntry(es[i], key, value, reg)
    ensures EntriesCanonical(es, key, value, reg)
    decreases es, 0
  {
    hide EntryCanonical, DeliveredEntry, TypedEntry, WellFormed, DefaultsCanonical;
    if es != [] {
      EntryIsCanonical(es[0], key, value, reg, n);
      EntriesAreCanonical(es[1..], key, value, reg, n);
    }
  }

  lemma {:induction false} RecordIsCanonical(v: Value, name: string, reg: Registry, n: nat)
    requires WellFormed(reg) && DefaultsCanonical(reg) && name in reg.records
    requires Delivered(v, Ref(name), reg, n) && Typed(v, Ref(name), reg)
    ensures RecordCanonical(v, reg.records[name], reg)
    decreases v, 2
  {
    var sch := reg.records[name];
    assert RecordDelivered(v, sch, reg, n) && forall f :: f in sch.fields ==> TypedField(v, f, reg);
    assert DistinctIds(sch.fields) && AllDefaultsCanonical(sch.fields, reg);
    hide Delivered, Typed, Canonical, FieldById, WellFormed, DefaultsCanonical;
    forall id ensures id in v.fields <==>
      FieldById(sch.fields, id).Some? && (Sent(v, sch.fields, id) || HasDefault(sch.fields, id))
    {
      if id in v.fields && !Sent(v, sch.fields, id) { UnsentIsDefault(v, sch.fields, id); }
    }
    forall id | id in v.fields && Sent(v, sch.fields, id)
      ensures Canonical(v.fields[id], FieldById(sch.fields, id).value.typ, reg)
    {
      SentIsCanonical(v, id, sch, reg, n);
    }
  }

  lemma {:induction false} SentIsCanonical(v: Value, id: int, sch: RecordSchema, reg: Registry, n: nat)
    requires WellFormed(reg) && DefaultsCanonical(reg)
    requires DistinctIds(sch.fields) && AllDefaultsCanonical(sch.fields, reg)
    requires v.RecordV? && id in v.fields && DeliveredField(v, id, sch, reg, n) && Sent(v, sch.fields, id)
    requires TypedField(v, FieldById(sch.fields, id).value, reg)
    ensures Canonical(v.fields[id], FieldById(sch.fields, id).value.typ, reg)
    decreases v, 1
  {
    hide Delivered, Typed, Canonical, WellFormed, DefaultsCanonical;
    var f := FieldById(sch.fields, id).value;
    WrittenIff(v, f);
    if IsADefault(sch.fields, id, v.fields[id]) {
      var g :| g in sch.fields && g.id == id && g.default == DefaultIs(v.fields[id]);
      assert g == f;
    } else {
      DeliveredIsCanonical(v.fields[id], f.typ, reg, n);
    }
  }

  /** Decoding, encoding and decoding again is decoding: what was decoded from any bytes, if it can be encoded, comes
      back as it is. */
  lemma DecodeEncodeDecode(raw: Bytes, t: Type, reg: Registry)
    requires WellFormed(reg) && DefaultsCanonical(reg) && WireDecode(raw, t, reg).Ok?
    requires Typed(WireDecode(raw, t, reg).value, t, reg) && Fits(WireDecode(raw, t, reg).value, t, reg)
    ensures var v := WireDecode(raw, t, reg).value;
      && EncodeValue(v, t, reg).Encoded?
      && var enc := EncodeValue(v, t, reg).bytes;
      |enc| < TWO_63 ==> WireDecode(enc, t, reg) == Ok(v, |enc|)
  {
    var v := WireDecode(raw, t, reg).value;
    DecodedIsOfType(raw, 0, t, reg, |raw|);
    hide *;
    DeliveredIsCanonical(v, t, reg, |raw|);
    RoundTripExact(v, v, t, reg);
  }
}
