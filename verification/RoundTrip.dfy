/** What is written with one registry is read with another: the self-delimiting round trip is the
    case where the two are the same, schema evolution the case where they are not. */
module RoundTrip {
  import opened Words
  import opened Varint
  import opened Schema
  import opened Encode
  import opened Decode
  import opened Primitives

  // ---------------------------------------------------------------- the conditions

  /** A reader's registry can take what a writer's produced. Records may lose fields whose kind can
      be skipped, gain fields, and change defaults; a field both have keeps its type. */
  ghost predicate Readable(w: Registry, r: Registry) {
    && w.enums == r.enums && w.fixeds == r.fixeds && w.records.Keys == r.records.Keys
    && (forall n :: n in w.fixeds && w.fixeds[n].logical == LUuid ==> w.fixeds[n].size == 16)
    && forall n :: n in w.records ==> FieldsReadable(w.records[n].fields, r.records[n].fields)
  }

  /** A reader's registry that may besides have lost any fields at all: a field both have keeps its type. */
  ghost predicate Comparable(w: Registry, r: Registry) {
    && w.enums == r.enums && w.fixeds == r.fixeds && w.records.Keys == r.records.Keys
    && (forall n :: n in w.fixeds && w.fixeds[n].logical == LUuid ==> w.fixeds[n].size == 16)
    && forall n :: n in w.records ==> FieldsComparable(w.records[n].fields, r.records[n].fields)
  }

  ghost predicate FieldsComparable(wf: seq<Field>, rf: seq<Field>) {
    && DistinctIds(wf) && DistinctIds(rf)
    && forall f :: f in wf ==> FieldComparable(f, rf)
  }

  ghost predicate FieldComparable(f: Field, rf: seq<Field>) {
    0 <= f.id < TWO_32 && (FieldById(rf, f.id).Some? ==> FieldById(rf, f.id).value.typ == f.typ)
  }

  /** No record anywhere in `v` has a field on the wire that the reader has lost and does not skip right. */
  ghost predicate Clear(v: Value, t: Type, w: Registry, r: Registry)
    decreases v, 3, t
  {
    match t
    case Nullable(inner) => v.NullV? || Clear(v, inner, w, r)
    case Union(branches) => v.UnionV? && 0 <= v.branch < |branches| ==> Clear(v.member, branches[v.branch], w, r)
    case Prim(_, _) => true
    case ArrayOf(element) => v.ArrayV? ==> ElementsClear(v.elements, element, w, r)
    case MapOf(key, value) => v.MapV? ==> EntriesClear(v.entries, key, value, w, r)
    case Ref(name) =>
      v.RecordV? && name in w.records && name in r.records ==>
        FieldsClear(v, WireOrder(w.records[name].fields), r.records[name].fields, w, r)
  }

  ghost predicate ElementsClear(vs: seq<Value>, t: Type, w: Registry, r: Registry)
    decreases vs, 0
  {
    vs == [] || (Clear(vs[0], t, w, r) && ElementsClear(vs[1..], t, w, r))
  }

  ghost predicate EntriesClear(es: seq<Entry>, key: Type, value: Type, w: Registry, r: Registry)
    decreases es, 0
  {
    es == [] || (EntryClear(es[0], key, value, w, r) && EntriesClear(es[1..], key, value, w, r))
  }

  ghost predicate EntryClear(e: Entry, key: Type, value: Type, w: Registry, r: Registry)
    decreases e, 0
  {
    Clear(e.key, key, w, r) && Clear(e.val, value, w, r)
  }

  ghost predicate FieldsClear(v: Value, fs: seq<Field>, rf: seq<Field>, w: Registry, r: Registry)
    requires v.RecordV?
    decreases v, 1, |fs|
  {
    fs == [] || ((Written(v, fs[0]) ==> FieldClear(v, fs[0], rf, w, r)) && FieldsClear(v, fs[1..], rf, w, r))
  }

  ghost predicate FieldClear(v: Value, f: Field, rf: seq<Field>, w: Registry, r: Registry)
    requires v.RecordV? && Written(v, f)
    decreases v, 0
  {
    if FieldById(rf, f.id).Some? then Clear(v.fields[f.id], f.typ, w, r)
    else LostClear(v.fields[f.id], f.typ, w)
  }

  /** The bytes of a lost field's value are passed by its kind. */
  ghost predicate LostClear(v: Value, t: Type, w: Registry) {
    var enc := EncodeValue(v, t, w);
    enc.Encoded? ==> SkipsRight(enc.bytes, PhysicalTag(t, w))
  }

  ghost predicate FieldsReadable(wf: seq<Field>, rf: seq<Field>) {
    && DistinctIds(wf) && DistinctIds(rf)
    && forall f :: f in wf ==> FieldReadable(f, rf)
  }

  ghost predicate FieldReadable(f: Field, rf: seq<Field>) {
    && 0 <= f.id < TWO_32
    && match FieldById(rf, f.id)
       case Some(g) => g.typ == f.typ
       case None => SkipsCleanly(f.typ)
  }

  /** Types of which a value can take no byte at all. */
  predicate ZeroWidth(t: Type, reg: Registry) {
    match t
    case Prim(k, l) => k == KNull && (l == NoLogical || l == LOther)
    case Ref(name) => var n := Resolve(reg, name); n.Some? && n.value.IsFixed? && n.value.fixed.size == 0
    case _ => false
  }

  /** The value fits the widths of the format: 32-bit lengths and ordinals, 8-bit branch numbers, and
      an element count that the bytes of the elements can back. */
  ghost predicate Fits(v: Value, t: Type, reg: Registry)
    decreases v, 3, t
  {
    match t
    case Nullable(inner) => v.NullV? || Fits(v, inner, reg)
    case Union(branches) =>
      v.UnionV? && 0 <= v.branch < |branches| && v.branch < 256 && Fits(v.member, branches[v.branch], reg)
    case Prim(_, _) => LengthFits(v)
    case ArrayOf(element) =>
      && v.ArrayV? && |v.elements| < TWO_32 && (ZeroWidth(element, reg) ==> v.elements == [])
      && ElementsFit(v.elements, element, reg)
    case MapOf(key, value) =>
      && v.MapV? && |v.entries| < TWO_32
      && (ZeroWidth(key, reg) && ZeroWidth(value, reg) ==> v.entries == [])
      && EntriesFit(v.entries, key, value, reg)
    case Ref(name) =>
      match Resolve(reg, name)
      case Some(IsRecord(sch)) =>
        v.RecordV? && FieldsFit(v, WireOrder(sch.fields), reg) && SlabFits(v, sch, reg)
      case Some(IsEnum(_)) => v.EnumV? && v.ordinal < TWO_31
      case _ => true
  }

  ghost predicate ElementsFit(vs: seq<Value>, t: Type, reg: Registry)
    decreases vs, 0
  {
    vs == [] || (Fits(vs[0], t, reg) && ElementsFit(vs[1..], t, reg))
  }

  ghost predicate EntriesFit(es: seq<Entry>, key: Type, value: Type, reg: Registry)
    decreases es, 0
  {
    es == [] || (EntryFits(es[0], key, value, reg) && EntriesFit(es[1..], key, value, reg))
  }

  ghost predicate FieldsFit(v: Value, fs: seq<Field>, reg: Registry)
    requires v.RecordV?
    decreases v, 1, |fs|
  {
    fs == [] || ((Written(v, fs[0]) ==> Fits(v.fields[fs[0].id], fs[0].typ, reg)) && FieldsFit(v, fs[1..], reg))
  }

  ghost predicate EntryFits(e: Entry, key: Type, value: Type, reg: Registry)
    decreases e, 0
  {
    Fits(e.key, key, reg) && Fits(e.val, value, reg)
  }

  ghost predicate SlabFits(v: Value, sch: RecordSchema, reg: Registry)
    requires v.RecordV?
  {
    var body := EncodeFields(v, WireOrder(sch.fields), reg);
    body.Encoded? ==> |body.bytes| < TWO_32
  }

  // ---------------------------------------------------------------- what the reader sees

  /** The writer put field `id` on the wire. */
  predicate Sent(v: Value, wf: seq<Field>, id: int)
    requires v.RecordV?
  {
    var f := FieldById(wf, id);
    f.Some? && Written(v, f.value)
  }

  predicate HasDefault(rf: seq<Field>, id: int) {
    var f := FieldById(rf, id);
    f.Some? && f.value.default.DefaultIs?
  }

  /** The ids of the record a reader sees: those it knows that were sent or have a default. */
  ghost function SeenIds(v: Value, wf: seq<Field>, rf: seq<Field>): set<int>
    requires v.RecordV?
  {
    set f | f in rf && (Sent(v, wf, f.id) || HasDefault(rf, f.id)) :: f.id
  }

  /** The value the reader sees of `v`, written as a `t`: the same value, with primitives in their
      normal form, enums carrying their symbol, and each record restricted to the reader's fields
      with the reader's defaults where nothing was sent. */
  ghost function Seen(v: Value, t: Type, w: Registry, r: Registry): Value
    decreases v, 3, t
  {
    match t
    case Nullable(inner) => if v.NullV? then v else Seen(v, inner, w, r)
    case Union(branches) =>
      if v.UnionV? && 0 <= v.branch < |branches| then UnionV(v.branch, Seen(v.member, branches[v.branch], w, r)) else v
    case Prim(_, l) => Normal(v, l)
    case ArrayOf(element) =>
      if v.ArrayV? then ArrayV(SeenElements(v.elements, element, w, r)) else v
    case MapOf(key, value) =>
      if v.MapV? then MapV(SeenEntries(v.entries, key, value, w, r)) else v
    case Ref(name) =>
      match Resolve(w, name)
      case Some(IsRecord(sch)) =>
        if v.RecordV? && name in r.records then SeenRecord(v, sch.fields, r.records[name].fields, w, r) else v
      case Some(IsEnum(symbols)) =>
        if v.EnumV? && 0 <= v.ordinal < |symbols| then EnumV(v.ordinal, symbols[v.ordinal]) else v
      case Some(IsFixed(f)) =>
        if f.logical == LUuid && v.FixedV? && |v.raw| == 16 then UuidOf(v.raw) else v
      case None => v
  }

  ghost function SeenElements(vs: seq<Value>, t: Type, w: Registry, r: Registry): seq<Value>
    decreases vs, 0
  {
    if vs == [] then [] else [Seen(vs[0], t, w, r)] + SeenElements(vs[1..], t, w, r)
  }

  ghost function SeenEntries(es: seq<Entry>, key: Type, value: Type, w: Registry, r: Registry): seq<Entry>
    decreases es, 0
  {
    if es == [] then [] else [SeenEntry(es[0], key, value, w, r)] + SeenEntries(es[1..], key, value, w, r)
  }

  ghost function SeenEntry(e: Entry, key: Type, value: Type, w: Registry, r: Registry): Entry
    decreases e, 0
  {
    Entry(Seen(e.key, key, w, r), Seen(e.val, value, w, r))
  }

  ghost function SeenRecord(v: Value, wf: seq<Field>, rf: seq<Field>, w: Registry, r: Registry): Value
    requires v.RecordV?
    decreases v, 1
  {
    RecordV(map id | id in SeenIds(v, wf, rf) ::
      if Sent(v, wf, id) then Seen(v.fields[id], FieldById(wf, id).value.typ, w, r)
      else FieldById(rf, id).value.default.v)
  }

  // ---------------------------------------------------------------- element counts

  /** A type that is not zero-width costs every value of it at least a byte. */
  lemma TakesAByte(v: Value, t: Type, reg: Registry)
    requires !ZeroWidth(t, reg) && EncodeValue(v, t, reg).Encoded?
    ensures |EncodeValue(v, t, reg).bytes| >= 1
  {
    if t.Ref? && Resolve(reg, t.name).Some? && Resolve(reg, t.name).value.IsRecord? {
      assert EncodeNamed(v, t.name, reg) == EncodeRecord(v, Resolve(reg, t.name).value.record, reg);
    }
  }

  lemma {:induction false} ElementsBackCount(vs: seq<Value>, t: Type, reg: Registry)
    requires !ZeroWidth(t, reg) && EncodeElements(vs, t, reg).Encoded?
    ensures |vs| <= |EncodeElements(vs, t, reg).bytes|
  {
    if vs != [] {
      TakesAByte(vs[0], t, reg);
      ElementsBackCount(vs[1..], t, reg);
    }
  }

  lemma {:induction false} EntriesBackCount(es: seq<Entry>, key: Type, value: Type, reg: Registry)
    requires !(ZeroWidth(key, reg) && ZeroWidth(value, reg)) && EncodeEntries(es, key, value, reg).Encoded?
    ensures |es| <= |EncodeEntries(es, key, value, reg).bytes|
  {
    if es != [] {
      if !ZeroWidth(key, reg) { TakesAByte(es[0].key, key, reg); } else { TakesAByte(es[0].val, value, reg); }
      EntriesBackCount(es[1..], key, value, reg);
    }
  }

  // ---------------------------------------------------------------- the theorem

  /** Reading at any place where an encoding stands yields what the reader should see of the value
      and stops exactly at the end of the encoding, whatever surrounds it. */
  lemma {:induction false} ReadsWhatIsClear(v: Value, t: Type, w: Registry, r: Registry, raw: Bytes, pos: nat)
    requires Comparable(w, r) && Clear(v, t, w, r) && Fits(v, t, w) && EncodeValue(v, t, w).Encoded?
    requires At(raw, pos, EncodeValue(v, t, w).bytes) && pos <= |raw| < TWO_63
    ensures DecodeValue(raw, pos, t, r) == Ok(Seen(v, t, w, r), pos + |EncodeValue(v, t, w).bytes|)
    decreases v, 3, t
  {
    hide *;
    match t
    case Nullable(inner) => NullableReads(v, inner, w, r, raw, pos);
    case Union(branches) => UnionReads(v, branches, w, r, raw, pos);
    case Prim(k, l) => PrimitiveReads(v, k, l, w, r, raw, pos);
    case ArrayOf(element) => ArrayReads(v, element, w, r, raw, pos);
    case MapOf(key, value) => MapReads(v, key, value, w, r, raw, pos);
    case Ref(name) => NamedReads(v, name, w, r, raw, pos);
  }

  lemma {:induction false} NullableReads(v: Value, inner: Type, w: Registry, r: Registry, raw: Bytes, pos: nat)
    requires Comparable(w, r) && Clear(v, Nullable(inner), w, r) && Fits(v, Nullable(inner), w)
    requires EncodeValue(v, Nullable(inner), w).Encoded?
    requires At(raw, pos, EncodeValue(v, Nullable(inner), w).bytes) && |raw| < TWO_63
    ensures DecodeValue(raw, pos, Nullable(inner), r)
         == Ok(Seen(v, Nullable(inner), w, r), pos + |EncodeValue(v, Nullable(inner), w).bytes|)
    decreases v, 3, Nullable(inner), 0
  {
    hide Comparable;
    if v.NullV? {
      assert [0] == [0] + [];
      AtHead(raw, pos, 0, []);
    } else {
      AtHead(raw, pos, 1, EncodeValue(v, inner, w).bytes);
      ReadsWhatIsClear(v, inner, w, r, raw, pos + 1);
    }
  }

  lemma {:induction false} UnionReads(v: Value, branches: seq<Type>, w: Registry, r: Registry, raw: Bytes, pos: nat)
    requires Comparable(w, r) && Clear(v, Union(branches), w, r) && Fits(v, Union(branches), w)
    requires EncodeValue(v, Union(branches), w).Encoded?
    requires At(raw, pos, EncodeValue(v, Union(branches), w).bytes) && |raw| < TWO_63
    ensures DecodeValue(raw, pos, Union(branches), r)
         == Ok(Seen(v, Union(branches), w, r), pos + |EncodeValue(v, Union(branches), w).bytes|)
    decreases v, 2
  {
    hide Comparable;
    AtHead(raw, pos, v.branch, EncodeValue(v.member, branches[v.branch], w).bytes);
    ReadsWhatIsClear(v.member, branches[v.branch], w, r, raw, pos + 1);
  }

  lemma PrimitiveReads(v: Value, k: Kind, l: Logical, w: Registry, r: Registry, raw: Bytes, pos: nat)
    requires Fits(v, Prim(k, l), w) && EncodeValue(v, Prim(k, l), w).Encoded?
    requires At(raw, pos, EncodeValue(v, Prim(k, l), w).bytes) && |raw| < TWO_63
    ensures DecodeValue(raw, pos, Prim(k, l), r)
         == Ok(Seen(v, Prim(k, l), w, r), pos + |EncodeValue(v, Prim(k, l), w).bytes|)
  {
    hide DecodePrim, EncodePrim, Normal;
    PrimRead(v, k, l, raw, pos);
  }

  lemma ArrayTurn(raw: Bytes, pos: nat, n: uint32, p: nat, t: Type, r: Registry, vs: seq<Value>, q: nat)
    requires pos <= |raw| && ReadLeb(raw, pos) == Ok(n, p) && n <= |raw| - p
    requires DecodeElements(raw, p, n, t, r) == Ok(vs, q)
    ensures DecodeValue(raw, pos, ArrayOf(t), r) == Ok(ArrayV(vs), q)
  {
    hide ReadLeb, DecodeElements;
  }

  lemma ArrayParts(v: Value, t: Type, w: Registry, r: Registry)
    requires Fits(v, ArrayOf(t), w) && EncodeValue(v, ArrayOf(t), w).Encoded?
    ensures v.ArrayV? && |v.elements| < TWO_32 && ElementsFit(v.elements, t, w)
    ensures EncodeElements(v.elements, t, w).Encoded?
    ensures EncodeValue(v, ArrayOf(t), w).bytes == Leb(|v.elements|) + EncodeElements(v.elements, t, w).bytes
    ensures Seen(v, ArrayOf(t), w, r) == ArrayV(SeenElements(v.elements, t, w, r))
    ensures |v.elements| <= |EncodeElements(v.elements, t, w).bytes|
    ensures Clear(v, ArrayOf(t), w, r) <==> ElementsClear(v.elements, t, w, r)
  {
    hide ElementsFit, EncodeElements, SeenElements, Leb, ZeroWidth, ElementsClear;
    if v.elements != [] { ElementsBackCount(v.elements, t, w); }
  }

  lemma {:induction false} ArrayReads(v: Value, t: Type, w: Registry, r: Registry, raw: Bytes, pos: nat)
    requires Comparable(w, r) && Clear(v, ArrayOf(t), w, r) && Fits(v, ArrayOf(t), w)
    requires EncodeValue(v, ArrayOf(t), w).Encoded?
    requires At(raw, pos, EncodeValue(v, ArrayOf(t), w).bytes) && pos <= |raw| < TWO_63
    ensures DecodeValue(raw, pos, ArrayOf(t), r)
         == Ok(Seen(v, ArrayOf(t), w, r), pos + |EncodeValue(v, ArrayOf(t), w).bytes|)
    decreases v, 2
  {
    ArrayParts(v, t, w, r);
    var n := |v.elements|;
    var body := EncodeElements(v.elements, t, w).bytes;
    var p := pos + |Leb(n)|;
    AtSplit(raw, pos, Leb(n), body);
    assert p + |body| <= |raw|;
    hide *;
    LebRoundTrip(raw, pos, n);
    ElementsRead(v.elements, t, w, r, raw, p);
    ArrayTurn(raw, pos, n, p, t, r, SeenElements(v.elements, t, w, r), p + |body|);
  }

  lemma ElementsTurn(raw: Bytes, pos: nat, n: nat, t: Type, r: Registry, v: Value, p: nat, vs: seq<Value>, q: nat)
    requires pos <= |raw| && DecodeValue(raw, pos, t, r) == Ok(v, p) && DecodeElements(raw, p, n, t, r) == Ok(vs, q)
    ensures DecodeElements(raw, pos, n + 1, t, r) == Ok([v] + vs, q)
  {
    hide DecodeValue;
  }

  lemma NoElements(t: Type, w: Registry, r: Registry, raw: Bytes, pos: nat)
    requires pos <= |raw|
    ensures EncodeElements([], t, w) == Encoded([]) && SeenElements([], t, w, r) == []
    ensures DecodeElements(raw, pos, 0, t, r) == Ok([], pos)
  {}

  lemma FirstElement(vs: seq<Value>, t: Type, w: Registry, r: Registry)
    requires vs != [] && ElementsFit(vs, t, w) && EncodeElements(vs, t, w).Encoded?
    ensures Fits(vs[0], t, w) && ElementsFit(vs[1..], t, w)
    ensures EncodeValue(vs[0], t, w).Encoded? && EncodeElements(vs[1..], t, w).Encoded?
    ensures EncodeElements(vs, t, w).bytes == EncodeValue(vs[0], t, w).bytes + EncodeElements(vs[1..], t, w).bytes
    ensures SeenElements(vs, t, w, r) == [Seen(vs[0], t, w, r)] + SeenElements(vs[1..], t, w, r)
    ensures ElementsClear(vs, t, w, r) <==> Clear(vs[0], t, w, r) && ElementsClear(vs[1..], t, w, r)
  {
    hide Fits, Seen, EncodeValue, Clear;
  }

  lemma {:induction false} ElementsRead(vs: seq<Value>, t: Type, w: Registry, r: Registry, raw: Bytes, pos: nat)
    requires Comparable(w, r) && ElementsClear(vs, t, w, r) && ElementsFit(vs, t, w)
    requires EncodeElements(vs, t, w).Encoded? && pos <= |raw| < TWO_63
    requires At(raw, pos, EncodeElements(vs, t, w).bytes)
    ensures DecodeElements(raw, pos, |vs|, t, r)
         == Ok(SeenElements(vs, t, w, r), pos + |EncodeElements(vs, t, w).bytes|)
    decreases vs, 0
  {
    hide *;
    if vs == [] {
      NoElements(t, w, r, raw, pos);
    } else {
      FirstElement(vs, t, w, r);
      var a, b := EncodeValue(vs[0], t, w).bytes, EncodeElements(vs[1..], t, w).bytes;
      AtSplit(raw, pos, a, b);
      ReadsWhatIsClear(vs[0], t, w, r, raw, pos);
      ElementsRead(vs[1..], t, w, r, raw, pos + |a|);
      ElementsTurn(raw, pos, |vs| - 1, t, r, Seen(vs[0], t, w, r), pos + |a|,
                   SeenElements(vs[1..], t, w, r), pos + |a| + |b|);
    }
  }

  lemma MapTurn(raw: Bytes, pos: nat, n: uint32, p: nat, key: Type, value: Type, r: Registry, es: seq<Entry>, q: nat)
    requires pos <= |raw| && ReadLeb(raw, pos) == Ok(n, p) && n <= |raw| - p
    requires DecodeEntries(raw, p, n, key, value, r) == Ok(es, q)
    ensures DecodeValue(raw, pos, MapOf(key, value), r) == Ok(MapV(es), q)
  {
    hide ReadLeb, DecodeEntries;
  }

  lemma MapParts(v: Value, key: Type, value: Type, w: Registry, r: Registry)
    requires Fits(v, MapOf(key, value), w) && EncodeValue(v, MapOf(key, value), w).Encoded?
    ensures v.MapV? && |v.entries| < TWO_32 && EntriesFit(v.entries, key, value, w)
    ensures EncodeEntries(v.entries, key, value, w).Encoded?
    ensures EncodeValue(v, MapOf(key, value), w).bytes ==
            Leb(|v.entries|) + EncodeEntries(v.entries, key, value, w).bytes
    ensures Seen(v, MapOf(key, value), w, r) == MapV(SeenEntries(v.entries, key, value, w, r))
    ensures |v.entries| <= |EncodeEntries(v.entries, key, value, w).bytes|
    ensures Clear(v, MapOf(key, value), w, r) <==> EntriesClear(v.entries, key, value, w, r)
  {
    hide EntriesFit, EncodeEntries, SeenEntries, Leb, ZeroWidth, EntriesClear;
    if v.entries != [] { EntriesBackCount(v.entries, key, value, w); }
  }

  lemma {:induction false} MapReads(v: Value, key: Type, value: Type, w: Registry, r: Registry, raw: Bytes, pos: nat)
    requires Comparable(w, r) && Clear(v, MapOf(key, value), w, r) && Fits(v, MapOf(key, value), w)
    requires EncodeValue(v, MapOf(key, value), w).Encoded?
    requires At(raw, pos, EncodeValue(v, MapOf(key, value), w).bytes) && pos <= |raw| < TWO_63
    ensures DecodeValue(raw, pos, MapOf(key, value), r)
         == Ok(Seen(v, MapOf(key, value), w, r), pos + |EncodeValue(v, MapOf(key, value), w).bytes|)
    decreases v, 2
  {
    MapParts(v, key, value, w, r);
    var n := |v.entries|;
    var body := EncodeEntries(v.entries, key, value, w).bytes;
    var p := pos + |Leb(n)|;
    AtSplit(raw, pos, Leb(n), body);
    assert p + |body| <= |raw|;
    hide *;
    LebRoundTrip(raw, pos, n);
    EntriesRead(v.entries, key, value, w, r, raw, p);
    MapTurn(raw, pos, n, p, key, value, r, SeenEntries(v.entries, key, value, w, r), p + |body|);
  }

  lemma {:induction false} EntryRead(e: Entry, key: Type, value: Type, w: Registry, r: Registry, raw: Bytes, pos: nat)
    requires Comparable(w, r) && EntryClear(e, key, value, w, r) && EntryFits(e, key, value, w)
    requires EncodeEntry(e, key, value, w).Encoded?
    requires At(raw, pos, EncodeEntry(e, key, value, w).bytes) && |raw| < TWO_63
    ensures DecodeValue(raw, pos, key, r).Ok?
    ensures var k := DecodeValue(raw, pos, key, r); var x := DecodeValue(raw, k.pos, value, r);
      x.Ok? && Entry(k.value, x.value) == SeenEntry(e, key, value, w, r) &&
      x.pos == pos + |EncodeEntry(e, key, value, w).bytes|
    decreases e, 0
  {
    hide Fits, Comparable, Clear, Seen, DecodeValue, EncodeValue;
    var a, b := EncodeValue(e.key, key, w).bytes, EncodeValue(e.val, value, w).bytes;
    AtSplit(raw, pos, a, b);
    ReadsWhatIsClear(e.key, key, w, r, raw, pos);
    ReadsWhatIsClear(e.val, value, w, r, raw, pos + |a|);
  }

  lemma EntriesTurn(raw: Bytes, pos: nat, n: nat, key: Type, value: Type, r: Registry, e: Entry, p: nat, q: nat,
                    es: seq<Entry>, z: nat)
    requires pos <= |raw| && DecodeValue(raw, pos, key, r) == Ok(e.key, p)
    requires DecodeValue(raw, p, value, r) == Ok(e.val, q)
    requires DecodeEntries(raw, q, n, key, value, r) == Ok(es, z)
    ensures DecodeEntries(raw, pos, n + 1, key, value, r) == Ok([e] + es, z)
  {
    hide DecodeValue;
  }

  lemma NoEntries(key: Type, value: Type, w: Registry, r: Registry, raw: Bytes, pos: nat)
    requires pos <= |raw|
    ensures EncodeEntries([], key, value, w) == Encoded([]) && SeenEntries([], key, value, w, r) == []
    ensures DecodeEntries(raw, pos, 0, key, value, r) == Ok([], pos)
  {}

  lemma FirstEntry(es: seq<Entry>, key: Type, value: Type, w: Registry, r: Registry)
    requires es != [] && EntriesFit(es, key, value, w) && EncodeEntries(es, key, value, w).Encoded?
    ensures EntryFits(es[0], key, value, w) && EntriesFit(es[1..], key, value, w)
    ensures EncodeEntry(es[0], key, value, w).Encoded? && EncodeEntries(es[1..], key, value, w).Encoded?
    ensures EncodeEntries(es, key, value, w).bytes ==
            EncodeEntry(es[0], key, value, w).bytes + EncodeEntries(es[1..], key, value, w).bytes
    ensures SeenEntries(es, key, value, w, r) ==
            [SeenEntry(es[0], key, value, w, r)] + SeenEntries(es[1..], key, value, w, r)
    ensures EntriesClear(es, key, value, w, r) <==>
            EntryClear(es[0], key, value, w, r) && EntriesClear(es[1..], key, value, w, r)
  {
    hide EntryFits, SeenEntry, EncodeEntry, EntryClear;
  }

  lemma {:induction false} EntriesRead(es: seq<Entry>, key: Type, value: Type, w: Registry, r: Registry, raw: Bytes,
                                       pos: nat)
    requires Comparable(w, r) && EntriesClear(es, key, value, w, r) && EntriesFit(es, key, value, w)
    requires EncodeEntries(es, key, value, w).Encoded?
    requires pos <= |raw| < TWO_63 && At(raw, pos, EncodeEntries(es, key, value, w).bytes)
    ensures DecodeEntries(raw, pos, |es|, key, value, r)
         == Ok(SeenEntries(es, key, value, w, r), pos + |EncodeEntries(es, key, value, w).bytes|)
    decreases es, 0
  {
    hide *;
    if es == [] {
      NoEntries(key, value, w, r, raw, pos);
    } else {
      FirstEntry(es, key, value, w, r);
      var a, b := EncodeEntry(es[0], key, value, w).bytes, EncodeEntries(es[1..], key, value, w).bytes;
      AtSplit(raw, pos, a, b);
      EntryRead(es[0], key, value, w, r, raw, pos);
      EntriesRead(es[1..], key, value, w, r, raw, pos + |a|);
      EntriesTurn(raw, pos, |es| - 1, key, value, r, SeenEntry(es[0], key, value, w, r),
                  DecodeValue(raw, pos, key, r).pos, pos + |a|,
                  SeenEntries(es[1..], key, value, w, r), pos + |a| + |b|);
    }
  }

  lemma {:induction false} NamedReads(v: Value, name: string, w: Registry, r: Registry, raw: Bytes, pos: nat)
    requires Comparable(w, r) && Clear(v, Ref(name), w, r) && Fits(v, Ref(name), w)
    requires EncodeValue(v, Ref(name), w).Encoded?
    requires At(raw, pos, EncodeValue(v, Ref(name), w).bytes) && |raw| < TWO_63
    ensures DecodeValue(raw, pos, Ref(name), r)
         == Ok(Seen(v, Ref(name), w, r), pos + |EncodeValue(v, Ref(name), w).bytes|)
    decreases v, 2
  {
    match Resolve(w, name)
    case Some(IsRecord(sch)) => RecordReads(v, name, w, r, raw, pos);
    case Some(IsEnum(symbols)) =>
      assert ToU32(v.ordinal) == v.ordinal % TWO_32;
      Int32Read(raw, pos, v.ordinal);
    case Some(IsFixed(f)) => RawNAt(raw, pos, v.raw);
  }

  // ---------------------------------------------------------------- records

  /** The fields the loop of decodeRecord has gathered once it has passed `fs`. */
  ghost function Arrived(v: Value, fs: seq<Field>, rf: seq<Field>, got: map<int, Value>, w: Registry,
                         r: Registry): map<int, Value>
    requires v.RecordV?
    decreases |fs|
  {
    if fs == [] then got
    else
      var f := fs[0];
      Arrived(v, fs[1..], rf,
        if Written(v, f) && FieldById(rf, f.id).Some? then got[f.id := Seen(v.fields[f.id], f.typ, w, r)] else got,
        w, r)
  }

  lemma SameTag(t: Type, w: Registry, r: Registry)
    requires Comparable(w, r)
    ensures PhysicalTag(t, w) == PhysicalTag(t, r)
  {}

  /** The header of a field is read back as its id and its kind. */
  lemma HeaderReads(slab: Bytes, pos: nat, id: int, k: Kind, body: Bytes)
    requires 0 <= id < TWO_32 && At(slab, pos, Leb(id) + [Tag(k)] + body)
    ensures var p := pos + |Leb(id)|;
      ReadLeb(slab, pos) == Ok(id, p) && p < |slab| && KindOf(slab[p]) == Some(k) && At(slab, p + 1, body)
  {
    assert Leb(id) + [Tag(k)] + body == Leb(id) + ([Tag(k)] + body);
    AtSplit(slab, pos, Leb(id), [Tag(k)] + body);
    LebRoundTrip(slab, pos, id);
    AtHead(slab, pos + |Leb(id)|, Tag(k), body);
    KindOfTag(k);
  }

  /** One turn of the field loop, on a field the reader knows and on one it does not. */
  lemma KnownTurn(slab: Bytes, pos: nat, got: map<int, Value>, sch: RecordSchema, r: Registry,
                  id: int, p: nat, f: Field, v: Value, q: nat)
    requires pos < |slab| && 0 <= id < TWO_32 && ReadLeb(slab, pos) == Ok(id, p) && p < |slab|
    requires FieldById(sch.fields, id) == Some(f) && KindOf(slab[p]) == Some(PhysicalTag(f.typ, r))
    requires DecodeValue(slab, p + 1, f.typ, r) == Ok(v, q)
    ensures DecodeFields(slab, pos, got, sch, r) == DecodeFields(slab, q, got[id := v], sch, r)
  {
    hide DecodeValue, PhysicalTag, KindOf, ReadLeb, FieldById;
  }

  lemma UnknownTurn(slab: Bytes, pos: nat, got: map<int, Value>, sch: RecordSchema, r: Registry,
                    id: int, p: nat, k: Kind, q: nat)
    requires pos < |slab| && 0 <= id < TWO_32 && ReadLeb(slab, pos) == Ok(id, p) && p < |slab|
    requires FieldById(sch.fields, id) == None && KindOf(slab[p]) == Some(k)
    requires SkipTagged(slab, p + 1, k) == Ok((), q)
    ensures DecodeFields(slab, pos, got, sch, r) == DecodeFields(slab, q, got, sch, r)
  {
    hide DecodeValue, PhysicalTag, KindOf, ReadLeb, FieldById, SkipTagged;
  }

  lemma PrimEncoding(v: Value, t: Type, reg: Registry)
    requires t.Prim?
    ensures EncodeValue(v, t, reg) == EncodePrim(v, t.kind, t.logical) && (Fits(v, t, reg) <==> LengthFits(v))
    ensures PhysicalTag(t, reg) == t.kind
  {}

  /** One written field: its header is understood and it is either read or skipped to its end. */
  lemma {:induction false} FieldReads(v: Value, f: Field, sch: RecordSchema, got: map<int, Value>,
                                      w: Registry, r: Registry, slab: Bytes, pos: nat)
    requires Comparable(w, r) && v.RecordV? && Written(v, f)
    requires FieldComparable(f, sch.fields) && FieldClear(v, f, sch.fields, w, r)
    requires Fits(v.fields[f.id], f.typ, w) && EncodeField(v, f, w).Encoded?
    requires At(slab, pos, EncodeField(v, f, w).bytes) && |slab| < TWO_63
    ensures pos + |EncodeField(v, f, w).bytes| <= |slab|
    ensures DecodeFields(slab, pos, got, sch, r) ==
            DecodeFields(slab, pos + |EncodeField(v, f, w).bytes|,
              if FieldById(sch.fields, f.id).Some? then got[f.id := Seen(v.fields[f.id], f.typ, w, r)] else got, sch, r)
    decreases v, 0, 0
  {
    hide Fits, Clear, Seen, EncodeValue, DecodeValue, DecodeFields, Comparable, PhysicalTag, KindOf, ReadLeb, Leb;
    hide FieldById, Tag, SkipTagged, SkipsRight;
    var cur := v.fields[f.id];
    var body := EncodeValue(cur, f.typ, w).bytes;
    var k := PhysicalTag(f.typ, w);
    var p := pos + |Leb(f.id)|;
    HeaderReads(slab, pos, f.id, k, body);
    SameTag(f.typ, w, r);
    if FieldById(sch.fields, f.id).Some? {
      ReadsWhatIsClear(cur, f.typ, w, r, slab, p + 1);
      KnownTurn(slab, pos, got, sch, r, f.id, p, FieldById(sch.fields, f.id).value,
                Seen(cur, f.typ, w, r), p + 1 + |body|);
    } else {
      SkipLands(slab, p + 1, body, k);
      UnknownTurn(slab, pos, got, sch, r, f.id, p, k, p + 1 + |body|);
    }
  }

  lemma NoFields(v: Value, sch: RecordSchema, got: map<int, Value>, w: Registry, r: Registry, slab: Bytes)
    requires v.RecordV?
    ensures EncodeFields(v, [], w) == Encoded([]) && Arrived(v, [], sch.fields, got, w, r) == got
    ensures DecodeFields(slab, |slab|, got, sch, r) == Ok(got, |slab|)
  {}

  lemma FirstField(v: Value, fs: seq<Field>, rf: seq<Field>, got: map<int, Value>, w: Registry, r: Registry)
    requires v.RecordV? && fs != [] && FieldsFit(v, fs, w) && EncodeFields(v, fs, w).Encoded?
    ensures FieldsFit(v, fs[1..], w)
    ensures Written(v, fs[0]) ==> fs[0].id in v.fields && Fits(v.fields[fs[0].id], fs[0].typ, w)
    ensures EncodeField(v, fs[0], w).Encoded? && EncodeFields(v, fs[1..], w).Encoded?
    ensures EncodeFields(v, fs, w).bytes == EncodeField(v, fs[0], w).bytes + EncodeFields(v, fs[1..], w).bytes
    ensures !Written(v, fs[0]) ==>
      EncodeField(v, fs[0], w).bytes == [] && Arrived(v, fs, rf, got, w, r) == Arrived(v, fs[1..], rf, got, w, r)
    ensures Written(v, fs[0]) ==>
      Arrived(v, fs, rf, got, w, r) ==
      Arrived(v, fs[1..], rf, if FieldById(rf, fs[0].id).Some?
                              then got[fs[0].id := Seen(v.fields[fs[0].id], fs[0].typ, w, r)] else got, w, r)
    ensures FieldsClear(v, fs, rf, w, r) <==>
      (Written(v, fs[0]) ==> FieldClear(v, fs[0], rf, w, r)) && FieldsClear(v, fs[1..], rf, w, r)
  {
    hide Fits, FieldClear, Seen, EncodeValue, FieldById, PhysicalTag, Tag, Leb;
  }

  lemma {:induction false} FieldsRead(v: Value, fs: seq<Field>, sch: RecordSchema, got: map<int, Value>,
                                      w: Registry, r: Registry, slab: Bytes, pos: nat)
    requires Comparable(w, r) && v.RecordV? && FieldsFit(v, fs, w) && FieldsClear(v, fs, sch.fields, w, r)
    requires forall f :: f in fs ==> FieldComparable(f, sch.fields)
    requires EncodeFields(v, fs, w).Encoded? && At(slab, pos, EncodeFields(v, fs, w).bytes)
    requires pos + |EncodeFields(v, fs, w).bytes| == |slab| < TWO_63
    ensures DecodeFields(slab, pos, got, sch, r) == Ok(Arrived(v, fs, sch.fields, got, w, r), |slab|)
    decreases v, 0, 1, |fs|
  {
    hide *;
    if fs == [] {
      NoFields(v, sch, got, w, r, slab);
    } else {
      var f := fs[0];
      FirstField(v, fs, sch.fields, got, w, r);
      var a, b := EncodeField(v, f, w).bytes, EncodeFields(v, fs[1..], w).bytes;
      AtSplit(slab, pos, a, b);
      if Written(v, f) {
        FieldReads(v, f, sch, got, w, r, slab, pos);
        var next := if FieldById(sch.fields, f.id).Some? then got[f.id := Seen(v.fields[f.id], f.typ, w, r)] else got;
        FieldsRead(v, fs[1..], sch, next, w, r, slab, pos + |a|);
      } else {
        FieldsRead(v, fs[1..], sch, got, w, r, slab, pos + |a|);
      }
    }
  }

  lemma RecordTurn(raw: Bytes, pos: nat, body: Bytes, sch: RecordSchema, r: Registry, got: map<int, Value>)
    requires |body| < TWO_32 && At(raw, pos, Leb(|body|) + body) && |raw| < TWO_63
    requires DecodeFields(body, 0, map[], sch, r) == Ok(got, |body|)
    ensures DecodeRecord(raw, pos, sch, r) == Ok(RecordV(FillDefaults(got, sch.fields)), pos + |Leb(|body|) + body|)
  {
    hide DecodeFields, FillDefaults, ReadLeb, Leb, RawN;
    AtSplit(raw, pos, Leb(|body|), body);
    LebRoundTrip(raw, pos, |body|);
    RawNAt(raw, pos + |Leb(|body|)|, body);
  }

  lemma RecordParts(v: Value, name: string, w: Registry, r: Registry)
    requires name in w.records && Comparable(w, r) && Fits(v, Ref(name), w) && EncodeNamed(v, name, w).Encoded?
    ensures v.RecordV? && name in r.records && FieldsComparable(w.records[name].fields, r.records[name].fields)
    ensures var fs := WireOrder(w.records[name].fields);
      && FieldsFit(v, fs, w) && EncodeFields(v, fs, w).Encoded? && |EncodeFields(v, fs, w).bytes| < TWO_32
      && var body := EncodeFields(v, fs, w).bytes; EncodeNamed(v, name, w).bytes == Leb(|body|) + body
    ensures Seen(v, Ref(name), w, r) == SeenRecord(v, w.records[name].fields, r.records[name].fields, w, r)
    ensures Clear(v, Ref(name), w, r) <==>
      FieldsClear(v, WireOrder(w.records[name].fields), r.records[name].fields, w, r)
  {
    hide FieldsComparable, FieldsClear, WireOrder, SeenRecord;
    assert EncodeNamed(v, name, w) == EncodeRecord(v, w.records[name], w);
  }

  lemma ComparableInOrder(wf: seq<Field>, rf: seq<Field>)
    requires FieldsComparable(wf, rf)
    ensures forall f :: f in WireOrder(wf) ==> FieldComparable(f, rf)
  {
    hide FieldComparable;
  }

  lemma {:induction false} RecordReads(v: Value, name: string, w: Registry, r: Registry, raw: Bytes, pos: nat)
    requires Comparable(w, r) && Clear(v, Ref(name), w, r) && Fits(v, Ref(name), w) && EncodeNamed(v, name, w).Encoded?
    requires name in w.records
    requires At(raw, pos, EncodeNamed(v, name, w).bytes) && |raw| < TWO_63
    ensures DecodeNamed(raw, pos, name, r)
         == Ok(Seen(v, Ref(name), w, r), pos + |EncodeNamed(v, name, w).bytes|)
    decreases v, 1
  {
    hide Fits, Clear, FieldsClear, Seen, SeenRecord, Comparable, EncodeNamed, EncodeFields, DecodeRecord, DecodeFields;
    hide FieldComparable, FieldsFit, WireOrder, FillDefaults, Arrived, Leb;
    RecordParts(v, name, w, r);
    var sch, rsch := w.records[name], r.records[name];
    var fs := WireOrder(sch.fields);
    var body := EncodeFields(v, fs, w).bytes;
    ComparableInOrder(sch.fields, rsch.fields);
    FieldsRead(v, fs, rsch, map[], w, r, body, 0);
    SeenIsWhatArrived(v, sch.fields, rsch.fields, w, r);
    RecordTurn(raw, pos, body, rsch, r, Arrived(v, fs, rsch.fields, map[], w, r));
  }

  // ---------------------------------------------------------------- gathered fields, as a map

  lemma {:induction false} ArrivedAt(v: Value, fs: seq<Field>, rf: seq<Field>, got: map<int, Value>,
                                     w: Registry, r: Registry, id: int)
    requires v.RecordV? && DistinctIds(fs)
    ensures var out := Arrived(v, fs, rf, got, w, r);
      if Sent(v, fs, id) && FieldById(rf, id).Some?
      then id in out && out[id] == Seen(v.fields[id], FieldById(fs, id).value.typ, w, r)
      else (id in out <==> id in got) && (id in out ==> out[id] == got[id])
    decreases |fs|
  {
    if fs != [] {
      var f := fs[0];
      var next := if Written(v, f) && FieldById(rf, f.id).Some?
                  then got[f.id := Seen(v.fields[f.id], f.typ, w, r)] else got;
      ArrivedAt(v, fs[1..], rf, next, w, r, id);
      FieldByIdCons(fs, id);
    }
  }

  lemma {:induction false} FieldByIdCons(fs: seq<Field>, id: int)
    requires fs != [] && DistinctIds(fs)
    ensures FieldById(fs, id) == if fs[0].id == id then Some(fs[0]) else FieldById(fs[1..], id)
    ensures fs[0].id == id ==> FieldById(fs[1..], id).None?
  {
    if |fs| > 1 {
      var init := fs[..|fs| - 1];
      assert fs[1..][..|fs| - 2] == init[1..];
      FieldByIdCons(init, id);
    }
  }

  lemma {:induction false} FilledAt(got: map<int, Value>, fs: seq<Field>, id: int)
    requires DistinctIds(fs)
    ensures var out := FillDefaults(got, fs);
      if id in got then id in out && out[id] == got[id]
      else (id in out <==> HasDefault(fs, id)) && (id in out ==> out[id] == FieldById(fs, id).value.default.v)
    decreases |fs|
  {
    if fs != [] {
      var f := fs[0];
      var next := if f.id !in got && f.default.DefaultIs? then got[f.id := f.default.v] else got;
      FilledAt(next, fs[1..], id);
      FieldByIdCons(fs, id);
    }
  }

  /** Which field of an id a record has does not depend on the order of its fields. */
  lemma FieldByIdOrderFree(a: seq<Field>, b: seq<Field>, id: int)
    requires SameFields(a, b) && DistinctIds(a) && DistinctIds(b)
    ensures FieldById(a, id) == FieldById(b, id)
  {
    var f := FieldById(a, id);
    if f.Some? { FieldByIdOf(b, f.value); }
  }

  lemma SeenAt(v: Value, wf: seq<Field>, rf: seq<Field>, w: Registry, r: Registry, id: int)
    requires v.RecordV? && DistinctIds(wf) && DistinctIds(rf)
    ensures var out := FillDefaults(Arrived(v, WireOrder(wf), rf, map[], w, r), rf);
      var want := SeenRecord(v, wf, rf, w, r).fields;
      (id in out <==> id in want) && (id in out ==> out[id] == want[id])
  {
    hide Arrived, FillDefaults, Seen, FieldById, WireOrder;
    var fs := WireOrder(wf);
    WireOrderIsStrict(wf);
    ArrivedAt(v, fs, rf, map[], w, r, id);
    FilledAt(Arrived(v, fs, rf, map[], w, r), rf, id);
    FieldByIdOrderFree(wf, fs, id);
    var g := FieldById(rf, id);
    if g.Some? { assert g.value in rf; }
  }

  lemma SeenIsWhatArrived(v: Value, wf: seq<Field>, rf: seq<Field>, w: Registry, r: Registry)
    requires v.RecordV? && DistinctIds(wf) && DistinctIds(rf)
    ensures RecordV(FillDefaults(Arrived(v, WireOrder(wf), rf, map[], w, r), rf)) == SeenRecord(v, wf, rf, w, r)
  {
    var out := FillDefaults(Arrived(v, WireOrder(wf), rf, map[], w, r), rf);
    var seen := SeenRecord(v, wf, rf, w, r);
    assert seen.RecordV?;
    hide Arrived, FillDefaults, SeenRecord, WireOrder, DistinctIds;
    forall id ensures (id in out <==> id in seen.fields) && (id in out ==> out[id] == seen.fields[id]) {
      SeenAt(v, wf, rf, w, r, id);
    }
    assert out == seen.fields;
  }

  // ---------------------------------------------------------------- readers that lost nothing they need

  lemma CleanIsClear(v: Value, t: Type, w: Registry)
    requires SkipsCleanly(t) && Fits(v, t, w) && EncodeValue(v, t, w).Encoded?
    requires |EncodeValue(v, t, w).bytes| < TWO_63
    ensures LostClear(v, t, w)
  {
    PrimEncoding(v, t, w);
    hide EncodeValue, Fits, SkipsRight;
    CleanSkipsRight(v, t);
  }

  /** Against a reader that can take everything, every value that fits is clear. */
  lemma {:induction false} ReadableIsClear(v: Value, t: Type, w: Registry, r: Registry)
    requires Readable(w, r) && Fits(v, t, w) && EncodeValue(v, t, w).Encoded?
    requires |EncodeValue(v, t, w).bytes| < TWO_63
    ensures Clear(v, t, w, r)
    decreases v, 3, t
  {
    hide Readable, ElementsClear, EntriesClear, FieldsClear, WireOrder;
    match t
    case Nullable(inner) => if !v.NullV? { ReadableIsClear(v, inner, w, r); }
    case Union(branches) => ReadableIsClear(v.member, branches[v.branch], w, r);
    case Prim(_, _) =>
    case ArrayOf(element) => ReadableElements(v.elements, element, w, r);
    case MapOf(key, value) => ReadableEntries(v.entries, key, value, w, r);
    case Ref(name) =>
      if v.RecordV? && name in w.records && name in r.records { ReadableRecord(v, name, w, r); }
  }

  lemma {:induction false} ReadableRecord(v: Value, name: string, w: Registry, r: Registry)
    requires Readable(w, r) && v.RecordV? && name in w.records && name in r.records
    requires Fits(v, Ref(name), w) && EncodeValue(v, Ref(name), w).Encoded?
    ensures FieldsClear(v, WireOrder(w.records[name].fields), r.records[name].fields, w, r)
    decreases v, 2
  {
    hide FieldsClear, FieldReadable, FieldById, Clear, Seen;
    ReadableIsComparable(w, r);
    hide Comparable;
    assert EncodeNamed(v, name, w).Encoded?;
    RecordParts(v, name, w, r);
    ReadableFields(v, WireOrder(w.records[name].fields), r.records[name].fields, w, r);
  }

  lemma {:induction false} ReadableElements(vs: seq<Value>, t: Type, w: Registry, r: Registry)
    requires Readable(w, r) && ElementsFit(vs, t, w) && EncodeElements(vs, t, w).Encoded?
    requires |EncodeElements(vs, t, w).bytes| < TWO_63
    ensures ElementsClear(vs, t, w, r)
    decreases vs, 0
  {
    hide Clear, Readable, Fits, EncodeValue;
    if vs != [] {
      ReadableIsClear(vs[0], t, w, r);
      ReadableElements(vs[1..], t, w, r);
    }
  }

  lemma {:induction false} ReadableEntry(e: Entry, key: Type, value: Type, w: Registry, r: Registry)
    requires Readable(w, r) && EntryFits(e, key, value, w) && EncodeEntry(e, key, value, w).Encoded?
    requires |EncodeEntry(e, key, value, w).bytes| < TWO_63
    ensures EntryClear(e, key, value, w, r)
    decreases e, 0
  {
    hide Clear, Readable, Fits, EncodeValue;
    ReadableIsClear(e.key, key, w, r);
    ReadableIsClear(e.val, value, w, r);
  }

  lemma {:induction false} ReadableEntries(es: seq<Entry>, key: Type, value: Type, w: Registry, r: Registry)
    requires Readable(w, r) && EntriesFit(es, key, value, w) && EncodeEntries(es, key, value, w).Encoded?
    requires |EncodeEntries(es, key, value, w).bytes| < TWO_63
    ensures EntriesClear(es, key, value, w, r)
    decreases es, 0
  {
    hide EntryClear, Readable, EntryFits, EncodeEntry;
    if es != [] {
      ReadableEntry(es[0], key, value, w, r);
      ReadableEntries(es[1..], key, value, w, r);
    }
  }

  lemma {:induction false} ReadableFields(v: Value, fs: seq<Field>, rf: seq<Field>, w: Registry, r: Registry)
    requires Readable(w, r) && v.RecordV? && (forall f :: f in fs ==> FieldReadable(f, rf))
    requires FieldsFit(v, fs, w) && EncodeFields(v, fs, w).Encoded? && |EncodeFields(v, fs, w).bytes| < TWO_63
    ensures FieldsClear(v, fs, rf, w, r)
    decreases v, 1, |fs|
  {
    hide Clear, Readable, FieldById, FieldsFit, Fits, EncodeValue, EncodeFields, Seen, Arrived, FieldHeader, LostClear;
    if fs != [] {
      FirstField(v, fs, rf, map[], w, r);
      assert FieldReadable(fs[0], rf);
      if Written(v, fs[0]) {
        var cur, t := v.fields[fs[0].id], fs[0].typ;
        if FieldById(rf, fs[0].id).Some? { ReadableIsClear(cur, t, w, r); } else { CleanIsClear(cur, t, w); }
      }
      ReadableFields(v, fs[1..], rf, w, r);
    }
  }

  lemma ReadableIsComparable(w: Registry, r: Registry)
    requires Readable(w, r)
    ensures Comparable(w, r)
  {
    hide FieldById;
  }

  /** What one registry wrote another that can take everything reads, at any place where it stands. */
  lemma ReadsWhatWasWritten(v: Value, t: Type, w: Registry, r: Registry, raw: Bytes, pos: nat)
    requires Readable(w, r) && Fits(v, t, w) && EncodeValue(v, t, w).Encoded?
    requires At(raw, pos, EncodeValue(v, t, w).bytes) && pos <= |raw| < TWO_63
    ensures DecodeValue(raw, pos, t, r) == Ok(Seen(v, t, w, r), pos + |EncodeValue(v, t, w).bytes|)
  {
    assert |EncodeValue(v, t, w).bytes| <= |raw|;
    hide *;
    ReadableIsComparable(w, r);
    ReadableIsClear(v, t, w, r);
    ReadsWhatIsClear(v, t, w, r, raw, pos);
  }
}
