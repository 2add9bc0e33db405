/** Reading with a registry that lost fields (go/kdb/codec/wirecodec.go, decodeRecord and skipTagged): a
    value is refused if the first lost field on the wire that is not skipped right, however deep, is of a kind
    that skipTagged does not know. */
module Evolution {
  import opened Words
  import opened Varint
  import opened Schema
  import opened Encode
  import opened Decode
  import opened Primitives
  import opened RoundTrip

  // ---------------------------------------------------------------- the conditions

  /** The kinds skipTagged does not know. */
  predicate Refused(k: Kind) { k in {KNull, KArray, KMap, KRecord, KEnum, KUnion, KFixed} }

  /** Of the lost fields on the wire in `v`, in the order in which they stand there, all are skipped right up to
      one of a kind that is refused. */
  ghost predicate Halts(v: Value, t: Type, w: Registry, r: Registry)
    decreases v, 3, t
  {
    match t
    case Nullable(inner) => !v.NullV? && Halts(v, inner, w, r)
    case Union(branches) => v.UnionV? && 0 <= v.branch < |branches| && Halts(v.member, branches[v.branch], w, r)
    case Prim(_, _) => false
    case ArrayOf(element) => v.ArrayV? && ElementsHalt(v.elements, element, w, r)
    case MapOf(key, value) => v.MapV? && EntriesHalt(v.entries, key, value, w, r)
    case Ref(name) =>
      v.RecordV? && name in w.records && name in r.records &&
      FieldsHalt(v, WireOrder(w.records[name].fields), r.records[name].fields, w, r)
  }

  ghost predicate ElementsHalt(vs: seq<Value>, t: Type, w: Registry, r: Registry)
    decreases vs, 0
  {
    vs != [] && (Halts(vs[0], t, w, r) || (Clear(vs[0], t, w, r) && ElementsHalt(vs[1..], t, w, r)))
  }

  ghost predicate EntryHalts(e: Entry, key: Type, value: Type, w: Registry, r: Registry)
    decreases e, 0
  {
    Halts(e.key, key, w, r) || (Clear(e.key, key, w, r) && Halts(e.val, value, w, r))
  }

  ghost predicate EntriesHalt(es: seq<Entry>, key: Type, value: Type, w: Registry, r: Registry)
    decreases es, 0
  {
    es != [] &&
    (EntryHalts(es[0], key, value, w, r) ||
     (EntryClear(es[0], key, value, w, r) && EntriesHalt(es[1..], key, value, w, r)))
  }

  ghost predicate FieldsHalt(v: Value, fs: seq<Field>, rf: seq<Field>, w: Registry, r: Registry)
    requires v.RecordV?
    decreases v, 1, |fs|
  {
    fs != [] &&
    if Written(v, fs[0]) then
      FieldHalts(v, fs[0], rf, w, r) || (FieldClear(v, fs[0], rf, w, r) && FieldsHalt(v, fs[1..], rf, w, r))
    else FieldsHalt(v, fs[1..], rf, w, r)
  }

  ghost predicate FieldHalts(v: Value, f: Field, rf: seq<Field>, w: Registry, r: Registry)
    requires v.RecordV? && Written(v, f)
    decreases v, 0
  {
    if FieldById(rf, f.id).Some? then Halts(v.fields[f.id], f.typ, w, r) else Refused(PhysicalTag(f.typ, w))
  }

  // ---------------------------------------------------------------- how an error travels

  lemma ArrayFails(raw: Bytes, pos: nat, n: uint32, p: nat, t: Type, r: Registry)
    requires pos <= |raw| && ReadLeb(raw, pos) == Ok(n, p) && DecodeElements(raw, p, n, t, r) == Err
    ensures DecodeValue(raw, pos, ArrayOf(t), r) == Err
  {
    hide ReadLeb, DecodeElements;
  }

  lemma ElementFails(raw: Bytes, pos: nat, n: nat, t: Type, r: Registry)
    requires pos <= |raw|
    requires DecodeValue(raw, pos, t, r) == Err ||
      (DecodeValue(raw, pos, t, r).Ok? && DecodeElements(raw, DecodeValue(raw, pos, t, r).pos, n, t, r) == Err)
    ensures DecodeElements(raw, pos, n + 1, t, r) == Err
  {
    hide DecodeValue;
  }

  lemma MapFails(raw: Bytes, pos: nat, n: uint32, p: nat, key: Type, value: Type, r: Registry)
    requires pos <= |raw| && ReadLeb(raw, pos) == Ok(n, p) && DecodeEntries(raw, p, n, key, value, r) == Err
    ensures DecodeValue(raw, pos, MapOf(key, value), r) == Err
  {
    hide ReadLeb, DecodeEntries;
  }

  /** The key and the value at `pos`, or an error. */
  ghost predicate EntryErr(raw: Bytes, pos: nat, key: Type, value: Type, r: Registry)
    requires pos <= |raw|
  {
    var k := DecodeValue(raw, pos, key, r);
    k == Err || (k.Ok? && DecodeValue(raw, k.pos, value, r) == Err)
  }

  /** The entry at `pos` is read, and one of the `n` after it is not. */
  ghost predicate LaterErr(raw: Bytes, pos: nat, n: nat, key: Type, value: Type, r: Registry)
    requires pos <= |raw|
  {
    var k := DecodeValue(raw, pos, key, r);
    k.Ok? &&
    var x := DecodeValue(raw, k.pos, value, r);
    x.Ok? && DecodeEntries(raw, x.pos, n, key, value, r) == Err
  }

  lemma EntryFails(raw: Bytes, pos: nat, n: nat, key: Type, value: Type, r: Registry)
    requires pos <= |raw|
    requires EntryErr(raw, pos, key, value, r) || LaterErr(raw, pos, n, key, value, r)
    ensures DecodeEntries(raw, pos, n + 1, key, value, r) == Err
  {
    hide DecodeValue;
  }

  lemma FailsLater(raw: Bytes, pos: nat, n: nat, key: Type, value: Type, r: Registry)
    requires pos <= |raw| && DecodeValue(raw, pos, key, r).Ok?
    requires DecodeValue(raw, DecodeValue(raw, pos, key, r).pos, value, r).Ok?
    requires var p := DecodeValue(raw, DecodeValue(raw, pos, key, r).pos, value, r).pos;
             DecodeEntries(raw, p, n, key, value, r) == Err
    ensures LaterErr(raw, pos, n, key, value, r)
  {
    hide DecodeValue, DecodeEntries;
  }

  lemma RecordFails(raw: Bytes, pos: nat, body: Bytes, sch: RecordSchema, r: Registry)
    requires |body| < TWO_32 && At(raw, pos, Leb(|body|) + body) && |raw| < TWO_63
    requires DecodeFields(body, 0, map[], sch, r) == Err
    ensures DecodeRecord(raw, pos, sch, r) == Err
  {
    hide DecodeFields, FillDefaults, ReadLeb, Leb, RawN, At;
    AtSplit(raw, pos, Leb(|body|), body);
    LebRoundTrip(raw, pos, |body|);
    RawNAt(raw, pos + |Leb(|body|)|, body);
  }

  lemma KnownFails(slab: Bytes, pos: nat, got: map<int, Value>, sch: RecordSchema, r: Registry, id: int, p: nat,
                   f: Field)
    requires pos < |slab| && 0 <= id < TWO_32 && ReadLeb(slab, pos) == Ok(id, p) && p < |slab|
    requires FieldById(sch.fields, id) == Some(f) && KindOf(slab[p]) == Some(PhysicalTag(f.typ, r))
    requires DecodeValue(slab, p + 1, f.typ, r) == Err
    ensures DecodeFields(slab, pos, got, sch, r) == Err
  {
    hide DecodeValue, PhysicalTag, KindOf, ReadLeb, FieldById;
  }

  lemma UnknownFails(slab: Bytes, pos: nat, got: map<int, Value>, sch: RecordSchema, r: Registry, id: int, p: nat,
                     k: Kind)
    requires pos < |slab| && 0 <= id < TWO_32 && ReadLeb(slab, pos) == Ok(id, p) && p < |slab|
    requires FieldById(sch.fields, id) == None && KindOf(slab[p]) == Some(k) && Refused(k)
    ensures DecodeFields(slab, pos, got, sch, r) == Err
  {
    hide DecodeValue, PhysicalTag, KindOf, ReadLeb, FieldById;
  }

  // ---------------------------------------------------------------- the refusals

  /** A value that halts is refused, wherever its encoding stands. */
  lemma {:induction false} StopsWhereItHalts(v: Value, t: Type, w: Registry, r: Registry, raw: Bytes, pos: nat)
    requires Comparable(w, r) && Halts(v, t, w, r) && Fits(v, t, w) && EncodeValue(v, t, w).Encoded?
    requires At(raw, pos, EncodeValue(v, t, w).bytes) && pos <= |raw| < TWO_63
    ensures DecodeValue(raw, pos, t, r) == Err
    decreases v, 3, t
  {
    match t
    case Nullable(inner) => NullableStops(v, inner, w, r, raw, pos);
    case Union(branches) => UnionStops(v, branches, w, r, raw, pos);
    case Prim(_, _) =>
    case ArrayOf(element) => ArrayStops(v, element, w, r, raw, pos);
    case MapOf(key, value) => MapStops(v, key, value, w, r, raw, pos);
    case Ref(name) => RecordStops(v, name, w, r, raw, pos);
  }

  lemma {:induction false} NullableStops(v: Value, inner: Type, w: Registry, r: Registry, raw: Bytes, pos: nat)
    requires Comparable(w, r) && Halts(v, Nullable(inner), w, r)
    requires Fits(v, Nullable(inner), w) && EncodeValue(v, Nullable(inner), w).Encoded?
    requires At(raw, pos, EncodeValue(v, Nullable(inner), w).bytes) && |raw| < TWO_63
    ensures DecodeValue(raw, pos, Nullable(inner), r) == Err
    decreases v, 3, Nullable(inner), 0
  {
    hide Comparable;
    AtHead(raw, pos, 1, EncodeValue(v, inner, w).bytes);
    StopsWhereItHalts(v, inner, w, r, raw, pos + 1);
  }

  lemma {:induction false} UnionStops(v: Value, branches: seq<Type>, w: Registry, r: Registry, raw: Bytes, pos: nat)
    requires Comparable(w, r) && Halts(v, Union(branches), w, r)
    requires Fits(v, Union(branches), w) && EncodeValue(v, Union(branches), w).Encoded?
    requires At(raw, pos, EncodeValue(v, Union(branches), w).bytes) && |raw| < TWO_63
    ensures DecodeValue(raw, pos, Union(branches), r) == Err
    decreases v, 2
  {
    hide Comparable;
    AtHead(raw, pos, v.branch, EncodeValue(v.member, branches[v.branch], w).bytes);
    StopsWhereItHalts(v.member, branches[v.branch], w, r, raw, pos + 1);
  }

  lemma {:induction false} ArrayStops(v: Value, t: Type, w: Registry, r: Registry, raw: Bytes, pos: nat)
    requires Comparable(w, r) && Halts(v, ArrayOf(t), w, r)
    requires Fits(v, ArrayOf(t), w) && EncodeValue(v, ArrayOf(t), w).Encoded?
    requires At(raw, pos, EncodeValue(v, ArrayOf(t), w).bytes) && pos <= |raw| < TWO_63
    ensures DecodeValue(raw, pos, ArrayOf(t), r) == Err
    decreases v, 2
  {
    hide DecodeValue, DecodeElements, EncodeValue, EncodeElements, Fits, ElementsFit, Clear, ElementsClear, Comparable;
    hide Seen, SeenElements, Leb, ReadLeb, At, ElementsHalt;
    ArrayParts(v, t, w, r);
    var n := |v.elements|;
    AtSplit(raw, pos, Leb(n), EncodeElements(v.elements, t, w).bytes);
    LebRoundTrip(raw, pos, n);
    ElementsStop(v.elements, t, w, r, raw, pos + |Leb(n)|);
    ArrayFails(raw, pos, n, pos + |Leb(n)|, t, r);
  }

  lemma {:induction false} ElementsStop(vs: seq<Value>, t: Type, w: Registry, r: Registry, raw: Bytes, pos: nat)
    requires Comparable(w, r) && ElementsHalt(vs, t, w, r) && ElementsFit(vs, t, w)
    requires EncodeElements(vs, t, w).Encoded?
    requires At(raw, pos, EncodeElements(vs, t, w).bytes) && pos <= |raw| < TWO_63
    ensures DecodeElements(raw, pos, |vs|, t, r) == Err
    decreases vs, 0
  {
    hide *;
    FirstHalt(vs, t, w, r);
    FirstElement(vs, t, w, r);
    var a, b := EncodeValue(vs[0], t, w).bytes, EncodeElements(vs[1..], t, w).bytes;
    AtSplit(raw, pos, a, b);
    if Halts(vs[0], t, w, r) {
      StopsWhereItHalts(vs[0], t, w, r, raw, pos);
    } else {
      ReadsWhatIsClear(vs[0], t, w, r, raw, pos);
      ElementsStop(vs[1..], t, w, r, raw, pos + |a|);
    }
    ElementFails(raw, pos, |vs| - 1, t, r);
  }

  lemma {:induction false} MapStops(v: Value, key: Type, value: Type, w: Registry, r: Registry, raw: Bytes, pos: nat)
    requires Comparable(w, r) && Halts(v, MapOf(key, value), w, r)
    requires Fits(v, MapOf(key, value), w) && EncodeValue(v, MapOf(key, value), w).Encoded?
    requires At(raw, pos, EncodeValue(v, MapOf(key, value), w).bytes) && pos <= |raw| < TWO_63
    ensures DecodeValue(raw, pos, MapOf(key, value), r) == Err
    decreases v, 2
  {
    hide DecodeValue, DecodeEntries, EncodeValue, EncodeEntries, Fits, EntriesFit, Clear, EntriesClear, Comparable;
    hide Seen, SeenEntries, Leb, ReadLeb, At, EntriesHalt;
    MapParts(v, key, value, w, r);
    var n := |v.entries|;
    AtSplit(raw, pos, Leb(n), EncodeEntries(v.entries, key, value, w).bytes);
    LebRoundTrip(raw, pos, n);
    EntriesStop(v.entries, key, value, w, r, raw, pos + |Leb(n)|);
    MapFails(raw, pos, n, pos + |Leb(n)|, key, value, r);
  }

  lemma {:induction false} EntryStops(e: Entry, key: Type, value: Type, w: Registry, r: Registry, raw: Bytes, pos: nat)
    requires Comparable(w, r) && EntryHalts(e, key, value, w, r)
    requires EntryFits(e, key, value, w) && EncodeEntry(e, key, value, w).Encoded?
    requires At(raw, pos, EncodeEntry(e, key, value, w).bytes) && pos <= |raw| < TWO_63
    ensures EntryErr(raw, pos, key, value, r)
    decreases e, 0
  {
    hide Fits, Comparable, Clear, Halts, Seen, DecodeValue, EncodeValue;
    var a, b := EncodeValue(e.key, key, w).bytes, EncodeValue(e.val, value, w).bytes;
    AtSplit(raw, pos, a, b);
    if Halts(e.key, key, w, r) {
      StopsWhereItHalts(e.key, key, w, r, raw, pos);
    } else {
      ReadsWhatIsClear(e.key, key, w, r, raw, pos);
      StopsWhereItHalts(e.val, value, w, r, raw, pos + |a|);
    }
  }

  lemma {:induction false} EntriesStop(es: seq<Entry>, key: Type, value: Type, w: Registry, r: Registry, raw: Bytes,
                                       pos: nat)
    requires Comparable(w, r) && EntriesHalt(es, key, value, w, r)
    requires EntriesFit(es, key, value, w) && EncodeEntries(es, key, value, w).Encoded?
    requires At(raw, pos, EncodeEntries(es, key, value, w).bytes) && pos <= |raw| < TWO_63
    ensures DecodeEntries(raw, pos, |es|, key, value, r) == Err
    decreases es, 0
  {
    hide *;
    FirstEntryHalt(es, key, value, w, r);
    FirstEntry(es, key, value, w, r);
    var a, b := EncodeEntry(es[0], key, value, w).bytes, EncodeEntries(es[1..], key, value, w).bytes;
    AtSplit(raw, pos, a, b);
    if EntryHalts(es[0], key, value, w, r) {
      EntryStops(es[0], key, value, w, r, raw, pos);
    } else {
      EntryRead(es[0], key, value, w, r, raw, pos);
      EntriesStop(es[1..], key, value, w, r, raw, pos + |a|);
      FailsLater(raw, pos, |es| - 1, key, value, r);
    }
    EntryFails(raw, pos, |es| - 1, key, value, r);
  }

  /** A field on the wire that the reader has lost and cannot skip, or that it knows and must refuse within. */
  lemma {:induction false} FieldStops(v: Value, f: Field, sch: RecordSchema, got: map<int, Value>,
                                      w: Registry, r: Registry, slab: Bytes, pos: nat)
    requires Comparable(w, r) && v.RecordV? && Written(v, f) && FieldHalts(v, f, sch.fields, w, r)
    requires FieldComparable(f, sch.fields)
    requires Fits(v.fields[f.id], f.typ, w) && EncodeField(v, f, w).Encoded?
    requires At(slab, pos, EncodeField(v, f, w).bytes) && |slab| < TWO_63
    ensures DecodeFields(slab, pos, got, sch, r) == Err
    decreases v, 0, 0
  {
    hide Fits, Clear, EncodeValue, DecodeValue, DecodeFields, Comparable, PhysicalTag, KindOf, ReadLeb, Leb, FieldById;
    hide Tag, Refused, Halts;
    var cur := v.fields[f.id];
    var k := PhysicalTag(f.typ, w);
    var p := pos + |Leb(f.id)|;
    HeaderReads(slab, pos, f.id, k, EncodeValue(cur, f.typ, w).bytes);
    SameTag(f.typ, w, r);
    if FieldById(sch.fields, f.id).Some? {
      StopsWhereItHalts(cur, f.typ, w, r, slab, p + 1);
      KnownFails(slab, pos, got, sch, r, f.id, p, FieldById(sch.fields, f.id).value);
    } else {
      UnknownFails(slab, pos, got, sch, r, f.id, p, k);
    }
  }

  lemma {:induction false} FieldsStop(v: Value, fs: seq<Field>, sch: RecordSchema, got: map<int, Value>,
                                      w: Registry, r: Registry, slab: Bytes, pos: nat)
    requires Comparable(w, r) && v.RecordV? && FieldsFit(v, fs, w) && FieldsHalt(v, fs, sch.fields, w, r)
    requires forall f :: f in fs ==> FieldComparable(f, sch.fields)
    requires EncodeFields(v, fs, w).Encoded? && At(slab, pos, EncodeFields(v, fs, w).bytes) && |slab| < TWO_63
    ensures pos <= |slab| && DecodeFields(slab, pos, got, sch, r) == Err
    decreases v, 0, 1, |fs|
  {
    hide *;
    FirstFieldHalt(v, fs, sch.fields, w, r);
    var f := fs[0];
    FirstField(v, fs, sch.fields, got, w, r);
    var a, b := EncodeField(v, f, w).bytes, EncodeFields(v, fs[1..], w).bytes;
    AtSplit(slab, pos, a, b);
    if !Written(v, f) {
      FieldsStop(v, fs[1..], sch, got, w, r, slab, pos + |a|);
    } else if FieldHalts(v, f, sch.fields, w, r) {
      FieldStops(v, f, sch, got, w, r, slab, pos);
    } else {
      FieldReads(v, f, sch, got, w, r, slab, pos);
      var next := if FieldById(sch.fields, f.id).Some? then got[f.id := Seen(v.fields[f.id], f.typ, w, r)] else got;
      FieldsStop(v, fs[1..], sch, next, w, r, slab, pos + |a|);
    }
  }

  lemma {:induction false} RecordStops(v: Value, name: string, w: Registry, r: Registry, raw: Bytes, pos: nat)
    requires Comparable(w, r) && Halts(v, Ref(name), w, r) && Fits(v, Ref(name), w)
    requires EncodeValue(v, Ref(name), w).Encoded?
    requires At(raw, pos, EncodeValue(v, Ref(name), w).bytes) && |raw| < TWO_63
    ensures DecodeValue(raw, pos, Ref(name), r) == Err
    decreases v, 2
  {
    NamedUnfolds(v, name, w, r, raw, pos);
    hide *;
    RecordParts(v, name, w, r);
    var sch, rsch := w.records[name], r.records[name];
    var fs := WireOrder(sch.fields);
    var body := EncodeFields(v, fs, w).bytes;
    ComparableInOrder(sch.fields, rsch.fields);
    AtAll(body);
    FieldsStop(v, fs, rsch, map[], w, r, body, 0);
    RecordFails(raw, pos, body, rsch, r);
  }

  lemma AtAll(body: Bytes)
    ensures At(body, 0, body)
  {}

  lemma NamedUnfolds(v: Value, name: string, w: Registry, r: Registry, raw: Bytes, pos: nat)
    requires Comparable(w, r) && Halts(v, Ref(name), w, r) && pos <= |raw|
    ensures name in w.records && name in r.records && v.RecordV?
    ensures FieldsHalt(v, WireOrder(w.records[name].fields), r.records[name].fields, w, r)
    ensures EncodeValue(v, Ref(name), w) == EncodeNamed(v, name, w)
    ensures DecodeValue(raw, pos, Ref(name), r) == DecodeRecord(raw, pos, r.records[name], r)
  {
    hide FieldsHalt, EncodeNamed, DecodeRecord, FieldsComparable;
  }

  lemma FirstHalt(vs: seq<Value>, t: Type, w: Registry, r: Registry)
    requires ElementsHalt(vs, t, w, r)
    ensures vs != [] && (Halts(vs[0], t, w, r) || (Clear(vs[0], t, w, r) && ElementsHalt(vs[1..], t, w, r)))
  {
    hide Halts, Clear;
  }

  lemma FirstEntryHalt(es: seq<Entry>, key: Type, value: Type, w: Registry, r: Registry)
    requires EntriesHalt(es, key, value, w, r)
    ensures es != []
    ensures EntryHalts(es[0], key, value, w, r) ||
            (EntryClear(es[0], key, value, w, r) && EntriesHalt(es[1..], key, value, w, r))
  {
    hide EntryHalts, EntryClear;
  }

  lemma FirstFieldHalt(v: Value, fs: seq<Field>, rf: seq<Field>, w: Registry, r: Registry)
    requires v.RecordV? && FieldsHalt(v, fs, rf, w, r)
    ensures fs != []
    ensures Written(v, fs[0]) ==>
      FieldHalts(v, fs[0], rf, w, r) || (FieldClear(v, fs[0], rf, w, r) && FieldsHalt(v, fs[1..], rf, w, r))
    ensures !Written(v, fs[0]) ==> FieldsHalt(v, fs[1..], rf, w, r)
  {
    hide FieldHalts, FieldClear, Written;
  }

  // ---------------------------------------------------------------- registries that decide

  /** Every lost field is one that is always skipped right, or one that is refused. */
  ghost predicate Decisive(w: Registry, r: Registry) {
    forall n :: n in w.records && n in r.records ==> AllDecided(w.records[n].fields, r.records[n].fields, w)
  }

  ghost predicate AllDecided(wf: seq<Field>, rf: seq<Field>, reg: Registry) {
    forall f :: f in wf ==> Decided(f, rf, reg)
  }

  ghost predicate Decided(f: Field, rf: seq<Field>, reg: Registry) {
    FieldById(rf, f.id).Some? || SkipsCleanly(f.typ) || Refused(PhysicalTag(f.typ, reg))
  }

  /** Between such registries a value that is not clear halts. */
  lemma {:induction false} ClearOrHalts(v: Value, t: Type, w: Registry, r: Registry)
    requires Comparable(w, r) && Decisive(w, r) && Fits(v, t, w) && EncodeValue(v, t, w).Encoded?
    requires |EncodeValue(v, t, w).bytes| < TWO_63
    ensures Clear(v, t, w, r) || Halts(v, t, w, r)
    decreases v, 3, t
  {
    hide Comparable, Decisive, ElementsClear, EntriesClear, FieldsClear, WireOrder;
    hide ElementsHalt, EntriesHalt, FieldsHalt;
    match t
    case Nullable(inner) => if !v.NullV? { ClearOrHalts(v, inner, w, r); }
    case Union(branches) => ClearOrHalts(v.member, branches[v.branch], w, r);
    case Prim(_, _) =>
    case ArrayOf(element) => ElementsDecided(v.elements, element, w, r);
    case MapOf(key, value) => EntriesDecided(v.entries, key, value, w, r);
    case Ref(name) =>
      if v.RecordV? && name in w.records && name in r.records { RecordDecided(v, name, w, r); }
  }

  lemma {:induction false} RecordDecided(v: Value, name: string, w: Registry, r: Registry)
    requires Comparable(w, r) && Decisive(w, r) && v.RecordV? && name in w.records && name in r.records
    requires Fits(v, Ref(name), w) && EncodeValue(v, Ref(name), w).Encoded?
    ensures var fs, rf := WireOrder(w.records[name].fields), r.records[name].fields;
      FieldsClear(v, fs, rf, w, r) || FieldsHalt(v, fs, rf, w, r)
    decreases v, 2
  {
    hide FieldsClear, FieldsHalt, Clear, Halts, Seen, Comparable, Decided;
    assert EncodeNamed(v, name, w).Encoded?;
    RecordParts(v, name, w, r);
    FieldsAllDecided(v, WireOrder(w.records[name].fields), r.records[name].fields, w, r);
  }

  lemma {:induction false} ElementsDecided(vs: seq<Value>, t: Type, w: Registry, r: Registry)
    requires Comparable(w, r) && Decisive(w, r) && ElementsFit(vs, t, w) && EncodeElements(vs, t, w).Encoded?
    requires |EncodeElements(vs, t, w).bytes| < TWO_63
    ensures ElementsClear(vs, t, w, r) || ElementsHalt(vs, t, w, r)
    decreases vs, 0
  {
    hide Clear, Halts, Comparable, Decisive, Fits, EncodeValue;
    if vs != [] {
      ClearOrHalts(vs[0], t, w, r);
      ElementsDecided(vs[1..], t, w, r);
    }
  }

  lemma {:induction false} EntryDecided(e: Entry, key: Type, value: Type, w: Registry, r: Registry)
    requires Comparable(w, r) && Decisive(w, r) && EntryFits(e, key, value, w) && EncodeEntry(e, key, value, w).Encoded?
    requires |EncodeEntry(e, key, value, w).bytes| < TWO_63
    ensures EntryClear(e, key, value, w, r) || EntryHalts(e, key, value, w, r)
    decreases e, 0
  {
    hide Clear, Halts, Comparable, Decisive, Fits, EncodeValue;
    ClearOrHalts(e.key, key, w, r);
    ClearOrHalts(e.val, value, w, r);
  }

  lemma {:induction false} EntriesDecided(es: seq<Entry>, key: Type, value: Type, w: Registry, r: Registry)
    requires Comparable(w, r) && Decisive(w, r) && EntriesFit(es, key, value, w)
    requires EncodeEntries(es, key, value, w).Encoded? && |EncodeEntries(es, key, value, w).bytes| < TWO_63
    ensures EntriesClear(es, key, value, w, r) || EntriesHalt(es, key, value, w, r)
    decreases es, 0
  {
    hide EntryClear, EntryHalts, Comparable, Decisive, EntryFits, EncodeEntry;
    if es != [] {
      EntryDecided(es[0], key, value, w, r);
      EntriesDecided(es[1..], key, value, w, r);
    }
  }

  lemma {:induction false} FieldsAllDecided(v: Value, fs: seq<Field>, rf: seq<Field>, w: Registry, r: Registry)
    requires Comparable(w, r) && Decisive(w, r) && v.RecordV? && (forall f :: f in fs ==> Decided(f, rf, w))
    requires FieldsFit(v, fs, w) && EncodeFields(v, fs, w).Encoded? && |EncodeFields(v, fs, w).bytes| < TWO_63
    ensures FieldsClear(v, fs, rf, w, r) || FieldsHalt(v, fs, rf, w, r)
    decreases v, 1, |fs|
  {
    hide Clear, Halts, Comparable, Decisive, FieldById, FieldsFit, Fits, EncodeValue, EncodeFields, Seen, Arrived;
    hide FieldHeader, LostClear, Refused, PhysicalTag, SkipsCleanly;
    if fs != [] {
      FirstField(v, fs, rf, map[], w, r);
      assert Decided(fs[0], rf, w);
      if Written(v, fs[0]) {
        var cur, t := v.fields[fs[0].id], fs[0].typ;
        if FieldById(rf, fs[0].id).Some? {
          ClearOrHalts(cur, t, w, r);
        } else if SkipsCleanly(t) {
          CleanIsClear(cur, t, w);
        }
      }
      FieldsAllDecided(v, fs[1..], rf, w, r);
    }
  }
}
