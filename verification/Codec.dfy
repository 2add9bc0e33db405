/** The promises of the codec as a whole: EncodeBytes, DecodeBytes and Roundtrip
    (go/kdb/codec/value.go) over the encoder and decoder. */
module Codec {
  import opened Words
  import opened Varint
  import opened Schema
  import opened Encode
  import opened Typing
  import opened Decode
  import opened Primitives
  import opened RoundTrip
  import opened Evolution

  // ---------------------------------------------------------------- one registry

  /** Field ids are apart and fit the wire, and a fixed type annotated as a UUID is sixteen bytes. */
  ghost predicate WellFormed(reg: Registry) {
    && (forall n :: n in reg.fixeds && reg.fixeds[n].logical == LUuid ==> reg.fixeds[n].size == 16)
    && forall n :: n in reg.records ==>
         && DistinctIds(reg.records[n].fields)
         && forall f :: f in reg.records[n].fields ==> 0 <= f.id < TWO_32
  }

  lemma WellFormedIsReadable(reg: Registry)
    requires WellFormed(reg)
    ensures Readable(reg, reg)
  {
    forall n | n in reg.records ensures FieldsReadable(reg.records[n].fields, reg.records[n].fields) {
      var fs := reg.records[n].fields;
      forall f | f in fs ensures FieldReadable(f, fs) { FieldByIdOf(fs, f); }
    }
  }

  /** Whatever follows an encoding, decoding yields the value, with its defaults, and consumes exactly
      the encoding. */
  lemma SelfDelimiting(v: Value, t: Type, reg: Registry, enc: Bytes, suffix: Bytes)
    requires WellFormed(reg) && Fits(v, t, reg) && EncodeValue(v, t, reg) == Encoded(enc)
    requires |enc + suffix| < TWO_63
    ensures DecodeValue(enc + suffix, 0, t, reg) == Ok(Seen(v, t, reg, reg), |enc|)
  {
    hide *;
    WellFormedIsReadable(reg);
    assert At(enc + suffix, 0, enc) by { AtFront(enc, suffix); }
    ReadsWhatWasWritten(v, t, reg, reg, enc + suffix, 0);
  }

  lemma AtFront(enc: Bytes, suffix: Bytes)
    ensures At(enc + suffix, 0, enc)
  {}

  lemma WholeInput(v: Value, t: Type, reg: Registry, enc: Bytes)
    requires WellFormed(reg) && Fits(v, t, reg) && EncodeValue(v, t, reg) == Encoded(enc) && |enc| < TWO_63
    ensures WireDecode(enc, t, reg) == Ok(Seen(v, t, reg, reg), |enc|)
  {
    SelfDelimiting(v, t, reg, enc, []);
    hide EncodeValue, DecodeValue, Fits, Seen, WellFormed;
    assert enc + [] == enc;
  }

  /** DecodeBytes of EncodeBytes: every value of the type that fits is encoded, and decoding gives it back. */
  lemma DecodeInvertsEncode(v: Value, t: Type, reg: Registry)
    requires WellFormed(reg) && Typed(v, t, reg) && Fits(v, t, reg)
    ensures EncodeValue(v, t, reg).Encoded?
    ensures var enc := EncodeValue(v, t, reg).bytes;
      |enc| < TWO_63 ==> WireDecode(enc, t, reg) == Ok(Seen(v, t, reg, reg), |enc|)
  {
    hide *;
    EncodesIffTyped(v, t, reg);
    var enc := EncodeValue(v, t, reg).bytes;
    if |enc| < TWO_63 { WholeInput(v, t, reg, enc); }
  }

  /** No encoding is a prefix of the encoding of a value that reads differently. */
  lemma PrefixFree(v: Value, v': Value, t: Type, reg: Registry, enc: Bytes, enc': Bytes)
    requires WellFormed(reg) && Fits(v, t, reg) && Fits(v', t, reg)
    requires EncodeValue(v, t, reg) == Encoded(enc) && EncodeValue(v', t, reg) == Encoded(enc')
    requires enc <= enc' && |enc'| < TWO_63
    ensures enc == enc' && Seen(v, t, reg, reg) == Seen(v', t, reg, reg)
  {
    hide EncodeValue, DecodeValue, Fits, Seen, WellFormed;
    var rest := enc'[|enc|..];
    assert enc' == enc + rest == enc' + [];
    SelfDelimiting(v, t, reg, enc, rest);
    SelfDelimiting(v', t, reg, enc', []);
  }

  // ---------------------------------------------------------------- exact round trips

  /** A value already in the form the decoder produces. */
  ghost predicate Canonical(v: Value, t: Type, reg: Registry)
    decreases v, 3, t
  {
    match t
    case Nullable(inner) => v.NullV? || Canonical(v, inner, reg)
    case Union(branches) => v.UnionV? && 0 <= v.branch < |branches| && Canonical(v.member, branches[v.branch], reg)
    case Prim(_, l) => Normal(v, l) == v
    case ArrayOf(element) => v.ArrayV? && ElementsCanonical(v.elements, element, reg)
    case MapOf(key, value) => v.MapV? && EntriesCanonical(v.entries, key, value, reg)
    case Ref(name) =>
      match Resolve(reg, name)
      case Some(IsRecord(sch)) => RecordCanonical(v, sch, reg)
      case Some(IsEnum(symbols)) => v.EnumV? && 0 <= v.ordinal < |symbols| && v.symbol == symbols[v.ordinal]
      case Some(IsFixed(f)) => f.logical != LUuid
      case None => true
  }

  /** Exactly the fields that are sent or have a default, the sent ones canonical. */
  ghost predicate RecordCanonical(v: Value, sch: RecordSchema, reg: Registry)
    decreases v, 1
  {
    && v.RecordV?
    && (forall id :: id in v.fields <==>
          FieldById(sch.fields, id).Some? && (Sent(v, sch.fields, id) || HasDefault(sch.fields, id)))
    && (forall id :: id in v.fields && Sent(v, sch.fields, id) ==>
          Canonical(v.fields[id], FieldById(sch.fields, id).value.typ, reg))
  }

  ghost predicate ElementsCanonical(vs: seq<Value>, t: Type, reg: Registry)
    decreases vs, 0
  {
    vs == [] || (Canonical(vs[0], t, reg) && ElementsCanonical(vs[1..], t, reg))
  }

  ghost predicate EntriesCanonical(es: seq<Entry>, key: Type, value: Type, reg: Registry)
    decreases es, 0
  {
    es == [] || (EntryCanonical(es[0], key, value, reg) && EntriesCanonical(es[1..], key, value, reg))
  }

  ghost predicate EntryCanonical(e: Entry, key: Type, value: Type, reg: Registry)
    decreases e, 0
  {
    Canonical(e.key, key, reg) && Canonical(e.val, value, reg)
  }

  /** Such a value is seen as itself. */
  lemma {:induction false} CanonicalIsSeenAsIs(v: Value, t: Type, reg: Registry)
    requires Canonical(v, t, reg)
    ensures Seen(v, t, reg, reg) == v
    decreases v, 3, t
  {
    match t
    case Nullable(inner) => if !v.NullV? { CanonicalIsSeenAsIs(v, inner, reg); }
    case Union(branches) => CanonicalIsSeenAsIs(v.member, branches[v.branch], reg);
    case Prim(_, _) =>
    case ArrayOf(element) => ElementsSeenAsIs(v.elements, element, reg);
    case MapOf(key, value) => EntriesSeenAsIs(v.entries, key, value, reg);
    case Ref(name) => if name in reg.records { RecordSeenAsIs(v, reg.records[name], reg); }
  }

  /** A field that is not on the wire although the record has it equals its default. */
  lemma UnsentIsDefault(v: Value, fs: seq<Field>, id: int)
    requires v.RecordV? && id in v.fields && FieldById(fs, id).Some? && !Sent(v, fs, id)
    ensures HasDefault(fs, id) && v.fields[id] == FieldById(fs, id).value.default.v
  {}

  lemma {:induction false} RecordSeenAsIs(v: Value, sch: RecordSchema, reg: Registry)
    requires RecordCanonical(v, sch, reg)
    ensures SeenRecord(v, sch.fields, sch.fields, reg, reg) == v
    decreases v, 1
  {
    hide Canonical, Seen;
    var seen := SeenRecord(v, sch.fields, sch.fields, reg, reg).fields;
    forall id ensures (id in seen <==> id in v.fields) && (id in seen ==> seen[id] == v.fields[id]) {
      var f := FieldById(sch.fields, id);
      if f.Some? { assert f.value in sch.fields; }
      if id in v.fields {
        if Sent(v, sch.fields, id) { CanonicalIsSeenAsIs(v.fields[id], f.value.typ, reg); }
        else { UnsentIsDefault(v, sch.fields, id); }
      }
    }
    assert seen == v.fields;
  }

  lemma {:induction false} ElementsSeenAsIs(vs: seq<Value>, t: Type, reg: Registry)
    requires ElementsCanonical(vs, t, reg)
    ensures SeenElements(vs, t, reg, reg) == vs
    decreases vs, 0
  {
    hide Canonical, Seen;
    if vs != [] {
      CanonicalIsSeenAsIs(vs[0], t, reg);
      ElementsSeenAsIs(vs[1..], t, reg);
    }
  }

  lemma EntrySeenAsIs(e: Entry, key: Type, value: Type, reg: Registry)
    requires EntryCanonical(e, key, value, reg)
    ensures SeenEntry(e, key, value, reg, reg) == e
    decreases e, 0
  {
    hide Canonical, Seen;
    CanonicalIsSeenAsIs(e.key, key, reg);
    CanonicalIsSeenAsIs(e.val, value, reg);
  }

  lemma {:induction false} EntriesSeenAsIs(es: seq<Entry>, key: Type, value: Type, reg: Registry)
    requires EntriesCanonical(es, key, value, reg)
    ensures SeenEntries(es, key, value, reg, reg) == es
    decreases es, 0
  {
    hide EntryCanonical, SeenEntry;
    if es != [] {
      EntrySeenAsIs(es[0], key, value, reg);
      EntriesSeenAsIs(es[1..], key, value, reg);
    }
  }

  /** Roundtrip returns every canonical value of the type unchanged, and two such values share an encoding only
      if they are one value. */
  lemma RoundTripExact(v: Value, v': Value, t: Type, reg: Registry)
    requires WellFormed(reg) && Typed(v, t, reg) && Fits(v, t, reg) && Canonical(v, t, reg)
    requires Typed(v', t, reg) && Fits(v', t, reg) && Canonical(v', t, reg)
    ensures EncodeValue(v, t, reg).Encoded?
    ensures var enc := EncodeValue(v, t, reg).bytes;
      |enc| < TWO_63 ==>
        && WireDecode(enc, t, reg) == Ok(v, |enc|)
        && (EncodeValue(v', t, reg) == Encoded(enc) ==> v' == v)
  {
    hide *;
    DecodeInvertsEncode(v, t, reg);
    DecodeInvertsEncode(v', t, reg);
    CanonicalIsSeenAsIs(v, t, reg);
    CanonicalIsSeenAsIs(v', t, reg);
  }

  /** Which primitives are canonical: all of them as they are, but for a date given as a number and a UUID given as
      bytes, which come back as a date and a UUID, and a timestamp with a zone, which comes back without it. */
  lemma CanonicalPrims(v: Value, k: Kind, l: Logical, reg: Registry)
    requires Typed(v, Prim(k, l), reg)
    ensures Canonical(v, Prim(k, l), reg) <==>
            !(l == LDate && v.Int32V?) && !(l == LUuid && v.FixedV?) && !(v.TimestampV? && v.tz.Some?)
    ensures l == LDate && v.Int32V? ==> Seen(v, Prim(k, l), reg, reg) == DateV(v.i)
    ensures v.TimestampV? ==> Seen(v, Prim(k, l), reg, reg) == TimestampV(v.micros, None)
    ensures l == LUuid && v.FixedV? ==>
      exists msb, lsb :: Seen(v, Prim(k, l), reg, reg) == UuidV(msb, lsb) && UuidBytes(msb, lsb) == v.raw
  {
    if l == LUuid && v.FixedV? { UuidOfBytes(v.raw); }
  }

  lemma UuidOfBytes(raw: Bytes)
    requires |raw| == 16
    ensures UuidBytes(UuidOf(raw).msb, UuidOf(raw).lsb) == raw
  {
    BeOnto(raw[..8]);
    BeOnto(raw[8..16]);
    Pow256Words();
    assert raw == raw[..8] + raw[8..16];
  }

  // ---------------------------------------------------------------- where a round trip stops

  /** A value of a zero-width type takes no byte at all. */
  lemma {:induction false} ZeroWidthElements(vs: seq<Value>, t: Type, reg: Registry, raw: Bytes, pos: nat)
    requires ZeroWidth(t, reg) && EncodeElements(vs, t, reg).Encoded? && pos <= |raw| < TWO_63
    requires t.Ref? ==> Resolve(reg, t.name).value.fixed.logical != LUuid
    ensures EncodeElements(vs, t, reg).bytes == [] && DecodeElements(raw, pos, |vs|, t, reg) == Ok(vs, pos)
  {
    hide DecodeFields, EncodeFields, DecodePhysical;
    if vs != [] {
      ZeroWidthElement(vs[0], t, reg, raw, pos);
      ZeroWidthElements(vs[1..], t, reg, raw, pos);
      ElementsTurn(raw, pos, |vs| - 1, t, reg, vs[0], pos, vs[1..], pos);
      assert vs == [vs[0]] + vs[1..];
    }
  }

  lemma ZeroWidthElement(v: Value, t: Type, reg: Registry, raw: Bytes, pos: nat)
    requires ZeroWidth(t, reg) && EncodeValue(v, t, reg).Encoded? && pos <= |raw| < TWO_63
    requires t.Ref? ==> Resolve(reg, t.name).value.fixed.logical != LUuid
    ensures EncodeValue(v, t, reg).bytes == [] && DecodeValue(raw, pos, t, reg) == Ok(v, pos)
  {}

  /** An array of zero-width elements is read back if and only if at least as many bytes follow it as
      it has elements: the element count is checked against the bytes that remain. */
  lemma ZeroWidthArray(v: Value, t: Type, reg: Registry, suffix: Bytes)
    requires ZeroWidth(t, reg) && EncodeValue(v, ArrayOf(t), reg).Encoded?
    requires t.Ref? ==> Resolve(reg, t.name).value.fixed.logical != LUuid
    requires |v.elements| < TWO_32 && |EncodeValue(v, ArrayOf(t), reg).bytes + suffix| < TWO_63
    ensures var enc := EncodeValue(v, ArrayOf(t), reg).bytes;
      DecodeValue(enc + suffix, 0, ArrayOf(t), reg) == Ok(v, |enc|) <==> |v.elements| <= |suffix|
  {
    hide EncodeElements, DecodeElements, Leb, ReadLeb, ZeroWidth;
    var n := |v.elements|;
    var raw := EncodeValue(v, ArrayOf(t), reg).bytes + suffix;
    assert EncodeValue(v, ArrayOf(t), reg).bytes == Leb(n) + EncodeElements(v.elements, t, reg).bytes;
    ZeroWidthElements(v.elements, t, reg, raw, |Leb(n)|);
    assert At(raw, 0, Leb(n));
    LebRoundTrip(raw, 0, n);
  }

  /** A union value is read back as its own branch if and only if the branch number fits its byte. */
  lemma UnionBranchFits(v: Value, branches: seq<Type>, reg: Registry, suffix: Bytes)
    requires WellFormed(reg) && v.UnionV? && EncodeValue(v, Union(branches), reg).Encoded?
    requires Fits(v.member, branches[v.branch], reg)
    requires |EncodeValue(v, Union(branches), reg).bytes + suffix| < TWO_63
    ensures var enc := EncodeValue(v, Union(branches), reg).bytes;
      DecodeValue(enc + suffix, 0, Union(branches), reg) == Ok(Seen(v, Union(branches), reg, reg), |enc|)
      <==> v.branch < 256
  {
    hide WellFormed;
    if v.branch < 256 {
      SelfDelimiting(v, Union(branches), reg, EncodeValue(v, Union(branches), reg).bytes, suffix);
    }
  }

  // ---------------------------------------------------------------- dropped fields

  /** Reading with a registry that lost fields: the value is read, as its reader should see it, if every lost field
      on the wire, in every record of it, is skipped right; it is refused if the first that is not is of a kind that
      cannot be skipped; and if all lost fields are always skipped right or of such a kind, that decides it. Which
      fields are on the wire, their kinds and their bytes are known before the call. */
  lemma DroppedFields(v: Value, t: Type, w: Registry, r: Registry, enc: Bytes, suffix: Bytes)
    requires Comparable(w, r) && Fits(v, t, w) && EncodeValue(v, t, w) == Encoded(enc) && |enc + suffix| < TWO_63
    ensures Clear(v, t, w, r) ==> DecodeValue(enc + suffix, 0, t, r) == Ok(Seen(v, t, w, r), |enc|)
    ensures Halts(v, t, w, r) ==> DecodeValue(enc + suffix, 0, t, r) == Err
    ensures Decisive(w, r) ==>
      DecodeValue(enc + suffix, 0, t, r) == if Clear(v, t, w, r) then Ok(Seen(v, t, w, r), |enc|) else Err
  {
    hide *;
    AtFront(enc, suffix);
    if Clear(v, t, w, r) { ReadsWhatIsClear(v, t, w, r, enc + suffix, 0); }
    if Halts(v, t, w, r) { StopsWhereItHalts(v, t, w, r, enc + suffix, 0); }
    if Decisive(w, r) { ClearOrHalts(v, t, w, r); }
  }
}
