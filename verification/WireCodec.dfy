/** The encoder and decoder as the source runs them: appending to a buffer and advancing a cursor,
    with loops over elements, entries and fields (go/kdb/codec/wirecodec.go). Each method is tied to
    the function that says what it writes or reads. */
module WireCodec {
  import opened Words
  import opened Varint
  import opened Schema
  import opened Encode
  import opened Typing
  import opened Decode

  class Buffer {
    var data: Bytes

    constructor ()
      ensures data == []
    {
      data := [];
    }

    method Append(s: Bytes)
      modifies this
      ensures data == old(data) + s
    {
      data := data + s;
    }

    method AppendLength(n: nat)
      modifies this
      ensures data == old(data) + Leb(n % TWO_32)
    {
      data := AppendLeb128U32(data, n % TWO_32);
    }
  }

  datatype Wrote = Done | Failed | Aborted

  ghost predicate Appends(spec: Enc, r: Wrote, before: Bytes, after: Bytes) {
    && before <= after
    && match spec
       case Encoded(b) => r.Done? && after == before + b
       case EncErr => r.Failed?
       case EncPanic => r.Aborted?
  }

  /** What remains to be written after `done` has been. */
  ghost function Joined(done: Bytes, rest: Enc): Enc {
    match rest
    case Encoded(b) => Encoded(done + b)
    case _ => rest
  }

  // ---------------------------------------------------------------- encoding

  method AppendWord(buf: Buffer, v: nat, width: nat)
    modifies buf
    ensures buf.data == old(buf.data) + Le(v, width)
  {
    var out := new byte[width](_ => 0);
    PutLe(v, out);
    buf.Append(out[..]);
  }

  method EncodePhysicalTo(buf: Buffer, v: Value, k: Kind) returns (r: Wrote)
    modifies buf
    ensures Appends(EncodePhysical(v, k), r, old(buf.data), buf.data)
  {
    hide Le, Leb, Finite;
    match k {
    case KNull => if !v.NullV? { return Failed; }
    case KBool =>
      if !v.BoolV? { return Aborted; }
      buf.Append([if v.b then 1 else 0]);
    case KInt32 =>
      if !v.Int32V? { return Aborted; }
      AppendWord(buf, ToU32(v.i), 4);
    case KInt64 =>
      if !v.Int64V? { return Aborted; }
      AppendWord(buf, ToU64(v.l), 8);
    case KFloat64 =>
      if !v.Float64V? { return Aborted; }
      if !Finite(v.bits) { return Failed; }
      AppendWord(buf, v.bits, 8);
    case KString =>
      if !v.StringV? { return Aborted; }
      buf.AppendLength(|v.s|);
      buf.Append(v.s);
    case KBytes =>
      if !v.BytesV? { return Aborted; }
      buf.AppendLength(|v.data|);
      buf.Append(v.data);
    case _ => return Failed;
    }
    return Done;
  }

  method EncodePrimTo(buf: Buffer, v: Value, k: Kind, l: Logical) returns (r: Wrote)
    modifies buf
    ensures Appends(EncodePrim(v, k, l), r, old(buf.data), buf.data)
  {
    hide Le, Be, EncodePhysical;
    match l {
    case LDate =>
      if v.DateV? { AppendWord(buf, ToU32(v.days), 4); }
      else if v.Int32V? { AppendWord(buf, ToU32(v.i), 4); }
      else { return Failed; }
    case LTimestampMicros =>
      if !v.TimestampV? { return Failed; }
      AppendWord(buf, ToU64(v.micros), 8);
    case LUuid =>
      if v.UuidV? {
        var out := new byte[16](_ => 0);
        WriteBe(ToU64(v.msb), 8, out, 0);
        WriteBe(ToU64(v.lsb), 8, out, 8);
        assert out[..] == out[0..8] + out[8..16];
        buf.Append(out[..]);
      } else if v.FixedV? && |v.raw| == 16 {
        buf.Append(v.raw);
      } else {
        return Aborted;
      }
    case _ =>
      r := EncodePhysicalTo(buf, v, k);
      return;
    }
    return Done;
  }

  lemma ElementsFrom(vs: seq<Value>, i: nat, t: Type, reg: Registry)
    requires i < |vs|
    ensures EncodeElements(vs[i..], t, reg) ==
      match EncodeValue(vs[i], t, reg)
      case Encoded(a) => Joined(a, EncodeElements(vs[i + 1..], t, reg))
      case e => e
  {
    hide EncodeValue;
    assert vs[i..][1..] == vs[i + 1..];
  }

  lemma EntriesFrom(es: seq<Entry>, i: nat, key: Type, value: Type, reg: Registry)
    requires i < |es|
    ensures EncodeEntries(es[i..], key, value, reg) ==
      match EncodeEntry(es[i], key, value, reg)
      case Encoded(a) => Joined(a, EncodeEntries(es[i + 1..], key, value, reg))
      case e => e
  {
    hide EncodeEntry;
    assert es[i..][1..] == es[i + 1..];
  }

  lemma FieldsFrom(v: Value, fs: seq<Field>, i: nat, reg: Registry)
    requires v.RecordV? && i < |fs|
    ensures EncodeFields(v, fs[i..], reg) ==
      match EncodeField(v, fs[i], reg)
      case Encoded(a) => Joined(a, EncodeFields(v, fs[i + 1..], reg))
      case e => e
  {
    hide EncodeField;
    assert fs[i..][1..] == fs[i + 1..];
  }

  lemma NothingLeft(v: Value, t: Type, key: Type, value: Type, reg: Registry)
    requires v.RecordV?
    ensures EncodeElements([], t, reg) == Encoded([]) && EncodeEntries([], key, value, reg) == Encoded([])
    ensures EncodeFields(v, [], reg) == Encoded([])
  {}

  lemma JoinedStart(e: Enc)
    ensures Joined([], e) == e
  {
    if e.Encoded? { assert [] + e.bytes == e.bytes; }
  }

  lemma JoinedTwice(a: Bytes, b: Bytes, e: Enc)
    ensures Joined(a, Joined(b, e)) == Joined(a + b, e)
  {
    if e.Encoded? { assert a + (b + e.bytes) == a + b + e.bytes; }
  }

  method EncodeElementsTo(buf: Buffer, vs: seq<Value>, t: Type, reg: Registry) returns (r: Wrote)
    modifies buf
    ensures Appends(EncodeElements(vs, t, reg), r, old(buf.data), buf.data)
    decreases vs, 0
  {
    ghost var done: Bytes := [];
    hide EncodeValue, EncodeElements;
    assert vs[0..] == vs;
    JoinedStart(EncodeElements(vs, t, reg));
    NothingLeft(RecordV(map[]), t, t, t, reg);
    for i := 0 to |vs|
      invariant buf.data == old(buf.data) + done
      invariant EncodeElements(vs, t, reg) == Joined(done, EncodeElements(vs[i..], t, reg))
    {
      ElementsFrom(vs, i, t, reg);
      r := EncodeValueTo(buf, vs[i], t, reg);
      if !r.Done? { return; }
      ghost var a := EncodeValue(vs[i], t, reg).bytes;
      JoinedTwice(done, a, EncodeElements(vs[i + 1..], t, reg));
      done := done + a;
    }
    assert vs[|vs|..] == [] && done + [] == done;
    return Done;
  }

  method EncodeEntriesTo(buf: Buffer, es: seq<Entry>, key: Type, value: Type, reg: Registry) returns (r: Wrote)
    modifies buf
    ensures Appends(EncodeEntries(es, key, value, reg), r, old(buf.data), buf.data)
    decreases es, 0
  {
    ghost var done: Bytes := [];
    hide EncodeValue, EncodeEntry, EncodeEntries;
    assert es[0..] == es;
    JoinedStart(EncodeEntries(es, key, value, reg));
    NothingLeft(RecordV(map[]), key, key, value, reg);
    for i := 0 to |es|
      invariant buf.data == old(buf.data) + done
      invariant EncodeEntries(es, key, value, reg) == Joined(done, EncodeEntries(es[i..], key, value, reg))
    {
      EntriesFrom(es, i, key, value, reg);
      r := EncodeEntryTo(buf, es[i], key, value, reg);
      if !r.Done? { return; }
      ghost var a := EncodeEntry(es[i], key, value, reg).bytes;
      JoinedTwice(done, a, EncodeEntries(es[i + 1..], key, value, reg));
      done := done + a;
    }
    assert es[|es|..] == [] && done + [] == done;
    return Done;
  }

  method EncodeEntryTo(buf: Buffer, e: Entry, key: Type, value: Type, reg: Registry) returns (r: Wrote)
    modifies buf
    ensures Appends(EncodeEntry(e, key, value, reg), r, old(buf.data), buf.data)
    decreases e, 0
  {
    hide EncodeValue;
    r := EncodeValueTo(buf, e.key, key, reg);
    if r.Done? { r := EncodeValueTo(buf, e.val, value, reg); }
  }

  method EncodeRecordTo(buf: Buffer, v: Value, sch: RecordSchema, reg: Registry) returns (r: Wrote)
    requires v.RecordV?
    modifies buf
    ensures Appends(EncodeRecord(v, sch, reg), r, old(buf.data), buf.data)
    decreases v, 1
  {
    var fields := sch.fields;
    if !SortedById(fields) { fields := SortById(fields); }
    var body := new Buffer();
    r := EncodeFieldsTo(body, v, fields, reg);
    assert EncodeRecord(v, sch, reg) ==
      match EncodeFields(v, fields, reg) case Encoded(b) => Encoded(Leb(|b| % TWO_32) + b) case e => e;
    hide EncodeRecord, EncodeFields;
    if !r.Done? { return; }
    buf.AppendLength(|body.data|);
    buf.Append(body.data);
  }

  method EncodeFieldsTo(body: Buffer, v: Value, fields: seq<Field>, reg: Registry) returns (r: Wrote)
    requires v.RecordV?
    modifies body
    ensures Appends(EncodeFields(v, fields, reg), r, old(body.data), body.data)
    decreases v, 0, 2
  {
    ghost var done: Bytes := [];
    hide EncodeValue, EncodeField, EncodeFields;
    assert fields[0..] == fields;
    JoinedStart(EncodeFields(v, fields, reg));
    NothingLeft(v, Ref(""), Ref(""), Ref(""), reg);
    for i := 0 to |fields|
      invariant body.data == old(body.data) + done
      invariant EncodeFields(v, fields, reg) == Joined(done, EncodeFields(v, fields[i..], reg))
    {
      FieldsFrom(v, fields, i, reg);
      r := EncodeFieldTo(body, v, fields[i], reg);
      if !r.Done? { return; }
      ghost var a := EncodeField(v, fields[i], reg).bytes;
      JoinedTwice(done, a, EncodeFields(v, fields[i + 1..], reg));
      done := done + a;
    }
    assert fields[|fields|..] == [] && done + [] == done;
    return Done;
  }

  method EncodeFieldTo(body: Buffer, v: Value, f: Field, reg: Registry) returns (r: Wrote)
    requires v.RecordV?
    modifies body
    ensures Appends(EncodeField(v, f, reg), r, old(body.data), body.data)
    decreases v, 0, 1
  {
    hide EncodeValue;
    if f.id !in v.fields {
      return if !f.default.NoDefault? then Done else Failed;
    }
    var cur := v.fields[f.id];
    if OmitField(cur, f.default) { return Done; }
    body.AppendLength(f.id % TWO_32);
    body.Append([Tag(PhysicalTag(f.typ, reg))]);
    r := EncodeValueTo(body, cur, f.typ, reg);
  }

  method EncodeNamedTo(buf: Buffer, v: Value, name: string, reg: Registry) returns (r: Wrote)
    modifies buf
    ensures Appends(EncodeNamed(v, name, reg), r, old(buf.data), buf.data)
    decreases v, 2
  {
    hide EncodeRecord;
    match Resolve(reg, name)
    case None => return Failed;
    case Some(IsRecord(sch)) =>
      if !v.RecordV? { return Failed; }
      r := EncodeRecordTo(buf, v, sch, reg);
    case Some(IsEnum(symbols)) =>
      if !v.EnumV? || v.ordinal < 0 || v.ordinal >= |symbols| { return Failed; }
      AppendWord(buf, v.ordinal % TWO_32, 4);
      return Done;
    case Some(IsFixed(f)) =>
      if !v.FixedV? || |v.raw| != f.size { return Failed; }
      buf.Append(v.raw);
      return Done;
  }

  /** encodeValue. */
  method EncodeValueTo(buf: Buffer, v: Value, t: Type, reg: Registry) returns (r: Wrote)
    modifies buf
    ensures Appends(EncodeValue(v, t, reg), r, old(buf.data), buf.data)
    decreases v, 3, t
  {
    hide EncodeElements, EncodeEntries, EncodeNamed, EncodePrim;
    match t
    case Nullable(inner) =>
      if v.NullV? { buf.Append([0]); return Done; }
      buf.Append([1]);
      r := EncodeValueTo(buf, v, inner, reg);
    case Union(branches) =>
      if !v.UnionV? || v.branch < 0 || v.branch >= |branches| { return Failed; }
      buf.Append([v.branch % 256]);
      r := EncodeValueTo(buf, v.member, branches[v.branch], reg);
    case Prim(k, l) => r := EncodePrimTo(buf, v, k, l);
    case ArrayOf(element) =>
      if !v.ArrayV? { return Failed; }
      buf.AppendLength(|v.elements|);
      r := EncodeElementsTo(buf, v.elements, element, reg);
    case MapOf(key, value) =>
      if !v.MapV? { return Failed; }
      buf.AppendLength(|v.entries|);
      r := EncodeEntriesTo(buf, v.entries, key, value, reg);
    case Ref(name) => r := EncodeNamedTo(buf, v, name, reg);
  }

  /** wireEncode. */
  method WireEncode(v: Value, t: Type, reg: Registry) returns (r: Enc)
    ensures r == EncodeValue(v, t, reg) && (r.Encoded? <==> Typed(v, t, reg))
  {
    EncodesIffTyped(v, t, reg);
    hide EncodeValue, Typed;
    var buf := new Buffer();
    var w := EncodeValueTo(buf, v, t, reg);
    match w
    case Done => r := Encoded(buf.data);
    case Failed => r := EncErr;
    case Aborted => r := EncPanic;
  }

  // ---------------------------------------------------------------- decoding

  method Int32From(c: Cursor) returns (r: Outcome<int32>)
    requires c.Valid()
    modifies c
    ensures c.Valid() && Performs(Int32At(c.raw, old(c.pos)), r, c.pos)
  {
    var s := c.ReadRaw(4);
    if !s.Value? { return if s.Error? then Error else Abort; }
    var x := ReadLe(s.v, 0, 4);
    assert s.v[0..4] == s.v;
    LeOnto(s.v); Pow256Words();
    r := Value(FromU32(x));
  }

  method Word64From(c: Cursor) returns (r: Outcome<uint64>)
    requires c.Valid()
    modifies c
    ensures c.Valid() && Performs(Word64At(c.raw, old(c.pos)), r, c.pos)
  {
    var s := c.ReadRaw(8);
    if !s.Value? { return if s.Error? then Error else Abort; }
    var x := ReadLe(s.v, 0, 8);
    assert s.v[0..8] == s.v;
    LeOnto(s.v); Pow256Words();
    r := Value(x);
  }

  method UuidFrom(s: Bytes) returns (v: Schema.Value)
    requires |s| >= 16
    ensures v == UuidOf(s)
  {
    var hi := ReadBe(s, 0, 8);
    var lo := ReadBe(s, 8, 8);
    assert s[0..8] == s[..8];
    BeOnto(s[..8]); BeOnto(s[8..16]); Pow256Words();
    v := UuidV(FromU64(hi), FromU64(lo));
  }

  function Map<T, U>(o: Outcome<T>, f: T -> U): Outcome<U> {
    match o
    case Value(v) => Outcome.Value(f(v))
    case Error => Error
    case Abort => Abort
  }

  method DecodePhysicalFrom(c: Cursor, k: Kind) returns (r: Outcome<Schema.Value>)
    requires c.Valid()
    modifies c
    ensures c.Valid() && Performs(DecodePhysical(c.raw, old(c.pos), k), r, c.pos)
  {
    hide Int32At, Word64At, ReadLebBytes, U8;
    match k
    case KNull => r := Value(NullV);
    case KBool => var b := c.ReadU8(); r := Map(b, x => BoolV(x != 0));
    case KInt32 => var x := Int32From(c); r := Map(x, i => Int32V(i));
    case KInt64 => var x := Word64From(c); r := Map(x, i => Int64V(FromU64(i)));
    case KFloat64 => var x := Word64From(c); r := Map(x, i => Float64V(i));
    case KString => var s := c.ReadPrefixed(); r := Map(s, b => StringV(b));
    case KBytes => var s := c.ReadPrefixed(); r := Map(s, b => BytesV(b));
    case _ => r := Error;
  }

  method DecodePrimFrom(c: Cursor, k: Kind, l: Logical) returns (r: Outcome<Schema.Value>)
    requires c.Valid()
    modifies c
    ensures c.Valid() && Performs(DecodePrim(c.raw, old(c.pos), k, l), r, c.pos)
  {
    hide Int32At, Word64At, DecodePhysical, UuidOf;
    match l
    case LDate => var x := Int32From(c); r := Map(x, i => DateV(i));
    case LTimestampMicros => var x := Word64From(c); r := Map(x, i => TimestampV(FromU64(i), None));
    case LUuid =>
      var s := c.ReadRaw(16);
      if !s.Value? { return if s.Error? then Error else Abort; }
      var v := UuidFrom(s.v);
      r := Value(v);
    case _ => r := DecodePhysicalFrom(c, k);
  }

  method SkipTaggedFrom(c: Cursor, k: Kind) returns (r: Outcome<()>)
    requires c.Valid()
    modifies c
    ensures c.Valid() && Performs(SkipTagged(c.raw, old(c.pos), k), r, c.pos)
  {
    hide RawN, ReadLebBytes, U8;
    match k
    case KInt32 => var s := c.ReadRaw(4); r := Map(s, _ => ());
    case KFloat32 => var s := c.ReadRaw(4); r := Map(s, _ => ());
    case KInt64 => var s := c.ReadRaw(8); r := Map(s, _ => ());
    case KFloat64 => var s := c.ReadRaw(8); r := Map(s, _ => ());
    case KString => var s := c.ReadPrefixed(); r := Map(s, _ => ());
    case KBytes => var s := c.ReadPrefixed(); r := Map(s, _ => ());
    case KBool => var b := c.ReadU8(); r := Map(b, _ => ());
    case KInt8 => var b := c.ReadU8(); r := Map(b, _ => ());
    case KInt16 => var s := c.ReadRaw(2); r := Map(s, _ => ());
    case _ => r := Error;
  }

  ghost function Listed<T>(done: seq<T>, rest: Read<seq<T>>): Read<seq<T>> {
    match rest
    case Ok(vs, p) => Ok(done + vs, p)
    case _ => rest
  }

  lemma ListedNone<T>(rest: Read<seq<T>>)
    ensures Listed([], rest) == rest
  {
    if rest.Ok? { assert [] + rest.value == rest.value; }
  }

  lemma ListedStep<T>(done: seq<T>, v: T, rest: Read<seq<T>>)
    ensures Listed(done, Listed([v], rest)) == Listed(done + [v], rest)
  {
    if rest.Ok? { assert done + ([v] + rest.value) == done + [v] + rest.value; }
  }

  lemma ElementsNext(raw: Bytes, pos: nat, n: nat, t: Type, reg: Registry)
    requires pos <= |raw| && n > 0
    ensures DecodeElements(raw, pos, n, t, reg) ==
      match DecodeValue(raw, pos, t, reg)
      case Ok(v, p) => Listed([v], DecodeElements(raw, p, n - 1, t, reg))
      case Err => Err
      case Panic => Panic
  {
    hide DecodeValue;
  }

  method DecodeElementsFrom(c: Cursor, n: nat, t: Type, reg: Registry) returns (r: Outcome<seq<Schema.Value>>)
    requires c.Valid()
    modifies c
    ensures c.Valid() && Performs(DecodeElements(c.raw, old(c.pos), n, t, reg), r, c.pos)
    decreases c.limit - c.pos, 4
  {
    hide DecodeValue, DecodeElements;
    var list: seq<Schema.Value> := [];
    var i := 0;
    ListedNone(DecodeElements(c.raw, c.pos, n, t, reg));
    while i < n
      invariant 0 <= i <= n && c.Valid() && old(c.pos) <= c.pos
      invariant DecodeElements(c.raw, old(c.pos), n, t, reg) ==
                Listed(list, DecodeElements(c.raw, c.pos, n - i, t, reg))
      decreases n - i
    {
      ElementsNext(c.raw, c.pos, n - i, t, reg);
      var v := DecodeValueFrom(c, t, reg);
      if !v.Value? { return if v.Error? then Error else Abort; }
      ListedStep(list, v.v, DecodeElements(c.raw, c.pos, n - i - 1, t, reg));
      list := list + [v.v];
      i := i + 1;
    }
    NoMoreElements(c.raw, c.pos, t, reg);
    assert list + [] == list;
    r := Value(list);
  }

  lemma NoMoreElements(raw: Bytes, pos: nat, t: Type, reg: Registry)
    requires pos <= |raw|
    ensures DecodeElements(raw, pos, 0, t, reg) == Ok([], pos)
  {}

  lemma EntriesNext(raw: Bytes, pos: nat, n: nat, key: Type, value: Type, reg: Registry)
    requires pos <= |raw| && n > 0
    ensures DecodeEntries(raw, pos, n, key, value, reg) ==
      match DecodeValue(raw, pos, key, reg)
      case Ok(k, p) =>
        (match DecodeValue(raw, p, value, reg)
         case Ok(v, q) => Listed([Entry(k, v)], DecodeEntries(raw, q, n - 1, key, value, reg))
         case Err => Err
         case Panic => Panic)
      case Err => Err
      case Panic => Panic
  {
    hide DecodeValue;
  }

  lemma NoMoreEntries(raw: Bytes, pos: nat, key: Type, value: Type, reg: Registry)
    requires pos <= |raw|
    ensures DecodeEntries(raw, pos, 0, key, value, reg) == Ok([], pos)
  {}

  method DecodeEntriesFrom(c: Cursor, n: nat, key: Type, value: Type, reg: Registry) returns (r: Outcome<seq<Entry>>)
    requires c.Valid()
    modifies c
    ensures c.Valid() && Performs(DecodeEntries(c.raw, old(c.pos), n, key, value, reg), r, c.pos)
    decreases c.limit - c.pos, 4
  {
    hide DecodeValue, DecodeEntries;
    var entries: seq<Entry> := [];
    var i := 0;
    ListedNone(DecodeEntries(c.raw, c.pos, n, key, value, reg));
    while i < n
      invariant 0 <= i <= n && c.Valid() && old(c.pos) <= c.pos
      invariant DecodeEntries(c.raw, old(c.pos), n, key, value, reg) ==
                Listed(entries, DecodeEntries(c.raw, c.pos, n - i, key, value, reg))
      decreases n - i
    {
      EntriesNext(c.raw, c.pos, n - i, key, value, reg);
      var k := DecodeValueFrom(c, key, reg);
      if !k.Value? { return if k.Error? then Error else Abort; }
      var v := DecodeValueFrom(c, value, reg);
      if !v.Value? { return if v.Error? then Error else Abort; }
      ListedStep(entries, Entry(k.v, v.v), DecodeEntries(c.raw, c.pos, n - i - 1, key, value, reg));
      entries := entries + [Entry(k.v, v.v)];
      i := i + 1;
    }
    NoMoreEntries(c.raw, c.pos, key, value, reg);
    assert entries + [] == entries;
    r := Value(entries);
  }

  /** decodeRecord: the field loop over the slab, then the defaults. */
  method DecodeRecordFrom(c: Cursor, sch: RecordSchema, reg: Registry) returns (r: Outcome<Schema.Value>)
    requires c.Valid()
    modifies c
    ensures c.Valid() && Performs(DecodeRecord(c.raw, old(c.pos), sch, reg), r, c.pos)
    decreases c.limit - c.pos, 1
  {
    hide DecodeFields, ReadLeb, RawN, FillDefaults;
    var n := c.ReadLength();
    if !n.Value? { return if n.Error? then Error else Abort; }
    var slab := c.ReadRaw(FromU64(n.v));
    if !slab.Value? { return if slab.Error? then Error else Abort; }
    var got := DecodeFieldsFrom(slab.v, sch, reg);
    if !got.Value? { return if got.Error? then Error else Abort; }
    var fields := FillDefaultsIn(got.v, sch.fields);
    r := Value(RecordV(fields));
  }

  /** One turn of the field loop. */
  ghost function FieldTurn(slab: Bytes, pos: nat, got: map<int, Schema.Value>, sch: RecordSchema,
                           reg: Registry): Read<map<int, Schema.Value>>
    requires pos < |slab|
  {
    var (idWord, p) :- ReadLeb(slab, pos);
    var id := FromU64(idWord);
    if p == |slab| then Err
    else
      match KindOf(slab[p])
      case None => Err
      case Some(kind) =>
        match FieldById(sch.fields, id)
        case None =>
          var (_, q) :- SkipTagged(slab, p + 1, kind);
          Ok(got, q)
        case Some(f) =>
          if kind != PhysicalTag(f.typ, reg) then Err
          else
            var (v, q) :- DecodeValue(slab, p + 1, f.typ, reg);
            Ok(got[id := v], q)
  }

  lemma FieldsByTurns(slab: Bytes, pos: nat, got: map<int, Schema.Value>, sch: RecordSchema, reg: Registry)
    requires pos <= |slab|
    ensures pos == |slab| ==> DecodeFields(slab, pos, got, sch, reg) == Ok(got, pos)
    ensures pos < |slab| ==>
      var turn := FieldTurn(slab, pos, got, sch, reg);
      if turn.Ok? then
        pos < turn.pos <= |slab| &&
        DecodeFields(slab, pos, got, sch, reg) == DecodeFields(slab, turn.pos, turn.value, sch, reg)
      else DecodeFields(slab, pos, got, sch, reg) == turn
  {
    hide DecodeValue, SkipTagged, ReadLeb, KindOf, FieldById, PhysicalTag;
  }

  method DecodeFieldsFrom(slab: Bytes, sch: RecordSchema, reg: Registry) returns (r: Outcome<map<int, Schema.Value>>)
    ensures Performs(DecodeFields(slab, 0, map[], sch, reg), r, |slab|)
    decreases |slab|, 0
  {
    hide DecodeFields, DecodeValue, SkipTagged, ReadLeb, KindOf, FieldById, PhysicalTag;
    var pos, fields := 0, map[];
    while pos < |slab|
      invariant 0 <= pos <= |slab|
      invariant DecodeFields(slab, 0, map[], sch, reg) == DecodeFields(slab, pos, fields, sch, reg)
      decreases |slab| - pos
    {
      FieldsByTurns(slab, pos, fields, sch, reg);
      var idWord := ReadLeb128U64(slab, pos);
      if !idWord.Ok? { return Error; }
      var id := FromU64(idWord.value);
      if idWord.pos >= |slab| { return Error; }
      var kind := KindOf(slab[idWord.pos]);
      if kind.None? { return Error; }
      var field := FieldById(sch.fields, id);
      var sub := new Cursor(slab, idWord.pos + 1);
      if field.None? {
        var skipped := SkipTaggedFrom(sub, kind.value);
        if !skipped.Value? { return if skipped.Error? then Error else Abort; }
      } else {
        if kind.value != PhysicalTag(field.value.typ, reg) { return Error; }
        var val := DecodeValueFrom(sub, field.value.typ, reg);
        if !val.Value? { return if val.Error? then Error else Abort; }
        fields := fields[id := val.v];
      }
      pos := sub.pos;
    }
    FieldsByTurns(slab, pos, fields, sch, reg);
    r := Value(fields);
  }

  method FillDefaultsIn(got: map<int, Schema.Value>, fs: seq<Field>) returns (fields: map<int, Schema.Value>)
    ensures fields == FillDefaults(got, fs)
  {
    fields := got;
    assert fs[0..] == fs;
    for i := 0 to |fs|
      invariant FillDefaults(got, fs) == FillDefaults(fields, fs[i..])
    {
      assert fs[i..][1..] == fs[i + 1..];
      var f := fs[i];
      if f.id !in fields && f.default.DefaultIs? { fields := fields[f.id := f.default.v]; }
    }
  }

  method DecodeNamedFrom(c: Cursor, name: string, reg: Registry) returns (r: Outcome<Schema.Value>)
    requires c.Valid()
    modifies c
    ensures c.Valid() && Performs(DecodeNamed(c.raw, old(c.pos), name, reg), r, c.pos)
    decreases c.limit - c.pos, 2
  {
    hide DecodeRecord, Int32At, RawN, UuidOf;
    match Resolve(reg, name)
    case None => r := Error;
    case Some(IsRecord(sch)) => r := DecodeRecordFrom(c, sch, reg);
    case Some(IsEnum(symbols)) =>
      var ord := Int32From(c);
      r := Map(ord, x => EnumV(x, if 0 <= x < |symbols| then symbols[x] else "<unknown>"));
    case Some(IsFixed(f)) =>
      var s := c.ReadRaw(f.size);
      if !s.Value? { return if s.Error? then Error else Abort; }
      if f.logical != LUuid { return Value(FixedV(s.v)); }
      if |s.v| < 16 { return Abort; }
      var v := UuidFrom(s.v);
      r := Value(v);
  }

  /** decodeValue. */
  method DecodeValueFrom(c: Cursor, t: Type, reg: Registry) returns (r: Outcome<Schema.Value>)
    requires c.Valid()
    modifies c
    ensures c.Valid() && Performs(DecodeValue(c.raw, old(c.pos), t, reg), r, c.pos)
    decreases c.limit - c.pos, 3
  {
    hide DecodeElements, DecodeEntries, DecodeNamed, DecodePrim, ReadLeb;
    match t
    case Nullable(inner) =>
      var m := c.ReadU8();
      if !m.Value? || m.v > 1 { return Error; }
      if m.v == 0 { return Value(NullV); }
      r := DecodeValueFrom(c, inner, reg);
    case Union(branches) =>
      var b := c.ReadU8();
      if !b.Value? || b.v >= |branches| { return Error; }
      var inner := DecodeValueFrom(c, branches[b.v], reg);
      r := Map(inner, x => UnionV(b.v, x));
    case Prim(k, l) => r := DecodePrimFrom(c, k, l);
    case ArrayOf(element) =>
      var n := c.ReadLength();
      if !n.Value? || !c.CountFits(n.v) { return Error; }
      var list := DecodeElementsFrom(c, n.v, element, reg);
      r := Map(list, vs => ArrayV(vs));
    case MapOf(key, value) =>
      var n := c.ReadLength();
      if !n.Value? || !c.CountFits(n.v) { return Error; }
      var entries := DecodeEntriesFrom(c, n.v, key, value, reg);
      r := Map(entries, es => MapV(es));
    case Ref(name) => r := DecodeNamedFrom(c, name, reg);
  }

  /** wireDecode. */
  method WireDecodeFrom(raw: Bytes, t: Type, reg: Registry) returns (r: Outcome<Schema.Value>)
    ensures Performs(WireDecode(raw, t, reg), r, |raw|)
  {
    hide DecodeValue;
    var c := new Cursor(raw, 0);
    r := DecodeValueFrom(c, t, reg);
    if r.Value? && c.pos != |raw| { r := Error; }
  }
}
