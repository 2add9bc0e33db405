/** Type expressions, named schemas and in-memory values (go/kdb/codec/schema, go/kdb/codec/value.go). */
module Schema {
  import opened Words

  datatype Option<+T> = None | Some(value: T)

  /** PhysicalKind, in tag order. */
  datatype Kind =
    | KNull | KBool | KInt8 | KInt16 | KInt32 | KInt64 | KFloat32 | KFloat64
    | KBytes | KString | KArray | KMap | KRecord | KEnum | KUnion | KFixed

  function Tag(k: Kind): byte {
    match k
    case KNull => 0x00 case KBool => 0x01 case KInt8 => 0x02 case KInt16 => 0x03
    case KInt32 => 0x04 case KInt64 => 0x05 case KFloat32 => 0x06 case KFloat64 => 0x07
    case KBytes => 0x08 case KString => 0x09 case KArray => 0x0A case KMap => 0x0B
    case KRecord => 0x0C case KEnum => 0x0D case KUnion => 0x0E case KFixed => 0x0F
  }

  /** PhysicalFromTag. */
  function KindOf(tag: byte): (r: Option<Kind>)
    ensures r.Some? ==> Tag(r.value) == tag
  {
    match tag
    case 0 => Some(KNull) case 1 => Some(KBool) case 2 => Some(KInt8) case 3 => Some(KInt16)
    case 4 => Some(KInt32) case 5 => Some(KInt64) case 6 => Some(KFloat32) case 7 => Some(KFloat64)
    case 8 => Some(KBytes) case 9 => Some(KString) case 10 => Some(KArray) case 11 => Some(KMap)
    case 12 => Some(KRecord) case 13 => Some(KEnum) case 14 => Some(KUnion) case 15 => Some(KFixed)
    case _ => None
  }

  /** The annotations the codec treats apart; every other one falls through to the physical kind. */
  datatype Logical = NoLogical | LDate | LTimestampMicros | LUuid | LOther

  datatype Type =
    | Prim(kind: Kind, logical: Logical)
    | Ref(name: string)
    | Nullable(inner: Type)
    | ArrayOf(element: Type)
    | MapOf(key: Type, value: Type)
    | Union(branches: seq<Type>)

  datatype Entry = Entry(key: Value, val: Value)

  /** Strings are their bytes and floats their IEEE 754 bits, as they are on the wire. */
  datatype Value =
    | NullV
    | BoolV(b: bool)
    | Int32V(i: int32)
    | Int64V(l: int64)
    | Float64V(bits: uint64)
    | StringV(s: Bytes)
    | BytesV(data: Bytes)
    | ArrayV(elements: seq<Value>)
    | MapV(entries: seq<Entry>)
    | RecordV(fields: map<int, Value>)
    | EnumV(ordinal: int, symbol: string)
    | UnionV(branch: int, member: Value)
    | FixedV(raw: Bytes)
    | DateV(days: int32)
    | TimestampV(micros: int64, tz: Option<string>)
    | UuidV(msb: int64, lsb: int64)

  /** FieldSchema.Default is of any type: absent, a codec value, or something else. */
  datatype Default = NoDefault | DefaultIs(v: Value) | Foreign

  datatype Field = Field(id: int, name: string, typ: Type, default: Default)
  datatype RecordSchema = RecordSchema(fields: seq<Field>)
  datatype FixedSchema = FixedSchema(size: int64, logical: Logical)
  datatype Named = IsRecord(record: RecordSchema) | IsEnum(symbols: seq<string>) | IsFixed(fixed: FixedSchema)

  datatype Registry = Registry(
    records: map<string, RecordSchema>, enums: map<string, seq<string>>, fixeds: map<string, FixedSchema>)

  /** Registry.Resolve: records hide enums, enums hide fixed types. */
  function Resolve(reg: Registry, name: string): Option<Named> {
    if name in reg.records then Some(IsRecord(reg.records[name]))
    else if name in reg.enums then Some(IsEnum(reg.enums[name]))
    else if name in reg.fixeds then Some(IsFixed(reg.fixeds[name]))
    else None
  }

  /** RecordSchema.FieldByID: the index is filled in declaration order, so the last field of an id wins. */
  function FieldById(fs: seq<Field>, id: int): (r: Option<Field>)
    ensures r.Some? ==> r.value in fs && r.value.id == id
    ensures r.None? ==> forall f :: f in fs ==> f.id != id
  {
    if fs == [] then None
    else if fs[|fs| - 1].id == id then Some(fs[|fs| - 1])
    else FieldById(fs[..|fs| - 1], id)
  }

  ghost predicate DistinctIds(fs: seq<Field>) {
    forall i, j :: 0 <= i < j < |fs| ==> fs[i].id != fs[j].id
  }

  lemma {:induction false} FieldByIdOf(fs: seq<Field>, f: Field)
    requires DistinctIds(fs) && f in fs
    ensures FieldById(fs, f.id) == Some(f)
  {
    var i :| 0 <= i < |fs| && fs[i] == f;
    if i < |fs| - 1 {
      assert fs[..|fs| - 1][i] == f;
      FieldByIdOf(fs[..|fs| - 1], f);
    }
  }

  /** physicalTag: the kind written before a record field. An unknown name counts as a record. */
  function PhysicalTag(t: Type, reg: Registry): Kind {
    match t
    case Prim(k, _) => k
    case ArrayOf(_) => KArray
    case MapOf(_, _) => KMap
    case Union(_) => KUnion
    case Nullable(_) => KUnion
    case Ref(name) =>
      match Resolve(reg, name)
      case Some(IsEnum(_)) => KEnum
      case Some(IsFixed(_)) => KFixed
      case _ => KRecord
  }

  // ---------------------------------------------------------------- field order

  /** sort.SliceIsSorted by id. */
  predicate SortedById(fs: seq<Field>) {
    forall i :: 0 <= i < |fs| - 1 ==> fs[i].id <= fs[i + 1].id
  }

  ghost predicate StrictlyById(fs: seq<Field>) {
    forall i, j :: 0 <= i < j < |fs| ==> fs[i].id < fs[j].id
  }

  ghost predicate SameFields(a: seq<Field>, b: seq<Field>) {
    forall f :: f in a <==> f in b
  }

  function InsertById(f: Field, fs: seq<Field>): (r: seq<Field>)
    ensures forall g :: g in r <==> g == f || g in fs
  {
    if fs == [] then [f]
    else if f.id <= fs[0].id then [f] + fs
    else [fs[0]] + InsertById(f, fs[1..])
  }

  function SortById(fs: seq<Field>): (r: seq<Field>)
    ensures SameFields(fs, r)
  {
    if fs == [] then [] else InsertById(fs[0], SortById(fs[1..]))
  }

  lemma {:induction false} InsertKeepsStrict(f: Field, fs: seq<Field>)
    requires StrictlyById(fs) && forall g :: g in fs ==> g.id != f.id
    ensures StrictlyById(InsertById(f, fs))
  {
    if fs != [] && f.id > fs[0].id {
      InsertKeepsStrict(f, fs[1..]);
      var rest := InsertById(f, fs[1..]);
      assert forall k :: 0 <= k < |rest| ==> rest[k] in rest && fs[0].id < rest[k].id;
    }
  }

  lemma {:induction false} SortSorts(fs: seq<Field>)
    requires DistinctIds(fs)
    ensures StrictlyById(SortById(fs))
  {
    if fs != [] {
      SortSorts(fs[1..]);
      assert forall g :: g in fs[1..] ==> g.id != fs[0].id;
      InsertKeepsStrict(fs[0], SortById(fs[1..]));
    }
  }

  lemma {:induction false} SortedDistinctIsStrict(fs: seq<Field>)
    requires SortedById(fs) && DistinctIds(fs)
    ensures StrictlyById(fs)
  {
    if |fs| > 1 {
      var init := fs[..|fs| - 1];
      SortedDistinctIsStrict(init);
      assert init[|init| - 1].id < fs[|fs| - 1].id;
    }
  }

  lemma LeastIsShared(a: seq<Field>, b: seq<Field>)
    requires StrictlyById(a) && StrictlyById(b) && SameFields(a, b) && a != []
    ensures b != [] && a[0] == b[0]
  {
    assert a[0] in b;
    assert b[0] in a;
  }

  /** Two strictly ordered arrangements of the same fields are one arrangement. */
  lemma {:induction false} StrictIsUnique(a: seq<Field>, b: seq<Field>)
    requires StrictlyById(a) && StrictlyById(b) && SameFields(a, b)
    ensures a == b
  {
    if a != [] || b != [] {
      if a != [] { LeastIsShared(a, b); } else { LeastIsShared(b, a); }
      assert forall f :: f in a[1..] <==> f in a && f != a[0];
      assert forall f :: f in b[1..] <==> f in b && f != b[0];
      StrictIsUnique(a[1..], b[1..]);
    }
  }

  /** The field order encodeRecord uses: the declared one when already sorted, a sorted copy otherwise. */
  function WireOrder(fs: seq<Field>): (r: seq<Field>)
    ensures SameFields(fs, r)
  {
    if SortedById(fs) then fs else SortById(fs)
  }

  lemma WireOrderIsStrict(fs: seq<Field>)
    requires DistinctIds(fs)
    ensures StrictlyById(WireOrder(fs))
  {
    if SortedById(fs) { SortedDistinctIsStrict(fs); } else { SortSorts(fs); }
  }

  /** The order depends only on which fields there are: the fast path agrees with always sorting,
      and any two declarations of the same fields are written alike. */
  lemma WireOrderCanonical(a: seq<Field>, b: seq<Field>)
    requires SameFields(a, b) && DistinctIds(a) && DistinctIds(b)
    ensures WireOrder(a) == SortById(b) == WireOrder(b)
  {
    WireOrderIsStrict(a);
    WireOrderIsStrict(b);
    SortSorts(b);
    StrictIsUnique(WireOrder(a), SortById(b));
    StrictIsUnique(WireOrder(b), SortById(b));
  }
}
