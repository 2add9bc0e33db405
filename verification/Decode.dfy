/** What the decoder reads (go/kdb/codec/wirecodec.go, decode side).

    Every function here is total on every byte string and every registry, self-referential ones
    included: what is left of the input is the first component of each termination measure, and no
    read leaves the position before where it began or past the end. */
module Decode {
  import opened Words
  import opened Varint
  import opened Schema

  function Int32At(raw: Bytes, pos: nat): (r: Read<int32>)
    requires pos <= |raw|
    ensures r.Ok? ==> r.pos == pos + 4 <= |raw|
  {
    var (s, p) :- RawN(raw, pos, 4);
    LeOnto(s); Pow256Words();
    Ok(FromU32(UnLe(s)), p)
  }

  function Word64At(raw: Bytes, pos: nat): (r: Read<uint64>)
    requires pos <= |raw|
    ensures r.Ok? ==> r.pos == pos + 8 <= |raw|
  {
    var (s, p) :- RawN(raw, pos, 8);
    LeOnto(s); Pow256Words();
    Ok(UnLe(s), p)
  }

  /** The two big-endian words of the first sixteen bytes. */
  function UuidOf(s: Bytes): (v: Value)
    requires |s| >= 16
    ensures v.UuidV?
  {
    BeOnto(s[..8]); BeOnto(s[8..16]); Pow256Words();
    UuidV(FromU64(UnBe(s[..8])), FromU64(UnBe(s[8..16])))
  }

  function DecodePhysical(raw: Bytes, pos: nat, k: Kind): (r: Read<Value>)
    requires pos <= |raw|
    ensures r.Ok? ==> pos <= r.pos <= |raw|
  {
    match k
    case KNull => Ok(NullV, pos)
    case KBool =>
      var (b, p) :- U8(raw, pos);
      Ok(BoolV(b != 0), p)
    case KInt32 =>
      var (x, p) :- Int32At(raw, pos);
      Ok(Int32V(x), p)
    case KInt64 =>
      var (x, p) :- Word64At(raw, pos);
      Ok(Int64V(FromU64(x)), p)
    case KFloat64 =>
      var (x, p) :- Word64At(raw, pos);
      Ok(Float64V(x), p)
    case KString =>
      var (s, p) :- ReadLebBytes(raw, pos);
      Ok(StringV(s), p)
    case KBytes =>
      var (s, p) :- ReadLebBytes(raw, pos);
      Ok(BytesV(s), p)
    case _ => Err
  }

  function DecodePrim(raw: Bytes, pos: nat, k: Kind, l: Logical): (r: Read<Value>)
    requires pos <= |raw|
    ensures r.Ok? ==> pos <= r.pos <= |raw|
  {
    match l
    case LDate =>
      var (x, p) :- Int32At(raw, pos);
      Ok(DateV(x), p)
    case LTimestampMicros =>
      var (x, p) :- Word64At(raw, pos);
      Ok(TimestampV(FromU64(x), None), p)
    case LUuid =>
      var (s, p) :- RawN(raw, pos, 16);
      Ok(UuidOf(s), p)
    case _ => DecodePhysical(raw, pos, k)
  }

  /** upliftFixed: a fixed type annotated as a UUID indexes its first sixteen bytes. */
  function Uplift(f: FixedSchema, s: Bytes, pos: nat): (r: Read<Value>)
    ensures r.Ok? ==> r.pos == pos
  {
    if f.logical != LUuid then Ok(FixedV(s), pos)
    else if |s| < 16 then Panic
    else Ok(UuidOf(s), pos)
  }

  function DecodeValue(raw: Bytes, pos: nat, t: Type, reg: Registry): (r: Read<Value>)
    requires pos <= |raw|
    ensures r.Ok? ==> pos <= r.pos <= |raw|
    decreases |raw| - pos, 3
  {
    match t
    case Nullable(inner) =>
      var (m, p) :- U8(raw, pos);
      if m == 0 then Ok(NullV, p)
      else if m == 1 then DecodeValue(raw, p, inner, reg)
      else Err
    case Union(branches) =>
      var (b, p) :- U8(raw, pos);
      if b >= |branches| then Err
      else
        var (v, q) :- DecodeValue(raw, p, branches[b], reg);
        Ok(UnionV(b, v), q)
    case Prim(k, l) => DecodePrim(raw, pos, k, l)
    case ArrayOf(element) =>
      var (n, p) :- ReadLeb(raw, pos);
      if n > |raw| - p then Err
      else
        var (vs, q) :- DecodeElements(raw, p, n, element, reg);
        Ok(ArrayV(vs), q)
    case MapOf(key, value) =>
      var (n, p) :- ReadLeb(raw, pos);
      if n > |raw| - p then Err
      else
        var (es, q) :- DecodeEntries(raw, p, n, key, value, reg);
        Ok(MapV(es), q)
    case Ref(name) => DecodeNamed(raw, pos, name, reg)
  }

  function DecodeElements(raw: Bytes, pos: nat, n: nat, t: Type, reg: Registry): (r: Read<seq<Value>>)
    requires pos <= |raw|
    ensures r.Ok? ==> pos <= r.pos <= |raw|
    decreases |raw| - pos, 4, n
  {
    if n == 0 then Ok([], pos)
    else
      var (v, p) :- DecodeValue(raw, pos, t, reg);
      var (vs, q) :- DecodeElements(raw, p, n - 1, t, reg);
      Ok([v] + vs, q)
  }

  function DecodeEntries(raw: Bytes, pos: nat, n: nat, key: Type, value: Type, reg: Registry): (r: Read<seq<Entry>>)
    requires pos <= |raw|
    ensures r.Ok? ==> pos <= r.pos <= |raw|
    decreases |raw| - pos, 4, n
  {
    if n == 0 then Ok([], pos)
    else
      var (k, p) :- DecodeValue(raw, pos, key, reg);
      var (v, q) :- DecodeValue(raw, p, value, reg);
      var (es, z) :- DecodeEntries(raw, q, n - 1, key, value, reg);
      Ok([Entry(k, v)] + es, z)
  }

  function DecodeNamed(raw: Bytes, pos: nat, name: string, reg: Registry): (r: Read<Value>)
    requires pos <= |raw|
    ensures r.Ok? ==> pos <= r.pos <= |raw|
    decreases |raw| - pos, 2
  {
    match Resolve(reg, name)
    case None => Err
    case Some(IsRecord(sch)) => DecodeRecord(raw, pos, sch, reg)
    case Some(IsEnum(symbols)) =>
      var (x, p) :- Int32At(raw, pos);
      Ok(EnumV(x, if 0 <= x < |symbols| then symbols[x] else "<unknown>"), p)
    case Some(IsFixed(f)) =>
      var (s, p) :- RawN(raw, pos, f.size);
      Uplift(f, s, p)
  }

  function DecodeRecord(raw: Bytes, pos: nat, sch: RecordSchema, reg: Registry): (r: Read<Value>)
    requires pos <= |raw|
    ensures r.Ok? ==> pos < r.pos <= |raw|
    decreases |raw| - pos, 1
  {
    var (n, p) :- ReadLeb(raw, pos);
    var (slab, q) :- RawN(raw, p, FromU64(n));
    var (fields, _) :- DecodeFields(slab, 0, map[], sch, reg);
    Ok(RecordV(FillDefaults(fields, sch.fields)), q)
  }

  type Fields = map<int, Value>

  /** The field loop of decodeRecord, from `pos` with the fields read so far. */
  function DecodeFields(slab: Bytes, pos: nat, got: Fields, sch: RecordSchema, reg: Registry): (r: Read<Fields>)
    requires pos <= |slab|
    decreases |slab| - pos, 0
  {
    if pos == |slab| then Ok(got, pos)
    else
      var (idWord, p) :- ReadLeb(slab, pos);
      var id := FromU64(idWord);
      if p == |slab| then Err
      else
        match KindOf(slab[p])
        case None => Err
        case Some(kind) =>
          match FieldById(sch.fields, id)
          case None =>
            var (_, q) :- SkipTagged(slab, p + 1, kind);
            DecodeFields(slab, q, got, sch, reg)
          case Some(f) =>
            if kind != PhysicalTag(f.typ, reg) then Err
            else
              var (v, q) :- DecodeValue(slab, p + 1, f.typ, reg);
              DecodeFields(slab, q, got[id := v], sch, reg)
  }

  /** skipTagged: how far an unknown field reaches, by its kind alone. */
  function SkipTagged(raw: Bytes, pos: nat, k: Kind): (r: Read<()>)
    requires pos <= |raw|
    ensures r.Ok? ==> pos <= r.pos <= |raw|
  {
    match k
    case KInt32 => Passed(RawN(raw, pos, 4))
    case KFloat32 => Passed(RawN(raw, pos, 4))
    case KInt64 => Passed(RawN(raw, pos, 8))
    case KFloat64 => Passed(RawN(raw, pos, 8))
    case KString => Passed(ReadLebBytes(raw, pos))
    case KBytes => Passed(ReadLebBytes(raw, pos))
    case KBool => Passed(U8(raw, pos))
    case KInt8 => Passed(U8(raw, pos))
    case KInt16 => Passed(RawN(raw, pos, 2))
    case _ => Err
  }

  function Passed<T>(r: Read<T>): Read<()> {
    match r
    case Ok(_, p) => Ok((), p)
    case Err => Err
    case Panic => Panic
  }

  /** The last loop of decodeRecord: fields that did not arrive take their default. */
  function FillDefaults(got: map<int, Value>, fs: seq<Field>): map<int, Value>
    decreases |fs|
  {
    if fs == [] then got
    else
      var f := fs[0];
      FillDefaults(if f.id !in got && f.default.DefaultIs? then got[f.id := f.default.v] else got, fs[1..])
  }

  /** wireDecode: nothing may be left over. */
  function WireDecode(raw: Bytes, t: Type, reg: Registry): (r: Read<Value>)
    ensures r.Ok? ==> r.pos == |raw|
  {
    var (v, p) :- DecodeValue(raw, 0, t, reg);
    if p != |raw| then Err else Ok(v, p)
  }
}
