/** Which values are of which type (go/kdb/codec/value.go, schema, and the checks of wirecodec.go's encode side),
    said of the values alone: the encoder writes exactly those. */
module Typing {
  import opened Words
  import opened Schema
  import opened Encode

  /** The bits of a number, and not of an infinity or a NaN: of either sign, below the all-ones exponent. */
  predicate Number(bits: uint64) {
    bits < 0x7FF0_0000_0000_0000 || 0x8000_0000_0000_0000 <= bits < 0xFFF0_0000_0000_0000
  }

  /** A value of a primitive kind under an annotation. */
  predicate TypedPrim(v: Value, k: Kind, l: Logical) {
    match v
    case DateV(_) => l == LDate
    case TimestampV(_, _) => l == LTimestampMicros
    case UuidV(_, _) => l == LUuid
    case FixedV(raw) => l == LUuid && |raw| == 16
    case Int32V(_) => l == LDate || (Plain(l) && k == KInt32)
    case NullV => Plain(l) && k == KNull
    case BoolV(_) => Plain(l) && k == KBool
    case Int64V(_) => Plain(l) && k == KInt64
    case Float64V(bits) => Plain(l) && k == KFloat64 && Number(bits)
    case StringV(_) => Plain(l) && k == KString
    case BytesV(_) => Plain(l) && k == KBytes
    case _ => false
  }

  /** An annotation that leaves the physical kind to decide. */
  predicate Plain(l: Logical) { l == NoLogical || l == LOther }

  /** A null, int32, string or bool that equals its field's default. */
  predicate IsItsDefault(v: Value, default: Default) {
    match v
    case NullV => default == DefaultIs(NullV)
    case Int32V(i) => default == DefaultIs(Int32V(i))
    case StringV(s) => default == DefaultIs(StringV(s))
    case BoolV(b) => default == DefaultIs(BoolV(b))
    case _ => false
  }

  ghost predicate Typed(v: Value, t: Type, reg: Registry)
    decreases v, 3, t
  {
    match t
    case Nullable(inner) => v == NullV || Typed(v, inner, reg)
    case Union(branches) => v.UnionV? && 0 <= v.branch < |branches| && Typed(v.member, branches[v.branch], reg)
    case Prim(k, l) => TypedPrim(v, k, l)
    case ArrayOf(element) =>
      v.ArrayV? && forall i :: 0 <= i < |v.elements| ==> Typed(v.elements[i], element, reg)
    case MapOf(key, value) => v.MapV? && forall i :: 0 <= i < |v.entries| ==> TypedEntry(v.entries[i], key, value, reg)
    case Ref(name) =>
      match Resolve(reg, name)
      case None => false
      case Some(IsRecord(sch)) => v.RecordV? && forall f :: f in sch.fields ==> TypedField(v, f, reg)
      case Some(IsEnum(symbols)) => v.EnumV? && 0 <= v.ordinal < |symbols|
      case Some(IsFixed(f)) => v.FixedV? && |v.raw| == f.size
  }

  ghost predicate TypedEntry(e: Entry, key: Type, value: Type, reg: Registry)
    decreases e, 0
  {
    Typed(e.key, key, reg) && Typed(e.val, value, reg)
  }

  /** The field is there and of its type, or is its own default, or is not there and has a default. */
  ghost predicate TypedField(v: Value, f: Field, reg: Registry)
    requires v.RecordV?
    decreases v, 2
  {
    if f.id in v.fields then IsItsDefault(v.fields[f.id], f.default) || Typed(v.fields[f.id], f.typ, reg)
    else f.default != NoDefault
  }

  // ---------------------------------------------------------------- the encoder writes exactly the typed values

  lemma FiniteIsNumber(bits: uint64)
    ensures Finite(bits) <==> Number(bits)
  {
    var e := bits / 0x10_0000_0000_0000;
    assert e < 0x1000;
    assert e % 0x800 == if e < 0x800 then e else e - 0x800;
  }

  lemma PrimIffTyped(v: Value, k: Kind, l: Logical)
    ensures EncodePrim(v, k, l).Encoded? <==> TypedPrim(v, k, l)
  {
    if v.Float64V? { FiniteIsNumber(v.bits); }
    hide Finite, Number;
  }

  /** A value is encoded if and only if it is of its type: no value of the type is refused, and nothing else is
      written. */
  lemma {:induction false} EncodesIffTyped(v: Value, t: Type, reg: Registry)
    ensures EncodeValue(v, t, reg).Encoded? <==> Typed(v, t, reg)
    decreases v, 3, t
  {
    match t
    case Nullable(inner) => if !v.NullV? { EncodesIffTyped(v, inner, reg); }
    case Union(branches) =>
      if v.UnionV? && 0 <= v.branch < |branches| { EncodesIffTyped(v.member, branches[v.branch], reg); }
    case Prim(k, l) => PrimIffTyped(v, k, l);
    case ArrayOf(element) => if v.ArrayV? { ElementsIffTyped(v.elements, element, reg); }
    case MapOf(key, value) => if v.MapV? { EntriesIffTyped(v.entries, key, value, reg); }
    case Ref(name) =>
      if v.RecordV? && name in reg.records { RecordIffTyped(v, reg.records[name], reg); }
      assert v.RecordV? && name in reg.records ==> EncodeNamed(v, name, reg) == EncodeRecord(v, reg.records[name], reg);
  }

  lemma {:induction false} ElementsIffTyped(vs: seq<Value>, t: Type, reg: Registry)
    ensures EncodeElements(vs, t, reg).Encoded? <==> forall i :: 0 <= i < |vs| ==> Typed(vs[i], t, reg)
    decreases vs, 0
  {
    hide EncodeValue, Typed;
    if vs != [] {
      EncodesIffTyped(vs[0], t, reg);
      ElementsIffTyped(vs[1..], t, reg);
      assert forall i :: 0 < i < |vs| ==> vs[i] == vs[1..][i - 1];
      assert forall i :: 0 <= i < |vs[1..]| ==> vs[1..][i] == vs[i + 1];
    }
  }

  lemma {:induction false} EntryIffTyped(e: Entry, key: Type, value: Type, reg: Registry)
    ensures EncodeEntry(e, key, value, reg).Encoded? <==> TypedEntry(e, key, value, reg)
    decreases e, 0
  {
    hide EncodeValue, Typed;
    EncodesIffTyped(e.key, key, reg);
    EncodesIffTyped(e.val, value, reg);
  }

  lemma {:induction false} EntriesIffTyped(es: seq<Entry>, key: Type, value: Type, reg: Registry)
    ensures EncodeEntries(es, key, value, reg).Encoded? <==>
            forall i :: 0 <= i < |es| ==> TypedEntry(es[i], key, value, reg)
    decreases es, 0
  {
    hide EncodeEntry, TypedEntry;
    if es != [] {
      EntryIffTyped(es[0], key, value, reg);
      EntriesIffTyped(es[1..], key, value, reg);
      assert forall i :: 0 < i < |es| ==> es[i] == es[1..][i - 1];
      assert forall i :: 0 <= i < |es[1..]| ==> es[1..][i] == es[i + 1];
    }
  }

  /** A field is left off the wire exactly if it is not there or is its own default. */
  lemma WrittenIff(v: Value, f: Field)
    requires v.RecordV?
    ensures Written(v, f) <==> f.id in v.fields && !IsItsDefault(v.fields[f.id], f.default)
  {}

  lemma {:induction false} FieldIffTyped(v: Value, f: Field, reg: Registry)
    requires v.RecordV?
    ensures EncodeField(v, f, reg).Encoded? <==> TypedField(v, f, reg)
    ensures EncodeField(v, f, reg) == Encoded([]) <==>
            if f.id in v.fields then IsItsDefault(v.fields[f.id], f.default) else f.default != NoDefault
    decreases v, 0, 0
  {
    WrittenIff(v, f);
    hide EncodeValue, Typed, Written, IsItsDefault;
    if Written(v, f) { EncodesIffTyped(v.fields[f.id], f.typ, reg); }
  }

  lemma {:induction false} FieldsIffTyped(v: Value, fs: seq<Field>, reg: Registry)
    requires v.RecordV?
    ensures EncodeFields(v, fs, reg).Encoded? <==> forall f :: f in fs ==> TypedField(v, f, reg)
    decreases v, 0, 1, |fs|
  {
    hide EncodeField, TypedField;
    if fs != [] {
      FieldIffTyped(v, fs[0], reg);
      FieldsIffTyped(v, fs[1..], reg);
      assert fs == [fs[0]] + fs[1..];
    }
  }

  lemma {:induction false} RecordIffTyped(v: Value, sch: RecordSchema, reg: Registry)
    requires v.RecordV?
    ensures EncodeRecord(v, sch, reg).Encoded? <==> forall f :: f in sch.fields ==> TypedField(v, f, reg)
    decreases v, 1
  {
    hide TypedField;
    FieldsIffTyped(v, WireOrder(sch.fields), reg);
  }
}
