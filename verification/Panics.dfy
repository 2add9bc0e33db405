/** When decoding can stop the process (go/kdb/codec/wire_numbers.go, rawN, and wirecodec.go, upliftFixed): through
    a length or a fixed size that, added to the position in 64 bits, wraps, and through a fixed type that is too
    short for its annotation. */
module Panics {
  import opened Words
  import opened Varint
  import opened Schema
  import opened Decode

  /** Longer than any input: rawN adds at most sixteen to a position on its own account. */
  const TOO_LONG: int := TWO_63 - 16

  /** What stands at `i`, taken as a length, does not wrap when rawN adds it to the position after it. */
  predicate SafeAt(raw: Bytes, i: nat)
    requires i <= |raw|
  {
    var n := ReadLeb(raw, i);
    n.Ok? ==> n.pos + FromU64(n.value) < TWO_63
  }

  ghost predicate SafeLengths(raw: Bytes) { forall i :: 0 <= i <= |raw| ==> SafeAt(raw, i) }

  /** Reading a value of a fixed type from input of `n` bytes: its size does not wrap, and if it is annotated as a
      UUID it has the sixteen bytes that are looked at, or more bytes than there are. */
  predicate SafeFixed(f: FixedSchema, n: nat) {
    f.size >= 0 ==> n + f.size < TWO_63 && (f.logical == LUuid ==> f.size >= 16 || f.size > n)
  }

  ghost predicate SafeFixeds(reg: Registry, n: nat) {
    forall name :: Resolve(reg, name).Some? && Resolve(reg, name).value.IsFixed? ==>
      SafeFixed(Resolve(reg, name).value.fixed, n)
  }

  /** What is safe in the whole is safe in a slab of it. */
  lemma SafeWithin(raw: Bytes, a: nat, b: nat)
    requires SafeLengths(raw) && a <= b <= |raw|
    ensures SafeLengths(raw[a..b])
  {
    hide ReadLeb;
    var s := raw[a..b];
    forall i | 0 <= i <= |s| ensures SafeAt(s, i) {
      LebWithin(raw, a, s, i);
      assert SafeAt(raw, a + i);
    }
  }

  lemma SmallReads(raw: Bytes, pos: nat, n: int)
    requires pos <= |raw| < TWO_63 && n < TWO_63 && pos + n < TWO_63
    ensures !RawN(raw, pos, n).Panic?
  {}

  /** Exactly a length that wraps stops the reading of length-prefixed bytes. */
  lemma BytesPanicExactly(raw: Bytes, pos: nat)
    requires pos <= |raw| < TWO_63
    ensures ReadLebBytes(raw, pos).Panic? <==> !SafeAt(raw, pos)
  {
    hide ReadLeb;
    var r := ReadLeb(raw, pos);
    if r.Ok? && FromU64(r.value) >= 0 && r.pos + FromU64(r.value) >= TWO_63 {
      assert WrapInt64(r.pos + FromU64(r.value)) < 0;
    }
  }

  lemma PrimDoesNotPanic(raw: Bytes, pos: nat, k: Kind, l: Logical)
    requires SafeLengths(raw) && pos <= |raw| < TOO_LONG
    ensures !DecodePrim(raw, pos, k, l).Panic? && !SkipTagged(raw, pos, k).Panic?
  {
    BytesPanicExactly(raw, pos);
    hide ReadLebBytes, SafeAt;
    SmallReads(raw, pos, 2);
    SmallReads(raw, pos, 4);
    SmallReads(raw, pos, 8);
    SmallReads(raw, pos, 16);
    hide RawN;
  }

  /** Decoding input in which no varint wraps as a length, with fixed types that are safe for input of its length,
      never stops the process, at whatever position and for whatever type: it succeeds or reports an error. */
  lemma {:induction false} DecodingDoesNotPanic(raw: Bytes, pos: nat, t: Type, reg: Registry)
    requires SafeLengths(raw) && SafeFixeds(reg, |raw|) && pos <= |raw| < TOO_LONG
    ensures !DecodeValue(raw, pos, t, reg).Panic?
    decreases |raw| - pos, 3
  {
    hide SafeLengths, SafeFixeds, ReadLeb, DecodePrim, DecodeElements, DecodeEntries, DecodeNamed;
    match t
    case Nullable(inner) =>
      if pos < |raw| { DecodingDoesNotPanic(raw, pos + 1, inner, reg); }
    case Union(branches) =>
      if pos < |raw| && raw[pos] < |branches| { DecodingDoesNotPanic(raw, pos + 1, branches[raw[pos]], reg); }
    case Prim(k, l) => PrimDoesNotPanic(raw, pos, k, l);
    case ArrayOf(element) =>
      var r := ReadLeb(raw, pos);
      if r.Ok? { ElementsDoNotPanic(raw, r.pos, r.value, element, reg); }
    case MapOf(key, value) =>
      var r := ReadLeb(raw, pos);
      if r.Ok? { EntriesDoNotPanic(raw, r.pos, r.value, key, value, reg); }
    case Ref(name) => NamedDoesNotPanic(raw, pos, name, reg);
  }

  lemma {:induction false} ElementsDoNotPanic(raw: Bytes, pos: nat, n: nat, t: Type, reg: Registry)
    requires SafeLengths(raw) && SafeFixeds(reg, |raw|) && pos <= |raw| < TOO_LONG
    ensures !DecodeElements(raw, pos, n, t, reg).Panic?
    decreases |raw| - pos, 4, n
  {
    hide SafeLengths, SafeFixeds, DecodeValue;
    if n > 0 {
      DecodingDoesNotPanic(raw, pos, t, reg);
      var r := DecodeValue(raw, pos, t, reg);
      if r.Ok? { ElementsDoNotPanic(raw, r.pos, n - 1, t, reg); }
    }
  }

  lemma {:induction false} EntriesDoNotPanic(raw: Bytes, pos: nat, n: nat, key: Type, value: Type, reg: Registry)
    requires SafeLengths(raw) && SafeFixeds(reg, |raw|) && pos <= |raw| < TOO_LONG
    ensures !DecodeEntries(raw, pos, n, key, value, reg).Panic?
    decreases |raw| - pos, 4, n
  {
    hide SafeLengths, SafeFixeds, DecodeValue;
    if n > 0 {
      DecodingDoesNotPanic(raw, pos, key, reg);
      var k := DecodeValue(raw, pos, key, reg);
      if k.Ok? {
        DecodingDoesNotPanic(raw, k.pos, value, reg);
        var x := DecodeValue(raw, k.pos, value, reg);
        if x.Ok? { EntriesDoNotPanic(raw, x.pos, n - 1, key, value, reg); }
      }
    }
  }

  lemma {:induction false} NamedDoesNotPanic(raw: Bytes, pos: nat, name: string, reg: Registry)
    requires SafeLengths(raw) && SafeFixeds(reg, |raw|) && pos <= |raw| < TOO_LONG
    ensures !DecodeNamed(raw, pos, name, reg).Panic?
    decreases |raw| - pos, 2
  {
    hide SafeLengths, DecodeRecord;
    match Resolve(reg, name)
    case None =>
    case Some(IsRecord(sch)) => RecordDoesNotPanic(raw, pos, sch, reg);
    case Some(IsEnum(_)) => SmallReads(raw, pos, 4);
    case Some(IsFixed(f)) =>
      assert SafeFixed(f, |raw|);
      if f.size >= 0 { SmallReads(raw, pos, f.size); }
  }

  lemma {:induction false} RecordDoesNotPanic(raw: Bytes, pos: nat, sch: RecordSchema, reg: Registry)
    requires SafeLengths(raw) && SafeFixeds(reg, |raw|) && pos <= |raw| < TOO_LONG
    ensures !DecodeRecord(raw, pos, sch, reg).Panic?
    decreases |raw| - pos, 1
  {
    hide SafeLengths, SafeFixeds, ReadLeb, RawN, DecodeFields, FillDefaults;
    SafeHere(raw, pos);
    var r := ReadLeb(raw, pos);
    if r.Ok? {
      var n := FromU64(r.value);
      SmallReads(raw, r.pos, n);
      var s := RawN(raw, r.pos, n);
      if s.Ok? {
        SafeWithin(raw, r.pos, s.pos);
        FewerBytes(reg, |raw|, |s.value|);
        FieldsDoNotPanic(s.value, 0, map[], sch, reg);
      }
    }
  }

  lemma {:induction false} FieldsDoNotPanic(slab: Bytes, pos: nat, got: map<int, Value>, sch: RecordSchema,
                                            reg: Registry)
    requires SafeLengths(slab) && SafeFixeds(reg, |slab|) && pos <= |slab| < TOO_LONG
    ensures !DecodeFields(slab, pos, got, sch, reg).Panic?
    decreases |slab| - pos, 0
  {
    hide SafeLengths, SafeFixeds, ReadLeb, SkipTagged, DecodeValue, PhysicalTag, FieldById, KindOf;
    if pos < |slab| {
      var r := ReadLeb(slab, pos);
      if r.Ok? && r.pos < |slab| && KindOf(slab[r.pos]).Some? {
        var kind, p := KindOf(slab[r.pos]).value, r.pos + 1;
        var id := FromU64(r.value);
        match FieldById(sch.fields, id)
        case None =>
          PrimDoesNotPanic(slab, p, kind, NoLogical);
          var s := SkipTagged(slab, p, kind);
          if s.Ok? { FieldsDoNotPanic(slab, s.pos, got, sch, reg); }
        case Some(f) =>
          if kind == PhysicalTag(f.typ, reg) {
            DecodingDoesNotPanic(slab, p, f.typ, reg);
            var x := DecodeValue(slab, p, f.typ, reg);
            if x.Ok? { FieldsDoNotPanic(slab, x.pos, got[id := x.value], sch, reg); }
          }
      }
    }
  }

  lemma SafeHere(raw: Bytes, pos: nat)
    requires SafeLengths(raw) && pos <= |raw|
    ensures SafeAt(raw, pos)
  {}

  lemma FewerBytes(reg: Registry, n: nat, m: nat)
    requires SafeFixeds(reg, n) && m <= n
    ensures SafeFixeds(reg, m)
  {}

  // ---------------------------------------------------------------- and exactly then

  lemma ALengthThatWraps(raw: Bytes, pos: nat, reg: Registry)
    requires pos <= |raw| < TWO_63 && !SafeAt(raw, pos)
    ensures DecodeValue(raw, pos, Prim(KString, NoLogical), reg) == Panic
  {
    BytesPanicExactly(raw, pos);
    hide ReadLebBytes, SafeAt;
  }

  /** A fixed type annotated as a UUID that is shorter than one stops the process on all input that is long enough
      for it. */
  lemma AShortUuid(raw: Bytes, pos: nat, name: string, f: FixedSchema, reg: Registry)
    requires Resolve(reg, name) == Some(IsFixed(f)) && f.logical == LUuid && 0 <= f.size < 16
    requires pos + f.size <= |raw| < TWO_63
    ensures DecodeValue(raw, pos, Ref(name), reg) == Panic
  {
    assert DecodeNamed(raw, pos, name, reg) == Panic;
  }

  lemma ASizeThatWraps(raw: Bytes, name: string, f: FixedSchema, reg: Registry)
    requires Resolve(reg, name) == Some(IsFixed(f)) && f.size >= 0 && |raw| + f.size >= TWO_63 > |raw|
    ensures DecodeValue(raw, |raw|, Ref(name), reg) == Panic
  {
    assert WrapInt64(|raw| + f.size) < 0;
    assert DecodeNamed(raw, |raw|, name, reg) == Panic;
  }

  /** Nothing stops the process, wherever in the input it begins and whatever it decodes. */
  ghost predicate NeverPanics(raw: Bytes, reg: Registry) {
    forall pos, t :: 0 <= pos <= |raw| ==> !DecodeValue(raw, pos, t, reg).Panic?
  }

  /** The two causes are all there are, and each of them does it: input never stops the process, at any position and
      for any type over the registry, if and only if no varint in it wraps as a length and the fixed types are safe
      for input of its length. */
  lemma PanicsExactly(raw: Bytes, reg: Registry)
    requires |raw| < TOO_LONG
    ensures NeverPanics(raw, reg) <==> SafeLengths(raw) && SafeFixeds(reg, |raw|)
  {
    hide DecodeValue, SafeAt, Resolve;
    if SafeLengths(raw) && SafeFixeds(reg, |raw|) {
      forall pos, t | 0 <= pos <= |raw| ensures !DecodeValue(raw, pos, t, reg).Panic? {
        DecodingDoesNotPanic(raw, pos, t, reg);
      }
    } else if !SafeLengths(raw) {
      var i :| 0 <= i <= |raw| && !SafeAt(raw, i);
      ALengthThatWraps(raw, i, reg);
    } else {
      var name :| Resolve(reg, name).Some? && Resolve(reg, name).value.IsFixed? &&
                  !SafeFixed(Resolve(reg, name).value.fixed, |raw|);
      var f := Resolve(reg, name).value.fixed;
      if |raw| + f.size >= TWO_63 { ASizeThatWraps(raw, name, f, reg); } else { AShortUuid(raw, 0, name, f, reg); }
    }
  }

  /** A string whose length says 2^63 - 1 does stop it. */
  lemma ALengthThatPanics(reg: Registry)
    ensures DecodeValue(Leb(TWO_63 - 1), 0, Prim(KString, NoLogical), reg) == Panic
  {
    var raw := Leb(TWO_63 - 1);
    assert At(raw, 0, raw);
    LebRoundTrip(raw, 0, TWO_63 - 1);
    hide ReadLeb, Leb;
    assert |raw| >= 1;
    assert RawN(raw, |raw|, TWO_63 - 1) == Panic;
  }
}
