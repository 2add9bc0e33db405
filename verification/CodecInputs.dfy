/** Inputs at which the promises of the codec end: each is one where the condition of a theorem of Codec fails. */
module CodecInputs {
  import opened Words
  import opened Varint
  import opened Schema
  import opened Encode
  import opened Decode
  import opened RoundTrip
  import opened Evolution
  import opened Codec

  const NULL: Type := Prim(KNull, NoLogical)

  /** An array of one null, with nothing after it, is written and not read back. */
  lemma OneNullAlone(reg: Registry)
    ensures EncodeValue(ArrayV([NullV]), ArrayOf(NULL), reg) == Encoded([1])
    ensures DecodeValue([1], 0, ArrayOf(NULL), reg) != Ok(ArrayV([NullV]), 1)
    ensures DecodeValue([1, 0], 0, ArrayOf(NULL), reg) == Ok(ArrayV([NullV]), 1)
  {
    var v := ArrayV([NullV]);
    assert [NullV][1..] == [] && EncodeElements([], NULL, reg) == Encoded([]);
    assert EncodeElements([NullV], NULL, reg) == Encoded([] + []) && Leb(1) == [1];
    assert EncodeValue(v, ArrayOf(NULL), reg) == Encoded([1] + []);
    hide EncodeValue, DecodeValue;
    assert [1] + [] == [1] && [1] + [0] == [1, 0];
    ZeroWidthArray(v, NULL, reg, []);
    ZeroWidthArray(v, NULL, reg, [0]);
  }

  /** The last of 257 branches is read back as the first. */
  lemma TheLastBranch(reg: Registry)
    ensures var branches := seq(257, _ => NULL);
      && EncodeValue(UnionV(256, NullV), Union(branches), reg) == Encoded([0])
      && DecodeValue([0], 0, Union(branches), reg) == Ok(UnionV(0, NullV), 1)
  {
    var branches := seq(257, _ => NULL);
    assert EncodeValue(NullV, NULL, reg) == Encoded([]) && DecodeValue([0], 1, NULL, reg) == Ok(NullV, 1);
    assert branches[256] == NULL && branches[0] == NULL;
  }

  // A list node, as written, and as a reader knows it that has lost its tags.
  const NEXT: Field := Field(1, "next", Nullable(Ref("n")), DefaultIs(NullV))
  const TAGS: Field := Field(2, "tags", ArrayOf(Prim(KInt32, NoLogical)), DefaultIs(NullV))
  const WRITER: Registry := Registry(map["n" := RecordSchema([NEXT, TAGS])], map[], map[])
  const READER: Registry := Registry(map["n" := RecordSchema([NEXT])], map[], map[])
  const TAIL: Value := RecordV(map[2 := ArrayV([])])
  const LIST: Value := RecordV(map[1 := TAIL])

  lemma ListFields()
    ensures WireOrder([NEXT, TAGS]) == [NEXT, TAGS] && [NEXT, TAGS][1..] == [TAGS] && [TAGS][1..] == []
    ensures FieldById([NEXT], 2).None? && FieldById([NEXT], 1) == Some(NEXT)
    ensures Written(TAIL, TAGS) && !Written(TAIL, NEXT) && Written(LIST, NEXT) && !Written(LIST, TAGS)
  {
    assert SortedById([NEXT, TAGS]);
  }

  lemma ListHalts()
    ensures Halts(LIST, Ref("n"), WRITER, READER)
  {
    ListFields();
    hide WireOrder, FieldById, Written;
    assert FieldsHalt(TAIL, [TAGS], [NEXT], WRITER, READER);
    assert FieldsHalt(TAIL, [NEXT, TAGS], [NEXT], WRITER, READER);
    assert Halts(TAIL, Ref("n"), WRITER, READER) && Halts(TAIL, Nullable(Ref("n")), WRITER, READER);
    assert FieldsHalt(LIST, [NEXT, TAGS], [NEXT], WRITER, READER);
  }

  lemma ListComparable()
    ensures Comparable(WRITER, READER)
  {
    ListFields();
    hide FieldById, WireOrder, Written;
  }

  lemma Headers()
    ensures FieldHeader(NEXT, WRITER) == [1, 14] && FieldHeader(TAGS, WRITER) == [2, 10]
    ensures Leb(0) == [0] && Leb(3) == [3] && Leb(7) == [7]
  {
    assert Leb(1) == [1] && Leb(2) == [2];
  }

  lemma TagsEncode()
    ensures EncodeValue(ArrayV([]), TAGS.typ, WRITER) == Encoded([0]) && Fits(ArrayV([]), TAGS.typ, WRITER)
  {
    Headers();
    hide Leb;
    assert EncodeElements([], Prim(KInt32, NoLogical), WRITER) == Encoded([]);
    assert [0] + [] == [0];
  }

  lemma TailEncodes()
    ensures EncodeFields(TAIL, [NEXT, TAGS], WRITER) == Encoded([2, 10, 0]) && FieldsFit(TAIL, [NEXT, TAGS], WRITER)
  {
    hide WireOrder, FieldById, Written, PhysicalTag, EncodeValue, FieldHeader, Fits, Leb;
    ListFields();
    Headers();
    TagsEncode();
    assert EncodeField(TAIL, TAGS, WRITER) == Encoded([2, 10] + [0]);
    assert EncodeFields(TAIL, [], WRITER) == Encoded([]) &&
      EncodeFields(TAIL, [TAGS], WRITER) == Encoded([2, 10, 0] + []);
    assert FieldsFit(TAIL, [TAGS], WRITER);
  }

  lemma TailFits()
    ensures EncodeValue(TAIL, NEXT.typ, WRITER) == Encoded([1, 3, 2, 10, 0]) && Fits(TAIL, NEXT.typ, WRITER)
  {
    hide EncodeFields, FieldsFit, WireOrder, FieldById, Written, Leb;
    ListFields();
    Headers();
    TailEncodes();
    assert EncodeRecord(TAIL, RecordSchema([NEXT, TAGS]), WRITER) == Encoded([3] + [2, 10, 0]);
    assert EncodeNamed(TAIL, "n", WRITER) == Encoded([3, 2, 10, 0]);
    assert EncodeValue(TAIL, Ref("n"), WRITER) == Encoded([3, 2, 10, 0]) && Fits(TAIL, Ref("n"), WRITER);
  }

  lemma ListEncodes()
    ensures EncodeFields(LIST, [NEXT, TAGS], WRITER) == Encoded([1, 14, 1, 3, 2, 10, 0])
    ensures FieldsFit(LIST, [NEXT, TAGS], WRITER)
  {
    hide WireOrder, FieldById, Written, PhysicalTag, EncodeValue, FieldHeader, Fits, Leb;
    ListFields();
    Headers();
    TailFits();
    assert EncodeField(LIST, NEXT, WRITER) == Encoded([1, 14] + [1, 3, 2, 10, 0]);
    assert EncodeField(LIST, TAGS, WRITER) == Encoded([]);
    assert EncodeFields(LIST, [], WRITER) == Encoded([]) && FieldsFit(LIST, [], WRITER);
    assert EncodeFields(LIST, [TAGS], WRITER) == Encoded([]) && FieldsFit(LIST, [TAGS], WRITER);
  }

  lemma ListFits()
    ensures EncodeValue(LIST, Ref("n"), WRITER) == Encoded([7, 1, 14, 1, 3, 2, 10, 0]) && Fits(LIST, Ref("n"), WRITER)
  {
    hide EncodeFields, FieldsFit, WireOrder, FieldById, Written, Leb;
    ListFields();
    Headers();
    ListEncodes();
    assert EncodeRecord(LIST, RecordSchema([NEXT, TAGS]), WRITER) == Encoded([7] + [1, 14, 1, 3, 2, 10, 0]);
    assert EncodeNamed(LIST, "n", WRITER) == Encoded([7, 1, 14, 1, 3, 2, 10, 0]);
  }

  /** It happens, and within a record that names itself: the reader knows every field of the first node, and refuses
      the list for the tags of the second. */
  lemma LostInTheTail()
    ensures EncodeValue(LIST, Ref("n"), WRITER) == Encoded([7, 1, 14, 1, 3, 2, 10, 0])
    ensures DecodeValue([7, 1, 14, 1, 3, 2, 10, 0], 0, Ref("n"), READER) == Err
  {
    hide EncodeValue, DecodeValue, Fits, Clear, Halts, Comparable;
    ListFits();
    ListComparable();
    ListHalts();
    DroppedFields(LIST, Ref("n"), WRITER, READER, [7, 1, 14, 1, 3, 2, 10, 0], []);
    assert [7, 1, 14, 1, 3, 2, 10, 0] + [] == [7, 1, 14, 1, 3, 2, 10, 0];
  }

  const ID: Field := Field(1, "id", Prim(KString, LUuid), NoDefault)
  const NIL: Bytes := seq(16, _ => 0)

  lemma NilReads(slab: Bytes)
    requires slab == [1, 9] + NIL
    ensures |slab| == 18 && ReadLeb(slab, 0) == Ok(1, 1) && slab[1] == 9 && slab[4] == 0
    ensures ReadLeb(slab, 2) == Ok(0, 3) && ReadLeb(slab, 3) == Ok(0, 4)
  {
    assert Leb(0) == [0] && Leb(1) == [1];
    assert At(slab, 0, Leb(1)) && At(slab, 2, Leb(0)) && At(slab, 3, Leb(0));
    LebRoundTrip(slab, 0, 1);
    LebRoundTrip(slab, 2, 0);
    LebRoundTrip(slab, 3, 0);
  }

  /** A lost field annotated as a UUID is neither skipped nor refused for its kind: its sixteen bytes are taken for a
      string with its length, and what is left of them for further fields. */
  lemma ALostUuid(sch: RecordSchema, reg: Registry)
    requires FieldById(sch.fields, 0).None? && FieldById(sch.fields, 1).None?
    ensures EncodeField(RecordV(map[1 := FixedV(NIL)]), ID, reg) == Encoded([1, 9] + NIL)
    ensures SkipTagged([1, 9] + NIL, 2, KString) == Ok((), 3)
    ensures DecodeFields([1, 9] + NIL, 0, map[], sch, reg) == Err
  {
    var slab := [1, 9] + NIL;
    NilReads(slab);
    assert Leb(1) == [1];
    assert FieldHeader(ID, reg) == [1, 9];
    hide ReadLeb, Leb, FieldById, FieldHeader;
    UnknownFails(slab, 3, map[], sch, reg, 0, 4, KNull);
  }
}
