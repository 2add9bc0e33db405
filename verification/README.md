# kdb, modelled and proved in Dafny

kdb is a versioned document database written in Go. This project models the parts of it that carry the
hardest logic and proves what they promise:

- **The binary codec** (`Words`, `Varint`, `Schema`, `Encode`, `Typing`, `Layout`, `Decode`, `Primitives`,
  `RoundTrip`, `Evolution`, `Codec`, `Decoded`, `CodecInputs`, `Panics`, `WireCodec`): a recursive, schema-driven
  format with tagged record slabs, omitted defaults and skipped unknown fields. `Encode` and `Decode` are the
  specification, `WireCodec` the buffer and cursor code proved against it; `Typing` says which values are encoded and
  `Layout` to which bytes, `Decoded` what comes out of any bytes at all; `RoundTrip` is the theorem that one registry
  reads what another wrote and `Evolution` the refusals where it cannot.
- **The commit graph** (`Lanes`): the lane assignment of the history drawing, proved about whole drawings.
- **Attachment content** (`Merkle`, `Content`): the chunked Merkle tree of section 2.1 of RFC 6962, its streaming
  builder, its level-by-level form and its inclusion proofs, shown to be one and the same tree.
- **Attachment transfer** (`StreamReader`, `RangeReader`, `Upload`): the readers against a server that answers as
  it likes, and the resumable upload against lost requests, lost replies and dropped uploads.
- **Backups** (`Keys`, `BackupRuns`, `LogTips`, `BackupCreate`, `BackupRestore`, `DatabaseBackup`): any number of
  overlapping backups as runs of puts that a crash may cut off anywhere, the code that makes and restores them,
  and what a restore gives back however much later.
- **Client concurrency** (`Multiplexer`, `CompareAndSwap`, `AutoCommit`, `TxPool`) and the **event hub**
  (`EventHub`): step relations over interleaved callers, and the objects whose methods run under one lock.

Hash functions are parameters. What is asked of them is stated where it is used: no collisions, and for the hashes
in object keys no slashes. Answers of the server, reads of the log and of attachments, and failures of the store are
inputs that range over everything.

Where the code does not do what its comments or documentation promise, the model follows the code and the exact
condition is proved:

- Element counts are checked against the bytes that remain, so an array of zero-width elements may not read back
  (`Codec.ZeroWidthArray`, `CodecInputs.OneNullAlone`); a union with more than 256 branches may not either
  (`Codec.UnionBranchFits`, `CodecInputs.TheLastBranch`).
- Decoding can stop the process, through a length or fixed size that wraps when `rawN` adds it in 64 bits, or a fixed
  type annotated as a UUID and too short for one (`Panics.PanicsExactly`, `Panics.ALengthThatPanics`,
  `Panics.AShortUuid`).
- A reader that lost a field of a kind that cannot be skipped refuses the record (`Codec.DroppedFields`,
  `CodecInputs.LostInTheTail`); and a lost date, timestamp or UUID is passed by its kind, which need not be its width
  (`Primitives.AnnotatedSkips`, `CodecInputs.ALostUuid`). What a reader makes of the rest after a wrong skip is not
  decided here.
- A base backup identifier with a slash reaches into a nested namespace, and an incremental backup against it can
  name attachment parts that were never stored (`BackupRuns.BaseOfNamespace`, `BackupRuns.ForeignBaseBreaks`).
- A commit refused for a document lock leaves an Exec's operations in the session, where the next Exec commits
  them, although nothing was cancelled (`AutoCommit.CommitsItsOwn`, `AutoCommit.BarredThenCommitted`).
- A compare-and-swap whose reply is lost may have been applied (`CompareAndSwap.AppliedIsSuccessful`,
  `CompareAndSwap.ALostReply`); and one that creates a document merges its body with the document at the head the
  client knows, if it was there then (`CompareAndSwap.StoresWhatWasAnswered`, `CompareAndSwap.ADeletedDocument`).
- A commit refused for a lock also puts its session back into the pool with its writes, and the next transaction that
  takes it cannot begin (`TxPool.EmptyUnlessBarred`, `TxPool.BarredThenRefused`).
- A ranged read ends short, without an error, if a page is marked last early (`RangeReader.RangeReader.Read`,
  `RangeReader.ReadsShort`).
- An upload cannot be resumed once the server has dropped it (`Upload.ResumeTwice`, `Upload.EndsAnUpload`,
  `Upload.AnExpiredUpload`).
- An attachment segment of which a read falls short is backed up short (`BackupCreate.WholeUnlessShort`,
  `BackupRestore.RestoredWhole`).

`dafny verify dfyconfig.toml` checks the whole project.

## Model

| member | source | states |
|---|---|---|
| Words.PutLe | go/kdb/codec/primitives.go:163-173 | writes exactly the low bytes of the value, lowest first |
| Words.ReadLe | go/kdb/codec/primitives.go:175-189 | reads the number those bytes spell |
| Words.LeRoundTrip | go/kdb/codec/primitives.go:163-189 | little-endian bytes read back as the number, for every number the width holds |
| Words.LeOnto | go/kdb/codec/primitives.go:163-189 | every byte string of a width is the little-endian writing of the number it reads as |
| Words.LeWeights | go/kdb/codec/primitives.go:163-173 | byte i of a little-endian word is its digit of weight 256 to the i |
| Words.WriteBe | go/kdb/codec/primitives.go:74-79 | fills eight bytes, highest first, in place and touches nothing else |
| Words.ReadBe | go/kdb/codec/primitives.go:132-138 | reads the number those bytes spell |
| Words.BeRoundTrip | go/kdb/codec/primitives.go:74-138 | big-endian bytes read back as the number |
| Words.BeOnto | go/kdb/codec/primitives.go:74-138 | every byte string is the big-endian writing of the number it reads as |
| Words.BeWeights | go/kdb/codec/primitives.go:74-79 | byte i from the end of a big-endian word is its digit of weight 256 to the i |
| Words.TimestampFromEpochMicros | go/kdb/codec/primitives.go:122-130 | splits any int64 of microseconds, negative ones included, so that EpochMicros gives it back and the remainder is in 0..999 |
| Varint.AppendLeb128U32 | go/kdb/codec/wire_numbers.go:11-21 | appends exactly the base-128 digits of the number |
| Varint.LebAt | go/kdb/codec/wire_numbers.go:11-21 | byte i of a varint is the digit of weight 128 to the i, with the top bit set exactly on all but the last |
| Varint.LebSize | go/kdb/codec/wire_numbers.go:11-21 | a varint has exactly as many bytes as its number has digits to the base 128, one for 0 |
| Varint.ReadLeb128U64 | go/kdb/codec/wire_numbers.go:29-54 | keeps the low 64 bits of what at most ten bytes spell, and reports truncation and overflow |
| Varint.LebRoundTrip | go/kdb/codec/wire_numbers.go:11-54 | every 64-bit number is read back from its digits, whatever follows, consuming exactly them |
| Varint.RawNExact | go/kdb/codec/wire_numbers.go:65-73 | the bounds test of rawN refuses exactly the lengths the input does not back if and only if the 64-bit sum of position and length does not wrap |
| Varint.LebBytesRoundTrip | go/kdb/codec/wire_numbers.go:119-150 | length-prefixed bytes are read back if and only if their length is below 2^32 |
| Varint.Cursor.ReadU8 | go/kdb/codec/wire_numbers.go:56-63 | consumes one byte, or reports the end; the cursor stays within its limit |
| Varint.Cursor.ReadRaw | go/kdb/codec/wire_numbers.go:65-73 | consumes exactly n bytes, fails, or stops the process, as rawN does |
| Varint.Cursor.ReadLength | go/kdb/codec/wire_numbers.go:75-77 | consumes one varint; the cursor never moves back or past its limit |
| Varint.Cursor.ReadPrefixed | go/kdb/codec/wire_numbers.go:136-150 | consumes a length and exactly that many bytes |
| Schema.WireOrderIsStrict | go/kdb/codec/wirecodec.go:132-146 | fields with distinct ids are encoded in strictly ascending order of id, whether or not they were declared so |
| Schema.WireOrderCanonical | go/kdb/codec/wirecodec.go:132-146 | the already-sorted fast path and the sorting path agree: the order depends only on the set of fields |
| Encode.OrderOfDeclarationIsInvisible | go/kdb/codec/wirecodec.go:40-166 | two schemas whose records declare the same fields in any order encode every value to the same bytes, through any nesting |
| Typing.EncodesIffTyped | go/kdb/codec/wirecodec.go:40-166 | a value is encoded if and only if it is of its type, said of values alone: no value of the type is refused and nothing else is written, however deep |
| Typing.PrimIffTyped | go/kdb/codec/wirecodec.go:222-283 | for primitives: of the kind or the annotation, and a float only if it is a number and not an infinity or a NaN |
| Typing.FieldIffTyped | go/kdb/codec/wirecodec.go:132-193 | a field is written if it is of its type, left off exactly if it is its own default (null, int32, string or bool) or absent with a default, and refused otherwise |
| Layout.Primitive | go/kdb/codec/wirecodec.go:222-283 | the bytes of every primitive: 0 and 1, four or eight bytes low first in two's complement, float bits, UUIDs high first, and lengths before strings |
| Layout.Markers | go/kdb/codec/wirecodec.go:40-60 | a nullable value is 0, or 1 and the value; a union value is the number of its branch and the value |
| Layout.TagNumbers | go/kdb/codec/schema/physical.go:6-23 | the header of a field is its id and the number of its kind |
| Decode.DecodeValue | go/kdb/codec/wirecodec.go:304-377 | decoding any bytes under any schema, self-referential ones included, terminates, and success leaves the position between where it started and the end |
| Decode.DecodeRecord | go/kdb/codec/wirecodec.go:409-464 | a record takes at least one byte and ends within the input, so recursion through records is bounded by what remains |
| Decode.SkipTagged | go/kdb/codec/wirecodec.go:466-486 | skipping stays within the input |
| Primitives.PhysicalRead | go/kdb/codec/wirecodec.go:252-283 | every value of a primitive kind is encoded, and is read back from its encoding at any position |
| Primitives.PrimRead | go/kdb/codec/wirecodec.go:222-250 | with dates, timestamps and UUIDs: the value comes back in its annotated form |
| Primitives.SkipRead | go/kdb/codec/wirecodec.go:466-486 | skipping a primitive that can be skipped lands exactly where reading it would |
| Primitives.SkipLands | go/kdb/codec/wirecodec.go:466-486 | whatever the bytes and whatever follows them, skipping by a kind ends where they end if and only if they have the width of the kind or, for strings and bytes, begin with what is left of them as their length |
| Primitives.AnnotatedSkips | go/kdb/codec/wirecodec.go:222-250 | so a date, timestamp or UUID is passed by its kind if and only if the kind has the width of the annotation, which none has for a UUID, or is a string or bytes and its own bytes spell their length |
| RoundTrip.ReadsWhatIsClear | go/kdb/codec/wirecodec.go:40-486 | a value none of whose records, however deep, has a field on the wire that the reader lost and does not skip right is read at any position as what that reader should see, consuming exactly the encoding |
| Evolution.StopsWhereItHalts | go/kdb/codec/wirecodec.go:304-486 | a value in which the first lost field that is not skipped right, in a union, array, map or record that names itself, is of a kind that cannot be skipped is refused wherever its encoding stands |
| Evolution.ClearOrHalts | go/kdb/codec/wirecodec.go:409-486 | if every lost field is always skipped right or of such a kind, every value is one or the other |
| Evolution.FieldStops | go/kdb/codec/wirecodec.go:418-486 | a field on the wire that the reader does not know and that is of a kind that cannot be skipped, or that it knows and must refuse within, ends the field loop with an error |
| RoundTrip.ReadsWhatWasWritten | go/kdb/codec/wirecodec.go:40-486 | what one registry wrote another that may have lost skippable fields, gained fields or changed defaults reads at any position as what that reader should see, consuming exactly the encoding |
| RoundTrip.SeenIsWhatArrived | go/kdb/codec/wirecodec.go:409-464 | what a reader sees of a record is the sent fields it knows and the defaults of the rest |
| RoundTrip.FieldsRead | go/kdb/codec/wirecodec.go:418-486 | the field loop takes known fields, skips unknown ones and ends exactly at the end of the slab |
| Codec.SelfDelimiting | go/kdb/codec/wirecodec.go:40-464 | decoding an encoding followed by any suffix returns the value, with defaults filled in, and consumes exactly the encoding |
| Codec.DecodeInvertsEncode | go/kdb/codec/value.go:91-97 | every value of its type that fits the widths of the format is encoded, and DecodeBytes of that succeeds with the value, defaults filled in |
| Codec.PrefixFree | go/kdb/codec/wirecodec.go:40-166 | no encoding is a proper prefix of another, and values that read differently have different encodings |
| Codec.CanonicalIsSeenAsIs | go/kdb/codec/wirecodec.go:304-464 | a value already in the decoder's form is returned as it is |
| Codec.RoundTripExact | go/kdb/codec/value.go:116-122 | every value of its type that fits and is in that form is encoded, Roundtrip returns it unchanged, and the encoding is injective on them |
| Codec.CanonicalPrims | go/kdb/codec/wirecodec.go:222-250 | every primitive of its type is in that form but a date given as a number, a UUID given as bytes and a timestamp with a zone, which come back as a date, as that UUID and without the zone |
| Decoded.DecodedIsOfType | go/kdb/codec/wirecodec.go:304-464 | whatever the bytes, a decoded value is of the type asked for: enums name the symbol of their ordinal, records have only fields of their schema and every field with a default, and no array, map, string or run of bytes but a default is longer than the input |
| Decoded.MalformedIsRefused | go/kdb/codec/wirecodec.go:304-377 | a marker other than 0 and 1, a branch there is not, a count the bytes left cannot back, an unknown name and an early end of input are refused |
| Decoded.MisTaggedIsRefused | go/kdb/codec/wirecodec.go:418-486 | so are a tag that is no kind, a field of another kind than its type's, and an unknown field of a kind that cannot be skipped |
| Decoded.Filled | go/kdb/codec/wirecodec.go:456-462 | the last loop of a record adds every default that is missing and nothing else |
| Decoded.DecodeEncodeDecode | go/kdb/codec/value.go:91-122 | decoding any bytes, encoding the result and decoding again gives that result, if it can be encoded and fits and the schema's defaults are in decoded form |
| Codec.ZeroWidthArray | go/kdb/codec/wire_numbers.go:79-94 | an array of zero-width elements is read back if and only if at least as many bytes follow it as it has elements |
| Codec.UnionBranchFits | go/kdb/codec/wirecodec.go:49-58 | a union value is read back as its own branch if and only if the branch number is below 256 |
| Codec.DroppedFields | go/kdb/codec/wirecodec.go:304-486 | decoding with a registry that lost any fields gives exactly what its reader should see if every lost field on the wire, in every record of the value, is skipped right, and an error if the first that is not cannot be skipped at all; where all lost fields are always one or the other, the first if and only if every one on the wire is skipped |
| CodecInputs.OneNullAlone | go/kdb/codec/wire_numbers.go:79-94 | an array of one null is written as one byte, which alone is refused and with a byte after it is read |
| CodecInputs.TheLastBranch | go/kdb/codec/wirecodec.go:49-58 | the last of 257 union branches is read back as the first |
| CodecInputs.LostInTheTail | go/kdb/codec/wirecodec.go:409-486 | eight bytes of a two-node list, refused for a field lost from its second node |
| CodecInputs.ALostUuid | go/kdb/codec/wirecodec.go:466-486 | a lost field annotated as a UUID over a string is neither skipped nor refused for its kind: skipping stops after one of its sixteen bytes, and the record is refused |
| Panics.DecodingDoesNotPanic | go/kdb/codec/wirecodec.go:304-486 | input of fewer than 2^63 - 16 bytes in which no varint wraps as a length, over fixed types that do not wrap and are long enough for a UUID where annotated as one, is decoded or refused at every position and for every type, and never stops the process |
| Panics.PanicsExactly | go/kdb/codec/wirecodec.go:304-486 | and only such input and such fixed types: otherwise some position and type stop it |
| Panics.BytesPanicExactly | go/kdb/codec/wire_numbers.go:136-150 | reading length-prefixed bytes stops it exactly at a length that wraps |
| Panics.AShortUuid | go/kdb/codec/wirecodec.go:560-572 | a fixed type annotated as a UUID and shorter than sixteen bytes stops it on all input that is long enough for it |
| Panics.ALengthThatPanics | go/kdb/codec/wire_numbers.go:65-73 | a string whose length says 2^63 - 1 does stop it |
| WireCodec.EncodeValueTo | go/kdb/codec/wirecodec.go:40-93 | appends to the buffer exactly the encoding of the value, or reports the same error |
| WireCodec.EncodeRecordTo | go/kdb/codec/wirecodec.go:132-166 | appends the length of the slab and the slab, fields in order of id, defaults left out |
| WireCodec.WireEncode | go/kdb/codec/wirecodec.go:11-17 | returns the encoding, or the error; the encoding if and only if the value is of its type |
| WireCodec.DecodeValueFrom | go/kdb/codec/wirecodec.go:304-377 | moves the cursor exactly as the specification of decoding does, with the same result |
| WireCodec.DecodeRecordFrom | go/kdb/codec/wirecodec.go:409-464 | reads the slab with a cursor of its own and fills in the defaults |
| WireCodec.DecodeFieldsFrom | go/kdb/codec/wirecodec.go:418-446 | the loop over tagged fields: known ones decoded, unknown ones skipped |
| WireCodec.SkipTaggedFrom | go/kdb/codec/wirecodec.go:466-486 | moves the cursor past one value of the kind, or fails |
| WireCodec.WireDecodeFrom | go/kdb/codec/wirecodec.go:19-38 | accepts only when every byte is consumed |
| Lanes.EdgesAreContinuous | go/kdb/control/graph.go:63-108 | for every commit and every parent one lane waits for that parent after every row until its next row, where the lane is the parent's own or is released; no order of the commits is assumed |
| Lanes.FrontierIsExact | go/kdb/control/graph.go:63-108 | after each row the hashes awaited are exactly the parents named whose commit has not come since |
| Lanes.FrontierNewestFirst | go/kdb/control/graph.go:42-108 | with children listed before parents, that is the parents named so far less the commits seen so far |
| Lanes.TakesTheWaitingLane | go/kdb/control/graph.go:48-64 | a commit that is awaited is drawn on the leftmost lane that waits for it, any other on the leftmost free lane, or on a new one if none is free |
| Lanes.FirstParentBelow | go/kdb/control/graph.go:63-88 | the next row of a commit's first parent is on the leftmost lane waiting for it, never further right, and on the commit's own exactly if no lane to its left waits for it then |
| Lanes.StraightColumn | go/kdb/control/graph.go:83-88 | a chain of first parents, each the next row and named by no row above, is one straight column |
| Lanes.LinearHistory | go/kdb/control/graph.go:83-88 | a linear history of any length is one column, one lane wide, with nothing passing it |
| Lanes.ParentsShareLanes | go/kdb/control/graph.go:90-108 | a further parent that some lane waits for already gets no new lane; any other gets exactly one |
| Lanes.ThroughIsExact | go/kdb/control/graph.go:74-81 | Through lists exactly the other lanes that wait for the same hash before and after the row |
| Lanes.OthersAscend | go/kdb/control/graph.go:76-81 | Through is in ascending order |
| Lanes.MergesGoToParents | go/kdb/control/graph.go:90-108 | every entry of Merges is a lane, other than the commit's own, that waits for one of its further parents |
| Lanes.GutterHoldsEveryColumn | go/kdb/control/graph.go:110-137 | the common width exceeds every Lane, Through and Merges index of every row, and a row's own lane is in neither list |
| Lanes.GutterIsTight | go/kdb/control/graph.go:110-137 | and it is no larger than it must be: some row has a node, a passing line or a waiting lane in the last column |
| Lanes.RowGrowsWhenFull | go/kdb/control/graph.go:48-61 | a row that adds lanes found every lane occupied or leaves every lane occupied |
| Lanes.LanesAreReused | go/kdb/control/graph.go:48-108 | after any number of rows there are only as many lanes as some row needed: at it every lane was occupied, or all but the one the commit itself took |
| Lanes.AssignLanes | go/kdb/control/graph.go:43-139 | the nested loops over the mutable lanes compute exactly the rows all of these theorems are about |
| Lanes.DrawRow | go/kdb/control/graph.go:63-124 | one row: claims, releases, records, installs the parents and measures |
| Merkle.DomainsAreSeparate | go/kdb/document/attachment_hash.go:41-66 | with an ideal SHA-256, the leading bytes 0, 1 and 2 keep leaves, nodes and identities from colliding |
| Merkle.MthInjective | go/kdb/document/attachment_hash.go:120-129 | the tree hash determines the leaves, however many there are |
| Merkle.MthUp | go/kdb/document/attachment_hash.go:171-176 | pairing neighbours and carrying an unpaired last node gives the same tree as the split of section 2.1 of RFC 6962 |
| Merkle.MerkleBuilder.Add | go/kdb/document/attachment_hash.go:76-87 | the stack of perfect subtrees stays the decomposition of the leaves added, with strictly decreasing power-of-two sizes |
| Merkle.MerkleBuilder.Root | go/kdb/document/attachment_hash.go:94-103 | the stack combined from the right is the tree hash of the leaves |
| Merkle.NewMerkleTree | go/kdb/document/attachment_hash.go:179-198 | the levels built bottom up end in the tree hash |
| Merkle.ProofIsLevelProof | go/kdb/document/attachment_hash.go:133-142 | the audit path taken from the top (section 2.1.1 of RFC 6962) and the one taken level by level are the same |
| Merkle.LevelsProof | go/kdb/document/attachment_hash.go:206-216 | Proof returns that audit path |
| Merkle.VerifyMerkleInclusion | go/kdb/document/attachment_hash.go:146-169 | the shifting loop accepts exactly what climbing level by level accepts |
| Merkle.InclusionIsExact | go/kdb/document/attachment_hash.go:133-169 | against the true tree a leaf is accepted at an index if and only if it is that leaf and the proof is its audit path |
| Content.ChunkAt | go/kdb/document/attachment_hash.go:17-24 | chunk i is the bytes from i mebibytes on, up to one mebibyte or the end, and there are AttachmentChunkCount of them |
| Content.ChunksOfWhole | go/kdb/client/attachments.go:506-521 | cutting at every mebibyte as bytes arrive gives the chunks of the whole, with one empty chunk for empty content |
| Content.ContentHashDetermines | go/kdb/document/attachment_hash.go:23-31 | an identity determines the content: from any number of chunks and any stated size |
| Content.AttachmentContentHash | go/kdb/document/attachment_hash.go:107-117 | the loop over the data computes that identity |
| StreamReader.AttachmentReader.Fetch | go/kdb/client/attachments.go:436-456 | a page is accepted if and only if it starts where the caller has read to; the first pins the attachment |
| StreamReader.AttachmentReader.VerifyPage | go/kdb/client/attachments.go:506-527 | for every split into pages the leaves hashed are those of the chunks of the concatenation, and the last page is refused if and only if the hash does not match |
| StreamReader.AttachmentReader.Open | go/kdb/client/attachments.go:289-306 | a reader is given out if and only if the first answer is a page from 0 on that, if it is the last, matches its hash; always by a server that sends the content |
| StreamReader.AttachmentReader.Read | go/kdb/client/attachments.go:460-490 | what is handed out is always a prefix of what was fetched; the end without an earlier error means exactly the content the hash names was handed out; corruption is reported only for other bytes; from a server that sends the content in pages of any size all of it is handed out, and the end comes without an error |
| StreamReader.ReadAttachment | go/kdb/client/attachments.go:563-577 | what is returned without an error is the content the hash names, and from a server that sends the content it is that content |
| RangeReader.VerifyChunks | go/kdb/client/attachments.go:410-434 | accepts exactly what checking chunk by chunk accepts, with the same kind of refusal |
| RangeReader.PageIsExact | go/kdb/client/attachments.go:410-434 | against the true tree and size a page is accepted if and only if it is that stretch of the content, cut at chunk boundaries, with the content's own proofs |
| RangeReader.FirstIsExact | go/kdb/client/attachments.go:327-406 | of content with the hash it claims a first page is accepted if and only if it gives the content's own size and tree and is the stretch asked for with the content's own proofs |
| RangeReader.RangeReader.TakeVerified | go/kdb/client/attachments.go:372-406 | accepts exactly the pages that check out; an accepted page keeps everything handed out inside the content and advances or ends the read; a refused one changes nothing |
| RangeReader.RangeReader.Open | go/kdb/client/attachments.go:349-368 | opens if and only if the first answer is a page that checks out; is out of range if and only if the answer is an error that names an attachment smaller than the offset, and then says its size |
| RangeReader.OpenAttachmentRange | go/kdb/client/attachments.go:327-368 | the same for any offset and length: a negative offset is out of range, a length under -1 an error; a server that sends the content's own pages is never refused |
| RangeReader.RangeReader.Close | go/kdb/client/attachments.go:530-542 | succeeds if and only if it was closed before, the end was reached, or the server answers |
| RangeReader.RangeReader.NextVerified | go/kdb/client/attachments.go:492-503 | the next page is taken or the read fails, and it never fails for a server that sends the content's own pages |
| RangeReader.RangeReader.Read | go/kdb/client/attachments.go:460-503 | for any server the bytes handed out are the content from the offset on, never more than the length asked for; at the end they are the lesser of that length and what there is to the end of the content if and only if none of the pages the server sent, and the reader took, was marked last before either; from a server that sends the content's own pages there is no failure and all of it comes |
| RangeReader.ReadsShort | go/kdb/client/attachments.go:460-468 | a read of a whole attachment that ends without an error after its first mebibyte, because that page is marked last |
| RangeReader.ReadAttachmentAt | go/kdb/client/attachments.go:549-560 | fills the buffer with exactly the bytes of the content from the offset, or says how many it got; the range error exactly for an offset that is negative or past the end; from a server that sends the content's own pages, all there is from the offset, and io.EOF exactly if that does not fill the buffer |
| Upload.ServeStep | go/kdb/server/attachments_wire.go:129-217 | one request, whatever befalls it: the server still holds a beginning of the content and says truthfully how much, and an acknowledged final chunk is its end |
| Upload.Source.ReadFull | go/kdb/client/attachments.go:179-199 | fills the buffer, or tells an end from an end part way and from an error |
| Upload.ReadAhead | go/kdb/client/attachments.go:186-199 | the chunk in hand is final exactly when the source has nothing more |
| Upload.ResumeUpload | go/kdb/client/attachments.go:172-217 | for every source, server state and sequence of faults: chunks concatenate to the source at contiguous offsets, all but the last of one mebibyte, exactly the last final; success means the server has the whole content; a failure leaves no more than a beginning of it under the identifier reported; without faults it succeeds where the upload really is, comes back knowing where that is if the server has the upload, and never succeeds if the server no longer has it |
| Upload.ResumeTwice | go/kdb/client/attachments.go:153-217 | a dropped upload is completed by at most two calls without faults if and only if it never began or the server still has it, whatever the caller thought was received |
| Upload.EndsAnUpload | go/kdb/server/attachments_wire.go:129-217 | the failures that end an upload are exactly an expired upload, and a chunk in its place that could not be written or, the last, not finished |
| Upload.AnExpiredUpload | go/kdb/server/attachments_wire.go:150-180 | an upload that expired after ten bytes: no later request succeeds |
| Keys.PaddedDetermines | go/kdb/storage/io/segment_name.go:40-48 | twenty padded digits determine the sequence number |
| Keys.PaddedInOrder | go/kdb/storage/io/segment_name.go:40-48 | and sort as strings in the order of the sequence numbers |
| Keys.ManifestKeyDetermines | go/kdb/backup/backup.go:108-110 | a manifest key determines namespace and backup, for namespaces with slashes in them too |
| Keys.ActiveKeyDetermines | go/kdb/backup/backup.go:112-114 | so does an active-prefix key, with the segment |
| Keys.ActiveIsNotManifest | go/kdb/backup/backup.go:108-114 | no active-prefix key is a manifest key |
| Keys.SealedKeyDetermines | go/kdb/backup/backup.go:61-63 | a sealed-segment key determines namespace, segment and hash |
| Keys.PartKeyDetermines | go/kdb/backup/attachments.go:43-45 | a part key determines namespace and hash |
| Keys.Families | go/kdb/backup/backup.go:61-114 | the five families of keys are disjoint |
| BackupRuns.PutKeeps | go/kdb/backup/backup.go:203-256 | no put of a backup changes an object a manifest names |
| BackupRuns.StepKeepsInv | go/kdb/backup/backup.go:129-280 | every put, reuse, crash, group manifest and outside write keeps: every manifest in the store names, outside legacy keys, only what is there as recorded, and every group only finished backups |
| BackupRuns.EmptyStore | go/kdb/backup/backup.go:129-280 | a store with nothing in it is where a run can start |
| BackupRuns.RunKeepsInv | go/kdb/backup/backup.go:129-280 | so in every run of overlapping full and incremental backups, with a crash allowed between any two puts; legacy keys are RunKeepsLegacy's |
| BackupRuns.StepLeaves | go/kdb/backup/backup.go:203-280 | no step changes a manifest in the store or an object it vouches for; objects under legacy keys are OnlyOutsideChangesLegacy's |
| BackupRuns.BackupsAreForever | go/kdb/backup/backup.go:203-280 | so no later step of any run does, legacy keys again apart |
| BackupRuns.ReuseStep | go/kdb/backup/backup.go:238-243 | an entry taken over from the base, under a legacy key too, is there as recorded when it is taken over, and the invariant is kept |
| BackupRuns.OnlyOutsideChangesLegacy | go/kdb/backup/backup.go:46-63 | no step of a backup changes an object under a legacy key, and none but a database backup's last one under a group's |
| BackupRuns.ReusedStaysGood | go/kdb/backup/backup.go:238-243 | in every run an entry that was taken over holds from then on, as long as nothing outside changes its object |
| BackupRuns.RunKeepsLegacy | go/kdb/backup/backup.go:129-280 | in every run, as long as nothing outside changes the object at a legacy key, every manifest that names it, finished or under way, is right about it |
| BackupRuns.BaseOfNamespace | go/kdb/backup/backup.go:141-147 | a base identifier loads a backup of the namespace asked for if and only if it has no slash |
| BackupRuns.ForeignBaseBreaks | go/kdb/backup/attachments.go:54-80 | against a base of another namespace a part stored there is taken to be stored here, and the manifest names an object that is not there |
| BackupRuns.ForeignBaseReached | go/kdb/backup/backup.go:108-110 | that happens whenever one namespace is nested in another: its backups are, by their keys, also backups of the outer one |
| LogTips.Tips.Add | go/kdb/backup/backup.go:467-484 | after any frames, repeats included: seen is the distinct commits, heads those no other names, named the parents named but not seen |
| LogTips.Tips.Count | go/kdb/backup/backup.go:486-486 | the number of distinct commits |
| LogTips.Tips.Sorted | go/kdb/backup/backup.go:489-496 | the heads, each once, in ascending order |
| LogTips.OrderDoesNotMatter | go/kdb/backup/backup.go:446-496 | the summary depends only on which commits the log holds |
| BackupCreate.FullEntries | go/kdb/backup/backup.go:148-155 | the base's full entries, the last one of a segment winning |
| BackupCreate.BaseObjectStillHolds | go/kdb/backup/backup.go:375-385 | true exactly when the entry is content-addressed or its legacy object is still what was recorded |
| BackupCreate.ScanLog | go/kdb/backup/backup.go:190-212 | passes only if no segment is damaged, with the count and heads of the log |
| BackupCreate.UploadSegments | go/kdb/backup/backup.go:222-256 | records every segment by the hash of what the second pass read of it, which is what the first verified if that is still there, the last as a prefix; what it records under legacy keys is there as recorded; every put is a step of a run |
| BackupCreate.SavesWhatWasVerified | go/kdb/backup/backup.go:213-222 | what is uploaded of a segment is what the first pass verified of it if and only if the second pass still finds that at its start; and it is always as long |
| BackupCreate.BackupAttachment | go/kdb/backup/attachments.go:68-95 | reads a segment in parts of any size until an empty or short read, putting only those not counted as stored; a segment gone at the first read has no parts, and any later failure fails |
| BackupCreate.BackupAttachments | go/kdb/backup/attachments.go:48-101 | records, in order, exactly what was read of every attachment segment, or fails; it succeeds only if every segment could be read |
| BackupCreate.WholeUnlessShort | go/kdb/backup/attachments.go:69-95 | read with answers out of its content, a segment is recorded whole if and only if it was there and no read fell short before its end |
| BackupCreate.HonestReads | go/kdb/backup/attachments.go:68-95 | reads that bring all there is give the content cut at every part size |
| BackupCreate.PiecesJoin | go/kdb/backup/attachments.go:68-95 | and those parts concatenate to the content |
| BackupCreate.CreateWithOptions | go/kdb/backup/backup.go:129-280 | whatever the log, the base and the point at which puts fail, what the store goes through is a run; a refused backup puts nothing, a failed one leaves no manifest, a finished one leaves a manifest, put last, that says what was read, with every legacy entry there as recorded; one that is not refused succeeds if and only if every segment and attachment can be read and no put fails; its manifest is the only new one; and nothing under a legacy key or a group's changes |
| DatabaseBackup.CreateDatabase | go/kdb/backup/database.go:74-114 | the group manifest is put only when every namespace's backup is, and still is, in the store; abandoned at any point, the groups in the store are exactly those from before, and otherwise this one is all that is new; it is put if and only if there are namespaces, every log verifies and can be read with its attachments, every base could be loaded from the start or was made by this pass, and no put fails |
| BackupRestore.FetchToDir | go/kdb/backup/backup.go:392-420 | writes all the files, or fails if and only if the manifest or an object is missing or not what was recorded |
| BackupRestore.FetchAttachments | go/kdb/backup/attachments.go:108-140 | every file is the concatenation of its checked parts |
| BackupRestore.Verify | go/kdb/backup/backup.go:309-336 | finds no problem if and only if everything named, legacy keys included, is there as recorded, and otherwise names exactly the keys of what is not |
| BackupRestore.VerifyParts | go/kdb/backup/attachments.go:143-158 | names exactly the keys of the parts that are not there as recorded |
| BackupRestore.RestoreInverts | go/kdb/backup/backup.go:392-420 | a restore rebuilds of every segment as many bytes as were verified, exactly those if they were still there when it was read again, and every attachment as it was read, and no other file, for any part size and any reuse |
| BackupRestore.GrownLogRestored | go/kdb/backup/backup.go:213-420 | of a log that only grew meanwhile every segment is restored to exactly the bytes that were verified |
| BackupRestore.RestoredWhole | go/kdb/backup/attachments.go:68-140 | a restored attachment is its segment's content if and only if no read of it fell short when it was backed up |
| BackupRestore.AttachmentsRestoredWhole | go/kdb/backup/attachments.go:48-140 | every attachment that was there, and of which no read fell short, is restored to exactly its content |
| BackupRestore.OnlyLegacyCanFail | go/kdb/backup/backup.go:375-420 | a backup whose manifest holds can fail to restore only through a legacy key |
| BackupRestore.RestorableEverAfter | go/kdb/backup/backup.go:129-420 | over a whole run: a finished backup restores to exactly what was backed up in every later state, unless a legacy object was overwritten, and then the restore is refused; if its legacy entries held when it finished, as CreateWithOptions leaves them, and nothing outside changed those objects since, it restores outright |
| BackupRestore.ListBackups | go/kdb/backup/backup.go:424-442 | lists exactly the backups of the namespace and none of a nested one, each once and in ascending order |
| Multiplexer.StepOk | go/kdb/client/client.go:442-530 | every step of callers, read loop and Close keeps the invariant |
| Multiplexer.EveryInterleaving | go/kdb/client/client.go:442-530 | ids never repeat, a caller gets only a message with its own id, a channel carries at most one message and none once closed, a frame with the id of a waiting request goes through to its caller, and after the read loop nothing is pending and nobody is stranded |
| Multiplexer.DeliveryGoesThrough | go/kdb/client/client.go:453-469 | the read loop never blocks on a reply channel and never sends on a closed one |
| Multiplexer.NobodyIsStranded | go/kdb/client/client.go:470-530 | once the loop has ended every waiter is released and no request can register |
| Multiplexer.ReplyReaches | go/kdb/client/client.go:453-523 | in every reached state a frame with the id of a waiting request is taken, sent on without blocking and returned to that caller |
| Multiplexer.StrayFrameIsDropped | go/kdb/client/client.go:459-468 | a frame changes nothing if and only if no request is pending under its id |
| Multiplexer.EndReleases | go/kdb/client/client.go:470-523 | the end of the read loop releases a waiting request with ErrClosed |
| Multiplexer.WaitingIsReleased | go/kdb/client/client.go:453-530 | who waits can receive at once, or after the delivery under way, or is pending while the loop still runs |
| Multiplexer.FramesAreAnswers | go/kdb/client/client.go:453-530 | in every run, once a frame was taken for a request it is in every later state the answer: being sent, ready to receive or returned, unless the caller cancelled or failed to send |
| Multiplexer.RepliesCameIn | go/kdb/client/client.go:453-530 | what a caller is given came in as a frame with its id while its request was pending |
| Multiplexer.ReleasedByReplyOrEnd | go/kdb/client/client.go:518-523 | a caller in the select receives such a reply or, once the read loop has ended, ErrClosed; nothing else |
| Multiplexer.OutcomeIsExact | go/kdb/client/client.go:490-530 | in every run a request has returned with an outcome if and only if one of its caller's own steps gave it that outcome |
| Multiplexer.SentIsWaiting | go/kdb/client/client.go:511-530 | a caller whose frame went out waits until it returns, and only such a one waits |
| Multiplexer.OnlyLiveRequestsPend | go/kdb/client/client.go:503-530 | no leaks: only a request that is registered or waiting is pending |
| Multiplexer.ClosedIsExact | go/kdb/client/client.go:442-477 | the client is closed if and only if Close was called or the read loop has ended |
| Multiplexer.RunLasts | go/kdb/client/client.go:442-530 | what a call returned, its id, and a closed channel never change again |
| CompareAndSwap.PreconditionIsLiteral | go/kdb/transaction/preconditions.go:88-117 | the precondition a client sends holds if and only if the document is what the client read |
| CompareAndSwap.StepOk | go/kdb/client/conditional.go:128-184 | every step of every client keeps each swap explained: its call's update of the content it replaced, as the server stores it; and it stays exact unless this step patches a version from before a deletion |
| CompareAndSwap.NoLostUpdates | go/kdb/client/conditional.go:128-184 | in every interleaving the document is what its last commit made it, each swap is the update of the very content it replaced, and each call is applied at most once |
| CompareAndSwap.StoresWhatWasAnswered | go/kdb/transaction/default_engine.go:355-367 | what every swap stores is exactly what its update answered if and only if no document was created anchored on a version that had it, with a merge that came out different |
| CompareAndSwap.ExactWithoutDeletes | go/kdb/transaction/prepare.go:124-146 | so always, as long as nobody deletes the document |
| CompareAndSwap.UndisturbedSucceeds | go/kdb/client/conditional.go:128-184 | a call that reads and writes with nobody in between succeeds, and the document is its update |
| CompareAndSwap.GivesUpExactly | go/kdb/client/conditional.go:128-184 | in every interleaving a call gives up if and only if as many of its writes were turned down as it has attempts |
| CompareAndSwap.OutcomeIsExact | go/kdb/client/conditional.go:128-184 | in every interleaving a call is over with an outcome if and only if one of its steps gave it: success for a write that found the document as it was read, an abort for an update that declined, and so on |
| CompareAndSwap.ADeletedDocument | go/kdb/client/conditional.go:48-52 | a run in which a deleted document comes back with what it had before: the creating client knew a head from before the deletion |
| CompareAndSwap.AppliedIsSuccessful | go/kdb/client/conditional.go:128-184 | the updates applied are exactly those of the calls that returned success if and only if no write that arrived, with its precondition holding there, lost its reply |
| CompareAndSwap.NoUnknownNoDoubt | go/kdb/client/conditional.go:170-184 | so they are if no call came back without a reply |
| CompareAndSwap.ALostReply | go/kdb/client/client.go:516-530 | a run in which one does |
| CompareAndSwap.Server.Put | go/kdb/client/conditional.go:48-110 | is refused exactly when others changed the document after it was read or the server had a conflict; otherwise applies the write once; stores the body, or for a creation the body over the document as it was at the anchor version |
| CompareAndSwap.CompareAndSwap | go/kdb/client/conditional.go:128-184 | the retry loop, against any interference: applied once on success, not at all on any failure but a lost reply; and exactly as answered if the document was never deleted; with nobody interfering the outcome is what the update answered, and it gives up exactly when as many writes as it has attempts, 5 unless a positive number was given, were refused |
| AutoCommit.StepOk | go/kdb/client/query.go:142-186 | the lock keeps byte-carrying commits out of an Exec, and the session buffers what was left behind and the holder's own operations |
| AutoCommit.EveryCallEnds | go/kdb/client/query.go:142-186 | a call is over, with its lock given back, exactly once it has had its answer or its failure |
| AutoCommit.CommitsItsOwn | go/kdb/client/query.go:142-186 | an Exec's empty commit, whether or not its reply arrives, takes exactly its own statement's operations if and only if no Exec since the session was last emptied was cut off between statement and commit or had its commit barred before it ran |
| AutoCommit.UndisturbedExecsAreAtomic | go/kdb/client/client.go:271-284 | as long as nothing has been cut off and no commit barred, always |
| AutoCommit.CancelledThenCommitted | go/kdb/client/client.go:524-530 | after a cancelled Exec the next one commits both |
| AutoCommit.BarredThenCommitted | go/kdb/server/wire_listen.go:1137-1159 | after a commit refused for a document lock, with nothing cancelled, the next one commits both |
| TxPool.PoolKeyDetermines | go/kdb/client/tx.go:50-50 | a pool key determines namespace and consistency |
| TxPool.Pool.Take | go/kdb/client/tx.go:67-77 | takes the session put back last under the key, or reports none |
| TxPool.Pool.Release | go/kdb/client/tx.go:79-86 | puts a session back under its key |
| TxPool.OneOwner | go/kdb/client/tx.go:45-107 | with each transaction used by one caller at a time: a session is held by at most one live transaction or stands once in the idle list of its own key, never both, and one lost to an error is never handed out again |
| TxPool.StepOk | go/kdb/client/tx.go:45-216 | every step keeps that |
| TxPool.EverySessionAccounted | go/kdb/client/tx.go:45-107 | in every run each session ever begun is on a live transaction, in the pool for its key, or given up for an error |
| TxPool.SpentIsExact | go/kdb/client/tx.go:45-107 | and given up exactly when a BEGIN on it failed or the reply to a commit or rollback was lost |
| TxPool.StatusIsExact | go/kdb/client/tx.go:45-216 | a transaction has begun exactly when its BEGIN succeeded, and is done exactly when that failed or a commit or rollback came back, with a reply or without |
| TxPool.OwnWrites | go/kdb/server/wire_listen.go:1284-1306 | the writes a session holds while a transaction is on it are that transaction's own |
| TxPool.EmptyUnlessBarred | go/kdb/client/tx.go:88-102 | in every run a session in the pool holds no writes if and only if the last commit or rollback on it was not refused before it ran |
| TxPool.BeginsUnlessBarred | go/kdb/server/wire_listen.go:1296-1302 | so a transaction that takes it can begin if and only if that was not so |
| TxPool.BarredThenRefused | go/kdb/server/wire_listen.go:1131-1158 | a commit refused for a lock puts its session back with its writes, and the next transaction to take it is refused |
| TxPool.EndedTwice | go/kdb/client/tx.go:88-107 | a transaction ended by two callers at once puts its session back twice |
| TxPool.SharedAfterwards | go/kdb/client/tx.go:45-77 | and two later transactions then hold it |
| EventHub.Hub.Subscribe | go/kdb/control/events.go:41-52 | a new id never used before, or nothing from a closed hub |
| EventHub.Hub.Unsubscribe | go/kdb/control/events.go:54-61 | closes the channel once and forgets it |
| EventHub.Hub.Publish | go/kdb/control/events.go:63-73 | never waits; every subscriber is offered the event on an open channel, which goes to the end of its buffer, or is missed exactly if 16 events are waiting there |
| EventHub.Hub.Close | go/kdb/control/events.go:75-86 | ends every subscription, closes each channel once and leaves no subscribers |
| EventHub.Hub.Receive | go/kdb/control/events.go:63-73 | hands over exactly the oldest buffered event, also after the channel is closed, and then says it is over |
| EventHub.NothingElseIsLost | go/kdb/control/events.go:22-29 | what a subscriber received and has buffered is an in-order selection of what was published while it was subscribed, and every event missing from it found the buffer full |

## Left out

- Decoding of UTF-8: strings are their bytes, as they are on the wire.
- Floating-point values are their IEEE 754 bits; only whether they are finite is looked at.
- CompareAndSwap.Server.Put: takes the merge of two documents as a parameter, and a body the server cannot merge or its schema refuses as an error; a server that evaluates no preconditions is not modelled.
- Codec.DroppedFields: does not decide what is read once a lost field has been skipped to the wrong place, such as a UUID over a string (CodecInputs.ALostUuid), because its remaining bytes are then taken for further fields and may be anything.
- Panics.DecodingDoesNotPanic: one way for a given position and type, because which bytes are reached as lengths depends on everything decoded before them; over all positions and types the condition is exact (Panics.PanicsExactly).
- CompareAndSwap.CompareAndSwap: does not model the backoff between attempts, which only delays them.
- StreamReader.AttachmentReader.Read: does not model names, MIME types and commit hashes, which the reader only passes on.
- RangeReader.OpenAttachmentRange: does not model the features the server agreed to, without which it fails before asking.
- Content.ChunkAt: sizes within one mebibyte of 2^63, where AttachmentChunkCount would wrap, are not told apart, because no such content exists in memory.
- Upload.ResumeUpload: a reply of another message type is not modelled; an upload identifier is a number, as tokens are opaque.
- BackupCreate.CreateWithOptions: the JSON form of manifests, the creation time and the definitions it carries along are not modelled; tips are a set, without their names.
- BackupRestore.Verify: the explanatory texts of problems are not modelled; a problem is the key it is about.
- BackupRuns.StepKeepsInv: leaves out entries under legacy keys, which older backups overwrite in place; they are the subject of RunKeepsLegacy and OnlyOutsideChangesLegacy.
- BackupRuns.RunKeepsLegacy: takes manifests of older versions that turn up during a run to be right about the object when they do.
- BackupCreate.BackupAttachment: a segment is the answers its reads get, of which there are finitely many; running out of them is a failed read.
- DatabaseBackup.CreateDatabase: takes the namespaces in the order given, without sorting them, and leaves out the cross-namespace transaction state.
- Decoded.DecodeEncodeDecode: asks that the schema's defaults be in decoded form, because a default is filled in as it stands, whatever it is; not said of a decoded value that cannot be encoded, such as a float that is not a number, an enum ordinal without a symbol or a record without a required field.
- AutoCommit.StepOk: transactions across namespaces are not modelled; operations are opaque numbers.
- TxPool.OneOwner: of the statements inside a transaction only whether they leave writes in the session is modelled; writes to other namespaces are held and cleared with them.
- EventHub.Hub.Publish: subscribers are served in any order, as Go ranges over a map in any order.
- The Go memory model, goroutine scheduling and fairness: steps are atomic at locks and channel operations.
- HTTP handlers, authorization, configuration, compression, compaction, gRPC and the command-line tools: plumbing that would only add easy members.
- Session monotonicity (go/kdb/client/session.go) and document history paging: their guarantees rest on parts of the server that are not part of this model.
