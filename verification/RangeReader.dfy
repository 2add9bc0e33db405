/** The ranged attachment reader (go/kdb/client/attachments.go): pages of whole chunks, every chunk
    proved against the content hash by its audit path before a byte of it is handed out. */
module RangeReader {
  import opened Words
  import opened Merkle
  import opened Content
  import opened StreamReader

  datatype ChunkProof = ChunkProof(leaf: int, path: seq<Digest>)

  datatype Verdict = Fine | Tampered | Misplaced

  // ---------------------------------------------------------------- one page

  /** The chunks of `data` from chunk `idx` on, each checked by its own proof. */
  function CheckChunks(h: Hasher, data: Bytes, idx: nat, size: int, chunks: seq<ChunkProof>, tree: Digest): Verdict
    decreases |chunks|
  {
    if chunks == [] then if data == [] then Fine else Tampered
    else if chunks[0].leaf != idx then Misplaced
    else
      var n := Min(CHUNK, size - idx * CHUNK);
      if n < 0 || |data| < n || idx >= ChunkCount(size) then Tampered
      else if !Climbs(h, idx, ChunkCount(size) - 1, h.leaf(data[..n]), chunks[0].path, tree) then Tampered
      else CheckChunks(h, data[n..], idx + 1, size, chunks[1..], tree)
  }

  /** verifyChunks. */
  method VerifyChunks(h: Hasher, page: Bytes, offset: nat, size: int, chunks: seq<ChunkProof>, tree: Digest)
    returns (v: Verdict)
    ensures v == if offset % CHUNK != 0 then Misplaced else CheckChunks(h, page, offset / CHUNK, size, chunks, tree)
  {
    var leaves, first := ChunkCount(size), offset / CHUNK;
    if offset % CHUNK != 0 { return Misplaced; }
    var data := page;
    assert chunks[0..] == chunks;
    hide Climbs;
    for i := 0 to |chunks|
      invariant CheckChunks(h, page, first, size, chunks, tree) ==
                CheckChunks(h, data, first + i, size, chunks[i..], tree)
    {
      var proof, idx := chunks[i], first + i;
      assert chunks[i..][0] == proof && chunks[i..][1..] == chunks[i + 1..];
      if proof.leaf != idx { return Misplaced; }
      var n := Min(CHUNK, size - idx * CHUNK);
      if n < 0 || |data| < n { return Tampered; }
      var good := VerifyMerkleInclusion(h, h.leaf(data[..n]), idx, leaves, proof.path, tree);
      if !good { return Tampered; }
      data := data[n..];
    }
    return if data != [] then Tampered else Fine;
  }

  /** The proof the content itself gives for a chunk. */
  function ProofOf(h: Hasher, c: Bytes, idx: nat): ChunkProof
    requires idx < |Chunks(c)|
  {
    ChunkProof(idx, InclusionProof(h, LeafHashes(h, Chunks(c)), idx))
  }

  /** `data` is the run of chunks of `c` from `idx` on, with the content's own proofs. */
  ghost predicate ExactRun(h: Hasher, c: Bytes, idx: nat, data: Bytes, chunks: seq<ChunkProof>) {
    if chunks == [] then data == [] else
    && idx + |chunks| <= |Chunks(c)|
    && idx * CHUNK <= Min(|c|, (idx + |chunks|) * CHUNK)
    && data == c[idx * CHUNK..Min(|c|, (idx + |chunks|) * CHUNK)]
    && OwnProofs(h, c, idx, chunks)
  }

  lemma OneChunk(h: Hasher, c: Bytes, idx: nat, leaf: Bytes, path: seq<Digest>)
    requires CollisionFree(h) && idx < ChunkCount(|c|)
    ensures idx < |Chunks(c)|
    ensures Climbs(h, idx, ChunkCount(|c|) - 1, h.leaf(leaf), path, TreeOf(h, c)) <==>
            leaf == Chunks(c)[idx] && ChunkProof(idx, path) == ProofOf(h, c, idx)
  {
    hide Climbs, Mth, Chunks, InclusionProof;
    ChunkAt(c, idx);
    InclusionIsExact(h, LeafHashes(h, Chunks(c)), idx, h.leaf(leaf), path);
  }

  lemma RunOfOne(h: Hasher, c: Bytes, idx: nat, data: Bytes, chunks: seq<ChunkProof>)
    requires chunks != []
    ensures var n := Min(CHUNK, |c| - idx * CHUNK);
      ExactRun(h, c, idx, data, chunks) <==>
        (idx < |Chunks(c)| && 0 <= n <= |data| && data[..n] == Chunks(c)[idx] && chunks[0] == ProofOf(h, c, idx) &&
         ExactRun(h, c, idx + 1, data[n..], chunks[1..]))
  {
    hide Climbs, Mth, Chunks, InclusionProof, LeafHashes;
    ChunkAt(c, idx);
    ChunkAt(c, idx + 1);
    var n, k := Min(CHUNK, |c| - idx * CHUNK), |chunks|;
    if idx < |Chunks(c)| && 0 <= n <= |data| && idx + k <= |Chunks(c)| {
      var stop := Min(|c|, (idx + k) * CHUNK);
      RunData(c, idx * CHUNK, n, stop, data);
      RunProofs(h, c, idx, chunks);
    }
  }

  lemma RunData(c: Bytes, at: nat, n: nat, stop: nat, data: Bytes)
    requires at + n <= stop <= |c| && n <= |data|
    ensures data == c[at..stop] <==> data[..n] == c[at..at + n] && data[n..] == c[at + n..stop]
  {
    assert data == data[..n] + data[n..] && c[at..stop] == c[at..at + n] + c[at + n..stop];
    assert c[at..stop][..n] == c[at..at + n] && c[at..stop][n..] == c[at + n..stop];
  }

  ghost predicate OwnProofs(h: Hasher, c: Bytes, idx: nat, chunks: seq<ChunkProof>)
    requires idx + |chunks| <= |Chunks(c)|
  {
    forall i :: 0 <= i < |chunks| ==> chunks[i] == ProofOf(h, c, idx + i)
  }

  lemma RunProofs(h: Hasher, c: Bytes, idx: nat, chunks: seq<ChunkProof>)
    requires chunks != [] && idx + |chunks| <= |Chunks(c)|
    ensures OwnProofs(h, c, idx, chunks) <==>
            chunks[0] == ProofOf(h, c, idx) && OwnProofs(h, c, idx + 1, chunks[1..])
  {
    hide Chunks, InclusionProof, LeafHashes, ProofOf;
    if chunks[0] == ProofOf(h, c, idx) && OwnProofs(h, c, idx + 1, chunks[1..]) {
      forall i | 0 <= i < |chunks| ensures chunks[i] == ProofOf(h, c, idx + i) {
        if i > 0 { assert chunks[1..][i - 1] == ProofOf(h, c, idx + 1 + (i - 1)); }
      }
    }
    if OwnProofs(h, c, idx, chunks) {
      assert chunks[0] == ProofOf(h, c, idx + 0);
      forall i | 0 <= i < |chunks| - 1 ensures chunks[1..][i] == ProofOf(h, c, idx + 1 + i) {
        assert chunks[i + 1] == ProofOf(h, c, idx + (i + 1));
      }
    }
  }

  /** Against the true tree hash and size, a page is accepted if and only if it is that stretch of the
      content, cut at chunk boundaries, with the content's own proofs. */
  lemma {:induction false} PageIsExact(h: Hasher, c: Bytes, idx: nat, data: Bytes, chunks: seq<ChunkProof>)
    requires CollisionFree(h)
    ensures CheckChunks(h, data, idx, |c|, chunks, TreeOf(h, c)) == Fine <==> ExactRun(h, c, idx, data, chunks)
    decreases |chunks|
  {
    if chunks != [] {
      hide Climbs, Mth, Chunks, InclusionProof, LeafHashes, ExactRun, TreeOf;
      var n := Min(CHUNK, |c| - idx * CHUNK);
      RunOfOne(h, c, idx, data, chunks);
      ChunkAt(c, idx);
      if 0 <= n <= |data| && idx < ChunkCount(|c|) {
        OneChunk(h, c, idx, data[..n], chunks[0].path);
        PageIsExact(h, c, idx + 1, data[n..], chunks[1..]);
      }
    }
  }

  // ---------------------------------------------------------------- the reader

  datatype RangeReply =
    | RangePage(readId: string, info: Info, scheme: int, tree: Digest, at: int, data: Bytes, chunks: seq<ChunkProof>,
                last: bool, changed: bool)
    | ServerError(known: bool, size: int)  // whether it says which attachment, and its size
    | Lost

  function Max(a: int, b: int): int { if a <= b then b else a }

  /** Where a read of `length` bytes (-1: all) from `start` ends in an attachment of `size` bytes. */
  function RangeEnd(start: int, length: int, size: int): int {
    if 0 <= length < size - start then start + length else size
  }

  function Slice(c: Bytes, from: nat, to: int): Bytes {
    if from < to <= |c| then c[from..to] else []
  }

  ghost predicate ChunkEdge(at: int, size: int) { at % CHUNK == 0 || at == size }

  /** The part of an accepted page inside the range goes on where the last one stopped. */
  lemma NextSlice(c: Bytes, start: nat, end: nat, pageOff: nat, data: Bytes, handed: Bytes)
    requires end <= |c| && (data == [] || (pageOff + |data| <= |c| && data == c[pageOff..pageOff + |data|]))
    requires handed == Slice(c, start, Min(end, pageOff)) && (pageOff < end || pageOff <= start)
    ensures start + |handed| >= pageOff
    ensures handed + Slice(data, start + |handed| - pageOff, Min(end, pageOff + |data|) - pageOff) ==
            Slice(c, start, Min(end, pageOff + |data|))
  {
    var from, to := start + |handed| - pageOff, Min(end, pageOff + |data|) - pageOff;
    if from < to {
      SubSlice(c, pageOff, pageOff + |data|, from, to);
      if pageOff > start { Abut(c, start, pageOff, pageOff + to); }
    }
  }

  lemma SubSlice(c: Bytes, a: nat, b: nat, from: nat, to: nat)
    requires a <= b <= |c| && from <= to <= b - a
    ensures c[a..b][from..to] == c[a + from..a + to]
  {
    forall i | 0 <= i < to - from ensures c[a..b][from..to][i] == c[a + from..a + to][i] {
      assert c[a..b][from..to][i] == c[a..b][from + i];
    }
  }

  lemma Abut(c: Bytes, a: nat, b: nat, d: nat)
    requires a <= b <= d <= |c|
    ensures c[a..b] + c[b..d] == c[a..d]
  {}

  /** If `c` is the content the hash names, `got` is its range as far as `pageOff`. */
  ghost predicate RangeSoFar(h: Hasher, info: Info, tree: Digest, start: nat, length: int, end: int, pageOff: int,
                             got: Bytes, c: Blob) {
    CollisionFree(h) && ContentHash(h, c) == info.hash ==>
      && info.size == |c| && tree == TreeOf(h, c) && end == RangeEnd(start, length, |c|)
      && got == Slice(c, start, Min(end, pageOff)) && ChunkEdge(pageOff, |c|)
  }

  lemma RangeBegins(h: Hasher, info: Info, tree: Digest, start: nat, length: int, c: Blob)
    requires h.identity(tree, info.size) == info.hash
    ensures RangeSoFar(h, info, tree, start, length, RangeEnd(start, length, info.size), start / CHUNK * CHUNK, [], c)
  {
    hide TreeOf, CollisionFree;
    if CollisionFree(h) && ContentHash(h, c) == info.hash { TreeDetermines(h, tree, info.size, c); }
  }

  ghost predicate Unfinished(start: nat, end: int, pageOff: int, offset: int, size: int) {
    && pageOff >= 0
    && (end >= 0 ==> offset == Max(start, Min(end, pageOff)) && (pageOff < end || pageOff <= start))
    && (end < 0 ==> offset == start >= pageOff && size < 0)
  }

  /** A page is accepted at `at`. */
  predicate TakesPage(h: Hasher, res: RangeReply, at: int, size: int, tree: Digest) {
    && res.RangePage? && res.at == at && res.tree == tree && at >= 0 && at % CHUNK == 0
    && CheckChunks(h, res.data, at / CHUNK, size, res.chunks, tree) == Fine && (res.data != [] || res.last)
  }

  /** A first page is accepted. */
  predicate TakesFirst(h: Hasher, res: RangeReply, start: nat) {
    && res.RangePage? && res.scheme == 1 && h.identity(res.tree, res.info.size) == res.info.hash
    && TakesPage(h, res, start / CHUNK * CHUNK, res.info.size, res.tree)
  }

  /** Of content with the hash it claims, a first page is accepted if and only if it gives the content's own size
      and tree, and is the stretch of the content that was asked for with the content's own proofs. */
  lemma FirstIsExact(h: Hasher, res: RangeReply, start: nat, c: Blob)
    requires CollisionFree(h) && res.RangePage? && ContentHash(h, c) == res.info.hash
    ensures TakesFirst(h, res, start) <==>
      && res.scheme == 1 && res.info.size == |c| && res.tree == TreeOf(h, c)
      && res.at == start / CHUNK * CHUNK && (res.data != [] || res.last)
      && ExactRun(h, c, start / CHUNK, res.data, res.chunks)
  {
    hide Climbs, Mth, Chunks, InclusionProof, LeafHashes, CheckChunks, ExactRun, TreeOf;
    PageIsExact(h, c, start / CHUNK, res.data, res.chunks);
    assert start / CHUNK * CHUNK / CHUNK == start / CHUNK;
    if h.identity(res.tree, res.info.size) == res.info.hash { TreeDetermines(h, res.tree, res.info.size, c); }
  }

  /** The pages accepted so far: all of them the server's answers, none but the last said to be the end. */
  ghost predicate Progress(served: seq<RangeReply>, taken: seq<RangeReply>, eof: bool, pageOff: int) {
    && (forall x :: x in taken ==> x.RangePage? && x in served)
    && (forall i :: 0 <= i < |taken| - 1 ==> !taken[i].last)
    && (taken != [] ==>
          var x := taken[|taken| - 1];
          eof == x.last && pageOff == x.at + |x.data|)
  }

  lemma ProgressOn(served: seq<RangeReply>, taken: seq<RangeReply>, eof: bool, pageOff: int, x: RangeReply)
    requires Progress(served, taken, eof, pageOff) && !eof && x.RangePage? && x in served
    ensures Progress(served, taken + [x], x.last, x.at + |x.data|)
  {}

  /** The page is said to be the last, before the content ends and before `length` bytes from `start` (-1: any
      number) are read. */
  predicate StopsShort(x: RangeReply, start: int, length: int, size: int) {
    && x.RangePage? && x.last && x.at + |x.data| < size && start < size
    && (length < 0 || (x.at + |x.data| < start + length && length != 0))
  }

  lemma ShortIf(served: seq<RangeReply>, taken: seq<RangeReply>, eof: bool, pageOff: int, start: int, length: int,
                size: int)
    requires Progress(served, taken, eof, pageOff) && taken != []
    ensures var stop := RangeEnd(start, length, size);
      (exists x :: x in taken && StopsShort(x, start, length, size)) <==> eof && pageOff < stop && start < stop
  {
    var last := taken[|taken| - 1];
    assert last in taken;
    if x :| x in taken && StopsShort(x, start, length, size) {
      var i :| 0 <= i < |taken| && taken[i] == x;
      assert i == |taken| - 1;
    }
  }

  // ---------------------------------------------------------------- a server that answers as it should

  /** A page of the content from `at` on, with its own proofs, that brings the read on and ends it only at the end. */
  ghost predicate OwnPage(h: Hasher, c: Bytes, x: RangeReply, at: nat) {
    && x.RangePage? && x.at == at && at % CHUNK == 0 && x.tree == TreeOf(h, c)
    && ExactRun(h, c, at / CHUNK, x.data, x.chunks)
    && (x.data != [] || x.last) && (x.last ==> at + |x.data| == |c|)
  }

  /** The answers of a server that sends the content's own pages from `at` up to `end`, in any sizes, and answers the
      request that releases the read. */
  ghost predicate HonestRest(h: Hasher, c: Bytes, pages: seq<RangeReply>, at: nat, end: int)
    decreases |pages|
  {
    && pages != []
    && if at >= end then pages[0] != Lost
       else OwnPage(h, c, pages[0], at) && (pages[0].last || HonestRest(h, c, pages[1..], at + |pages[0].data|, end))
  }

  /** The answers of such a server to a ranged read. */
  ghost predicate HonestRange(h: Hasher, c: Blob, pages: seq<RangeReply>, start: nat, length: int) {
    var at := start / CHUNK * CHUNK;
    && pages != [] && OwnPage(h, c, pages[0], at)
    && pages[0].scheme == 1 && pages[0].info == Info(ContentHash(h, c), |c|)
    && (pages[0].last || HonestRest(h, c, pages[1..], at + |pages[0].data|, RangeEnd(start, length, |c|)))
  }

  lemma OwnPageTaken(h: Hasher, c: Blob, x: RangeReply, at: nat)
    requires CollisionFree(h) && OwnPage(h, c, x, at)
    ensures TakesPage(h, x, at, |c|, TreeOf(h, c))
  {
    hide CheckChunks, ExactRun, TreeOf, CollisionFree;
    PageIsExact(h, c, at / CHUNK, x.data, x.chunks);
  }

  lemma HonestFirstTaken(h: Hasher, c: Blob, pages: seq<RangeReply>, start: nat, length: int)
    requires CollisionFree(h) && HonestRange(h, c, pages, start, length)
    ensures pages != [] && TakesFirst(h, pages[0], start)
  {
    hide TakesPage, OwnPage, CollisionFree, TreeOf, HonestRest;
    OwnPageTaken(h, c, pages[0], start / CHUNK * CHUNK);
    OwnTree(h, c, pages[0], start / CHUNK * CHUNK);
  }

  lemma OwnTree(h: Hasher, c: Blob, x: RangeReply, at: nat)
    requires OwnPage(h, c, x, at)
    ensures x.RangePage? && x.tree == TreeOf(h, c) && (x.last ==> at + |x.data| == |c|)
  {}

  class RangeReader {
    const h: Hasher
    const start: nat
    const length: int
    var server: seq<RangeReply>
    var readId: string
    var info: Info
    var tree: Digest
    var page: Bytes
    var offset: int
    var pageOff: int
    var end: int
    var eof: bool
    var closed: bool
    var superseded: bool
    ghost var handed: Bytes
    ghost const served: seq<RangeReply>
    ghost var taken: seq<RangeReply>

    /** What the server will still answer. */
    ghost predicate Serving()
      reads this
    {
      |server| <= |served| && server == served[|served| - |server|..] && Progress(served, taken, eof, pageOff)
    }

    ghost predicate Opening()
      reads this
    {
      && Serving() && taken == [] && readId == ""
      && end < 0 && !eof && !closed && page == [] && handed == [] && length >= -1
      && offset == start && pageOff == start / CHUNK * CHUNK
    }

    ghost predicate Valid()
      reads this
    {
      && Serving() && taken != [] && length >= -1 && offset == start + |handed| && pageOff >= 0
      && (end >= 0 ==> offset + |page| == Max(start, Min(end, pageOff)))
      && (end < 0 ==> eof && page == [] && handed == [])
    }

    /** If `c` is the content the hash names, everything handed out or about to be is its range so far. */
    ghost predicate Faithful(c: Blob)
      reads this
    {
      RangeSoFar(h, info, tree, start, length, end, pageOff, handed + page, c)
    }

    /** The answers still to come carry the read of `c` to its end. */
    ghost predicate Promised(c: Blob)
      reads this
    {
      && CollisionFree(h) && ContentHash(h, c) == info.hash && pageOff >= 0
      && (if eof then pageOff >= |c| else if closed then pageOff >= end else HonestRest(h, c, server, pageOff, end))
    }

    constructor (h: Hasher, server: seq<RangeReply>, start: nat, length: int)
      requires length >= -1
      ensures Opening() && this.h == h && this.server == server && this.start == start && this.length == length
      ensures served == server
    {
      served, taken := server, [];
      this.h, this.server, this.start, this.length := h, server, start, length;
      readId, info, tree, page, offset, superseded := "", Info(0, 0), 0, [], start, false;
      pageOff, end, eof, closed, handed := start / CHUNK * CHUNK, -1, false, false, [];
    }

    /** All that was fetched is handed out, and there is more to ask for. */
    ghost predicate Hungry()
      reads this
    {
      && Serving() && length >= -1 && offset == start + |handed| && page == [] && !eof
      && Unfinished(start, end, pageOff, offset, info.size)
    }

    /** takeVerified: whatever page is offered, one that is accepted keeps what is handed out inside the
        content, and brings the read on or to its end; one that is refused changes nothing. */
    method TakeVerified(res: RangeReply, ghost c: Blob) returns (err: ReadError)
      requires Opening() || (Hungry() && Faithful(c) && end >= 0)
      requires res == Lost || res in served
      modifies this
      ensures err == NoError <==>
        if old(end) < 0 then TakesFirst(h, res, start) else TakesPage(h, res, old(pageOff), old(info).size, old(tree))
      ensures err == NoError ==> Valid() && Faithful(c) && handed == old(handed) && (pageOff > old(pageOff) || eof)
      ensures err == NoError ==> taken == old(taken) + [res] && eof == res.last
      ensures err == NoError ==> info == if old(end) < 0 then res.info else old(info)
      ensures err == NoError ==> pageOff == old(pageOff) + |res.data| && (old(end) >= 0 ==> end == old(end))
      ensures err != NoError && old(end) >= 0 ==> unchanged(this)
      ensures err != EndOfFile && !err.OutOfRange? && server == old(server) && closed == old(closed)
    {
      hide CheckChunks;
      if !res.RangePage? { return Failed; }
      if end < 0 {
        err := TakeFirst(res, c);
        if err != NoError { return; }
      }
      hide Faithful;
      if res.at != pageOff || res.tree != tree { return Failed; }
      err := TakePage(res, c);
    }

    /** The part of takeVerified for the first page. */
    method TakeFirst(res: RangeReply, ghost c: Blob) returns (err: ReadError)
      requires Opening() && res.RangePage?
      modifies this`readId, this`info, this`tree, this`end
      ensures err == NoError <==> res.scheme == 1 && h.identity(res.tree, res.info.size) == res.info.hash
      ensures err == NoError ==> Hungry() && Faithful(c) && info == res.info && tree == res.tree
      ensures err != EndOfFile && !err.OutOfRange?
    {
      hide RangeSoFar, Progress;
      readId, info, tree := res.readId, res.info, res.tree;
      end := res.info.size;
      if 0 <= length < end - offset { end := offset + length; }
      if res.scheme != 1 { return Failed; }
      if h.identity(res.tree, res.info.size) != info.hash { return Corrupt; }
      assert handed + page == [];
      RangeBegins(h, info, tree, start, length, c);
      return NoError;
    }

    /** The part of takeVerified for every page. */
    method TakePage(res: RangeReply, ghost c: Blob) returns (err: ReadError)
      requires Hungry() && Faithful(c) && res.RangePage? && res.at == pageOff && res.tree == tree && res in served
      modifies this`page, this`pageOff, this`eof, this`superseded, this`taken
      ensures err == NoError <==> TakesPage(h, res, old(pageOff), info.size, tree)
      ensures err == NoError ==> Valid() && Faithful(c) && (pageOff > old(pageOff) || eof)
      ensures err == NoError ==> taken == old(taken) + [res] && eof == res.last && pageOff == old(pageOff) + |res.data|
      ensures err != NoError ==> unchanged(this)
      ensures err != EndOfFile && !err.OutOfRange?
    {
      hide RangeSoFar, Slice, TreeOf, ContentHash, CollisionFree, CheckChunks, Progress;
      assert handed + page == handed;
      var v := VerifyPage(h, info, tree, start, length, end, pageOff, handed, c, res.data, res.chunks);
      if v != Fine { return if v == Tampered then Corrupt else Failed; }
      if res.data == [] && !res.last { return Failed; }
      ProgressOn(served, taken, eof, pageOff, res);
      pageOff := pageOff + |res.data|;
      page := Inside(res.data, offset - res.at, Min(end, pageOff) - res.at);
      eof, superseded := res.last, res.changed;
      taken := taken + [res];
      return NoError;
    }

    /** The next answer, or a failure when there is none. */
    method Request() returns (res: RangeReply)
      modifies this`server
      ensures old(server) != [] ==> server == old(server)[1..] && res == old(server)[0]
      ensures old(server) == [] ==> res == Lost && server == []
    {
      if server == [] { return Lost; }
      res := server[0];
      server := server[1..];
    }

    /** OpenAttachmentRange, once the range is seen to be one: it opens exactly if the first answer is a page that
        is accepted, and it is out of range exactly if the answer is an error naming an attachment too small. */
    method Open(ghost c: Blob) returns (err: ReadError)
      requires Opening() && served == server
      modifies this
      ensures err == NoError <==> served != [] && TakesFirst(h, served[0], start)
      ensures err == NoError ==> Valid() && Faithful(c) && handed == []
      ensures err == NoError ==> taken == [served[0]] && info == served[0].info && eof == served[0].last
      ensures err.OutOfRange? <==>
        served != [] && served[0].ServerError? && served[0].known && served[0].size < start
      ensures err.OutOfRange? ==> err.size == served[0].size
      ensures err != EndOfFile
      ensures CollisionFree(h) && HonestRange(h, c, served, start, length) ==> err == NoError && Promised(c)
    {
      hide Valid, Faithful, TakesFirst;
      hide Progress, HonestRange, HonestRest, CollisionFree, ContentHash;
      var res := Request();
      NotAPage(h, res, start);
      if CollisionFree(h) && HonestRange(h, c, served, start, length) { HonestFirstTaken(h, c, served, start, length); }
      if res.ServerError? && res.known && offset > res.size { return OutOfRange(res.size); }
      err := TakeVerified(res, c);
      if CollisionFree(h) && HonestRange(h, c, served, start, length) { Begun(c); }
      if err != NoError && readId != "" { var released := Close(); }
    }

    lemma Begun(c: Blob)
      requires CollisionFree(h) && HonestRange(h, c, served, start, length) && server == served[1..]
      requires Faithful(c) && info == served[0].info && eof == served[0].last && !closed
      requires pageOff == start / CHUNK * CHUNK + |served[0].data|
      ensures Promised(c)
    {
      hide CollisionFree, ContentHash, TreeOf, ExactRun;
    }

    /** Close. */
    method Close() returns (ok: bool)
      modifies this`server, this`closed, this`superseded
      ensures closed && (ok <==> old(closed) || eof || (old(server) != [] && old(server)[0] != Lost))
      ensures |server| <= |old(server)| && (old(Serving()) ==> Serving())
    {
      ok := true;
      if !closed && !eof {
        var res := Request();
        if res.RangePage? { superseded := res.changed; }
        ok := res != Lost;
      }
      closed := true;
    }

    /** nextVerified: the next page, or a failure; never a failure for a server that answers as it should. */
    method NextVerified(ghost c: Blob) returns (err: ReadError)
      requires Valid() && Faithful(c) && page == [] && !eof && pageOff < end
      modifies this
      ensures Valid() && Faithful(c) && handed == old(handed) && info == old(info)
      ensures |server| <= |old(server)| && (err == NoError ==> |server| < |old(server)|)
      ensures err != EndOfFile && !err.OutOfRange?
      ensures old(Promised(c)) ==> err == NoError && Promised(c)
    {
      hide RangeSoFar, Progress, TakesFirst, TakesPage, Promised, HonestRest, CollisionFree, ContentHash;
      if Promised(c) { NextIsOwn(c); }
      var res := Request();
      NoPage(h, res, pageOff, info.size, tree);
      err := TakeVerified(res, c);
      if old(Promised(c)) { StillPromised(c, old(server), old(pageOff)); }
    }

    lemma NextIsOwn(c: Blob)
      requires Promised(c) && Faithful(c) && !eof && pageOff < end
      ensures !closed && CollisionFree(h) && ContentHash(h, c) == info.hash && HonestRest(h, c, server, pageOff, end)
      ensures server != [] && TakesPage(h, server[0], pageOff, info.size, tree)
    {
      hide CollisionFree, ContentHash, TreeOf, OwnPage;
      OwnPageTaken(h, c, server[0], pageOff);
    }

    lemma StillPromised(c: Blob, was: seq<RangeReply>, at: nat)
      requires CollisionFree(h) && ContentHash(h, c) == info.hash && at < end && HonestRest(h, c, was, at, end)
      requires server == was[1..] && pageOff == at + |was[0].data| && eof == was[0].last && !closed
      ensures Promised(c)
    {
      hide CollisionFree, ContentHash, TreeOf, OwnPage;
      OwnTree(h, c, was[0], at);
    }

    /** The loop of Read. */
    method NextPage(ghost c: Blob) returns (err: ReadError)
      requires Valid() && Faithful(c)
      modifies this
      ensures Valid() && Faithful(c) && handed == old(handed)
      ensures err == NoError ==> page != []
      ensures err == EndOfFile ==> page == [] && (eof || pageOff >= end)
      ensures |server| <= |old(server)| && info == old(info) && !err.OutOfRange?
      ensures old(eof) ==> err in {NoError, EndOfFile} && taken == old(taken) && eof
      ensures old(Promised(c)) ==> Promised(c) && err in {NoError, EndOfFile}
    {
      hide RangeSoFar, Progress, CollisionFree, ContentHash, OwnPage;
      while page == []
        invariant Valid() && Faithful(c) && handed == old(handed) && |server| <= |old(server)| && info == old(info)
        invariant old(eof) ==> unchanged(this)
        invariant old(Promised(c)) ==> Promised(c)
        decreases |server|
      {
        if eof { return EndOfFile; }
        if pageOff >= end {
          var ok := Close();
          return if ok then EndOfFile else Failed;
        }
        err := NextVerified(c);
        if err != NoError { return; }
      }
      return NoError;
    }

    /** Read, into the slice of `p` from `lo`: for any server at all, the bytes handed out are always a
        prefix of the range of the content; and at the end they are all of it if and only if none of the pages
        the server sent, and the reader took, was said to be the last before the end of the range. */
    method Read(p: array<byte>, lo: nat, ghost c: Blob) returns (n: nat, err: ReadError)
      requires Valid() && Faithful(c) && lo <= p.Length
      modifies this, p
      ensures Valid() && Faithful(c) && lo + n <= p.Length
      ensures p[..lo] == old(p[..])[..lo] && p[lo + n..] == old(p[..])[lo + n..]
      ensures handed == old(handed) + p[lo..lo + n]
      ensures err != NoError ==> n == 0
      ensures err == NoError && lo < p.Length ==> n > 0
      ensures CollisionFree(h) && ContentHash(h, c) == info.hash ==> PartOf(handed, c, start, length)
      ensures err == EndOfFile && CollisionFree(h) && ContentHash(h, c) == info.hash ==>
        && (AllOf(handed, c, start, length) <==> !exists x :: x in taken && StopsShort(x, start, length, |c|))
        && ((eof ==> pageOff >= info.size) ==> AllOf(handed, c, start, length))
      ensures info == old(info) && !err.OutOfRange?
      ensures old(eof) ==> err in {NoError, EndOfFile} && taken == old(taken) && eof
      ensures old(Promised(c)) ==>
        Promised(c) && err in {NoError, EndOfFile} && (err == EndOfFile ==> AllOf(handed, c, start, length))
    {
      hide Progress, HonestRest, CollisionFree, ContentHash, StopsShort, PartOf, AllOf, RangeSoFar;
      err := NextPage(c);
      n := 0;
      assert handed + p[lo..lo] == handed;
      if err == NoError {
        n := Min(p.Length - lo, |page|);
        CopyInto(p, lo, page[..n]);
        assert handed + page == (handed + page[..n]) + page[n..];
        assert p[lo..lo + n] == page[..n];
        handed := handed + page[..n];
        page := page[n..];
        offset := offset + n;
      }
      if CollisionFree(h) && ContentHash(h, c) == info.hash { Account(c); }
    }

    /** What has been handed out, and at the end whether it is all. */
    lemma Account(c: Blob)
      requires Valid() && Faithful(c) && CollisionFree(h) && ContentHash(h, c) == info.hash
      ensures PartOf(handed, c, start, length) && info.size == |c|
      ensures page == [] && (eof || pageOff >= end) ==>
        && (AllOf(handed, c, start, length) <==> !exists x :: x in taken && StopsShort(x, start, length, |c|))
        && ((eof ==> pageOff >= info.size) ==> AllOf(handed, c, start, length))
    {
      hide Progress, CollisionFree, ContentHash, StopsShort, PartOf, AllOf;
      HandedIsPrefix(h, info, tree, start, length, end, pageOff, handed, page, c);
      ShortIf(served, taken, eof, pageOff, start, length, |c|);
    }
  }

  /** `got` is content from `start` on, no more of it than `length` asks for (-1: any number). */
  ghost predicate PartOf(got: Bytes, c: Bytes, start: nat, length: int) {
    && (start <= |c| ==> start + |got| <= |c| && got == c[start..start + |got|])
    && (start > |c| ==> got == [])
    && (length >= 0 ==> |got| <= length)
  }

  /** `got` is all of it: `length` bytes, or as many as there are from `start` to the end. */
  ghost predicate AllOf(got: Bytes, c: Bytes, start: nat, length: int) {
    PartOf(got, c, start, length) && (start <= |c| ==> |got| == |c| - start || |got| == length)
  }

  lemma Filled(was: Bytes, now: Bytes, first: Bytes, n: nat, m: nat)
    requires |was| == |now| == |first| && n + m <= |now| && now[..n] == was[..n]
    requires now[n + m..] == was[n + m..] && was[n..] == first[n..]
    ensures now[n + m..] == first[n + m..] && now[..n + m] == was[..n] + now[n..n + m]
  {
    assert was[n + m..] == was[n..][m..] == first[n..][m..] == first[n + m..];
    assert now[..n + m] == now[..n] + now[n..n + m];
  }

  /** OpenAttachmentRange: a negative offset, or one past the end, is a range error; a length under -1 an error. */
  method OpenAttachmentRange(h: Hasher, server: seq<RangeReply>, offset: int, length: int, ghost c: Blob)
    returns (r: RangeReader, err: ReadError)
    ensures fresh(r) && err != EndOfFile
    ensures err == NoError <==> offset >= 0 && length >= -1 && server != [] && TakesFirst(h, server[0], offset)
    ensures err == NoError ==> r.h == h && r.start == offset && r.length == length && r.served == server
    ensures err == NoError ==> r.Valid() && r.Faithful(c) && r.handed == [] && r.taken == [server[0]]
    ensures err == NoError ==> r.info == server[0].info && r.eof == server[0].last
    ensures err.OutOfRange? <==>
      || offset < 0
      || (length >= -1 && server != [] && server[0].ServerError? && server[0].known && server[0].size < offset)
    ensures CollisionFree(h) && offset >= 0 && length >= -1 && HonestRange(h, c, server, offset, length) ==>
      err == NoError && r.Promised(c)
  {
    hide TakesFirst, RangeSoFar, Progress, HonestRange, HonestRest;
    if offset < 0 || length < -1 {
      r := new RangeReader(h, server, 0, -1);
      return r, if offset < 0 then OutOfRange(-1) else Failed;
    }
    r := new RangeReader(h, server, offset, length);
    err := r.Open(c);
  }

  /** ReadAttachmentAt, with the loop of io.ReadFull. */
  method ReadAttachmentAt(h: Hasher, server: seq<RangeReply>, p: array<byte>, off: int, ghost c: Blob)
    returns (n: nat, err: ReadError, info: Info)
    modifies p
    ensures n <= p.Length && (err == NoError ==> n == p.Length) && (err == EndOfFile ==> n < p.Length)
    ensures p[n..] == old(p[..])[n..]
    ensures CollisionFree(h) && ContentHash(h, c) == info.hash && n > 0 ==>
      0 <= off && off + n <= |c| && p[..n] == c[off..off + n]
    ensures err.OutOfRange? <==>
      off < 0 || (server != [] && server[0].ServerError? && server[0].known && server[0].size < off)
    ensures CollisionFree(h) && off >= 0 && HonestRange(h, c, server, off, p.Length) ==>
      AllOf(p[..n], c, off, p.Length) && err == if n == p.Length then NoError else EndOfFile
  {
    hide RangeSoFar, CollisionFree, ContentHash, TakesFirst, Progress, HonestRange, HonestRest;
    n := 0;
    var r;
    r, err := OpenAttachmentRange(h, server, off, p.Length, c);
    info := r.info;
    if err != NoError { return; }
    assert p[..0] == [];
    while n < p.Length && err == NoError
      invariant n <= p.Length && r.h == h && r.start == off && r.length == p.Length && fresh(r)
      invariant err != EndOfFile && !err.OutOfRange?
      invariant r.Valid() && r.Faithful(c) && r.handed == p[..n] && p[n..] == old(p[..])[n..]
      invariant n > 0 && CollisionFree(h) && ContentHash(h, c) == r.info.hash ==> PartOf(p[..n], c, off, p.Length)
      invariant CollisionFree(h) && HonestRange(h, c, server, off, p.Length) ==> err == NoError && r.Promised(c)
      decreases p.Length - n, err == NoError
    {
      ghost var was := p[..];
      var m, e := r.Read(p, n, c);
      Filled(was, p[..], old(p[..]), n, m);
      n := n + m;
      err := e;
      if err == EndOfFile { break; }
    }
    info := r.info;
    if n == p.Length { err := NoError; }
  }

  lemma NoPage(h: Hasher, res: RangeReply, at: int, size: int, tree: Digest)
    ensures !res.RangePage? ==> !TakesPage(h, res, at, size, tree)
  {}

  lemma NotAPage(h: Hasher, res: RangeReply, start: nat)
    ensures !res.RangePage? ==> !TakesFirst(h, res, start)
  {}

  /** The first chunk of an attachment longer than that, with its proof, but said to be the end. */
  function CutOff(h: Hasher, c: Blob): RangeReply
    requires |c| > CHUNK
  {
    ChunkAt(c, 0);
    RangePage("r", Info(ContentHash(h, c), |c|), 1, TreeOf(h, c), 0, c[..CHUNK], [ProofOf(h, c, 0)], true, false)
  }

  lemma CutOffAccepted(h: Hasher, c: Blob)
    requires |c| > CHUNK && CollisionFree(h)
    ensures TakesFirst(h, CutOff(h, c), 0)
  {
    hide Climbs, Mth, Chunks, InclusionProof, LeafHashes, CheckChunks, TreeOf, ContentHash;
    ChunkAt(c, 0);
    FirstIsExact(h, CutOff(h, c), 0, c);
    assert c[0 * CHUNK..1 * CHUNK] == c[..CHUNK];
  }

  /** A read of a whole attachment that ends without an error, and short: every byte is proved, but the end is not. */
  method ReadsShort(h: Hasher, c: Blob) returns (out: Bytes, err: ReadError)
    requires |c| > CHUNK && CollisionFree(h)
    ensures err == EndOfFile && out < c
  {
    hide RangeSoFar, CollisionFree, ContentHash, TakesFirst, Progress, TreeOf, ProofOf;
    CutOffAccepted(h, c);
    var r;
    r, err := OpenAttachmentRange(h, [CutOff(h, c)], 0, -1, c);
    var p := new byte[CHUNK];
    out := [];
    while err == NoError
      invariant err in {NoError, EndOfFile} && fresh(r) && fresh(p) && p.Length == CHUNK
      invariant r.h == h && r.start == 0 && r.length == -1 && r.Valid() && r.Faithful(c) && r.eof
      invariant r.taken == [CutOff(h, c)] && r.info == CutOff(h, c).info && out == r.handed
      invariant PartOf(out, c, 0, -1)
      invariant err == EndOfFile ==> !AllOf(out, c, 0, -1)
      decreases |c| - |out|, err == NoError
    {
      var n;
      n, err := r.Read(p, 0, c);
      out := out + p[..n];
      assert p[0..0 + n] == p[..n];
      assert CutOff(h, c) in r.taken && StopsShort(CutOff(h, c), 0, -1, |c|);
    }
  }

  lemma HandedIsPrefix(h: Hasher, info: Info, tree: Digest, start: nat, length: int, end: int, pageOff: int,
                       handed: Bytes, page: Bytes, c: Blob)
    requires RangeSoFar(h, info, tree, start, length, end, pageOff, handed + page, c)
    requires CollisionFree(h) && ContentHash(h, c) == info.hash
    ensures PartOf(handed, c, start, length)
    ensures page == [] ==> (AllOf(handed, c, start, length) <==> pageOff >= end || end <= start)
    ensures page == [] && pageOff >= info.size ==> AllOf(handed, c, start, length)
  {
    hide CollisionFree, ContentHash, TreeOf, ChunkEdge;
    assert handed <= handed + page;
    if page == [] { assert handed + page == handed; }
  }

  /** The part of a page inside the range. */
  method Inside(data: Bytes, from: nat, to: int) returns (page: Bytes)
    requires to <= |data|
    ensures page == Slice(data, from, to)
  {
    page := [];
    if from < to { page := data[from..to]; }
  }

  lemma NextPlace(start: nat, end: int, pageOff: nat, offset: int, data: Bytes, size: int)
    requires Unfinished(start, end, pageOff, offset, size) && (end < 0 ==> data == [])
    ensures offset >= pageOff
    ensures var page := Slice(data, offset - pageOff, Min(end, pageOff + |data|) - pageOff);
      if end >= 0 then offset + |page| == Max(start, Min(end, pageOff + |data|)) else page == []
  {}

  /** `page`, the part of `data` inside the range, takes the read from `pageOff` past `data`. */
  ghost predicate PageFollows(h: Hasher, info: Info, tree: Digest, start: nat, length: int, end: int, pageOff: nat,
                              handed: Bytes, c: Blob, data: Bytes, page: Bytes)
  {
    && (if end >= 0 then start + |handed| + |page| == Max(start, Min(end, pageOff + |data|))
        else page == [] && data == [])
    && RangeSoFar(h, info, tree, start, length, end, pageOff + |data|, handed + page, c)
  }

  lemma PageStep(h: Hasher, info: Info, tree: Digest, start: nat, length: int, end: int, pageOff: nat, handed: Bytes,
                 c: Blob, data: Bytes, chunks: seq<ChunkProof>)
    requires Unfinished(start, end, pageOff, start + |handed|, info.size) && pageOff % CHUNK == 0
    requires CheckChunks(h, data, pageOff / CHUNK, info.size, chunks, tree) == Fine
    requires RangeSoFar(h, info, tree, start, length, end, pageOff, handed, c)
    ensures start + |handed| >= pageOff
    ensures PageFollows(h, info, tree, start, length, end, pageOff, handed, c, data,
              Slice(data, start + |handed| - pageOff, Min(end, pageOff + |data|) - pageOff))
  {
    hide CheckChunks, TreeOf, ContentHash, CollisionFree, Slice, ChunkEdge;
    if end < 0 { NoChunks(h, data, pageOff / CHUNK, info.size, chunks, tree); }
    NextPlace(start, end, pageOff, start + |handed|, data, info.size);
    if CollisionFree(h) && ContentHash(h, c) == info.hash {
      PageAt(h, c, pageOff, data, chunks);
      NextSlice(c, start, end, pageOff, data, handed);
    }
  }

  method VerifyPage(h: Hasher, info: Info, tree: Digest, ghost start: nat, ghost length: int, ghost end: int,
                    pageOff: nat, ghost handed: Bytes, ghost c: Blob, data: Bytes, chunks: seq<ChunkProof>)
    returns (v: Verdict)
    requires Unfinished(start, end, pageOff, start + |handed|, info.size)
    requires RangeSoFar(h, info, tree, start, length, end, pageOff, handed, c)
    ensures v == if pageOff % CHUNK != 0 then Misplaced
                 else CheckChunks(h, data, pageOff / CHUNK, info.size, chunks, tree)
    ensures v == Fine ==> start + |handed| >= pageOff
    ensures v == Fine ==>
      PageFollows(h, info, tree, start, length, end, pageOff, handed, c, data,
        Slice(data, start + |handed| - pageOff, Min(end, pageOff + |data|) - pageOff))
  {
    v := VerifyChunks(h, data, pageOff, info.size, chunks, tree);
    hide *;
    if v == Fine { PageStep(h, info, tree, start, length, end, pageOff, handed, c, data, chunks); }
  }

  lemma PageAt(h: Hasher, c: Blob, at: nat, data: Bytes, chunks: seq<ChunkProof>)
    requires CollisionFree(h) && at % CHUNK == 0
    requires CheckChunks(h, data, at / CHUNK, |c|, chunks, TreeOf(h, c)) == Fine
    ensures data == [] || (at + |data| <= |c| && data == c[at..at + |data|])
    ensures ChunkEdge(at + |data|, |c|)
  {
    hide Climbs, Mth, Chunks, InclusionProof, LeafHashes, CheckChunks, CollisionFree, OwnProofs;
    PageIsExact(h, c, at / CHUNK, data, chunks);
  }

  lemma NoChunks(h: Hasher, data: Bytes, idx: nat, size: int, chunks: seq<ChunkProof>, tree: Digest)
    requires size < 0 && CheckChunks(h, data, idx, size, chunks, tree) == Fine
    ensures data == []
  {}
}
