/** The streaming attachment reader (go/kdb/client/attachments.go): pages of any size are fetched from
    a server that answers as it likes, cut into chunks as they arrive, and checked against the content
    hash before the last bytes are handed out. */
module StreamReader {
  import opened Words
  import opened Merkle
  import opened Content

  datatype Info = Info(hash: Digest, size: int64)

  /** What comes back for one request: a page, or an error of any kind. */
  datatype Reply =
    | Page(readId: string, info: Info, at: int, data: Bytes, last: bool, changed: bool)
    | Refused

  datatype ReadError = NoError | EndOfFile | Corrupt | Failed | OutOfRange(size: int)

  /** The answers of a server that sends `c` from `at` on, in pages of any size, each saying what it is part of, and
      marks the one that ends it and no other. */
  ghost predicate Honest(h: Hasher, c: Blob, pages: seq<Reply>, at: nat)
    decreases |pages|
  {
    && pages != [] && pages[0].Page? && pages[0].at == at && pages[0].info == Info(ContentHash(h, c), |c|)
    && at + |pages[0].data| <= |c| && pages[0].data == c[at..at + |pages[0].data|]
    && if pages[0].last then at + |pages[0].data| == |c| else Honest(h, c, pages[1..], at + |pages[0].data|)
  }

  class AttachmentReader {
    const h: Hasher
    const merkle: MerkleBuilder
    var server: seq<Reply>  // the answers still to come; a request past the last fails
    var readId: string
    var info: Info
    var page: Bytes
    var offset: int
    var eof: bool
    var superseded: bool
    var chunk: Bytes
    ghost var done: seq<Bytes>  // the whole chunks hashed
    ghost var fetched: Bytes    // the bytes of every page accepted
    ghost var handed: Bytes     // the bytes returned to the caller
    ghost var failed: bool      // the content hash did not match

    /** The hash is as far as `bytes`. */
    ghost predicate Hashed(bytes: Bytes)
      reads this, merkle
    {
      && merkle.Valid() && merkle.h == h && merkle.leaves == LeafHashes(h, done)
      && Whole(done) && |chunk| < CHUNK && bytes == Flat(done) + chunk
    }

    ghost predicate Matches(bytes: Bytes)
      reads this
    {
      h.identity(TreeOf(h, bytes), info.size) == info.hash
    }

    ghost predicate Valid()
      reads this, merkle
    {
      && offset == |handed|
      && (!eof ==> !failed && Hashed(fetched))
      && (!failed ==> fetched == handed + page && (eof ==> Matches(fetched)))
      && (failed ==> page == [] && handed <= fetched && !Matches(fetched))
    }

    /** The read is of `c`, so far as it has come, and the answers still to come carry it to its end. */
    ghost predicate Promised(c: Blob)
      reads this
    {
      && info == Info(ContentHash(h, c), |c|) && |fetched| <= |c| && fetched == c[..|fetched|] && !failed
      && if eof then fetched == c else Honest(h, c, server, |fetched|)
    }

    constructor (h: Hasher, server: seq<Reply>)
      ensures Valid() && fresh(merkle) && this.h == h && this.server == server
      ensures handed == [] && page == [] && fetched == [] && !eof && readId == ""
    {
      this.h, this.server := h, server;
      merkle := new MerkleBuilder(h);
      readId, info, page, offset, eof, superseded, chunk := "", Info(0, 0), [], 0, false, false, [];
      done, fetched, handed, failed := [], [], [], false;
    }

    /** fetch: accepts only the page that follows what was handed out. */
    method Fetch() returns (ok: bool)
      requires Valid() && !eof && page == []
      modifies this
      ensures ok <==> old(server) != [] && old(server)[0].Page? && old(server)[0].at == offset
      ensures server == if old(server) != [] then old(server)[1..] else []
      ensures ok ==> page == old(server)[0].data && eof == old(server)[0].last && superseded == old(server)[0].changed
      ensures unchanged(`offset, `chunk, `done, `fetched, `handed, `failed)
      ensures !ok ==> unchanged(`page, `eof, `superseded)
      ensures if old(readId) != "" then unchanged(`info, `readId) else ok ==> info == old(server)[0].info
    {
      if server == [] { return false; }
      var res := server[0];
      server := server[1..];
      if res.Refused? { return false; }
      if readId == "" { readId, info := res.readId, res.info; }
      if res.at != offset { return false; }
      page, eof, superseded := res.data, res.last, res.changed;
      return true;
    }

    /** verify: however the content was cut into pages, the leaves are those of its chunks. */
    method VerifyPage() returns (ok: bool)
      requires Hashed(fetched) && fetched == handed && offset == |handed| && !failed
      modifies this`page, this`chunk, this`done, this`fetched, this`failed, merkle
      ensures Valid() && fetched == old(fetched) + old(page)
      ensures eof ==> merkle.h == h && merkle.leaves == LeafHashes(h, Chunks(fetched))
      ensures ok <==> !failed
      ensures failed <==> eof && !Matches(fetched)
      ensures ok ==> page == old(page)
    {
      HashPage();
      if !eof { return true; }
      ChunksOfWhole(done, chunk);
      if |chunk| > 0 || merkle.n == 0 {
        ghost var before := done;
        merkle.Add(h.leaf(chunk));
        assert LeafHashes(h, before + [chunk]) == LeafHashes(h, before) + [h.leaf(chunk)];
      }
      var root := merkle.Root();
      if h.identity(root, info.size) != info.hash {
        page := [];
        failed := true;
        return false;
      }
      return true;
    }

    /** The loop of verify. */
    method HashPage()
      requires Hashed(fetched)
      modifies this`chunk, this`done, this`fetched, merkle
      ensures Hashed(fetched) && fetched == old(fetched) + page
    {
      hide Flat, LeafHashes, Blocks, Decreasing;
      var left := page;
      ghost var was := fetched;
      assert fetched + page[..0] == fetched;
      while |left| > 0
        invariant |left| <= |page| && left == page[|page| - |left|..]
        invariant Hashed(fetched) && fetched == was + page[..|page| - |left|]
      {
        var take := Min(|left|, CHUNK - |chunk|);
        Taken(was, page, |page| - |left|, take, Flat(done), chunk);
        fetched := fetched + left[..take];
        chunk := chunk + left[..take];
        left := left[take..];
        if |chunk| == CHUNK {
          merkle.Add(h.leaf(chunk));
          ChunkDone(h, done, chunk);
          done := done + [chunk];
          chunk := [];
        }
      }
      assert page[..|page|] == page;
    }

    /** OpenAttachment: the first page is checked before the reader is given out. */
    method Open(ghost c: Blob) returns (ok: bool)
      requires Valid() && !eof && page == [] && handed == [] && readId == ""
      modifies this, merkle
      ensures Valid() && handed == []
      ensures ok <==>
        && old(server) != [] && old(server)[0].Page? && old(server)[0].at == 0
        && (old(server)[0].last ==>
            h.identity(TreeOf(h, old(server)[0].data), old(server)[0].info.size) == old(server)[0].info.hash)
      ensures ok ==> info == old(server)[0].info && page == old(server)[0].data && eof == old(server)[0].last
      ensures ok ==> !failed
      ensures Honest(h, c, old(server), 0) ==> ok && Promised(c)
    {
      hide TreeOf, Flat;
      assert fetched == handed + page == [];
      var got := Fetch();
      if !got { return false; }
      if Honest(h, c, old(server), 0) { GoesOn(c, 0, |page|); }
      ghost var data := page;
      ok := VerifyPage();
      assert fetched == [] + data == data && handed + page == page;
    }

    /** Read: what has been handed out is always a prefix of what was fetched; a reader that reports the
        end without having reported corruption has handed out exactly the content the hash names, and
        corruption is reported only for other bytes. */
    method Read(p: array<byte>, ghost c: Blob) returns (n: nat, err: ReadError)
      requires Valid()
      modifies this, merkle, p
      ensures Valid() && n <= p.Length && p[n..] == old(p[..])[n..] && handed == old(handed) + p[..n]
      ensures err != NoError ==> n == 0
      ensures err == NoError && p.Length > 0 ==> n > 0
      ensures failed <==> old(failed) || err == Corrupt
      ensures err == EndOfFile ==> eof && page == []
      ensures err == EndOfFile && !failed && CollisionFree(h) ==>
        forall c: Blob :: ContentHash(h, c) == info.hash ==> handed == c && info.size == |c|
      ensures failed && |fetched| < TWO_63 && info.size == |fetched| ==> info.hash != ContentHash(h, fetched)
      ensures old(Promised(c)) ==>
        Promised(c) && err in {NoError, EndOfFile} && (err == EndOfFile ==> handed == c)
      ensures err == NoError && p.Length > 0 ==>
        |server| < |old(server)| || (|server| == |old(server)| && |page| < |old(page)|)
    {
      hide Honest, TreeOf, CollisionFree, Flat, LeafHashes, Whole;
      err := NextPage(c);
      n := 0;
      assert handed + p[..0] == handed;
      if err != NoError { return; }
      n := Min(p.Length, |page|);
      CopyInto(p, 0, page[..n]);
      assert handed + page == (handed + page[..n]) + page[n..];
      handed := handed + page[..n];
      page := page[n..];
      offset := offset + n;
    }

    /** The next page, fetched and checked; never a failure for a server that answers as it should. */
    method Turn(ghost c: Blob) returns (err: ReadError)
      requires Valid() && page == [] && !eof
      modifies this, merkle
      ensures Valid() && handed == old(handed) && err in {NoError, Failed, Corrupt}
      ensures failed <==> old(failed) || err == Corrupt
      ensures err == NoError ==> |server| < |old(server)|
      ensures old(Promised(c)) ==> err == NoError && Promised(c)
    {
      hide TreeOf, Flat;
      assert handed + page == handed;
      var got := Fetch();
      if !got { return Failed; }
      if old(Promised(c)) { GoesOn(c, |fetched|, |page|); }
      var good := VerifyPage();
      if !good { return Corrupt; }
      return NoError;
    }

    /** The loop of Read. */
    method NextPage(ghost c: Blob) returns (err: ReadError)
      requires Valid()
      modifies this, merkle
      ensures Valid() && handed == old(handed)
      ensures err == NoError ==> page != []
      ensures failed <==> old(failed) || err == Corrupt
      ensures err == EndOfFile ==> eof && page == []
      ensures err == EndOfFile && !failed && CollisionFree(h) ==>
        forall c: Blob :: ContentHash(h, c) == info.hash ==> handed == c && info.size == |c|
      ensures old(Promised(c)) ==>
        Promised(c) && err in {NoError, EndOfFile} && (err == EndOfFile ==> handed == c)
      ensures err == NoError ==> |server| < |old(server)| || (server == old(server) && page == old(page))
    {
      while |page| == 0
        invariant Valid() && handed == old(handed) && failed == old(failed)
        invariant |server| < |old(server)| || (server == old(server) && page == old(page))
        invariant old(Promised(c)) ==> Promised(c)
        decreases |server|
      {
        if eof {
          if !failed && CollisionFree(h) { EndIsContent(); }
          return EndOfFile;
        }
        err := Turn(c);
        if err != NoError { return; }
      }
      return NoError;
    }

    lemma EndIsContent()
      requires Valid() && eof && !failed && page == [] && CollisionFree(h)
      ensures forall c: Blob :: ContentHash(h, c) == info.hash ==> handed == c && info.size == |c|
    {
      assert handed + page == handed;
      forall c: Blob | ContentHash(h, c) == info.hash ensures handed == c && info.size == |c| {
        ContentHashDetermines(h, Chunks(handed), info.size, c);
        ChunksJoin(handed);
      }
    }
  }

  /** ReadAttachment: what it returns without an error is the content the hash names; of a server that answers as it
      should it returns the content, however it was cut into pages. */
  method ReadAttachment(h: Hasher, server: seq<Reply>, ghost c: Blob) returns (out: Bytes, ok: bool, info: Info)
    ensures ok && CollisionFree(h) ==> forall b: Blob :: ContentHash(h, b) == info.hash ==> out == b && info.size == |b|
    ensures Honest(h, c, server, 0) ==> ok && out == c && info == Info(ContentHash(h, c), |c|)
  {
    hide CollisionFree, ContentHash, Honest, TreeOf;
    out := [];
    var r := new AttachmentReader(h, server);
    ok := r.Open(c);
    info := r.info;
    if !ok { return; }
    var p := new byte[0x8000];
    var err := NoError;
    while err == NoError
      invariant fresh(r) && fresh(r.merkle) && fresh(p) && p.Length == 0x8000
      invariant r.h == h && r.Valid() && r.handed == out && (r.failed ==> err == Corrupt)
      invariant Honest(h, c, server, 0) ==> r.Promised(c) && err in {NoError, EndOfFile}
      invariant Honest(h, c, server, 0) && err == EndOfFile ==> out == c
      invariant err == EndOfFile && CollisionFree(h) ==>
        forall b: Blob :: ContentHash(h, b) == r.info.hash ==> out == b && r.info.size == |b|
      decreases err == NoError, |r.server|, |r.page|
    {
      var n;
      n, err := r.Read(p, c);
      out := out + p[..n];
    }
    ok := err == EndOfFile;
    info := r.info;
  }

  lemma GoesOn(c: Bytes, at: nat, n: nat)
    requires at + n <= |c|
    ensures c[..at] + c[at..at + n] == c[..at + n] && c[..|c|] == c
  {}

  lemma Taken(was: Bytes, page: Bytes, at: nat, take: nat, whole: Bytes, chunk: Bytes)
    requires at + take <= |page|
    ensures was + page[..at] + page[at..][..take] == was + page[..at + take]
    ensures whole + chunk + page[at..][..take] == whole + (chunk + page[at..][..take])
    ensures page[at..][take..] == page[at + take..]
  {}

  lemma ChunkDone(h: Hasher, done: seq<Bytes>, chunk: Bytes)
    ensures Flat(done + [chunk]) + [] == Flat(done) + chunk
    ensures LeafHashes(h, done + [chunk]) == LeafHashes(h, done) + [h.leaf(chunk)]
  {
    FlatSnoc(done, chunk);
  }

  /** Go's copy, into the slice of `p` from `lo`. */
  method CopyInto(p: array<byte>, lo: nat, src: Bytes)
    requires lo + |src| <= p.Length
    modifies p
    ensures p[..] == old(p[..])[..lo] + src + old(p[..])[lo + |src|..]
  {
    for i := 0 to |src|
      invariant p[..lo] == old(p[..])[..lo] && p[lo..lo + i] == src[..i] && p[lo + i..] == old(p[..])[lo + i..]
    {
      p[lo + i] := src[i];
      assert p[lo..lo + i + 1] == src[..i + 1];
    }
    assert p[..] == p[..lo] + p[lo..lo + |src|] + p[lo + |src|..];
  }
}
