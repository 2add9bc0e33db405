/** Scheme 1 of attachment content hashes (go/kdb/document/attachment_hash.go): the content cut into
    chunks of one mebibyte, the tree hash over their leaves, and the identity that folds in the size. */
module Content {
  import opened Words
  import opened Merkle

  const CHUNK: int := 0x10_0000

  function Min(a: int, b: int): int { if a <= b then a else b }

  function Chunks(c: Bytes): (r: seq<Bytes>)
    ensures r != []
  {
    if |c| <= CHUNK then [c] else [c[..CHUNK]] + Chunks(c[CHUNK..])
  }

  /** AttachmentChunkCount. */
  function ChunkCount(size: int): (n: int)
    ensures n >= 1
  {
    if size <= 0 then 1 else (size + CHUNK - 1) / CHUNK
  }

  /** Chunk `i` is the bytes from `i` chunks in, up to one chunk or the end. */
  lemma {:induction false} ChunkAt(c: Bytes, i: nat)
    ensures |Chunks(c)| == ChunkCount(|c|)
    ensures i < |Chunks(c)| ==> i * CHUNK <= |c| && Chunks(c)[i] == c[i * CHUNK..Min(|c|, (i + 1) * CHUNK)]
  {
    if |c| <= CHUNK {
      assert c[..|c|] == c;
    } else {
      ChunkAt(c[CHUNK..], if i == 0 then 0 else i - 1);
      if 0 < i < |Chunks(c)| {
        var d := c[CHUNK..];
        assert d[(i - 1) * CHUNK..Min(|d|, i * CHUNK)] == c[i * CHUNK..Min(|c|, (i + 1) * CHUNK)];
      }
    }
  }

  lemma {:induction false} ChunksJoin(c: Bytes)
    ensures Flat(Chunks(c)) == c
  {
    if |c| <= CHUNK {
      assert [c][1..] == [] && c + [] == c;
    } else {
      ChunksJoin(c[CHUNK..]);
      assert ([c[..CHUNK]] + Chunks(c[CHUNK..]))[1..] == Chunks(c[CHUNK..]);
    }
  }

  /** Whole chunks, and what is left over. */
  ghost predicate Whole(done: seq<Bytes>) { forall i :: 0 <= i < |done| ==> |done[i]| == CHUNK }

  /** Cutting at every mebibyte as bytes arrive gives the chunks of the whole. */
  lemma {:induction false} ChunksOfWhole(done: seq<Bytes>, rest: Bytes)
    requires Whole(done) && |rest| < CHUNK
    ensures Chunks(Flat(done) + rest) == if rest == [] && done != [] then done else done + [rest]
  {
    if done == [] {
      assert [] + rest == rest && [] + [rest] == [rest];
    } else {
      var c := Flat(done) + rest;
      var tail := Flat(done[1..]) + rest;
      assert c == done[0] + tail;
      assert done == [done[0]] + done[1..] && done + [rest] == [done[0]] + (done[1..] + [rest]);
      if done[1..] == [] && rest == [] {
        assert c == done[0] && done == [c];
      } else {
        ChunksOfWhole(done[1..], rest);
        assert |tail| > 0 by {
          if rest == [] { assert Flat(done[1..]) == done[1] + Flat(done[1..][1..]); }
        }
        assert c[..CHUNK] == done[0] && c[CHUNK..] == tail;
      }
    }
  }

  function LeafHashes(h: Hasher, chunks: seq<Bytes>): (r: seq<Digest>)
    ensures |r| == |chunks|
  {
    seq<Digest>(|chunks|, i requires 0 <= i < |chunks| => h.leaf(chunks[i]))
  }

  function TreeOf(h: Hasher, c: Bytes): Digest { Mth(h, LeafHashes(h, Chunks(c))) }

  /** Content of a length a 64-bit size can state. */
  type Blob = c: Bytes | |c| < TWO_63

  function ContentHash(h: Hasher, c: Blob): Digest { h.identity(TreeOf(h, c), |c|) }

  /** One identity, one content: from any number of chunks at all and any stated size. */
  lemma ContentHashDetermines(h: Hasher, chunks: seq<Bytes>, size: int64, c: Blob)
    requires CollisionFree(h) && chunks != []
    requires h.identity(Mth(h, LeafHashes(h, chunks)), size) == ContentHash(h, c)
    ensures chunks == Chunks(c) && Flat(chunks) == c && size == |c|
  {
    var a, b := LeafHashes(h, chunks), LeafHashes(h, Chunks(c));
    hide Mth, Chunks;
    assert Mth(h, a) == Mth(h, b);
    MthInjective(h, a, b);
    forall i | 0 <= i < |chunks| ensures chunks[i] == Chunks(c)[i] {
      assert a[i] == b[i];
    }
    ChunksJoin(c);
  }

  lemma TreeDetermines(h: Hasher, tree: Digest, size: int64, c: Blob)
    requires CollisionFree(h) && h.identity(tree, size) == ContentHash(h, c)
    ensures tree == TreeOf(h, c) && size == |c|
  {}

  lemma NextChunk(data: Bytes, off: nat, done: seq<Bytes>)
    requires off <= |data|
    ensures var end := Min(off + CHUNK, |data|);
      done + Chunks(data[off..]) ==
        done + [data[off..end]] + if end == |data| then [] else Chunks(data[end..])
  {
    var rest, end := data[off..], Min(off + CHUNK, |data|);
    assert rest[..end - off] == data[off..end] && rest[end - off..] == data[end..];
    if end == |data| { assert rest == data[off..end]; }
  }

  /** AttachmentContentHash. */
  method AttachmentContentHash(h: Hasher, data: Blob) returns (d: Digest)
    ensures d == ContentHash(h, data)
  {
    var m := new MerkleBuilder(h);
    var off := 0;
    assert data[0..] == data;
    ghost var done: seq<Bytes> := [];
    assert [] + Chunks(data) == Chunks(data);
    while off < |data| || off == 0
      invariant 0 <= off <= |data| && fresh(m) && m.Valid() && m.h == h && m.leaves == LeafHashes(h, done)
      invariant Chunks(data) == done + Chunks(data[off..])
      invariant off == |data| ==> off == 0
      decreases |data| - off
    {
      var end := Min(off + CHUNK, |data|);
      m.Add(h.leaf(data[off..end]));
      ghost var before := done;
      done := done + [data[off..end]];
      assert LeafHashes(h, done) == LeafHashes(h, before) + [h.leaf(data[off..end])];
      NextChunk(data, off, before);
      if end == |data| { break; }
      off := off + CHUNK;
    }
    assert m.leaves == LeafHashes(h, Chunks(data));
    var root := m.Root();
    d := h.identity(root, |data|);
  }
}
