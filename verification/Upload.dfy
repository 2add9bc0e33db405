/** Uploading attachment bytes (go/kdb/client/attachments.go, ResumeUpload) against the server's side
    of it (go/kdb/server/attachments_wire.go): a source read one chunk ahead, requests and replies that
    may be lost, uploads that may be dropped, and resumption from what was received. */
module Upload {
  import opened Words
  import opened Merkle
  import opened Content
  import opened StreamReader

  // ---------------------------------------------------------------- the server

  datatype Part = Part(bytes: Bytes, done: bool)

  /** The uploads in progress; identifiers count up from 1, and 0 asks for a new upload. */
  datatype Server = Server(uploads: map<nat, Part>, next: nat)

  datatype Message = Message(id: nat, offset: int, data: Bytes, final: bool)

  datatype Reply =
    | Result(id: nat, received: int, failed: bool, hash: Digest, size: int)
    | Lost

  /** What befalls a request: it or its reply is lost, the server refuses it, cannot write it, cannot finish the
      upload, or has forgotten it. */
  datatype Fault = Deliver | LoseRequest | LoseReply | Refuse | WriteError | FinishError | Expire

  ghost predicate ServerValid(s: Server) { s.next > 0 && forall id :: id in s.uploads ==> 0 < id < s.next }

  function Failure(id: nat, received: int): Reply { Result(id, received, true, 0, 0) }

  /** handleAttachmentUpload, once the upload is found. */
  function Append(h: Hasher, s: Server, id: nat, m: Message, fault: Fault): (Server, Reply)
    requires id in s.uploads
  {
    var up := s.uploads[id];
    if up.done then (s, Finished(h, id, up))
    else if m.offset != |up.bytes| then (s, Failure(id, |up.bytes|))
    else if fault == WriteError then (s.(uploads := s.uploads - {id}), Failure(id, |up.bytes|))
    else if fault == FinishError && m.final then (s.(uploads := s.uploads - {id}), Failure(id, |up.bytes + m.data|))
    else
      var now := Part(up.bytes + m.data, m.final);
      (s.(uploads := s.uploads[id := now]), Finished(h, id, now))
  }

  function Finished(h: Hasher, id: nat, up: Part): Reply {
    if up.done && |up.bytes| < TWO_63 then Result(id, |up.bytes|, false, ContentHash(h, up.bytes), |up.bytes|)
    else Result(id, |up.bytes|, false, 0, 0)
  }

  /** handleAttachmentUpload. */
  function Serve(h: Hasher, s: Server, m: Message, fault: Fault): (Server, Reply)
    requires ServerValid(s)
  {
    if fault == LoseRequest then (s, Lost)
    else if fault == Refuse then (s, Failure(m.id, 0))
    else if m.id == 0 then
      Append(h, Server(s.uploads[s.next := Part([], false)], s.next + 1), s.next, m, fault)
    else if fault == Expire || m.id !in s.uploads then (s.(uploads := s.uploads - {m.id}), Failure(m.id, 0))
    else Append(h, s, m.id, m, fault)
  }

  function Answer(r: Reply, fault: Fault): Reply { if fault == LoseReply then Lost else r }

  // ---------------------------------------------------------------- the source

  datatype SourceError = None | Ended | EndedEarly | Broken

  /** An io.Reader: it yields `rest`, and then ends or, if `broken`, fails. */
  class Source {
    var rest: Bytes
    const broken: bool

    constructor (rest: Bytes, broken: bool)
      ensures this.rest == rest && this.broken == broken
    {
      this.rest, this.broken := rest, broken;
    }

    /** io.ReadFull. */
    method ReadFull(p: array<byte>) returns (n: nat, e: SourceError)
      modifies this`rest, p
      ensures n == Min(p.Length, |old(rest)|) && p[..n] == old(rest)[..n] && rest == old(rest)[n..]
      ensures e == None <==> n == p.Length
      ensures n < p.Length ==> e == if broken then Broken else if n == 0 then Ended else EndedEarly
    {
      n := Min(p.Length, |rest|);
      CopyInto(p, 0, rest[..n]);
      assert p[..n] == p[..][..n];
      rest := rest[n..];
      if n == p.Length { return n, None; }
      return n, if broken then Broken else if n == 0 then Ended else EndedEarly;
    }
  }

  // ---------------------------------------------------------------- one request

  /** The server holds, under `id`, a beginning of `whole`; all of it if the upload is done. */
  ghost predicate Holds(s: Server, id: nat, whole: Bytes) {
    id in s.uploads ==> s.uploads[id].bytes <= whole && (s.uploads[id].done ==> s.uploads[id].bytes == whole)
  }

  /** The message continues `whole`, or is one the server will not look at. */
  ghost predicate Continues(s: Server, m: Message, whole: Bytes) {
    || (m.id in s.uploads && s.uploads[m.id].done)
    || (0 <= m.offset && m.offset + |m.data| <= |whole| && m.data == whole[m.offset..m.offset + |m.data|] &&
        (m.final ==> m.offset + |m.data| == |whole|))
  }

  function Known(id: nat, r: Reply): nat { if r.Result? && r.id != 0 then r.id else id }

  ghost predicate SameBut(s: Server, s': Server, id: nat) {
    forall i :: 0 < i < s.next && i != id ==>
      (i in s.uploads <==> i in s'.uploads) && (i in s.uploads ==> s.uploads[i] == s'.uploads[i])
  }

  lemma Extended(whole: Bytes, bytes: Bytes, data: Bytes)
    requires bytes <= whole && |bytes| + |data| <= |whole| && data == whole[|bytes|..|bytes| + |data|]
    ensures bytes + data == whole[..|bytes| + |data|] && bytes + data <= whole
  {}

  /** A reply without error: the upload is done, or it has come as far as this message. */
  ghost predicate Acknowledged(h: Hasher, s: Server, s': Server, m: Message, id: nat, r: Reply, whole: Blob) {
    r.Result? && !r.failed ==>
      && id != 0 && id in s'.uploads && r.received == |s'.uploads[id].bytes|
      && (s'.uploads[id].done || r.received == m.offset + |m.data|)
      && (s'.uploads[id].done ==> m.final || IsDone(s, id)) && (IsDone(s, id) ==> s'.uploads[id].done)
      && (m.final ==> r.hash == ContentHash(h, whole) && r.size == |whole|)
  }

  lemma AppendStep(h: Hasher, s: Server, id: nat, m: Message, fault: Fault, whole: Blob)
    requires ServerValid(s) && id in s.uploads && Holds(s, id, whole) && Continues(s, m.(id := id), whole)
    ensures var (s', r) := Append(h, s, id, m, fault);
      && ServerValid(s') && s'.next == s.next && Holds(s', id, whole) && SameBut(s, s', id)
      && r.Result? && r.id == id && 0 <= r.received <= |whole|
      && Acknowledged(h, s, s', m, id, r, whole)
      && (fault == Deliver && (s.uploads[id].done || m.offset == |s.uploads[id].bytes|) ==> !r.failed)
  {
    var up := s.uploads[id];
    hide ContentHash;
    if !up.done && m.offset == |up.bytes| { Extended(whole, up.bytes, m.data); }
  }

  /** One request, whatever befalls it: the server still holds a beginning of the content, and says
      truthfully how much; a final chunk that is acknowledged is the end of the content. */
  lemma ServeStep(h: Hasher, s: Server, m: Message, fault: Fault, whole: Blob)
    requires ServerValid(s) && Holds(s, m.id, whole) && Continues(s, m, whole)
    ensures var (s', r0) := Serve(h, s, m, fault); var r := Answer(r0, fault); var id := Known(m.id, r);
      && ServerValid(s') && s.next <= s'.next && Holds(s', id, whole) && SameBut(s, s', m.id)
      && (r.Result? ==> 0 <= r.received <= |whole|)
      && Acknowledged(h, s, s', m, id, r, whole)
      && (m.id != 0 ==> id == m.id)
      && (fault == Deliver && Ready(s, m.id, m.offset) ==> r.Result? && !r.failed)
  {
    hide ContentHash, Append;
    if m.id == 0 {
      var s1 := Server(s.uploads[s.next := Part([], false)], s.next + 1);
      if fault != LoseRequest && fault != Refuse {
        AppendStep(h, s1, s.next, m, fault, whole);
      }
    } else if m.id in s.uploads {
      AppendStep(h, s, m.id, m, fault, whole);
    }
  }

  /** An upload that a chunk at `offset` will continue. */
  ghost predicate Ready(s: Server, id: nat, offset: int) {
    if id == 0 then offset == 0
    else id in s.uploads && (s.uploads[id].done || offset == |s.uploads[id].bytes|)
  }

  /** The upload is new, or the server still has it. */
  ghost predicate CanResume(s: Server, id: nat) { id == 0 || id in s.uploads }

  /** A request that is delivered to an upload the server has is accepted, or answered with how far the upload
      really is; one to an upload it does not have fails, now and whenever it is sent again. */
  lemma Answered(h: Hasher, s: Server, m: Message, fault: Fault)
    requires ServerValid(s)
    ensures var (s', r0) := Serve(h, s, m, fault); var r := Answer(r0, fault); var id := Known(m.id, r);
      && (CanResume(s, m.id) && fault == Deliver ==>
            r.Result? && CanResume(s', id) && (r.failed ==> Ready(s', id, r.received)))
      && (!CanResume(s, m.id) ==> (r.Result? ==> r.failed) && id == m.id && !CanResume(s', m.id))
  {
    hide ContentHash;
  }

  /** Which failures are the end of an upload: exactly those in which the server forgot it, and those in which
      it could not write a chunk it would have taken, or finish after the last one. */
  lemma EndsAnUpload(h: Hasher, s: Server, m: Message, fault: Fault)
    requires ServerValid(s) && m.id in s.uploads
    ensures var (s', r0) := Serve(h, s, m, fault);
      !CanResume(s', m.id) <==>
      || fault == Expire
      || ((fault == WriteError || (fault == FinishError && m.final)) &&
          !s.uploads[m.id].done && m.offset == |s.uploads[m.id].bytes|)
  {
    hide ContentHash;
  }

  /** An upload of which ten bytes were received expires: no later request succeeds, whatever it sends. */
  lemma AnExpiredUpload(h: Hasher, ten: Bytes, m: Message, later: Message, fault: Fault)
    requires |ten| == 10 && m.id == later.id == 1
    ensures var s := Server(map[1 := Part(ten, false)], 2);
      var (s', _) := Serve(h, s, m, Expire);
      ServerValid(s') && (Answer(Serve(h, s', later, fault).1, fault).Result? ==> Serve(h, s', later, fault).1.failed)
  {
    var s := Server(map[1 := Part(ten, false)], 2);
    EndsAnUpload(h, s, m, Expire);
    Answered(h, Serve(h, s, m, Expire).0, later, fault);
  }

  // ---------------------------------------------------------------- the client

  class Connection {
    const h: Hasher
    var server: Server
    var faults: seq<Fault>  // what will befall the requests to come; none once it is spent
    ghost var log: seq<Message>

    constructor (h: Hasher, server: Server, faults: seq<Fault>)
      ensures this.h == h && this.server == server && this.faults == faults && log == []
    {
      this.h, this.server, this.faults, log := h, server, faults, [];
    }

    method Request(m: Message) returns (r: Reply)
      requires ServerValid(server)
      modifies this
      ensures var fault := if old(faults) == [] then Deliver else old(faults)[0];
        var (s, r0) := Serve(h, old(server), m, fault);
        server == s && r == Answer(r0, fault)
      ensures faults == (if old(faults) == [] then [] else old(faults)[1..]) && log == old(log) + [m]
    {
      var fault := if faults == [] then Deliver else faults[0];
      faults := if faults == [] then [] else faults[1..];
      var (s, r0) := Serve(h, server, m, fault);
      server := s;
      log := log + [m];
      return Answer(r0, fault);
    }
  }

  datatype UploadResult =
    | Uploaded(hash: Digest, size: int)
    | SourceFailed
    | Dropped(id: nat, received: int)

  function Bodies(sent: seq<Message>): seq<Bytes> { seq(|sent|, i requires 0 <= i < |sent| => sent[i].data) }

  /** Whole chunks, none of them marked final, one after another from `from`. */
  ghost predicate Leading(sent: seq<Message>, from: int, placed: bool) {
    forall i :: 0 <= i < |sent| ==>
      |sent[i].data| == CHUNK && !sent[i].final && (placed ==> sent[i].offset == from + i * CHUNK)
  }

  /** The messages of one call: whole chunks, and at the end perhaps a last one. */
  ghost predicate Chunked(sent: seq<Message>, from: int, placed: bool) {
    sent != [] ==>
      && Leading(sent[..|sent| - 1], from, placed)
      && |sent[|sent| - 1].data| <= CHUNK
      && (placed ==> sent[|sent| - 1].offset == from + (|sent| - 1) * CHUNK)
      && (!sent[|sent| - 1].final ==> |sent[|sent| - 1].data| == CHUNK)
      && (|sent| > 1 ==> sent[|sent| - 1].data != [])
  }

  ghost predicate IsDone(s: Server, id: nat) { id in s.uploads && s.uploads[id].done }

  /** Where the upload stands: at `at` in the content, unless the server already has it all. */
  ghost predicate Standing(s: Server, id: nat, offset: int, at: int, placed: bool, whole: Bytes) {
    && ServerValid(s) && Holds(s, id, whole)
    && (IsDone(s, id) || offset == at) && (placed ==> offset == at && !IsDone(s, id))
  }

  /** Where the source stands: `sent` and `chunk` are what it has given, `rest` is still to come. */
  ghost predicate Reading(all: Bytes, sent: seq<Message>, chunk: Bytes, rest: Bytes, eof: bool, from: int,
                          placed: bool) {
    && Leading(sent, from, placed) && |chunk| <= CHUNK && all == Flat(Bodies(sent)) + (chunk + rest)
    && (eof ==> rest == [] && (sent != [] ==> chunk != [])) && (!eof ==> |chunk| == CHUNK)
  }

  lemma {:induction false} LeadingLength(sent: seq<Message>, from: int, placed: bool)
    requires Leading(sent, from, placed)
    ensures |Flat(Bodies(sent))| == |sent| * CHUNK
  {
    if sent != [] {
      assert Bodies(sent)[1..] == Bodies(sent[1..]) && Bodies(sent)[0] == sent[0].data;
      assert Leading(sent[1..], 0, false);
      LeadingLength(sent[1..], 0, false);
    }
  }

  lemma BodiesSnoc(sent: seq<Message>, m: Message)
    ensures Flat(Bodies(sent + [m])) == Flat(Bodies(sent)) + m.data
  {
    assert Bodies(sent + [m]) == Bodies(sent) + [m.data];
    FlatSnoc(Bodies(sent), m.data);
  }

  /** The chunk in hand is the next stretch of the content. */
  lemma NextContinues(s: Server, id: nat, offset: int, received: nat, placed: bool, whole: Bytes,
                      all: Bytes, sent: seq<Message>, chunk: Bytes, rest: Bytes, final: bool)
    requires Standing(s, id, offset, received + |sent| * CHUNK, placed, whole)
    requires Leading(sent, received, placed) && all == Flat(Bodies(sent)) + (chunk + rest)
    requires received <= |whole| && all <= whole[received..]
    requires final ==> rest == [] && all == whole[received..]
    ensures Continues(s, Message(id, offset, chunk, final), whole)
  {
    LeadingLength(sent, received, placed);
    hide Flat, Bodies, Leading, Holds, ServerValid;
    var k := |sent| * CHUNK;
    assert all[k..k + |chunk|] == chunk;
    assert whole[received..][k..k + |chunk|] == chunk;
    assert whole[received + k..received + k + |chunk|] == chunk;
  }

  lemma SentChunk(all: Bytes, sent: seq<Message>, m: Message, rest: Bytes, from: int, placed: bool)
    requires Leading(sent, from, placed) && |m.data| <= CHUNK && all == Flat(Bodies(sent)) + (m.data + rest)
    requires (!m.final ==> |m.data| == CHUNK) && (placed ==> m.offset == from + |sent| * CHUNK)
    requires sent != [] ==> m.data != []
    ensures Chunked(sent + [m], from, placed)
    ensures all == Flat(Bodies(sent + [m])) + rest && Flat(Bodies(sent + [m])) <= all
    ensures !m.final ==> Leading(sent + [m], from, placed)
  {
    BodiesSnoc(sent, m);
    hide Flat, Bodies;
    assert (sent + [m])[..|sent|] == sent;
    assert Flat(Bodies(sent)) + (m.data + rest) == Flat(Bodies(sent)) + m.data + rest;
  }

  lemma NothingSent(all: Bytes, from: int, placed: bool)
    ensures Chunked([], from, placed) && Flat(Bodies([])) <= all
  {}

  lemma StopsBetween(s: Server, id: nat, offset: int, at: int, placed: bool, whole: Bytes,
                     all: Bytes, sent: seq<Message>, chunk: Bytes, rest: Bytes, eof: bool, from: int)
    requires Standing(s, id, offset, at, placed, whole)
    requires Reading(all, sent, chunk, rest, eof, from, placed)
    ensures ServerValid(s) && Holds(s, id, whole)
    ensures Chunked(sent, from, placed) && Flat(Bodies(sent)) <= all
  {
    hide Flat, Bodies;
    if sent != [] { assert sent[|sent| - 1].data != []; }
  }

  /** One turn of the loop, as far as the source goes: `ahead` was read ahead of sending `chunk`. */
  lemma Turn(s: Server, id: nat, offset: int, received: nat, placed: bool, whole: Bytes, all: Bytes, sent: seq<Message>,
             chunk: Bytes, was: Bytes, eof: bool, ahead: Bytes, rest: Bytes, end: bool, final: bool)
    requires Standing(s, id, offset, received + |sent| * CHUNK, placed, whole)
    requires Reading(all, sent, chunk, was, eof, received, placed)
    requires received <= |whole| && all <= whole[received..] && (end ==> all == whole[received..])
    requires was == ahead + rest && (eof ==> end && ahead == []) && (end ==> rest == [])
    requires |ahead| <= CHUNK && (!end ==> |ahead| == CHUNK)
    requires final == (eof || (ahead == [] && end))
    ensures Continues(s, Message(id, offset, chunk, final), whole) && (!final ==> |chunk| == CHUNK)
    ensures var sent' := sent + [Message(id, offset, chunk, final)];
      && Chunked(sent', received, placed) && Flat(Bodies(sent')) <= all
      && if final then Flat(Bodies(sent')) == all else Reading(all, sent', ahead, rest, end, received, placed)
  {
    hide Flat, Bodies, Leading, Continues, Chunked;
    var m := Message(id, offset, chunk, final);
    NextContinues(s, id, offset, received, placed, whole, all, sent, chunk, was, final);
    SentChunk(all, sent, m, was, received, placed);
    if final { assert Flat(Bodies(sent + [m])) + [] == Flat(Bodies(sent + [m])); }
  }

  lemma Starts(s: Server, id: nat, received: nat, whole: Bytes, all: Bytes, chunk: Bytes, rest: Bytes, eof: bool)
    requires ServerValid(s) && Holds(s, id, whole) && |chunk| <= CHUNK && all == chunk + rest
    requires if eof then rest == [] else |chunk| == CHUNK
    ensures Standing(s, id, received, received, !IsDone(s, id), whole)
    ensures Reading(all, [], chunk, rest, eof, received, !IsDone(s, id))
  {
    assert [] + all == all;
  }

  /** What an acknowledgement says about where the upload stands. */
  lemma NextStanding(h: Hasher, s: Server, s': Server, m: Message, id: nat, r: Reply, at: int, placed: bool,
                     whole: Blob)
    requires Standing(s, m.id, m.offset, at, placed, whole) && ServerValid(s') && Holds(s', id, whole)
    requires r.Result? && !r.failed && Acknowledged(h, s, s', m, id, r, whole) && !m.final && (m.id != 0 ==> id == m.id)
    requires m.id == 0 ==> id !in s.uploads
    ensures Standing(s', id, r.received, at + |m.data|, placed, whole) && Ready(s', id, r.received)
  {
    hide ContentHash;
  }

  /** One chunk sent. */
  method Send(w: Connection, m: Message, ghost at: int, ghost placed: bool, ghost whole: Blob) returns (r: Reply)
    requires Standing(w.server, m.id, m.offset, at, placed, whole) && Continues(w.server, m, whole)
    modifies w
    ensures w.log == old(w.log) + [m] && (old(w.faults) == [] ==> w.faults == [])
    ensures ServerValid(w.server) && Holds(w.server, Known(m.id, r), whole)
    ensures r.Result? ==> 0 <= r.received <= |whole|
    ensures r.Result? && !r.failed && m.final ==> r.hash == ContentHash(w.h, whole) && r.size == |whole|
    ensures r.Result? && !r.failed && !m.final ==>
      && Standing(w.server, Known(m.id, r), r.received, at + |m.data|, placed, whole)
      && Ready(w.server, Known(m.id, r), r.received)
    ensures old(w.faults) == [] && Ready(old(w.server), m.id, m.offset) ==> r.Result? && !r.failed
    ensures old(w.faults) == [] && CanResume(old(w.server), m.id) ==>
      r.Result? && CanResume(w.server, Known(m.id, r)) && (r.failed ==> Ready(w.server, Known(m.id, r), r.received))
    ensures !CanResume(old(w.server), m.id) ==>
      (r.Result? ==> r.failed) && Known(m.id, r) == m.id && !CanResume(w.server, m.id)
  {
    ghost var s := w.server;
    ServeStep(w.h, s, m, if w.faults == [] then Deliver else w.faults[0], whole);
    NewId(w.h, s, m, if w.faults == [] then Deliver else w.faults[0]);
    Answered(w.h, s, m, if w.faults == [] then Deliver else w.faults[0]);
    hide Serve, ContentHash, Continues, ServerValid, Holds, Standing, Ready, CanResume;
    r := w.Request(m);
    if r.Result? && !r.failed && !m.final {
      NextStanding(w.h, s, w.server, m, Known(m.id, r), r, at, placed, whole);
    }
  }

  lemma NewId(h: Hasher, s: Server, m: Message, fault: Fault)
    requires ServerValid(s)
    ensures var r := Serve(h, s, m, fault).1; m.id == 0 && r.Result? && !r.failed ==> r.id == s.next
  {
    hide ContentHash;
  }

  /** The look-ahead of ResumeUpload: the chunk in hand is the last if the source gives nothing more. */
  method ReadAhead(src: Source, next: array<byte>, eof: bool) returns (m: nat, final: bool, end: bool, broke: bool)
    requires next.Length == CHUNK && (eof ==> src.rest == [])
    modifies src`rest, next
    ensures m <= CHUNK && old(src.rest) == next[..m] + src.rest && (eof ==> end && !broke && m == 0)
    ensures broke ==> src.broken
    ensures !broke ==> (final <==> eof || (m == 0 && end))
    ensures !broke && end && !eof ==> !src.broken
    ensures !broke ==> if end then src.rest == [] else m == CHUNK
  {
    m, final, end, broke := 0, eof, eof, false;
    if !eof {
      var e;
      m, e := src.ReadFull(next);
      final := m == 0 && (e == Ended || e == EndedEarly);
      broke := e != None && e != Ended && e != EndedEarly;
      end := e != None;
    }
  }

  /** ResumeUpload (and UploadAttachment, which is it from nothing): for every source, server state and
      sequence of faults, what is sent is the source cut at every mebibyte with exactly the last chunk
      final, the server is left holding a beginning of the content under the identifier reported, and
      a success means that it holds all of it. Without faults it succeeds if it continues where the upload is; if
      it does not, but the server has the upload, it comes back knowing where; and an upload the server no longer
      has never succeeds. */
  method ResumeUpload(w: Connection, uploadId: nat, received: nat, src: Source, ghost whole: Blob)
    returns (res: UploadResult, ghost sent: seq<Message>)
    requires ServerValid(w.server) && Holds(w.server, uploadId, whole)
    requires received <= |whole| && src.rest <= whole[received..] && (!src.broken ==> src.rest == whole[received..])
    modifies w, src
    ensures ServerValid(w.server) && w.log == old(w.log) + sent
    ensures Chunked(sent, received, !IsDone(old(w.server), uploadId))
    ensures Flat(Bodies(sent)) <= old(src.rest)
    ensures res.Uploaded? ==> sent != [] && sent[|sent| - 1].final && Flat(Bodies(sent)) == old(src.rest)
    ensures res.Uploaded? ==> !src.broken && res.hash == ContentHash(w.h, whole) && res.size == |whole|
    ensures res.Dropped? ==> Holds(w.server, res.id, whole) && 0 <= res.received <= |whole|
    ensures res.SourceFailed? ==> src.broken && sent == []
    ensures old(w.faults) == [] && Ready(old(w.server), uploadId, received) ==>
      if src.broken then res.Dropped? ==> Ready(w.server, res.id, res.received) else res.Uploaded?
    ensures old(w.faults) == [] && CanResume(old(w.server), uploadId) && !src.broken ==>
      w.faults == [] && (res.Uploaded? || (res.Dropped? && Ready(w.server, res.id, res.received)))
    ensures !CanResume(old(w.server), uploadId) ==>
      !res.Uploaded? && (res.Dropped? ==> res.id == uploadId && !CanResume(w.server, uploadId))
  {
    hide ContentHash, Flat, Bodies, Leading, Chunked, Continues, Holds, ServerValid, Serve, Ready, IsDone, Standing;
    hide Reading, CanResume;
    sent := [];
    ghost var all, placed := src.rest, !IsDone(w.server, uploadId);
    ghost var quiet := w.faults == [] && Ready(w.server, uploadId, received);
    ghost var calm := w.faults == [] && CanResume(w.server, uploadId);
    ghost var gone := !CanResume(w.server, uploadId);
    var buf, next := new byte[CHUNK], new byte[CHUNK];
    var n, err := src.ReadFull(buf);
    var eof := err == Ended || err == EndedEarly;
    NothingSent(all, received, placed);
    if err != None && !eof { return SourceFailed, sent; }
    var offset, id := received as int, uploadId;
    assert all == buf[..n] + src.rest && w.log == old(w.log) + [];
    Starts(w.server, uploadId, received, whole, all, buf[..n], src.rest, eof);
    while true
      invariant fresh(buf) && fresh(next) && buf != next && buf.Length == next.Length == CHUNK && n <= CHUNK
      invariant w.log == old(w.log) + sent
      invariant Standing(w.server, id, offset, received + |sent| * CHUNK, placed, whole) && 0 <= offset <= |whole|
      invariant Reading(all, sent, buf[..n], src.rest, eof, received, placed) && (eof ==> !src.broken && src.rest == [])
      invariant quiet ==> w.faults == [] && Ready(w.server, id, offset)
      invariant calm ==> w.faults == [] && CanResume(w.server, id)
      invariant gone ==> id == uploadId && !CanResume(w.server, id)
      decreases |src.rest|, if eof then 0 else 1
    {
      ghost var was, wasEof := src.rest, eof;
      var m, final, end, broke := ReadAhead(src, next, eof);
      if broke {
        StopsBetween(w.server, id, offset, received + |sent| * CHUNK, placed, whole,
                     all, sent, buf[..n], was, wasEof, received);
        return Dropped(id, offset), sent;
      }
      eof := end;
      var msg := Message(id, offset, buf[..n], final);
      Turn(w.server, id, offset, received, placed, whole, all, sent, buf[..n], was, wasEof, next[..m], src.rest, eof,
           final);
      var reply := Send(w, msg, received + |sent| * CHUNK, placed, whole);
      sent := sent + [msg];
      if reply.Lost? { return Dropped(id, offset), sent; }
      if reply.id != 0 { id := reply.id; }
      if reply.failed { return Dropped(id, reply.received), sent; }
      offset := reply.received;
      if final { return Uploaded(reply.hash, reply.size), sent; }
      buf, next, n := next, buf, m;
    }
  }

  /** A caller that resumes an upload with the file at hand, and once more from where it is told if the first
      time falls short: without faults that succeeds if and only if the server still has the upload, however wrong
      the caller was about how much of it was received. */
  method ResumeTwice(w: Connection, uploadId: nat, received: nat, whole: Blob) returns (res: UploadResult)
    requires ServerValid(w.server) && Holds(w.server, uploadId, whole) && received <= |whole| && w.faults == []
    modifies w
    ensures ServerValid(w.server)
    ensures res.Uploaded? <==> CanResume(old(w.server), uploadId)
    ensures res.Uploaded? ==> res.hash == ContentHash(w.h, whole) && res.size == |whole|
  {
    hide ContentHash, Flat, Bodies, Chunked, Holds, ServerValid, Ready, CanResume;
    ghost var sent;
    var src := new Source(whole[received..], false);
    res, sent := ResumeUpload(w, uploadId, received, src, whole);
    if res.Dropped? {
      src := new Source(whole[res.received..], false);
      res, sent := ResumeUpload(w, res.id, res.received, src, whole);
    }
  }
}
