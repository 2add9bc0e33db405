/** Checking and restoring backups (go/kdb/backup/backup.go, Verify, FetchToDir and ListBackups, and
    attachments.go), and that a restore inverts the backup. */
module BackupRestore {
  import opened Words
  import opened Keys
  import opened BackupRuns
  import opened BackupCreate
  import opened LogTips

  /** The object at `key` is there with the recorded hash. */
  ghost predicate Fetches(sha: Sha, objects: Store, key: string, sum: string) {
    key in objects && objects[key].Raw? && sha(objects[key].data) == sum
  }

  function Data(objects: Store, key: string): Bytes {
    if key in objects && objects[key].Raw? then objects[key].data else []
  }

  /** A local directory: file names and contents. */
  type Directory = map<string, Bytes>

  function SegmentFiles(objects: Store, ns: string, entries: seq<Segment>): Directory {
    if entries == [] then map[]
    else
      var e := entries[|entries| - 1];
      SegmentFiles(objects, ns, entries[..|entries| - 1])[LegacyKey(ns, e.number) := Data(objects, e.key)]
  }

  function PartsData(objects: Store, parts: seq<Part>): Bytes {
    if parts == [] then [] else PartsData(objects, parts[..|parts| - 1]) + Data(objects, parts[|parts| - 1].key)
  }

  function AttachmentFiles(objects: Store, files: Directory, attachments: seq<Attachment>): Directory {
    if attachments == [] then files
    else
      var a := attachments[|attachments| - 1];
      AttachmentFiles(objects, files, attachments[..|attachments| - 1])[a.name := PartsData(objects, a.parts)]
  }

  ghost predicate AllFetch(sha: Sha, objects: Store, m: Manifest) {
    && (forall e :: e in m.segments ==> Fetches(sha, objects, e.key, e.sum))
    && (forall a, p :: a in m.attachments && p in a.parts ==> Fetches(sha, objects, p.key, p.sum))
  }

  datatype Fetched = Fetched(m: Manifest, files: Directory) | FetchError

  /** Get, with the hash checked. */
  method GetChecked(sha: Sha, objects: Store, key: string, sum: string) returns (ok: bool, data: Bytes)
    ensures ok <==> Fetches(sha, objects, key, sum)
    ensures ok ==> data == Data(objects, key)
  {
    if key !in objects || !objects[key].Raw? { return false, []; }
    data := objects[key].data;
    ok := sha(data) == sum;
  }

  method FetchSegments(sha: Sha, objects: Store, ns: string, entries: seq<Segment>) returns (ok: bool, files: Directory)
    ensures ok <==> forall e :: e in entries ==> Fetches(sha, objects, e.key, e.sum)
    ensures ok ==> files == SegmentFiles(objects, ns, entries)
  {
    hide Fetches, Data, LegacyKey;
    files := map[];
    for i := 0 to |entries|
      invariant forall e :: e in entries[..i] ==> Fetches(sha, objects, e.key, e.sum)
      invariant files == SegmentFiles(objects, ns, entries[..i])
    {
      var e := entries[i];
      assert entries[..i + 1][..i] == entries[..i];
      var good, data := GetChecked(sha, objects, e.key, e.sum);
      if !good { assert e in entries; return false, files; }
      files := files[LegacyKey(ns, e.number) := data];
    }
    assert entries[..|entries|] == entries;
    return true, files;
  }

  method FetchParts(sha: Sha, objects: Store, parts: seq<Part>) returns (ok: bool, data: Bytes)
    ensures ok <==> forall p :: p in parts ==> Fetches(sha, objects, p.key, p.sum)
    ensures ok ==> data == PartsData(objects, parts)
  {
    hide Fetches, Data;
    data := [];
    for i := 0 to |parts|
      invariant forall p :: p in parts[..i] ==> Fetches(sha, objects, p.key, p.sum)
      invariant data == PartsData(objects, parts[..i])
    {
      assert parts[..i + 1][..i] == parts[..i];
      var good, more := GetChecked(sha, objects, parts[i].key, parts[i].sum);
      if !good { assert parts[i] in parts; return false, data; }
      data := data + more;
    }
    assert parts[..|parts|] == parts;
    return true, data;
  }

  /** fetchAttachments. */
  method FetchAttachments(sha: Sha, objects: Store, before: Directory, attachments: seq<Attachment>)
    returns (ok: bool, files: Directory)
    ensures ok <==> forall a, p :: a in attachments && p in a.parts ==> Fetches(sha, objects, p.key, p.sum)
    ensures ok ==> files == AttachmentFiles(objects, before, attachments)
  {
    hide Fetches, Data, PartsData;
    files := before;
    for i := 0 to |attachments|
      invariant forall a, p :: a in attachments[..i] && p in a.parts ==> Fetches(sha, objects, p.key, p.sum)
      invariant files == AttachmentFiles(objects, before, attachments[..i])
    {
      assert attachments[..i + 1][..i] == attachments[..i];
      var good, data := FetchParts(sha, objects, attachments[i].parts);
      if !good {
        assert attachments[i] in attachments;
        return false, files;
      }
      files := files[attachments[i].name := data];
    }
    assert attachments[..|attachments|] == attachments;
    return true, files;
  }

  /** FetchToDir: all the files, or an error if any object is missing or not what was recorded. */
  method FetchToDir(sha: Sha, objects: Store, ns: string, id: string) returns (r: Fetched)
    ensures r.Fetched? <==> Load(objects, ns, id).Against? && AllFetch(sha, objects, Load(objects, ns, id).manifest)
    ensures r.Fetched? ==> r.m == Load(objects, ns, id).manifest && r.files == Restored(objects, ns, r.m)
  {
    hide Fetches, Load, AttachmentFiles, SegmentFiles;
    var base := Load(objects, ns, id);
    if base.NoBase? { return FetchError; }
    var ok, files := FetchSegments(sha, objects, ns, base.manifest.segments);
    if !ok { return FetchError; }
    ok, files := FetchAttachments(sha, objects, files, base.manifest.attachments);
    return if ok then Fetched(base.manifest, files) else FetchError;
  }

  function Restored(objects: Store, ns: string, m: Manifest): Directory {
    AttachmentFiles(objects, SegmentFiles(objects, ns, m.segments), m.attachments)
  }

  // ---------------------------------------------------------------- Verify

  method CheckObject(sha: Sha, objects: Store, key: string, sum: string, size: nat) returns (good: bool)
    ensures good <==> Good(sha, objects, key, sum, size)
  {
    if key !in objects || !objects[key].Raw? { return false; }
    return |objects[key].data| == size && sha(objects[key].data) == sum;
  }

  /** An entry under `key` is not there as recorded. */
  ghost predicate BadSegment(sha: Sha, objects: Store, entries: seq<Segment>, key: string) {
    exists e :: e in entries && e.key == key && !Good(sha, objects, e.key, e.sum, e.size)
  }

  ghost predicate BadPart(sha: Sha, objects: Store, parts: seq<Part>, key: string) {
    exists p :: p in parts && p.key == key && !Good(sha, objects, p.key, p.sum, p.size)
  }

  ghost predicate BadAttachment(sha: Sha, objects: Store, attachments: seq<Attachment>, key: string) {
    exists a :: a in attachments && BadPart(sha, objects, a.parts, key)
  }

  /** Verify finds the manifest clean if and only if everything it names, legacy keys and all, is there as
      recorded; and the keys it finds fault with are exactly those of entries and parts that are not. */
  method Verify(sha: Sha, objects: Store, ns: string, id: string) returns (loaded: bool, problems: seq<string>)
    ensures loaded <==> Load(objects, ns, id).Against?
    ensures loaded ==> (problems == [] <==> AllGood(sha, objects, Load(objects, ns, id).manifest))
    ensures loaded ==> var m := Load(objects, ns, id).manifest;
      forall key :: key in problems <==>
        BadSegment(sha, objects, m.segments, key) || BadAttachment(sha, objects, m.attachments, key)
  {
    hide Good, Load, BadPart;
    var base := Load(objects, ns, id);
    if base.NoBase? { return false, []; }
    var m := base.manifest;
    problems := [];
    for i := 0 to |m.segments|
      invariant forall key :: key in problems <==> BadSegment(sha, objects, m.segments[..i], key)
    {
      var e := m.segments[i];
      assert m.segments[..i + 1] == m.segments[..i] + [e];
      var good := CheckObject(sha, objects, e.key, e.sum, e.size);
      if !good { problems := problems + [e.key]; }
    }
    assert m.segments[..|m.segments|] == m.segments;
    ghost var first := problems;
    for i := 0 to |m.attachments|
      invariant forall key :: key in problems <==>
        key in first || BadAttachment(sha, objects, m.attachments[..i], key)
    {
      var more := VerifyParts(sha, objects, m.attachments[i].parts);
      assert m.attachments[..i + 1] == m.attachments[..i] + [m.attachments[i]];
      problems := problems + more;
    }
    assert m.attachments[..|m.attachments|] == m.attachments;
    CleanIfNoneBad(sha, objects, m, problems);
    return true, problems;
  }

  ghost predicate AllGood(sha: Sha, objects: Store, m: Manifest) {
    && (forall e :: e in m.segments ==> Good(sha, objects, e.key, e.sum, e.size))
    && (forall a, p :: a in m.attachments && p in a.parts ==> Good(sha, objects, p.key, p.sum, p.size))
  }

  lemma CleanIfNoneBad(sha: Sha, objects: Store, m: Manifest, problems: seq<string>)
    requires forall key :: key in problems <==>
      BadSegment(sha, objects, m.segments, key) || BadAttachment(sha, objects, m.attachments, key)
    ensures problems == [] <==> AllGood(sha, objects, m)
  {
    hide Good;
    if problems == [] {
      forall e | e in m.segments ensures Good(sha, objects, e.key, e.sum, e.size) {
        assert !BadSegment(sha, objects, m.segments, e.key);
      }
      forall a, p | a in m.attachments && p in a.parts ensures Good(sha, objects, p.key, p.sum, p.size) {
        assert !BadAttachment(sha, objects, m.attachments, p.key) && !BadPart(sha, objects, a.parts, p.key);
      }
    } else {
      assert problems[0] in problems;
    }
  }

  method VerifyParts(sha: Sha, objects: Store, parts: seq<Part>) returns (problems: seq<string>)
    ensures forall key :: key in problems <==> BadPart(sha, objects, parts, key)
    ensures problems == [] <==> forall p :: p in parts ==> Good(sha, objects, p.key, p.sum, p.size)
  {
    hide Good;
    problems := [];
    for i := 0 to |parts|
      invariant forall key :: key in problems <==> BadPart(sha, objects, parts[..i], key)
      invariant problems == [] <==> forall p :: p in parts[..i] ==> Good(sha, objects, p.key, p.sum, p.size)
    {
      assert parts[..i + 1] == parts[..i] + [parts[i]];
      var good := CheckObject(sha, objects, parts[i].key, parts[i].sum, parts[i].size);
      if !good { problems := problems + [parts[i].key]; }
    }
    assert parts[..|parts|] == parts;
  }

  // ---------------------------------------------------------------- restore inverts backup

  ghost predicate DistinctNumbers(log: seq<LogSegment>) {
    forall i, k :: 0 <= i < k < |log| ==> log[i].number != log[k].number
  }

  ghost predicate DistinctNames(listed: seq<StoreSegment>) {
    forall i, k :: 0 <= i < k < |listed| ==> listed[i].name != listed[k].name
  }

  lemma LegacyKeyDetermines(ns: string, a: Sequence, b: Sequence)
    requires LegacyKey(ns, a) == LegacyKey(ns, b)
    ensures a == b
  {
    hide Padded;
    AfterPrefix("ns/", ns + ("/delta/" + (Padded(a) + ".seg")), ns + ("/delta/" + (Padded(b) + ".seg")));
    AfterPrefix(ns, "/delta/" + (Padded(a) + ".seg"), "/delta/" + (Padded(b) + ".seg"));
    AfterPrefix("/delta/", Padded(a) + ".seg", Padded(b) + ".seg");
    BeforeSuffix(Padded(a), Padded(b), ".seg");
    PaddedDetermines(a, b);
  }

  /** Every segment's file holds the bytes that were read of it. */
  lemma {:induction false} SegmentsRestored(sha: Sha, objects: Store, ns: string, log: seq<LogSegment>,
                                            entries: seq<Segment>, i: nat)
    requires Ideal(sha) && DistinctNumbers(log) && i < |log| == |entries|
    requires forall k :: 0 <= k < |log| ==>
      Readable(log[k]) && entries[k].number == log[k].number && entries[k].sum == sha(Saved(log[k]))
    requires forall e :: e in entries ==> Fetches(sha, objects, e.key, e.sum)
    ensures var files := SegmentFiles(objects, ns, entries); var name := LegacyKey(ns, log[i].number);
      name in files && files[name] == Saved(log[i])
    decreases |entries|
  {
    hide LegacyKey, Saved;
    var n := |entries| - 1;
    assert entries[n] in entries && Fetches(sha, objects, entries[n].key, entries[n].sum);
    if i < n {
      if LegacyKey(ns, log[i].number) == LegacyKey(ns, log[n].number) {
        LegacyKeyDetermines(ns, log[i].number, log[n].number);
      }
      SegmentsRestored(sha, objects, ns, log[..n], entries[..n], i);
    }
  }

  lemma {:induction false} PartsRestored(sha: Sha, objects: Store, ns: string, pieces: seq<Bytes>)
    requires Ideal(sha) && forall p :: p in PartsOf(sha, ns, pieces) ==> Fetches(sha, objects, p.key, p.sum)
    ensures PartsData(objects, PartsOf(sha, ns, pieces)) == Flat(pieces)
    decreases |pieces|
  {
    if pieces != [] {
      var n := |pieces| - 1;
      var parts := PartsOf(sha, ns, pieces);
      assert parts[..n] == PartsOf(sha, ns, pieces[..n]) && pieces == pieces[..n] + [pieces[n]];
      assert parts[n] in parts && Fetches(sha, objects, parts[n].key, parts[n].sum);
      assert Data(objects, parts[n].key) == pieces[n];
      hide Flat, PartKey, PartsOf;
      forall p | p in parts[..n] ensures Fetches(sha, objects, p.key, p.sum) { assert p in parts; }
      PartsRestored(sha, objects, ns, pieces[..n]);
      FlatSnoc(pieces[..n], pieces[n]);
    }
  }

  lemma FilesSnoc(objects: Store, files: Directory, all: seq<Attachment>, a: Attachment)
    ensures var before := AttachmentFiles(objects, files, all);
            AttachmentFiles(objects, files, all + [a]) == before[a.name := PartsData(objects, a.parts)]
    ensures AttachmentFiles(objects, files, all + []) == AttachmentFiles(objects, files, all)
  {
    assert (all + [a])[..|all|] == all && all + [] == all;
  }

  /** The part of what is listed that a restore brings back. */
  ghost predicate Recoverable(ns: string, g: StoreSegment, k: nat) { IsAttachment(ns, g.name) && HasParts(g, k) }

  /** What a listed segment adds to the files. */
  lemma EntryRestored(sha: Sha, objects: Store, files: Directory, ns: string, listed: seq<StoreSegment>, k: nat)
    requires Ideal(sha) && listed != []
    requires forall a, p :: a in Attached(sha, ns, listed, k) && p in a.parts ==> Fetches(sha, objects, p.key, p.sum)
    ensures var g, init := listed[|listed| - 1], listed[..|listed| - 1];
            var before := AttachmentFiles(objects, files, Attached(sha, ns, init, k));
            AttachmentFiles(objects, files, Attached(sha, ns, listed, k)) ==
            if Recoverable(ns, g, k) then before[g.name := Recorded(g, k)] else before
    ensures var init := listed[..|listed| - 1];
            forall a, p :: a in Attached(sha, ns, init, k) && p in a.parts ==> Fetches(sha, objects, p.key, p.sum)
  {
    hide IsAttachment, Fetches, PartsOf, Cut, PartsData, AttachmentFiles, Flat;
    var n := |listed| - 1;
    var init, g := listed[..n], listed[n];
    var all := Attached(sha, ns, init, k);
    var last := if IsAttachment(ns, g.name) then Entry(sha, ns, g, k) else [];
    assert Attached(sha, ns, listed, k) == all + last;
    if Recoverable(ns, g, k) {
      assert last[0] in all + last && last == [last[0]];
      PartsRestored(sha, objects, ns, Cut(g.answers, k, 0).parts);
      FilesSnoc(objects, files, all, last[0]);
    } else {
      FilesSnoc(objects, files, all, Attachment("", 0, []));
    }
  }

  /** Every attachment segment's file is what was read of it, whatever the part size. */
  lemma {:induction false} AttachmentsRestored(sha: Sha, objects: Store, files: Directory, ns: string,
                                               listed: seq<StoreSegment>, k: nat, i: nat)
    requires Ideal(sha) && DistinctNames(listed) && i < |listed| && Recoverable(ns, listed[i], k)
    requires forall a, p :: a in Attached(sha, ns, listed, k) && p in a.parts ==> Fetches(sha, objects, p.key, p.sum)
    ensures var restored := AttachmentFiles(objects, files, Attached(sha, ns, listed, k));
            listed[i].name in restored && restored[listed[i].name] == Recorded(listed[i], k)
    decreases |listed|
  {
    hide Ideal, IsAttachment, Fetches, Attached, AttachmentFiles, HasParts, Recorded;
    var n := |listed| - 1;
    EntryRestored(sha, objects, files, ns, listed, k);
    if i < n {
      assert listed[..n][i] == listed[i] && listed[i].name != listed[n].name;
      AttachmentsRestored(sha, objects, files, ns, listed[..n], k, i);
    }
  }

  // Nothing is restored but the log and the attachments.

  lemma {:induction false} SegmentFileNames(objects: Store, ns: string, entries: seq<Segment>, name: string)
    ensures name in SegmentFiles(objects, ns, entries) <==> exists e :: e in entries && name == LegacyKey(ns, e.number)
    decreases |entries|
  {
    hide LegacyKey;
    if entries != [] {
      var n := |entries| - 1;
      SegmentFileNames(objects, ns, entries[..n], name);
      assert entries == entries[..n] + [entries[n]];
    }
  }

  ghost predicate IsNamed(attachments: seq<Attachment>, name: string) {
    exists a :: a in attachments && name == a.name
  }

  lemma {:induction false} AttachmentFileNames(objects: Store, files: Directory, attachments: seq<Attachment>,
                                               name: string)
    ensures var restored := AttachmentFiles(objects, files, attachments);
            && (name in restored <==> name in files || IsNamed(attachments, name))
            && (!IsNamed(attachments, name) && name in files ==> restored[name] == files[name])
    decreases |attachments|
  {
    if attachments != [] {
      var n := |attachments| - 1;
      AttachmentFileNames(objects, files, attachments[..n], name);
      assert attachments == attachments[..n] + [attachments[n]];
    }
  }

  lemma {:induction false} AttachedNames(sha: Sha, ns: string, listed: seq<StoreSegment>, k: nat, a: Attachment)
    requires a in Attached(sha, ns, listed, k)
    ensures IsAttachment(ns, a.name)
    ensures exists i :: 0 <= i < |listed| && listed[i].name == a.name && Recoverable(ns, listed[i], k)
    decreases |listed|
  {
    hide IsAttachment, PartsOf, Cut, Recorded;
    if listed != [] {
      var n := |listed| - 1;
      if a in Attached(sha, ns, listed[..n], k) {
        AttachedNames(sha, ns, listed[..n], k, a);
        var i :| 0 <= i < n && listed[..n][i].name == a.name && Recoverable(ns, listed[..n][i], k);
        assert listed[i] == listed[..n][i];
      } else {
        assert Recoverable(ns, listed[n], k);
      }
    }
  }

  /** An attachment's file is never a log segment's. */
  lemma NamesApart(ns: string, number: Sequence, name: string)
    requires IsAttachment(ns, name)
    ensures name != LegacyKey(ns, number)
  {
    hide Padded;
    var p := "ns/" + ns + "/attachment/";
    assert p[|ns| + 4] == 'a' && name[|ns| + 4] == p[|ns| + 4];
    assert LegacyKey(ns, number)[|ns| + 4] == 'd';
  }

  ghost predicate SegmentRebuilt(files: Directory, ns: string, g: LogSegment) {
    && Readable(g) && LegacyKey(ns, g.number) in files
    && var file := files[LegacyKey(ns, g.number)];
       && |file| == |g.scan.prefix| && file <= g.again.raw
       && (file == g.scan.prefix <==> g.scan.prefix <= g.again.raw)
  }

  ghost predicate HasFile(files: Directory, name: string, data: Bytes) { name in files && files[name] == data }

  /** The file is a log segment's, or that of an attachment segment something was read of. */
  ghost predicate Expected(ns: string, log: seq<LogSegment>, listed: seq<StoreSegment>, k: nat, name: string) {
    || (exists i :: 0 <= i < |log| && name == LegacyKey(ns, log[i].number))
    || (exists i :: 0 <= i < |listed| && listed[i].name == name && Recoverable(ns, listed[i], k))
  }

  /** What a restore of the backup of `log` and `listed` should write: of every segment as many bytes as were
      verified, the first of what was re-read, and so exactly those verified if they were still there then. */
  ghost predicate Rebuilt(files: Directory, ns: string, log: seq<LogSegment>, listed: seq<StoreSegment>, k: nat) {
    && (forall i :: 0 <= i < |log| ==> SegmentRebuilt(files, ns, log[i]))
    && (forall i :: 0 <= i < |listed| && Recoverable(ns, listed[i], k) ==>
          HasFile(files, listed[i].name, Recorded(listed[i], k)))
    && (forall name :: name in files ==> Expected(ns, log, listed, k, name))
  }

  lemma LogRebuilt(sha: Sha, objects: Store, m: Manifest, ns: string, log: seq<LogSegment>,
                   listed: seq<StoreSegment>, k: nat, i: nat)
    requires Ideal(sha) && Records(sha, log, m.segments) && m.attachments == Attached(sha, ns, listed, k)
    requires DistinctNumbers(log) && AllFetch(sha, objects, m) && i < |log|
    ensures SegmentRebuilt(Restored(objects, ns, m), ns, log[i])
  {
    hide Fetches, SegmentFiles, AttachmentFiles, Attached, LegacyKey, Saved, IsAttachment;
    assert Readable(log[i]);
    SavesWhatWasVerified(log[i]);
    SegmentsRestored(sha, objects, ns, log, m.segments, i);
    var name := LegacyKey(ns, log[i].number);
    AttachmentFileNames(objects, SegmentFiles(objects, ns, m.segments), m.attachments, name);
    forall a | a in m.attachments ensures a.name != name {
      AttachedNames(sha, ns, listed, k, a);
      NamesApart(ns, log[i].number, a.name);
    }
  }

  lemma NothingElse(sha: Sha, objects: Store, m: Manifest, ns: string, log: seq<LogSegment>,
                    listed: seq<StoreSegment>, k: nat, name: string)
    requires Records(sha, log, m.segments) && m.attachments == Attached(sha, ns, listed, k)
    requires name in Restored(objects, ns, m)
    ensures Expected(ns, log, listed, k, name)
  {
    hide SegmentFiles, AttachmentFiles, Attached, LegacyKey, Saved, IsAttachment, Readable, HasParts;
    var files := SegmentFiles(objects, ns, m.segments);
    AttachmentFileNames(objects, files, m.attachments, name);
    SegmentFileNames(objects, ns, m.segments, name);
    if name in files {
      var e :| e in m.segments && name == LegacyKey(ns, e.number);
      var i :| 0 <= i < |m.segments| && m.segments[i] == e;
      assert name == LegacyKey(ns, log[i].number);
    } else {
      var a :| a in m.attachments && name == a.name;
      AttachedNames(sha, ns, listed, k, a);
    }
  }

  /** A restore rebuilds every segment's bytes and every attachment as it was read, and nothing else, for any
      part size, whichever objects were reused and however deep the chain of bases. */
  lemma RestoreInverts(sha: Sha, objects: Store, m: Manifest, ns: string, id: string, log: seq<LogSegment>,
                       listed: seq<StoreSegment>, k: nat)
    requires Ideal(sha) && Describes(sha, m, ns, id, log, listed, k)
    requires DistinctNumbers(log) && DistinctNames(listed) && AllFetch(sha, objects, m)
    ensures Rebuilt(Restored(objects, ns, m), ns, log, listed, k)
  {
    hide Attached, AttachmentFiles, SegmentFiles, LegacyKey, Saved, IsAttachment, Restored, HasFile, HasParts;
    hide Commits, Seen, NamedByOther, Distinct, Recorded, Expected, Fetches, AllRead, SegmentRebuilt;
    var files := Restored(objects, ns, m);
    forall i | 0 <= i < |log| ensures SegmentRebuilt(files, ns, log[i]) {
      LogRebuilt(sha, objects, m, ns, log, listed, k, i);
    }
    forall i | 0 <= i < |listed| && Recoverable(ns, listed[i], k)
      ensures HasFile(files, listed[i].name, Recorded(listed[i], k))
    {
      AttachmentRebuilt(sha, objects, m, ns, listed, k, i);
    }
    forall name | name in files ensures Expected(ns, log, listed, k, name) {
      NothingElse(sha, objects, m, ns, log, listed, k, name);
    }
  }

  lemma AttachmentRebuilt(sha: Sha, objects: Store, m: Manifest, ns: string, listed: seq<StoreSegment>, k: nat, i: nat)
    requires Ideal(sha) && m.attachments == Attached(sha, ns, listed, k) && DistinctNames(listed)
    requires AllFetch(sha, objects, m) && i < |listed| && Recoverable(ns, listed[i], k)
    ensures HasFile(Restored(objects, ns, m), listed[i].name, Recorded(listed[i], k))
  {
    hide Attached, AttachmentFiles, SegmentFiles, IsAttachment, Fetches, HasParts, Recorded;
    AttachmentsRestored(sha, objects, SegmentFiles(objects, ns, m.segments), ns, listed, k, i);
  }

  /** A restored attachment is the segment's content exactly if no read of it fell short before its end. */
  lemma RestoredWhole(files: Directory, ns: string, log: seq<LogSegment>, listed: seq<StoreSegment>, k: nat,
                      i: nat, c: Bytes)
    requires k > 0 && Rebuilt(files, ns, log, listed, k) && i < |listed| && Recoverable(ns, listed[i], k)
    requires Follows(listed[i].answers, c, k)
    ensures HasFile(files, listed[i].name, c) <==> !FallsShort(listed[i].answers, c, k, 0)
  {
    hide IsAttachment, LegacyKey, Saved, Follows, FallsShort, Expected, Flat;
    WholeUnlessShort(listed[i].answers, c, k, 0);
    assert c[0 * k..] == c;
  }

  /** Every attachment segment that was there to be read, and of which no read fell short before its end, is restored
      to exactly its content. */
  lemma AttachmentsRestoredWhole(files: Directory, ns: string, log: seq<LogSegment>, listed: seq<StoreSegment>, k: nat,
                                 i: nat, c: Bytes)
    requires k > 0 && Rebuilt(files, ns, log, listed, k) && AllRead(ns, listed, k) && i < |listed|
    requires "ns/" + ns + "/attachment/" <= listed[i].name && c != []
    requires Follows(listed[i].answers, c, k) && !FallsShort(listed[i].answers, c, k, 0)
    requires listed[i].answers != [] && listed[i].answers[0].Got?
    ensures HasFile(files, listed[i].name, c)
  {
    var answers := listed[i].answers;
    assert IsAttachment(ns, listed[i].name);
    if |answers[0].data| < k { NotFull(answers, c, k, 0); }
    hide IsAttachment, LegacyKey, Saved, Follows, FallsShort, Expected, Flat, Rebuilt;
    assert Recoverable(ns, listed[i], k);
    RestoredWhole(files, ns, log, listed, k, i, c);
  }

  /** Only a legacy key can fail a restore. */
  lemma OnlyLegacyCanFail(sha: Sha, objects: Store, m: Manifest)
    requires Holds(sha, objects, m)
    ensures AllFetch(sha, objects, m) <==>
            forall e :: e in m.segments && IsLegacy(m.ns, e) ==> Fetches(sha, objects, e.key, e.sum)
  {
    hide IsLegacy;
  }

  /** Nothing from outside has changed an object the manifest names under a legacy key. */
  ghost predicate LegacyLeftAlone(states: seq<State>, events: seq<Event>, i: nat, j: nat, ns: string, m: Manifest)
    requires |states| == |events| + 1
  {
    forall e :: e in m.segments && IsLegacy(ns, e) ==> LeftAlone(states, events, i, j, e.key)
  }

  lemma LegacyStillHolds(sha: Sha, states: seq<State>, events: seq<Event>, i: nat, j: nat, ns: string, m: Manifest)
    requires Run(sha, states, events) && i <= j < |states|
    requires LegacyHold(sha, states[i].store, ns, m.segments) && LegacyLeftAlone(states, events, i, j, ns, m)
    ensures LegacyHold(sha, states[j].store, ns, m.segments)
  {
    hide Run, LeftAlone, LegacyKey, FamilyOf;
    forall e | e in m.segments && IsLegacy(ns, e) ensures Good(sha, states[j].store, e.key, e.sum, e.size) {
      Families(ns, "", e.number, "");
      LegacyStays(sha, states, events, i, j, e.key);
    }
  }

  /** For a log that only grew between the two passes: every segment is restored to exactly what was verified. */
  lemma GrownLogRestored(files: Directory, ns: string, log: seq<LogSegment>, listed: seq<StoreSegment>, k: nat, i: nat)
    requires Rebuilt(files, ns, log, listed, k) && i < |log| && log[i].scan.Verified? && log[i].again.Reread?
    requires log[i].scan.prefix <= log[i].again.raw
    ensures HasFile(files, LegacyKey(ns, log[i].number), log[i].scan.prefix)
  {
    hide LegacyKey, Recorded, Expected, Recoverable;
    assert SegmentRebuilt(files, ns, log[i]);
  }

  /** Over a whole run: a backup, once its manifest is in the store, can be restored to exactly what was backed
      up in every later state, unless an object under a legacy key has been overwritten, and then the restore
      is refused. What it named under legacy keys was there when it finished, so if nothing from outside has
      changed those objects since, it can be restored outright. */
  lemma RestorableEverAfter(sha: Sha, states: seq<State>, events: seq<Event>, i: nat, j: nat, m: Manifest,
                            ns: string, id: string, log: seq<LogSegment>, listed: seq<StoreSegment>, k: nat)
    requires Ideal(sha) && Run(sha, states, events) && AllPlain(events) && Inv(sha, states[0]) && i <= j < |states|
    requires Describes(sha, m, ns, id, log, listed, k) && DistinctNumbers(log) && DistinctNames(listed)
    requires HasManifest(states[i].store, m)
    ensures Load(states[j].store, ns, id) == Against(m)
    ensures AllFetch(sha, states[j].store, m) <==>
            forall e :: e in m.segments && IsLegacy(ns, e) ==> Fetches(sha, states[j].store, e.key, e.sum)
    ensures AllFetch(sha, states[j].store, m) ==> Rebuilt(Restored(states[j].store, ns, m), ns, log, listed, k)
    ensures LegacyHold(sha, states[i].store, ns, m.segments) && LegacyLeftAlone(states, events, i, j, ns, m) ==>
            AllFetch(sha, states[j].store, m)
  {
    hide Step, Ideal, AllFetch, Rebuilt, Restored, Records, Attached, Commits, Seen, NamedByOther, Distinct, AllRead;
    hide ManifestKey, IsLegacy, Names, Shaped, Holds, JobOk, GroupOk, Fetches, LegacyHold, LegacyLeftAlone;
    var key := ManifestKey(ns, id);
    BackupsAreForever(sha, states, events, i, j, key);
    RunKeepsInv(sha, states, events, j);
    assert Kept(sha, states[j], m);
    OnlyLegacyCanFail(sha, states[j].store, m);
    if AllFetch(sha, states[j].store, m) { RestoreInverts(sha, states[j].store, m, ns, id, log, listed, k); }
    if LegacyHold(sha, states[i].store, ns, m.segments) && LegacyLeftAlone(states, events, i, j, ns, m) {
      LegacyStillHolds(sha, states, events, i, j, ns, m);
      GoodFetches(sha, states[j].store, ns, m.segments);
    }
  }

  lemma GoodFetches(sha: Sha, objects: Store, ns: string, segments: seq<Segment>)
    requires LegacyHold(sha, objects, ns, segments)
    ensures forall e :: e in segments && IsLegacy(ns, e) ==> Fetches(sha, objects, e.key, e.sum)
  {
    hide LegacyKey;
  }

  // ---------------------------------------------------------------- listing

  /** Where the first slash is, or the end. */
  function FirstSlash(s: string): (i: nat)
    ensures i <= |s| && NoSlash(s[..i]) && (i < |s| ==> s[i] == '/')
  {
    if s == "" || s[0] == '/' then 0
    else
      var i := FirstSlash(s[1..]);
      assert s[..i + 1] == [s[0]] + s[1..][..i];
      i + 1
  }

  lemma {:induction false} FirstSlashUnique(id: string, tail: string)
    requires NoSlash(id)
    ensures FirstSlash(id + ("/" + tail)) == |id|
  {
    if id != "" {
      assert (id + ("/" + tail))[1..] == id[1..] + ("/" + tail);
      assert forall c :: c in id[1..] ==> c in id;
      FirstSlashUnique(id[1..], tail);
    }
  }

  /** The order of sort.Strings. */
  predicate Before(a: string, b: string) {
    b != "" && (a == "" || a[0] < b[0] || (a[0] == b[0] && Before(a[1..], b[1..])))
  }

  lemma {:induction false} BeforeIsOrder(a: string, b: string, c: string)
    ensures Before(a, b) && Before(b, c) ==> Before(a, c)
    ensures a != b ==> Before(a, b) || Before(b, a)
    ensures !(Before(a, b) && Before(b, a)) && !Before(a, a)
  {
    if a != "" {
      BeforeIsOrder(a[1..], if b == "" then b else b[1..], if c == "" then c else c[1..]);
      if b != "" && a != b && a[0] == b[0] { assert a == [a[0]] + a[1..] && b == [b[0]] + b[1..]; }
    }
  }

  ghost predicate InOrder(ids: seq<string>) { forall i, k :: 0 <= i < k < |ids| ==> Before(ids[i], ids[k]) }

  /** One more identifier, in its place. */
  method Insert(ids: seq<string>, id: string) returns (out: seq<string>)
    requires InOrder(ids) && id !in ids
    ensures InOrder(out) && forall x :: x in out <==> x in ids || x == id
  {
    hide Before;
    var i := 0;
    while i < |ids| && Before(ids[i], id)
      invariant 0 <= i <= |ids| && forall k :: 0 <= k < i ==> Before(ids[k], id)
    {
      i := i + 1;
    }
    out := ids[..i] + [id] + ids[i..];
    forall k | i <= k < |ids| ensures Before(id, ids[k]) {
      BeforeIsOrder(id, ids[i], ids[k]);
      BeforeIsOrder(id, ids[k], id);
    }
  }

  /** ListBackups lists exactly the backups of this namespace, and none of a namespace nested in it, each once and
      in ascending order. */
  method ListBackups(objects: Store, ns: string) returns (ids: seq<string>)
    ensures forall id :: id in ids <==> NoSlash(id) && ManifestKey(ns, id) in objects
    ensures InOrder(ids)
  {
    hide ManifestKey, Prefix, ManifestName, Before, FirstSlash;
    var prefix := Prefix(ns);
    var left := set k | k in objects.Keys && prefix <= k;
    ids := [];
    ghost var all := left;
    while left != {}
      invariant left <= all && InOrder(ids)
      invariant forall id :: id in ids <==> NoSlash(id) && ManifestKey(ns, id) in all - left
      decreases |left|
    {
      var k :| k in left;
      left := left - {k};
      var rest := k[|prefix|..];
      var cut := FirstSlash(rest);
      Listed(ns, k);
      if cut < |rest| && rest[cut + 1..] == ManifestName() && rest[..cut] !in ids { ids := Insert(ids, rest[..cut]); }
    }
    forall id | ManifestKey(ns, id) in objects ensures ManifestKey(ns, id) in all { Below(ns, id); }
  }

  function Prefix(ns: string): string { "backups/" + ns + "/" }

  function ManifestName(): string { "manifest.json" }

  function Tail(id: string): string { id + ("/" + ManifestName()) }

  lemma Below(ns: string, id: string)
    ensures ManifestKey(ns, id) == Prefix(ns) + Tail(id) && Prefix(ns) <= ManifestKey(ns, id)
  {
    assert ManifestKey(ns, id) == Prefix(ns) + Tail(id);
  }

  lemma CutAt(rest: string, id: string, name: string)
    ensures var cut := FirstSlash(rest);
      NoSlash(id) && rest == id + ("/" + name) <==> cut < |rest| && rest[cut + 1..] == name && id == rest[..cut]
  {
    hide FirstSlash;
    var cut := FirstSlash(rest);
    if NoSlash(id) && rest == id + ("/" + name) { FirstSlashUnique(id, name); }
    if cut < |rest| && rest[cut + 1..] == name && id == rest[..cut] {
      assert rest == rest[..cut] + ("/" + rest[cut + 1..]);
    }
  }

  /** The rest of a key is a manifest's exactly when it is cut that way. */
  lemma TailCut(rest: string, id: string)
    ensures var cut := FirstSlash(rest);
      NoSlash(id) && rest == Tail(id) <==> cut < |rest| && rest[cut + 1..] == ManifestName() && id == rest[..cut]
  {
    hide FirstSlash, NoSlash, ManifestName;
    CutAt(rest, id, ManifestName());
  }

  lemma Listed(ns: string, k: string)
    requires Prefix(ns) <= k
    ensures var rest := k[|Prefix(ns)|..]; var cut := FirstSlash(rest);
      forall id ::
        NoSlash(id) && ManifestKey(ns, id) == k <==>
        cut < |rest| && rest[cut + 1..] == ManifestName() && id == rest[..cut]
  {
    hide FirstSlash, ManifestKey, Tail, Prefix, ManifestName;
    var rest := k[|Prefix(ns)|..];
    assert k == Prefix(ns) + rest;
    forall id ensures ManifestKey(ns, id) == k <==> rest == Tail(id) {
      Below(ns, id);
      if ManifestKey(ns, id) == k { AfterPrefix(Prefix(ns), rest, Tail(id)); }
    }
    forall id { TailCut(rest, id); }
  }
}
