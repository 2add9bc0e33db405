/** Making a backup (go/kdb/backup/backup.go, CreateWithOptions, and attachments.go): every put is a
    step of the runs in BackupRuns, and the manifest records exactly what was read. */
module BackupCreate {
  import opened Words
  import opened Keys
  import opened BackupRuns
  import opened LogTips

  /** The object store, whose puts begin to fail once `budget` of them have succeeded. */
  class ObjectStore {
    const sha: Sha
    var objects: Store
    var budget: nat
    ghost var states: seq<State>
    ghost var events: seq<Event>
    ghost var failures: nat  // puts that have failed

    constructor (sha: Sha, objects: Store, budget: nat, ghost now: State)
      requires now.store == objects
      ensures Recording() && this.sha == sha && this.objects == objects && Now() == now
    {
      this.sha, this.objects, this.budget, states, events, failures := sha, objects, budget, [now], [], 0;
    }

    /** What happened to the store so far is a run. */
    ghost predicate Recording()
      reads this
    {
      states != [] && Run(sha, states, events) && states[|states| - 1].store == objects
    }

    ghost function Now(): State
      requires states != []
      reads this
    {
      states[|states| - 1]
    }

    method Put(key: string, x: Object, ghost e: Event, ghost next: State) returns (ok: bool)
      requires Recording() && Step(sha, Now(), e.job, e.action, next) && next.store == objects[key := x]
      modifies this
      ensures Recording() && old(states) <= states
      ensures ok ==> objects == old(objects)[key := x] && Now() == next && events == old(events) + [e]
      ensures !ok ==> objects == old(objects) && Now() == old(Now()) && events == old(events)
      ensures ok <==> old(budget) > 0
      ensures failures == old(failures) + if ok then 0 else 1
    {
      if budget == 0 {
        failures := failures + 1;
        return false;
      }
      budget := budget - 1;
      objects := objects[key := x];
      RunOn(sha, states, events, e, next);
      states, events := states + [next], events + [e];
      return true;
    }

    ghost method Note(e: Event, next: State)
      requires Recording() && Step(sha, Now(), e.job, e.action, next) && next.store == objects
      modifies this`states, this`events
      ensures Recording() && old(states) <= states && Now() == next && events == old(events) + [e]
    {
      RunOn(sha, states, events, e, next);
      states, events := states + [next], events + [e];
    }
  }

  lemma RunOn(sha: Sha, states: seq<State>, events: seq<Event>, e: Event, next: State)
    requires Run(sha, states, events) && Step(sha, states[|states| - 1], e.job, e.action, next)
    ensures Run(sha, states + [next], events + [e])
  {
    hide Step;
  }

  // ---------------------------------------------------------------- what is backed up

  /** A segment as the two passes over the log find it. */
  datatype Scan = Verified(prefix: Bytes, commits: seq<Frame>) | Damaged
  datatype Reread = Reread(raw: Bytes) | ReadError
  datatype LogSegment = LogSegment(number: Sequence, scan: Scan, again: Reread)

  /** The bytes the second pass reads of a segment, if it can. */
  ghost predicate Readable(g: LogSegment) { g.scan.Verified? && g.again.Reread? && |g.scan.prefix| <= |g.again.raw| }

  ghost predicate AllReadable(log: seq<LogSegment>) { forall i :: 0 <= i < |log| ==> Readable(log[i]) }

  function Saved(g: LogSegment): Bytes
    requires Readable(g)
  {
    g.again.raw[..|g.scan.prefix|]
  }

  /** What is saved of a segment is what the first pass verified of it, if and only if the second pass finds that
      unchanged, whatever has been added since; and it is never any shorter. */
  lemma SavesWhatWasVerified(g: LogSegment)
    requires Readable(g)
    ensures Saved(g) == g.scan.prefix <==> g.scan.prefix <= g.again.raw
    ensures Saved(g) <= g.again.raw && |Saved(g)| == |g.scan.prefix|
  {
    assert g.scan.prefix <= g.again.raw <==> g.scan.prefix == g.again.raw[..|g.scan.prefix|];
  }

  datatype Result = Created(m: Manifest) | Refused | Failed

  /** The first pass's map of what the base holds in full. */
  method FullEntries(entries: seq<Segment>) returns (full: map<Sequence, Segment>)
    ensures forall n: Sequence :: n in full <==> BaseEntry(entries, n) != []
    ensures forall n: Sequence :: n in full ==> full[n] == BaseEntry(entries, n)[0]
  {
    full := map[];
    for i := 0 to |entries|
      invariant forall n: Sequence :: n in full <==> BaseEntry(entries[..i], n) != []
      invariant forall n: Sequence :: n in full ==> full[n] == BaseEntry(entries[..i], n)[0]
    {
      assert entries[..i + 1][..i] == entries[..i];
      if !entries[i].prefix { full := full[entries[i].number := entries[i]]; }
    }
    assert entries[..|entries|] == entries;
  }

  /** baseObjectStillHolds. */
  method BaseObjectStillHolds(sha: Sha, objects: Store, ns: string, e: Segment) returns (holds: bool)
    ensures holds <==> StillHolds(sha, objects, ns, e)
  {
    if !IsLegacy(ns, e) { return true; }
    if e.key !in objects || !objects[e.key].Raw? { return false; }
    var data := objects[e.key].data;
    return |data| == e.size && sha(data) == e.sum;
  }

  /** The backup that is job `j` has come as far as `m`, and counts the parts `stored`. */
  ghost predicate Underway(now: State, j: nat, m: Manifest, base: Base, stored: set<string>) {
    j in now.jobs && now.jobs[j] == Job(m, base, stored)
  }

  /** No manifest or group has appeared. */
  ghost predicate OnlyOldDocs(was: Store, now: Store) {
    forall key :: key in now && !now[key].Raw? ==> key in was && was[key] == now[key]
  }

  /** No manifest or group has appeared but the one at `key`. */
  ghost predicate OneNewDoc(was: Store, now: Store, key: string) {
    forall k :: k in now && !now[k].Raw? && k != key ==> k in was && was[k] == now[k]
  }

  /** Nothing has changed in the trees a backup of a namespace does not write. */
  ghost predicate SameElsewhere(was: Store, now: Store) {
    forall key ::
      FamilyOf(key) == OfNs || FamilyOf(key) == OfOther || FamilyOf(key) == OfDatabase ==> SameAt(was, now, key)
  }

  /** Only job `j` is further on, and no manifest has appeared. */
  ghost predicate OnlyJob(was: State, now: State, j: nat) {
    && now.drawn == was.drawn && now.done == was.done && now.jobs.Keys == was.jobs.Keys
    && (forall i :: i in was.jobs && i != j ==> now.jobs[i] == was.jobs[i])
    && OnlyOldDocs(was.store, now.store) && SameElsewhere(was.store, now.store)
  }

  lemma OnlyJobStays(s: State, j: nat)
    ensures OnlyJob(s, s, j)
  {}

  lemma OnlyJobOn(was: State, mid: State, now: State, j: nat)
    requires OnlyJob(was, mid, j) && OnlyJob(mid, now, j)
    ensures OnlyJob(was, now, j)
  {
    hide FamilyOf;
  }

  /** The entries under legacy keys are there as recorded. */
  ghost predicate LegacyHold(sha: Sha, objects: Store, ns: string, segments: seq<Segment>) {
    forall e :: e in segments && IsLegacy(ns, e) ==> Good(sha, objects, e.key, e.sum, e.size)
  }

  lemma LegacyHoldsOn(sha: Sha, was: Store, now: Store, ns: string, segments: seq<Segment>)
    requires LegacyHold(sha, was, ns, segments) && SameElsewhere(was, now)
    ensures LegacyHold(sha, now, ns, segments)
  {
    hide LegacyKey, FamilyOf;
    forall e | e in segments && IsLegacy(ns, e) ensures Good(sha, now, e.key, e.sum, e.size) {
      Families(ns, "", e.number, "");
      assert SameAt(was, now, e.key);
    }
  }

  lemma PutElsewhere(objects: Store, key: string, x: Object)
    requires FamilyOf(key) == OfBackup || FamilyOf(key) == OfSegments || FamilyOf(key) == OfParts
    ensures SameElsewhere(objects, objects[key := x])
  {
    hide FamilyOf;
  }

  lemma NewIsNotLegacy(ns: string, id: string, n: Sequence, sum: string)
    ensures SealedKey(ns, n, sum) != LegacyKey(ns, n)
    ensures FamilyOf(ActiveKey(ns, id, n)) == OfBackup && FamilyOf(SealedKey(ns, n, sum)) == OfSegments
  {
    hide SealedKey, LegacyKey, ActiveKey, FamilyOf;
    Families(ns, id, n, sum);
  }

  /** More events, none of them the start of a backup. */
  ghost predicate Grew(was: seq<Event>, now: seq<Event>) {
    was <= now && forall i :: |was| <= i < |now| ==> !now[i].action.Start?
  }

  lemma GrewStays(events: seq<Event>)
    ensures Grew(events, events)
  {}

  lemma GrewOn(was: seq<Event>, mid: seq<Event>, now: seq<Event>)
    requires Grew(was, mid) && Grew(mid, now)
    ensures Grew(was, now)
  {}

  ghost predicate Plain(segments: seq<Segment>) { forall e :: e in segments ==> !e.prefix }

  /** The state after a put of job `j`. */
  ghost function Putting(now: State, j: nat, key: string, data: Bytes, job: Job): State {
    now.(store := now.store[key := Raw(data)], jobs := now.jobs[j := job])
  }

  /** A segment put under a key of its own, as the active one or as a sealed one. */
  method PutSegment(st: ObjectStore, ghost j: nat, ghost m: Manifest, ns: string, id: string, ghost base: Base,
                    ghost stored: set<string>, number: Sequence, data: Bytes, active: bool)
    returns (ok: bool, e: Segment)
    requires st.Recording() && Underway(st.Now(), j, m, base, stored) && m.ns == ns && m.id == id && Plain(m.segments)
    modifies st
    ensures st.Recording() && OnlyJob(old(st.Now()), st.Now(), j)
    ensures Grew(old(st.events), st.events) && old(st.states) <= st.states
    ensures ok ==> Underway(st.Now(), j, WithSegment(m, e), base, stored) && !IsLegacy(ns, e)
    ensures ok ==> e.number == number && e.sum == st.sha(data) && e.prefix == active
    ensures ok <==> st.failures == old(st.failures)
  {
    var sum := st.sha(data);
    NewIsNotLegacy(ns, id, number, sum);
    var key := if active then ActiveKey(ns, id, number) else SealedKey(ns, number, sum);
    e := Segment(number, sum, |data|, key, active);
    PutElsewhere(st.objects, key, Raw(data));
    hide Run, SealedKey, ActiveKey, LegacyKey, FamilyOf;
    ghost var action := if active then PutActive(number, data) else PutSealed(number, data);
    ghost var next := Putting(st.Now(), j, key, data, Job(WithSegment(m, e), base, stored));
    ok := st.Put(key, Raw(data), Event(j, action), next);
  }

  /** The loop body that uploads one segment: the base's entry is taken over only if it still holds. */
  method UploadSegment(st: ObjectStore, ghost j: nat, ghost m: Manifest, ns: string, id: string, ghost base: Base,
                       ghost stored: set<string>, full: map<Sequence, Segment>, g: LogSegment, active: bool)
    returns (ok: bool, e: Segment)
    requires st.Recording() && Underway(st.Now(), j, m, base, stored) && m.ns == ns && m.id == id && g.scan.Verified?
    requires Plain(m.segments)
    requires forall n: Sequence :: n in full ==> base.Against? && BaseEntry(base.manifest.segments, n) == [full[n]]
    modifies st
    ensures st.Recording() && OnlyJob(old(st.Now()), st.Now(), j)
    ensures Grew(old(st.events), st.events) && old(st.states) <= st.states
    ensures ok ==> Underway(st.Now(), j, WithSegment(m, e), base, stored) && Readable(g)
    ensures ok ==> e.number == g.number && e.sum == st.sha(Saved(g)) && e.prefix == active
    ensures ok && IsLegacy(ns, e) ==> Good(st.sha, st.objects, e.key, e.sum, e.size)
    ensures ok <==> Readable(g) && st.failures == old(st.failures)
  {
    hide Run, LegacyKey, FamilyOf;
    e := Segment(g.number, "", 0, "", false);
    if g.again.ReadError? || |g.again.raw| < |g.scan.prefix| { return false, e; }
    var data := g.again.raw[..|g.scan.prefix|];
    if !active && g.number in full && full[g.number].sum == st.sha(data) {
      var holds := BaseObjectStillHolds(st.sha, st.objects, ns, full[g.number]);
      if holds {
        e := full[g.number];
        BaseEntryIn(base.manifest.segments, g.number);
        ghost var next := st.Now().(jobs := st.Now().jobs[j := Job(WithSegment(m, e), base, stored)]);
        st.Note(Event(j, Reuse(g.number, data)), next);
        return true, e;
      }
    }
    ok, e := PutSegment(st, j, m, ns, id, base, stored, g.number, data, active);
  }

  /** The manifest's entries are, segment by segment, what the second pass read of the log, and so what the first pass
      verified of it where that is still there. */
  ghost predicate Records(sha: Sha, log: seq<LogSegment>, segments: seq<Segment>) {
    && |segments| == |log|
    && forall i :: 0 <= i < |log| ==>
         Readable(log[i]) && segments[i].number == log[i].number && segments[i].sum == sha(Saved(log[i])) &&
         (segments[i].prefix <==> i == |log| - 1) &&
         (log[i].scan.prefix <= log[i].again.raw ==> segments[i].sum == sha(log[i].scan.prefix))
  }

  /** The second pass over the log. What it takes over under a legacy key holds once the pass is over. */
  method UploadSegments(st: ObjectStore, ghost j: nat, ghost m: Manifest, ns: string, id: string, ghost base: Base,
                        ghost stored: set<string>, full: map<Sequence, Segment>, log: seq<LogSegment>)
    returns (ok: bool, segments: seq<Segment>)
    requires st.Recording() && Underway(st.Now(), j, m, base, stored) && m.ns == ns && m.id == id && m.segments == []
    requires forall i :: 0 <= i < |log| ==> log[i].scan.Verified?
    requires forall n: Sequence :: n in full ==> base.Against? && BaseEntry(base.manifest.segments, n) == [full[n]]
    modifies st
    ensures st.Recording() && OnlyJob(old(st.Now()), st.Now(), j)
    ensures Grew(old(st.events), st.events) && old(st.states) <= st.states
    ensures ok ==> Underway(st.Now(), j, m.(segments := segments), base, stored) && Records(st.sha, log, segments)
    ensures ok ==> LegacyHold(st.sha, st.objects, ns, segments)
    ensures ok <==> AllReadable(log) && st.failures == old(st.failures)
  {
    hide Step, Run, Saved, LegacyKey, FamilyOf, Good, LegacyHold;
    segments := [];
    NoLegacy(st.sha, st.objects, ns);
    for i := 0 to |log|
      invariant st.Recording() && OnlyJob(old(st.Now()), st.Now(), j)
      invariant Grew(old(st.events), st.events) && old(st.states) <= st.states
      invariant Underway(st.Now(), j, m.(segments := segments), base, stored) && |segments| == i
      invariant LegacyHold(st.sha, st.objects, ns, segments) && st.failures == old(st.failures)
      invariant forall k :: 0 <= k < i ==>
        Readable(log[k]) && segments[k].number == log[k].number && segments[k].sum == st.sha(Saved(log[k])) &&
        (segments[k].prefix <==> k == |log| - 1) &&
        (log[k].scan.prefix <= log[k].again.raw ==> segments[k].sum == st.sha(log[k].scan.prefix))
    {
      ghost var was := st.objects;
      ghost var partial := m.(segments := segments);
      var good, e := UploadSegment(st, j, partial, ns, id, base, stored, full, log[i], i == |log| - 1);
      if !good { return false, segments; }
      SavesWhatWasVerified(log[i]);
      LegacyHoldsOn(st.sha, was, st.objects, ns, segments);
      OneMoreLegacy(st.sha, st.objects, ns, segments, e);
      segments := segments + [e];
    }
    return true, segments;
  }

  lemma NoLegacy(sha: Sha, objects: Store, ns: string)
    ensures LegacyHold(sha, objects, ns, [])
  {}

  lemma OneMoreLegacy(sha: Sha, objects: Store, ns: string, segments: seq<Segment>, e: Segment)
    requires LegacyHold(sha, objects, ns, segments)
    requires IsLegacy(ns, e) ==> Good(sha, objects, e.key, e.sum, e.size)
    ensures LegacyHold(sha, objects, ns, segments + [e])
  {
    hide Good, LegacyKey;
  }

  // ---------------------------------------------------------------- attachments

  /** What the attachment store answers when the next part of a segment is read. */
  datatype PartRead = Got(data: Bytes) | Missing | ReadFault

  /** A segment of the attachment store: the answers its reads get, in order. */
  datatype StoreSegment = StoreSegment(name: string, answers: seq<PartRead>)

  const NO_PARTS: seq<Bytes> := []

  datatype Cuts = Cuts(parts: seq<Bytes>) | Unreadable

  /** The parts the reading loop takes from read `i` on: until an empty or a short read; nothing if the
      segment has gone since it was listed; and none of it if a read fails after that. */
  function Cut(answers: seq<PartRead>, k: nat, i: nat): Cuts
    decreases |answers| - i
  {
    if i >= |answers| || answers[i].ReadFault? || (answers[i].Missing? && i > 0) then Unreadable
    else if answers[i].Missing? || answers[i].data == [] then Cuts([])
    else if |answers[i].data| < k then Cuts([answers[i].data])
    else
      var rest := Cut(answers, k, i + 1);
      if rest.Unreadable? then Unreadable else Cuts([answers[i].data] + rest.parts)
  }

  predicate IsAttachment(ns: string, name: string) { "ns/" + ns + "/attachment/" <= name }

  /** Every attachment segment listed could be read. */
  ghost predicate AllRead(ns: string, listed: seq<StoreSegment>, k: nat) {
    forall i :: 0 <= i < |listed| && IsAttachment(ns, listed[i].name) ==> Cut(listed[i].answers, k, 0).Cuts?
  }

  /** The bytes recorded of a segment. */
  ghost function Recorded(g: StoreSegment, k: nat): Bytes {
    var cuts := Cut(g.answers, k, 0);
    if cuts.Cuts? then Flat(cuts.parts) else []
  }

  /** The attachment entries a backup records. */
  ghost function Attached(sha: Sha, ns: string, listed: seq<StoreSegment>, k: nat): seq<Attachment> {
    if listed == [] then []
    else
      var init, g := listed[..|listed| - 1], listed[|listed| - 1];
      Attached(sha, ns, init, k) + if IsAttachment(ns, g.name) then Entry(sha, ns, g, k) else []
  }

  /** Something was read of the segment. */
  predicate HasParts(g: StoreSegment, k: nat) {
    Cut(g.answers, k, 0).Cuts? && Cut(g.answers, k, 0).parts != []
  }

  /** The entry for one segment, if it has parts. */
  ghost function Entry(sha: Sha, ns: string, g: StoreSegment, k: nat): seq<Attachment> {
    if HasParts(g, k) then [Attachment(g.name, |Recorded(g, k)|, PartsOf(sha, ns, Cut(g.answers, k, 0).parts))]
    else []
  }

  /** `c` cut at every `k` bytes. */
  function Pieces(c: Bytes, k: nat): (r: seq<Bytes>)
    requires k > 0
    decreases |c|
  {
    if c == [] then [] else if |c| <= k then [c] else [c[..k]] + Pieces(c[k..], k)
  }

  lemma {:induction false} PiecesJoin(c: Bytes, k: nat)
    requires k > 0
    ensures Flat(Pieces(c, k)) == c
    decreases |c|
  {
    if |c| > k {
      PiecesJoin(c[k..], k);
      assert Pieces(c, k)[1..] == Pieces(c[k..], k);
    } else if c != [] {
      assert [c][1..] == [] && c + [] == c;
    }
  }

  lemma OffsetOfNext(i: nat, k: nat)
    ensures (i + 1) * k == i * k + k
  {}

  /** Read `i` answers with bytes that are in `c` where it reads, and with no more than `k` of them. */
  ghost predicate FromContent(answers: seq<PartRead>, c: Bytes, k: nat, i: nat)
    requires i < |answers|
  {
    answers[i].Got? && i * k <= |c| ==> answers[i].data <= c[i * k..] && |answers[i].data| <= k
  }

  ghost predicate Follows(answers: seq<PartRead>, c: Bytes, k: nat) {
    forall i :: 0 <= i < |answers| ==> FromContent(answers, c, k, i)
  }

  ghost predicate IsFull(r: PartRead, k: nat) { r.Got? && |r.data| == k }

  /** Read `h` is reached, and brings fewer than `k` bytes although there are more in `c`. */
  ghost predicate ShortAt(answers: seq<PartRead>, c: Bytes, k: nat, i: nat, h: nat)
    requires h < |answers|
  {
    && (forall g :: i <= g < h ==> IsFull(answers[g], k))
    && answers[h].Got? && |answers[h].data| < k && h * k + |answers[h].data| < |c|
  }

  ghost predicate FallsShort(answers: seq<PartRead>, c: Bytes, k: nat, i: nat) {
    exists h :: i <= h < |answers| && ShortAt(answers, c, k, i, h)
  }

  lemma ShortLater(answers: seq<PartRead>, c: Bytes, k: nat, i: nat)
    requires i < |answers| && IsFull(answers[i], k)
    ensures FallsShort(answers, c, k, i) <==> FallsShort(answers, c, k, i + 1)
  {
    if FallsShort(answers, c, k, i) {
      var h :| i <= h < |answers| && ShortAt(answers, c, k, i, h);
      assert ShortAt(answers, c, k, i + 1, h);
    }
    if FallsShort(answers, c, k, i + 1) {
      var h :| i + 1 <= h < |answers| && ShortAt(answers, c, k, i + 1, h);
      assert ShortAt(answers, c, k, i, h);
    }
  }

  lemma NotFull(answers: seq<PartRead>, c: Bytes, k: nat, i: nat)
    requires i < |answers| && answers[i].Got? && |answers[i].data| < k
    ensures FallsShort(answers, c, k, i) <==> i * k + |answers[i].data| < |c|
  {
    if i * k + |answers[i].data| < |c| { assert ShortAt(answers, c, k, i, i); }
    if FallsShort(answers, c, k, i) {
      var h :| i <= h < |answers| && ShortAt(answers, c, k, i, h);
      assert h > i ==> IsFull(answers[i], k);
    }
  }

  /** Read with answers out of `c`, the segment is recorded whole exactly if it had not gone and no read
      fell short before the end: the loop takes any short read for the last. */
  lemma {:induction false} WholeUnlessShort(answers: seq<PartRead>, c: Bytes, k: nat, i: nat)
    requires k > 0 && Follows(answers, c, k) && i * k <= |c| && Cut(answers, k, i).Cuts?
    ensures i < |answers|
    ensures Flat(Cut(answers, k, i).parts) == c[i * k..] <==>
            if answers[i].Missing? then i * k == |c| else !FallsShort(answers, c, k, i)
    decreases |answers| - i
  {
    assert FromContent(answers, c, k, i);
    if answers[i].Missing? {
    } else if |answers[i].data| < k {
      LastRead(answers, c, k, i);
    } else {
      OffsetOfNext(i, k);
      WholeUnlessShort(answers, c, k, i + 1);
      ShortLater(answers, c, k, i);
      var rest := Cut(answers, k, i + 1).parts;
      assert ([answers[i].data] + rest)[1..] == rest;
      assert c[i * k..] == answers[i].data + c[(i + 1) * k..];
    }
  }

  lemma LastRead(answers: seq<PartRead>, c: Bytes, k: nat, i: nat)
    requires k > 0 && i < |answers| && FromContent(answers, c, k, i) && i * k <= |c|
    requires answers[i].Got? && |answers[i].data| < k
    ensures Flat(Cut(answers, k, i).parts) == c[i * k..] <==> !FallsShort(answers, c, k, i)
  {
    hide FallsShort;
    NotFull(answers, c, k, i);
    var d := answers[i].data;
    assert [d][1..] == NO_PARTS && d + [] == d;
    assert Flat(Cut(answers, k, i).parts) == d;
  }

  /** Read from a segment that is there and does not change, the parts are its content cut at every `k` bytes. */
  lemma {:induction false} HonestReads(answers: seq<PartRead>, c: Bytes, k: nat, i: nat)
    requires k > 0 && i * k <= |c| && Cut(answers, k, i).Cuts?
    requires forall h :: i <= h < |answers| && h * k <= |c| ==> Honest(answers[h], c, k, h)
    ensures Cut(answers, k, i).parts == Pieces(c[i * k..], k)
    decreases |answers| - i
  {
    assert Honest(answers[i], c, k, i);
    var left := c[i * k..];
    if |left| >= k {
      OffsetOfNext(i, k);
      HonestReads(answers, c, k, i + 1);
      assert left[k..] == c[(i + 1) * k..] && left[..k] == c[i * k..(i + 1) * k];
      if |left| == k { assert left[..k] == left && left[k..] == []; }
    } else {
      assert c[i * k..|c|] == left;
    }
  }

  /** The answer is all of `c` from its offset on, as far as the read reaches. */
  ghost predicate Honest(r: PartRead, c: Bytes, k: nat, i: nat)
    requires i * k <= |c|
  {
    r == Got(c[i * k..if (i + 1) * k <= |c| then (i + 1) * k else |c|])
  }

  method StorePart(st: ObjectStore, ghost j: nat, ghost m: Manifest, ghost base: Base, ghost stored: set<string>,
                   key: string, data: Bytes) returns (ok: bool)
    requires st.Recording() && Underway(st.Now(), j, m, base, stored) && key == PartKey(m.ns, st.sha(data))
    modifies st
    ensures st.Recording() && OnlyJob(old(st.Now()), st.Now(), j)
    ensures Grew(old(st.events), st.events) && old(st.states) <= st.states
    ensures ok ==> Underway(st.Now(), j, m, base, stored + {st.sha(data)})
    ensures ok <==> st.failures == old(st.failures)
  {
    Families(m.ns, "", 0, st.sha(data));
    PutElsewhere(st.objects, key, Raw(data));
    hide Run, PartKey, FamilyOf, LegacyKey;
    ghost var next := Putting(st.Now(), j, key, data, Job(m, base, stored + {st.sha(data)}));
    ok := st.Put(key, Raw(data), Event(j, PutPart(data)), next);
  }

  /** The manifest with the entry of one more segment. */
  ghost function WithAttachment(sha: Sha, m: Manifest, name: string, size: nat, pieces: seq<Bytes>): Manifest {
    m.(attachments := m.attachments + [Attachment(name, size, PartsOf(sha, m.ns, pieces))])
  }

  ghost method NoteAttachment(st: ObjectStore, j: nat, m: Manifest, base: Base, stored: set<string>,
                              name: string, size: nat, pieces: seq<Bytes>)
    requires st.Recording() && Underway(st.Now(), j, m, base, stored)
    requires forall d :: d in pieces ==> st.sha(d) in stored
    modifies st`states, st`events
    ensures st.Recording() && OnlyJob(old(st.Now()), st.Now(), j)
    ensures Grew(old(st.events), st.events) && old(st.states) <= st.states
    ensures Underway(st.Now(), j, WithAttachment(st.sha, m, name, size, pieces), base, stored)
  {
    hide Run, PartsOf, FamilyOf;
    var job := Job(WithAttachment(st.sha, m, name, size, pieces), base, stored);
    st.Note(Event(j, AddAttachment(name, size, pieces)), st.Now().(jobs := st.Now().jobs[j := job]));
  }

  lemma MoreParts(sha: Sha, ns: string, done: seq<Bytes>, data: Bytes)
    ensures PartsOf(sha, ns, done + [data]) == PartsOf(sha, ns, done) + [PartOf(sha, ns, data)]
  {}

  /** After the reads up to `i`, what the loop has taken and what is left make up the whole cut. */
  ghost predicate CutSoFar(answers: seq<PartRead>, k: nat, i: nat, done: seq<Bytes>) {
    Cut(answers, k, 0) == if Cut(answers, k, i).Cuts? then Cuts(done + Cut(answers, k, i).parts) else Unreadable
  }

  lemma CutTurn(answers: seq<PartRead>, k: nat, i: nat, done: seq<Bytes>)
    requires i < |answers| && answers[i].Got? && answers[i].data != [] && CutSoFar(answers, k, i, done)
    ensures |answers[i].data| < k ==> Cut(answers, k, 0) == Cuts(done + [answers[i].data])
    ensures |answers[i].data| >= k ==> CutSoFar(answers, k, i + 1, done + [answers[i].data])
  {
    var d := answers[i].data;
    if |d| >= k && Cut(answers, k, i + 1).Cuts? {
      assert done + ([d] + Cut(answers, k, i + 1).parts) == (done + [d]) + Cut(answers, k, i + 1).parts;
    }
  }

  lemma CutEnds(answers: seq<PartRead>, k: nat, i: nat, done: seq<Bytes>)
    requires CutSoFar(answers, k, i, done)
    ensures i >= |answers| || answers[i].ReadFault? || (answers[i].Missing? && i > 0) ==>
              Cut(answers, k, 0) == Unreadable
    ensures i < |answers| && (answers[i] == Got([]) || (answers[i].Missing? && i == 0)) ==>
              Cut(answers, k, 0) == Cuts(done)
  {
    assert done + [] == done;
  }

  /** The loop that reads one segment in parts, whatever the part size: a part already counted as stored
      is not put again, a read that fails makes the whole backup fail. */
  method BackupAttachment(st: ObjectStore, ghost j: nat, ghost m: Manifest, ns: string, ghost base: Base,
                          counted: set<string>, answers: seq<PartRead>, partBytes: nat)
    returns (ok: bool, parts: seq<Part>, size: nat, stored: set<string>)
    requires partBytes > 0 && st.Recording() && Underway(st.Now(), j, m, base, counted) && m.ns == ns
    modifies st
    ensures st.Recording() && OnlyJob(old(st.Now()), st.Now(), j)
    ensures Grew(old(st.events), st.events) && old(st.states) <= st.states
    ensures ok ==> Cut(answers, partBytes, 0).Cuts? && Underway(st.Now(), j, m, base, stored)
    ensures ok ==> parts == PartsOf(st.sha, ns, Cut(answers, partBytes, 0).parts)
    ensures ok ==> size == |Flat(Cut(answers, partBytes, 0).parts)|
    ensures ok ==> forall d :: d in Cut(answers, partBytes, 0).parts ==> st.sha(d) in stored
    ensures ok <==> Cut(answers, partBytes, 0).Cuts? && st.failures == old(st.failures)
  {
    hide Run, Step, Cut, CutSoFar, PartKey, Flat, OnlyJob, Grew;
    OnlyJobStays(st.Now(), j);
    GrewStays(st.events);
    parts, size, stored := [], 0, counted;
    var i := 0;
    ghost var done: seq<Bytes> := [];
    NothingCut(answers, partBytes);
    while true
      invariant st.Recording() && OnlyJob(old(st.Now()), st.Now(), j)
      invariant Grew(old(st.events), st.events) && old(st.states) <= st.states
      invariant Underway(st.Now(), j, m, base, stored) && st.failures == old(st.failures)
      invariant CutSoFar(answers, partBytes, i, done) && (size == 0 <==> i == 0)
      invariant parts == PartsOf(st.sha, ns, done) && size == |Flat(done)|
      invariant forall d :: d in done ==> st.sha(d) in stored
      decreases |answers| - i
    {
      CutEnds(answers, partBytes, i, done);
      if i >= |answers| || answers[i].ReadFault? { return false, parts, size, stored; }
      if answers[i].Missing? {
        if size == 0 { return true, parts, size, stored; }
        return false, parts, size, stored;
      }
      var data := answers[i].data;
      if |data| == 0 { return true, parts, size, stored; }
      var sum := st.sha(data);
      var key := PartKey(ns, sum);
      if sum !in stored {
        ghost var was, events := st.Now(), st.events;
        var good := StorePart(st, j, m, base, stored, key, data);
        OnlyJobOn(old(st.Now()), was, st.Now(), j);
        GrewOn(old(st.events), events, st.events);
        if !good { return false, parts, size, stored; }
        stored := stored + {sum};
      }
      CutTurn(answers, partBytes, i, done);
      MoreParts(st.sha, ns, done, data);
      FlatSnoc(done, data);
      done := done + [data];
      parts := parts + [Part(key, sum, |data|)];
      size := size + |data|;
      i := i + 1;
      if |data| < partBytes { return true, parts, size, stored; }
    }
  }

  lemma NothingCut(answers: seq<PartRead>, k: nat)
    ensures CutSoFar(answers, k, 0, []) && Flat(NO_PARTS) == []
  {
    if Cut(answers, k, 0).Cuts? { assert [] + Cut(answers, k, 0).parts == Cut(answers, k, 0).parts; }
  }

  /** The hashes the base's parts are stored under. */
  method BaseSums(attachments: seq<Attachment>) returns (sums: set<string>)
    ensures sums == SumsOf(attachments)
  {
    sums := {};
    for i := 0 to |attachments|
      invariant sums == SumsOf(attachments[..i])
    {
      var parts := attachments[i].parts;
      ghost var before := sums;
      for k := 0 to |parts|
        invariant sums == before + set p | p in parts[..k] :: p.sum
      {
        assert parts[..k + 1] == parts[..k] + [parts[k]];
        sums := sums + {parts[k].sum};
      }
      assert parts[..|parts|] == parts && attachments[..i + 1] == attachments[..i] + [attachments[i]];
    }
    assert attachments[..|attachments|] == attachments;
  }

  /** backupAttachments. */
  method BackupAttachments(st: ObjectStore, ghost j: nat, ghost m: Manifest, ns: string, ghost base: Base,
                           counted: set<string>, listed: seq<StoreSegment>, partBytes: nat)
    returns (ok: bool, out: seq<Attachment>, ghost stored: set<string>)
    requires partBytes > 0 && st.Recording() && Underway(st.Now(), j, m, base, counted)
    requires m.ns == ns && m.attachments == []
    modifies st
    ensures st.Recording() && OnlyJob(old(st.Now()), st.Now(), j)
    ensures Grew(old(st.events), st.events) && old(st.states) <= st.states
    ensures ok ==> Underway(st.Now(), j, m.(attachments := out), base, stored)
    ensures ok ==> AllRead(ns, listed, partBytes) && out == Attached(st.sha, ns, listed, partBytes)
    ensures ok <==> AllRead(ns, listed, partBytes) && st.failures == old(st.failures)
  {
    hide Run, Step, Cut, Flat, PartsOf, IsAttachment, OnlyJob, Grew, Attached, Entry, AllRead;
    OnlyJobStays(st.Now(), j);
    GrewStays(st.events);
    NoneAttached(st.sha, ns, partBytes);
    out := [];
    var now := counted;
    stored := now;
    for i := 0 to |listed|
      invariant st.Recording() && OnlyJob(old(st.Now()), st.Now(), j)
      invariant Grew(old(st.events), st.events) && old(st.states) <= st.states
      invariant Underway(st.Now(), j, m.(attachments := out), base, now) && st.failures == old(st.failures)
      invariant AllRead(ns, listed[..i], partBytes) && out == Attached(st.sha, ns, listed[..i], partBytes)
    {
      var g := listed[i];
      MoreAttached(st.sha, ns, listed, partBytes, i);
      if IsAttachment(ns, g.name) {
        ghost var partial := m.(attachments := out);
        ghost var was, events := st.Now(), st.events;
        var good, parts, size, more := BackupAttachment(st, j, partial, ns, base, now, g.answers, partBytes);
        OnlyJobOn(old(st.Now()), was, st.Now(), j);
        GrewOn(old(st.events), events, st.events);
        if !good {
          NotAllRead(ns, listed, partBytes, i);
          return false, out, now;
        }
        now := more;
        EntryIs(st.sha, ns, g, partBytes);
        if |parts| > 0 {
          was, events := st.Now(), st.events;
          NoteAttachment(st, j, partial, base, now, g.name, size, Cut(g.answers, partBytes, 0).parts);
          OnlyJobOn(old(st.Now()), was, st.Now(), j);
          GrewOn(old(st.events), events, st.events);
          out := out + [Attachment(g.name, size, parts)];
        }
      }
    }
    assert listed[..|listed|] == listed;
    return true, out, now;
  }

  lemma NotAllRead(ns: string, listed: seq<StoreSegment>, k: nat, i: nat)
    requires i < |listed| && IsAttachment(ns, listed[i].name)
    ensures Cut(listed[i].answers, k, 0).Unreadable? ==> !AllRead(ns, listed, k)
  {
    hide Cut, IsAttachment;
  }

  lemma NoneAttached(sha: Sha, ns: string, k: nat)
    ensures AllRead(ns, [], k) && Attached(sha, ns, [], k) == []
  {}

  lemma MoreAttached(sha: Sha, ns: string, listed: seq<StoreSegment>, k: nat, i: nat)
    requires i < |listed| && AllRead(ns, listed[..i], k)
    ensures AllRead(ns, listed[..i + 1], k) <==>
            (IsAttachment(ns, listed[i].name) ==> Cut(listed[i].answers, k, 0).Cuts?)
    ensures var entry := if IsAttachment(ns, listed[i].name) then Entry(sha, ns, listed[i], k) else [];
            Attached(sha, ns, listed[..i + 1], k) == Attached(sha, ns, listed[..i], k) + entry
  {
    hide Cut, IsAttachment, Entry;
    assert listed[..i + 1][..i] == listed[..i];
  }

  lemma EntryIs(sha: Sha, ns: string, g: StoreSegment, k: nat)
    requires Cut(g.answers, k, 0).Cuts?
    ensures Entry(sha, ns, g, k) ==
            if |PartsOf(sha, ns, Cut(g.answers, k, 0).parts)| > 0 then
              [Attachment(g.name, |Flat(Cut(g.answers, k, 0).parts)|, PartsOf(sha, ns, Cut(g.answers, k, 0).parts))]
            else []
  {
    hide Cut;
  }

  // ---------------------------------------------------------------- the whole backup

  function Commits(log: seq<LogSegment>): seq<Frame> {
    if log == [] then []
    else
      var g := log[|log| - 1];
      Commits(log[..|log| - 1]) + if g.scan.Verified? then g.scan.commits else []
  }

  /** The first pass: classifies every segment before anything is uploaded. */
  method ScanLog(log: seq<LogSegment>) returns (ok: bool, count: nat, heads: set<nat>)
    ensures ok <==> forall i :: 0 <= i < |log| ==> log[i].scan.Verified?
    ensures ok ==> count == |Seen(Commits(log))|
    ensures ok ==> forall h :: h in heads <==> h in Seen(Commits(log)) && !NamedByOther(Distinct(Commits(log)), h)
  {
    var tips := new Tips();
    for i := 0 to |log|
      invariant fresh(tips) && tips.Valid() && tips.log == Commits(log[..i])
      invariant forall k :: 0 <= k < i ==> log[k].scan.Verified?
    {
      if log[i].scan.Damaged? { return false, 0, {}; }
      assert log[..i + 1][..i] == log[..i];
      var commits := log[i].scan.commits;
      ghost var before := tips.log;
      assert commits[..0] == [] && before + [] == before;
      for k := 0 to |commits|
        invariant fresh(tips) && tips.Valid() && tips.log == before + commits[..k]
      {
        assert commits[..k + 1] == commits[..k] + [commits[k]];
        tips.Add(commits[k]);
      }
      assert commits[..|commits|] == commits;
    }
    assert log[..|log|] == log;
    count := tips.Count();
    return true, count, tips.heads;
  }

  /** LoadManifest. */
  function Load(objects: Store, ns: string, id: string): Base {
    var key := ManifestKey(ns, id);
    if key in objects && objects[key].Doc? && objects[key].manifest.version == 1 then Against(objects[key].manifest)
    else NoBase
  }

  ghost predicate AllVerified(log: seq<LogSegment>) { forall i :: 0 <= i < |log| ==> log[i].scan.Verified? }

  /** What a finished backup's manifest says. */
  ghost predicate Describes(sha: Sha, m: Manifest, ns: string, id: string, log: seq<LogSegment>,
                            listed: seq<StoreSegment>, partBytes: nat) {
    && m.version == 1 && m.ns == ns && m.id == id
    && Records(sha, log, m.segments)
    && AllRead(ns, listed, partBytes) && m.attachments == Attached(sha, ns, listed, partBytes)
    && m.count == |Seen(Commits(log))|
    && forall h :: h in m.heads <==> h in Seen(Commits(log)) && !NamedByOther(Distinct(Commits(log)), h)
  }

  ghost predicate HasManifest(objects: Store, m: Manifest) {
    ManifestKey(m.ns, m.id) in objects && objects[ManifestKey(m.ns, m.id)] == Doc(m)
  }

  /** CreateWithOptions: whatever the log, the base and the point at which puts fail, what the store goes
      through is a run; a refused backup puts nothing; one that fails leaves no manifest; one that succeeds
      leaves a manifest, put last, that says exactly what was read, and what it names under legacy keys is
      there; and none changes anything under a legacy key or a group's. One that is not refused succeeds exactly if
      every segment of the log and every attachment can be read and no put fails. */
  method CreateWithOptions(st: ObjectStore, ghost j: nat, ns: string, id: string, baseId: string,
                           log: seq<LogSegment>, listed: seq<StoreSegment>, partBytes: nat) returns (r: Result)
    requires partBytes > 0 && NoSlash(id) && st.Recording() && j !in st.Now().jobs && id !in st.Now().drawn
    modifies st
    ensures st.Recording() && old(st.events) <= st.events && old(st.states) <= st.states
    ensures NoSlash(baseId) && AllPlain(old(st.events)) ==> AllPlain(st.events)
    ensures r.Refused? ==> st.objects == old(st.objects) && st.events == old(st.events)
    ensures r.Refused? <==>
            log == [] || (baseId != "" && Load(old(st.objects), ns, baseId) == NoBase) || !AllVerified(log)
    ensures r.Created? <==>
            !r.Refused? && AllReadable(log) && AllRead(ns, listed, partBytes) && st.failures == old(st.failures)
    ensures SameElsewhere(old(st.objects), st.objects)
    ensures r.Failed? ==> OnlyOldDocs(old(st.objects), st.objects)
    ensures r.Created? ==> OneNewDoc(old(st.objects), st.objects, ManifestKey(ns, id))
    ensures r.Created? ==> st.Now().jobs.Keys == old(st.Now()).jobs.Keys
    ensures r.Created? ==> st.Now().drawn == old(st.Now()).drawn + {id}
    ensures r.Created? ==> Describes(st.sha, r.m, ns, id, log, listed, partBytes)
    ensures r.Created? ==> HasManifest(st.objects, r.m) && LegacyHold(st.sha, st.objects, ns, r.m.segments)
    ensures r.Created? ==> Finished(st.events, j)
  {
    hide Run, Step, Attached, Records, ManifestKey, NamedByOther, Distinct, Commits, Seen, LegacyHold, AllRead;
    hide AllReadable, Grew, FamilyOf, OnlyOldDocs, OneNewDoc, BaseEntry, SumsOf;
    if log == [] { return Refused; }
    var base := if baseId == "" then NoBase else Load(st.objects, ns, baseId);
    if baseId != "" && base == NoBase { return Refused; }
    var full: map<Sequence, Segment> := map[];
    var counted: set<string> := {};
    if base.Against? {
      full := FullEntries(base.manifest.segments);
      OneEntry(base.manifest.segments);
      counted := BaseSums(base.manifest.attachments);
    }
    var sound, count, heads := ScanLog(log);
    if !sound { return Refused; }
    ghost var job := Job(Fresh(ns, id, base), base, counted);
    ghost var started := st.Now().(drawn := st.Now().drawn + {id}, jobs := st.Now().jobs[j := job]);
    Starting(st.sha, st.Now(), j, ns, id, baseId, base, counted);
    st.Note(Event(j, Start(ns, id, baseId)), started);
    ghost var events := st.events;
    r := Upload(st, j, ns, id, base, full, counted, log, listed, partBytes, count, heads);
    PlainOn(old(st.events), events, st.events, baseId);
  }

  /** Job `j` is over. */
  ghost predicate Closed(was: State, now: State, j: nat) {
    now.jobs.Keys == was.jobs.Keys - {j} && now.drawn == was.drawn
  }

  ghost predicate Finished(events: seq<Event>, j: nat) { events != [] && events[|events| - 1] == Event(j, Finish) }

  /** Everything that is put. */
  method Upload(st: ObjectStore, ghost j: nat, ns: string, id: string, base: Base, full: map<Sequence, Segment>,
                counted: set<string>, log: seq<LogSegment>, listed: seq<StoreSegment>, partBytes: nat,
                count: nat, heads: set<nat>) returns (r: Result)
    requires partBytes > 0 && st.Recording() && Underway(st.Now(), j, Fresh(ns, id, base), base, counted)
    requires AllVerified(log)
    requires forall n: Sequence :: n in full ==> base.Against? && BaseEntry(base.manifest.segments, n) == [full[n]]
    modifies st
    ensures st.Recording() && Grew(old(st.events), st.events) && old(st.states) <= st.states && !r.Refused?
    ensures r.Created? <==> AllReadable(log) && AllRead(ns, listed, partBytes) && st.failures == old(st.failures)
    ensures SameElsewhere(old(st.objects), st.objects)
    ensures r.Failed? ==> OnlyOldDocs(old(st.objects), st.objects)
    ensures r.Created? ==> OneNewDoc(old(st.objects), st.objects, ManifestKey(ns, id))
    ensures r.Created? ==> Closed(old(st.Now()), st.Now(), j) && Finished(st.events, j)
    ensures r.Created? ==> r.m.version == 1 && r.m.ns == ns && r.m.id == id && r.m.count == count && r.m.heads == heads
    ensures r.Created? ==> Records(st.sha, log, r.m.segments)
    ensures r.Created? ==> AllRead(ns, listed, partBytes) && r.m.attachments == Attached(st.sha, ns, listed, partBytes)
    ensures r.Created? ==> HasManifest(st.objects, r.m) && LegacyHold(st.sha, st.objects, ns, r.m.segments)
  {
    hide Run, Step, Attached, Records, ManifestKey, LegacyHold, AllRead, FamilyOf, AllReadable;
    ghost var m := Fresh(ns, id, base);
    var ok, segments := UploadSegments(st, j, m, ns, id, base, counted, full, log);
    if !ok { return Failed; }
    m := m.(segments := segments);
    ghost var uploaded := st.objects;
    var out;
    ghost var stored;
    ok, out, stored := BackupAttachments(st, j, m, ns, base, counted, listed, partBytes);
    if !ok { return Failed; }
    var done := Manifest(1, ns, id, if base.Against? then base.manifest.id else "", count, heads, segments, out);
    r := PutManifest(st, j, m.(attachments := out), base, stored, done);
    LegacyHoldsOn(st.sha, uploaded, st.objects, ns, segments);
  }

  /** The summary noted, and the manifest put. */
  method PutManifest(st: ObjectStore, ghost j: nat, ghost m: Manifest, ghost base: Base, ghost stored: set<string>,
                     done: Manifest) returns (r: Result)
    requires st.Recording() && Underway(st.Now(), j, m, base, stored)
    requires done == m.(count := done.count, heads := done.heads)
    modifies st
    ensures st.Recording() && Grew(old(st.events), st.events) && old(st.states) <= st.states && !r.Refused?
    ensures SameElsewhere(old(st.objects), st.objects)
    ensures r.Created? <==> st.failures == old(st.failures)
    ensures r.Failed? ==> st.objects == old(st.objects)
    ensures r.Created? ==> Closed(old(st.Now()), st.Now(), j) && Finished(st.events, j)
    ensures r.Created? ==> r.m == done && HasManifest(st.objects, done)
    ensures r.Created? ==> st.objects == old(st.objects)[ManifestKey(done.ns, done.id) := Doc(done)]
  {
    Families(m.ns, m.id, 0, "");
    PutElsewhere(st.objects, ManifestKey(m.ns, m.id), Doc(done));
    hide Run, ManifestKey, FamilyOf, LegacyKey;
    ghost var summed := st.Now().(jobs := st.Now().jobs[j := Job(done, base, stored)]);
    st.Note(Event(j, Summarise(done.count, done.heads)), summed);
    ghost var now := st.Now();
    ghost var next := now.(store := now.store[ManifestKey(m.ns, m.id) := Doc(done)],
                           jobs := now.jobs - {j}, done := now.done + {m.id});
    var ok := st.Put(ManifestKey(done.ns, done.id), Doc(done), Event(j, Finish), next);
    return if ok then Created(done) else Failed;
  }

  lemma OneEntry(entries: seq<Segment>)
    ensures forall n: Sequence :: BaseEntry(entries, n) != [] ==> BaseEntry(entries, n) == [BaseEntry(entries, n)[0]]
  {
    forall n: Sequence | BaseEntry(entries, n) != [] ensures |BaseEntry(entries, n)| == 1 {
      EntryAlone(entries, n);
    }
  }

  lemma {:induction false} EntryAlone(entries: seq<Segment>, n: Sequence)
    ensures |BaseEntry(entries, n)| <= 1
  {
    if entries != [] { EntryAlone(entries[..|entries| - 1], n); }
  }

  lemma Starting(sha: Sha, s: State, j: nat, ns: string, id: string, baseId: string, base: Base, counted: set<string>)
    requires j !in s.jobs && NoSlash(id) && id !in s.drawn
    requires if baseId == "" then base == NoBase else base == Load(s.store, ns, baseId) && base.Against?
    requires counted == if base.Against? then SumsOf(base.manifest.attachments) else {}
    ensures Step(sha, s, j, Start(ns, id, baseId),
                 s.(drawn := s.drawn + {id}, jobs := s.jobs[j := Job(Fresh(ns, id, base), base, counted)]))
  {
    hide ManifestKey;
    assert LoadsBase(s, ns, baseId, base);
  }

  lemma PlainOn(was: seq<Event>, started: seq<Event>, now: seq<Event>, baseId: string)
    requires |started| == |was| + 1 && was <= started
    requires started[|was|].action.Start? && started[|was|].action.baseId == baseId
    requires Grew(started, now)
    ensures was <= now && (NoSlash(baseId) && AllPlain(was) ==> AllPlain(now))
  {}
}
