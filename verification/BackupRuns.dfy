/** Every run of backups (go/kdb/backup): any number of them at once, full or incremental, each a
    sequence of puts that a crash may cut off anywhere, beside writers that are not backups. */
module BackupRuns {
  import opened Words
  import opened Keys

  type Sha = Bytes -> string

  /** Hashes in hexadecimal: no slashes, and no two contents share one. */
  ghost predicate Ideal(sha: Sha) {
    (forall x, y :: sha(x) == sha(y) ==> x == y) && forall x :: NoSlash(sha(x))
  }

  // ---------------------------------------------------------------- what is stored

  datatype Segment = Segment(number: Sequence, sum: string, size: nat, key: string, prefix: bool)
  datatype Part = Part(key: string, sum: string, size: nat)
  datatype Attachment = Attachment(name: string, size: nat, parts: seq<Part>)
  datatype Manifest = Manifest(version: int, ns: string, id: string, base: string, count: nat, heads: set<nat>,
                               segments: seq<Segment>, attachments: seq<Attachment>)
  datatype Member = Member(ns: string, id: string)
  datatype Group = Group(id: string, members: seq<Member>)

  datatype Object = Raw(data: Bytes) | Doc(manifest: Manifest) | GroupDoc(group: Group)

  type Store = map<string, Object>

  /** The object at `key` is there and is what was recorded. */
  ghost predicate Good(sha: Sha, store: Store, key: string, sum: string, size: nat) {
    key in store && store[key].Raw? && sha(store[key].data) == sum && |store[key].data| == size
  }

  predicate IsLegacy(ns: string, e: Segment) { !e.prefix && e.key == LegacyKey(ns, e.number) }

  ghost predicate SegmentShaped(ns: string, id: string, e: Segment) {
    && NoSlash(e.sum)
    && if e.prefix then e.key == ActiveKey(ns, id, e.number)
       else e.key == SealedKey(ns, e.number, e.sum) || e.key == LegacyKey(ns, e.number)
  }

  ghost predicate PartShaped(ns: string, p: Part) { NoSlash(p.sum) && p.key == PartKey(ns, p.sum) }

  ghost predicate Shaped(m: Manifest) {
    && NoSlash(m.id)
    && (forall e :: e in m.segments ==> SegmentShaped(m.ns, m.id, e))
    && (forall a, p :: a in m.attachments && p in a.parts ==> PartShaped(m.ns, p))
  }

  /** Everything the manifest names is present and as recorded; a legacy key is shared, and is not
      vouched for. */
  ghost predicate Holds(sha: Sha, store: Store, m: Manifest) {
    && (forall e :: e in m.segments && !IsLegacy(m.ns, e) ==> Good(sha, store, e.key, e.sum, e.size))
    && (forall a, p :: a in m.attachments && p in a.parts ==> Good(sha, store, p.key, p.sum, p.size))
  }

  // ---------------------------------------------------------------- one put

  /** The places objects are put. */
  datatype Place =
    | AtSealed(ns: string, number: Sequence)
    | AtPart(ns: string)
    | AtActive(ns: string, id: string, number: Sequence)
    | AtManifest(ns: string, id: string)
    | AtGroup(id: string)
    | AtOther(path: string)

  function KeyOf(sha: Sha, at: Place, x: Object): string {
    match at
    case AtSealed(ns, n) => SealedKey(ns, n, if x.Raw? then sha(x.data) else "")
    case AtPart(ns) => PartKey(ns, if x.Raw? then sha(x.data) else "")
    case AtActive(ns, id, n) => ActiveKey(ns, id, n)
    case AtManifest(ns, id) => ManifestKey(ns, id)
    case AtGroup(id) => DatabaseKey(id)
    case AtOther(path) => path
  }

  /** A put that the backup `m` can be sure of: content under its own hash, anything under another
      backup's identifier, or anything in a tree no backup writes. */
  ghost predicate Careful(at: Place, x: Object, m: Manifest) {
    match at
    case AtSealed(_, _) => x.Raw?
    case AtPart(_) => x.Raw?
    case AtActive(_, id, _) => NoSlash(id) && (id == m.id ==> forall e :: e in m.segments ==> !e.prefix)
    case AtManifest(_, id) => NoSlash(id) && !x.Raw?
    case AtGroup(_) => !x.Raw?
    case AtOther(path) => FamilyOf(path) == OfNs || FamilyOf(path) == OfOther
  }

  lemma PutKeepsSegment(sha: Sha, store: Store, at: Place, x: Object, m: Manifest, e: Segment)
    requires Ideal(sha) && NoSlash(m.id) && e in m.segments && SegmentShaped(m.ns, m.id, e) && !IsLegacy(m.ns, e)
    requires Good(sha, store, e.key, e.sum, e.size) && Careful(at, x, m)
    ensures KeyOf(sha, at, x) == e.key ==> x == store[e.key]
  {
    hide Good, ManifestKey, ActiveKey, SealedKey, PartKey, LegacyKey, DatabaseKey, FamilyOf, Padded;
    var key := KeyOf(sha, at, x);
    Families(m.ns, m.id, e.number, e.sum);
    match at {
      case AtSealed(ns, n) =>
        Families(ns, "", n, sha(x.data));
        if key == e.key {
          SealedKeyDetermines(ns, n, sha(x.data), m.ns, e.number, e.sum);
          SameContent(sha, store, e.key, e.sum, e.size, x);
        }
      case AtPart(ns) => Families(ns, "", 0, sha(x.data));
      case AtActive(ns, id, n) =>
        Families(ns, id, n, "");
        if key == e.key { ActiveKeyDetermines(ns, id, n, m.ns, m.id, e.number); }
      case AtManifest(ns, id) =>
        Families(ns, id, 0, "");
        if key == e.key { ActiveIsNotManifest(m.ns, m.id, e.number, ns, id); }
      case AtGroup(id) => Families("", id, 0, "");
      case AtOther(_) =>
    }
  }

  lemma SameContent(sha: Sha, store: Store, key: string, sum: string, size: nat, x: Object)
    requires Ideal(sha) && Good(sha, store, key, sum, size) && x.Raw? && sha(x.data) == sum
    ensures x == store[key]
  {}

  lemma PutKeepsPart(sha: Sha, store: Store, at: Place, x: Object, m: Manifest, p: Part)
    requires Ideal(sha) && PartShaped(m.ns, p) && Good(sha, store, p.key, p.sum, p.size) && Careful(at, x, m)
    ensures KeyOf(sha, at, x) == p.key ==> x == store[p.key]
  {
    hide Good, ManifestKey, ActiveKey, SealedKey, PartKey, LegacyKey, DatabaseKey, FamilyOf, Padded;
    Families(m.ns, "", 0, p.sum);
    match at {
      case AtSealed(ns, n) => Families(ns, "", n, sha(x.data));
      case AtPart(ns) =>
        if KeyOf(sha, at, x) == p.key {
          PartKeyDetermines(ns, sha(x.data), m.ns, p.sum);
          SameContent(sha, store, p.key, p.sum, p.size, x);
        }
      case AtActive(ns, id, n) => Families(ns, id, n, "");
      case AtManifest(ns, id) => Families(ns, id, 0, "");
      case AtGroup(id) => Families("", id, 0, "");
      case AtOther(_) =>
    }
  }

  /** The objects a manifest vouches for. */
  ghost predicate Names(m: Manifest, key: string) {
    || (exists e :: e in m.segments && !IsLegacy(m.ns, e) && e.key == key)
    || (exists a, p :: a in m.attachments && p in a.parts && p.key == key)
  }

  /** No careful put changes an object the manifest names. */
  lemma PutKeeps(sha: Sha, store: Store, at: Place, x: Object, m: Manifest)
    requires Ideal(sha) && Shaped(m) && Holds(sha, store, m) && Careful(at, x, m)
    ensures Holds(sha, store[KeyOf(sha, at, x) := x], m)
    ensures forall key :: Names(m, key) ==> key in store && store[KeyOf(sha, at, x) := x][key] == store[key]
  {
    hide KeyOf, Careful, ManifestKey, ActiveKey, SealedKey, PartKey, LegacyKey, SegmentShaped, PartShaped, IsLegacy;
    hide Ideal;
    forall e | e in m.segments && !IsLegacy(m.ns, e) ensures KeyOf(sha, at, x) == e.key ==> x == store[e.key] {
      PutKeepsSegment(sha, store, at, x, m, e);
    }
    forall a, p | a in m.attachments && p in a.parts ensures KeyOf(sha, at, x) == p.key ==> x == store[p.key] {
      PutKeepsPart(sha, store, at, x, m, p);
    }
  }

  // ---------------------------------------------------------------- the machine

  datatype Base = NoBase | Against(manifest: Manifest)

  /** A backup under way: the manifest as far as it goes, and the part hashes it counts as stored. */
  datatype Job = Job(m: Manifest, base: Base, stored: set<string>)

  /** The store, the backups under way, the identifiers drawn, and those of finished backups. */
  datatype State = State(store: Store, jobs: map<nat, Job>, drawn: set<string>, done: set<string>)

  function PartOf(sha: Sha, ns: string, data: Bytes): Part { Part(PartKey(ns, sha(data)), sha(data), |data|) }

  function PartsOf(sha: Sha, ns: string, pieces: seq<Bytes>): seq<Part> {
    seq(|pieces|, i requires 0 <= i < |pieces| => PartOf(sha, ns, pieces[i]))
  }

  function SumsOf(a: seq<Attachment>): set<string> {
    set s, p | s in a && p in s.parts :: p.sum
  }

  datatype Action =
    | Start(ns: string, id: string, baseId: string)
    | PutActive(number: Sequence, data: Bytes)
    | PutSealed(number: Sequence, data: Bytes)
    | Reuse(number: Sequence, data: Bytes)
    | PutPart(data: Bytes)
    | AddAttachment(name: string, size: nat, pieces: seq<Bytes>)
    | Summarise(count: nat, heads: set<nat>)
    | Finish
    | Crash
    | FinishGroup(group: Group)
    | Adopt(manifest: Manifest)
    | Outside(store: Store)

  function Fresh(ns: string, id: string, base: Base): Manifest {
    Manifest(1, ns, id, if base.Against? then base.manifest.id else "", 0, {}, [], [])
  }

  /** The base's entry for a segment: the last one that is not a prefix. */
  function BaseEntry(entries: seq<Segment>, number: Sequence): seq<Segment> {
    if entries == [] then []
    else
      var e := entries[|entries| - 1];
      if !e.prefix && e.number == number then [e] else BaseEntry(entries[..|entries| - 1], number)
  }

  /** baseObjectStillHolds. */
  ghost predicate StillHolds(sha: Sha, store: Store, ns: string, e: Segment) {
    IsLegacy(ns, e) ==> Good(sha, store, e.key, e.sum, e.size)
  }

  /** LoadManifest, for the base. */
  ghost predicate LoadsBase(s: State, ns: string, baseId: string, base: Base) {
    if baseId == "" then base == NoBase
    else
      var key := ManifestKey(ns, baseId);
      key in s.store && s.store[key].Doc? && base == Against(s.store[key].manifest)
  }

  function WithSegment(m: Manifest, e: Segment): Manifest { m.(segments := m.segments + [e]) }

  /** Job `j` of state `s` does `a`. */
  ghost predicate Step(sha: Sha, s: State, j: nat, a: Action, s': State) {
    match a
    case Start(ns, id, baseId) =>
      && j !in s.jobs && NoSlash(id) && id !in s.drawn
      && (exists base :: LoadsBase(s, ns, baseId, base) &&
            s' == s.(drawn := s.drawn + {id}, jobs := s.jobs[j := Job(Fresh(ns, id, base), base,
              if base.Against? then SumsOf(base.manifest.attachments) else {})]))
    case PutActive(n, data) =>
      && j in s.jobs && (forall e :: e in s.jobs[j].m.segments ==> !e.prefix)
      && var job := s.jobs[j];
         var key := ActiveKey(job.m.ns, job.m.id, n);
         s' == s.(store := s.store[key := Raw(data)],
                  jobs := s.jobs[j := job.(m := WithSegment(job.m, Segment(n, sha(data), |data|, key, true)))])
    case PutSealed(n, data) =>
      && j in s.jobs
      && var job := s.jobs[j];
         var key := SealedKey(job.m.ns, n, sha(data));
         s' == s.(store := s.store[key := Raw(data)],
                  jobs := s.jobs[j := job.(m := WithSegment(job.m, Segment(n, sha(data), |data|, key, false)))])
    case Reuse(n, data) =>
      && j in s.jobs && s.jobs[j].base.Against?
      && var job := s.jobs[j];
         var found := BaseEntry(job.base.manifest.segments, n);
         && found != [] && found[0].sum == sha(data) && StillHolds(sha, s.store, job.m.ns, found[0])
         && s' == s.(jobs := s.jobs[j := job.(m := WithSegment(job.m, found[0]))])
    case PutPart(data) =>
      && j in s.jobs
      && var job := s.jobs[j];
         s' == s.(store := s.store[PartKey(job.m.ns, sha(data)) := Raw(data)],
                  jobs := s.jobs[j := job.(stored := job.stored + {sha(data)})])
    case AddAttachment(name, size, pieces) =>
      && j in s.jobs && (forall d :: d in pieces ==> sha(d) in s.jobs[j].stored)
      && var job := s.jobs[j];
         var a := Attachment(name, size, PartsOf(sha, job.m.ns, pieces));
         s' == s.(jobs := s.jobs[j := job.(m := job.m.(attachments := job.m.attachments + [a]))])
    case Summarise(count, heads) =>
      && j in s.jobs
      && s' == s.(jobs := s.jobs[j := s.jobs[j].(m := s.jobs[j].m.(count := count, heads := heads))])
    case Finish =>
      && j in s.jobs
      && var m := s.jobs[j].m;
         s' == s.(store := s.store[ManifestKey(m.ns, m.id) := Doc(m)], jobs := s.jobs - {j}, done := s.done + {m.id})
    case Crash => j in s.jobs && s' == s.(jobs := s.jobs - {j})
    case FinishGroup(g) =>
      && (forall e :: e in g.members ==> ManifestKey(e.ns, e.id) in s.store && s.store[ManifestKey(e.ns, e.id)].Doc?)
      && s' == s.(store := s.store[DatabaseKey(g.id) := GroupDoc(g)])
    case Adopt(m) =>
      && m.id !in s.drawn && Shaped(m) && Holds(sha, s.store, m)
      && s' == s.(store := s.store[ManifestKey(m.ns, m.id) := Doc(m)],
                  drawn := s.drawn + {m.id}, done := s.done + {m.id})
    case Outside(store) =>
      && (forall key :: FamilyOf(key) != OfNs && FamilyOf(key) != OfOther ==>
           (key in store <==> key in s.store) && (key in store ==> store[key] == s.store[key]))
      && (forall key :: key in store && (FamilyOf(key) == OfNs || FamilyOf(key) == OfOther) ==> store[key].Raw?)
      && s' == s.(store := store)
  }

  ghost predicate Kept(sha: Sha, s: State, m: Manifest) { Shaped(m) && Holds(sha, s.store, m) && m.id in s.done }

  ghost predicate StoredParts(sha: Sha, store: Store, ns: string, stored: set<string>) {
    forall sum :: sum in stored ==>
      && NoSlash(sum) && PartKey(ns, sum) in store && store[PartKey(ns, sum)].Raw?
      && sha(store[PartKey(ns, sum)].data) == sum
  }

  ghost predicate JobOk(sha: Sha, s: State, job: Job) {
    && Shaped(job.m) && Holds(sha, s.store, job.m) && job.m.id in s.drawn && job.m.id !in s.done
    && (job.base.Against? ==> Kept(sha, s, job.base.manifest) && job.base.manifest.ns == job.m.ns)
    && StoredParts(sha, s.store, job.m.ns, job.stored)
  }

  /** Every manifest in the store names only what is there, as recorded; every group only finished backups. */
  ghost predicate Inv(sha: Sha, s: State) {
    && s.done <= s.drawn
    && (forall key :: key in s.store && s.store[key].Doc? ==>
          key == ManifestKey(s.store[key].manifest.ns, s.store[key].manifest.id) && Kept(sha, s, s.store[key].manifest))
    && (forall j :: j in s.jobs ==> JobOk(sha, s, s.jobs[j]))
    && (forall i, j :: i in s.jobs && j in s.jobs && i != j ==> s.jobs[i].m.id != s.jobs[j].m.id)
    && (forall key :: key in s.store && s.store[key].GroupDoc? ==>
          key == DatabaseKey(s.store[key].group.id) && GroupOk(s.store, s.store[key].group))
  }

  ghost predicate GroupOk(store: Store, g: Group) {
    forall e :: e in g.members ==> ManifestKey(e.ns, e.id) in store && store[ManifestKey(e.ns, e.id)].Doc?
  }

  // ---------------------------------------------------------------- every step keeps it

  /** The store after a put at `at`. */
  function After(sha: Sha, s: State, at: Place, x: Object): State { s.(store := s.store[KeyOf(sha, at, x) := x]) }

  /** A put that no manifest and no backup under way minds. */
  ghost predicate Welcome(s: State, at: Place, x: Object) {
    match at
    case AtActive(_, id, _) =>
      x.Raw? && NoSlash(id) && id !in s.done &&
      forall j :: j in s.jobs && s.jobs[j].m.id == id ==> forall e :: e in s.jobs[j].m.segments ==> !e.prefix
    case AtManifest(_, id) => NoSlash(id) && x.Doc?
    case AtGroup(_) => x.GroupDoc?
    case AtOther(_) => false
    case _ => x.Raw?
  }

  lemma PutKeepsKept(sha: Sha, s: State, at: Place, x: Object, m: Manifest)
    requires Ideal(sha) && Kept(sha, s, m) && Welcome(s, at, x)
    ensures Kept(sha, After(sha, s, at, x), m)
  {
    hide KeyOf, Shaped, Holds, Ideal;
    PutKeeps(sha, s.store, at, x, m);
  }

  lemma PutKeepsStored(sha: Sha, s: State, at: Place, x: Object, m: Manifest, stored: set<string>)
    requires Ideal(sha) && StoredParts(sha, s.store, m.ns, stored) && Careful(at, x, m)
    ensures StoredParts(sha, After(sha, s, at, x).store, m.ns, stored)
  {
    hide KeyOf, Ideal, PartKey;
    forall sum | sum in stored ensures KeyOf(sha, at, x) == PartKey(m.ns, sum) ==> x == s.store[PartKey(m.ns, sum)] {
      PutKeepsPart(sha, s.store, at, x, m, Part(PartKey(m.ns, sum), sum, |s.store[PartKey(m.ns, sum)].data|));
    }
  }

  lemma PutKeepsJob(sha: Sha, s: State, at: Place, x: Object, j: nat)
    requires Ideal(sha) && j in s.jobs && JobOk(sha, s, s.jobs[j]) && Welcome(s, at, x)
    ensures JobOk(sha, After(sha, s, at, x), s.jobs[j])
  {
    var job := s.jobs[j];
    hide KeyOf, Shaped, Holds, Ideal, StoredParts, Kept;
    PutKeeps(sha, s.store, at, x, job.m);
    PutKeepsStored(sha, s, at, x, job.m, job.stored);
    if job.base.Against? { PutKeepsKept(sha, s, at, x, job.base.manifest); }
  }

  /** Bytes never land on a manifest or a group. */
  lemma RawAvoidsDocs(sha: Sha, s: State, at: Place, x: Object, ns: string, id: string)
    requires Ideal(sha) && Welcome(s, at, x) && x.Raw? && NoSlash(id)
    ensures KeyOf(sha, at, x) != ManifestKey(ns, id)
  {
    hide ManifestKey, ActiveKey, SealedKey, PartKey, LegacyKey, DatabaseKey, FamilyOf, Padded;
    Families(ns, id, 0, "");
    match at {
      case AtActive(ns', id', n) => ActiveIsNotManifest(ns', id', n, ns, id);
      case AtSealed(ns', n) => Families(ns', "", n, sha(x.data));
      case AtPart(ns') => Families(ns', "", 0, sha(x.data));
    }
  }

  lemma RawPut(sha: Sha, s: State, at: Place, x: Object)
    requires Ideal(sha) && Inv(sha, s) && Welcome(s, at, x) && x.Raw?
    ensures Inv(sha, After(sha, s, at, x))
  {
    var s' := After(sha, s, at, x);
    hide KeyOf, Welcome, Kept, JobOk, Ideal, ManifestKey;
    forall key | key in s'.store && s'.store[key].Doc?
      ensures key == ManifestKey(s'.store[key].manifest.ns, s'.store[key].manifest.id)
      ensures Kept(sha, s', s'.store[key].manifest)
    {
      PutKeepsKept(sha, s, at, x, s.store[key].manifest);
    }
    forall j | j in s'.jobs ensures JobOk(sha, s', s'.jobs[j]) { PutKeepsJob(sha, s, at, x, j); }
    forall key | key in s'.store && s'.store[key].GroupDoc?
      ensures key == DatabaseKey(s'.store[key].group.id) && GroupOk(s'.store, s'.store[key].group)
    {
      RawKeepsGroup(sha, s, at, x, s.store[key].group);
    }
  }

  lemma DocKeys(sha: Sha, s: State, ns: string, id: string)
    requires Inv(sha, s) && ManifestKey(ns, id) in s.store && s.store[ManifestKey(ns, id)].Doc?
    ensures var m := s.store[ManifestKey(ns, id)].manifest;
            ManifestKey(ns, id) == ManifestKey(m.ns, m.id) && NoSlash(m.id) && m.id in s.done
  {}

  lemma RawKeepsGroup(sha: Sha, s: State, at: Place, x: Object, g: Group)
    requires Ideal(sha) && Inv(sha, s) && Welcome(s, at, x) && x.Raw? && GroupOk(s.store, g)
    ensures GroupOk(After(sha, s, at, x).store, g)
  {
    hide KeyOf, Welcome, Inv, Ideal, ManifestKey;
    forall e | e in g.members ensures KeyOf(sha, at, x) != ManifestKey(e.ns, e.id) {
      DocKeys(sha, s, e.ns, e.id);
      var m := s.store[ManifestKey(e.ns, e.id)].manifest;
      RawAvoidsDocs(sha, s, at, x, m.ns, m.id);
    }
  }

  lemma JobChange(sha: Sha, s: State, j: nat, job: Job)
    requires Inv(sha, s) && j in s.jobs && JobOk(sha, s, job) && job.m.id == s.jobs[j].m.id
    ensures Inv(sha, s.(jobs := s.jobs[j := job]))
  {
    var s' := s.(jobs := s.jobs[j := job]);
    hide Kept, Shaped, Holds, StoredParts, ManifestKey, GroupOk;
    forall key | key in s'.store && s'.store[key].Doc? ensures Kept(sha, s', s'.store[key].manifest) {
      SameKept(sha, s, s', s.store[key].manifest);
    }
    forall i | i in s'.jobs ensures JobOk(sha, s', s'.jobs[i]) {
      if s'.jobs[i].base.Against? { SameKept(sha, s, s', s'.jobs[i].base.manifest); }
    }
  }

  lemma SameKept(sha: Sha, s: State, s': State, m: Manifest)
    requires Kept(sha, s, m) && s'.store == s.store && s.done <= s'.done
    ensures Kept(sha, s', m)
  {}

  lemma AddsSegment(sha: Sha, s: State, job: Job, e: Segment)
    requires JobOk(sha, s, job) && SegmentShaped(job.m.ns, job.m.id, e)
    requires IsLegacy(job.m.ns, e) || Good(sha, s.store, e.key, e.sum, e.size)
    ensures JobOk(sha, s, job.(m := WithSegment(job.m, e)))
  {
    hide SegmentShaped, PartShaped, IsLegacy, Good, StoredParts, Kept;
  }

  lemma ActiveStep(sha: Sha, s: State, j: nat, a: Action, s': State)
    requires Ideal(sha) && Inv(sha, s) && a.PutActive? && Step(sha, s, j, a, s')
    ensures Inv(sha, s')
  {
    hide ActiveKey, SealedKey, LegacyKey, PartKey, Shaped, Holds, Kept, StoredParts;
    var job := s.jobs[j];
    var at, x := AtActive(job.m.ns, job.m.id, a.number), Raw(a.data);
    var e := Segment(a.number, sha(a.data), |a.data|, ActiveKey(job.m.ns, job.m.id, a.number), true);
    ShapedId(job.m);
    RawPut(sha, s, at, x);
    AddsSegment(sha, After(sha, s, at, x), job, e);
    JobChange(sha, After(sha, s, at, x), j, job.(m := WithSegment(job.m, e)));
  }

  lemma ShapedId(m: Manifest)
    requires Shaped(m)
    ensures NoSlash(m.id)
  {}

  lemma SealedStep(sha: Sha, s: State, j: nat, a: Action, s': State)
    requires Ideal(sha) && Inv(sha, s) && a.PutSealed? && Step(sha, s, j, a, s')
    ensures Inv(sha, s')
  {
    hide ActiveKey, SealedKey, LegacyKey, PartKey, Shaped, Holds, Kept, StoredParts;
    var job := s.jobs[j];
    var at, x := AtSealed(job.m.ns, a.number), Raw(a.data);
    var e := Segment(a.number, sha(a.data), |a.data|, SealedKey(job.m.ns, a.number, sha(a.data)), false);
    RawPut(sha, s, at, x);
    AddsSegment(sha, After(sha, s, at, x), job, e);
    JobChange(sha, After(sha, s, at, x), j, job.(m := WithSegment(job.m, e)));
  }

  lemma {:induction false} BaseEntryIn(entries: seq<Segment>, number: Sequence)
    ensures BaseEntry(entries, number) != [] ==>
      var e := BaseEntry(entries, number)[0];
      e in entries && !e.prefix && e.number == number
  {
    if entries != [] { BaseEntryIn(entries[..|entries| - 1], number); }
  }

  lemma ReuseStep(sha: Sha, s: State, j: nat, a: Action, s': State)
    requires Inv(sha, s) && a.Reuse? && Step(sha, s, j, a, s')
    ensures Inv(sha, s')
    ensures var e := BaseEntry(s.jobs[j].base.manifest.segments, a.number)[0];
      && s'.jobs[j].m == WithSegment(s.jobs[j].m, e) && e.number == a.number
      && Good(sha, s.store, e.key, sha(a.data), e.size)
  {
    hide ActiveKey, SealedKey, LegacyKey, PartKey, StoredParts, Good, BaseEntry;
    var job := s.jobs[j];
    BaseEntryIn(job.base.manifest.segments, a.number);
    var e := BaseEntry(job.base.manifest.segments, a.number)[0];
    assert SegmentShaped(job.m.ns, job.base.manifest.id, e);
    assert Good(sha, s.store, e.key, e.sum, e.size);
    AddsSegment(sha, s, job, e);
    JobChange(sha, s, j, job.(m := WithSegment(job.m, e)));
  }

  lemma PartStep(sha: Sha, s: State, j: nat, a: Action, s': State)
    requires Ideal(sha) && Inv(sha, s) && a.PutPart? && Step(sha, s, j, a, s')
    ensures Inv(sha, s')
  {
    hide ActiveKey, SealedKey, LegacyKey, PartKey, Shaped, Holds, Kept;
    var job := s.jobs[j];
    var at, x := AtPart(job.m.ns), Raw(a.data);
    RawPut(sha, s, at, x);
    JobChange(sha, After(sha, s, at, x), j, job.(stored := job.stored + {sha(a.data)}));
  }

  lemma AttachmentStep(sha: Sha, s: State, j: nat, a: Action, s': State)
    requires Ideal(sha) && Inv(sha, s) && a.AddAttachment? && Step(sha, s, j, a, s')
    ensures Inv(sha, s')
  {
    var job := s.jobs[j];
    var n := Attachment(a.name, a.size, PartsOf(sha, job.m.ns, a.pieces));
    hide ActiveKey, SealedKey, LegacyKey, PartKey, SegmentShaped, IsLegacy, Kept;
    forall p | p in n.parts ensures PartShaped(job.m.ns, p) && Good(sha, s.store, p.key, p.sum, p.size) {
      var i :| 0 <= i < |a.pieces| && p == PartOf(sha, job.m.ns, a.pieces[i]);
      assert sha(a.pieces[i]) in job.stored;
    }
    AddsAttachment(sha, s, job, n);
    JobChange(sha, s, j, job.(m := job.m.(attachments := job.m.attachments + [n])));
  }

  lemma AddsAttachment(sha: Sha, s: State, job: Job, n: Attachment)
    requires JobOk(sha, s, job)
    requires forall p :: p in n.parts ==> PartShaped(job.m.ns, p) && Good(sha, s.store, p.key, p.sum, p.size)
    ensures JobOk(sha, s, job.(m := job.m.(attachments := job.m.attachments + [n])))
  {
    hide SegmentShaped, PartShaped, IsLegacy, Good, StoredParts, Kept;
  }

  lemma SummariseStep(sha: Sha, s: State, j: nat, a: Action, s': State)
    requires Inv(sha, s) && a.Summarise? && Step(sha, s, j, a, s')
    ensures Inv(sha, s')
  {
    hide SegmentShaped, PartShaped, Good, StoredParts, Kept;
    var job := s.jobs[j];
    JobChange(sha, s, j, job.(m := job.m.(count := a.count, heads := a.heads)));
  }

  lemma CrashStep(sha: Sha, s: State, j: nat, a: Action, s': State)
    requires Inv(sha, s) && a.Crash? && Step(sha, s, j, a, s')
    ensures Inv(sha, s')
  {
    hide Shaped, Holds, StoredParts, ManifestKey, GroupOk;
  }

  /** A slash-free identifier loads a backup of the namespace asked for, and no other does. */
  lemma BaseOfNamespace(sha: Sha, s: State, ns: string, baseId: string, base: Base)
    requires Inv(sha, s) && LoadsBase(s, ns, baseId, base) && base.Against?
    ensures base.manifest.ns == ns <==> NoSlash(baseId)
    ensures Kept(sha, s, base.manifest)
  {
    var m := base.manifest;
    hide ManifestKey;
    ShapedId(m);
    if NoSlash(baseId) { ManifestKeyDetermines(ns, baseId, m.ns, m.id); }
    if m.ns == ns { SameNamespaceKey(ns, baseId, m.id); }
  }

  lemma SameNamespaceKey(ns: string, id: string, id': string)
    requires ManifestKey(ns, id) == ManifestKey(ns, id')
    ensures id == id'
  {
    AfterPrefix("backups/", ns + ("/" + (id + "/manifest.json")), ns + ("/" + (id' + "/manifest.json")));
    AfterPrefix(ns, "/" + (id + "/manifest.json"), "/" + (id' + "/manifest.json"));
    AfterPrefix("/", id + "/manifest.json", id' + "/manifest.json");
    BeforeSuffix(id, id', "/manifest.json");
  }

  lemma BaseParts(sha: Sha, s: State, m: Manifest)
    requires Kept(sha, s, m)
    ensures StoredParts(sha, s.store, m.ns, SumsOf(m.attachments))
  {
    hide SegmentShaped, IsLegacy, PartKey;
    forall sum | sum in SumsOf(m.attachments)
      ensures NoSlash(sum) && exists size :: Good(sha, s.store, PartKey(m.ns, sum), sum, size)
    {
      var a, p :| a in m.attachments && p in a.parts && p.sum == sum;
      assert PartShaped(m.ns, p) && Good(sha, s.store, p.key, p.sum, p.size);
    }
  }

  lemma StartStep(sha: Sha, s: State, j: nat, a: Action, s': State)
    requires Inv(sha, s) && a.Start? && NoSlash(a.baseId) && Step(sha, s, j, a, s')
    ensures Inv(sha, s')
  {
    hide ManifestKey, Holds, Shaped, StoredParts, GroupOk;
    var base :| LoadsBase(s, a.ns, a.baseId, base) &&
      s' == s.(drawn := s.drawn + {a.id}, jobs := s.jobs[j := Job(Fresh(a.ns, a.id, base), base,
        if base.Against? then SumsOf(base.manifest.attachments) else {})]);
    if base.Against? {
      BaseOfNamespace(sha, s, a.ns, a.baseId, base);
      BaseParts(sha, s, base.manifest);
    }
    NewJob(sha, s.store, Fresh(a.ns, a.id, base));
    assert JobOk(sha, s', s'.jobs[j]);
  }

  lemma NewJob(sha: Sha, store: Store, m: Manifest)
    requires NoSlash(m.id) && m.segments == [] && m.attachments == []
    ensures Shaped(m) && Holds(sha, store, m) && StoredParts(sha, store, m.ns, {})
  {}

  /** A manifest goes up when everything it names is there. */
  lemma ManifestPut(sha: Sha, s: State, m: Manifest, s': State)
    requires Ideal(sha) && Inv(sha, s) && Shaped(m) && Holds(sha, s.store, m) && m.id !in s.done
    requires s'.store == s.store[ManifestKey(m.ns, m.id) := Doc(m)] && s'.done == s.done + {m.id}
    requires s'.drawn == s.drawn + {m.id}
    requires forall i :: i in s'.jobs ==> i in s.jobs && s'.jobs[i] == s.jobs[i] && s'.jobs[i].m.id != m.id
    ensures Inv(sha, s')
  {
    var at, x := AtManifest(m.ns, m.id), Doc(m);
    var s1 := After(sha, s, at, x);
    ShapedId(m);
    hide ManifestKey, Holds, Shaped, StoredParts, Ideal;
    PutKeeps(sha, s.store, at, x, m);
    forall key | key in s'.store && s'.store[key].Doc?
      ensures key == ManifestKey(s'.store[key].manifest.ns, s'.store[key].manifest.id)
      ensures Kept(sha, s', s'.store[key].manifest)
    {
      if key != ManifestKey(m.ns, m.id) {
        PutKeepsKept(sha, s, at, x, s.store[key].manifest);
        SameKept(sha, s1, s', s.store[key].manifest);
      }
    }
    forall i | i in s'.jobs ensures JobOk(sha, s', s'.jobs[i]) {
      PutKeepsJob(sha, s, at, x, i);
      if s'.jobs[i].base.Against? { SameKept(sha, s1, s', s'.jobs[i].base.manifest); }
    }
  }

  lemma FinishStep(sha: Sha, s: State, j: nat, a: Action, s': State)
    requires Ideal(sha) && Inv(sha, s) && a.Finish? && Step(sha, s, j, a, s')
    ensures Inv(sha, s')
  {
    hide ManifestKey, Holds, Shaped, StoredParts, Ideal, Kept, GroupOk;
    assert s'.drawn == s.drawn + {s.jobs[j].m.id};
    ManifestPut(sha, s, s.jobs[j].m, s');
  }

  lemma AdoptStep(sha: Sha, s: State, j: nat, a: Action, s': State)
    requires Ideal(sha) && Inv(sha, s) && a.Adopt? && Step(sha, s, j, a, s')
    ensures Inv(sha, s')
  {
    hide ManifestKey, Holds, Shaped, StoredParts, Ideal, Kept, GroupOk;
    ManifestPut(sha, s, a.manifest, s');
  }

  lemma GroupStep(sha: Sha, s: State, j: nat, a: Action, s': State)
    requires Ideal(sha) && Inv(sha, s) && a.FinishGroup? && Step(sha, s, j, a, s')
    ensures Inv(sha, s')
  {
    var at, x := AtGroup(a.group.id), GroupDoc(a.group);
    hide ManifestKey, DatabaseKey, Holds, Shaped, StoredParts, Ideal, Kept, JobOk;
    forall key | key in s'.store && s'.store[key].Doc?
      ensures key == ManifestKey(s'.store[key].manifest.ns, s'.store[key].manifest.id)
      ensures Kept(sha, s', s'.store[key].manifest)
    {
      PutKeepsKept(sha, s, at, x, s.store[key].manifest);
    }
    forall i | i in s'.jobs ensures JobOk(sha, s', s'.jobs[i]) { PutKeepsJob(sha, s, at, x, i); }
    forall key | key in s'.store && s'.store[key].GroupDoc?
      ensures key == DatabaseKey(s'.store[key].group.id) && GroupOk(s'.store, s'.store[key].group)
    {
      var g := s'.store[key].group;
      forall e | e in g.members ensures ManifestKey(e.ns, e.id) != DatabaseKey(a.group.id) {
        GroupApart(e.ns, e.id, a.group.id);
      }
    }
  }

  lemma GroupApart(ns: string, id: string, group: string)
    ensures ManifestKey(ns, id) != DatabaseKey(group)
  {
    hide ManifestKey, DatabaseKey;
    Families(ns, id, 0, "");
    Families("", group, 0, "");
  }

  /** Other writers keep to the trees no backup vouches for. */
  lemma OutsideStep(sha: Sha, s: State, j: nat, a: Action, s': State)
    requires Ideal(sha) && Inv(sha, s) && a.Outside? && Step(sha, s, j, a, s')
    ensures Inv(sha, s')
  {
    hide ManifestKey, DatabaseKey, Holds, Shaped, StoredParts, Ideal, FamilyOf;
    forall key | key in s'.store && s'.store[key].Doc?
      ensures key == ManifestKey(s'.store[key].manifest.ns, s'.store[key].manifest.id)
      ensures Kept(sha, s', s'.store[key].manifest)
    {
      OutsideKeeps(sha, s.store, s'.store, s.store[key].manifest);
    }
    forall i | i in s'.jobs ensures JobOk(sha, s', s'.jobs[i]) {
      var job := s.jobs[i];
      OutsideKeeps(sha, s.store, s'.store, job.m);
      OutsideKeepsStored(sha, s.store, s'.store, job.m.ns, job.stored);
      if job.base.Against? { OutsideKeeps(sha, s.store, s'.store, job.base.manifest); }
    }
    forall key | key in s'.store && s'.store[key].GroupDoc?
      ensures key == DatabaseKey(s'.store[key].group.id) && GroupOk(s'.store, s'.store[key].group)
    {
      forall e | e in s.store[key].group.members ensures FamilyOf(ManifestKey(e.ns, e.id)) == OfBackup {
        Families(e.ns, e.id, 0, "");
      }
    }
  }

  ghost predicate SameFamilies(store: Store, store': Store) {
    forall key :: FamilyOf(key) != OfNs && FamilyOf(key) != OfOther ==>
      (key in store' <==> key in store) && (key in store' ==> store'[key] == store[key])
  }

  lemma OutsideKeeps(sha: Sha, store: Store, store': Store, m: Manifest)
    requires Shaped(m) && Holds(sha, store, m) && SameFamilies(store, store')
    ensures Holds(sha, store', m)
    ensures forall key :: Names(m, key) ==> key in store && key in store' && store'[key] == store[key]
  {
    hide ManifestKey, ActiveKey, SealedKey, PartKey, LegacyKey, FamilyOf;
    forall e | e in m.segments && !IsLegacy(m.ns, e)
      ensures FamilyOf(e.key) == OfBackup || FamilyOf(e.key) == OfSegments
    {
      assert SegmentShaped(m.ns, m.id, e);
      Families(m.ns, m.id, e.number, e.sum);
    }
    forall a, p | a in m.attachments && p in a.parts ensures FamilyOf(p.key) == OfParts {
      assert PartShaped(m.ns, p);
      Families(m.ns, m.id, 0, p.sum);
    }
  }

  lemma OutsideKeepsStored(sha: Sha, store: Store, store': Store, ns: string, stored: set<string>)
    requires StoredParts(sha, store, ns, stored) && SameFamilies(store, store')
    ensures StoredParts(sha, store', ns, stored)
  {
    hide PartKey, FamilyOf;
    forall sum | sum in stored ensures FamilyOf(PartKey(ns, sum)) == OfParts { Families(ns, "", 0, sum); }
  }

  // ---------------------------------------------------------------- whole runs

  /** An incremental backup is taken against an identifier without slashes. */
  predicate PlainBase(a: Action) { a.Start? ==> NoSlash(a.baseId) }

  lemma StepKeepsInv(sha: Sha, s: State, j: nat, a: Action, s': State)
    requires Ideal(sha) && Inv(sha, s) && Step(sha, s, j, a, s') && PlainBase(a)
    ensures Inv(sha, s')
  {
    hide Inv, Step, Ideal;
    match a {
      case Start(_, _, _) => StartStep(sha, s, j, a, s');
      case PutActive(_, _) => ActiveStep(sha, s, j, a, s');
      case PutSealed(_, _) => SealedStep(sha, s, j, a, s');
      case Reuse(_, _) => ReuseStep(sha, s, j, a, s');
      case PutPart(_) => PartStep(sha, s, j, a, s');
      case AddAttachment(_, _, _) => AttachmentStep(sha, s, j, a, s');
      case Summarise(_, _) => SummariseStep(sha, s, j, a, s');
      case Finish => FinishStep(sha, s, j, a, s');
      case Crash => CrashStep(sha, s, j, a, s');
      case FinishGroup(_) => GroupStep(sha, s, j, a, s');
      case Adopt(_) => AdoptStep(sha, s, j, a, s');
      case Outside(_) => OutsideStep(sha, s, j, a, s');
    }
  }

  /** A manifest and all it vouches for are the same in both stores. */
  ghost predicate Untouched(store: Store, store': Store, key: string) {
    && key in store && store[key].Doc? && key in store' && store'[key] == store[key]
    && forall k :: Names(store[key].manifest, k) ==> k in store && k in store' && store'[k] == store[k]
  }

  lemma PutLeaves(sha: Sha, s: State, at: Place, x: Object, key: string)
    requires Ideal(sha) && Inv(sha, s) && key in s.store && s.store[key].Doc? && Welcome(s, at, x)
    requires at.AtManifest? ==> at.id !in s.done
    ensures Untouched(s.store, After(sha, s, at, x).store, key)
  {
    var m := s.store[key].manifest;
    hide Ideal, Holds, Names, KeyOf, ManifestKey, DatabaseKey, Padded, FamilyOf, ActiveKey, SealedKey, PartKey;
    PutKeeps(sha, s.store, at, x, m);
    ShapedId(m);
    KeyAvoids(sha, s, at, x, m);
  }

  lemma KeyAvoids(sha: Sha, s: State, at: Place, x: Object, m: Manifest)
    requires Ideal(sha) && Welcome(s, at, x) && NoSlash(m.id) && m.id in s.done && (at.AtManifest? ==> at.id !in s.done)
    ensures KeyOf(sha, at, x) != ManifestKey(m.ns, m.id)
  {
    hide Ideal, ManifestKey, DatabaseKey, Padded, FamilyOf, ActiveKey, SealedKey, PartKey;
    if x.Raw? {
      RawAvoidsDocs(sha, s, at, x, m.ns, m.id);
    } else if at.AtManifest? && KeyOf(sha, at, x) == ManifestKey(m.ns, m.id) {
      ManifestKeyDetermines(at.ns, at.id, m.ns, m.id);
    } else if at.AtGroup? {
      Families(m.ns, m.id, 0, "");
      Families("", at.id, 0, "");
    }
  }

  lemma OutsideLeaves(sha: Sha, s: State, store: Store, key: string)
    requires Inv(sha, s) && key in s.store && s.store[key].Doc? && SameFamilies(s.store, store)
    ensures Untouched(s.store, store, key)
  {
    var m := s.store[key].manifest;
    hide ManifestKey, FamilyOf, Names, Holds;
    Families(m.ns, m.id, 0, "");
    OutsideKeeps(sha, s.store, store, m);
  }

  /** No step changes a manifest in the store, or an object it vouches for. */
  lemma StepLeaves(sha: Sha, s: State, j: nat, a: Action, s': State, key: string)
    requires Ideal(sha) && Inv(sha, s) && Step(sha, s, j, a, s') && key in s.store && s.store[key].Doc?
    ensures Untouched(s.store, s'.store, key)
  {
    hide Ideal, Names, KeyOf, ManifestKey, ActiveKey, SealedKey, PartKey, Kept, Untouched, Shaped, Holds, StoredParts;
    if a.Outside? {
      OutsideLeaves(sha, s, s'.store, key);
    } else if a.FinishGroup? {
      PutLeaves(sha, s, AtGroup(a.group.id), GroupDoc(a.group), key);
      assert KeyOf(sha, AtGroup(a.group.id), GroupDoc(a.group)) == DatabaseKey(a.group.id) by {
        KeysOfPlaces(sha, "", a.group.id, 0, GroupDoc(a.group));
      }
    } else if a.Adopt? {
      ShapedId(a.manifest);
      KeysOfPlaces(sha, a.manifest.ns, a.manifest.id, 0, Doc(a.manifest));
      PutLeaves(sha, s, AtManifest(a.manifest.ns, a.manifest.id), Doc(a.manifest), key);
    } else if j in s.jobs {
      JobLeaves(sha, s, j, a, s', key);
    } else {
      Unchanged(sha, s, key);
    }
  }

  lemma Unchanged(sha: Sha, s: State, key: string)
    requires Inv(sha, s) && key in s.store && s.store[key].Doc?
    ensures Untouched(s.store, s.store, key)
  {
    hide ManifestKey, FamilyOf, Names, Holds, Shaped;
    OutsideLeaves(sha, s, s.store, key);
  }

  lemma KeysOfPlaces(sha: Sha, ns: string, id: string, n: Sequence, x: Object)
    ensures KeyOf(sha, AtGroup(id), x) == DatabaseKey(id) && KeyOf(sha, AtManifest(ns, id), x) == ManifestKey(ns, id)
    ensures KeyOf(sha, AtActive(ns, id, n), x) == ActiveKey(ns, id, n)
    ensures x.Raw? ==> KeyOf(sha, AtSealed(ns, n), x) == SealedKey(ns, n, sha(x.data))
    ensures x.Raw? ==> KeyOf(sha, AtPart(ns), x) == PartKey(ns, sha(x.data))
  {}

  lemma JobLeaves(sha: Sha, s: State, j: nat, a: Action, s': State, key: string)
    requires Ideal(sha) && Inv(sha, s) && Step(sha, s, j, a, s') && key in s.store && s.store[key].Doc?
    requires j in s.jobs && !a.Outside? && !a.FinishGroup? && !a.Adopt?
    ensures Untouched(s.store, s'.store, key)
  {
    hide Ideal, Names, KeyOf, ManifestKey, ActiveKey, SealedKey, PartKey, DatabaseKey, Kept, Untouched, Holds;
    hide StoredParts, Shaped, GroupOk;
    var m := s.jobs[j].m;
    ShapedId(m);
    match a {
      case PutActive(n, data) =>
        KeysOfPlaces(sha, m.ns, m.id, n, Raw(data));
        PutLeaves(sha, s, AtActive(m.ns, m.id, n), Raw(data), key);
      case PutSealed(n, data) =>
        KeysOfPlaces(sha, m.ns, m.id, n, Raw(data));
        PutLeaves(sha, s, AtSealed(m.ns, n), Raw(data), key);
      case PutPart(data) =>
        KeysOfPlaces(sha, m.ns, m.id, 0, Raw(data));
        PutLeaves(sha, s, AtPart(m.ns), Raw(data), key);
      case Finish =>
        KeysOfPlaces(sha, m.ns, m.id, 0, Doc(m));
        PutLeaves(sha, s, AtManifest(m.ns, m.id), Doc(m), key);
      case _ => Unchanged(sha, s, key);
    }
  }

  datatype Event = Event(job: nat, action: Action)

  /** A run: every state follows from the one before. */
  ghost predicate Run(sha: Sha, states: seq<State>, events: seq<Event>) {
    && |states| == |events| + 1
    && forall i :: 0 <= i < |events| ==> Step(sha, states[i], events[i].job, events[i].action, states[i + 1])
  }

  ghost predicate AllPlain(events: seq<Event>) { forall i :: 0 <= i < |events| ==> PlainBase(events[i].action) }

  /** In every run, whatever crashed or overlapped, every manifest in the store names only objects that
      are there and hash to what it recorded. */
  lemma {:induction false} RunKeepsInv(sha: Sha, states: seq<State>, events: seq<Event>, i: nat)
    requires Ideal(sha) && Run(sha, states, events) && AllPlain(events) && i < |states| && Inv(sha, states[0])
    ensures Inv(sha, states[i])
  {
    hide Inv, Step, Ideal;
    if i > 0 {
      RunKeepsInv(sha, states, events, i - 1);
      StepKeepsInv(sha, states[i - 1], events[i - 1].job, events[i - 1].action, states[i - 1 + 1]);
    }
  }

  /** And no later step of any run changes that manifest, or an object it vouches for. */
  lemma {:induction false} BackupsAreForever(sha: Sha, states: seq<State>, events: seq<Event>, i: nat, j: nat,
                                             key: string)
    requires Ideal(sha) && Run(sha, states, events) && AllPlain(events) && i <= j < |states| && Inv(sha, states[0])
    requires key in states[i].store && states[i].store[key].Doc?
    ensures Untouched(states[i].store, states[j].store, key)
    decreases j
  {
    hide Step, Ideal, Names, Kept, JobOk, GroupOk, ManifestKey;
    if i == j {
      RunKeepsInv(sha, states, events, i);
      Unchanged(sha, states[i], key);
    } else {
      BackupsAreForever(sha, states, events, i, j - 1, key);
      RunKeepsInv(sha, states, events, j - 1);
      StepLeaves(sha, states[j - 1], events[j - 1].job, events[j - 1].action, states[j - 1 + 1], key);
    }
  }

  // ---------------------------------------------------------------- legacy keys

  /** The object at `key` is the same, or there is none in either. */
  ghost predicate SameAt(store: Store, store': Store, key: string) {
    (key in store' <==> key in store) && (key in store' ==> store'[key] == store[key])
  }

  /** Nothing but a write from outside changes an object under a legacy key; nothing but that and the end of a
      database backup changes one under a group's. */
  lemma OnlyOutsideChangesLegacy(sha: Sha, s: State, j: nat, a: Action, s': State, key: string)
    requires Step(sha, s, j, a, s') && !a.Outside?
    requires FamilyOf(key) == OfNs || FamilyOf(key) == OfOther || (FamilyOf(key) == OfDatabase && !a.FinishGroup?)
    ensures SameAt(s.store, s'.store, key)
  {
    hide ManifestKey, ActiveKey, SealedKey, PartKey, DatabaseKey, FamilyOf, StillHolds, BaseEntry, LoadsBase;
    hide Holds, Shaped, PartsOf, SumsOf, Fresh;
    match a {
      case PutActive(n, data) => Families(s.jobs[j].m.ns, s.jobs[j].m.id, n, "");
      case PutSealed(n, data) => Families(s.jobs[j].m.ns, "", n, sha(data));
      case PutPart(data) => Families(s.jobs[j].m.ns, "", 0, sha(data));
      case Finish => Families(s.jobs[j].m.ns, s.jobs[j].m.id, 0, "");
      case Adopt(m) => Families(m.ns, m.id, 0, "");
      case FinishGroup(g) => Families("", g.id, 0, "");
      case _ =>
    }
  }

  /** From state `i` to state `j` no write from outside changes the object at `key`. */
  ghost predicate LeftAlone(states: seq<State>, events: seq<Event>, i: nat, j: nat, key: string)
    requires |states| == |events| + 1
  {
    forall k :: i <= k < j && k < |events| && events[k].action.Outside? ==>
      SameAt(states[k].store, states[k + 1].store, key)
  }

  lemma {:induction false} LegacyStays(sha: Sha, states: seq<State>, events: seq<Event>, i: nat, j: nat, key: string)
    requires Run(sha, states, events) && i <= j < |states| && FamilyOf(key) == OfNs
    requires LeftAlone(states, events, i, j, key)
    ensures SameAt(states[i].store, states[j].store, key)
    decreases j
  {
    hide Step, FamilyOf;
    if i < j {
      assert forall k :: i <= k < j - 1 && k < |events| && events[k].action.Outside? ==>
        SameAt(states[k].store, states[k + 1].store, key);
      LegacyStays(sha, states, events, i, j - 1, key);
      assert Step(sha, states[j - 1], events[j - 1].job, events[j - 1].action, states[j - 1 + 1]);
      if !events[j - 1].action.Outside? {
        OnlyOutsideChangesLegacy(sha, states[j - 1], events[j - 1].job, events[j - 1].action, states[j], key);
      } else {
        assert SameAt(states[j - 1].store, states[j - 1 + 1].store, key);
      }
    }
  }

  /** In every run, an entry taken over from a base holds when it is taken over, and from then on as long as
      nothing outside changes its object: so a legacy key is never named whose bytes were already overwritten. */
  lemma ReusedStaysGood(sha: Sha, states: seq<State>, events: seq<Event>, k: nat, j: nat)
    requires Ideal(sha) && Run(sha, states, events) && AllPlain(events) && Inv(sha, states[0])
    requires k < j < |states| && events[k].action.Reuse?
    ensures events[k].job in states[k].jobs && states[k].jobs[events[k].job].base.Against?
    ensures BaseEntry(states[k].jobs[events[k].job].base.manifest.segments, events[k].action.number) != []
    ensures var job, e := states[k].jobs[events[k].job],
                          BaseEntry(states[k].jobs[events[k].job].base.manifest.segments, events[k].action.number)[0];
      && Good(sha, states[k].store, e.key, e.sum, e.size)
      && (IsLegacy(job.m.ns, e) && LeftAlone(states, events, k, j, e.key) ==>
          Good(sha, states[j].store, e.key, e.sum, e.size))
  {
    hide Inv, Ideal, AllPlain, LeftAlone, FamilyOf, LegacyKey;
    RunKeepsInv(sha, states, events, k);
    assert Step(sha, states[k], events[k].job, events[k].action, states[k + 1]);
    ReuseStep(sha, states[k], events[k].job, events[k].action, states[k + 1]);
    var job := states[k].jobs[events[k].job];
    var e := BaseEntry(job.base.manifest.segments, events[k].action.number)[0];
    if IsLegacy(job.m.ns, e) && LeftAlone(states, events, k, j, e.key) {
      Families(job.m.ns, "", e.number, "");
      LegacyStays(sha, states, events, k, j, e.key);
    }
  }

  /** What a manifest says of the object at a legacy key is so. */
  ghost predicate EntriesHold(sha: Sha, store: Store, m: Manifest, key: string) {
    forall e :: e in m.segments && IsLegacy(m.ns, e) && e.key == key ==> Good(sha, store, e.key, e.sum, e.size)
  }

  /** And so it is of every manifest, in the store or on its way there. */
  ghost predicate LegacyOk(sha: Sha, s: State, key: string) {
    && (forall j :: j in s.jobs ==> EntriesHold(sha, s.store, s.jobs[j].m, key))
    && (forall k :: k in s.store && s.store[k].Doc? ==> EntriesHold(sha, s.store, s.store[k].manifest, key))
  }

  lemma SameEntries(sha: Sha, store: Store, store': Store, m: Manifest, key: string)
    requires SameAt(store, store', key) && EntriesHold(sha, store, m, key)
    ensures EntriesHold(sha, store', m, key)
  {}

  lemma OneMoreEntry(sha: Sha, store: Store, m: Manifest, e: Segment, key: string)
    requires EntriesHold(sha, store, m, key) && (e.key != key || StillHolds(sha, store, m.ns, e))
    ensures EntriesHold(sha, store, WithSegment(m, e), key)
  {
    hide LegacyKey;
  }

  /** A step by which a backup gets further. */
  predicate Works(a: Action) {
    a.Start? || a.PutActive? || a.PutSealed? || a.Reuse? || a.PutPart? || a.AddAttachment? || a.Summarise?
  }

  /** What job `j` has recorded after a step of its own. */
  lemma JobKeepsLegacy(sha: Sha, s: State, j: nat, a: Action, s': State, key: string)
    requires Step(sha, s, j, a, s') && LegacyOk(sha, s, key) && FamilyOf(key) == OfNs && j in s'.jobs
    requires Works(a)
    ensures EntriesHold(sha, s.store, s'.jobs[j].m, key)
  {
    hide ManifestKey, ActiveKey, SealedKey, LegacyKey, PartKey, FamilyOf, StillHolds, BaseEntry, LoadsBase, Good;
    hide PartsOf;
    match a {
      case PutActive(n, data) =>
        var m := s.jobs[j].m;
        Families(m.ns, m.id, n, "");
        OneMoreEntry(sha, s.store, m, Segment(n, sha(data), |data|, ActiveKey(m.ns, m.id, n), true), key);
      case PutSealed(n, data) =>
        var m := s.jobs[j].m;
        Families(m.ns, "", n, sha(data));
        OneMoreEntry(sha, s.store, m, Segment(n, sha(data), |data|, SealedKey(m.ns, n, sha(data)), false), key);
      case Reuse(n, data) =>
        OneMoreEntry(sha, s.store, s.jobs[j].m, BaseEntry(s.jobs[j].base.manifest.segments, n)[0], key);
      case Start(ns, id, baseId) => assert s'.jobs[j].m.segments == [];
      case PutPart(_) => assert EntriesHold(sha, s.store, s.jobs[j].m, key);
      case AddAttachment(_, _, _) => assert EntriesHold(sha, s.store, s.jobs[j].m, key);
      case Summarise(_, _) => assert EntriesHold(sha, s.store, s.jobs[j].m, key);
      case _ =>
    }
  }

  /** Where the manifests after a step come from. */
  lemma ManifestsAfter(sha: Sha, s: State, j: nat, a: Action, s': State)
    requires Step(sha, s, j, a, s')
    ensures forall i :: i in s'.jobs && i != j ==> i in s.jobs && s'.jobs[i] == s.jobs[i]
    ensures a.Finish? ==> j in s.jobs
    ensures forall k :: k in s'.store && s'.store[k].Doc? ==>
      || (k in s.store && s'.store[k] == s.store[k])
      || (a.Finish? && s'.store[k].manifest == s.jobs[j].m) || (a.Adopt? && s'.store[k].manifest == a.manifest)
    ensures j in s'.jobs && !Works(a) ==> j in s.jobs && s'.jobs[j] == s.jobs[j]
  {
    hide ManifestKey, ActiveKey, SealedKey, PartKey, DatabaseKey, FamilyOf, StillHolds, BaseEntry, LoadsBase, PartsOf;
    hide Holds, Shaped;
  }

  lemma StepKeepsLegacy(sha: Sha, s: State, j: nat, a: Action, s': State, key: string)
    requires Step(sha, s, j, a, s') && LegacyOk(sha, s, key) && FamilyOf(key) == OfNs
    requires a.Outside? ==> SameAt(s.store, s'.store, key)
    requires a.Adopt? ==> EntriesHold(sha, s.store, a.manifest, key)
    ensures LegacyOk(sha, s', key)
  {
    ManifestsAfter(sha, s, j, a, s');
    if !a.Outside? { OnlyOutsideChangesLegacy(sha, s, j, a, s', key); }
    if j in s'.jobs && (j !in s.jobs || s'.jobs[j] != s.jobs[j]) { JobKeepsLegacy(sha, s, j, a, s', key); }
    hide Step, FamilyOf, EntriesHold, SameAt;
    forall i | i in s'.jobs ensures EntriesHold(sha, s'.store, s'.jobs[i].m, key) {
      SameEntries(sha, s.store, s'.store, s'.jobs[i].m, key);
    }
    forall k | k in s'.store && s'.store[k].Doc? ensures EntriesHold(sha, s'.store, s'.store[k].manifest, key) {
      SameEntries(sha, s.store, s'.store, s'.store[k].manifest, key);
    }
  }

  /** The manifests of older backups that turn up say what is so of the object at `key`. */
  ghost predicate AdoptsWhole(sha: Sha, states: seq<State>, events: seq<Event>, key: string)
    requires |states| == |events| + 1
  {
    forall k :: 0 <= k < |events| && events[k].action.Adopt? ==>
      EntriesHold(sha, states[k].store, events[k].action.manifest, key)
  }

  /** In every run of overlapping backups, with a crash allowed between any two puts: as long as nothing outside
      changes the object at a legacy key, every manifest that names it is right about it. */
  lemma {:induction false} RunKeepsLegacy(sha: Sha, states: seq<State>, events: seq<Event>, i: nat, key: string)
    requires Run(sha, states, events) && i < |states| && FamilyOf(key) == OfNs && LegacyOk(sha, states[0], key)
    requires AdoptsWhole(sha, states, events, key) && LeftAlone(states, events, 0, i, key)
    ensures LegacyOk(sha, states[i], key)
  {
    if i > 0 {
      hide Step, FamilyOf, LegacyOk, EntriesHold, SameAt;
      assert LeftAlone(states, events, 0, i - 1, key);
      RunKeepsLegacy(sha, states, events, i - 1, key);
      assert Step(sha, states[i - 1], events[i - 1].job, events[i - 1].action, states[i - 1 + 1]);
      StepKeepsLegacy(sha, states[i - 1], events[i - 1].job, events[i - 1].action, states[i], key);
    }
  }

  lemma EmptyStore(sha: Sha)
    ensures Inv(sha, State(map[], map[], {}, {})) && forall key :: LegacyOk(sha, State(map[], map[], {}, {}), key)
  {}

  // ---------------------------------------------------------------- a base of another namespace

  /** Against an identifier that reaches into another namespace, a part the base stored there is taken
      to be stored here: the backup goes through, and its manifest names an object that is not there. */
  lemma ForeignBaseBreaks(sha: Sha, s: State, j: nat, ns: string, id: string, baseId: string, base: Base, name: string,
                          data: Bytes)
    returns (s1: State, s2: State, s3: State)
    requires LoadsBase(s, ns, baseId, base) && base.Against? && sha(data) in SumsOf(base.manifest.attachments)
    requires PartKey(ns, sha(data)) !in s.store && PartKey(ns, sha(data)) != ManifestKey(ns, id)
    requires j !in s.jobs && NoSlash(id) && id !in s.drawn
    ensures Step(sha, s, j, Start(ns, id, baseId), s1)
    ensures Step(sha, s1, j, AddAttachment(name, |data|, [data]), s2) && Step(sha, s2, j, Finish, s3)
    ensures ManifestKey(ns, id) in s3.store && s3.store[ManifestKey(ns, id)].Doc?
    ensures !Holds(sha, s3.store, s3.store[ManifestKey(ns, id)].manifest)
  {
    hide PartKey, ManifestKey, Holds;
    var job := Job(Fresh(ns, id, base), base, SumsOf(base.manifest.attachments));
    s1 := s.(drawn := s.drawn + {id}, jobs := s.jobs[j := job]);
    var a := Attachment(name, |data|, PartsOf(sha, ns, [data]));
    var job2 := job.(m := job.m.(attachments := [a]));
    assert [] + [a] == [a];
    s2 := s1.(jobs := s1.jobs[j := job2]);
    s3 := s2.(store := s2.store[ManifestKey(ns, id) := Doc(job2.m)], jobs := s2.jobs - {j}, done := s2.done + {id});
    Dangling(sha, s3.store, job2.m, a, PartOf(sha, ns, data));
  }

  lemma Dangling(sha: Sha, store: Store, m: Manifest, a: Attachment, p: Part)
    requires m.attachments == [a] && a.parts == [p] && p.key !in store
    ensures !Holds(sha, store, m)
  {
    assert a in m.attachments && p in a.parts;
  }

  /** A backup of a nested namespace is, by its key, also one of the namespace it is nested in. */
  lemma NestedKey(ns: string, inner: string, id: string)
    ensures ManifestKey(ns + ("/" + inner), id) == ManifestKey(ns, inner + ("/" + id))
  {
    assert (ns + ("/" + inner)) + ("/" + (id + "/manifest.json")) ==
      ns + ("/" + ((inner + ("/" + id)) + "/manifest.json"));
  }

  lemma PartApart(ns: string, inner: string, sum: string, id: string)
    requires NoSlash(sum)
    ensures PartKey(ns, sum) != PartKey(ns + ("/" + inner), sum) && PartKey(ns, sum) != ManifestKey(ns, id)
  {
    hide ManifestKey, PartKey;
    Families(ns, id, 0, sum);
    if PartKey(ns, sum) == PartKey(ns + ("/" + inner), sum) {
      PartKeyDetermines(ns, sum, ns + ("/" + inner), sum);
    }
  }

  /** It can always happen where one namespace is nested in another: the store of one finished backup of
      the inner namespace is enough. */
  lemma ForeignBaseReached(sha: Sha, ns: string, inner: string, id: string, other: string, data: Bytes)
    returns (s: State, base: Base)
    requires Ideal(sha) && NoSlash(id) && NoSlash(other) && other != id
    ensures Inv(sha, s) && s.jobs == map[] && other !in s.drawn
    ensures LoadsBase(s, ns, inner + ("/" + id), base) && base.Against?
    ensures sha(data) in SumsOf(base.manifest.attachments)
    ensures PartKey(ns, sha(data)) !in s.store && PartKey(ns, sha(data)) != ManifestKey(ns, other)
  {
    var nested := ns + ("/" + inner);
    var p := PartOf(sha, nested, data);
    var m := Manifest(1, nested, id, "", 0, {}, [], [Attachment("", |data|, [p])]);
    hide ManifestKey, PartKey, FamilyOf, Inv, SumsOf;
    NestedKey(ns, inner, id);
    PartApart(ns, inner, sha(data), other);
    PartApart(ns, inner, sha(data), inner + ("/" + id));
    PartApart(nested, "", sha(data), id);
    s := State(map[p.key := Raw(data), ManifestKey(nested, id) := Doc(m)], map[], {id}, {id});
    base := Against(m);
    assert inner + ("/" + id) != "";
    OnePart(sha, s, m, m.attachments[0], p);
    OneBackup(sha, s, m, p.key, data);
  }

  lemma OneBackup(sha: Sha, s: State, m: Manifest, key: string, data: Bytes)
    requires Kept(sha, s, m) && s.jobs == map[] && s.done == s.drawn
    requires s.store == map[key := Raw(data), ManifestKey(m.ns, m.id) := Doc(m)] && key != ManifestKey(m.ns, m.id)
    ensures Inv(sha, s)
  {
    hide Kept, ManifestKey;
  }

  lemma OnePart(sha: Sha, s: State, m: Manifest, a: Attachment, p: Part)
    requires m.segments == [] && m.attachments == [a] && a.parts == [p] && NoSlash(m.id) && m.id in s.done
    requires PartShaped(m.ns, p) && Good(sha, s.store, p.key, p.sum, p.size)
    ensures Kept(sha, s, m) && p.sum in SumsOf(m.attachments)
  {
    hide PartShaped, Good;
    assert a in m.attachments && p in a.parts;
  }
}
