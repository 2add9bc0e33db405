/** Backing up a whole database (go/kdb/backup/database.go): the namespaces one after another, and the
    manifest that groups them last. */
module DatabaseBackup {
  import opened Keys
  import opened BackupRuns
  import opened BackupCreate

  datatype Namespace = Namespace(
    ns: string, id: string, baseId: string, log: seq<LogSegment>, listed: seq<StoreSegment>)

  datatype DatabaseResult = Grouped(group: Group) | Abandoned

  /** The backup identifiers are fresh, and the bases are named by identifiers without slashes. */
  ghost predicate Fresh(namespaces: seq<Namespace>, drawn: set<string>) {
    && (forall i :: 0 <= i < |namespaces| ==>
          NoSlash(namespaces[i].id) && namespaces[i].id !in drawn && NoSlash(namespaces[i].baseId))
    && forall i, k :: 0 <= i < k < |namespaces| ==> namespaces[i].id != namespaces[k].id
  }

  ghost predicate Present(objects: Store, members: seq<Member>) {
    forall i :: 0 <= i < |members| ==> InStore(objects, members[i])
  }

  ghost predicate InStore(objects: Store, e: Member) {
    ManifestKey(e.ns, e.id) in objects && objects[ManifestKey(e.ns, e.id)].Doc?
  }

  /** A backup made while others are in the store leaves them there. */
  lemma StillPresent(st: ObjectStore, from: nat, members: seq<Member>)
    requires st.Recording() && Ideal(st.sha) && AllPlain(st.events) && from < |st.states| && Inv(st.sha, st.states[0])
    requires Present(st.states[from].store, members)
    ensures Present(st.objects, members)
  {
    hide Run, Ideal, Inv, AllPlain, ManifestKey;
    forall i | 0 <= i < |members| ensures InStore(st.objects, members[i]) {
      var e := members[i];
      assert InStore(st.states[from].store, e);
      BackupsAreForever(st.sha, st.states, st.events, from, |st.states| - 1, ManifestKey(e.ns, e.id));
    }
  }

  /** The same groups are in the store, but for the one at `except`. */
  ghost predicate SameGroups(was: Store, now: Store, except: set<string>) {
    forall key :: key !in except ==>
      (IsGroup(now, key) <==> IsGroup(was, key)) && (IsGroup(now, key) ==> now[key] == was[key])
  }

  ghost predicate IsGroup(objects: Store, key: string) { key in objects && objects[key].GroupDoc? }

  /** Groups are only ever kept under their own keys, and no backup of a namespace writes there. */
  lemma GroupsStay(st: ObjectStore, was: Store, from: nat)
    requires st.Recording() && Ideal(st.sha) && AllPlain(st.events) && from < |st.states| && Inv(st.sha, st.states[0])
    requires was == st.states[from].store && SameElsewhere(was, st.objects)
    ensures SameGroups(was, st.objects, {})
  {
    hide Run, Ideal, AllPlain, DatabaseKey, ManifestKey, FamilyOf, Names, Shaped, Holds, JobOk, GroupOk;
    RunKeepsInv(st.sha, st.states, st.events, from);
    RunKeepsInv(st.sha, st.states, st.events, |st.states| - 1);
    forall key | IsGroup(was, key) || IsGroup(st.objects, key) ensures SameAt(was, st.objects, key) {
      if IsGroup(was, key) { Families("", was[key].group.id, 0, ""); }
      if IsGroup(st.objects, key) { Families("", st.objects[key].group.id, 0, ""); }
    }
  }

  lemma GroupsSame(objects: Store)
    ensures SameGroups(objects, objects, {})
  {}

  lemma GroupsOn(was: Store, mid: Store, now: Store, except: set<string>)
    requires SameGroups(was, mid, {}) && SameGroups(mid, now, except)
    ensures SameGroups(was, now, except)
  {}

  /** A backup to take an incremental against can be loaded. */
  ghost predicate Loadable(objects: Store, ns: string, id: string) { Load(objects, ns, id) != NoBase }

  /** The backups that can be loaded are those that could and one more. */
  ghost predicate Gained(was: Store, now: Store, ns: string, id: string) {
    forall n, b :: NoSlash(b) ==> (Loadable(now, n, b) <==> Loadable(was, n, b) || (n == ns && b == id))
  }

  lemma GainsOne(st: ObjectStore, was: Store, from: nat, m: Manifest)
    requires st.Recording() && Ideal(st.sha) && AllPlain(st.events) && from < |st.states| && Inv(st.sha, st.states[0])
    requires was == st.states[from].store && OneNewDoc(was, st.objects, ManifestKey(m.ns, m.id))
    requires HasManifest(st.objects, m) && m.version == 1 && NoSlash(m.id)
    ensures Gained(was, st.objects, m.ns, m.id)
  {
    hide Run, Ideal, Inv, AllPlain, ManifestKey;
    forall n, b | NoSlash(b)
      ensures Loadable(st.objects, n, b) <==> Loadable(was, n, b) || (n == m.ns && b == m.id)
    {
      if Loadable(was, n, b) {
        BackupsAreForever(st.sha, st.states, st.events, from, |st.states| - 1, ManifestKey(n, b));
      }
      if ManifestKey(n, b) == ManifestKey(m.ns, m.id) { ManifestKeyDetermines(n, b, m.ns, m.id); }
    }
  }

  /** A backup made by this very pass before its `i`-th namespace. */
  ghost predicate MadeBefore(namespaces: seq<Namespace>, i: nat, ns: string, id: string) {
    exists k :: 0 <= k < i && k < |namespaces| && namespaces[k].ns == ns && namespaces[k].id == id
  }

  /** What can be loaded once `i` namespaces are backed up. */
  ghost predicate LoadsSoFar(was: Store, now: Store, namespaces: seq<Namespace>, i: nat) {
    forall n, b :: NoSlash(b) ==> (Loadable(now, n, b) <==> Loadable(was, n, b) || MadeBefore(namespaces, i, n, b))
  }

  lemma LoadsAtFirst(was: Store, namespaces: seq<Namespace>)
    ensures LoadsSoFar(was, was, namespaces, 0)
  {}

  lemma LoadsOn(was: Store, mid: Store, now: Store, namespaces: seq<Namespace>, i: nat)
    requires i < |namespaces| && LoadsSoFar(was, mid, namespaces, i)
    requires Gained(mid, now, namespaces[i].ns, namespaces[i].id)
    ensures LoadsSoFar(was, now, namespaces, i + 1)
  {
    hide Loadable;
    forall n, b
      ensures MadeBefore(namespaces, i + 1, n, b) <==>
              MadeBefore(namespaces, i, n, b) || (n == namespaces[i].ns && b == namespaces[i].id)
    {
      if MadeBefore(namespaces, i, n, b) {
        var k :| 0 <= k < i && k < |namespaces| && namespaces[k].ns == n && namespaces[k].id == b;
        assert k < i + 1;
      }
    }
  }

  /** The log and the attachments of a namespace can be read, and every segment of the log verifies. */
  ghost predicate Sound(n: Namespace, partBytes: nat) {
    partBytes > 0 && n.log != [] && AllVerified(n.log) && AllReadable(n.log) && AllRead(n.ns, n.listed, partBytes)
  }

  /** Its base is one there was, or one this pass has made. */
  ghost predicate HasBase(was: Store, namespaces: seq<Namespace>, i: nat)
    requires i < |namespaces|
  {
    var n := namespaces[i];
    n.baseId == "" || Loadable(was, n.ns, n.baseId) || MadeBefore(namespaces, i, n.ns, n.baseId)
  }

  /** CreateDatabase: the group manifest is put only when every namespace's backup is in the store; if the
      backup is abandoned, wherever it stopped, the groups in the store are exactly those that were there, and
      if not, this one is all that is new. */
  method CreateDatabase(st: ObjectStore, ghost j: nat, id: string, namespaces: seq<Namespace>, partBytes: nat)
    returns (r: DatabaseResult)
    requires partBytes > 0 && st.Recording() && Ideal(st.sha) && AllPlain(st.events) && Inv(st.sha, st.states[0])
    requires j !in st.Now().jobs && Fresh(namespaces, st.Now().drawn)
    modifies st
    ensures st.Recording() && AllPlain(st.events) && old(st.states) <= st.states
    ensures namespaces == [] ==> r.Abandoned? && st.objects == old(st.objects)
    ensures r.Grouped? ==> |r.group.members| == |namespaces| && Present(st.objects, r.group.members)
    ensures r.Grouped? ==>
            forall i :: 0 <= i < |namespaces| ==> r.group.members[i] == Member(namespaces[i].ns, namespaces[i].id)
    ensures r.Grouped? ==> DatabaseKey(id) in st.objects && st.objects[DatabaseKey(id)] == GroupDoc(r.group)
    ensures SameGroups(old(st.objects), st.objects, if r.Grouped? then {DatabaseKey(id)} else {})
    ensures r.Grouped? <==>
      && namespaces != [] && st.failures == old(st.failures)
      && forall i :: 0 <= i < |namespaces| ==>
           Sound(namespaces[i], partBytes) && HasBase(old(st.objects), namespaces, i)
  {
    hide Run, Step, Ideal, Inv, ManifestKey, DatabaseKey, AllPlain, SameGroups, Sound, Loadable, MadeBefore;
    GroupsSame(st.objects);
    if namespaces == [] { return Abandoned; }
    var members: seq<Member> := [];
    LoadsAtFirst(st.objects, namespaces);
    for i := 0 to |namespaces|
      invariant st.Recording() && AllPlain(st.events) && old(st.states) <= st.states && |members| == i
      invariant st.Now().jobs.Keys == old(st.Now()).jobs.Keys
      invariant forall k :: i <= k < |namespaces| ==> namespaces[k].id !in st.Now().drawn
      invariant Present(st.objects, members) && SameGroups(old(st.objects), st.objects, {})
      invariant forall k :: 0 <= k < i ==> members[k] == Member(namespaces[k].ns, namespaces[k].id)
      invariant st.failures == old(st.failures) && LoadsSoFar(old(st.objects), st.objects, namespaces, i)
      invariant forall k :: 0 <= k < i ==> Sound(namespaces[k], partBytes) && HasBase(old(st.objects), namespaces, k)
    {
      ghost var was := st.objects;
      var ok := BackupNamespace(st, j, namespaces[i], partBytes, members);
      GroupsOn(old(st.objects), was, st.objects, {});
      assert Loadable(was, namespaces[i].ns, namespaces[i].baseId) || namespaces[i].baseId == "" <==>
             HasBase(old(st.objects), namespaces, i);
      if !ok { return Abandoned; }
      LoadsOn(old(st.objects), was, st.objects, namespaces, i);
      members := members + [Member(namespaces[i].ns, namespaces[i].id)];
    }
    var group := Group(id, members);
    ghost var was := st.objects;
    r := PutGroup(st, j, group);
    GroupsOn(old(st.objects), was, st.objects, if r.Grouped? then {DatabaseKey(id)} else {});
  }

  /** The loop body of CreateDatabase. */
  method BackupNamespace(st: ObjectStore, ghost j: nat, n: Namespace, partBytes: nat, ghost members: seq<Member>)
    returns (ok: bool)
    requires partBytes > 0 && st.Recording() && Ideal(st.sha) && AllPlain(st.events) && Inv(st.sha, st.states[0])
    requires j !in st.Now().jobs && NoSlash(n.id) && NoSlash(n.baseId) && n.id !in st.Now().drawn
    requires Present(st.objects, members)
    modifies st
    ensures st.Recording() && AllPlain(st.events) && old(st.states) <= st.states
    ensures ok ==> st.Now().jobs.Keys == old(st.Now()).jobs.Keys && st.Now().drawn == old(st.Now()).drawn + {n.id}
    ensures ok ==> Present(st.objects, members + [Member(n.ns, n.id)])
    ensures ok <==>
      && Sound(n, partBytes) && (n.baseId == "" || Loadable(old(st.objects), n.ns, n.baseId))
      && st.failures == old(st.failures)
    ensures ok ==> Gained(old(st.objects), st.objects, n.ns, n.id)
    ensures SameGroups(old(st.objects), st.objects, {})
  {
    hide Run, Step, Ideal, Inv, ManifestKey, DatabaseKey, Load, AllPlain, SameGroups, SameElsewhere;
    hide OnlyOldDocs, OneNewDoc, LegacyHold, Records, AllRead, Attached, Gained, AllReadable, AllVerified;
    ghost var from := |st.states| - 1;
    var made := CreateWithOptions(st, j, n.ns, n.id, n.baseId, n.log, n.listed, partBytes);
    ok := made.Created?;
    GroupsStay(st, old(st.objects), from);
    if ok {
      StillPresent(st, from, members);
      GainsOne(st, old(st.objects), from, made.m);
    }
  }

  method PutGroup(st: ObjectStore, ghost j: nat, group: Group) returns (r: DatabaseResult)
    requires st.Recording() && AllPlain(st.events) && Present(st.objects, group.members)
    modifies st
    ensures st.Recording() && AllPlain(st.events) && old(st.states) <= st.states
    ensures r.Abandoned? ==> st.objects == old(st.objects)
    ensures r.Grouped? <==> st.failures == old(st.failures)
    ensures r.Grouped? ==> r.group == group && st.objects == old(st.objects)[DatabaseKey(group.id) := GroupDoc(group)]
    ensures SameGroups(old(st.objects), st.objects, if r.Grouped? then {DatabaseKey(group.id)} else {})
    ensures r.Grouped? ==> Present(st.objects, group.members)
  {
    hide Run, ManifestKey, DatabaseKey;
    ghost var next := st.Now().(store := st.Now().store[DatabaseKey(group.id) := GroupDoc(group)]);
    forall e | e in group.members ensures InStore(st.objects, e) {
      var i :| 0 <= i < |group.members| && group.members[i] == e;
    }
    ghost var was := st.objects;
    var ok := st.Put(DatabaseKey(group.id), GroupDoc(group), Event(j, FinishGroup(group)), next);
    if !ok { return Abandoned; }
    forall i | 0 <= i < |group.members| ensures InStore(st.objects, group.members[i]) {
      assert InStore(was, group.members[i]);
      GroupApart(group.members[i].ns, group.members[i].id, group.id);
    }
    return Grouped(group);
  }
}
