/** Compare-and-swap (go/kdb/client/conditional.go, with the server's side of a conditional write from
    go/kdb/transaction/default_engine.go and prepare.go): any number of clients reading, updating and writing
    back one document under a literal precondition, beside other writers, with refusals and lost replies. */
module CompareAndSwap {
  datatype Content = Absent | Present(json: string)

  /** What an update function answers: a body to write, "leave it alone", or an error. */
  datatype Answer = Write(json: string) | Leave | Fault

  type Update = Content -> Answer

  /** The content hash of a document's JSON. */
  type Hash = string -> nat

  /** A patch laid over a document's JSON. */
  type Merge = (string, string) -> string

  ghost predicate Injective(hash: Hash) { forall a, b :: hash(a) == hash(b) ==> a == b }

  /** The document at first, and how documents are hashed and merged. */
  datatype World = World(start: Content, hash: Hash, merge: Merge)

  // ---------------------------------------------------------------- the server

  datatype Precondition = ExpectAbsent | ExpectHash(hash: nat)

  /** preconditionHolds. */
  predicate Holds(hash: Hash, p: Precondition, doc: Content) {
    match p
    case ExpectAbsent => doc == Absent
    case ExpectHash(h) => doc.Present? && hash(doc.json) == h
  }

  /** PutIfAbsent for a document that was not there, ReplaceIf for one that was. */
  function Expecting(hash: Hash, seen: Content): Precondition {
    if seen == Absent then ExpectAbsent else ExpectHash(hash(seen.json))
  }

  /** The precondition a client sends holds exactly when the document is what the client read. */
  lemma PreconditionIsLiteral(hash: Hash, seen: Content, doc: Content)
    requires Injective(hash)
    ensures Holds(hash, Expecting(hash, seen), doc) <==> doc == seen
  {}

  /** What the server stores: ReplaceIf replaces the document, but PutIfAbsent is a patch of the document as it
      was at the version the client anchors its write on, if it was there then. */
  function Stored(merge: Merge, p: Precondition, base: Content, json: string): string {
    if p == ExpectAbsent && base.Present? then merge(base.json, json) else json
  }

  /** One change of the document, in commit order. */
  datatype Commit = Swap(call: nat, stored: string) | Foreign(content: Content)

  function Made(x: Commit): Content { if x.Swap? then Present(x.stored) else x.content }

  /** The document at version `i`, that is after that many commits. */
  function At(start: Content, log: seq<Commit>, i: nat): Content
    requires i <= |log|
  {
    if i == 0 then start else Made(log[i - 1])
  }

  /** Commit `i`, if it is a swap, is its call's update of the very content it replaces, as the server stores it
      against some version up to then. */
  ghost predicate Explained(w: World, updates: map<nat, Update>, log: seq<Commit>, i: nat)
    requires i < |log|
  {
    log[i].Swap? ==>
      && log[i].call in updates && updates[log[i].call](At(w.start, log, i)).Write?
      && exists b :: 0 <= b <= i && StoredAgainst(w, updates, log, i, b)
  }

  ghost predicate StoredAgainst(w: World, updates: map<nat, Update>, log: seq<Commit>, i: nat, b: nat)
    requires b <= i < |log| && log[i].Swap?
    requires log[i].call in updates && updates[log[i].call](At(w.start, log, i)).Write?
  {
    var before := At(w.start, log, i);
    log[i].stored == Stored(w.merge, Expecting(w.hash, before), At(w.start, log, b), updates[log[i].call](before).json)
  }

  /** Commit `i`, if it is a swap, makes the document exactly what its call's update made of the content replaced. */
  ghost predicate Exact(w: World, updates: map<nat, Update>, log: seq<Commit>, i: nat)
    requires i < |log|
  {
    log[i].Swap? ==> log[i].call in updates && updates[log[i].call](At(w.start, log, i)) == Write(log[i].stored)
  }

  ghost predicate AllExplained(w: World, updates: map<nat, Update>, log: seq<Commit>) {
    forall i :: 0 <= i < |log| ==> Explained(w, updates, log, i)
  }

  ghost predicate AllExact(w: World, updates: map<nat, Update>, log: seq<Commit>) {
    forall i :: 0 <= i < |log| ==> Exact(w, updates, log, i)
  }

  predicate IsSwap(x: Commit, c: nat) { x.Swap? && x.call == c }

  function Count(log: seq<Commit>, c: nat): nat {
    if log == [] then 0 else Count(log[..|log| - 1], c) + if IsSwap(log[|log| - 1], c) then 1 else 0
  }

  lemma CountOn(log: seq<Commit>, x: Commit)
    ensures forall c :: Count(log + [x], c) == Count(log, c) + if IsSwap(x, c) then 1 else 0
  {
    assert (log + [x])[..|log|] == log;
  }

  lemma AtOn(start: Content, log: seq<Commit>, x: Commit)
    ensures At(start, log + [x], |log| + 1) == Made(x)
    ensures forall i :: 0 <= i <= |log| ==> At(start, log + [x], i) == At(start, log, i)
  {}

  lemma ExplainedOn(w: World, updates: map<nat, Update>, log: seq<Commit>, x: Commit, i: nat)
    requires i < |log| && Explained(w, updates, log, i)
    ensures Explained(w, updates, log + [x], i)
  {
    hide Stored, Expecting;
    AtOn(w.start, log, x);
    if log[i].Swap? {
      var b :| 0 <= b <= i && StoredAgainst(w, updates, log, i, b);
      assert StoredAgainst(w, updates, log + [x], i, b);
    }
  }

  lemma Appended(w: World, updates: map<nat, Update>, log: seq<Commit>, x: Commit)
    requires AllExplained(w, updates, log) && Explained(w, updates, log + [x], |log|)
    ensures AllExplained(w, updates, log + [x])
    ensures AllExact(w, updates, log + [x]) <==> AllExact(w, updates, log) && Exact(w, updates, log + [x], |log|)
  {
    hide At, Explained;
    AtOn(w.start, log, x);
    forall i | 0 <= i < |log|
      ensures Explained(w, updates, log + [x], i) && (Exact(w, updates, log + [x], i) <==> Exact(w, updates, log, i))
    {
      ExplainedOn(w, updates, log, x, i);
    }
    if AllExact(w, updates, log + [x]) {
      forall i | 0 <= i < |log| ensures Exact(w, updates, log, i) { assert Exact(w, updates, log + [x], i); }
    }
  }

  // ---------------------------------------------------------------- the machine

  datatype Outcome =
    | Success
    | GaveUp               // every attempt lost its race
    | Aborted              // the update declined
    | Failed               // an error that is not retried, with nothing written
    | Unknown(done: bool)  // no reply to a write; `done` says whether it was applied

  datatype Phase = Reading | Writing(seen: Content, json: string) | Over(outcome: Outcome)

  datatype Call = Call(left: nat, phase: Phase)

  datatype State = State(doc: Content, log: seq<Commit>, updates: map<nat, Update>, calls: map<nat, Call>)

  /** maxAttempts, 5 unless positive. */
  function Attempts(max: int): (n: nat)
    ensures n > 0
  {
    if max <= 0 then 5 else max
  }

  /** A write is anchored on version `base`, the head the client happened to know. */
  datatype Step =
    | Begin(c: nat, update: Update, max: int)
    | Read(c: nat)
    | ReadFails(c: nat)
    | Send(c: nat, base: nat)
    | SendLost(c: nat, base: nat, arrives: bool)
    | SendConflict(c: nat)
    | SendFails(c: nat)
    | Other(content: Content)

  predicate Enabled(s: State, a: Step) {
    match a
    case Begin(c, _, _) => c !in s.calls
    case Read(c) => c in s.calls && c in s.updates && s.calls[c].phase == Reading
    case ReadFails(c) => c in s.calls && s.calls[c].phase == Reading
    case Send(c, base) => c in s.calls && s.calls[c].phase.Writing? && base <= |s.log|
    case SendLost(c, base, _) => c in s.calls && s.calls[c].phase.Writing? && base <= |s.log|
    case SendConflict(c) => c in s.calls && s.calls[c].phase.Writing?
    case SendFails(c) => c in s.calls && s.calls[c].phase.Writing?
    case Other(_) => true
  }

  function With(s: State, c: nat, call: Call): State { s.(calls := s.calls[c := call]) }

  function Ends(s: State, c: nat, o: Outcome): State
    requires c in s.calls
  {
    With(s, c, s.calls[c].(phase := Over(o)))
  }

  /** After a lost race: another attempt, which reads again, or none left. */
  function Retry(s: State, c: nat): State
    requires c in s.calls
  {
    if s.calls[c].left <= 1 then Ends(s, c, GaveUp) else With(s, c, Call(s.calls[c].left - 1, Reading))
  }

  /** What the call's write would store. */
  function Stores(w: World, s: State, c: nat, base: nat): string
    requires c in s.calls && s.calls[c].phase.Writing? && base <= |s.log|
  {
    Stored(w.merge, Expecting(w.hash, s.calls[c].phase.seen), At(w.start, s.log, base), s.calls[c].phase.json)
  }

  function Applied(w: World, s: State, c: nat, base: nat): State
    requires c in s.calls && s.calls[c].phase.Writing? && base <= |s.log|
  {
    var json := Stores(w, s, c, base);
    s.(doc := Present(json), log := s.log + [Swap(c, json)])
  }

  /** The write that is sent reaches the server, and its precondition holds there. */
  predicate Lands(w: World, s: State, a: Step) {
    && (a.Send? || (a.SendLost? && a.arrives)) && Enabled(s, a)
    && Holds(w.hash, Expecting(w.hash, s.calls[a.c].phase.seen), s.doc)
  }

  function Next(w: World, s: State, a: Step): State
    requires Enabled(s, a)
  {
    match a
    case Begin(c, f, max) => With(s, c, Call(Attempts(max), Reading)).(updates := s.updates[c := f])
    case Read(c) =>
      (match s.updates[c](s.doc)
       case Write(json) => With(s, c, s.calls[c].(phase := Writing(s.doc, json)))
       case Leave => Ends(s, c, Aborted)
       case Fault => Ends(s, c, Failed))
    case ReadFails(c) => Ends(s, c, Failed)
    case Send(c, base) => if Lands(w, s, a) then Ends(Applied(w, s, c, base), c, Success) else Retry(s, c)
    case SendLost(c, base, _) =>
      if Lands(w, s, a) then Ends(Applied(w, s, c, base), c, Unknown(true)) else Ends(s, c, Unknown(false))
    case SendConflict(c) => Retry(s, c)
    case SendFails(c) => Ends(s, c, Failed)
    case Other(x) => s.(doc := x, log := s.log + [Foreign(x)])
  }

  // ---------------------------------------------------------------- what every step keeps

  /** Whether the call's write is in the document's history. */
  predicate Wrote(call: Call) { call.phase == Over(Success) || call.phase == Over(Unknown(true)) }

  ghost predicate CallOk(s: State, c: nat)
    requires c in s.calls
  {
    && c in s.updates && s.calls[c].left > 0
    && (s.calls[c].phase.Writing? ==> s.updates[c](s.calls[c].phase.seen) == Write(s.calls[c].phase.json))
    && Count(s.log, c) == if Wrote(s.calls[c]) then 1 else 0
  }

  ghost predicate Inv(w: World, s: State) {
    && s.doc == At(w.start, s.log, |s.log|) && AllExplained(w, s.updates, s.log)
    && (forall c :: c in s.calls ==> CallOk(s, c))
    && (forall c :: c !in s.calls ==> c !in s.updates && Count(s.log, c) == 0)
  }

  lemma {:induction false} NotCounted(log: seq<Commit>, c: nat, i: nat)
    requires Count(log, c) == 0 && i < |log|
    ensures !IsSwap(log[i], c)
    decreases |log|
  {
    if i < |log| - 1 { NotCounted(log[..|log| - 1], c, i); }
  }

  lemma SameUpdates(w: World, updates: map<nat, Update>, c: nat, f: Update, log: seq<Commit>)
    requires Count(log, c) == 0 && AllExplained(w, updates, log)
    ensures AllExplained(w, updates[c := f], log)
    ensures AllExact(w, updates[c := f], log) <==> AllExact(w, updates, log)
  {
    hide At, Stored, Expecting, Count;
    var updates' := updates[c := f];
    forall i | 0 <= i < |log|
      ensures Explained(w, updates', log, i) && (Exact(w, updates', log, i) <==> Exact(w, updates, log, i))
    {
      NotCounted(log, c, i);
      assert Explained(w, updates, log, i);
      if log[i].Swap? {
        var b :| 0 <= b <= i && StoredAgainst(w, updates, log, i, b);
        assert StoredAgainst(w, updates', log, i, b);
      }
    }
    if AllExact(w, updates', log) {
      forall i | 0 <= i < |log| ensures Exact(w, updates, log, i) { assert Exact(w, updates', log, i); }
    }
  }

  lemma BeginStep(w: World, s: State, a: Step)
    requires Inv(w, s) && a.Begin? && Enabled(s, a)
    ensures Inv(w, Next(w, s, a))
    ensures AllExact(w, Next(w, s, a).updates, s.log) <==> AllExact(w, s.updates, s.log)
  {
    hide At, AllExplained, AllExact, Count;
    SameUpdates(w, s.updates, a.c, a.update, s.log);
    var s' := Next(w, s, a);
    forall c | c in s'.calls ensures CallOk(s', c) { if c != a.c { assert CallOk(s, c); } }
  }

  /** A write that gets through is the update of the very content it replaces, and what is stored is that very
      update unless the document was absent and is patched from a version at which it was not. */
  lemma AppliedStep(w: World, s: State, c: nat, base: nat, o: Outcome)
    requires Injective(w.hash) && Inv(w, s) && c in s.calls && s.calls[c].phase.Writing? && base <= |s.log|
    requires Holds(w.hash, Expecting(w.hash, s.calls[c].phase.seen), s.doc) && (o == Success || o == Unknown(true))
    ensures Inv(w, Ends(Applied(w, s, c, base), c, o))
    ensures AllExact(w, s.updates, Applied(w, s, c, base).log) <==>
            AllExact(w, s.updates, s.log) && Stores(w, s, c, base) == s.calls[c].phase.json
  {
    hide Count, AllExplained, AllExact;
    PreconditionIsLiteral(w.hash, s.calls[c].phase.seen, s.doc);
    assert CallOk(s, c);
    var x := Swap(c, Stores(w, s, c, base));
    AtOn(w.start, s.log, x);
    LastExplained(w, s, c, base);
    Appended(w, s.updates, s.log, x);
    CountOn(s.log, x);
    var s' := Ends(Applied(w, s, c, base), c, o);
    forall d | d in s'.calls ensures CallOk(s', d) { assert CallOk(s, d); }
  }

  lemma LastExplained(w: World, s: State, c: nat, base: nat)
    requires c in s.calls && s.calls[c].phase.Writing? && base <= |s.log| && CallOk(s, c)
    requires s.calls[c].phase.seen == s.doc == At(w.start, s.log, |s.log|)
    ensures Explained(w, s.updates, Applied(w, s, c, base).log, |s.log|)
    ensures Exact(w, s.updates, Applied(w, s, c, base).log, |s.log|) <==> Stores(w, s, c, base) == s.calls[c].phase.json
  {
    hide Count, Stored, Expecting, At;
    var x := Swap(c, Stores(w, s, c, base));
    AtOn(w.start, s.log, x);
    assert StoredAgainst(w, s.updates, s.log + [x], |s.log|, base);
  }

  /** Steps that leave the document alone. */
  lemma QuietStep(w: World, s: State, c: nat, call: Call)
    requires Inv(w, s) && c in s.calls && call.left > 0 && !Wrote(call) && !Wrote(s.calls[c])
    requires call.phase.Writing? ==> c in s.updates && s.updates[c](call.phase.seen) == Write(call.phase.json)
    ensures Inv(w, With(s, c, call))
  {
    hide At, AllExplained, Count;
    var s' := With(s, c, call);
    forall d | d in s'.calls ensures CallOk(s', d) { assert CallOk(s, d); }
  }

  lemma OtherStep(w: World, s: State, a: Step)
    requires Inv(w, s) && a.Other?
    ensures Inv(w, Next(w, s, a))
    ensures AllExact(w, s.updates, Next(w, s, a).log) <==> AllExact(w, s.updates, s.log)
  {
    hide At, AllExplained, AllExact, Count;
    var x := Foreign(a.content);
    AtOn(w.start, s.log, x);
    Appended(w, s.updates, s.log, x);
    CountOn(s.log, x);
    var s' := Next(w, s, a);
    forall d | d in s'.calls ensures CallOk(s', d) { assert CallOk(s, d); }
  }

  /** The step creates the document by a patch of a version that had it, and so stores something else than what
      the update answered. */
  ghost predicate Spoils(w: World, s: State, a: Step) {
    && Lands(w, s, a) && s.doc == Absent
    && At(w.start, s.log, a.base).Present?
    && w.merge(At(w.start, s.log, a.base).json, s.calls[a.c].phase.json) != s.calls[a.c].phase.json
  }

  lemma SpoilsIs(w: World, s: State, a: Step)
    requires Injective(w.hash) && Lands(w, s, a)
    ensures Spoils(w, s, a) <==> Stores(w, s, a.c, a.base) != s.calls[a.c].phase.json
  {
    hide Holds, At;
    PreconditionIsLiteral(w.hash, s.calls[a.c].phase.seen, s.doc);
  }

  lemma StepOk(w: World, s: State, a: Step)
    requires Injective(w.hash) && Inv(w, s) && Enabled(s, a)
    ensures Inv(w, Next(w, s, a))
    ensures AllExact(w, Next(w, s, a).updates, Next(w, s, a).log) <==>
            AllExact(w, s.updates, s.log) && !Spoils(w, s, a)
  {
    hide At, AllExplained, AllExact, Count, Injective, Holds, Stored;
    if a.Begin? {
      BeginStep(w, s, a);
    } else if a.Other? {
      OtherStep(w, s, a);
    } else if Lands(w, s, a) {
      SpoilsIs(w, s, a);
      AppliedStep(w, s, a.c, a.base, if a.Send? then Success else Unknown(true));
    } else {
      assert CallOk(s, a.c);
      var s' := Next(w, s, a);
      assert s' == With(s, a.c, s'.calls[a.c]);
      QuietStep(w, s, a.c, s'.calls[a.c]);
    }
  }

  // ---------------------------------------------------------------- whole runs

  ghost predicate Run(w: World, states: seq<State>, steps: seq<Step>) {
    && |states| == |steps| + 1 && states[0] == State(w.start, [], map[], map[])
    && forall i :: 0 <= i < |steps| ==> Enabled(states[i], steps[i]) && states[i + 1] == Next(w, states[i], steps[i])
  }

  /** None of the first `i` steps spoils what it stores. */
  ghost predicate Unspoiled(w: World, states: seq<State>, steps: seq<Step>, i: nat) {
    forall k :: 0 <= k < i && k < |states| && k < |steps| ==> !Spoils(w, states[k], steps[k])
  }

  lemma Initially(w: World)
    ensures Inv(w, State(w.start, [], map[], map[])) && AllExact(w, map[], [])
  {}

  lemma {:induction false} RunOk(w: World, states: seq<State>, steps: seq<Step>, i: nat)
    requires Injective(w.hash) && Run(w, states, steps) && i < |states|
    ensures Inv(w, states[i])
    ensures AllExact(w, states[i].updates, states[i].log) <==> Unspoiled(w, states, steps, i)
  {
    hide Inv, Enabled, Next, AllExact, Spoils;
    if i == 0 {
      Initially(w);
    } else {
      RunOk(w, states, steps, i - 1);
      StepOk(w, states[i - 1], steps[i - 1]);
      assert states[i - 1 + 1] == Next(w, states[i - 1], steps[i - 1]);
    }
  }

  /** No lost updates, in any interleaving of any number of clients: every swap is its call's update of the very
      content it replaced; the document is what the last commit made it; and every call's update is applied once
      if it returned success (or its write went through without a reply) and otherwise not at all. */
  lemma NoLostUpdates(w: World, states: seq<State>, steps: seq<Step>, i: nat, c: nat)
    requires Injective(w.hash) && Run(w, states, steps) && i < |states|
    ensures var s := states[i];
      && s.doc == At(w.start, s.log, |s.log|) && AllExplained(w, s.updates, s.log)
      && Count(s.log, c) <= 1
      && (Count(s.log, c) == 1 <==> c in s.calls && Wrote(s.calls[c]))
  {
    hide At, AllExplained, AllExact, Count;
    RunOk(w, states, steps, i);
    var s := states[i];
    assert c in s.calls ==> CallOk(s, c);
  }

  /** Every swap made the document exactly what its update answered, if and only if no document was created
      anchored on a version that had it and came out different for being merged with that version. */
  lemma StoresWhatWasAnswered(w: World, states: seq<State>, steps: seq<Step>, i: nat)
    requires Injective(w.hash) && Run(w, states, steps) && i < |states|
    ensures AllExact(w, states[i].updates, states[i].log) <==> Unspoiled(w, states, steps, i)
  {
    RunOk(w, states, steps, i);
  }

  /** Nobody deletes the document. */
  ghost predicate NoDeletes(steps: seq<Step>, i: nat) {
    forall k :: 0 <= k < i && k < |steps| ==> steps[k] != Other(Absent)
  }

  lemma {:induction false} StaysPresent(w: World, states: seq<State>, steps: seq<Step>, i: nat)
    requires Run(w, states, steps) && i < |states| && NoDeletes(steps, i)
    ensures forall x :: x in states[i].log ==> Made(x).Present?
  {
    if i > 0 {
      hide Enabled, Stored, Expecting, Holds, At;
      StaysPresent(w, states, steps, i - 1);
      assert states[i - 1 + 1] == Next(w, states[i - 1], steps[i - 1]);
    }
  }

  lemma NotSpoiled(w: World, s: State, a: Step)
    requires s.doc == At(w.start, s.log, |s.log|) && forall x :: x in s.log ==> Made(x).Present?
    ensures !Spoils(w, s, a)
  {
    assert s.log != [] ==> s.log[|s.log| - 1] in s.log;
  }

  /** As long as nobody deletes the document, every swap is exact, whatever versions writes are anchored on. */
  lemma ExactWithoutDeletes(w: World, states: seq<State>, steps: seq<Step>, i: nat)
    requires Injective(w.hash) && Run(w, states, steps) && i < |states| && NoDeletes(steps, i)
    ensures AllExact(w, states[i].updates, states[i].log)
  {
    hide AllExact, Enabled, Next, Holds, AllExplained, Count;
    forall k | 0 <= k < i ensures !Spoils(w, states[k], steps[k]) {
      StaysPresent(w, states, steps, k);
      RunOk(w, states, steps, k);
      NotSpoiled(w, states[k], steps[k]);
    }
    RunOk(w, states, steps, i);
  }

  /** A document that was deleted comes back with what it had before: the client that creates it knows a head
      from before the deletion, and its body is merged with the document at that head. */
  lemma ADeletedDocument(w: World, f: Update, json: string) returns (states: seq<State>, steps: seq<Step>)
    requires w.start.Present? && f(Absent) == Write(json) && w.merge(w.start.json, json) != json
    ensures Run(w, states, steps) && |states| == 5 && Spoils(w, states[3], steps[3])
    ensures 0 in states[4].calls && states[4].calls[0].phase == Over(Success)
    ensures states[4].doc == Present(w.merge(w.start.json, json))
  {
    steps := [Other(Absent), Begin(0, f, 1), Read(0), Send(0, 0)];
    var s0 := State(w.start, [], map[], map[]);
    var s1 := Next(w, s0, steps[0]);
    var s2 := Next(w, s1, steps[1]);
    var s3 := Next(w, s2, steps[2]);
    var s4 := Next(w, s3, steps[3]);
    states := [s0, s1, s2, s3, s4];
  }

  // ---------------------------------------------------------------- progress

  /** A call that reads and writes with nobody in between succeeds, and its update is the document. */
  lemma UndisturbedSucceeds(w: World, s: State, c: nat, base: nat)
    requires Enabled(s, Read(c)) && s.updates[c](s.doc).Write? && base <= |s.log|
    ensures var read := Next(w, s, Read(c)); Enabled(read, Send(c, base)) && read.doc == s.doc && read.log == s.log
    ensures var s' := Next(w, Next(w, s, Read(c)), Send(c, base));
      && s'.calls[c].phase == Over(Success) && |s'.log| == |s.log| + 1
      && (s.doc.Present? || At(w.start, s.log, base) == Absent ==> s'.doc == Present(s.updates[c](s.doc).json))
  {
    hide At;
  }

  /** A write of call `c` is turned down: the document has changed since it was read, or there was a conflict. */
  ghost predicate TurnedDown(s: State, a: Step, c: nat) {
    a == SendConflict(c) || (a.Send? && a.c == c && Enabled(s, a) && s.doc != s.calls[c].phase.seen)
  }

  ghost function Refusals(states: seq<State>, steps: seq<Step>, c: nat, i: nat): nat
    requires i <= |steps| && |states| == |steps| + 1
  {
    if i == 0 then 0
    else Refusals(states, steps, c, i - 1) + if TurnedDown(states[i - 1], steps[i - 1], c) then 1 else 0
  }

  /** Of its attempts, a call has used up those that were turned down; it has given up exactly when that is all. */
  ghost predicate Tally(s: State, c: nat, refused: nat, attempts: nat) {
    && c in s.calls && refused <= attempts
    && if s.calls[c].phase == Over(GaveUp) then refused == attempts else s.calls[c].left == attempts - refused > 0
  }

  lemma TallyStep(w: World, s: State, a: Step, c: nat, refused: nat, attempts: nat)
    requires Injective(w.hash) && Enabled(s, a) && Tally(s, c, refused, attempts)
    ensures Tally(Next(w, s, a), c, if TurnedDown(s, a, c) then refused + 1 else refused, attempts)
  {
    if a.Send? { PreconditionIsLiteral(w.hash, s.calls[a.c].phase.seen, s.doc); }
    hide Injective, Holds, At, Stored;
  }

  lemma {:induction false} NothingRefusedBefore(w: World, states: seq<State>, steps: seq<Step>, c: nat, i: nat)
    requires Run(w, states, steps) && i <= |steps| && c !in states[i].calls
    ensures Refusals(states, steps, c, i) == 0
  {
    hide At, Stored, Holds;
    if i > 0 {
      assert states[i - 1 + 1] == Next(w, states[i - 1], steps[i - 1]);
      NothingRefusedBefore(w, states, steps, c, i - 1);
    }
  }

  lemma {:induction false} TallyRun(w: World, states: seq<State>, steps: seq<Step>, c: nat, b: nat, i: nat)
    requires Injective(w.hash) && Run(w, states, steps) && b < i <= |steps| && steps[b].Begin? && steps[b].c == c
    ensures Tally(states[i], c, Refusals(states, steps, c, i), Attempts(steps[b].max))
    decreases i
  {
    hide Injective, Enabled, Next, Tally, TurnedDown, Attempts;
    assert states[i - 1 + 1] == Next(w, states[i - 1], steps[i - 1]);
    if i == b + 1 {
      TallyBegins(w, states[b], steps[b]);
      NothingRefusedBefore(w, states, steps, c, b);
    } else {
      TallyRun(w, states, steps, c, b, i - 1);
      TallyStep(w, states[i - 1], steps[i - 1], c, Refusals(states, steps, c, i - 1), Attempts(steps[b].max));
    }
  }

  lemma TallyBegins(w: World, s: State, a: Step)
    requires Enabled(s, a) && a.Begin?
    ensures a.c !in s.calls && !TurnedDown(s, a, a.c) && Tally(Next(w, s, a), a.c, 0, Attempts(a.max))
  {}

  /** In any interleaving, a call gives up exactly when as many of its writes as it has attempts (5 unless a positive
      number was given) were turned down, and never has more turned down. */
  lemma GivesUpExactly(w: World, states: seq<State>, steps: seq<Step>, c: nat, b: nat, i: nat)
    requires Injective(w.hash) && Run(w, states, steps) && b < i <= |steps| && steps[b].Begin? && steps[b].c == c
    ensures var attempts := if steps[b].max <= 0 then 5 else steps[b].max;
      && c in states[i].calls && Refusals(states, steps, c, i) <= attempts
      && (states[i].calls[c].phase == Over(GaveUp) <==> Refusals(states, steps, c, i) == attempts)
  {
    TallyRun(w, states, steps, c, b, i);
    hide Injective, Run;
  }

  /** The step that ends call `c` with outcome `o`. */
  ghost predicate Gives(s: State, a: Step, c: nat, o: Outcome)
    requires Enabled(s, a)
  {
    match a
    case Read(d) =>
      d == c && ((o == Aborted && s.updates[c](s.doc) == Leave) || (o == Failed && s.updates[c](s.doc) == Fault))
    case ReadFails(d) => d == c && o == Failed
    case Send(d, _) =>
      && d == c
      && if s.doc == s.calls[c].phase.seen then o == Success else o == GaveUp && s.calls[c].left <= 1
    case SendLost(d, _, arrives) => d == c && o == Unknown(arrives && s.doc == s.calls[c].phase.seen)
    case SendConflict(d) => d == c && o == GaveUp && s.calls[c].left <= 1
    case SendFails(d) => d == c && o == Failed
    case _ => false
  }

  ghost predicate IsOver(s: State, c: nat, o: Outcome) { c in s.calls && s.calls[c].phase == Over(o) }

  lemma OverStep(w: World, s: State, a: Step, c: nat, o: Outcome)
    requires Injective(w.hash) && Enabled(s, a)
    ensures IsOver(Next(w, s, a), c, o) <==> IsOver(s, c, o) || Gives(s, a, c, o)
  {
    if a.Send? || a.SendLost? { PreconditionIsLiteral(w.hash, s.calls[a.c].phase.seen, s.doc); }
    hide Injective, Holds, At, Stored;
  }

  /** A call is over with an outcome exactly when one of its steps gave it: success when its write found the document
      as it was read, an abort when the update declined, a failure when the update, a read or a write failed, and
      no answer when the reply was lost, which says whether the write went through. */
  lemma {:induction false} OutcomeIsExact(w: World, states: seq<State>, steps: seq<Step>, i: nat, c: nat, o: Outcome)
    requires Injective(w.hash) && Run(w, states, steps) && i < |states|
    ensures IsOver(states[i], c, o) <==>
            exists k :: 0 <= k < i && Enabled(states[k], steps[k]) && Gives(states[k], steps[k], c, o)
  {
    hide Injective, Enabled, Next, Gives, IsOver;
    if i == 0 {
      NothingOver(w, c, o);
    } else {
      OutcomeIsExact(w, states, steps, i - 1, c, o);
      assert states[i - 1 + 1] == Next(w, states[i - 1], steps[i - 1]);
      OverStep(w, states[i - 1], steps[i - 1], c, o);
    }
  }

  lemma NothingOver(w: World, c: nat, o: Outcome)
    ensures !IsOver(State(w.start, [], map[], map[]), c, o)
  {}

  // ---------------------------------------------------------------- lost replies

  /** At step `k` a write goes through and its reply is lost. */
  ghost predicate LosesReply(w: World, s: State, a: Step) { a.SendLost? && Lands(w, s, a) }

  ghost predicate Silent(s: State) { forall c :: c in s.calls ==> s.calls[c].phase != Over(Unknown(true)) }

  /** A call that is over stays as it is. */
  lemma OverStays(w: World, s: State, a: Step, c: nat)
    requires Enabled(s, a) && c in s.calls && s.calls[c].phase.Over?
    ensures c in Next(w, s, a).calls && Next(w, s, a).calls[c] == s.calls[c]
  {
    hide Lands, Stored;
  }

  lemma SilentStep(w: World, s: State, a: Step)
    requires Enabled(s, a)
    ensures Silent(Next(w, s, a)) <==> Silent(s) && !LosesReply(w, s, a)
  {
    hide Lands, Stored, At;
    var s' := Next(w, s, a);
    if LosesReply(w, s, a) { assert s'.calls[a.c].phase == Over(Unknown(true)); }
    if !Silent(s) {
      var c :| c in s.calls && s.calls[c].phase == Over(Unknown(true));
      OverStays(w, s, a, c);
    }
  }

  lemma {:induction false} SilentRun(w: World, states: seq<State>, steps: seq<Step>, i: nat)
    requires Run(w, states, steps) && i < |states|
    ensures Silent(states[i]) <==> forall k :: 0 <= k < i ==> !LosesReply(w, states[k], steps[k])
  {
    if i > 0 {
      hide Silent, Enabled, Next, LosesReply;
      SilentRun(w, states, steps, i - 1);
      SilentStep(w, states[i - 1], steps[i - 1]);
      assert states[i - 1 + 1] == Next(w, states[i - 1], steps[i - 1]);
    } else {
      assert states[0].calls == map[];
    }
  }

  /** The updates applied are those of the calls that returned success. */
  ghost predicate AppliedAreSuccesses(s: State) {
    forall c :: Count(s.log, c) == 1 <==> c in s.calls && s.calls[c].phase == Over(Success)
  }

  lemma AppliedOrSilent(w: World, states: seq<State>, steps: seq<Step>, i: nat)
    requires Injective(w.hash) && Run(w, states, steps) && i < |states|
    ensures AppliedAreSuccesses(states[i]) <==> Silent(states[i])
  {
    hide AllExplained, Count, Run, At;
    var s := states[i];
    forall c ensures Count(s.log, c) == 1 <==> c in s.calls && Wrote(s.calls[c]) {
      NoLostUpdates(w, states, steps, i, c);
    }
    if !Silent(s) {
      var c :| c in s.calls && s.calls[c].phase == Over(Unknown(true));
      assert Count(s.log, c) == 1;
    }
  }

  /** The updates applied are exactly those of the calls that returned success, if and only if no write whose
      precondition held at the server, and that arrived there, has lost its reply. */
  lemma AppliedIsSuccessful(w: World, states: seq<State>, steps: seq<Step>, i: nat)
    requires Injective(w.hash) && Run(w, states, steps) && i < |states|
    ensures AppliedAreSuccesses(states[i]) <==> forall k :: 0 <= k < i ==> !LosesReply(w, states[k], steps[k])
  {
    hide AppliedAreSuccesses, Silent, LosesReply, Run;
    AppliedOrSilent(w, states, steps, i);
    SilentRun(w, states, steps, i);
  }

  /** Which the callers can see for themselves: if no call came back without a reply, what was applied is what
      succeeded. */
  lemma NoUnknownNoDoubt(w: World, states: seq<State>, steps: seq<Step>, i: nat)
    requires Injective(w.hash) && Run(w, states, steps) && i < |states|
    requires forall c :: c in states[i].calls && states[i].calls[c].phase.Over? ==>
      !states[i].calls[c].phase.outcome.Unknown?
    ensures AppliedAreSuccesses(states[i])
  {
    hide AppliedAreSuccesses, Run;
    AppliedOrSilent(w, states, steps, i);
  }

  /** And a reply can be lost. */
  lemma ALostReply(w: World, f: Update, json: string) returns (states: seq<State>, steps: seq<Step>)
    requires w.start == Absent && f(Absent) == Write(json)
    ensures Run(w, states, steps) && |states| == 4 && LosesReply(w, states[2], steps[2])
    ensures Count(states[3].log, 0) == 1 && 0 in states[3].calls && states[3].calls[0].phase == Over(Unknown(true))
  {
    steps := [Begin(0, f, 1), Read(0), SendLost(0, 0, true)];
    var s0 := State(Absent, [], map[], map[]);
    var s1 := Next(w, s0, steps[0]);
    var s2 := Next(w, s1, steps[1]);
    var s3 := Next(w, s2, steps[2]);
    states := [s0, s1, s2, s3];
    assert s3.log == [] + [Swap(0, json)];
    CountOn([], Swap(0, json));
  }

  // ---------------------------------------------------------------- one call, as it runs

  /** What befalls a request: it is served after some other writer (or none) has been, or an error. */
  datatype Weather = Served(meanwhile: seq<Content>) | Conflict | Lost(arrives: bool) | Fails

  datatype PutReply = PutOk | PutRefused | PutError | NoReply(done: bool)

  /** The versions are what the commits, in order, made of the document. */
  ghost predicate Recorded(w: World, updates: map<nat, Update>, versions: seq<Content>, log: seq<Commit>) {
    && |versions| == |log| + 1
    && (forall i :: 0 <= i < |versions| ==> versions[i] == At(w.start, log, i))
    && AllExplained(w, updates, log)
  }

  /** Once there, the document was never deleted. */
  ghost predicate NeverDeleted(versions: seq<Content>) {
    forall i, k :: 0 <= i < k < |versions| && versions[i].Present? ==> versions[k].Present?
  }

  lemma OtherRecorded(w: World, updates: map<nat, Update>, versions: seq<Content>, log: seq<Commit>, x: Content)
    requires Recorded(w, updates, versions, log)
    ensures Recorded(w, updates, versions + [x], log + [Foreign(x)])
    ensures AllExact(w, updates, log + [Foreign(x)]) <==> AllExact(w, updates, log)
    ensures forall c :: Count(log + [Foreign(x)], c) == Count(log, c)
  {
    hide At, AllExplained, AllExact, Count;
    AtOn(w.start, log, Foreign(x));
    Appended(w, updates, log, Foreign(x));
    CountOn(log, Foreign(x));
  }

  /** The commit a conditional write makes. */
  ghost function Swapped(w: World, call: nat, seen: Content, base: Content, json: string): Commit {
    Swap(call, Stored(w.merge, Expecting(w.hash, seen), base, json))
  }

  lemma SwapRecorded(w: World, updates: map<nat, Update>, versions: seq<Content>, log: seq<Commit>,
                     call: nat, json: string, base: nat)
    requires Recorded(w, updates, versions, log) && base < |versions|
    requires call in updates && updates[call](versions[|log|]) == Write(json)
    ensures var x := Swapped(w, call, versions[|log|], versions[base], json);
      && Recorded(w, updates, versions + [Made(x)], log + [x])
      && (forall c :: Count(log + [x], c) == Count(log, c) + if c == call then 1 else 0)
      && (AllExact(w, updates, log) && NeverDeleted(versions) ==> AllExact(w, updates, log + [x]))
  {
    hide At, AllExplained, AllExact, Count;
    var x := Swapped(w, call, versions[|log|], versions[base], json);
    AtOn(w.start, log, x);
    assert StoredAgainst(w, updates, log + [x], |log|, base);
    Appended(w, updates, log, x);
    CountOn(log, x);
  }

  /** What befalls the next request. */
  function Facing(ahead: seq<Weather>): Weather { if ahead == [] then Served([]) else ahead[0] }

  /** What a conditional write of something computed from `seen` comes to: it is refused exactly when others changed
      the document after it was read, or the server had a conflict. */
  ghost function Verdict(w: Weather, versions: seq<Content>, seen: Content): PutReply
    requires versions != []
  {
    match w
    case Conflict => PutRefused
    case Fails => PutError
    case Lost(arrives) => NoReply(arrives && versions[|versions| - 1] == seen)
    case Served(meanwhile) =>
      var now := versions + meanwhile;
      if now[|now| - 1] == seen then PutOk else PutRefused
  }

  /** The versions of the document on the server, and what will befall each request. */
  class Server {
    const hash: Hash
    const merge: Merge
    var versions: seq<Content>
    var ahead: seq<Weather>  // served without interference once it is spent
    ghost const start: Content
    ghost const updates: map<nat, Update>
    ghost var log: seq<Commit>
    ghost var refusals: nat  // writes refused

    ghost function Setting(): World { World(start, hash, merge) }

    ghost predicate Valid()
      reads this
    {
      Recorded(Setting(), updates, versions, log)
    }

    ghost predicate IsExact()
      reads this
    {
      AllExact(Setting(), updates, log)
    }

    constructor (hash: Hash, merge: Merge, doc: Content, ahead: seq<Weather>, ghost updates: map<nat, Update>)
      ensures Valid() && IsExact() && this.hash == hash && this.merge == merge && versions == [doc]
      ensures this.updates == updates && log == [] && this.ahead == ahead
    {
      this.hash, this.merge, this.versions, this.ahead := hash, merge, [doc], ahead;
      this.start, this.updates, log, refusals := doc, updates, [], 0;
    }

    /** Others write. */
    method Meanwhile(writes: seq<Content>)
      requires Valid()
      modifies this`versions, this`log
      ensures Valid() && versions == old(versions) + writes && (IsExact() <==> old(IsExact()))
      ensures forall c :: Count(log, c) == Count(old(log), c)
    {
      hide AllExplained, AllExact, Count, At;
      for i := 0 to |writes|
        invariant Valid() && versions == old(versions) + writes[..i] && (IsExact() <==> old(IsExact()))
        invariant forall c :: Count(log, c) == Count(old(log), c)
      {
        OtherRecorded(Setting(), updates, versions, log, writes[i]);
        versions := versions + [writes[i]];
        log := log + [Foreign(writes[i])];
      }
    }

    method NextWeather() returns (w: Weather)
      modifies this`ahead
      ensures w == Facing(old(ahead)) && ahead == if old(ahead) == [] then [] else old(ahead)[1..]
    {
      if ahead == [] { return Served([]); }
      w := ahead[0];
      ahead := ahead[1..];
    }

    /** GetJSONWithHash. */
    method Get() returns (ok: bool, content: Content)
      requires Valid()
      modifies this`ahead, this`versions, this`log
      ensures Valid() && old(versions) <= versions && (IsExact() <==> old(IsExact()))
      ensures forall c :: Count(log, c) == Count(old(log), c)
      ensures ok <==> Facing(old(ahead)).Served?
      ensures ok ==> versions == old(versions) + Facing(old(ahead)).meanwhile && content == versions[|versions| - 1]
      ensures ahead == if old(ahead) == [] then [] else old(ahead)[1..]
    {
      var w := NextWeather();
      if !w.Served? { return false, Absent; }
      Meanwhile(w.meanwhile);
      return true, versions[|versions| - 1];
    }

    /** PutIfAbsent or ReplaceIf, anchored on version `base`: the write is made only on the content `seen`, and
        what it stores is the body, or for a creation the body over the document as it was at `base`. */
    method Put(p: Precondition, json: string, base: nat, ghost call: nat, ghost seen: Content) returns (r: PutReply)
      requires Valid() && Injective(hash) && base < |versions|
      requires p == Expecting(hash, seen) && call in updates && updates[call](seen) == Write(json)
      modifies this
      ensures Valid() && old(versions) <= versions
      ensures forall c :: c != call ==> Count(log, c) == Count(old(log), c)
      ensures Count(log, call) == Count(old(log), call) + if r == PutOk || r == NoReply(true) then 1 else 0
      ensures r == PutOk || r == NoReply(true) ==>
              log != [] && log[|log| - 1] == Swapped(Setting(), call, seen, versions[base], json)
      ensures r == PutOk || r == NoReply(true) ==> |log| > 0 && versions[|log| - 1] == seen
      ensures old(IsExact()) && NeverDeleted(versions) ==> IsExact()
      ensures r == Verdict(Facing(old(ahead)), old(versions), seen)
      ensures refusals == old(refusals) + if r == PutRefused then 1 else 0
    {
      hide AllExplained, AllExact, Count, At;
      var w := NextWeather();
      ghost var now := if w.Served? then versions + w.meanwhile else versions;
      PreconditionIsLiteral(hash, seen, now[|now| - 1]);
      hide Injective;
      match w {
        case Conflict =>
          refusals := refusals + 1;
          return PutRefused;
        case Fails => return PutError;
        case Lost(arrives) =>
          if !arrives || !Holds(hash, p, versions[|versions| - 1]) { return NoReply(false); }
          Apply(p, json, base, call, seen);
          return NoReply(true);
        case Served(meanwhile) =>
          Meanwhile(meanwhile);
          if !Holds(hash, p, versions[|versions| - 1]) {
            refusals := refusals + 1;
            return PutRefused;
          }
          Apply(p, json, base, call, seen);
          return PutOk;
      }
    }

    method Apply(p: Precondition, json: string, base: nat, ghost call: nat, ghost seen: Content)
      requires Valid() && Injective(hash) && base < |versions|
      requires p == Expecting(hash, seen) && Holds(hash, p, versions[|versions| - 1])
      requires call in updates && updates[call](seen) == Write(json)
      modifies this`versions, this`log
      ensures Valid() && old(versions) <= versions && |log| > 0 && versions[|log| - 1] == seen
      ensures log == old(log) + [Swapped(Setting(), call, seen, versions[base], json)]
      ensures forall c :: Count(log, c) == Count(old(log), c) + if c == call then 1 else 0
      ensures old(IsExact()) && NeverDeleted(versions) ==> IsExact()
    {
      hide AllExplained, AllExact, Count, At;
      PreconditionIsLiteral(hash, seen, versions[|versions| - 1]);
      SwapRecorded(Setting(), updates, versions, log, call, json, base);
      var stored := Stored(merge, p, versions[base], json);
      versions := versions + [Present(stored)];
      log := log + [Swap(call, stored)];
    }
  }

  /** A client, which anchors its writes on the last head it was told. */
  class Client {
    var head: nat

    constructor (head: nat)
      ensures this.head == head
    {
      this.head := head;
    }
  }

  /** CompareAndSwap: whatever others write meanwhile, the update is applied to the content it was computed from,
      once on success and not at all on any failure but a lost reply; and if the document was never deleted, what
      is stored is exactly what the update answered. */
  method CompareAndSwap(sv: Server, cl: Client, update: Update, max: int, ghost call: nat) returns (r: Outcome)
    requires sv.Valid() && Injective(sv.hash) && cl.head < |sv.versions|
    requires call in sv.updates && sv.updates[call] == update && Count(sv.log, call) == 0
    modifies sv, cl
    ensures sv.Valid() && old(sv.versions) <= sv.versions
    ensures forall c :: c != call ==> Count(sv.log, c) == Count(old(sv.log), c)
    ensures Count(sv.log, call) == if r == Success || r == Unknown(true) then 1 else 0
    ensures r == Success ==> sv.log != [] && IsSwap(sv.log[|sv.log| - 1], call)
    ensures cl.head == if r == Success then |sv.versions| - 1 else old(cl.head)
    ensures old(sv.IsExact()) && NeverDeleted(sv.versions) ==> sv.IsExact()
    ensures old(sv.refusals) <= sv.refusals <= old(sv.refusals) + if max <= 0 then 5 else max
    ensures r == GaveUp <==> sv.refusals == old(sv.refusals) + if max <= 0 then 5 else max
    ensures old(sv.ahead) == [] ==>
      var answer := update(old(sv.versions)[|old(sv.versions)| - 1]);
      r == if answer.Write? then Success else if answer == Leave then Aborted else Failed
  {
    hide AllExplained, AllExact, Count, At, Injective, Stored;
    var attempts := if max <= 0 then 5 else max;
    for attempt := 0 to attempts
      invariant sv.Valid() && old(sv.versions) <= sv.versions && cl.head == old(cl.head) && Count(sv.log, call) == 0
      invariant forall c :: c != call ==> Count(sv.log, c) == Count(old(sv.log), c)
      invariant old(sv.IsExact()) && NeverDeleted(sv.versions) ==> sv.IsExact()
      invariant sv.refusals == old(sv.refusals) + attempt && (old(sv.ahead) == [] ==> attempt == 0)
      invariant old(sv.ahead) == [] ==> sv.ahead == [] && sv.versions == old(sv.versions)
    {
      var ok, current := sv.Get();
      if !ok { return Failed; }
      var next := update(current);
      if next == Fault { return Failed; }
      if next == Leave { return Aborted; }
      var reply := sv.Put(Expecting(sv.hash, current), next.json, cl.head, call, current);
      match reply {
        case PutOk =>
          cl.head := |sv.versions| - 1;
          return Success;
        case PutError => return Failed;
        case NoReply(done) => return Unknown(done);
        case PutRefused =>
      }
    }
    return GaveUp;
  }
}
