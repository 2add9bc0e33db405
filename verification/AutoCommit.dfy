/** Auto-commit (go/kdb/client/query.go, execAutoCommit, and client.go, commitTransaction): statements and
    the empty commits that follow them, and commits that carry their own bytes, all on one server session
    whose buffered operations the empty commit takes (go/kdb/server/wire_listen.go, commitSession). The
    session's lock is held exclusively by the first and shared by the second. */
module AutoCommit {
  datatype Holder = Nobody | Exec(call: nat)

  type Ops = seq<nat>

  type Calls = map<nat, Phase>

  datatype Phase =
    | Locked                  // an Exec, before its statement
    | Buffered(ops: seq<nat>) // an Exec whose statement left operations to commit
    | Sharing                 // a commit of its own bytes
    | Over

  /** What an empty commit took. */
  datatype Batch = Batch(call: nat, ops: seq<nat>)

  /** The lock, the calls, the session's buffer on the server, and the batches committed from it. `left` is
      what calls that are over left in the buffer. */
  datatype State = State(holder: Holder, sharers: set<nat>, calls: Calls, buffer: Ops, batches: seq<Batch>, left: Ops)

  datatype Step =
    | Lock(c: nat)
    | Statement(c: nat, ops: seq<nat>)
    | Nothing(c: nat)                                       // a statement that leaves nothing to commit
    | StatementDropped(c: nat, ops: seq<nat>, arrives: bool) // cancelled, or its reply lost
    | Commit(c: nat)
    | CommitDropped(c: nat, arrives: bool)
    | CommitConflict(c: nat)                                // refused when it ran
    | CommitBarred(c: nat)                                  // refused before it ran: a document is locked
    | Share(c: nat)
    | BytesCommit(c: nat)
    | BytesBarred(c: nat)

  predicate Enabled(s: State, a: Step) {
    match a
    case Lock(c) => c !in s.calls && s.holder == Nobody && s.sharers == {}
    case Share(c) => c !in s.calls && s.holder == Nobody
    case Statement(c, ops) => c in s.calls && s.calls[c] == Locked && ops != []
    case Nothing(c) => c in s.calls && s.calls[c] == Locked
    case StatementDropped(c, ops, _) => c in s.calls && s.calls[c] == Locked && ops != []
    case Commit(c) => c in s.calls && s.calls[c].Buffered?
    case CommitDropped(c, _) => c in s.calls && s.calls[c].Buffered?
    case CommitConflict(c) => c in s.calls && s.calls[c].Buffered?
    case CommitBarred(c) => c in s.calls && s.calls[c].Buffered?
    case BytesCommit(c) => c in s.calls && s.calls[c] == Sharing
    case BytesBarred(c) => c in s.calls && s.calls[c] == Sharing
  }

  /** The call is over and its lock given back. */
  function Unlocked(s: State, c: nat): State { s.(holder := Nobody, calls := s.calls[c := Over]) }

  function Unshared(s: State, c: nat): State { s.(sharers := s.sharers - {c}, calls := s.calls[c := Over]) }

  /** The server runs the empty commit: it takes all there is. */
  function Taken(s: State, c: nat): State { s.(buffer := [], left := [], batches := s.batches + [Batch(c, s.buffer)]) }

  function Next(s: State, a: Step): State
    requires Enabled(s, a)
  {
    match a
    case Lock(c) => s.(holder := Exec(c), calls := s.calls[c := Locked])
    case Share(c) => s.(sharers := s.sharers + {c}, calls := s.calls[c := Sharing])
    case Statement(c, ops) => s.(buffer := s.buffer + ops, calls := s.calls[c := Buffered(ops)])
    case Nothing(c) => Unlocked(s, c)
    case StatementDropped(c, ops, arrives) =>
      Unlocked(if arrives then s.(buffer := s.buffer + ops, left := s.left + ops) else s, c)
    case Commit(c) => Unlocked(Taken(s, c), c)
    case CommitDropped(c, arrives) =>
      Unlocked(if arrives then Taken(s, c) else s.(left := s.left + s.calls[c].ops), c)
    case CommitConflict(c) => Unlocked(s.(buffer := [], left := []), c)
    case CommitBarred(c) => Unlocked(s.(left := s.left + s.calls[c].ops), c)
    case BytesCommit(c) => Unshared(s.(buffer := [], left := []), c)
    case BytesBarred(c) => Unshared(s, c)
  }

  const START: State := State(Nobody, {}, map[], [], [], [])

  /** The lock keeps sharers out of an Exec; the buffer holds what was left and the holder's own operations. */
  ghost predicate Inv(s: State) {
    && (s.holder.Exec? ==>
          && s.sharers == {} && s.holder.call in s.calls
          && (s.calls[s.holder.call] == Locked || s.calls[s.holder.call].Buffered?))
    && (forall c :: c in s.calls && (s.calls[c] == Locked || s.calls[c].Buffered?) ==> s.holder == Exec(c))
    && (forall c :: c in s.sharers <==> c in s.calls && s.calls[c] == Sharing)
    && s.buffer == s.left +
         (if s.holder.Exec? && s.calls[s.holder.call].Buffered? then s.calls[s.holder.call].ops else [])
  }

  lemma StepOk(s: State, a: Step)
    requires Inv(s) && Enabled(s, a)
    ensures Inv(Next(s, a))
  {
    assert s.left + [] == s.left;
    if a.StatementDropped? { assert s.left + a.ops + [] == s.left + a.ops; }
    if a.CommitDropped? || a.CommitBarred? { assert s.left + s.calls[a.c].ops + [] == s.left + s.calls[a.c].ops; }
  }

  /** The empty commit an Exec sends finds its own operations, after whatever was left; so exactly its own
      if and only if nothing was left. It never finds nothing. */
  lemma FindsItsOwn(s: State, c: nat)
    requires Inv(s) && c in s.calls && s.calls[c].Buffered?
    ensures s.buffer == s.left + s.calls[c].ops
    ensures s.buffer == s.calls[c].ops <==> s.left == []
  {}

  // ---------------------------------------------------------------- whole runs

  ghost predicate Run(states: seq<State>, steps: seq<Step>) {
    && |states| == |steps| + 1 && states[0] == START
    && forall i :: 0 <= i < |steps| ==> Enabled(states[i], steps[i]) && states[i + 1] == Next(states[i], steps[i])
  }

  lemma {:induction false} RunOk(states: seq<State>, steps: seq<Step>, i: nat)
    requires Run(states, steps) && i < |states|
    ensures Inv(states[i])
  {
    if i > 0 {
      RunOk(states, steps, i - 1);
      hide Inv, Enabled, Next;
      StepOk(states[i - 1], steps[i - 1]);
      assert states[i - 1 + 1] == Next(states[i - 1], steps[i - 1]);
    }
  }

  /** A step with which call `c` is over, whatever came of it. */
  predicate Ends(a: Step, c: nat) { a.c == c && !a.Lock? && !a.Share? && !a.Statement? }

  lemma OverStep(s: State, a: Step, c: nat)
    requires Enabled(s, a)
    ensures c in Next(s, a).calls && Next(s, a).calls[c] == Over <==> (c in s.calls && s.calls[c] == Over) || Ends(a, c)
  {}

  /** A call is over, and its lock given back, exactly once it has had its answer or its failure: no way through it
      leaves the session locked. */
  lemma {:induction false} EveryCallEnds(states: seq<State>, steps: seq<Step>, i: nat, c: nat)
    requires Run(states, steps) && i < |states|
    ensures c in states[i].calls && states[i].calls[c] == Over <==> exists k :: 0 <= k < i && Ends(steps[k], c)
    ensures c in states[i].calls && states[i].calls[c] == Over ==>
            states[i].holder != Exec(c) && c !in states[i].sharers
  {
    RunOk(states, steps, i);
    if i > 0 {
      EveryCallEnds(states, steps, i - 1, c);
      assert states[i - 1 + 1] == Next(states[i - 1], steps[i - 1]);
      hide Enabled, Next, Ends;
      OverStep(states[i - 1], steps[i - 1], c);
    }
  }

  /** A step after which an Exec's operations stay behind in the session. */
  predicate Abandons(a: Step) {
    (a.StatementDropped? && a.arrives) || (a.CommitDropped? && !a.arrives) || a.CommitBarred?
  }

  /** A step at which the server empties the session. */
  predicate Clears(a: Step) {
    a.Commit? || a.CommitConflict? || a.BytesCommit? || (a.CommitDropped? && a.arrives)
  }

  /** A step at which the server runs an Exec's empty commit, whether or not the reply arrives. */
  predicate Commits(a: Step) { a.Commit? || (a.CommitDropped? && a.arrives) }

  /** Whether, after `steps`, some Exec's operations have stayed behind since the session was last emptied. */
  predicate Dirty(steps: seq<Step>) {
    steps != [] &&
    (Abandons(steps[|steps| - 1]) || (!Clears(steps[|steps| - 1]) && Dirty(steps[..|steps| - 1])))
  }

  lemma StepLeft(s: State, a: Step)
    requires Inv(s) && Enabled(s, a) && (forall c :: c in s.calls && s.calls[c].Buffered? ==> s.calls[c].ops != [])
    ensures Next(s, a).left != [] <==> Abandons(a) || (!Clears(a) && s.left != [])
    ensures forall c :: c in Next(s, a).calls && Next(s, a).calls[c].Buffered? ==> Next(s, a).calls[c].ops != []
  {}

  lemma {:induction false} LeftIffDirty(states: seq<State>, steps: seq<Step>, i: nat)
    requires Run(states, steps) && i < |states|
    ensures states[i].left != [] <==> Dirty(steps[..i])
    ensures forall c :: c in states[i].calls && states[i].calls[c].Buffered? ==> states[i].calls[c].ops != []
  {
    if i > 0 {
      LeftIffDirty(states, steps, i - 1);
      RunOk(states, steps, i - 1);
      assert steps[..i][..i - 1] == steps[..i - 1] && steps[..i][i - 1] == steps[i - 1];
      hide Inv, Enabled, Next;
      StepLeft(states[i - 1], steps[i - 1]);
      assert states[i - 1 + 1] == Next(states[i - 1], steps[i - 1]);
    }
  }

  /** Over every interleaving: an Exec's commit takes exactly the operations of its own statement if and only
      if no Exec since the session was last emptied was cut off between its statement and its commit, or had
      its commit barred before it ran. */
  lemma CommitsItsOwn(states: seq<State>, steps: seq<Step>, i: nat)
    requires Run(states, steps) && i < |steps| && Commits(steps[i])
    ensures var c := steps[i].c; var s := states[i];
      && s.calls[c].Buffered? && s.calls[c].ops != []
      && states[i + 1].batches == s.batches + [Batch(c, s.buffer)]
      && (s.buffer == s.calls[c].ops <==> !Dirty(steps[..i]))
  {
    RunOk(states, steps, i);
    LeftIffDirty(states, steps, i);
    FindsItsOwn(states[i], steps[i].c);
  }

  lemma {:induction false} NeverDirty(steps: seq<Step>)
    requires forall i :: 0 <= i < |steps| ==> !Abandons(steps[i])
    ensures !Dirty(steps)
    decreases |steps|
  {
    if steps != [] { NeverDirty(steps[..|steps| - 1]); }
  }

  /** As long as nothing has been cut off and no commit barred, every Exec is atomic. */
  lemma UndisturbedExecsAreAtomic(states: seq<State>, steps: seq<Step>, i: nat)
    requires Run(states, steps) && i < |steps| && Commits(steps[i]) && forall k :: 0 <= k < i ==> !Abandons(steps[k])
    ensures states[i + 1].batches == states[i].batches + [Batch(steps[i].c, states[i].calls[steps[i].c].ops)]
  {
    CommitsItsOwn(states, steps, i);
    NeverDirty(steps[..i]);
  }

  /** An Exec begins: it takes the lock and its statement is buffered. */
  lemma Begins(s: State, c: nat, ops: seq<nat>) returns (s': State)
    requires Inv(s) && s.holder == Nobody && s.sharers == {} && c !in s.calls && ops != []
    ensures Enabled(s, Lock(c)) && Enabled(Next(s, Lock(c)), Statement(c, ops))
    ensures s' == Next(Next(s, Lock(c)), Statement(c, ops))
    ensures s' == s.(holder := Exec(c), calls := s.calls[c := Buffered(ops)], buffer := s.buffer + ops)
  {
    s' := Next(Next(s, Lock(c)), Statement(c, ops));
    assert s.calls[c := Locked][c := Buffered(ops)] == s.calls[c := Buffered(ops)];
  }

  /** The operations of an Exec whose commit is barred, with nothing cancelled at all, are committed by the next. */
  lemma BarredThenCommitted(s: State, c: nat, d: nat, ops: seq<nat>, ops': seq<nat>)
    returns (s1: State, s2: State, s3: State, s4: State)
    requires Inv(s) && s.holder == Nobody && s.sharers == {} && c !in s.calls && d !in s.calls && c != d
    requires ops != [] && ops' != []
    ensures Enabled(s, Lock(c)) && Enabled(Next(s, Lock(c)), Statement(c, ops))
    ensures s1 == Next(Next(s, Lock(c)), Statement(c, ops))
    ensures Enabled(s1, CommitBarred(c)) && s2 == Next(s1, CommitBarred(c))
    ensures Enabled(s2, Lock(d)) && Enabled(Next(s2, Lock(d)), Statement(d, ops'))
    ensures s3 == Next(Next(s2, Lock(d)), Statement(d, ops'))
    ensures Enabled(s3, Commit(d)) && s4 == Next(s3, Commit(d))
    ensures s4.batches == s.batches + [Batch(d, s.buffer + ops + ops')]
  {
    s1 := Begins(s, c, ops);
    StepOk(s, Lock(c));
    StepOk(Next(s, Lock(c)), Statement(c, ops));
    s2 := Next(s1, CommitBarred(c));
    StepOk(s1, CommitBarred(c));
    s3 := Begins(s2, d, ops');
    s4 := Next(s3, Commit(d));
  }

  /** And so are those of a cancelled one. */
  lemma CancelledThenCommitted(s: State, c: nat, d: nat, ops: seq<nat>, ops': seq<nat>)
    returns (s1: State, s2: State, s3: State, s4: State)
    requires Inv(s) && s.holder == Nobody && s.sharers == {} && c !in s.calls && d !in s.calls && c != d
    requires ops != [] && ops' != []
    ensures Enabled(s, Lock(c)) && s1 == Next(s, Lock(c))
    ensures Enabled(s1, StatementDropped(c, ops, true)) && s2 == Next(s1, StatementDropped(c, ops, true))
    ensures Enabled(s2, Lock(d)) && Enabled(Next(s2, Lock(d)), Statement(d, ops'))
    ensures s3 == Next(Next(s2, Lock(d)), Statement(d, ops'))
    ensures Enabled(s3, Commit(d)) && s4 == Next(s3, Commit(d))
    ensures s4.batches == s.batches + [Batch(d, s.buffer + ops + ops')]
  {
    s1 := Next(s, Lock(c));
    StepOk(s, Lock(c));
    s2 := Next(s1, StatementDropped(c, ops, true));
    StepOk(s1, StatementDropped(c, ops, true));
    s3 := Begins(s2, d, ops');
    s4 := Next(s3, Commit(d));
  }
}
