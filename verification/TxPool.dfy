/** The pool of transaction sessions (go/kdb/client/tx.go): sessions left behind by finished transactions
    are kept, by namespace and read consistency, for the next transaction to take. On the server
    (go/kdb/server/wire_listen.go, commitSession and execTransactionControl) a session holds the writes
    of its transaction until they are committed or rolled back. */
module TxPool {
  // ---------------------------------------------------------------- the key

  function Consistency(snapshot: bool): string { if snapshot then "SNAPSHOT" else "READ_COMMITTED" }

  function PoolKey(ns: string, snapshot: bool): string { ns + ("\0" + Consistency(snapshot)) }

  /** A key determines the namespace and the consistency, whatever the namespace is called. */
  lemma PoolKeyDetermines(ns: string, snapshot: bool, ns': string, snapshot': bool)
    requires PoolKey(ns, snapshot) == PoolKey(ns', snapshot')
    ensures ns == ns' && snapshot == snapshot'
  {
    var key := PoolKey(ns, snapshot);
    var a, b := Consistency(snapshot), Consistency(snapshot');
    assert key[|key| - 1] == a[|a| - 1] == b[|b| - 1];
    assert a == b;
    assert ns == key[..|key| - |a| - 1] == ns';
  }

  // ---------------------------------------------------------------- the idle sessions

  type Idle = map<string, seq<nat>>

  function List(idle: Idle, key: string): seq<nat> { if key in idle then idle[key] else [] }

  function Popped(idle: Idle, key: string): Idle
    requires List(idle, key) != []
  {
    idle[key := idle[key][..|idle[key]| - 1]]
  }

  function Pushed(idle: Idle, key: string, session: nat): Idle { idle[key := List(idle, key) + [session]] }

  class Pool {
    var idle: Idle

    constructor ()
      ensures idle == map[]
    {
      idle := map[];
    }

    /** takeIdleTxSession: the session put back last, or none. */
    method Take(key: string) returns (found: bool, session: nat)
      modifies this
      ensures found <==> List(old(idle), key) != []
      ensures found ==> idle == Popped(old(idle), key) && List(old(idle), key) == List(idle, key) + [session]
      ensures !found ==> idle == old(idle)
    {
      if key !in idle || |idle[key]| == 0 { return false, 0; }
      session := idle[key][|idle[key]| - 1];
      idle := idle[key := idle[key][..|idle[key]| - 1]];
      return true, session;
    }

    /** releaseTxSession. */
    method Release(key: string, session: nat)
      modifies this
      ensures idle == Pushed(old(idle), key, session)
    {
      if key !in idle { idle := idle[key := []]; }
      idle := idle[key := idle[key] + [session]];
    }
  }

  // ---------------------------------------------------------------- the machine

  /** A transaction: `begun` once BEGIN succeeded, `ends` the commits and rollbacks under way. */
  datatype Tx = Tx(key: string, session: nat, begun: bool, done: bool, ends: nat)

  type Holding = map<nat, set<nat>>

  /** `homes` says which key each session was begun for, `spent` which sessions were lost to an error, and `held`
      whose writes each session holds on the server. */
  datatype State = State(idle: Idle, txs: map<nat, Tx>, homes: map<nat, string>, spent: set<nat>, held: Holding)

  function Held(s: State, x: nat): set<nat> { if x in s.held then s.held[x] else {} }

  datatype Step =
    | BeginReused(t: nat, key: string)
    | BeginNew(t: nat, key: string, session: nat)
    | BeginOk(t: nat)
    | BeginFails(t: nat)
    | Write(t: nat)                   // a statement that leaves something to commit
    | End(t: nat)
    | EndReply(t: nat, barred: bool)  // `barred`: refused before it ran, for a lease or a document lock
    | EndLost(t: nat, cleared: bool)

  predicate Enabled(s: State, a: Step) {
    match a
    case BeginReused(t, key) => t !in s.txs && List(s.idle, key) != []
    case BeginNew(t, key, session) => t !in s.txs && session !in s.homes
    case BeginOk(t) => t in s.txs && !s.txs[t].begun && !s.txs[t].done && Held(s, s.txs[t].session) == {}
    case BeginFails(t) => t in s.txs && !s.txs[t].begun && !s.txs[t].done
    case Write(t) => t in s.txs && s.txs[t].begun && !s.txs[t].done
    case End(t) => t in s.txs && s.txs[t].begun && !s.txs[t].done
    case EndReply(t, barred) => t in s.txs && s.txs[t].ends > 0 && (barred ==> Held(s, s.txs[t].session) != {})
    case EndLost(t, _) => t in s.txs && s.txs[t].ends > 0
  }

  /** finish. */
  function Finished(tx: Tx): Tx
    requires tx.ends > 0
  {
    tx.(done := true, ends := tx.ends - 1)
  }

  /** The server commits, refuses or drops what the session holds. */
  function Cleared(s: State, x: nat, cleared: bool): Holding {
    if cleared then s.held[x := {}] else s.held
  }

  function Next(s: State, a: Step): State
    requires Enabled(s, a)
  {
    match a
    case BeginReused(t, key) =>
      var list := s.idle[key];
      s.(idle := Popped(s.idle, key), txs := s.txs[t := Tx(key, list[|list| - 1], false, false, 0)])
    case BeginNew(t, key, session) =>
      s.(txs := s.txs[t := Tx(key, session, false, false, 0)], homes := s.homes[session := key])
    case BeginOk(t) => s.(txs := s.txs[t := s.txs[t].(begun := true)])
    case BeginFails(t) => s.(txs := s.txs[t := s.txs[t].(done := true)], spent := s.spent + {s.txs[t].session})
    case Write(t) => s.(held := s.held[s.txs[t].session := Held(s, s.txs[t].session) + {t}])
    case End(t) => s.(txs := s.txs[t := s.txs[t].(ends := s.txs[t].ends + 1)])
    case EndReply(t, barred) =>
      s.(txs := s.txs[t := Finished(s.txs[t])], idle := Pushed(s.idle, s.txs[t].key, s.txs[t].session),
         held := Cleared(s, s.txs[t].session, !barred))
    case EndLost(t, cleared) =>
      s.(txs := s.txs[t := Finished(s.txs[t])], spent := s.spent + {s.txs[t].session},
         held := Cleared(s, s.txs[t].session, cleared))
  }

  const START: State := State(map[], map[], map[], {}, map[])

  /** A transaction is used by one caller at a time: it is not used while it is being ended. */
  predicate Sequential(s: State, a: Step)
    requires Enabled(s, a)
  {
    a.End? || a.Write? ==> s.txs[a.t].ends == 0
  }

  // ---------------------------------------------------------------- what every step keeps

  predicate Live(s: State, t: nat) { t in s.txs && !s.txs[t].done }

  ghost predicate TxOk(s: State, t: nat, tx: Tx) {
    && tx.ends <= 1 && (tx.done || !tx.begun ==> tx.ends == 0)
    && tx.session in s.homes && s.homes[tx.session] == tx.key
    && (!tx.done ==> tx.session !in List(s.idle, tx.key) && tx.session !in s.spent)
    && (!tx.done && tx.begun ==> Held(s, tx.session) <= {t})
  }

  ghost predicate NoRepeats(list: seq<nat>) { forall i, j :: 0 <= i < j < |list| ==> list[i] != list[j] }

  ghost predicate ListOk(s: State, key: string) {
    && NoRepeats(List(s.idle, key))
    && forall x :: x in List(s.idle, key) ==> x in s.homes && s.homes[x] == key && x !in s.spent
  }

  ghost predicate Inv(s: State) {
    && (forall t :: t in s.txs ==> TxOk(s, t, s.txs[t]))
    && (forall t, u :: Live(s, t) && Live(s, u) && t != u ==> s.txs[t].session != s.txs[u].session)
    && (forall key :: key in s.idle ==> ListOk(s, key))
    && (forall x :: x in s.spent ==> x in s.homes)
    && (forall x :: x in s.held ==> x in s.homes)
  }

  lemma StartOk()
    ensures Inv(START)
  {}

  lemma TakenStep(s: State, a: Step)
    requires Inv(s) && a.BeginReused? && Enabled(s, a)
    ensures Inv(Next(s, a))
  {
    var s' := Next(s, a);
    var list := s.idle[a.key];
    var x := list[|list| - 1];
    assert ListOk(s, a.key) && x in list && x !in list[..|list| - 1];
    forall t | t in s'.txs ensures TxOk(s', t, s'.txs[t]) { if t != a.t { assert TxOk(s, t, s.txs[t]); } }
    forall t | Live(s, t) ensures s.txs[t].session != x { assert TxOk(s, t, s.txs[t]); }
    forall key | key in s'.idle ensures ListOk(s', key) { assert ListOk(s, key); }
    hide TxOk, ListOk, Popped;
  }

  lemma NewStep(s: State, a: Step)
    requires Inv(s) && a.BeginNew? && Enabled(s, a)
    ensures Inv(Next(s, a))
  {
    var s' := Next(s, a);
    forall t | t in s'.txs ensures TxOk(s', t, s'.txs[t]) { if t != a.t { assert TxOk(s, t, s.txs[t]); } }
    forall t | Live(s, t) ensures s.txs[t].session != a.session { assert TxOk(s, t, s.txs[t]); }
    forall key | key in s'.idle ensures ListOk(s', key) { assert ListOk(s, key); }
    hide TxOk, ListOk;
  }

  lemma ReturnedStep(s: State, a: Step)
    requires Inv(s) && a.EndReply? && Enabled(s, a)
    ensures Inv(Next(s, a))
  {
    var s' := Next(s, a);
    var tx := s.txs[a.t];
    assert TxOk(s, a.t, tx);
    forall t | t in s'.txs ensures TxOk(s', t, s'.txs[t]) {
      assert TxOk(s, t, s.txs[t]);
      if t != a.t { assert Live(s, a.t); }
    }
    forall key | key in s'.idle ensures ListOk(s', key) { if key in s.idle { assert ListOk(s, key); } }
    hide TxOk, ListOk, Pushed;
  }

  /** The steps that change one transaction and perhaps spend its session. */
  lemma OtherStep(s: State, a: Step)
    requires Inv(s) && Enabled(s, a) && Sequential(s, a)
    requires a.BeginOk? || a.BeginFails? || a.Write? || a.End? || a.EndLost?
    ensures Inv(Next(s, a))
  {
    var s' := Next(s, a);
    var tx := s.txs[a.t];
    assert TxOk(s, a.t, tx) && Live(s, a.t);
    forall t | t in s'.txs ensures TxOk(s', t, s'.txs[t]) { assert TxOk(s, t, s.txs[t]); }
    forall key | key in s'.idle ensures ListOk(s', key) { assert ListOk(s, key); }
    hide TxOk, ListOk;
  }

  lemma StepOk(s: State, a: Step)
    requires Inv(s) && Enabled(s, a) && Sequential(s, a)
    ensures Inv(Next(s, a))
  {
    hide Inv;
    match a {
      case BeginReused(_, _) => TakenStep(s, a);
      case BeginNew(_, _, _) => NewStep(s, a);
      case EndReply(_, _) => ReturnedStep(s, a);
      case _ => OtherStep(s, a);
    }
  }

  // ---------------------------------------------------------------- whole runs

  ghost predicate Run(states: seq<State>, steps: seq<Step>) {
    && |states| == |steps| + 1 && states[0] == START
    && forall i :: 0 <= i < |steps| ==> Enabled(states[i], steps[i]) && states[i + 1] == Next(states[i], steps[i])
  }

  ghost predicate AllSequential(states: seq<State>, steps: seq<Step>)
    requires Run(states, steps)
  {
    forall i :: 0 <= i < |steps| ==> Sequential(states[i], steps[i])
  }

  lemma {:induction false} RunOk(states: seq<State>, steps: seq<Step>, i: nat)
    requires Run(states, steps) && AllSequential(states, steps) && i < |states|
    ensures Inv(states[i])
  {
    if i == 0 {
      StartOk();
    } else {
      hide Inv, Enabled, Next;
      RunOk(states, steps, i - 1);
      StepOk(states[i - 1], steps[i - 1]);
      assert states[i - 1 + 1] == Next(states[i - 1], steps[i - 1]);
    }
  }

  /** Wherever a run of transactions, each used by one caller at a time, has come to: a session is held by at
      most one live transaction, or stands once in the idle list of the key it was begun for, never
      both; and one lost to an error is neither. */
  lemma OneOwner(states: seq<State>, steps: seq<Step>, i: nat, t: nat, u: nat, key: string, key': string)
    requires Run(states, steps) && AllSequential(states, steps) && i < |states|
    ensures var s := states[i];
      && (Live(s, t) && Live(s, u) && t != u ==> s.txs[t].session != s.txs[u].session)
      && (Live(s, t) ==> s.txs[t].session !in List(s.idle, key) && s.txs[t].session !in s.spent)
      && NoRepeats(List(s.idle, key))
      && (key != key' ==> forall x :: x in List(s.idle, key) ==> x !in List(s.idle, key'))
      && (forall x :: x in List(s.idle, key) ==> x in s.homes && s.homes[x] == key && x !in s.spent)
  {
    RunOk(states, steps, i);
    var s := states[i];
    if key in s.idle { assert ListOk(s, key); }
    if key' in s.idle { assert ListOk(s, key'); }
    if Live(s, t) { assert TxOk(s, t, s.txs[t]); }
  }

  /** A session that was ever begun is on a live transaction, or back in the pool for its key, or spent. */
  ghost predicate Accounted(s: State, x: nat) {
    x in s.homes ==> x in List(s.idle, s.homes[x]) || x in s.spent || exists t :: Live(s, t) && s.txs[t].session == x
  }

  lemma AccountedStep(s: State, a: Step, x: nat)
    requires Inv(s) && Enabled(s, a) && Sequential(s, a) && Accounted(s, x)
    ensures Accounted(Next(s, a), x)
  {
    var s' := Next(s, a);
    if a.BeginReused? { Reused(s, a, x); }
    if a.BeginNew? { assert Live(s', a.t) && s'.txs[a.t].session == a.session; }
    if t :| Live(s, t) && s.txs[t].session == x {
      assert TxOk(s, t, s.txs[t]);
      assert (Live(s', t) && s'.txs[t].session == x) || x in List(s'.idle, s'.homes[x]) || x in s'.spent;
    } else if x in s.homes && x in List(s.idle, s.homes[x]) && !a.BeginReused? {
      assert x in List(s'.idle, s'.homes[x]);
    }
  }

  /** What is taken from the pool is on the transaction that took it. */
  lemma Reused(s: State, a: Step, x: nat)
    requires Enabled(s, a) && a.BeginReused? && Accounted(s, x)
    ensures Accounted(Next(s, a), x)
  {
    var s', list := Next(s, a), List(s.idle, a.key);
    assert Live(s', a.t) && s'.txs[a.t].session == list[|list| - 1];
    if x in s.homes && x in List(s.idle, s.homes[x]) && x != list[|list| - 1] && s.homes[x] == a.key {
      var i :| 0 <= i < |list| && list[i] == x;
      assert List(s'.idle, a.key)[i] == x;
    }
    if t :| Live(s, t) && s.txs[t].session == x { assert Live(s', t) && s'.txs[t].session == x; }
  }

  /** No session is lost: in every run, each that was ever begun can be used again, is in use, or was given up for an
      error. */
  lemma {:induction false} EverySessionAccounted(states: seq<State>, steps: seq<Step>, i: nat, x: nat)
    requires Run(states, steps) && AllSequential(states, steps) && i < |states|
    ensures Accounted(states[i], x)
  {
    if i > 0 {
      hide Inv, Enabled, Next, Accounted, Sequential;
      RunOk(states, steps, i - 1);
      EverySessionAccounted(states, steps, i - 1, x);
      assert states[i - 1 + 1] == Next(states[i - 1], steps[i - 1]) && Sequential(states[i - 1], steps[i - 1]);
      AccountedStep(states[i - 1], steps[i - 1], x);
    } else {
      assert states[0].homes == map[];
    }
  }

  /** A session is spent exactly when a BEGIN on it failed, or the reply to a commit or rollback on it was lost. */
  lemma {:induction false} SpentIsExact(states: seq<State>, steps: seq<Step>, i: nat, x: nat)
    requires Run(states, steps) && i < |states|
    ensures x in states[i].spent <==> exists k :: 0 <= k < i && Spends(states[k], steps[k], x)
  {
    hide Enabled, Next, Spends;
    if i > 0 {
      SpentIsExact(states, steps, i - 1, x);
      assert states[i - 1 + 1] == Next(states[i - 1], steps[i - 1]);
      SpentStep(states[i - 1], steps[i - 1], x);
    }
  }

  /** A step with which transaction `t` is done. */
  predicate Ends(a: Step, t: nat) { (a.BeginFails? || a.EndReply? || a.EndLost?) && a.t == t }

  /** A transaction has begun exactly when its BEGIN succeeded, and is done exactly when its BEGIN failed or a commit
      or rollback of it came back, with a reply or without. */
  lemma {:induction false} StatusIsExact(states: seq<State>, steps: seq<Step>, i: nat, t: nat)
    requires Run(states, steps) && i < |states|
    ensures t in states[i].txs && states[i].txs[t].begun <==> BeginOk(t) in steps[..i]
    ensures t in states[i].txs && states[i].txs[t].done <==> exists k :: 0 <= k < i && Ends(steps[k], t)
  {
    hide Enabled, Next, Ends;
    if i > 0 {
      StatusIsExact(states, steps, i - 1, t);
      assert states[i - 1 + 1] == Next(states[i - 1], steps[i - 1]);
      assert steps[..i] == steps[..i - 1] + [steps[i - 1]];
      StatusStep(states[i - 1], steps[i - 1], t);
    }
  }

  lemma StatusStep(s: State, a: Step, t: nat)
    requires Enabled(s, a)
    ensures t in Next(s, a).txs && Next(s, a).txs[t].begun <==> (t in s.txs && s.txs[t].begun) || a == BeginOk(t)
    ensures t in Next(s, a).txs && Next(s, a).txs[t].done <==> (t in s.txs && s.txs[t].done) || Ends(a, t)
  {}

  predicate Spends(s: State, a: Step, x: nat) {
    (a.BeginFails? || a.EndLost?) && a.t in s.txs && s.txs[a.t].session == x
  }

  lemma SpentStep(s: State, a: Step, x: nat)
    requires Enabled(s, a)
    ensures x in Next(s, a).spent <==> x in s.spent || Spends(s, a, x)
  {}

  // ---------------------------------------------------------------- what a session still holds

  /** What a session holds, while a transaction is on it, is that transaction's own: a commit takes nothing
      another left behind. */
  lemma OwnWrites(states: seq<State>, steps: seq<Step>, i: nat, t: nat)
    requires Run(states, steps) && AllSequential(states, steps) && i < |states|
    ensures Live(states[i], t) && states[i].txs[t].begun ==> Held(states[i], states[i].txs[t].session) <= {t}
  {
    RunOk(states, steps, i);
    if Live(states[i], t) { assert TxOk(states[i], t, states[i].txs[t]); }
  }

  /** The step is the reply to a commit or rollback on session `x`. */
  predicate EndsOn(s: State, a: Step, x: nat) { a.EndReply? && a.t in s.txs && s.txs[a.t].session == x }

  /** Of the first `i` steps, the last such reply was of a commit that was barred. */
  predicate LastBarred(states: seq<State>, steps: seq<Step>, i: nat, x: nat)
    requires i <= |steps| <= |states|
  {
    i > 0 &&
    if EndsOn(states[i - 1], steps[i - 1], x) then steps[i - 1].barred else LastBarred(states, steps, i - 1, x)
  }

  /** A step that leaves a pooled session where it is leaves what it holds alone. */
  lemma PooledIsLeft(s: State, a: Step, x: nat, key: string)
    requires Inv(s) && Enabled(s, a) && Sequential(s, a) && x in List(s.idle, key)
    ensures !EndsOn(s, a, x) && Held(Next(s, a), x) == Held(s, x)
  {
    assert ListOk(s, key);
    if a.t in s.txs { assert TxOk(s, a.t, s.txs[a.t]); }
  }

  lemma PooledNow(s: State, a: Step, x: nat, key: string)
    requires Enabled(s, a) && x !in List(s.idle, key) && x in List(Next(s, a).idle, key)
    ensures EndsOn(s, a, x) && (Held(Next(s, a), x) == {} <==> !a.barred)
  {}

  /** A session in the pool is empty if and only if the last commit or rollback on it was not barred before it
      ran: finish puts back any session whose end got a reply, and a barred commit keeps its writes. */
  lemma {:induction false} EmptyUnlessBarred(states: seq<State>, steps: seq<Step>, i: nat, x: nat, key: string)
    requires Run(states, steps) && AllSequential(states, steps) && i < |states| && x in List(states[i].idle, key)
    ensures Held(states[i], x) == {} <==> !LastBarred(states, steps, i, x)
  {
    if i > 0 {
      hide Enabled, Next, Inv, Sequential;
      RunOk(states, steps, i - 1);
      assert states[i - 1 + 1] == Next(states[i - 1], steps[i - 1]) && Sequential(states[i - 1], steps[i - 1]);
      if x in List(states[i - 1].idle, key) {
        PooledIsLeft(states[i - 1], steps[i - 1], x, key);
        EmptyUnlessBarred(states, steps, i - 1, x, key);
      } else {
        PooledNow(states[i - 1], steps[i - 1], x, key);
      }
    }
  }

  /** So a transaction that takes a session from the pool can begin on it if and only if it was not barred. */
  lemma BeginsUnlessBarred(states: seq<State>, steps: seq<Step>, i: nat, u: nat, key: string)
    requires Run(states, steps) && AllSequential(states, steps) && i < |steps| && steps[i] == BeginReused(u, key)
    ensures u in states[i + 1].txs
    ensures Enabled(states[i + 1], BeginOk(u)) <==> !LastBarred(states, steps, i, states[i + 1].txs[u].session)
    ensures Enabled(states[i + 1], BeginFails(u))
  {
    var list := List(states[i].idle, key);
    assert Enabled(states[i], steps[i]) && list[|list| - 1] in list;
    EmptyUnlessBarred(states, steps, i, list[|list| - 1], key);
  }

  /** A commit barred by a lock: its session goes back to the pool with its writes, and the next transaction that
      takes it is refused. */
  lemma BarredThenRefused(s: State, t: nat, u: nat) returns (s3: State, s4: State)
    requires t in s.txs && s.txs[t].begun && !s.txs[t].done && s.txs[t].ends == 0 && u !in s.txs
    ensures Enabled(s, Write(t)) && Enabled(Next(s, Write(t)), End(t))
    ensures Enabled(Next(Next(s, Write(t)), End(t)), EndReply(t, true))
    ensures s3 == Next(Next(Next(s, Write(t)), End(t)), EndReply(t, true))
    ensures Enabled(s3, BeginReused(u, s.txs[t].key)) && s4 == Next(s3, BeginReused(u, s.txs[t].key))
    ensures Live(s4, u) && s4.txs[u].session == s.txs[t].session && t in Held(s4, s.txs[t].session)
    ensures !Enabled(s4, BeginOk(u)) && Enabled(s4, BeginFails(u))
  {
    s3 := Next(Next(Next(s, Write(t)), End(t)), EndReply(t, true));
    s4 := Next(s3, BeginReused(u, s.txs[t].key));
  }

  // ---------------------------------------------------------------- two callers on one transaction

  /** Two commits or rollbacks of one transaction at once: its session is put back twice. */
  lemma EndedTwice(s: State, t: nat) returns (s2: State, s4: State)
    requires t in s.txs && s.txs[t].begun && !s.txs[t].done && s.txs[t].ends == 0
    ensures Enabled(s, End(t)) && Enabled(Next(s, End(t)), End(t)) && s2 == Next(Next(s, End(t)), End(t))
    ensures Enabled(s2, EndReply(t, false)) && Enabled(Next(s2, EndReply(t, false)), EndReply(t, false))
    ensures s4 == Next(Next(s2, EndReply(t, false)), EndReply(t, false))
    ensures List(s4.idle, s.txs[t].key) == List(s.idle, s.txs[t].key) + [s.txs[t].session, s.txs[t].session]
    ensures s4.txs.Keys == s.txs.Keys
  {
    s2 := Next(Next(s, End(t)), End(t));
    s4 := Next(Next(s2, EndReply(t, false)), EndReply(t, false));
  }

  /** And then two transactions can hold it: the pool is safe only for transactions used by one caller at a time. */
  lemma SharedAfterwards(s: State, t: nat, u: nat, v: nat) returns (s2: State, s4: State, s5: State, s6: State)
    requires t in s.txs && s.txs[t].begun && !s.txs[t].done && s.txs[t].ends == 0
    requires u !in s.txs && v !in s.txs && u != v
    ensures Enabled(s, End(t)) && Enabled(Next(s, End(t)), End(t)) && s2 == Next(Next(s, End(t)), End(t))
    ensures Enabled(s2, EndReply(t, false)) && Enabled(Next(s2, EndReply(t, false)), EndReply(t, false))
    ensures s4 == Next(Next(s2, EndReply(t, false)), EndReply(t, false))
    ensures Enabled(s4, BeginReused(u, s.txs[t].key)) && s5 == Next(s4, BeginReused(u, s.txs[t].key))
    ensures Enabled(s5, BeginReused(v, s.txs[t].key)) && s6 == Next(s5, BeginReused(v, s.txs[t].key))
    ensures Live(s6, u) && Live(s6, v) && s6.txs[u].session == s6.txs[v].session
  {
    s2, s4 := EndedTwice(s, t);
    var key := s.txs[t].key;
    s5 := Next(s4, BeginReused(u, key));
    assert List(s5.idle, key) == List(s.idle, key) + [s.txs[t].session];
    s6 := Next(s5, BeginReused(v, key));
  }
}
