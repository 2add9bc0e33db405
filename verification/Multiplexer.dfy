/** The request multiplexer (go/kdb/client/client.go, request, readLoop, nextCorrelation and Close) as
    the steps of any number of callers, the read loop and Close, interleaved at every lock and channel
    operation. */
module Multiplexer {
  /** A reply, with the correlation id it answers. */
  datatype Message = Message(id: nat, body: nat)

  /** A reply channel with room for one message; `sends` counts what was ever sent on it. */
  datatype Channel = Channel(buffer: seq<Message>, closed: bool, sends: nat)

  datatype Outcome = Reply(m: Message) | ErrClosed | TransportError | Cancelled | NotSent

  datatype Phase =
    | Numbered                   // nextCorrelation done
    | Registered                 // in pending, not yet sent
    | Waiting                    // in the select
    | Returned(outcome: Outcome)

  datatype Request = Request(id: nat, phase: Phase, channel: Channel)

  datatype Loop = Running | Delivering(r: nat, m: Message) | Ended

  datatype State = State(correlation: nat, closed: bool, pending: map<nat, nat>, requests: map<nat, Request>,
                         loop: Loop)

  datatype Step =
    | Number(r: nat)
    | GiveUp(r: nat)
    | Register(r: nat)
    | SendOk(r: nat)
    | SendFail(r: nat)
    | Receive(r: nat)
    | Cancel(r: nat)
    | Close
    | Frame(m: Message)
    | Deliver
    | End

  function WithPhase(s: State, r: nat, p: Phase): State
    requires r in s.requests
  {
    s.(requests := s.requests[r := s.requests[r].(phase := p)])
  }

  function CloseAll(s: State): map<nat, Request> {
    map r | r in s.requests ::
      if s.requests[r].id in s.pending && s.pending[s.requests[r].id] == r
      then s.requests[r].(channel := s.requests[r].channel.(closed := true)) else s.requests[r]
  }

  predicate Phased(s: State, r: nat, p: Phase) { r in s.requests && s.requests[r].phase == p }

  /** What a select on the reply channel can take: a message, or the news that it is closed. */
  predicate CanReceive(s: State, r: nat) {
    Phased(s, r, Waiting) && (s.requests[r].channel.buffer != [] || s.requests[r].channel.closed)
  }

  predicate Enabled(s: State, a: Step) {
    match a
    case Number(r) => r !in s.requests
    case GiveUp(r) => Phased(s, r, Numbered)
    case Register(r) => Phased(s, r, Numbered)
    case SendOk(r) => Phased(s, r, Registered)
    case SendFail(r) => Phased(s, r, Registered)
    case Receive(r) => CanReceive(s, r)
    case Cancel(r) => Phased(s, r, Waiting)
    case Close => true
    case Frame(_) => s.loop == Running
    case Deliver => s.loop.Delivering? && s.loop.r in s.requests && CanSend(s.requests[s.loop.r].channel)
    case End => s.loop == Running
  }

  /** A send goes through at once if there is room; on a closed channel it panics. */
  predicate CanSend(c: Channel) { |c.buffer| < 1 && !c.closed }

  /** The channel with one more message. */
  function Filled(c: Channel, m: Message): Channel { c.(buffer := c.buffer + [m], sends := c.sends + 1) }

  function Next(s: State, a: Step): State
    requires Enabled(s, a)
  {
    match a
    case Number(r) =>
      s.(correlation := s.correlation + 1,
         requests := s.requests[r := Request(s.correlation, Numbered, Channel([], false, 0))])
    case GiveUp(r) => WithPhase(s, r, Returned(NotSent))
    case Register(r) =>
      if s.closed then WithPhase(s, r, Returned(ErrClosed))
      else WithPhase(s, r, Registered).(pending := s.pending[s.requests[r].id := r])
    case SendOk(r) => WithPhase(s, r, Waiting)
    case SendFail(r) => WithPhase(s, r, Returned(TransportError)).(pending := s.pending - {s.requests[r].id})
    case Receive(r) =>
      var c := s.requests[r].channel;
      if c.buffer != [] then
        s.(requests := s.requests[r := s.requests[r].(phase := Returned(Reply(c.buffer[0])),
                                                      channel := c.(buffer := c.buffer[1..]))])
      else WithPhase(s, r, Returned(ErrClosed))
    case Cancel(r) => WithPhase(s, r, Returned(Cancelled)).(pending := s.pending - {s.requests[r].id})
    case Close => s.(closed := true)
    case Frame(m) =>
      if m.id in s.pending then s.(loop := Delivering(s.pending[m.id], m), pending := s.pending - {m.id}) else s
    case Deliver =>
      var q := s.requests[s.loop.r];
      s.(loop := Running, requests := s.requests[s.loop.r := q.(channel := Filled(q.channel, s.loop.m))])
    case End => s.(closed := true, pending := map[], requests := CloseAll(s), loop := Ended)
  }

  const START: State := State(0, false, map[], map[], Running)

  // ---------------------------------------------------------------- what every step keeps

  ghost predicate Unused(c: Channel) { c == Channel([], false, 0) }

  predicate Pending(s: State, r: nat) {
    r in s.requests && s.requests[r].id in s.pending && s.pending[s.requests[r].id] == r
  }

  predicate DeliveringTo(s: State, r: nat) { s.loop.Delivering? && s.loop.r == r }

  ghost predicate RequestOk(s: State, r: nat, q: Request) {
    && q.id < s.correlation
    && (q.channel.closed ==> q.channel.sends == 0)
    && q.channel.sends <= 1 && |q.channel.buffer| <= q.channel.sends
    && (forall m :: m in q.channel.buffer ==> m.id == q.id)
    && (q.phase.Returned? && q.phase.outcome.Reply? ==> q.phase.outcome.m.id == q.id)
    && (q.phase == Numbered ==> Unused(q.channel) && !Pending(s, r) && !DeliveringTo(s, r))
    && (q.phase == Registered || q.phase == Waiting ==>
          Pending(s, r) || DeliveringTo(s, r) || q.channel.buffer != [] || q.channel.closed)
  }

  ghost predicate PendingOk(s: State, id: nat, r: nat) {
    r in s.requests && s.requests[r].id == id && Unused(s.requests[r].channel) && !DeliveringTo(s, r)
  }

  ghost predicate Inv(s: State) {
    && (forall r :: r in s.requests ==> RequestOk(s, r, s.requests[r]))
    && (forall r, t :: r in s.requests && t in s.requests && r != t ==> s.requests[r].id != s.requests[t].id)
    && (forall id :: id in s.pending ==> PendingOk(s, id, s.pending[id]))
    && (s.loop.Delivering? ==>
        s.loop.r in s.requests && s.loop.m.id == s.requests[s.loop.r].id && Unused(s.requests[s.loop.r].channel))
    && (s.loop == Ended ==> s.closed && s.pending == map[])
  }

  lemma StartOk()
    ensures Inv(START)
  {}

  function Changed(s: State, r: nat, q: Request, drop: bool): State
    requires r in s.requests
  {
    s.(requests := s.requests[r := q], pending := if drop then s.pending - {s.requests[r].id} else s.pending)
  }

  /** What is known of one request. */
  lemma Known(s: State, r: nat)
    requires Inv(s) && r in s.requests
    ensures RequestOk(s, r, s.requests[r]) && (Pending(s, r) || DeliveringTo(s, r) ==> Unused(s.requests[r].channel))
    ensures s.requests[r].id in s.pending ==> s.pending[s.requests[r].id] == r
  {
    if s.requests[r].id in s.pending { assert PendingOk(s, s.requests[r].id, s.pending[s.requests[r].id]); }
  }

  lemma PendingKnown(s: State, id: nat)
    requires Inv(s) && id in s.pending
    ensures PendingOk(s, id, s.pending[id])
  {}

  lemma LoopKnown(s: State)
    requires Inv(s)
    ensures s.loop.Delivering? ==> s.loop.r in s.requests && Unused(s.requests[s.loop.r].channel)
    ensures s.correlation !in s.pending
  {
    forall id | id in s.pending ensures id < s.correlation {
      assert PendingOk(s, id, s.pending[id]);
      Known(s, s.pending[id]);
    }
  }

  lemma Distinct(s: State, r: nat, t: nat)
    requires Inv(s) && r in s.requests && t in s.requests && r != t
    ensures s.requests[r].id != s.requests[t].id
  {}

  lemma OtherKept(s: State, r: nat, q: Request, drop: bool, t: nat)
    requires Inv(s) && r in s.requests && t in s.requests && t != r
    ensures RequestOk(Changed(s, r, q, drop), t, s.requests[t])
  {
    assert RequestOk(s, t, s.requests[t]);
    assert s.requests[t].id != s.requests[r].id;
  }

  /** A step that changes one request, and perhaps takes it out of pending. */
  lemma OneChanges(s: State, r: nat, q: Request, drop: bool)
    requires Inv(s) && r in s.requests && q.id == s.requests[r].id && RequestOk(Changed(s, r, q, drop), r, q)
    requires (Pending(s, r) && !drop) || DeliveringTo(s, r) ==> Unused(q.channel)
    ensures Inv(Changed(s, r, q, drop))
  {
    var s' := Changed(s, r, q, drop);
    Known(s, r);
    forall t | t in s'.requests ensures RequestOk(s', t, s'.requests[t]) {
      if t != r { OtherKept(s, r, q, drop, t); }
    }
    forall id | id in s'.pending ensures PendingOk(s', id, s'.pending[id]) {
      assert PendingOk(s, id, s.pending[id]);
    }
    hide RequestOk, PendingOk;
  }

  lemma NumberStep(s: State, r: nat)
    requires Inv(s) && Enabled(s, Number(r))
    ensures Inv(Next(s, Number(r)))
  {
    var s' := Next(s, Number(r));
    forall t | t in s'.requests ensures RequestOk(s', t, s'.requests[t]) {
      if t != r { assert RequestOk(s, t, s.requests[t]); }
    }
    forall id | id in s'.pending ensures PendingOk(s', id, s'.pending[id]) { assert PendingOk(s, id, s.pending[id]); }
    forall t | t in s.requests ensures s.requests[t].id < s.correlation { assert RequestOk(s, t, s.requests[t]); }
    hide RequestOk, PendingOk;
  }

  lemma RegisterOther(s: State, r: nat, t: nat)
    requires Inv(s) && Enabled(s, Register(r)) && !s.closed && t in s.requests && t != r
    ensures RequestOk(Next(s, Register(r)), t, s.requests[t])
  {
    assert RequestOk(s, t, s.requests[t]) && s.requests[t].id != s.requests[r].id;
  }

  lemma RegisterStep(s: State, r: nat)
    requires Inv(s) && Enabled(s, Register(r)) && !s.closed
    ensures Inv(Next(s, Register(r)))
  {
    hide RequestOk, PendingOk;
    var s' := Next(s, Register(r));
    RegisterSelf(s, r);
    forall t | t in s'.requests && t != r ensures RequestOk(s', t, s'.requests[t]) { RegisterOther(s, r, t); }
    forall id | id in s'.pending ensures PendingOk(s', id, s'.pending[id]) { RegisterPending(s, r, id); }
  }

  lemma RegisterSelf(s: State, r: nat)
    requires Inv(s) && Enabled(s, Register(r)) && !s.closed
    ensures RequestOk(Next(s, Register(r)), r, Next(s, Register(r)).requests[r])
  {
    hide Inv;
    Known(s, r);
  }

  lemma RegisterPending(s: State, r: nat, id: nat)
    requires Inv(s) && Enabled(s, Register(r)) && !s.closed && id in Next(s, Register(r)).pending
    ensures var s' := Next(s, Register(r)); PendingOk(s', id, s'.pending[id])
  {
    hide Inv;
    Known(s, r);
    if id != s.requests[r].id { PendingKnown(s, id); }
  }

  /** The steps that change only the caller's own request. */
  lemma OwnStep(s: State, a: Step)
    requires Inv(s) && Enabled(s, a)
    requires a.GiveUp? || a.SendOk? || a.SendFail? || a.Receive? || a.Cancel? || (a.Register? && s.closed)
    ensures Inv(Next(s, a))
  {
    hide Inv;
    var r := a.r;
    Known(s, r);
    var s' := Next(s, a);
    var drop := a.SendFail? || a.Cancel?;
    assert s' == Changed(s, r, s'.requests[r], drop);
    OneChanges(s, r, s'.requests[r], drop);
  }

  lemma CloseStep(s: State)
    requires Inv(s)
    ensures Inv(Next(s, Close))
  {
    var s' := Next(s, Close);
    forall t | t in s'.requests ensures RequestOk(s', t, s'.requests[t]) { assert RequestOk(s, t, s.requests[t]); }
    forall id | id in s'.pending ensures PendingOk(s', id, s'.pending[id]) { assert PendingOk(s, id, s.pending[id]); }
    hide RequestOk, PendingOk;
  }

  /** A frame takes its request out of pending before the message is sent on. */
  lemma FrameStep(s: State, m: Message)
    requires Inv(s) && Enabled(s, Frame(m)) && m.id in s.pending
    ensures Inv(Next(s, Frame(m)))
  {
    var s' := Next(s, Frame(m));
    var r := s.pending[m.id];
    assert PendingOk(s, m.id, r);
    forall t | t in s'.requests ensures RequestOk(s', t, s'.requests[t]) {
      assert RequestOk(s, t, s.requests[t]) && (t != r ==> s.requests[t].id != m.id);
      Known(s, t);
    }
    forall id | id in s'.pending ensures PendingOk(s', id, s'.pending[id]) { assert PendingOk(s, id, s.pending[id]); }
    hide RequestOk, PendingOk;
  }

  lemma DeliverStep(s: State)
    requires Inv(s) && Enabled(s, Deliver)
    ensures Inv(Next(s, Deliver))
  {
    var s' := Next(s, Deliver);
    var r := s.loop.r;
    forall t | t in s'.requests ensures RequestOk(s', t, s'.requests[t]) {
      assert RequestOk(s, t, s.requests[t]);
    }
    forall id | id in s'.pending ensures PendingOk(s', id, s'.pending[id]) {
      assert PendingOk(s, id, s.pending[id]) && s.pending[id] != r;
    }
    hide RequestOk, PendingOk;
  }

  lemma EndStep(s: State)
    requires Inv(s) && Enabled(s, End)
    ensures Inv(Next(s, End))
  {
    var s' := Next(s, End);
    forall t | t in s'.requests ensures RequestOk(s', t, s'.requests[t]) && s'.requests[t].id == s.requests[t].id {
      Known(s, t);
    }
    hide RequestOk, PendingOk, CloseAll;
  }

  /** Every step of every interleaving keeps the invariant. */
  lemma StepOk(s: State, a: Step)
    requires Inv(s) && Enabled(s, a)
    ensures Inv(Next(s, a))
  {
    hide Inv;
    match a {
      case Number(r) => NumberStep(s, r);
      case Register(r) => if s.closed { OwnStep(s, a); } else { RegisterStep(s, r); }
      case Close => CloseStep(s);
      case Frame(m) => if m.id in s.pending { FrameStep(s, m); }
      case Deliver => DeliverStep(s);
      case End => EndStep(s);
      case _ => OwnStep(s, a);
    }
  }

  // ---------------------------------------------------------------- what follows, in any state reached

  /** The read loop never blocks on a reply channel, and never sends on a closed one. */
  lemma DeliveryGoesThrough(s: State)
    requires Inv(s) && s.loop.Delivering?
    ensures Enabled(s, Deliver)
  {}

  /** Once the read loop has ended nothing is pending, and whoever still waits is released at once. */
  lemma NobodyIsStranded(s: State, r: nat)
    requires Inv(s) && s.loop == Ended
    ensures s.pending == map[] && (Phased(s, r, Waiting) ==> Enabled(s, Receive(r)))
    ensures Phased(s, r, Numbered) ==> Next(s, Register(r)).requests[r].phase == Returned(ErrClosed)
  {
    if r in s.requests { Known(s, r); }
  }

  /** Frame `m` goes through to the caller of `r`: the loop takes it, sends it on without blocking, and the caller is
      given that very message. */
  ghost predicate Reaches(s: State, r: nat, m: Message) {
    && Enabled(s, Frame(m))
    && var taken := Next(s, Frame(m));
    && !Pending(taken, r) && Enabled(taken, Deliver)
    && var sent := Next(taken, Deliver);
    && sent.loop == Running && Enabled(sent, Receive(r))
    && Phased(Next(sent, Receive(r)), r, Returned(Reply(m)))
  }

  /** A frame with the id of a waiting request reaches its caller. */
  lemma ReplyReaches(s: State, r: nat, m: Message)
    requires Inv(s) && s.loop == Running && Phased(s, r, Waiting) && Pending(s, r) && m.id == s.requests[r].id
    ensures Reaches(s, r, m)
  {
    Known(s, r);
    hide Inv;
  }

  /** A frame moves the loop exactly when some request is pending under its id; a stray one changes nothing. */
  lemma StrayFrameIsDropped(s: State, m: Message)
    requires Inv(s) && s.loop == Running
    ensures Next(s, Frame(m)) == s <==> forall r :: r in s.requests && s.requests[r].id == m.id ==> !Pending(s, r)
  {
    if m.id in s.pending { assert PendingOk(s, m.id, s.pending[m.id]) && Pending(s, s.pending[m.id]); }
    hide Inv;
  }

  /** The end of the loop releases a waiting request with ErrClosed. */
  lemma EndReleases(s: State, r: nat)
    requires Inv(s) && s.loop == Running && Phased(s, r, Waiting) && Pending(s, r)
    ensures Enabled(s, End) && Enabled(Next(s, End), Receive(r))
    ensures Phased(Next(Next(s, End), Receive(r)), r, Returned(ErrClosed))
  {
    Known(s, r);
    hide Inv;
  }

  /** What one who waits can wait for: an answer already there, one on its way, or, while the loop runs, a frame with
      its id or the end of the loop. */
  lemma WaitingIsReleased(s: State, r: nat)
    requires Inv(s) && Phased(s, r, Waiting)
    ensures
      || Enabled(s, Receive(r))
      || (DeliveringTo(s, r) && Enabled(s, Deliver) && Enabled(Next(s, Deliver), Receive(r)))
      || (Pending(s, r) && s.loop != Ended)
  {
    Known(s, r);
  }

  // ---------------------------------------------------------------- whole runs

  ghost predicate Run(states: seq<State>, steps: seq<Step>) {
    && |states| == |steps| + 1 && states[0] == START
    && forall i :: 0 <= i < |steps| ==> Enabled(states[i], steps[i]) && states[i + 1] == Next(states[i], steps[i])
  }

  lemma {:induction false} RunOk(states: seq<State>, steps: seq<Step>, i: nat)
    requires Run(states, steps) && i < |states|
    ensures Inv(states[i])
  {
    if i == 0 {
      StartOk();
    } else {
      hide Inv, Enabled, Next;
      RunOk(states, steps, i - 1);
      StepOk(states[i - 1], steps[i - 1]);
      assert states[i - 1 + 1] == Next(states[i - 1], steps[i - 1]);
    }
  }

  /** What a request keeps from one state to a later one. */
  ghost predicate Lasts(s: State, s': State, r: nat) {
    && s.correlation <= s'.correlation && (s.loop == Ended ==> s'.loop == Ended)
    && (r in s.requests ==>
          && r in s'.requests && s'.requests[r].id == s.requests[r].id
          && (s.requests[r].phase.Returned? ==> s'.requests[r].phase == s.requests[r].phase)
          && (s.requests[r].channel.closed ==> s'.requests[r].channel == s.requests[r].channel))
    && (r !in s.requests && r in s'.requests ==> s'.requests[r].id >= s.correlation)
  }

  lemma StepLasts(s: State, a: Step, r: nat)
    requires Inv(s) && Enabled(s, a)
    ensures Lasts(s, Next(s, a), r)
  {
    if r in s.requests { Known(s, r); }
    hide RequestOk, PendingOk;
  }

  lemma LastsThrough(s: State, s': State, s'': State, r: nat)
    requires Lasts(s, s', r) && Lasts(s', s'', r)
    ensures Lasts(s, s'', r)
  {}

  lemma LastsNow(s: State, r: nat)
    ensures Lasts(s, s, r)
  {}

  lemma {:induction false} RunLasts(states: seq<State>, steps: seq<Step>, i: nat, j: nat, r: nat)
    requires Run(states, steps) && i <= j < |states|
    ensures Lasts(states[i], states[j], r)
    decreases j
  {
    hide Inv, Enabled, Next, Lasts;
    if i < j {
      RunOk(states, steps, j - 1);
      RunLasts(states, steps, i, j - 1, r);
      StepLasts(states[j - 1], steps[j - 1], r);
      assert states[j - 1 + 1] == Next(states[j - 1], steps[j - 1]);
      LastsThrough(states[i], states[j - 1], states[j], r);
    } else {
      LastsNow(states[i], r);
    }
  }

  /** The caller's step that ends request `r` with outcome `o`. */
  ghost predicate Gives(s: State, a: Step, r: nat, o: Outcome) {
    match a
    case GiveUp(t) => t == r && o == NotSent
    case SendFail(t) => t == r && o == TransportError
    case Cancel(t) => t == r && o == Cancelled
    case Register(t) => t == r && s.closed && o == ErrClosed
    case Receive(t) =>
      && t == r && r in s.requests
      && var b := s.requests[r].channel.buffer;
      o == if b == [] then ErrClosed else Reply(b[0])
    case _ => false
  }

  ghost predicate Given(states: seq<State>, steps: seq<Step>, j: nat, r: nat, o: Outcome)
    requires Run(states, steps) && j < |states|
  {
    exists k :: 0 <= k < j && Gives(states[k], steps[k], r, o)
  }

  lemma OutcomeStep(s: State, a: Step, r: nat, o: Outcome)
    requires Enabled(s, a)
    ensures Phased(Next(s, a), r, Returned(o)) <==> Phased(s, r, Returned(o)) || Gives(s, a, r, o)
  {}

  lemma RunStep(states: seq<State>, steps: seq<Step>, j: nat)
    requires Run(states, steps) && 0 < j < |states|
    ensures Inv(states[j - 1]) && Enabled(states[j - 1], steps[j - 1]) && states[j] == Next(states[j - 1], steps[j - 1])
  {
    RunOk(states, steps, j - 1);
    hide Inv, Enabled, Next;
    assert states[j - 1 + 1] == Next(states[j - 1], steps[j - 1]);
  }

  /** A request has returned with an outcome exactly when one of its caller's own steps gave it that outcome: a reply
      or ErrClosed received, ErrClosed on registering after Close, or its own failure or cancellation. */
  lemma {:induction false} OutcomeIsExact(states: seq<State>, steps: seq<Step>, j: nat, r: nat, o: Outcome)
    requires Run(states, steps) && j < |states|
    ensures Phased(states[j], r, Returned(o)) <==> Given(states, steps, j, r, o)
  {
    hide Inv, Enabled, Next, Gives;
    if j > 0 {
      OutcomeIsExact(states, steps, j - 1, r, o);
      RunStep(states, steps, j);
      OutcomeStep(states[j - 1], steps[j - 1], r, o);
      if Given(states, steps, j, r, o) && !Gives(states[j - 1], steps[j - 1], r, o) {
        var k :| 0 <= k < j && Gives(states[k], steps[k], r, o);
        assert Given(states, steps, j - 1, r, o);
      }
    }
  }

  /** Message `m` has been taken in for request `r`: it is being sent, lies in the channel, or has been handed over. */
  ghost predicate Holds(s: State, r: nat, m: Message) {
    && r in s.requests
    && (|| (DeliveringTo(s, r) && s.loop.m == m)
        || m in s.requests[r].channel.buffer
        || s.requests[r].phase == Returned(Reply(m)))
  }

  /** The frame the loop takes in for request `r`. */
  ghost predicate Takes(s: State, a: Step, r: nat, m: Message) {
    a == Frame(m) && Pending(s, r) && m.id == s.requests[r].id
  }

  lemma HoldsStep(s: State, a: Step, r: nat, m: Message)
    requires Inv(s) && Enabled(s, a) && Holds(Next(s, a), r, m)
    ensures Holds(s, r, m) || Takes(s, a, r, m)
  {
    hide Inv, RequestOk;
    LoopKnown(s);
    if r in s.requests { Known(s, r); }
    if a.Frame? && m.id in s.pending { PendingKnown(s, m.id); }
  }

  /** No reply out of nothing: what a caller is given came in as a frame with its id while its request was pending. */
  lemma {:induction false} RepliesCameIn(states: seq<State>, steps: seq<Step>, j: nat, r: nat, m: Message)
    requires Run(states, steps) && j < |states| && Holds(states[j], r, m)
    ensures exists k :: 0 <= k < j && Takes(states[k], steps[k], r, m)
  {
    hide Inv, Enabled, Next, Holds, Takes;
    if j == 0 {
      StartHoldsNothing(r, m);
    } else {
      RunStep(states, steps, j);
      HoldsStep(states[j - 1], steps[j - 1], r, m);
      if Holds(states[j - 1], r, m) { RepliesCameIn(states, steps, j - 1, r, m); }
    }
  }

  lemma StartHoldsNothing(r: nat, m: Message)
    ensures !Holds(START, r, m)
  {}

  /** The answer to `r` is settled: it is `m`, on its way or handed over, unless the caller gives up first. */
  ghost predicate Answered(s: State, r: nat, m: Message) {
    && r in s.requests && !Pending(s, r) && s.requests[r].phase != Numbered
    && !s.requests[r].channel.closed
    && (|| (DeliveringTo(s, r) && s.loop.m == m && !s.requests[r].phase.Returned?)
        || (s.requests[r].channel.buffer == [m] && !s.requests[r].phase.Returned? && !DeliveringTo(s, r))
        || s.requests[r].phase == Returned(Reply(m))
        || s.requests[r].phase == Returned(Cancelled) || s.requests[r].phase == Returned(TransportError))
  }

  lemma TakenIsAnswered(s: State, r: nat, m: Message)
    requires Inv(s) && Enabled(s, Frame(m)) && Takes(s, Frame(m), r, m) && !s.requests[r].phase.Returned?
    ensures Answered(Next(s, Frame(m)), r, m)
  {
    Known(s, r);
    hide Inv;
  }

  lemma AnsweredStep(s: State, a: Step, r: nat, m: Message)
    requires Inv(s) && Enabled(s, a) && Answered(s, r, m)
    ensures Answered(Next(s, a), r, m)
  {
    hide Inv, RequestOk;
    Known(s, r);
    if a.Register? && a.r != r { Distinct(s, a.r, r); }
    if a.Frame? && a.m.id in s.pending { PendingKnown(s, a.m.id); }
  }

  /** Once a frame has come in for a request, then in every state after it the request is answered with that frame:
      it is being sent, or can be received, or was returned, unless its caller cancelled or failed to send. */
  lemma {:induction false} FramesAreAnswers(states: seq<State>, steps: seq<Step>, i: nat, j: nat, r: nat, m: Message)
    requires Run(states, steps) && i < j < |states| && Takes(states[i], steps[i], r, m)
    ensures Answered(states[j], r, m)
    ensures Phased(states[j], r, Waiting) ==>
      if DeliveringTo(states[j], r) then Enabled(states[j], Deliver) else Enabled(states[j], Receive(r))
    decreases j
  {
    RunStep(states, steps, j);
    RunOk(states, steps, j);
    var s, a := states[j - 1], steps[j - 1];
    if i == j - 1 {
      OnlyLiveRequestsPend(states, steps, i, r);
      TakenIsAnswered(s, r, m);
    } else {
      FramesAreAnswers(states, steps, i, j - 1, r, m);
      AnsweredStep(s, a, r, m);
    }
    hide Next, RequestOk, PendingOk;
    if DeliveringTo(states[j], r) { DeliveryGoesThrough(states[j]); }
  }

  /** No leaks: only a request that is registered or waiting is pending. */
  lemma {:induction false} OnlyLiveRequestsPend(states: seq<State>, steps: seq<Step>, j: nat, r: nat)
    requires Run(states, steps) && j < |states|
    ensures Pending(states[j], r) ==> Phased(states[j], r, Registered) || Phased(states[j], r, Waiting)
  {
    hide Inv, Enabled, Next;
    if j > 0 {
      OnlyLiveRequestsPend(states, steps, j - 1, r);
      RunStep(states, steps, j);
      PendingStep(states[j - 1], steps[j - 1], r);
    }
  }

  ghost predicate LivePends(s: State, r: nat) {
    Pending(s, r) ==> Phased(s, r, Registered) || Phased(s, r, Waiting)
  }

  lemma PendingStep(s: State, a: Step, r: nat)
    requires Inv(s) && Enabled(s, a) && LivePends(s, r)
    ensures LivePends(Next(s, a), r)
  {
    hide Inv, PendingOk;
    LoopKnown(s);
    if r in s.requests { Known(s, r); }
  }

  /** The client is closed exactly when Close was called or the read loop has ended; from then on a request that
      registers is refused with ErrClosed. */
  lemma {:induction false} ClosedIsExact(states: seq<State>, steps: seq<Step>, j: nat)
    requires Run(states, steps) && j < |states|
    ensures states[j].closed <==> Close in steps[..j] || End in steps[..j]
    ensures states[j].loop == Ended <==> End in steps[..j]
  {
    hide Inv, Enabled, Next;
    if j > 0 {
      ClosedIsExact(states, steps, j - 1);
      RunStep(states, steps, j);
      assert steps[..j] == steps[..j - 1] + [steps[j - 1]];
      ClosedStep(states[j - 1], steps[j - 1]);
    }
  }

  lemma ClosedStep(s: State, a: Step)
    requires Enabled(s, a)
    ensures Next(s, a).closed <==> s.closed || a == Close || a == End
    ensures Next(s, a).loop == Ended <==> s.loop == Ended || a == End
  {}

  ghost predicate ClosedWithLoop(s: State, r: nat) {
    r in s.requests && s.requests[r].channel.closed ==> s.loop == Ended
  }

  lemma ClosedWithLoopStep(s: State, a: Step, r: nat)
    requires Enabled(s, a) && ClosedWithLoop(s, r)
    ensures ClosedWithLoop(Next(s, a), r)
  {}

  lemma {:induction false} OnlyEndCloses(states: seq<State>, steps: seq<Step>, j: nat, r: nat)
    requires Run(states, steps) && j < |states|
    ensures ClosedWithLoop(states[j], r)
  {
    hide Inv, Enabled, Next;
    if j > 0 {
      OnlyEndCloses(states, steps, j - 1, r);
      RunStep(states, steps, j);
      ClosedWithLoopStep(states[j - 1], steps[j - 1], r);
    }
  }

  /** A caller in the select is released by a reply with its id that came in while it was pending, or, once the read
      loop has ended, with ErrClosed; by nothing else. */
  lemma ReleasedByReplyOrEnd(states: seq<State>, steps: seq<Step>, k: nat, r: nat)
    requires Run(states, steps) && k < |steps| && steps[k] == Receive(r)
    ensures Phased(states[k], r, Waiting)
    ensures
      if End in steps[..k] && states[k].requests[r].channel.closed
      then Phased(states[k + 1], r, Returned(ErrClosed))
      else exists i, m :: 0 <= i < k && Takes(states[i], steps[i], r, m) && Phased(states[k + 1], r, Returned(Reply(m)))
  {
    var s := states[k];
    RunStep(states, steps, k + 1);
    assert CanReceive(s, r);
    Known(s, r);
    OnlyEndCloses(states, steps, k, r);
    ClosedIsExact(states, steps, k);
    var b := s.requests[r].channel.buffer;
    hide Inv, Run, RequestOk;
    if b != [] {
      var m := b[0];
      assert m in b && Holds(s, r, m);
      RepliesCameIn(states, steps, k, r, m);
      hide Takes;
      var i :| 0 <= i < k && Takes(states[i], steps[i], r, m);
    }
  }

  /** A caller whose frame went out waits until it returns, and only such a one waits. */
  lemma {:induction false} SentIsWaiting(states: seq<State>, steps: seq<Step>, j: nat, r: nat)
    requires Run(states, steps) && j < |states|
    ensures SendOk(r) in steps[..j] ==> r in states[j].requests && WaitsOrReturned(states[j].requests[r].phase)
    ensures Phased(states[j], r, Waiting) ==> SendOk(r) in steps[..j]
  {
    hide Inv, Enabled, Next, Phased, WaitsOrReturned;
    if j == 0 {
      NobodyAtStart(r);
    } else {
      SentIsWaiting(states, steps, j - 1, r);
      RunStep(states, steps, j);
      assert steps[..j] == steps[..j - 1] + [steps[j - 1]];
      SentStep(states[j - 1], steps[j - 1], r);
    }
  }

  lemma NobodyAtStart(r: nat)
    ensures !Phased(START, r, Waiting)
  {}

  lemma SentStep(s: State, a: Step, r: nat)
    requires Enabled(s, a)
    ensures a == SendOk(r) || (r in s.requests && WaitsOrReturned(s.requests[r].phase)) ==>
            r in Next(s, a).requests && WaitsOrReturned(Next(s, a).requests[r].phase)
    ensures Phased(Next(s, a), r, Waiting) ==> Phased(s, r, Waiting) || a == SendOk(r)
  {}

  ghost predicate WaitsOrReturned(p: Phase) {
    p == Waiting || (p.Returned? && p.outcome != NotSent && p.outcome != TransportError)
  }

  /** In every interleaving of callers, cancellation, send failures, Close and the end of the read loop:
      correlation ids never repeat, a caller is given only a message with its own id, a reply channel
      carries at most one message and none once closed, a frame with the id of a waiting request reaches its caller,
      and after the read loop nothing is pending and nobody waits for a reply that cannot come. */
  lemma EveryInterleaving(states: seq<State>, steps: seq<Step>, i: nat, r: nat, t: nat, m: Message)
    requires Run(states, steps) && i < |states|
    ensures var s := states[i];
      && (r in s.requests && t in s.requests && r != t ==> s.requests[r].id != s.requests[t].id)
      && (r in s.requests ==>
            && s.requests[r].channel.sends <= 1 && (s.requests[r].channel.closed ==> s.requests[r].channel.sends == 0)
            && (s.requests[r].phase.Returned? && s.requests[r].phase.outcome.Reply? ==>
                s.requests[r].phase.outcome.m.id == s.requests[r].id))
      && (s.loop.Delivering? ==> Enabled(s, Deliver))
      && (Phased(s, r, Waiting) && Pending(s, r) && s.loop == Running && m.id == s.requests[r].id ==> Reaches(s, r, m))
      && (s.loop == Ended ==> s.pending == map[] && (Phased(s, r, Waiting) ==> Enabled(s, Receive(r))))
  {
    RunOk(states, steps, i);
    if r in states[i].requests { Known(states[i], r); }
    if states[i].loop.Delivering? { DeliveryGoesThrough(states[i]); }
    if states[i].loop == Ended { NobodyIsStranded(states[i], r); }
    var s := states[i];
    hide Reaches;
    if Phased(s, r, Waiting) && Pending(s, r) && s.loop == Running && m.id == s.requests[r].id {
      ReplyReaches(s, r, m);
    }
  }
}
