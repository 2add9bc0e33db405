/** Lane assignment for the commit graph (go/kdb/control/graph.go), row by row.

    `lanes[i]` is the hash lane `i` waits for; the empty string is a free lane. */
module Lanes {
  datatype Commit = Commit(hash: string, parents: seq<string>)
  datatype Row = Row(lane: nat, through: seq<nat>, merges: seq<nat>, width: nat)

  /** The first lane holding `want`, or the number of lanes. */
  function IndexOf(lanes: seq<string>, want: string): (i: nat)
    ensures i <= |lanes| && (i < |lanes| ==> lanes[i] == want)
    ensures forall k :: 0 <= k < i ==> lanes[k] != want
  {
    if lanes == [] || lanes[0] == want then 0 else 1 + IndexOf(lanes[1..], want)
  }

  /** The lane `claim` chooses: one waiting for the hash, else a free one, else a new one. */
  function Claimed(lanes: seq<string>, hash: string): (i: nat)
    ensures i <= |lanes|
  {
    var waiting := IndexOf(lanes, hash);
    if hash != "" && waiting < |lanes| then waiting else IndexOf(lanes, "")
  }

  function Extended(lanes: seq<string>, i: nat): (r: seq<string>)
    requires i <= |lanes|
    ensures i < |r| && lanes <= r && |r| <= |lanes| + 1
  {
    if i == |lanes| then lanes + [""] else lanes
  }

  /** Every other lane waiting for the commit is released. */
  function Released(lanes: seq<string>, lane: nat, hash: string): (r: seq<string>)
    ensures |r| == |lanes|
  {
    seq(|lanes|, i requires 0 <= i < |lanes| => if i != lane && lanes[i] == hash then "" else lanes[i])
  }

  /** The occupied lanes other than `lane`, in order, from `i` on. */
  function OthersFrom(lanes: seq<string>, lane: nat, i: nat): seq<nat>
    decreases |lanes| - i
  {
    if i >= |lanes| then []
    else if i != lane && lanes[i] != "" then [i] + OthersFrom(lanes, lane, i + 1)
    else OthersFrom(lanes, lane, i + 1)
  }

  datatype Fan = Fan(lanes: seq<string>, merges: seq<nat>)

  /** The lane a further parent goes to: one already waiting for it, else a claimed one. */
  function ParentLane(lanes: seq<string>, parent: string): (i: nat)
    ensures i <= |lanes|
  {
    var waiting := IndexOf(lanes, parent);
    if waiting < |lanes| then waiting else IndexOf(lanes, "")
  }

  function WithParent(lanes: seq<string>, parent: string): (r: seq<string>)
    ensures |lanes| <= |r|
  {
    if IndexOf(lanes, parent) < |lanes| then lanes
    else Extended(lanes, ParentLane(lanes, parent))[ParentLane(lanes, parent) := parent]
  }

  /** The parents after the first, installed one by one. */
  function FanOut(lanes: seq<string>, lane: nat, parents: seq<string>): Fan
    decreases |parents|
  {
    if parents == [] then Fan(lanes, [])
    else
      var target := ParentLane(lanes, parents[0]);
      var rest := FanOut(WithParent(lanes, parents[0]), lane, parents[1..]);
      Fan(rest.lanes, (if target != lane then [target] else []) + rest.merges)
  }

  /** What one row does: the commit's lane, the lanes once its own waiters are settled, the lanes it
      leaves, and the lanes of its further parents. */
  datatype Turn = Turn(lane: nat, mid: seq<string>, after: seq<string>, merges: seq<nat>)

  function Advance(lanes: seq<string>, c: Commit): (t: Turn)
    ensures t.lane < |t.mid| && |lanes| <= |t.mid|
  {
    var lane := Claimed(lanes, c.hash);
    var mid := Released(Extended(lanes, lane), lane, c.hash);
    var own := mid[lane := if c.parents != [] then c.parents[0] else ""];
    var fan := FanOut(own, lane, if c.parents != [] then c.parents[1..] else []);
    Turn(lane, mid, fan.lanes, fan.merges)
  }

  /** The lanes after the first `n` rows. */
  function After(commits: seq<Commit>, n: nat): seq<string>
    requires n <= |commits|
  {
    if n == 0 then [] else Advance(After(commits, n - 1), commits[n - 1]).after
  }

  function TurnAt(commits: seq<Commit>, i: nat): Turn
    requires i < |commits|
  {
    Advance(After(commits, i), commits[i])
  }

  function Max(a: nat, b: nat): nat { if a < b then b else a }

  /** One more than the highest occupied lane. */
  function OccupiedWidth(lanes: seq<string>): nat {
    if lanes == [] then 0
    else if lanes[|lanes| - 1] != "" then |lanes|
    else OccupiedWidth(lanes[..|lanes| - 1])
  }

  function WidthOver(xs: seq<nat>): nat {
    if xs == [] then 0 else Max(WidthOver(xs[..|xs| - 1]), xs[|xs| - 1] + 1)
  }

  function RowOf(t: Turn): Row {
    var through := OthersFrom(t.mid, t.lane, 0);
    Row(t.lane, through, t.merges, Max(Max(OccupiedWidth(t.after), t.lane + 1), WidthOver(through)))
  }

  function RowAt(commits: seq<Commit>, i: nat): Row
    requires i < |commits|
  {
    RowOf(TurnAt(commits, i))
  }

  function Widest(commits: seq<Commit>, n: nat): nat
    requires n <= |commits|
  {
    if n == 0 then 0 else Max(Widest(commits, n - 1), RowAt(commits, n - 1).width)
  }

  /** The drawing: each row, under one gutter width. */
  function Drawing(commits: seq<Commit>): seq<Row> {
    seq(|commits|, i requires 0 <= i < |commits| => RowAt(commits, i).(width := Widest(commits, |commits|)))
  }

  // ---------------------------------------------------------------- one row

  /** Further parents never disturb an occupied lane. */
  lemma {:induction false} FanOutKeeps(lanes: seq<string>, lane: nat, parents: seq<string>)
    ensures var out := FanOut(lanes, lane, parents).lanes;
      |lanes| <= |out| && forall k :: 0 <= k < |lanes| && lanes[k] != "" ==> out[k] == lanes[k]
    decreases |parents|
  {
    if parents != [] {
      FanOutKeeps(WithParent(lanes, parents[0]), lane, parents[1..]);
    }
  }

  /** Each further parent has a lane waiting for it when the row is done: the commit's own or one of
      the merge lanes. */
  lemma {:induction false} FanOutInstalls(lanes: seq<string>, lane: nat, parents: seq<string>, k: nat)
    requires k < |parents| && parents[k] != ""
    ensures exists t :: Installed(FanOut(lanes, lane, parents), lane, parents[k], t)
    decreases |parents|
  {
    var target := ParentLane(lanes, parents[0]);
    var next := WithParent(lanes, parents[0]);
    var out := FanOut(lanes, lane, parents);
    var rest := FanOut(next, lane, parents[1..]);
    if k == 0 {
      FanOutKeeps(next, lane, parents[1..]);
      assert next[target] == parents[0];
      assert Installed(out, lane, parents[0], target);
    } else {
      FanOutInstalls(next, lane, parents[1..], k - 1);
      var t :| Installed(rest, lane, parents[k], t);
      assert Installed(out, lane, parents[k], t);
    }
  }

  ghost predicate Installed(fan: Fan, lane: nat, parent: string, t: nat) {
    t < |fan.lanes| && fan.lanes[t] == parent && (t == lane || t in fan.merges)
  }

  /** A lane waiting for another commit passes the row untouched. */
  lemma WaitersPass(lanes: seq<string>, c: Commit, k: nat)
    requires k < |lanes| && lanes[k] != "" && lanes[k] != c.hash
    ensures var t := Advance(lanes, c);
      k != t.lane && t.mid[k] == lanes[k] && k < |t.after| && t.after[k] == lanes[k]
  {
    var t := Advance(lanes, c);
    var own := t.mid[t.lane := if c.parents != [] then c.parents[0] else ""];
    FanOutKeeps(own, t.lane, if c.parents != [] then c.parents[1..] else []);
  }

  /** A lane waiting for this very commit becomes its lane or is released. */
  lemma WaitersArrive(lanes: seq<string>, c: Commit, k: nat)
    requires k < |lanes| && lanes[k] == c.hash
    ensures var t := Advance(lanes, c); k == t.lane || t.mid[k] == ""
  {}

  /** The lane of the `k`-th parent after the row. */
  ghost predicate EdgeLane(t: Turn, c: Commit, k: nat, l: nat)
    requires k < |c.parents|
  {
    && l < |t.after| && t.after[l] == c.parents[k]
    && (k == 0 ==> l == t.lane)
    && (l == t.lane || l in t.merges)
  }

  lemma ParentsInstalled(lanes: seq<string>, c: Commit, k: nat)
    requires k < |c.parents| && c.parents[k] != ""
    ensures exists l :: EdgeLane(Advance(lanes, c), c, k, l)
  {
    var t := Advance(lanes, c);
    var own := t.mid[t.lane := c.parents[0]];
    var fan := FanOut(own, t.lane, c.parents[1..]);
    if k == 0 {
      FanOutKeeps(own, t.lane, c.parents[1..]);
      assert EdgeLane(t, c, 0, t.lane);
    } else {
      FanOutInstalls(own, t.lane, c.parents[1..], k - 1);
      var l :| Installed(fan, t.lane, c.parents[k], l);
      assert EdgeLane(t, c, k, l);
    }
  }

  // ---------------------------------------------------------------- edges over the whole drawing

  lemma AfterTurn(commits: seq<Commit>, i: nat)
    requires i < |commits|
    ensures After(commits, i + 1) == TurnAt(commits, i).after
  {}

  /** Lane `l` waits for `p` after every row from `i` to the one before `j`. */
  ghost predicate Waits(commits: seq<Commit>, l: nat, p: string, i: nat, j: nat)
    requires j <= |commits|
  {
    forall m :: i < m <= j ==> l < |After(commits, m)| && After(commits, m)[l] == p
  }

  lemma {:induction false} KeepsWaiting(commits: seq<Commit>, l: nat, p: string, i: nat, j: nat)
    requires i < j <= |commits| && p != "" && l < |After(commits, i + 1)| && After(commits, i + 1)[l] == p
    requires forall m :: i < m < j ==> commits[m].hash != p
    ensures Waits(commits, l, p, i, j)
    decreases j
  {
    hide Advance, After;
    if j > i + 1 {
      KeepsWaiting(commits, l, p, i, j - 1);
      AfterTurn(commits, j - 1);
      WaitersPass(After(commits, j - 1), commits[j - 1], l);
    }
  }

  /** A drawn edge: the line leaves row `i` for its `k`-th parent on lane `l`, is unbroken on that lane
      down to row `j`, and there meets the parent's node or ends. */
  ghost predicate Drawn(commits: seq<Commit>, i: nat, k: nat, j: nat, l: nat)
    requires i < j <= |commits| && k < |commits[i].parents|
  {
    && EdgeLane(TurnAt(commits, i), commits[i], k, l)
    && Waits(commits, l, commits[i].parents[k], i, j)
    && (j < |commits| && commits[j].hash == commits[i].parents[k] ==>
          l == TurnAt(commits, j).lane || (l < |TurnAt(commits, j).mid| && TurnAt(commits, j).mid[l] == ""))
  }

  /** Every edge is continuous: from a commit to any of its parents, down to the next row of that
      parent, or to the end of the window when the parent is not in it. No order of the commits is
      assumed. */
  lemma EdgesAreContinuous(commits: seq<Commit>, i: nat, k: nat, j: nat)
    requires i < j <= |commits| && k < |commits[i].parents| && commits[i].parents[k] != ""
    requires forall m :: i < m < j ==> commits[m].hash != commits[i].parents[k]
    ensures exists l :: Drawn(commits, i, k, j, l)
  {
    hide Advance, After;
    ParentsInstalled(After(commits, i), commits[i], k);
    assert After(commits, i + 1) == TurnAt(commits, i).after by { AfterTurn(commits, i); }
    var l: nat :| EdgeLane(TurnAt(commits, i), commits[i], k, l);
    KeepsWaiting(commits, l, commits[i].parents[k], i, j);
    if j < |commits| && commits[j].hash == commits[i].parents[k] {
      assert l < |After(commits, j)| && After(commits, j)[l] == commits[j].hash;
      WaitersArrive(After(commits, j), commits[j], l);
    }
    assert Drawn(commits, i, k, j, l);
  }

  // ---------------------------------------------------------------- which lane a commit takes

  /** `l` is the leftmost lane holding `want`. */
  ghost predicate Leftmost(lanes: seq<string>, want: string, l: nat) {
    l < |lanes| && lanes[l] == want && forall k :: 0 <= k < l ==> lanes[k] != want
  }

  /** A commit that is awaited is drawn on the leftmost lane that waits for it; any other on the leftmost free lane,
      or on a new one if none is free. */
  lemma TakesTheWaitingLane(commits: seq<Commit>, i: nat)
    requires i < |commits|
    ensures var lanes, hash, lane := After(commits, i), commits[i].hash, RowAt(commits, i).lane;
      if hash != "" && hash in lanes then Leftmost(lanes, hash, lane)
      else if "" in lanes then Leftmost(lanes, "", lane)
      else lane == |lanes|
  {
    hide After, FanOut, Released;
  }

  /** From a commit to the next row of its first parent: the parent is on the same lane if no lane further left
      waits for it there, and otherwise on the leftmost that does. */
  lemma FirstParentBelow(commits: seq<Commit>, i: nat, j: nat)
    requires i < j < |commits| && commits[i].parents != [] && commits[j].hash == commits[i].parents[0] != ""
    requires forall m :: i < m < j ==> commits[m].hash != commits[j].hash
    ensures Leftmost(After(commits, j), commits[j].hash, RowAt(commits, j).lane)
    ensures RowAt(commits, j).lane == RowAt(commits, i).lane <==>
            AwaitedNowhereLeft(commits, j, commits[j].hash, RowAt(commits, i).lane)
    ensures RowAt(commits, j).lane <= RowAt(commits, i).lane
  {
    hide After, RowAt, Advance;
    var p, l := commits[j].hash, RowAt(commits, i).lane;
    LaneOfTurn(commits, i);
    ParentsInstalled(After(commits, i), commits[i], 0);
    AfterTurn(commits, i);
    KeepsWaiting(commits, l, p, i, j);
    assert Waits(commits, l, p, i, j) && l < |After(commits, j)| && After(commits, j)[l] == p;
    TakesTheWaitingLane(commits, j);
  }

  /** Before row `j`, no lane to the left of `l` waits for `p`. */
  ghost predicate AwaitedNowhereLeft(commits: seq<Commit>, j: nat, p: string, l: nat)
    requires j <= |commits|
  {
    forall k :: 0 <= k < l && k < |After(commits, j)| ==> After(commits, j)[k] != p
  }

  /** A chain of first parents from row `i` on, each the next row, that nothing else awaits: one straight column. */
  ghost predicate Chain(commits: seq<Commit>, i: nat, j: nat)
    requires i <= j < |commits|
  {
    forall m :: i <= m < j ==> Link(commits, m)
  }

  /** The next row is the first parent of this one, and no row above has named it. */
  ghost predicate Link(commits: seq<Commit>, m: nat)
    requires m + 1 < |commits|
  {
    && commits[m].parents != [] && commits[m].parents[0] == commits[m + 1].hash != ""
    && !Pending(commits, m, commits[m + 1].hash)
  }

  lemma {:induction false} StraightColumn(commits: seq<Commit>, i: nat, j: nat)
    requires i <= j < |commits| && Chain(commits, i, j)
    ensures RowAt(commits, j).lane == RowAt(commits, i).lane
    decreases j
  {
    hide RowAt, AwaitedNowhereLeft, Pending, Leftmost, After;
    if i < j {
      assert Chain(commits, i, j - 1);
      StraightColumn(commits, i, j - 1);
      assert Link(commits, j - 1);
      NothingFurtherLeft(commits, j - 1);
      FirstParentBelow(commits, j - 1, j);
    }
  }

  /** The first parent of a row, not awaited before it, is awaited after it on no lane further left. */
  lemma NothingFurtherLeft(commits: seq<Commit>, i: nat)
    requires i < |commits| && commits[i].parents != [] && commits[i].parents[0] != ""
    requires !Pending(commits, i, commits[i].parents[0])
    ensures AwaitedNowhereLeft(commits, i + 1, commits[i].parents[0], RowAt(commits, i).lane)
  {
    var p, c := commits[i].parents[0], commits[i];
    FrontierIsExact(commits, i, p);
    AfterTurn(commits, i);
    var lanes := After(commits, i);
    var t := TurnAt(commits, i);
    hide After, RowAt, Pending;
    assert RowAt(commits, i).lane == t.lane by { LaneOfTurn(commits, i); }
    var own := t.mid[t.lane := p];
    assert own[t.lane] == p && forall k :: 0 <= k < |own| && own[k] == p ==> k == t.lane;
    FanOutKeeps(own, t.lane, c.parents[1..]);
    FanOutShares(own, t.lane, c.parents[1..], p);
  }

  lemma LaneOfTurn(commits: seq<Commit>, i: nat)
    requires i < |commits|
    ensures RowAt(commits, i).lane == TurnAt(commits, i).lane
  {}

  /** A further parent that some lane waits for already gets no lane of its own. */
  lemma {:induction false} FanOutShares(lanes: seq<string>, lane: nat, parents: seq<string>, p: string)
    requires p != "" && p in lanes
    ensures var out := FanOut(lanes, lane, parents).lanes;
      forall k :: 0 <= k < |out| && out[k] == p ==> k < |lanes| && lanes[k] == p
    decreases |parents|
  {
    if parents != [] {
      var next := WithParent(lanes, parents[0]);
      ParentAwaits(lanes, parents[0], p);
      FanOutShares(next, lane, parents[1..], p);
      if parents[0] == p { IndexIn(lanes, p); }
    }
  }

  lemma IndexIn(lanes: seq<string>, p: string)
    requires p in lanes
    ensures IndexOf(lanes, p) < |lanes|
  {}

  /** Each further parent that nothing awaits yet gets one lane, and only one. */
  lemma {:induction false} FanOutOnce(lanes: seq<string>, lane: nat, parents: seq<string>, p: string)
    requires p != "" && p !in lanes
    ensures var out := FanOut(lanes, lane, parents).lanes;
      forall j, k :: 0 <= j < |out| && 0 <= k < |out| && out[j] == p && out[k] == p ==> j == k
    decreases |parents|
  {
    if parents != [] {
      var next := WithParent(lanes, parents[0]);
      ParentAwaits(lanes, parents[0], p);
      assert FanOut(lanes, lane, parents).lanes == FanOut(next, lane, parents[1..]).lanes;
      if parents[0] == p {
        assert forall k :: 0 <= k < |next| && next[k] == p ==> k == ParentLane(lanes, p);
        FanOutShares(next, lane, parents[1..], p);
      } else {
        FanOutOnce(next, lane, parents[1..], p);
      }
    }
  }

  /** Over the whole drawing: a further parent that some lane waits for already, or that the row's own lane takes
      over, gets no new lane; any other gets one lane and no more. */
  lemma ParentsShareLanes(commits: seq<Commit>, i: nat, k: nat)
    requires i < |commits| && 0 < k < |commits[i].parents| && commits[i].parents[k] != ""
    ensures var t, p := TurnAt(commits, i), commits[i].parents[k];
      var own := t.mid[t.lane := commits[i].parents[0]];
      if p in own then forall x :: 0 <= x < |t.after| && t.after[x] == p ==> x < |own| && own[x] == p
      else forall x, y :: 0 <= x < |t.after| && 0 <= y < |t.after| && t.after[x] == p && t.after[y] == p ==> x == y
  {
    hide After, FanOut;
    var t, p := TurnAt(commits, i), commits[i].parents[k];
    var own := t.mid[t.lane := commits[i].parents[0]];
    assert t.after == FanOut(own, t.lane, commits[i].parents[1..]).lanes;
    if p in own {
      FanOutShares(own, t.lane, commits[i].parents[1..], p);
    } else {
      FanOutOnce(own, t.lane, commits[i].parents[1..], p);
    }
  }

  /** A linear history is one column, one lane wide, with nothing passing it. */
  lemma {:induction false} LinearHistory(commits: seq<Commit>, i: nat)
    requires i < |commits| && (forall m :: 0 <= m < |commits| ==> commits[m].hash != "")
    requires forall m :: 0 <= m < |commits| - 1 ==> commits[m].parents == [commits[m + 1].hash]
    requires |commits[|commits| - 1].parents| <= 1 && "" !in commits[|commits| - 1].parents
    ensures RowAt(commits, i) == Row(0, [], [], 1)
    ensures i < |commits| - 1 ==> After(commits, i + 1) == [commits[i + 1].hash]
  {
    hide After, Advance, RowOf;
    if i > 0 { LinearHistory(commits, i - 1); }
    assert i < |commits| - 1 ==> commits[i].parents == [commits[i + 1].hash];
    assert commits[i].hash != "";
    AfterTurn(commits, i);
    FrontierStart(commits, "");
    LinearRow(After(commits, i), commits[i]);
  }

  lemma LinearRow(lanes: seq<string>, c: Commit)
    requires (lanes == [] || lanes == [c.hash]) && c.hash != "" && |c.parents| <= 1 && "" !in c.parents
    ensures RowOf(Advance(lanes, c)) == Row(0, [], [], 1)
    ensures Advance(lanes, c).after == [if c.parents != [] then c.parents[0] else ""]
  {
    var t := Advance(lanes, c);
    assert t.lane == 0 && t.mid == [if lanes == [] then "" else c.hash];
    assert t.after == [if c.parents != [] then c.parents[0] else ""];
    assert OthersFrom(t.mid, 0, 1) == [] && OccupiedWidth(t.after[..0]) == 0;
  }

  // ---------------------------------------------------------------- the frontier

  /** Some row so far named `p` as a parent and no row since has been `p`. */
  ghost predicate Pending(commits: seq<Commit>, n: nat, p: string)
    requires n <= |commits|
  {
    exists i :: 0 <= i < n && p in commits[i].parents && forall m :: i < m < n ==> commits[m].hash != p
  }

  lemma {:induction false} FanOutAwaits(lanes: seq<string>, lane: nat, parents: seq<string>, p: string)
    requires p != ""
    ensures p in FanOut(lanes, lane, parents).lanes <==> p in lanes || p in parents
    decreases |parents|
  {
    if parents != [] {
      var next := WithParent(lanes, parents[0]);
      FanOutAwaits(next, lane, parents[1..], p);
      ParentAwaits(lanes, parents[0], p);
      assert parents == [parents[0]] + parents[1..];
    }
  }

  lemma ParentAwaits(lanes: seq<string>, parent: string, p: string)
    requires p != ""
    ensures p in WithParent(lanes, parent) <==> p in lanes || p == parent
  {
    var next := WithParent(lanes, parent);
    var i := ParentLane(lanes, parent);
    if IndexOf(lanes, parent) == |lanes| {
      assert next[i] == parent;
      if p in lanes {
        var k :| 0 <= k < |lanes| && lanes[k] == p;
        assert next[k] == p || k == i;
      }
    }
  }

  lemma AdvanceAwaits(lanes: seq<string>, c: Commit, p: string)
    requires p != ""
    ensures p in Advance(lanes, c).after <==> (p in lanes && p != c.hash) || p in c.parents
  {
    hide FanOut;
    var t := Advance(lanes, c);
    var own := t.mid[t.lane := if c.parents != [] then c.parents[0] else ""];
    FanOutAwaits(own, t.lane, if c.parents != [] then c.parents[1..] else [], p);
    if c.parents != [] { assert c.parents == [c.parents[0]] + c.parents[1..]; assert own[t.lane] == c.parents[0]; }
    if p in lanes && p != c.hash {
      var k :| 0 <= k < |lanes| && lanes[k] == p;
      WaitersPass(lanes, c, k);
    }
    if p in own {
      var k :| 0 <= k < |own| && own[k] == p;
      assert k == t.lane || (k < |lanes| && lanes[k] == p && p != c.hash);
    }
  }

  lemma PendingStep(commits: seq<Commit>, n: nat, p: string)
    requires n < |commits|
    ensures Pending(commits, n + 1, p) <==>
      (Pending(commits, n, p) && p != commits[n].hash) || p in commits[n].parents
  {
    if Pending(commits, n + 1, p) && p !in commits[n].parents {
      var i :| 0 <= i < n + 1 && p in commits[i].parents && forall m :: i < m < n + 1 ==> commits[m].hash != p;
      assert i < n;
    }
    if Pending(commits, n, p) && p != commits[n].hash {
      var i :| 0 <= i < n && p in commits[i].parents && forall m :: i < m < n ==> commits[m].hash != p;
      assert forall m :: i < m < n + 1 ==> commits[m].hash != p;
    }
  }

  lemma FrontierStart(commits: seq<Commit>, p: string)
    ensures After(commits, 0) == [] && !Pending(commits, 0, p)
  {}

  /** After each row the lanes await exactly the parents named and not since drawn. */
  lemma {:induction false} FrontierIsExact(commits: seq<Commit>, n: nat, p: string)
    requires n <= |commits| && p != ""
    ensures p in After(commits, n) <==> Pending(commits, n, p)
  {
    hide Advance, Pending, After;
    if n == 0 {
      FrontierStart(commits, p);
    } else {
      AfterTurn(commits, n - 1);
      FrontierIsExact(commits, n - 1, p);
      AdvanceAwaits(After(commits, n - 1), commits[n - 1], p);
      PendingStep(commits, n - 1, p);
    }
  }

  /** No commit names a parent that stands at its own row or above. */
  ghost predicate ChildrenFirst(commits: seq<Commit>) {
    forall i, m :: 0 <= m <= i < |commits| ==> commits[m].hash !in commits[i].parents
  }

  /** Newest first, the lanes await the parents named so far less the commits drawn so far. */
  lemma FrontierNewestFirst(commits: seq<Commit>, n: nat, p: string)
    requires ChildrenFirst(commits) && n <= |commits| && p != ""
    ensures p in After(commits, n) <==>
      (exists i :: 0 <= i < n && p in commits[i].parents) && forall m :: 0 <= m < n ==> commits[m].hash != p
  {
    FrontierIsExact(commits, n, p);
    if Pending(commits, n, p) {
      var i :| 0 <= i < n && p in commits[i].parents && forall m :: i < m < n ==> commits[m].hash != p;
      assert forall m :: 0 <= m <= i ==> commits[m].hash != p;
    }
  }

  // ---------------------------------------------------------------- lines passing a row

  lemma {:induction false} OthersAre(lanes: seq<string>, lane: nat, i: nat, x: nat)
    ensures x in OthersFrom(lanes, lane, i) <==> i <= x < |lanes| && x != lane && lanes[x] != ""
    decreases |lanes| - i
  {
    if i < |lanes| { OthersAre(lanes, lane, i + 1, x); }
  }

  /** Through lists exactly the other lanes that wait for the same hash before and after the row. */
  lemma ThroughIsExact(commits: seq<Commit>, i: nat, x: nat)
    requires i < |commits| && commits[i].hash !in commits[i].parents
    ensures var before, after := After(commits, i), After(commits, i + 1);
      x in RowAt(commits, i).through <==>
      x != RowAt(commits, i).lane && x < |before| && before[x] != "" && x < |after| && after[x] == before[x]
  {
    var lanes, c := After(commits, i), commits[i];
    var t := Advance(lanes, c);
    OthersAre(t.mid, t.lane, 0, x);
    if x < |lanes| && lanes[x] != "" && x != t.lane {
      if lanes[x] != c.hash {
        WaitersPass(lanes, c, x);
      } else if x < |t.after| && t.after[x] == c.hash {
        assert c.hash in t.after;
        AdvanceAwaits(lanes, c, c.hash);
      }
    }
  }

  ghost predicate AscendingFrom(xs: seq<nat>, lo: nat) {
    (forall a :: 0 <= a < |xs| ==> lo <= xs[a]) && forall a, b :: 0 <= a < b < |xs| ==> xs[a] < xs[b]
  }

  /** The lines passing a row are listed from left to right. */
  lemma {:induction false} OthersAscend(lanes: seq<string>, lane: nat, i: nat)
    ensures AscendingFrom(OthersFrom(lanes, lane, i), i)
    decreases |lanes| - i
  {
    if i < |lanes| {
      OthersAscend(lanes, lane, i + 1);
      Prepends(OthersFrom(lanes, lane, i + 1), i);
    }
  }

  lemma Prepends(xs: seq<nat>, i: nat)
    requires AscendingFrom(xs, i + 1)
    ensures AscendingFrom(xs, i) && AscendingFrom([i] + xs, i)
  {
    assert forall a :: 0 < a < |[i] + xs| ==> ([i] + xs)[a] == xs[a - 1];
  }

  // ---------------------------------------------------------------- width and reuse

  lemma {:induction false} WidthOverBounds(xs: seq<nat>, x: nat)
    requires x in xs
    ensures x < WidthOver(xs)
  {
    var init := xs[..|xs| - 1];
    assert xs == init + [xs[|xs| - 1]];
    if x in init { WidthOverBounds(init, x); }
  }

  lemma {:induction false} OccupiedWidthBounds(lanes: seq<string>, x: nat)
    requires x < |lanes| && lanes[x] != ""
    ensures x < OccupiedWidth(lanes)
  {
    if lanes[|lanes| - 1] == "" {
      assert lanes[..|lanes| - 1][x] == lanes[x];
      OccupiedWidthBounds(lanes[..|lanes| - 1], x);
    }
  }

  lemma {:induction false} MergesAwaitParents(lanes: seq<string>, lane: nat, parents: seq<string>, x: nat)
    requires "" !in parents && x in FanOut(lanes, lane, parents).merges
    ensures var out := FanOut(lanes, lane, parents).lanes; x < |out| && out[x] in parents && x != lane
    decreases |parents|
  {
    var next := WithParent(lanes, parents[0]);
    var rest := FanOut(next, lane, parents[1..]);
    assert forall p :: p in parents[1..] ==> p in parents;
    if x in rest.merges {
      MergesAwaitParents(next, lane, parents[1..], x);
    } else {
      assert parents[0] in parents;
      FanOutKeeps(next, lane, parents[1..]);
    }
  }

  lemma {:induction false} WidestBounds(commits: seq<Commit>, n: nat, i: nat)
    requires i < n <= |commits|
    ensures RowAt(commits, i).width <= Widest(commits, n)
  {
    hide RowAt;
    if i < n - 1 { WidestBounds(commits, n - 1, i); }
  }

  /** A merge line goes to a lane, not the commit's own, that waits for a further parent. */
  lemma MergesGoToParents(commits: seq<Commit>, i: nat, x: nat)
    requires i < |commits| && "" !in commits[i].parents && x in RowAt(commits, i).merges
    ensures x != RowAt(commits, i).lane && |commits[i].parents| > 1
    ensures x < |After(commits, i + 1)| && After(commits, i + 1)[x] in commits[i].parents[1..]
  {
    var t, c := TurnAt(commits, i), commits[i];
    if c.parents != [] {
      assert forall p :: p in c.parents[1..] ==> p in c.parents;
      MergesAwaitParents(t.mid[t.lane := c.parents[0]], t.lane, c.parents[1..], x);
    }
  }

  /** The gutter holds every column of every row, and a row's own lane is neither passed through nor
      merged to. */
  lemma GutterHoldsEveryColumn(commits: seq<Commit>, i: nat, x: nat)
    requires i < |commits| && "" !in commits[i].parents
    ensures var row := Drawing(commits)[i];
      && row.lane < row.width && (x in row.through || x in row.merges ==> x < row.width && x != row.lane)
  {
    var t := TurnAt(commits, i);
    var row := RowAt(commits, i);
    WidestBounds(commits, |commits|, i);
    if x in row.through {
      OthersAre(t.mid, t.lane, 0, x);
      WidthOverBounds(row.through, x);
    }
    if x in row.merges {
      MergesGoToParents(commits, i, x);
      assert forall p :: p in commits[i].parents[1..] ==> p in commits[i].parents;
      OccupiedWidthBounds(t.after, x);
    }
  }

  /** The gutter is no wider than it has to be: some row has its node in the last column, or a line passing it, or a
      lane that waits below it. */
  ghost predicate Reaches(commits: seq<Commit>, i: nat, x: nat)
    requires i < |commits|
  {
    || x == RowAt(commits, i).lane || x in RowAt(commits, i).through
    || (x < |After(commits, i + 1)| && After(commits, i + 1)[x] != "")
  }

  lemma {:induction false} GutterIsTight(commits: seq<Commit>, n: nat)
    requires 0 < n <= |commits|
    ensures Widest(commits, n) > 0 && Reached(commits, n, Widest(commits, n) - 1)
  {
    hide RowAt, After, Reaches;
    RowIsTight(commits, n - 1);
    if n > 1 { GutterIsTight(commits, n - 1); }
  }

  ghost predicate Reached(commits: seq<Commit>, n: nat, x: nat)
    requires n <= |commits|
  {
    exists i :: 0 <= i < n && Reaches(commits, i, x)
  }

  lemma RowIsTight(commits: seq<Commit>, i: nat)
    requires i < |commits|
    ensures RowAt(commits, i).width > 0 && Reaches(commits, i, RowAt(commits, i).width - 1)
  {
    hide After, Advance, OccupiedWidth, WidthOver, OthersFrom;
    AfterTurn(commits, i);
    var t := TurnAt(commits, i);
    OccupiedIsTight(t.after);
    OverIsTight(OthersFrom(t.mid, t.lane, 0));
  }

  lemma {:induction false} OccupiedIsTight(lanes: seq<string>)
    ensures var w := OccupiedWidth(lanes); w > 0 ==> w <= |lanes| && lanes[w - 1] != ""
  {
    if lanes != [] && lanes[|lanes| - 1] == "" { OccupiedIsTight(lanes[..|lanes| - 1]); }
  }

  lemma {:induction false} OverIsTight(xs: seq<nat>)
    ensures xs != [] ==> WidthOver(xs) > 0 && WidthOver(xs) - 1 in xs
    ensures xs == [] ==> WidthOver(xs) == 0
  {
    if xs != [] {
      OverIsTight(xs[..|xs| - 1]);
      assert xs == xs[..|xs| - 1] + [xs[|xs| - 1]];
    }
  }

  ghost predicate AllOccupied(lanes: seq<string>) { "" !in lanes }

  /** A row adds lanes only when none is free: for its own node, or for a further parent. */
  lemma {:induction false} FanOutGrowsWhenFull(lanes: seq<string>, lane: nat, parents: seq<string>)
    requires "" !in parents
    ensures var out := FanOut(lanes, lane, parents).lanes; |out| == |lanes| || AllOccupied(out)
    decreases |parents|
  {
    if parents != [] {
      var next := WithParent(lanes, parents[0]);
      assert parents[0] in parents && forall p :: p in parents[1..] ==> p in parents;
      FanOutGrowsWhenFull(next, lane, parents[1..]);
      if |next| > |lanes| {
        assert AllOccupied(next);
        FanOutStaysFull(next, lane, parents[1..]);
      }
    }
  }

  lemma {:induction false} FanOutStaysFull(lanes: seq<string>, lane: nat, parents: seq<string>)
    requires "" !in parents && AllOccupied(lanes)
    ensures AllOccupied(FanOut(lanes, lane, parents).lanes)
    decreases |parents|
  {
    if parents != [] {
      assert parents[0] in parents && forall p :: p in parents[1..] ==> p in parents;
      FanOutStaysFull(WithParent(lanes, parents[0]), lane, parents[1..]);
    }
  }

  lemma RowGrowsWhenFull(lanes: seq<string>, c: Commit)
    requires "" !in c.parents
    ensures var t := Advance(lanes, c);
      || |t.after| == |lanes|
      || AllOccupied(t.after)
      || (|t.after| == |lanes| + 1 && AllOccupied(lanes))
  {
    var t := Advance(lanes, c);
    var rest := if c.parents != [] then c.parents[1..] else [];
    assert forall p :: p in rest ==> p in c.parents;
    FanOutGrowsWhenFull(t.mid[t.lane := if c.parents != [] then c.parents[0] else ""], t.lane, rest);
    if |t.mid| > |lanes| { assert IndexOf(lanes, "") == |lanes|; }
  }

  /** The drawing is never wider than it had to be at some row: at that row every lane was in use, or
      every lane but the one opened for its commit. */
  ghost predicate NeededAt(commits: seq<Commit>, n: nat, m: nat)
    requires m < n <= |commits|
  {
    || (|After(commits, m + 1)| == |After(commits, n)| && AllOccupied(After(commits, m + 1)))
    || (|After(commits, m)| + 1 == |After(commits, n)| && AllOccupied(After(commits, m)))
  }

  lemma {:induction false} LanesAreReused(commits: seq<Commit>, n: nat)
    requires n <= |commits| && forall i :: 0 <= i < n ==> "" !in commits[i].parents
    ensures After(commits, n) == [] || exists m :: 0 <= m < n && NeededAt(commits, n, m)
  {
    if n > 0 {
      LanesAreReused(commits, n - 1);
      RowGrowsWhenFull(After(commits, n - 1), commits[n - 1]);
      if |After(commits, n)| == |After(commits, n - 1)| {
        if After(commits, n - 1) != [] {
          var m :| 0 <= m < n - 1 && NeededAt(commits, n - 1, m);
          assert NeededAt(commits, n, m);
        }
      } else {
        assert NeededAt(commits, n, n - 1);
      }
    }
  }

  // ---------------------------------------------------------------- the loops of the source

  method Claim(lanes: seq<string>, hash: string) returns (out: seq<string>, lane: nat)
    ensures lane == Claimed(lanes, hash) && out == Extended(lanes, lane)
  {
    out := lanes;
    for i := 0 to |lanes|
      invariant hash != "" ==> forall k :: 0 <= k < i ==> lanes[k] != hash
    {
      if lanes[i] == hash && hash != "" { FirstIs(lanes, hash, i); return lanes, i; }
    }
    for i := 0 to |lanes|
      invariant forall k :: 0 <= k < i ==> lanes[k] != ""
    {
      if lanes[i] == "" { FirstIs(lanes, "", i); return lanes, i; }
    }
    out := lanes + [""];
    lane := |lanes|;
  }

  lemma FirstIs(lanes: seq<string>, want: string, i: nat)
    requires i < |lanes| && lanes[i] == want && forall k :: 0 <= k < i ==> lanes[k] != want
    ensures IndexOf(lanes, want) == i
  {}

  method FindLane(lanes: seq<string>, want: string) returns (target: int)
    ensures target == if IndexOf(lanes, want) < |lanes| then IndexOf(lanes, want) else -1
  {
    for i := 0 to |lanes|
      invariant forall k :: 0 <= k < i ==> lanes[k] != want
    {
      if lanes[i] == want { FirstIs(lanes, want, i); return i; }
    }
    return -1;
  }

  /** The release loop and the collection of the lines passing the row. */
  method Settle(lanes: seq<string>, lane: nat, hash: string) returns (out: seq<string>, through: seq<nat>)
    ensures out == Released(lanes, lane, hash) && through == OthersFrom(out, lane, 0)
  {
    hide OthersFrom;
    out := lanes;
    for i := 0 to |lanes|
      invariant |out| == |lanes|
      invariant forall k :: 0 <= k < i ==> out[k] == Released(lanes, lane, hash)[k]
      invariant forall k :: i <= k < |lanes| ==> out[k] == lanes[k]
    {
      if i != lane && out[i] == hash { out := out[i := ""]; }
    }
    assert out == Released(lanes, lane, hash);
    through := [];
    assert OthersFrom(out, lane, 0) == [] + OthersFrom(out, lane, 0);
    for i := 0 to |out|
      invariant OthersFrom(out, lane, 0) == through + OthersFrom(out, lane, i)
    {
      OthersTurn(out, lane, i, through);
      if i != lane && out[i] != "" { through := through + [i]; }
    }
    OthersDone(out, lane);
    assert through + [] == through;
  }

  lemma OthersTurn(lanes: seq<string>, lane: nat, i: nat, so: seq<nat>)
    requires i < |lanes|
    ensures so + OthersFrom(lanes, lane, i) ==
            (if i != lane && lanes[i] != "" then so + [i] else so) + OthersFrom(lanes, lane, i + 1)
  {}

  lemma OthersDone(lanes: seq<string>, lane: nat)
    ensures OthersFrom(lanes, lane, |lanes|) == []
  {}

  lemma FanOutTurn(lanes: seq<string>, lane: nat, parents: seq<string>, i: nat)
    requires i < |parents|
    ensures var next := FanOut(WithParent(lanes, parents[i]), lane, parents[i + 1..]);
      var target := ParentLane(lanes, parents[i]);
      FanOut(lanes, lane, parents[i..]) == Fan(next.lanes, (if target != lane then [target] else []) + next.merges)
  {
    assert parents[i..][1..] == parents[i + 1..];
  }

  /** The loop over the further parents. */
  method Fork(lanes: seq<string>, lane: nat, parents: seq<string>) returns (out: seq<string>, merges: seq<nat>)
    ensures Fan(out, merges) == FanOut(lanes, lane, parents)
  {
    hide FanOut;
    out, merges := lanes, [];
    assert parents[0..] == parents;
    assert FanOut(lanes, lane, parents).merges == [] + FanOut(lanes, lane, parents).merges;
    for i := 0 to |parents|
      invariant FanOut(lanes, lane, parents).lanes == FanOut(out, lane, parents[i..]).lanes
      invariant FanOut(lanes, lane, parents).merges == merges + FanOut(out, lane, parents[i..]).merges
    {
      FanOutTurn(out, lane, parents, i);
      ghost var rest := FanOut(WithParent(out, parents[i]), lane, parents[i + 1..]).merges;
      ghost var target' := ParentLane(out, parents[i]);
      assert merges + ([target'] + rest) == merges + [target'] + rest;
      assert merges + ([] + rest) == merges + rest;
      var target := FindLane(out, parents[i]);
      if target < 0 {
        out, target := Claim(out, "");
        out := out[target := parents[i]];
      }
      if target != lane { merges := merges + [target]; }
    }
    assert parents[|parents|..] == [] && merges + [] == merges;
    FanOutDone(out, lane);
  }

  lemma FanOutDone(lanes: seq<string>, lane: nat)
    ensures FanOut(lanes, lane, []) == Fan(lanes, [])
  {}

  method RowWidth(lanes: seq<string>, lane: nat, through: seq<nat>) returns (width: nat)
    ensures width == Max(Max(OccupiedWidth(lanes), lane + 1), WidthOver(through))
  {
    width := 0;
    for i := 0 to |lanes|
      invariant width == OccupiedWidth(lanes[..i]) <= i
    {
      assert lanes[..i + 1][..i] == lanes[..i];
      if lanes[i] != "" && i + 1 > width { width := i + 1; }
    }
    assert lanes[..|lanes|] == lanes;
    width := Max(width, lane + 1);
    ghost var base := width;
    for k := 0 to |through|
      invariant width == Max(base, WidthOver(through[..k]))
    {
      assert through[..k + 1][..k] == through[..k];
      width := Max(width, through[k] + 1);
    }
    assert through[..|through|] == through;
  }

  /** The body of the loop over the commits. */
  method DrawRow(lanes: seq<string>, c: Commit) returns (out: seq<string>, row: Row)
    ensures out == Advance(lanes, c).after && row == RowOf(Advance(lanes, c))
  {
    hide FanOut, Released, OthersFrom, OccupiedWidth, WidthOver, Claimed;
    var lane: nat, through, merges;
    out, lane := Claim(lanes, c.hash);
    out, through := Settle(out, lane, c.hash);
    out := out[lane := if |c.parents| > 0 then c.parents[0] else ""];
    out, merges := Fork(out, lane, if |c.parents| > 0 then c.parents[1..] else []);
    var width := RowWidth(out, lane, through);
    row := Row(lane, through, merges, width);
  }

  /** assignLanes. */
  method AssignLanes(commits: seq<Commit>) returns (rows: array<Row>)
    ensures fresh(rows) && rows[..] == Drawing(commits)
  {
    hide Advance, RowOf;
    rows := new Row[|commits|](_ => Row(0, [], [], 0));
    var lanes: seq<string> := [];
    for idx := 0 to |commits|
      invariant lanes == After(commits, idx)
      invariant forall k :: 0 <= k < idx ==> rows[k] == RowAt(commits, k)
    {
      var row;
      lanes, row := DrawRow(lanes, commits[idx]);
      rows[idx] := row;
    }
    var widest := 0;
    for i := 0 to rows.Length
      invariant widest == Widest(commits, i)
    {
      widest := Max(widest, rows[i].width);
    }
    for i := 0 to rows.Length
      invariant forall k :: 0 <= k < i ==> rows[k] == RowAt(commits, k).(width := widest)
      invariant forall k :: i <= k < rows.Length ==> rows[k] == RowAt(commits, k)
    {
      rows[i] := rows[i].(width := widest);
    }
  }
}
