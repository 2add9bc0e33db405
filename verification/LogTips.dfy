/** The streaming summary of a log (go/kdb/backup/backup.go, logTips): how many distinct commits it
    holds and which of them no other names as a parent. */
module LogTips {
  datatype Frame = Frame(hash: nat, parents: seq<nat>)

  // ---------------------------------------------------------------- the simple summary

  function Seen(log: seq<Frame>): set<nat> { set f | f in log :: f.hash }

  ghost predicate NamedByOther(log: seq<Frame>, h: nat) { exists f :: f in log && f.hash != h && h in f.parents }

  ghost predicate NamedAtAll(log: seq<Frame>, h: nat) { exists f :: f in log && h in f.parents }

  /** The first frame of every commit, in order. */
  ghost function Distinct(log: seq<Frame>): seq<Frame> {
    if log == [] then []
    else
      var init, f := log[..|log| - 1], log[|log| - 1];
      if f.hash in Seen(init) then Distinct(init) else Distinct(init) + [f]
  }

  lemma {:induction false} DistinctSeen(log: seq<Frame>)
    ensures Seen(Distinct(log)) == Seen(log) && (forall f :: f in Distinct(log) ==> f in log)
    ensures |Seen(log)| == |Distinct(log)|
  {
    if log != [] {
      var init, f := log[..|log| - 1], log[|log| - 1];
      DistinctSeen(init);
      assert log == init + [f];
      assert Seen(log) == Seen(init) + {f.hash};
      assert Seen(Distinct(init) + [f]) == Seen(Distinct(init)) + {f.hash};
    }
  }

  /** A commit's hash determines its parents. */
  ghost predicate Consistent(log: seq<Frame>) {
    forall f, g :: f in log && g in log && f.hash == g.hash ==> f == g
  }

  lemma DistinctKeepsAll(log: seq<Frame>, f: Frame)
    requires Consistent(log) && f in log
    ensures f in Distinct(log)
  {
    DistinctSeen(log);
    assert f.hash in Seen(Distinct(log));
  }

  // ---------------------------------------------------------------- the streaming one

  class Tips {
    var seen: set<nat>
    var heads: set<nat>
    var named: set<nat>
    ghost var log: seq<Frame>  // the frames streamed past

    ghost predicate Valid()
      reads this
    {
      && seen == Seen(log)
      && (forall h :: h in heads <==> h in seen && !NamedByOther(Distinct(log), h))
      && (forall h :: h in named <==> h !in seen && NamedAtAll(Distinct(log), h))
    }

    constructor ()
      ensures Valid() && log == []
    {
      seen, heads, named, log := {}, {}, {}, [];
    }

    /** add. */
    method Add(f: Frame)
      requires Valid()
      modifies this
      ensures Valid() && log == old(log) + [f]
    {
      ghost var d := Distinct(log);
      DistinctSnoc(log, f);
      DistinctSeen(log);
      hide Distinct, Seen, NamedByOther, NamedAtAll;
      if f.hash in seen {
        log := log + [f];
        return;
      }
      seen := seen + {f.hash};
      Name(f.parents);
      if f.hash in named { named := named - {f.hash}; } else { heads := heads + {f.hash}; }
      log := log + [f];
      NamedSnoc(d, f);
    }

    /** The loop of add. */
    method Name(parents: seq<nat>)
      modifies this`heads, this`named
      ensures forall h :: h in heads <==> h in old(heads) && !(h in parents && h in seen)
      ensures forall h :: h in named <==> h in old(named) || (h in parents && h !in seen)
    {
      for i := 0 to |parents|
        invariant forall h :: h in heads <==> h in old(heads) && !(h in parents[..i] && h in seen)
        invariant forall h :: h in named <==> h in old(named) || (h in parents[..i] && h !in seen)
      {
        var p := parents[i];
        assert parents[..i + 1] == parents[..i] + [p];
        if p in seen { heads := heads - {p}; } else { named := named + {p}; }
      }
      assert parents[..|parents|] == parents;
    }

    /** count. */
    method Count() returns (n: nat)
      requires Valid()
      ensures n == |Seen(log)| == |Distinct(log)|
    {
      DistinctSeen(log);
      return |seen|;
    }

    /** tips: the heads in ascending order. */
    method Sorted() returns (out: seq<nat>)
      requires Valid()
      ensures Ascending(out) && forall h :: h in out <==> h in heads
    {
      out := [];
      var left := heads;
      while left != {}
        invariant left <= heads && Ascending(out) && forall h :: h in out <==> h in heads - left
        decreases |left|
      {
        var h :| h in left;
        out := Inserted(out, h);
        left := left - {h};
      }
    }
  }

  lemma DistinctSnoc(log: seq<Frame>, f: Frame)
    ensures Distinct(log + [f]) == if f.hash in Seen(log) then Distinct(log) else Distinct(log) + [f]
    ensures Seen(log + [f]) == Seen(log) + {f.hash}
  {
    assert (log + [f])[..|log|] == log;
  }

  lemma NamedSnoc(d: seq<Frame>, f: Frame)
    ensures forall h :: NamedByOther(d + [f], h) <==> NamedByOther(d, h) || (f.hash != h && h in f.parents)
    ensures forall h :: NamedAtAll(d + [f], h) <==> NamedAtAll(d, h) || h in f.parents
    ensures forall h :: h !in Seen(d) ==> (NamedByOther(d, h) <==> NamedAtAll(d, h))
  {
    forall h ensures NamedByOther(d + [f], h) <==> NamedByOther(d, h) || (f.hash != h && h in f.parents) {
      if NamedByOther(d, h) { var g :| g in d && g.hash != h && h in g.parents; assert g in d + [f]; }
      if f.hash != h && h in f.parents { assert f in d + [f]; }
    }
    forall h ensures NamedAtAll(d + [f], h) <==> NamedAtAll(d, h) || h in f.parents {
      if NamedAtAll(d, h) { var g :| g in d && h in g.parents; assert g in d + [f]; }
      if h in f.parents { assert f in d + [f]; }
    }
    forall h | h !in Seen(d) ensures NamedByOther(d, h) <==> NamedAtAll(d, h) {
      if NamedAtAll(d, h) { var g :| g in d && h in g.parents; assert g.hash in Seen(d); }
    }
  }

  ghost predicate Ascending(s: seq<nat>) { forall i, j :: 0 <= i < j < |s| ==> s[i] < s[j] }

  function Inserted(s: seq<nat>, x: nat): (r: seq<nat>)
    requires Ascending(s) && x !in s
    ensures Ascending(r) && forall h :: h in r <==> h in s || h == x
  {
    if s == [] then [x]
    else if x < s[0] then [x] + s
    else
      assert s == [s[0]] + s[1..] && x != s[0] && forall h :: h in s[1..] ==> h > s[0];
      var rest := Inserted(s[1..], x);
      assert forall i :: 0 <= i < |rest| ==> rest[i] in rest;
      [s[0]] + rest
  }

  /** The summary of a log depends only on which commits it holds, not on their order or repetition. */
  lemma OrderDoesNotMatter(a: seq<Frame>, b: seq<Frame>, h: nat)
    requires Consistent(a) && forall f :: f in a <==> f in b
    ensures Seen(a) == Seen(b)
    ensures NamedByOther(Distinct(a), h) <==> NamedByOther(Distinct(b), h)
    ensures NamedAtAll(Distinct(a), h) <==> NamedAtAll(Distinct(b), h)
  {
    assert Consistent(b);
    NamedInAll(a, b, h);
    NamedInAll(b, a, h);
  }

  lemma NamedInAll(a: seq<Frame>, b: seq<Frame>, h: nat)
    requires Consistent(b) && forall f :: f in a <==> f in b
    ensures NamedByOther(Distinct(a), h) ==> NamedByOther(Distinct(b), h)
    ensures NamedAtAll(Distinct(a), h) ==> NamedAtAll(Distinct(b), h)
  {
    DistinctSeen(a);
    if NamedByOther(Distinct(a), h) {
      var f :| f in Distinct(a) && f.hash != h && h in f.parents;
      DistinctKeepsAll(b, f);
    }
    if NamedAtAll(Distinct(a), h) {
      var f :| f in Distinct(a) && h in f.parents;
      DistinctKeepsAll(b, f);
    }
  }
}
