/** The Merkle tree behind attachment content hashes (go/kdb/document/attachment_hash.go): the tree
    hash of section 2.1 of RFC 6962, the builder that computes it from a stream in logarithmic space,
    the level-by-level tree, and inclusion proofs. */
module Merkle {
  import opened Words

  type Digest = nat

  /** The three domain-separated uses of SHA-256. */
  datatype Hasher = Hasher(leaf: Bytes -> Digest, node: (Digest, Digest) -> Digest, identity: (Digest, int64) -> Digest)

  ghost predicate NodeInjective(h: Hasher) {
    forall a, b, c, d :: h.node(a, b) == h.node(c, d) ==> a == c && b == d
  }

  /** What is asked of the hash: no collisions within a domain, nor between leaves and nodes. */
  ghost predicate CollisionFree(h: Hasher) {
    && NodeInjective(h)
    && (forall x, y :: h.leaf(x) == h.leaf(y) ==> x == y)
    && (forall x, a, b :: h.leaf(x) != h.node(a, b))
    && (forall t, n, t', n' :: h.identity(t, n) == h.identity(t', n') ==> t == t' && n == n')
  }

  /** SHA-256, and the bytes of a digest. */
  datatype Sha = Sha(sum: Bytes -> Digest, raw: Digest -> Bytes)

  /** No two messages share a digest, and digests written one after another read back unambiguously. */
  ghost predicate Ideal(sha: Sha) {
    && (forall x, y :: sha.sum(x) == sha.sum(y) ==> x == y)
    && (forall a, b, x, y :: sha.raw(a) + x == sha.raw(b) + y ==> a == b)
  }

  function ChunkLeafHash(sha: Sha, chunk: Bytes): Digest { sha.sum([0x00] + chunk) }

  function MerkleNode(sha: Sha, left: Digest, right: Digest): Digest {
    sha.sum([0x01] + (sha.raw(left) + sha.raw(right)))
  }

  function AttachmentIdentity(sha: Sha, tree: Digest, size: int64): Digest {
    sha.sum([0x02] + (Be(ToU64(size), 8) + sha.raw(tree)))
  }

  function Scheme1(sha: Sha): Hasher {
    Hasher(c => ChunkLeafHash(sha, c), (l, r) => MerkleNode(sha, l, r), (t, n) => AttachmentIdentity(sha, t, n))
  }

  lemma NodeMessage(sha: Sha, a: Digest, b: Digest, c: Digest, d: Digest)
    requires Ideal(sha) && MerkleNode(sha, a, b) == MerkleNode(sha, c, d)
    ensures a == c && b == d
  {
    var m, m' := [0x01] + (sha.raw(a) + sha.raw(b)), [0x01] + (sha.raw(c) + sha.raw(d));
    assert sha.raw(a) + sha.raw(b) == m[1..] == m'[1..] == sha.raw(c) + sha.raw(d);
    assert sha.raw(b) == (sha.raw(a) + sha.raw(b))[|sha.raw(a)|..] == sha.raw(d);
    assert sha.raw(b) + [] == sha.raw(d) + [];
  }

  lemma IdentityMessage(sha: Sha, t: Digest, n: int64, t': Digest, n': int64)
    requires Ideal(sha) && AttachmentIdentity(sha, t, n) == AttachmentIdentity(sha, t', n')
    ensures t == t' && n == n'
  {
    var m, m' := [0x02] + (Be(ToU64(n), 8) + sha.raw(t)), [0x02] + (Be(ToU64(n'), 8) + sha.raw(t'));
    assert Be(ToU64(n), 8) == m[1..9] == m'[1..9] == Be(ToU64(n'), 8);
    assert sha.raw(t) == m[9..] == m'[9..] == sha.raw(t');
    assert sha.raw(t) + [] == sha.raw(t') + [];
    Pow256Words();
    BeRoundTrip(ToU64(n), 8);
    BeRoundTrip(ToU64(n'), 8);
  }

  /** The leading bytes 0, 1 and 2 keep the three uses apart. */
  lemma DomainsAreSeparate(sha: Sha)
    requires Ideal(sha)
    ensures CollisionFree(Scheme1(sha))
  {
    var h := Scheme1(sha);
    forall a, b, c, d | h.node(a, b) == h.node(c, d) ensures a == c && b == d { NodeMessage(sha, a, b, c, d); }
    forall x, y | h.leaf(x) == h.leaf(y) ensures x == y {
      assert x == ([0x00] + x)[1..] && y == ([0x00] + y)[1..];
    }
    forall x, a, b ensures h.leaf(x) != h.node(a, b) {
      assert ([0x00] + x)[0] != ([0x01] + (sha.raw(a) + sha.raw(b)))[0];
    }
    forall t, n, t', n' | h.identity(t, n) == h.identity(t', n') ensures t == t' && n == n' {
      IdentityMessage(sha, t, n, t', n');
    }
  }

  // ---------------------------------------------------------------- the tree hash

  predicate Pow2(n: nat) { n == 1 || (n > 1 && n % 2 == 0 && Pow2(n / 2)) }

  /** The largest power of two below `n`. */
  function SplitAt(n: nat): (k: nat)
    requires n >= 2
    ensures Pow2(k) && 1 <= k < n <= 2 * k
  {
    if n == 2 then 1 else
      var k := SplitAt((n + 1) / 2);
      assert 2 * k / 2 == k;
      2 * k
  }

  lemma {:induction false} Pow2Gap(a: nat, b: nat)
    requires Pow2(a) && Pow2(b) && a < b
    ensures 2 * a <= b
  {
    if a > 1 { Pow2Gap(a / 2, b / 2); }
  }

  lemma SplitUnique(n: nat, k: nat)
    requires n >= 2 && Pow2(k) && k < n <= 2 * k
    ensures SplitAt(n) == k
  {
    var s := SplitAt(n);
    if s < k { Pow2Gap(s, k); } else if k < s { Pow2Gap(k, s); }
  }

  /** MerkleTreeHash. */
  function Mth(h: Hasher, ls: seq<Digest>): Digest {
    if ls == [] then h.leaf([])
    else if |ls| == 1 then ls[0]
    else
      var k := SplitAt(|ls|);
      h.node(Mth(h, ls[..k]), Mth(h, ls[k..]))
  }

  lemma MthSplit(h: Hasher, a: seq<Digest>, b: seq<Digest>)
    requires Pow2(|a|) && 1 <= |b| <= |a|
    ensures Mth(h, a + b) == h.node(Mth(h, a), Mth(h, b))
  {
    SplitUnique(|a + b|, |a|);
    assert (a + b)[..|a|] == a && (a + b)[|a|..] == b;
  }

  /** With the domains apart, the tree hash determines the leaves, however many they are. */
  ghost predicate Leaves(h: Hasher, ls: seq<Digest>) {
    ls != [] && forall i, a, b :: 0 <= i < |ls| ==> ls[i] != h.node(a, b)
  }

  lemma LeavesParts(h: Hasher, ls: seq<Digest>, k: nat)
    requires Leaves(h, ls) && 0 < k < |ls|
    ensures Leaves(h, ls[..k]) && Leaves(h, ls[k..])
  {}

  lemma {:induction false} MthInjective(h: Hasher, a: seq<Digest>, b: seq<Digest>)
    requires NodeInjective(h) && Leaves(h, a) && Leaves(h, b) && Mth(h, a) == Mth(h, b)
    ensures a == b
    decreases |a|
  {
    if |a| > 1 && |b| > 1 {
      var j, k := SplitAt(|a|), SplitAt(|b|);
      assert h.node(Mth(h, a[..j]), Mth(h, a[j..])) == h.node(Mth(h, b[..k]), Mth(h, b[k..]));
      hide Mth, Leaves;
      LeavesParts(h, a, j);
      LeavesParts(h, b, k);
      MthInjective(h, a[..j], b[..k]);
      MthInjective(h, a[j..], b[k..]);
      assert a == a[..j] + a[j..] && b == b[..k] + b[k..];
    }
  }

  // ---------------------------------------------------------------- levels

  /** One level up: neighbours are paired and an unpaired last node is carried. */
  function Up(h: Hasher, ls: seq<Digest>): (r: seq<Digest>)
    ensures |r| == (|ls| + 1) / 2
  {
    seq((|ls| + 1) / 2, i requires 0 <= i < (|ls| + 1) / 2 =>
      if 2 * i + 1 < |ls| then h.node(ls[2 * i], ls[2 * i + 1]) else ls[2 * i])
  }

  lemma UpSplit(h: Hasher, ls: seq<Digest>, k: nat)
    requires k <= |ls| && k % 2 == 0
    ensures Up(h, ls)[..k / 2] == Up(h, ls[..k]) && Up(h, ls)[k / 2..] == Up(h, ls[k..])
  {}

  /** Splitting at an even power of two commutes with going up a level. */
  lemma UpSplitAt(h: Hasher, ls: seq<Digest>)
    requires |ls| >= 3
    ensures var k := SplitAt(|ls|); var up := Up(h, ls);
      && k % 2 == 0 && k >= 2 && |up| >= 2 && SplitAt(|up|) == k / 2
      && up[..k / 2] == Up(h, ls[..k]) && up[k / 2..] == Up(h, ls[k..])
  {
    UpSplit(h, ls, SplitAt(|ls|));
  }

  lemma {:induction false} MthUp(h: Hasher, ls: seq<Digest>)
    requires ls != []
    ensures Mth(h, ls) == Mth(h, Up(h, ls))
    decreases |ls|
  {
    if |ls| == 1 {
      assert Up(h, ls) == ls;
    } else if |ls| == 2 {
      assert Up(h, ls) == [h.node(ls[0], ls[1])];
      assert ls[..1] == [ls[0]] && ls[1..] == [ls[1]];
    } else {
      var k := SplitAt(|ls|);
      UpSplitAt(h, ls);
      MthUp(h, ls[..k]);
      MthUp(h, ls[k..]);
    }
  }

  // ---------------------------------------------------------------- inclusion proofs

  /** MerkleInclusionProof: the audit path of section 2.1.1 of RFC 6962, from the top of the tree. */
  function InclusionProof(h: Hasher, ls: seq<Digest>, index: nat): seq<Digest>
    requires index < |ls|
    decreases |ls|
  {
    if |ls| == 1 then []
    else
      var k := SplitAt(|ls|);
      if index < k then InclusionProof(h, ls[..k], index) + [Mth(h, ls[k..])]
      else InclusionProof(h, ls[k..], index - k) + [Mth(h, ls[..k])]
  }

  /** The sibling of a node on its own level, if it has one. */
  function Sibling(ls: seq<Digest>, index: nat): seq<Digest>
    requires index < |ls|
  {
    if index % 2 == 1 then [ls[index - 1]]
    else if index + 1 < |ls| then [ls[index + 1]]
    else []
  }

  /** The same path, level by level from the bottom. */
  function LevelProof(h: Hasher, ls: seq<Digest>, index: nat): seq<Digest>
    requires index < |ls|
    decreases |ls|
  {
    if |ls| == 1 then [] else Sibling(ls, index) + LevelProof(h, Up(h, ls), index / 2)
  }

  /** The two halves of an audit path. */
  lemma ProofSplit(h: Hasher, ls: seq<Digest>, index: nat, k: nat)
    requires index < |ls| && |ls| >= 2 && k == SplitAt(|ls|)
    ensures InclusionProof(h, ls, index) ==
      if index < k then InclusionProof(h, ls[..k], index) + [Mth(h, ls[k..])]
      else InclusionProof(h, ls[k..], index - k) + [Mth(h, ls[..k])]
  {
    hide Mth, SplitAt;
  }

  lemma ProofOfOne(h: Hasher, ls: seq<Digest>)
    requires |ls| == 1
    ensures InclusionProof(h, ls, 0) == [] && Up(h, ls) == ls
  {}

  lemma SiblingLow(ls: seq<Digest>, index: nat, k: nat)
    requires index < k <= |ls| && k % 2 == 0
    ensures Sibling(ls[..k], index) == Sibling(ls, index)
  {}

  lemma SiblingHigh(ls: seq<Digest>, index: nat, k: nat)
    requires k <= index < |ls| && k % 2 == 0
    ensures Sibling(ls[k..], index - k) == Sibling(ls, index) && (index - k) / 2 == index / 2 - k / 2
  {}

  lemma Grouped(a: seq<Digest>, b: seq<Digest>, c: seq<Digest>)
    ensures (a + b) + c == a + (b + c)
  {}

  lemma ProofUpLow(h: Hasher, ls: seq<Digest>, index: nat, k: nat, up: seq<Digest>)
    requires |ls| >= 3 && k == SplitAt(|ls|) && index < k && up == Up(h, ls)
    requires InclusionProof(h, ls[..k], index) == Sibling(ls[..k], index) + InclusionProof(h, Up(h, ls[..k]), index / 2)
    ensures InclusionProof(h, ls, index) == Sibling(ls, index) + InclusionProof(h, up, index / 2)
  {
    hide InclusionProof, Mth, Up, SplitAt, Sibling;
    UpSplitAt(h, ls);
    MthUp(h, ls[k..]);
    ProofSplit(h, ls, index, k);
    ProofSplit(h, up, index / 2, k / 2);
    SiblingLow(ls, index, k);
    Grouped(Sibling(ls, index), InclusionProof(h, up[..k / 2], index / 2), [Mth(h, ls[k..])]);
  }

  lemma ProofUpHigh(h: Hasher, ls: seq<Digest>, index: nat, k: nat, up: seq<Digest>)
    requires |ls| >= 3 && k == SplitAt(|ls|) && k <= index < |ls| && up == Up(h, ls)
    requires InclusionProof(h, ls[k..], index - k) ==
             Sibling(ls[k..], index - k) + InclusionProof(h, Up(h, ls[k..]), (index - k) / 2)
    ensures InclusionProof(h, ls, index) == Sibling(ls, index) + InclusionProof(h, up, index / 2)
  {
    hide InclusionProof, Mth, Up, SplitAt, Sibling;
    UpSplitAt(h, ls);
    MthUp(h, ls[..k]);
    SiblingHigh(ls, index, k);
    ProofSplit(h, ls, index, k);
    ProofSplit(h, up, index / 2, k / 2);
    Grouped(Sibling(ls, index), InclusionProof(h, up[k / 2..], index / 2 - k / 2), [Mth(h, ls[..k])]);
  }

  /** An audit path starts with the sibling and goes on as the path one level up. */
  lemma {:induction false} ProofUp(h: Hasher, ls: seq<Digest>, index: nat)
    requires index < |ls|
    ensures InclusionProof(h, ls, index) == Sibling(ls, index) + InclusionProof(h, Up(h, ls), index / 2)
    decreases |ls|
  {
    if |ls| == 1 {
      ProofOfOne(h, ls);
    } else if |ls| == 2 {
      ProofOfTwo(h, ls, index);
    } else {
      hide InclusionProof, Mth, Up, Sibling;
      var k := SplitAt(|ls|);
      if index < k {
        ProofUp(h, ls[..k], index);
        ProofUpLow(h, ls, index, k, Up(h, ls));
      } else {
        ProofUp(h, ls[k..], index - k);
        ProofUpHigh(h, ls, index, k, Up(h, ls));
      }
    }
  }

  lemma ProofOfTwo(h: Hasher, ls: seq<Digest>, index: nat)
    requires |ls| == 2 && index < 2
    ensures InclusionProof(h, ls, index) == Sibling(ls, index) + InclusionProof(h, Up(h, ls), index / 2)
  {
    assert ls[..1] == [ls[0]] && ls[1..] == [ls[1]];
    ProofSplit(h, ls, index, 1);
    ProofOfOne(h, ls[..1]);
    ProofOfOne(h, ls[1..]);
    ProofOfOne(h, Up(h, ls));
  }

  /** Top down and bottom up give one audit path. */
  lemma {:induction false} ProofIsLevelProof(h: Hasher, ls: seq<Digest>, index: nat)
    requires index < |ls|
    ensures InclusionProof(h, ls, index) == LevelProof(h, ls, index)
    decreases |ls|
  {
    if |ls| > 1 {
      ProofUp(h, ls, index);
      ProofIsLevelProof(h, Up(h, ls), index / 2);
    }
  }

  // ---------------------------------------------------------------- verification

  /** Checking a path level by level; a node without a sibling is carried. */
  predicate Climbs(h: Hasher, fn: nat, sn: nat, r: Digest, proof: seq<Digest>, tree: Digest)
    decreases sn
  {
    if sn == 0 then proof == [] && r == tree
    else if fn % 2 == 0 && fn == sn then Climbs(h, fn / 2, sn / 2, r, proof, tree)
    else
      && proof != []
      && Climbs(h, fn / 2, sn / 2, if fn % 2 == 1 then h.node(proof[0], r) else h.node(r, proof[0]), proof[1..], tree)
  }

  lemma UpAt(h: Hasher, ls: seq<Digest>, index: nat)
    requires index < |ls|
    ensures index / 2 < |Up(h, ls)|
    ensures Up(h, ls)[index / 2] ==
      if Sibling(ls, index) == [] then ls[index]
      else if index % 2 == 1 then h.node(Sibling(ls, index)[0], ls[index])
      else h.node(ls[index], Sibling(ls, index)[0])
  {}

  lemma LevelProofUp(h: Hasher, ls: seq<Digest>, index: nat)
    requires index < |ls| && |ls| > 1
    ensures LevelProof(h, ls, index) == Sibling(ls, index) + LevelProof(h, Up(h, ls), index / 2)
  {
    hide Up, Sibling;
  }

  lemma ClimbsCarry(h: Hasher, fn: nat, sn: nat, r: Digest, proof: seq<Digest>, tree: Digest)
    requires fn % 2 == 0 && fn == sn && sn > 0
    ensures Climbs(h, fn, sn, r, proof, tree) == Climbs(h, fn / 2, sn / 2, r, proof, tree)
  {}

  function Joined(h: Hasher, fn: nat, r: Digest, sibling: Digest): Digest {
    if fn % 2 == 1 then h.node(sibling, r) else h.node(r, sibling)
  }

  lemma ClimbsJoin(h: Hasher, fn: nat, sn: nat, r: Digest, proof: seq<Digest>, tree: Digest)
    requires sn > 0 && (fn % 2 == 1 || fn != sn)
    ensures Climbs(h, fn, sn, r, proof, tree) ==
      (proof != [] && Climbs(h, fn / 2, sn / 2, Joined(h, fn, r, proof[0]), proof[1..], tree))
  {}

  lemma HeadAndRest(proof: seq<Digest>, x: Digest, rest: seq<Digest>)
    requires proof != []
    ensures proof == [x] + rest <==> proof[0] == x && proof[1..] == rest
  {
    assert proof == [proof[0]] + proof[1..] && ([x] + rest)[1..] == rest;
  }

  lemma JoinedExactly(h: Hasher, fn: nat, r: Digest, x: Digest, r': Digest, x': Digest)
    requires NodeInjective(h)
    ensures Joined(h, fn, r, x) == Joined(h, fn, r', x') <==> r == r' && x == x'
  {}

  lemma JoinsExactly(h: Hasher, ls: seq<Digest>, index: nat, r: Digest, proof: seq<Digest>, x: Digest,
                     path: seq<Digest>)
    requires NodeInjective(h) && index < |ls| && proof != [] && Sibling(ls, index) == [x]
    ensures index / 2 < |Up(h, ls)|
    ensures Joined(h, index, r, proof[0]) == Up(h, ls)[index / 2] && proof[1..] == path <==>
            r == ls[index] && proof == [x] + path
  {
    UpAt(h, ls, index);
    assert Up(h, ls)[index / 2] == Joined(h, index, ls[index], x);
    hide *;
    JoinedExactly(h, index, r, proof[0], ls[index], x);
    HeadAndRest(proof, x, path);
  }

  /** Only this leaf with this path is accepted. */
  ghost predicate Accepts(h: Hasher, fn: nat, sn: nat, tree: Digest, leaf: Digest, path: seq<Digest>) {
    forall r, proof :: Climbs(h, fn, sn, r, proof, tree) <==> r == leaf && proof == path
  }

  lemma CarryLevel(h: Hasher, ls: seq<Digest>, index: nat, last: nat, up: seq<Digest>, tree: Digest)
    requires |ls| == last + 1 && index == last > 0 && last % 2 == 0 && up == Up(h, ls) && index / 2 < |up|
    requires Accepts(h, index / 2, last / 2, tree, up[index / 2], LevelProof(h, up, index / 2))
    ensures Accepts(h, index, last, tree, ls[index], LevelProof(h, ls, index))
  {
    LevelProofUp(h, ls, index);
    UpAt(h, ls, index);
    assert Sibling(ls, index) + LevelProof(h, up, index / 2) == LevelProof(h, up, index / 2);
    hide Climbs, Up, LevelProof, Sibling;
    forall r, proof ensures Climbs(h, index, last, r, proof, tree) == Climbs(h, index / 2, last / 2, r, proof, tree) {
      ClimbsCarry(h, index, last, r, proof, tree);
    }
  }

  lemma JoinLevel(h: Hasher, ls: seq<Digest>, index: nat, last: nat, up: seq<Digest>, tree: Digest)
    requires NodeInjective(h) && |ls| == last + 1 && index <= last && (index % 2 == 1 || index < last)
    requires up == Up(h, ls) && index / 2 < |up|
    requires Accepts(h, index / 2, last / 2, tree, up[index / 2], LevelProof(h, up, index / 2))
    ensures Accepts(h, index, last, tree, ls[index], LevelProof(h, ls, index))
  {
    LevelProofUp(h, ls, index);
    var x, path := Sibling(ls, index)[0], LevelProof(h, up, index / 2);
    assert Sibling(ls, index) == [x];
    hide Climbs, Up, LevelProof, Sibling, NodeInjective, Joined;
    forall r, proof ensures Climbs(h, index, last, r, proof, tree) == (r == ls[index] && proof == [x] + path) {
      ClimbsJoin(h, index, last, r, proof, tree);
      if proof != [] { JoinsExactly(h, ls, index, r, proof, x, path); }
    }
  }

  /** Against the tree of `ls`, exactly the right leaf with exactly its audit path is accepted. */
  lemma {:induction false} ClimbsExactly(h: Hasher, ls: seq<Digest>, index: nat, last: nat)
    requires NodeInjective(h) && index <= last && |ls| == last + 1
    ensures Accepts(h, index, last, Mth(h, ls), ls[index], LevelProof(h, ls, index))
    decreases |ls|
  {
    if last > 0 {
      var up := Up(h, ls);
      assert |up| == last / 2 + 1;
      MthUp(h, ls);
      hide *;
      ClimbsExactly(h, up, index / 2, last / 2);
      if index == last && last % 2 == 0 {
        CarryLevel(h, ls, index, last, up, Mth(h, ls));
      } else {
        JoinLevel(h, ls, index, last, up, Mth(h, ls));
      }
    }
  }

  /** A node with no sibling left on any level cannot be the root unless it already is. */
  lemma {:induction false} ClimbsNoProof(h: Hasher, fn: nat, sn: nat, r: Digest, tree: Digest)
    requires fn <= sn && sn > 0
    ensures !Climbs(h, fn, sn, r, [], tree)
    decreases sn
  {
    if fn % 2 == 0 && fn == sn { ClimbsNoProof(h, fn / 2, sn / 2, r, tree); }
  }

  /** VerifyMerkleInclusion. */
  method VerifyMerkleInclusion(h: Hasher, leaf: Digest, index: int, n: int, proof: seq<Digest>, tree: Digest)
    returns (ok: bool)
    ensures ok <==> 0 <= index < n && Climbs(h, index, n - 1, leaf, proof, tree)
  {
    if index < 0 || index >= n { return false; }
    var fn: nat, sn: nat, r := index, n - 1, leaf;
    assert proof[0..] == proof;
    for i := 0 to |proof|
      invariant fn <= sn
      invariant Climbs(h, index, n - 1, leaf, proof, tree) <==> Climbs(h, fn, sn, r, proof[i..], tree)
    {
      if sn == 0 { return false; }
      assert proof[i..][1..] == proof[i + 1..];
      if fn % 2 == 1 || fn == sn {
        while fn % 2 == 0 && fn != 0
          invariant 0 < fn <= sn && (fn % 2 == 0 ==> fn == sn)
          invariant Climbs(h, index, n - 1, leaf, proof, tree) <==> Climbs(h, fn, sn, r, proof[i..], tree)
        {
          fn, sn := fn / 2, sn / 2;
        }
        r := h.node(proof[i], r);
      } else {
        r := h.node(r, proof[i]);
      }
      fn, sn := fn / 2, sn / 2;
    }
    assert proof[|proof|..] == [];
    if sn != 0 { ClimbsNoProof(h, fn, sn, r, tree); }
    return sn == 0 && r == tree;
  }

  /** Sound and complete: given the true tree hash and leaf count, the check accepts a leaf at an index
      if and only if it is that leaf and the path is its audit path. */
  lemma InclusionIsExact(h: Hasher, ls: seq<Digest>, index: nat, leaf: Digest, proof: seq<Digest>)
    requires NodeInjective(h) && index < |ls|
    ensures Climbs(h, index, |ls| - 1, leaf, proof, Mth(h, ls)) <==>
            leaf == ls[index] && proof == InclusionProof(h, ls, index)
  {
    hide Climbs, Mth, LevelProof, InclusionProof, NodeInjective;
    ClimbsExactly(h, ls, index, |ls| - 1);
    ProofIsLevelProof(h, ls, index);
  }

  // ---------------------------------------------------------------- the tree of levels

  function Levels(h: Hasher, ls: seq<Digest>): (r: seq<seq<Digest>>)
    requires ls != []
    ensures |r| >= 1 && r[0] == ls && forall i :: 0 <= i < |r| ==> r[i] != []
    decreases |ls|
  {
    if |ls| == 1 then [ls] else [ls] + Levels(h, Up(h, ls))
  }

  lemma {:induction false} LevelsEndAtRoot(h: Hasher, ls: seq<Digest>)
    requires ls != []
    ensures var levels := Levels(h, ls); levels[|levels| - 1] == [Mth(h, ls)]
    decreases |ls|
  {
    LevelsTurn(h, ls);
    if |ls| > 1 {
      MthUp(h, ls);
      hide *;
      LevelsEndAtRoot(h, Up(h, ls));
    }
  }

  lemma LevelsTurn(h: Hasher, ls: seq<Digest>)
    requires ls != []
    ensures Levels(h, ls) == if |ls| == 1 then [ls] else [ls] + Levels(h, Up(h, ls))
  {}

  lemma LevelsOn(h: Hasher, level: seq<Digest>, below: seq<seq<Digest>>)
    requires level != []
    ensures below + Levels(h, level) ==
      (below + [level]) + if |level| == 1 then [] else Levels(h, Up(h, level))
  {
    LevelsTurn(h, level);
    hide *;
    if |level| > 1 {
      assert below + ([level] + Levels(h, Up(h, level))) == (below + [level]) + Levels(h, Up(h, level));
    }
  }

  /** The inner loop of NewMerkleTree. */
  method LevelAbove(h: Hasher, level: seq<Digest>) returns (next: seq<Digest>)
    ensures next == Up(h, level)
  {
    var out := new Digest[(|level| + 1) / 2](_ => 0);
    for i := 0 to out.Length
      invariant forall k :: 0 <= k < i ==> out[k] == Up(h, level)[k]
    {
      out[i] := if 2 * i + 1 < |level| then h.node(level[2 * i], level[2 * i + 1]) else level[2 * i];
    }
    next := out[..];
  }

  /** NewMerkleTree: the last level is the tree hash alone. */
  method NewMerkleTree(h: Hasher, leaves: seq<Digest>) returns (levels: seq<seq<Digest>>)
    ensures levels == Levels(h, if leaves == [] then [h.leaf([])] else leaves)
    ensures levels[|levels| - 1] == [Mth(h, leaves)]
  {
    var ls := if leaves == [] then [h.leaf([])] else leaves;
    assert Mth(h, ls) == Mth(h, leaves);
    LevelsEndAtRoot(h, ls);
    hide *;
    levels := [ls];
    var level := ls;
    ghost var below: seq<seq<Digest>> := [];
    assert below + Levels(h, ls) == Levels(h, ls);
    while |level| > 1
      invariant level != [] && levels == below + [level] && Levels(h, ls) == below + Levels(h, level)
      decreases |level|
    {
      LevelsOn(h, level, below);
      below := below + [level];
      level := LevelAbove(h, level);
      levels := levels + [level];
    }
    LevelsOn(h, level, below);
  }

  /** The loop of Proof has the path up to level `d`. */
  ghost predicate PathTo(h: Hasher, levels: seq<seq<Digest>>, d: nat, level: seq<Digest>, at: nat, path: seq<Digest>,
                         whole: seq<Digest>) {
    d < |levels| && at < |level| && levels[d..] == Levels(h, level) && whole == path + LevelProof(h, level, at)
  }

  lemma PathOn(h: Hasher, levels: seq<seq<Digest>>, d: nat, level: seq<Digest>, at: nat, path: seq<Digest>,
               whole: seq<Digest>)
    requires PathTo(h, levels, d, level, at, path, whole) && d + 1 < |levels|
    ensures levels[d] == level && PathTo(h, levels, d + 1, Up(h, level), at / 2, path + Sibling(level, at), whole)
  {
    LevelsTurn(h, level);
    assert levels[d] == levels[d..][0] && |levels[d..]| > 1 && levels[d..][1..] == levels[d + 1..];
    hide Levels, LevelProof, Up, Sibling;
    UpAt(h, level, at);
    LevelProofUp(h, level, at);
    Grouped(path, Sibling(level, at), LevelProof(h, Up(h, level), at / 2));
    assert ([level] + Levels(h, Up(h, level)))[1..] == Levels(h, Up(h, level));
  }

  lemma PathEnds(h: Hasher, levels: seq<seq<Digest>>, d: nat, level: seq<Digest>, at: nat, path: seq<Digest>,
                 whole: seq<Digest>)
    requires PathTo(h, levels, d, level, at, path, whole) && d + 1 == |levels|
    ensures path == whole
  {
    LevelsTurn(h, level);
    assert |levels[d..]| == 1;
    assert path + [] == path;
  }

  /** Proof of the tree of levels is the audit path. */
  method LevelsProof(h: Hasher, leaves: seq<Digest>, levels: seq<seq<Digest>>, index: nat) returns (path: seq<Digest>)
    requires index < |leaves| && levels == Levels(h, leaves)
    ensures path == InclusionProof(h, leaves, index)
  {
    ProofIsLevelProof(h, leaves, index);
    path := [];
    var at: nat, d: nat := index, 0;
    ghost var level, whole := leaves, LevelProof(h, leaves, index);
    assert levels[0..] == levels && path + whole == whole;
    assert levels != [] by { LevelsTurn(h, leaves); }
    hide Levels, LevelProof, Up, Sibling, InclusionProof;
    assert PathTo(h, levels, 0, leaves, index, path, whole);
    hide *;
    while d + 1 < |levels|
      invariant d < |levels| && PathTo(h, levels, d, level, at, path, whole)
    {
      PathOn(h, levels, d, level, at, path, whole);
      var more := SiblingOf(levels[d], at);
      path := path + more;
      at := at / 2;
      level := Up(h, level);
      d := d + 1;
    }
    PathEnds(h, levels, d, level, at, path, whole);
  }

  /** The body of the loop of Proof. */
  method SiblingOf(level: seq<Digest>, at: nat) returns (more: seq<Digest>)
    requires at < |level|
    ensures more == Sibling(level, at)
  {
    var sib := if at % 2 == 0 then at + 1 else at - 1;
    more := [];
    if sib < |level| { more := [level[sib]]; }
  }

  // ---------------------------------------------------------------- the streaming builder

  ghost predicate Decreasing(sizes: seq<nat>) {
    (forall i :: 0 <= i < |sizes| ==> Pow2(sizes[i])) && forall i, j :: 0 <= i < j < |sizes| ==> sizes[i] > sizes[j]
  }

  /** The stack holds the tree hashes of consecutive parts of the leaves, of the given sizes. */
  ghost predicate Blocks(h: Hasher, stack: seq<Digest>, sizes: seq<nat>, parts: seq<seq<Digest>>) {
    && |stack| == |sizes| == |parts|
    && forall i :: 0 <= i < |parts| ==> parts[i] != [] && sizes[i] == |parts[i]| && stack[i] == Mth(h, parts[i])
  }

  /** Distinct powers of two below a power of two stay below it together. */
  lemma {:induction false} FlatBelow(parts: seq<seq<Digest>>, sizes: seq<nat>, s: nat)
    requires |parts| == |sizes| && (forall i :: 0 <= i < |parts| ==> sizes[i] == |parts[i]|)
    requires Decreasing(sizes) && Pow2(s) && (sizes != [] ==> sizes[0] < s)
    ensures |Flat(parts)| < s
    decreases |parts|
  {
    if parts != [] {
      FlatBelow(parts[1..], sizes[1..], sizes[0]);
      Pow2Gap(sizes[0], s);
    }
  }

  /** The blocks combined from the right. */
  function Fold(h: Hasher, stack: seq<Digest>): Digest
    requires stack != []
  {
    if |stack| == 1 then stack[0] else h.node(stack[0], Fold(h, stack[1..]))
  }

  lemma {:induction false} FoldIsMth(h: Hasher, stack: seq<Digest>, sizes: seq<nat>, parts: seq<seq<Digest>>)
    requires Blocks(h, stack, sizes, parts) && Decreasing(sizes) && stack != []
    ensures Fold(h, stack) == Mth(h, Flat(parts))
    decreases |stack|
  {
    hide Mth, Pow2;
    if |stack| == 1 {
      assert parts[1..] == [] && parts[0] + [] == parts[0];
    } else {
      FoldIsMth(h, stack[1..], sizes[1..], parts[1..]);
      FlatBelow(parts[1..], sizes[1..], sizes[0]);
      assert Flat(parts[1..]) == parts[1..][0] + Flat(parts[1..][1..]);
      MthSplit(h, parts[0], Flat(parts[1..]));
    }
  }

  /** Between the push of a leaf and the last merge: all but the last block are in order. */
  ghost predicate Adding(h: Hasher, stack: seq<Digest>, sizes: seq<nat>, parts: seq<seq<Digest>>, leaves: seq<Digest>) {
    && sizes != [] && Blocks(h, stack, sizes, parts) && leaves == Flat(parts)
    && Decreasing(sizes[..|sizes| - 1]) && Pow2(sizes[|sizes| - 1])
    && (|sizes| >= 2 ==> sizes[|sizes| - 1] <= sizes[|sizes| - 2])
  }

  class MerkleBuilder {
    var stack: seq<Digest>
    var sizes: seq<nat>
    var n: nat
    const h: Hasher
    ghost var parts: seq<seq<Digest>>
    ghost var leaves: seq<Digest>

    ghost predicate Valid()
      reads this
    {
      Blocks(h, stack, sizes, parts) && leaves == Flat(parts) && Decreasing(sizes) && n == |leaves|
    }

    constructor (h: Hasher)
      ensures Valid() && leaves == [] && this.h == h
    {
      this.h, stack, sizes, n, parts, leaves := h, [], [], 0, [], [];
    }

    method Add(leaf: Digest)
      requires Valid()
      modifies this
      ensures Valid() && leaves == old(leaves) + [leaf]
    {
      hide Blocks, Decreasing, Flat, Adding;
      PushedBlock(h, stack, sizes, parts, leaf);
      stack, sizes, n, leaves := stack + [leaf], sizes + [1], n + 1, leaves + [leaf];
      parts := parts + [[leaf]];
      while |sizes| >= 2 && sizes[|sizes| - 1] == sizes[|sizes| - 2]
        invariant |stack| == |sizes| == |parts| >= 1 && Adding(h, stack, sizes, parts, leaves)
        invariant leaves == old(leaves) + [leaf] && n == |leaves|
        decreases |sizes|
      {
        var top := |sizes| - 1;
        MergedTop(h, stack, sizes, parts, leaves);
        stack := stack[..top - 1] + [h.node(stack[top - 1], stack[top])];
        parts := parts[..top - 1] + [parts[top - 1] + parts[top]];
        sizes := sizes[..top - 1] + [2 * sizes[top]];
      }
      Added(h, stack, sizes, parts, leaves);
    }

    method Root() returns (root: Digest)
      requires Valid()
      ensures root == Mth(h, leaves)
    {
      if stack == [] { return h.leaf([]); }
      FoldIsMth(h, stack, sizes, parts);
      hide Mth;
      root := stack[|stack| - 1];
      var i := |stack| - 1;
      while i > 0
        invariant 0 <= i < |stack| && root == Fold(h, stack[i..])
      {
        i := i - 1;
        assert stack[i..][1..] == stack[i + 1..];
        root := h.node(stack[i], root);
      }
      assert stack[0..] == stack;
    }
  }

  /** A new leaf is a block of its own. */
  lemma PushedBlock(h: Hasher, stack: seq<Digest>, sizes: seq<nat>, parts: seq<seq<Digest>>, leaf: Digest)
    requires Blocks(h, stack, sizes, parts) && Decreasing(sizes)
    ensures |stack| == |sizes| == |parts|
    ensures Adding(h, stack + [leaf], sizes + [1], parts + [[leaf]], Flat(parts) + [leaf])
  {
    assert Mth(h, [leaf]) == leaf && (sizes + [1])[..|sizes|] == sizes;
    FlatSnoc(parts, [leaf]);
    hide Mth, Flat;
  }

  lemma MergedTop(h: Hasher, stack: seq<Digest>, sizes: seq<nat>, parts: seq<seq<Digest>>, leaves: seq<Digest>)
    requires Adding(h, stack, sizes, parts, leaves) && |sizes| == |stack| == |parts| >= 2
    requires sizes[|sizes| - 1] == sizes[|sizes| - 2]
    ensures var top := |sizes| - 1;
      Adding(h, stack[..top - 1] + [h.node(stack[top - 1], stack[top])], sizes[..top - 1] + [2 * sizes[top]],
             parts[..top - 1] + [parts[top - 1] + parts[top]], leaves)
  {
    hide Blocks, Decreasing, Flat, Pow2;
    MergedBlocks(h, stack, sizes, parts);
    MergedFlat(parts);
    MergedSizes(sizes);
  }

  lemma Added(h: Hasher, stack: seq<Digest>, sizes: seq<nat>, parts: seq<seq<Digest>>, leaves: seq<Digest>)
    requires Adding(h, stack, sizes, parts, leaves) && (|sizes| >= 2 ==> sizes[|sizes| - 1] != sizes[|sizes| - 2])
    ensures Blocks(h, stack, sizes, parts) && leaves == Flat(parts) && Decreasing(sizes)
  {
    hide Blocks, Decreasing, Flat, Pow2;
    DecreasingSnoc(sizes);
  }

  lemma DecreasingSnoc(sizes: seq<nat>)
    requires sizes != [] && Decreasing(sizes[..|sizes| - 1]) && Pow2(sizes[|sizes| - 1])
    requires |sizes| >= 2 ==> sizes[|sizes| - 1] < sizes[|sizes| - 2]
    ensures Decreasing(sizes)
  {
    hide Pow2;
    var init := sizes[..|sizes| - 1];
    forall i, j | 0 <= i < j < |sizes| ensures sizes[i] > sizes[j] {
      if j == |sizes| - 1 && i < j - 1 { assert init[i] > init[j - 1]; }
      if j < |sizes| - 1 { assert init[i] > init[j]; }
    }
    forall i | 0 <= i < |sizes| ensures Pow2(sizes[i]) {
      if i < |sizes| - 1 { assert Pow2(init[i]); }
    }
  }

  function Merged<T>(s: seq<T>, x: T): seq<T>
    requires |s| >= 2
  {
    s[..|s| - 2] + [x]
  }

  lemma MergedFlat(parts: seq<seq<Digest>>)
    requires |parts| >= 2
    ensures Flat(Merged(parts, parts[|parts| - 2] + parts[|parts| - 1])) == Flat(parts)
  {
    var low, a, b := parts[..|parts| - 2], parts[|parts| - 2], parts[|parts| - 1];
    assert parts == (low + [a]) + [b];
    hide Flat;
    FlatSnoc(low + [a], b);
    FlatSnoc(low, a);
    FlatSnoc(low, a + b);
    Grouped(Flat(low), a, b);
  }

  lemma MergedSizes(sizes: seq<nat>)
    requires |sizes| >= 2 && Decreasing(sizes[..|sizes| - 1])
    requires sizes[|sizes| - 1] == sizes[|sizes| - 2] && Pow2(sizes[|sizes| - 1])
    ensures var s := Merged(sizes, 2 * sizes[|sizes| - 1]);
      && Decreasing(s[..|s| - 1]) && Pow2(s[|s| - 1]) && (|s| >= 2 ==> s[|s| - 1] <= s[|s| - 2])
  {
    var top := |sizes| - 1;
    var init, n := sizes[..top], sizes[top];
    assert 2 * n / 2 == n && Pow2(2 * n);
    hide Pow2;
    var s := Merged(sizes, 2 * n);
    assert s[..|s| - 1] == init[..top - 1];
    if top >= 2 {
      assert init[top - 2] > init[top - 1] && s[|s| - 2] == init[top - 2];
      Pow2Gap(n, init[top - 2]);
    }
  }

  /** Two equal perfect subtrees side by side are one twice as large. */
  lemma MergedBlocks(h: Hasher, stack: seq<Digest>, sizes: seq<nat>, parts: seq<seq<Digest>>)
    requires Blocks(h, stack, sizes, parts) && |sizes| >= 2
    requires sizes[|sizes| - 1] == sizes[|sizes| - 2] && Pow2(sizes[|sizes| - 1])
    ensures var top := |sizes| - 1;
      Blocks(h, Merged(stack, h.node(stack[top - 1], stack[top])), Merged(sizes, 2 * sizes[top]),
             Merged(parts, parts[top - 1] + parts[top]))
  {
    var top := |sizes| - 1;
    hide Mth, Pow2;
    MthSplit(h, parts[top - 1], parts[top]);
  }
}
