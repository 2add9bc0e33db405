/** The object keys of backups (go/kdb/backup/backup.go, attachments.go, database.go and
    go/kdb/storage/io/segment_name.go) as the strings they are. Namespace names may themselves hold
    slashes; backup identifiers and hashes may not. */
module Keys {
  predicate NoSlash(s: string) { '/' !in s }

  function Digit(d: nat): char
    requires d < 10
  {
    "0123456789"[d]
  }

  function Pow10(n: nat): nat { if n == 0 then 1 else 10 * Pow10(n - 1) }

  /** The last `width` decimal digits of `n`. */
  function Digits(n: nat, width: nat): (r: string)
    ensures |r| == width && NoSlash(r)
  {
    if width == 0 then "" else Digits(n / 10, width - 1) + [Digit(n % 10)]
  }

  lemma {:induction false} DigitsDetermine(a: nat, b: nat, width: nat)
    requires a < Pow10(width) && b < Pow10(width) && Digits(a, width) == Digits(b, width)
    ensures a == b
    decreases width
  {
    if width > 0 {
      var s, t := Digits(a / 10, width - 1), Digits(b / 10, width - 1);
      assert s == Digits(a, width)[..width - 1] == Digits(b, width)[..width - 1] == t;
      assert Digit(a % 10) == Digits(a, width)[width - 1] == Digits(b, width)[width - 1] == Digit(b % 10);
      DigitsDetermine(a / 10, b / 10, width - 1);
    }
  }

  /** A segment's sequence number: a non-negative int64. */
  type Sequence = n: nat | n < 0x8000_0000_0000_0000

  /** Go's %020d, which no int64 outgrows. */
  function Padded(number: Sequence): (r: string)
    ensures |r| == 20 && NoSlash(r)
  {
    Digits(number, 20)
  }

  lemma PaddedDetermines(a: Sequence, b: Sequence)
    requires Padded(a) == Padded(b)
    ensures a == b
  {
    assert Pow10(10) == 10_000_000_000;
    assert Pow10(20) == 100_000_000_000_000_000_000;
    hide Digits, Pow10;
    DigitsDetermine(a, b, 20);
  }

  /** Names of one length, in the order of a listing. */
  ghost predicate Precedes(s: string, t: string) {
    |s| == |t| && exists i :: 0 <= i < |s| && s[..i] == t[..i] && s[i] < t[i]
  }

  lemma LastDigit(n: nat, width: nat)
    requires width > 0
    ensures Digits(n, width)[..width - 1] == Digits(n / 10, width - 1)
    ensures Digits(n, width)[width - 1] == "0123456789"[n % 10]
  {}

  lemma PrecedesOn(u: string, v: string, s: string, t: string)
    requires |s| == |t| && |u| == |v| <= |s| && s[..|u|] == u && t[..|v|] == v && Precedes(u, v)
    ensures Precedes(s, t)
  {
    var i :| 0 <= i < |u| && u[..i] == v[..i] && u[i] < v[i];
    assert s[..i] == u[..i] && t[..i] == v[..i] && s[i] == u[i] && t[i] == v[i];
  }

  lemma {:induction false} DigitsInOrder(a: nat, b: nat, width: nat)
    requires a < b < Pow10(width)
    ensures Precedes(Digits(a, width), Digits(b, width))
    decreases width
  {
    hide Precedes, Digits;
    var s, t := Digits(a, width), Digits(b, width);
    LastDigit(a, width);
    LastDigit(b, width);
    if a / 10 < b / 10 {
      DigitsInOrder(a / 10, b / 10, width - 1);
      PrecedesOn(s[..width - 1], t[..width - 1], s, t);
    } else {
      assert a / 10 == b / 10 && a % 10 < b % 10;
      LastPrecedes(s, t);
    }
  }

  lemma LastPrecedes(s: string, t: string)
    requires |s| == |t| > 0 && s[..|s| - 1] == t[..|s| - 1] && s[|s| - 1] < t[|s| - 1]
    ensures Precedes(s, t)
  {}

  /** Segments are listed in the order of their sequence numbers. */
  lemma PaddedInOrder(a: Sequence, b: Sequence)
    ensures a < b <==> Precedes(Padded(a), Padded(b))
  {
    assert Pow10(10) == 10_000_000_000;
    assert Pow10(20) == 100_000_000_000_000_000_000;
    hide Digits, Pow10;
    if a < b { DigitsInOrder(a, b, 20); }
    if b < a { DigitsInOrder(b, a, 20); NotBoth(Padded(b), Padded(a)); }
  }

  lemma NotBoth(s: string, t: string)
    requires Precedes(s, t)
    ensures !Precedes(t, s)
  {
    var i :| 0 <= i < |s| && s[..i] == t[..i] && s[i] < t[i];
    forall k | 0 <= k < |s| && t[..k] == s[..k] ensures !(t[k] < s[k]) {
      SameUpTo(s, t, i, k);
    }
  }

  lemma SameUpTo(s: string, t: string, i: nat, k: nat)
    requires |s| == |t| && i < |s| && k < |s| && s[..i] == t[..i] && s[..k] == t[..k]
    ensures (i < k ==> s[i] == t[i]) && (k < i ==> s[k] == t[k])
  {
    assert i < k ==> s[i] == s[..k][i] && t[i] == t[..k][i];
    assert k < i ==> s[k] == s[..i][k] && t[k] == t[..i][k];
  }

  // ---------------------------------------------------------------- the families

  function ManifestKey(ns: string, id: string): string { "backups/" + (ns + ("/" + (id + "/manifest.json"))) }

  function ActiveKey(ns: string, id: string, number: Sequence): string {
    "backups/" + (ns + ("/" + (id + ("/" + ("active-" + (Padded(number) + ".prefix"))))))
  }

  function SealedKey(ns: string, number: Sequence, sum: string): string {
    "backup-segments/" + (ns + ("/" + (Padded(number) + ("-" + (sum + ".seg")))))
  }

  function PartKey(ns: string, sum: string): string { "attachments/" + (ns + ("/" + sum)) }

  function LegacyKey(ns: string, number: Sequence): string { "ns/" + (ns + ("/delta/" + (Padded(number) + ".seg"))) }

  function DatabaseKey(id: string): string { "database-backups/" + (id + "/manifest.json") }

  // ---------------------------------------------------------------- reading them back

  /** The part after the last slash is determined. */
  lemma LastPart(a: string, b: string, a': string, b': string)
    requires a + ("/" + b) == a' + ("/" + b') && NoSlash(b) && NoSlash(b')
    ensures a == a' && b == b'
  {
    var s := a + ("/" + b);
    assert s[|a|] == '/' && s[|a'|] == '/';
    assert forall i :: |a| < i < |s| ==> s[i] == b[i - |a| - 1];
    assert forall i :: |a'| < i < |s| ==> s[i] == b'[i - |a'| - 1];
    assert a == s[..|a|] && a' == s[..|a'|] && b == s[|a| + 1..] && b' == s[|a'| + 1..];
  }

  lemma AfterPrefix(p: string, a: string, b: string)
    requires p + a == p + b
    ensures a == b
  {
    assert a == (p + a)[|p|..] && b == (p + b)[|p|..];
  }

  lemma BeforeSuffix(a: string, b: string, s: string)
    requires a + s == b + s
    ensures a == b
  {
    assert |a| == |b| && a == (a + s)[..|a|] && b == (b + s)[..|b|];
  }

  lemma ManifestKeyDetermines(ns: string, id: string, ns': string, id': string)
    requires ManifestKey(ns, id) == ManifestKey(ns', id') && NoSlash(id) && NoSlash(id')
    ensures ns == ns' && id == id'
  {
    AfterPrefix("backups/", ns + ("/" + (id + "/manifest.json")), ns' + ("/" + (id' + "/manifest.json")));
    assert ns + ("/" + (id + "/manifest.json")) == (ns + ("/" + id)) + "/manifest.json";
    assert ns' + ("/" + (id' + "/manifest.json")) == (ns' + ("/" + id')) + "/manifest.json";
    BeforeSuffix(ns + ("/" + id), ns' + ("/" + id'), "/manifest.json");
    LastPart(ns, id, ns', id');
  }

  function ActiveName(number: Sequence): string { "active-" + (Padded(number) + ".prefix") }

  lemma ActiveNameDetermines(number: Sequence, number': Sequence)
    requires ActiveName(number) == ActiveName(number')
    ensures number == number'
  {
    AfterPrefix("active-", Padded(number) + ".prefix", Padded(number') + ".prefix");
    BeforeSuffix(Padded(number), Padded(number'), ".prefix");
    PaddedDetermines(number, number');
  }

  /** An object below a backup's own directory belongs to that backup of that namespace. */
  lemma BelowBackup(ns: string, id: string, name: string, ns': string, id': string, name': string)
    requires "backups/" + (ns + ("/" + (id + ("/" + name)))) == "backups/" + (ns' + ("/" + (id' + ("/" + name'))))
    requires NoSlash(id) && NoSlash(id') && NoSlash(name) && NoSlash(name')
    ensures ns == ns' && id == id' && name == name'
  {
    AfterPrefix("backups/", ns + ("/" + (id + ("/" + name))), ns' + ("/" + (id' + ("/" + name'))));
    assert ns + ("/" + (id + ("/" + name))) == (ns + ("/" + id)) + ("/" + name);
    assert ns' + ("/" + (id' + ("/" + name'))) == (ns' + ("/" + id')) + ("/" + name');
    LastPart(ns + ("/" + id), name, ns' + ("/" + id'), name');
    LastPart(ns, id, ns', id');
  }

  lemma ActiveNameHasNoSlash(number: Sequence)
    ensures NoSlash(ActiveName(number)) && ActiveName(number) != "manifest.json"
  {
    hide Padded;
    assert ActiveName(number)[0] == 'a';
  }

  lemma ActiveKeyDetermines(ns: string, id: string, number: Sequence, ns': string, id': string, number': Sequence)
    requires ActiveKey(ns, id, number) == ActiveKey(ns', id', number') && NoSlash(id) && NoSlash(id')
    ensures ns == ns' && id == id' && number == number'
  {
    ActiveNameHasNoSlash(number);
    ActiveNameHasNoSlash(number');
    BelowBackup(ns, id, ActiveName(number), ns', id', ActiveName(number'));
    ActiveNameDetermines(number, number');
  }

  lemma ActiveIsNotManifest(ns: string, id: string, number: Sequence, ns': string, id': string)
    requires NoSlash(id) && NoSlash(id')
    ensures ActiveKey(ns, id, number) != ManifestKey(ns', id')
  {
    if ActiveKey(ns, id, number) == ManifestKey(ns', id') {
      ActiveNameHasNoSlash(number);
      assert "/manifest.json" == "/" + "manifest.json";
      BelowBackup(ns, id, ActiveName(number), ns', id', "manifest.json");
    }
  }

  function SealedName(number: Sequence, sum: string): string { Padded(number) + ("-" + (sum + ".seg")) }

  lemma SealedKeyDetermines(ns: string, number: Sequence, sum: string, ns': string, number': Sequence, sum': string)
    requires SealedKey(ns, number, sum) == SealedKey(ns', number', sum') && NoSlash(sum) && NoSlash(sum')
    ensures ns == ns' && number == number' && sum == sum'
  {
    hide Padded;
    var a, b := SealedName(number, sum), SealedName(number', sum');
    AfterPrefix("backup-segments/", ns + ("/" + a), ns' + ("/" + b));
    LastPart(ns, a, ns', b);
    assert Padded(number) == a[..20] == b[..20] == Padded(number');
    PaddedDetermines(number, number');
    AfterPrefix(Padded(number), "-" + (sum + ".seg"), "-" + (sum' + ".seg"));
    AfterPrefix("-", sum + ".seg", sum' + ".seg");
    BeforeSuffix(sum, sum', ".seg");
  }

  lemma PartKeyDetermines(ns: string, sum: string, ns': string, sum': string)
    requires PartKey(ns, sum) == PartKey(ns', sum') && NoSlash(sum) && NoSlash(sum')
    ensures ns == ns' && sum == sum'
  {
    AfterPrefix("attachments/", ns + ("/" + sum), ns' + ("/" + sum'));
    LastPart(ns, sum, ns', sum');
  }

  /** The family a key belongs to shows at its beginning. */
  datatype Family = OfBackup | OfSegments | OfParts | OfNs | OfDatabase | OfOther

  function FamilyOf(key: string): Family {
    if "backups/" <= key then OfBackup
    else if "backup-segments/" <= key then OfSegments
    else if "attachments/" <= key then OfParts
    else if "ns/" <= key then OfNs
    else if "database-backups/" <= key then OfDatabase
    else OfOther
  }

  lemma Families(ns: string, id: string, number: Sequence, sum: string)
    ensures FamilyOf(ManifestKey(ns, id)) == OfBackup && FamilyOf(ActiveKey(ns, id, number)) == OfBackup
    ensures FamilyOf(SealedKey(ns, number, sum)) == OfSegments && FamilyOf(PartKey(ns, sum)) == OfParts
    ensures FamilyOf(LegacyKey(ns, number)) == OfNs && FamilyOf(DatabaseKey(id)) == OfDatabase
  {
    hide Padded, FamilyOf;
    Starts("backups/", ns + ("/" + (id + "/manifest.json")));
    Starts("backups/", ns + ("/" + (id + ("/" + ActiveName(number)))));
    Starts("backup-segments/", ns + ("/" + SealedName(number, sum)));
    Starts("attachments/", ns + ("/" + sum));
    Starts("ns/", ns + ("/delta/" + (Padded(number) + ".seg")));
    Starts("database-backups/", id + "/manifest.json");
  }

  lemma Starts(p: string, rest: string)
    ensures p <= p + rest
    ensures p == "backups/" ==> FamilyOf(p + rest) == OfBackup
    ensures p == "backup-segments/" ==> FamilyOf(p + rest) == OfSegments
    ensures p == "attachments/" ==> FamilyOf(p + rest) == OfParts
    ensures p == "ns/" ==> FamilyOf(p + rest) == OfNs
    ensures p == "database-backups/" ==> FamilyOf(p + rest) == OfDatabase
  {
    assert forall i :: 0 <= i < |p| ==> (p + rest)[i] == p[i];
    if p == "backup-segments/" { assert (p + rest)[6] == '-' && "backups/"[6] == 's'; }
    if p == "attachments/" { assert (p + rest)[0] == 'a'; }
    if p == "ns/" { assert (p + rest)[0] == 'n'; }
    if p == "database-backups/" { assert (p + rest)[0] == 'd'; }
  }
}
