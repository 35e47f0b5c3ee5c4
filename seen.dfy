/** The table of fingerprints already reached: 256 buckets, each a list of hex
    digests, indexed by the value of a digest's first two hexadecimal digits. */
module Seen {

  const Buckets: nat := 256

  predicate IsHexDigit(ch: char) {
    '0' <= ch <= '9' || 'a' <= ch <= 'f' || 'A' <= ch <= 'F'
  }

  /** The value of one hexadecimal digit, either case, as int(_, 16) reads it. */
  function HexValue(ch: char): (v: nat)
    requires IsHexDigit(ch)
    ensures v < 16
    ensures '0' <= ch <= '9' ==> v == ch as int - '0' as int
    ensures 'a' <= ch <= 'f' ==> v == ch as int - 'a' as int + 10
    ensures 'A' <= ch <= 'F' ==> v == ch as int - 'A' as int + 10
  {
    if ch <= '9' then ch as int - '0' as int
    else if ch <= 'F' then ch as int - 'A' as int + 10
    else ch as int - 'a' as int + 10
  }

  /** What hexdigest returns: 32 lower-case hexadecimal digits. */
  predicate IsHexDigest(h: string) {
    |h| == 32 && forall i :: 0 <= i < |h| ==> '0' <= h[i] <= '9' || 'a' <= h[i] <= 'f'
  }

  /** A string whose first two characters int(_, 16) accepts. */
  predicate Keyed(h: string) {
    |h| >= 2 && IsHexDigit(h[0]) && IsHexDigit(h[1])
  }

  /** int(h[:2], 16): the bucket of a digest. */
  function Bucket(h: string): (i: nat)
    requires Keyed(h)
    ensures i < Buckets
  {
    16 * HexValue(h[0]) + HexValue(h[1])
  }

  /** Every digest has a bucket. */
  lemma DigestKeyed(h: string)
    requires IsHexDigest(h)
    ensures Keyed(h)
  {
    assert IsHexDigit(h[0]) && IsHexDigit(h[1]);
  }

  /** The table Spider4 starts with: 256 empty buckets. */
  function EmptyTable(): seq<seq<string>> {
    seq(Buckets, _ => [])
  }

  /** Every digest sits in its own bucket. */
  predicate Filed(t: seq<seq<string>>) {
    && |t| == Buckets
    && forall i, k :: 0 <= i < |t| && 0 <= k < |t[i]| ==> Keyed(t[i][k]) && Bucket(t[i][k]) == i
  }

  /** No bucket holds a digest twice. */
  predicate NoRepeats(t: seq<seq<string>>) {
    forall i, k, l :: 0 <= i < |t| && 0 <= k < l < |t[i]| ==> t[i][k] != t[i][l]
  }

  /** The set of digests the table holds, wherever they are. */
  predicate Contains(t: seq<seq<string>>, h: string) {
    exists i :: 0 <= i < |t| && h in t[i]
  }

  /** _hash_add: append h to its bucket. */
  function HashAdd(t: seq<seq<string>>, h: string): (t': seq<seq<string>>)
    requires |t| == Buckets && Keyed(h)
    ensures |t'| == Buckets
    ensures forall i :: 0 <= i < Buckets && i != Bucket(h) ==> t'[i] == t[i]
    ensures t'[Bucket(h)] == t[Bucket(h)] + [h]
  {
    t[Bucket(h) := t[Bucket(h)] + [h]]
  }

  /** _hash_find: whether h is in its bucket. */
  function HashFind(t: seq<seq<string>>, h: string): bool
    requires |t| == Buckets && Keyed(h)
  {
    h in t[Bucket(h)]
  }

  /** The empty table is filed, repeats nothing and holds nothing. */
  lemma EmptyTableFacts(h: string)
    ensures Filed(EmptyTable()) && NoRepeats(EmptyTable()) && !Contains(EmptyTable(), h)
  {
  }

  /** In a filed table, looking in one bucket is looking everywhere. */
  lemma FindMeansContains(t: seq<seq<string>>, h: string)
    requires Filed(t) && Keyed(h)
    ensures HashFind(t, h) <==> Contains(t, h)
  {
    if Contains(t, h) {
      var i :| 0 <= i < |t| && h in t[i];
      var k :| 0 <= k < |t[i]| && t[i][k] == h;
      assert Bucket(t[i][k]) == i;
    }
  }

  /** Adding h files it, and afterwards exactly h and what was there before are found;
      adding a digest not yet found repeats nothing. */
  lemma AddThenFind(t: seq<seq<string>>, h: string, x: string)
    requires Filed(t) && Keyed(h) && Keyed(x)
    ensures Filed(HashAdd(t, h))
    ensures HashFind(HashAdd(t, h), x) <==> x == h || HashFind(t, x)
    ensures NoRepeats(t) && !HashFind(t, h) ==> NoRepeats(HashAdd(t, h))
  {
    var t' := HashAdd(t, h);
    if x != h && Bucket(x) == Bucket(h) {
      assert x in t'[Bucket(x)] <==> x in t[Bucket(x)] by {
        assert t'[Bucket(x)] == t[Bucket(x)] + [h];
      }
    }
  }
}
