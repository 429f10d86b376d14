/** Cache file hashes as REFRESH compares them: 32 bytes under memcmp, which orders them like base-256 numbers. */
module HashOrder {
  import opened Bytes
  import opened Sequences
  import GenerationKey

  const HASH: nat := 32

  function Rank(s: Bytes): nat {
    if s == [] then 0 else 256 * Rank(s[..|s| - 1]) + s[|s| - 1] as int
  }

  lemma {:induction false} RankFrom(a: Bytes, b: Bytes, i: nat)
    requires |a| == |b| && i <= |a| && Rank(a[..i]) < Rank(b[..i])
    ensures Rank(a) < Rank(b)
    decreases |a| - i
  {
    if i < |a| {
      assert a[..i + 1][..i] == a[..i] && b[..i + 1][..i] == b[..i];
      RankFrom(a, b, i + 1);
    } else {
      assert a[..i] == a && b[..i] == b;
    }
  }

  /** The first byte that differs decides. */
  lemma FirstDifference(a: Bytes, b: Bytes, i: nat)
    requires |a| == |b| && i < |a| && a[..i] == b[..i] && a[i] < b[i]
    ensures Rank(a) < Rank(b)
  {
    assert a[..i + 1][..i] == a[..i] && b[..i + 1][..i] == b[..i];
    RankFrom(a, b, i + 1);
  }

  /** Different hashes have different ranks. */
  lemma {:induction false} RankInjective(a: Bytes, b: Bytes)
    requires |a| == |b| && Rank(a) == Rank(b)
    ensures a == b
  {
    if a != [] {
      var n := |a| - 1;
      RankInjective(a[..n], b[..n]);
      assert a == a[..n] + [a[n]] && b == b[..n] + [b[n]];
    }
  }

  method Memcmp(a: Bytes, b: Bytes) returns (sign: int)
    requires |a| == |b|
    ensures sign < 0 <==> Rank(a) < Rank(b)
    ensures sign == 0 <==> a == b
    ensures sign > 0 <==> Rank(a) > Rank(b)
  {
    var i := 0;
    while i < |a|
      invariant i <= |a| && a[..i] == b[..i]
    {
      if a[i] != b[i] {
        if a[i] < b[i] {
          FirstDifference(a, b, i);
        } else {
          FirstDifference(b, a, i);
        }
        return a[i] as int - b[i] as int;
      }
      i := i + 1;
    }
    assert a[..|a|] == a && b[..|a|] == b;
    sign := 0;
  }

  // ---- cursors ----

  predicate IsHex(c: Byte) {
    GenerationKey.HexValue(c) >= 0
  }

  ghost predicate HexHash(h: Bytes) {
    |h| == HASH && forall i :: 0 <= i < HASH ==> IsHex(h[i])
  }

  function Zeros(n: nat): (z: Bytes)
    ensures |z| == n && forall i :: 0 <= i < n ==> z[i] == '0'
  {
    seq(n, i requires 0 <= i < n => '0')
  }

  /** A cursor comes back in lower case. */
  function Returned(cursor: Bytes): Bytes {
    Fold(cursor)
  }

  /** The first page starts above the all-zero hash, so that one hash, and no other, is never listed. */
  lemma ZeroHashIsNeverAbove(h: Bytes)
    requires HexHash(h)
    ensures Rank(h) > Rank(Zeros(HASH)) <==> h != Zeros(HASH)
  {
    if h != Zeros(HASH) {
      var i := FirstMismatch(Zeros(HASH), h);
      FirstDifference(Zeros(HASH), h, i);
    }
  }

  predicate UpperCase(c: Byte) {
    'A' <= c <= 'Z'
  }

  ghost predicate HoldsUpper(cursor: Bytes) {
    exists i :: 0 <= i < |cursor| && UpperCase(cursor[i])
  }

  /** Lower-casing a cursor never moves it down, and moves it up exactly when it held an upper-case letter. */
  lemma ReturnedCursor(cursor: Bytes)
    ensures |Returned(cursor)| == |cursor| && Rank(cursor) <= Rank(Returned(cursor))
    ensures Rank(Returned(cursor)) == Rank(cursor) <==> !HoldsUpper(cursor)
  {
    var lower := Returned(cursor);
    if lower != cursor {
      var i := FirstMismatch(cursor, lower);
      FirstDifference(cursor, lower, i);
      assert UpperCase(cursor[i]);
    }
  }

  function Ranks(hashes: seq<Bytes>): (r: seq<nat>)
    ensures |r| == |hashes|
  {
    seq(|hashes|, i requires 0 <= i < |hashes| => Rank(hashes[i]))
  }

  // ---- what a returned cursor passes over ----

  /** Above the cursor, but not above the cursor as it comes back. */
  predicate PassedOver(cursor: Bytes, rank: nat) {
    Rank(cursor) < rank <= Rank(Returned(cursor))
  }

  /** A returned cursor passes over some hash exactly when it held an upper-case digit. */
  lemma ReturnedCursorSkips(cursor: Bytes)
    requires HexHash(cursor)
    ensures (exists c: Bytes :: HexHash(c) && PassedOver(cursor, Rank(c))) <==> HoldsUpper(cursor)
  {
    ReturnedCursor(cursor);
    var lower := Returned(cursor);
    if HoldsUpper(cursor) {
      assert HexHash(lower) && PassedOver(cursor, Rank(lower));
    }
  }

  /**
   It passes over every hash that agrees with it up to its first upper-case digit and goes on with a byte
   between the two cases of that digit: after `F...` the hashes that begin with `a` to `e` are not listed.
   */
  lemma FamilySkipped(cursor: Bytes, c: Bytes, i: nat)
    requires |cursor| == |c| == HASH && i < HASH && c[..i] == cursor[..i]
    requires forall j :: 0 <= j < i ==> !UpperCase(cursor[j])
    requires cursor[i] < c[i] < ToLower(cursor[i])
    ensures PassedOver(cursor, Rank(c))
  {
    FirstDifference(cursor, c, i);
    assert c[..i] == Returned(cursor)[..i];
    FirstDifference(c, Returned(cursor), i);
  }
}
