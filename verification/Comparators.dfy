/** The bytewise order, the order of internal keys over it, and the short separators of both. */
module Comparators {
  import opened Coding

  /** Lexicographic order of unsigned bytes. */
  predicate BytesLess(a: Bytes, b: Bytes) {
    b != [] && (a == [] || a[0] < b[0] || (a[0] == b[0] && BytesLess(a[1..], b[1..])))
  }

  lemma {:induction false} LessIrreflexive(a: Bytes)
    ensures !BytesLess(a, a)
  {
    if a != [] {
      LessIrreflexive(a[1..]);
    }
  }

  lemma {:induction false} LessTransitive(a: Bytes, b: Bytes, c: Bytes)
    requires BytesLess(a, b) && BytesLess(b, c)
    ensures BytesLess(a, c)
  {
    if a != [] && a[0] == b[0] == c[0] {
      LessTransitive(a[1..], b[1..], c[1..]);
    }
  }

  lemma {:induction false} LessTotal(a: Bytes, b: Bytes)
    ensures BytesLess(a, b) || a == b || BytesLess(b, a)
  {
    if a != [] && b != [] {
      LessTotal(a[1..], b[1..]);
      if a[0] == b[0] && a[1..] == b[1..] {
        assert a == [a[0]] + a[1..] == b;
      }
    }
  }

  /** The first difference decides. */
  lemma {:induction false} FirstDifference(a: Bytes, b: Bytes, n: nat)
    requires n < |a| && n < |b| && a[..n] == b[..n] && a[n] < b[n]
    ensures BytesLess(a, b) && !BytesLess(b, a)
  {
    if n > 0 {
      assert a[..n][0] == a[0] && b[..n][0] == b[0];
      assert a[1..][..n - 1] == a[..n][1..] && b[1..][..n - 1] == b[..n][1..];
      FirstDifference(a[1..], b[1..], n - 1);
    }
  }

  /** The strings first differ at `n`, with room for a byte between the two. */
  ghost predicate RoomAt(start: Bytes, limit: Bytes, n: nat) {
    n < |start| && n < |limit| && start[..n] == limit[..n] && start[n] as int + 1 < limit[n]
  }

  /** The first byte of a string that can be raised. */
  ghost predicate RaisableAt(key: Bytes, n: nat) {
    n < |key| && key[n] < 0xff && forall i :: 0 <= i < n ==> key[i] == 0xff
  }

  /** Cut behind a byte that is raised by one. */
  ghost function Raised(key: Bytes, n: nat): Bytes
    requires n < |key| && key[n] < 0xff
  {
    key[..n] + [key[n] + 1]
  }

  method FindShortestSeparator(start: Bytes, limit: Bytes) returns (r: Bytes)
    ensures r == start || (BytesLess(start, r) && BytesLess(r, limit) && |r| <= |start|)
    ensures r == start ==> forall n: nat :: !RoomAt(start, limit, n)
    ensures forall n: nat :: RoomAt(start, limit, n) ==> r == Raised(start, n)
  {
    var minLength := if |start| < |limit| then |start| else |limit|;
    var diff := 0;
    while diff < minLength && start[diff] == limit[diff]
      invariant diff <= minLength && start[..diff] == limit[..diff]
    {
      diff := diff + 1;
    }
    forall n | RoomAt(start, limit, n) ensures n == diff {
      OneDifference(start, limit, diff, n);
    }
    r := start;
    if diff < minLength {
      var byte: int := start[diff];
      if byte < 0xff && byte + 1 < limit[diff] {
        r := start[..diff] + [byte + 1];
        FirstDifference(start, r, diff);
        FirstDifference(r, limit, diff);
        LessIrreflexive(start);
      }
    }
  }

  lemma OneDifference(a: Bytes, b: Bytes, m: nat, n: nat)
    requires m <= |a| && m <= |b| && a[..m] == b[..m] && (m < |a| && m < |b| ==> a[m] != b[m])
    requires n < |a| && n < |b| && a[..n] == b[..n] && a[n] != b[n]
    ensures m == n
  {
    assert forall i :: 0 <= i < m ==> a[..m][i] == a[i] && b[..m][i] == b[i];
    assert forall i :: 0 <= i < n ==> a[..n][i] == a[i] && b[..n][i] == b[i];
  }

  /** Where there is room, the separator is the shortest string from the start to the limit. */
  lemma SeparatorIsShortest(start: Bytes, limit: Bytes, n: nat, x: Bytes)
    requires RoomAt(start, limit, n) && !BytesLess(x, start) && BytesLess(x, limit)
    ensures |x| >= |Raised(start, n)|
  {
    if |x| <= n {
      Between(start, limit, n, x);
    }
  }

  /** What is no longer than the common start of two strings does not lie between them. */
  lemma {:induction false} Between(start: Bytes, limit: Bytes, n: nat, x: Bytes)
    requires n < |start| && n < |limit| && start[..n] == limit[..n] && |x| <= n
    ensures BytesLess(x, start) <==> BytesLess(x, limit)
  {
    if x != [] {
      assert start[0] == start[..n][0] == limit[..n][0] == limit[0];
      assert start[1..][..n - 1] == start[..n][1..] && limit[1..][..n - 1] == limit[..n][1..];
      Between(start[1..], limit[1..], n - 1, x[1..]);
    }
  }

  method FindShortSuccessor(key: Bytes) returns (r: Bytes)
    ensures r == key || (BytesLess(key, r) && |r| <= |key|)
    ensures r == key ==> forall i :: 0 <= i < |key| ==> key[i] == 0xff
    ensures forall n: nat :: RaisableAt(key, n) ==> r == Raised(key, n)
  {
    for i := 0 to |key|
      invariant forall j :: 0 <= j < i ==> key[j] == 0xff
    {
      if key[i] != 0xff {
        r := key[..i] + [key[i] + 1];
        FirstDifference(key, r, i);
        LessIrreflexive(key);
        return;
      }
    }
    r := key;
  }

  /** Of all greater strings the successor is a shortest one. */
  lemma {:induction false} SuccessorIsShortest(key: Bytes, n: nat, x: Bytes)
    requires RaisableAt(key, n) && BytesLess(key, x)
    ensures |x| >= |Raised(key, n)|
  {
    if n > 0 && key[0] == x[0] {
      SuccessorIsShortest(key[1..], n - 1, x[1..]);
    }
  }

  /** A user key and its trailer, the sequence number and the type packed in 64 bits. */
  datatype InternalKey = InternalKey(user: Bytes, tag: DoubleWord)

  const MAX_TAG: DoubleWord := DOUBLE_WORD - 256 + 1

  /** User keys ascend; for one user key, trailers descend. */
  predicate KeyLess(a: InternalKey, b: InternalKey) {
    BytesLess(a.user, b.user) || (a.user == b.user && a.tag > b.tag)
  }

  lemma KeyLessOrders(a: InternalKey, b: InternalKey, c: InternalKey)
    ensures !KeyLess(a, a) && (KeyLess(a, b) || a == b || KeyLess(b, a))
    ensures KeyLess(a, b) ==> !KeyLess(b, a)
    ensures KeyLess(a, b) && KeyLess(b, c) ==> KeyLess(a, c)
  {
    LessIrreflexive(a.user);
    LessTotal(a.user, b.user);
    if BytesLess(a.user, b.user) && BytesLess(b.user, a.user) {
      LessTransitive(a.user, b.user, a.user);
    }
    if BytesLess(a.user, b.user) && BytesLess(b.user, c.user) {
      LessTransitive(a.user, b.user, c.user);
    }
  }

  function EncodeKey(k: InternalKey): Bytes {
    k.user + Fixed(k.tag, 8)
  }

  function ExtractUserKey(b: Bytes): Bytes
    requires |b| >= 8
  {
    b[..|b| - 8]
  }

  lemma KeyRoundTrip(k: InternalKey)
    ensures var b := EncodeKey(k);
            |b| >= 8 && ExtractUserKey(b) == k.user && DecodeFixed(b[|b| - 8..]) == k.tag
  {
    var b := EncodeKey(k);
    assert b[|b| - 8..] == Fixed(k.tag, 8);
    Fixed64RoundTrip(k.tag);
  }

  /** A separator is the first key itself, or its user key lies strictly between the two user keys. */
  ghost predicate Separates(start: InternalKey, r: InternalKey, limit: InternalKey) {
    r == start || (BytesLess(start.user, r.user) && BytesLess(r.user, limit.user))
  }

  /** A user key that got shorter takes the largest trailer, so it comes before all its versions. */
  method SeparateKeys(start: InternalKey, limit: InternalKey) returns (r: InternalKey)
    ensures Separates(start, r, limit)
    ensures KeyLess(start, limit) ==> !KeyLess(r, start) && KeyLess(r, limit)
    ensures r == start ==> forall n: nat :: RoomAt(start.user, limit.user, n) ==> n + 1 == |start.user|
    ensures forall n: nat :: RoomAt(start.user, limit.user, n) && n + 1 < |start.user| ==> r == InternalKey(Raised(start.user, n), MAX_TAG)
  {
    var tmp := FindShortestSeparator(start.user, limit.user);
    LessIrreflexive(start.user);
    if |tmp| < |start.user| && BytesLess(start.user, tmp) {
      r := InternalKey(tmp, MAX_TAG);
    } else {
      r := start;
    }
    KeyLessOrders(start, r, limit);
    KeyLessOrders(start, start, limit);
  }

  method SucceedKey(key: InternalKey) returns (r: InternalKey)
    ensures r == key || BytesLess(key.user, r.user)
    ensures !KeyLess(r, key)
    ensures r == key ==> forall n: nat :: RaisableAt(key.user, n) ==> n + 1 == |key.user|
    ensures forall n: nat :: RaisableAt(key.user, n) && n + 1 < |key.user| ==> r == InternalKey(Raised(key.user, n), MAX_TAG)
  {
    var tmp := FindShortSuccessor(key.user);
    LessIrreflexive(key.user);
    if |tmp| < |key.user| && BytesLess(key.user, tmp) {
      r := InternalKey(tmp, MAX_TAG);
    } else {
      r := key;
    }
    KeyLessOrders(key, r, key);
  }
}
