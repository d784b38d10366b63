/** Numbered histories: the store's specification is the list of all logged operations, where the
    operation at index `i` has sequence number `i + 1`. */
module History {
  import opened Format
  import opened VersionedMap
  import opened Selection
  import opened Versions

  datatype Op = Op(user: UserKey, kind: Kind, value: Value)

  /** `WriteBatchInternal::InsertInto`: consecutive sequence numbers, starting at `first`. */
  function Number(ops: seq<Op>, first: nat): (es: seq<Entry>)
    ensures |es| == |ops|
    ensures forall i :: 0 <= i < |es| ==> es[i] == Entry(IKey(ops[i].user, first + i, ops[i].kind), ops[i].value)
  {
    seq(|ops|, i requires 0 <= i < |ops| => Entry(IKey(ops[i].user, first + i, ops[i].kind), ops[i].value))
  }

  predicate HistOk(hist: seq<Entry>) {
    && |hist| < MAX_SEQUENCE
    && forall i :: 0 <= i < |hist| ==> hist[i].key.seqno == i + 1
  }

  /** The operations numbered `a + 1` to `b`. */
  ghost function Between(hist: seq<Entry>, a: nat, b: nat): set<Entry>
    requires a <= b <= |hist|
  {
    set i | a <= i < b :: hist[i]
  }

  lemma BetweenIs(hist: seq<Entry>, a: nat, b: nat)
    requires HistOk(hist) && a <= b <= |hist|
    ensures forall e :: e in Between(hist, a, b) ==> a < e.key.seqno <= b && e == hist[e.key.seqno - 1]
    ensures Functional(Between(hist, a, b))
  {
    forall e | e in Between(hist, a, b) ensures a < e.key.seqno <= b && e == hist[e.key.seqno - 1] {
      var i :| a <= i < b && hist[i] == e;
    }
  }

  lemma BetweenSplit(hist: seq<Entry>, a: nat, b: nat, c: nat)
    requires a <= b <= c <= |hist|
    ensures Between(hist, a, c) == Between(hist, a, b) + Between(hist, b, c)
  {}

  lemma BetweenEmpty(hist: seq<Entry>, a: nat, b: nat)
    requires a <= b <= |hist|
    ensures Between(hist, a, b) == {} <==> a == b
  {
    assert a < b ==> hist[a] in Between(hist, a, b);
  }

  lemma FunctionalSubset(S: set<Entry>, T: set<Entry>)
    requires S <= T && Functional(T)
    ensures Functional(S)
  {}

  /** Later operations are newer than earlier ones, whatever their keys. */
  lemma LaterIsNewer(hist: seq<Entry>, a: nat, b: nat, c: nat, S: set<Entry>, T: set<Entry>)
    requires HistOk(hist) && a <= b <= c <= |hist| && S <= Between(hist, b, c) && T <= Between(hist, a, b)
    ensures Newer(S, T)
  {
    BetweenIs(hist, a, b);
    BetweenIs(hist, b, c);
    forall x, y | x in S && y in T ensures Before(x, y) {
      assert x.key.seqno > y.key.seqno;
      NewerTag(x.key, y.key);
    }
  }

  lemma NewerTag(a: IKey, b: IKey)
    requires a.seqno > b.seqno
    ensures Tag(a) > Tag(b)
  {}

  /** Replacing what lies below a stretch of history by something that reads the same is invisible. */
  lemma ReadAbove(hist: seq<Entry>, m: nat, n: nat, A: set<Entry>, k: UserKey, s: nat)
    requires HistOk(hist) && m <= n <= |hist| && A <= Between(hist, 0, m)
    requires Read(A, k, s) == Read(Between(hist, 0, m), k, s)
    ensures Read(Between(hist, m, n) + A, k, s) == Read(Between(hist, 0, n), k, s)
  {
    var B, N := Between(hist, 0, m), Between(hist, m, n);
    BetweenSplit(hist, 0, m, n);
    BetweenIs(hist, 0, n);
    assert N + B == Between(hist, 0, n);
    FunctionalSubset(N + A, N + B);
    if x :| x in N && Candidate(x, k, s) {
      var e := NewestExists(N, k, s, x);
      NewestAbove(hist, m, n, A, k, s, e);
      NewestAbove(hist, m, n, B, k, s, e);
    } else {
      NewestOfSuperset(A, N + A, k, s);
      NewestOfSuperset(B, N + B, k, s);
    }
  }

  lemma NewestAbove(hist: seq<Entry>, m: nat, n: nat, A: set<Entry>, k: UserKey, s: nat, e: Entry)
    requires HistOk(hist) && m <= n <= |hist| && A <= Between(hist, 0, m) && Functional(Between(hist, m, n) + A)
    requires IsNewest(Between(hist, m, n), k, s, e)
    ensures Newest(Between(hist, m, n) + A, k, s) == Some(e)
  {
    BetweenIs(hist, 0, m);
    BetweenIs(hist, m, n);
    assert IsNewest(Between(hist, m, n) + A, k, s, e);
    NewestIs(Between(hist, m, n) + A, k, s);
  }

  /** Operations after `s` do not matter to a read at `s`. */
  lemma ReadPrefix(hist: seq<Entry>, n: nat, k: UserKey, s: nat)
    requires HistOk(hist) && s <= n <= |hist|
    ensures Read(Between(hist, 0, n), k, s) == Read(Between(hist, 0, |hist|), k, s)
  {
    BetweenIs(hist, 0, |hist|);
    BetweenIs(hist, n, |hist|);
    BetweenSplit(hist, 0, n, |hist|);
    NewestOfSuperset(Between(hist, 0, n), Between(hist, 0, |hist|), k, s);
  }

  /** Appending to a history changes nothing about its prefix. */
  lemma BetweenPrefix(hist: seq<Entry>, more: seq<Entry>, a: nat, b: nat)
    requires a <= b <= |hist|
    ensures Between(hist + more, a, b) == Between(hist, a, b)
  {
    assert forall i :: a <= i < b ==> (hist + more)[i] == hist[i];
  }

  // ---------------------------------------------------------------------------------------------
  // Memtables

  /** Insertion into a memtable, seen as the sorted list of its entries. */
  function InsertEntry(es: seq<Entry>, e: Entry): seq<Entry> {
    if es == [] || Less(e.key, es[0].key) then [e] + es else [es[0]] + InsertEntry(es[1..], e)
  }

  lemma {:induction false} InsertEntryIs(es: seq<Entry>, e: Entry)
    requires Sorted(es) && forall x :: x in es ==> Tag(x.key) != Tag(e.key)
    ensures Sorted(InsertEntry(es, e)) && Contents(InsertEntry(es, e)) == Contents(es) + {e}
  {
    if es == [] {
    } else if Less(e.key, es[0].key) {
      ConsSorted(e, es);
    } else {
      var rest := InsertEntry(es[1..], e);
      InsertEntryIs(es[1..], e);
      assert es == [es[0]] + es[1..];
      forall x | x in rest ensures Less(es[0].key, x.key) {
        assert x in Contents(rest);
        assert x in es[1..] || x == e;
      }
      ConsSorted(es[0], rest);
    }
  }

  lemma ConsSorted(e: Entry, rest: seq<Entry>)
    requires Sorted(rest) && (rest != [] ==> Less(e.key, rest[0].key))
    ensures Sorted([e] + rest) && Contents([e] + rest) == Contents(rest) + {e}
  {
    forall i, j | 0 <= i < j < |[e] + rest| ensures Less(([e] + rest)[i].key, ([e] + rest)[j].key) {
      assert j > 1 ==> Less(rest[0].key, rest[j - 1].key);
    }
  }

  /** The memtable that results from inserting operations in order. */
  function Memtable(ops: seq<Entry>): seq<Entry> {
    if ops == [] then [] else InsertEntry(Memtable(ops[..|ops| - 1]), ops[|ops| - 1])
  }

  lemma {:induction false} MemtableIs(hist: seq<Entry>, a: nat, b: nat)
    requires HistOk(hist) && a <= b <= |hist|
    ensures Sorted(Memtable(hist[a..b])) && Contents(Memtable(hist[a..b])) == Between(hist, a, b)
  {
    if a < b {
      MemtableIs(hist, a, b - 1);
      assert hist[a..b][..b - 1 - a] == hist[a..b - 1];
      InsertNext(hist, a, b - 1, Memtable(hist[a..b - 1]));
    }
  }

  lemma InsertNext(hist: seq<Entry>, a: nat, b: nat, mem: seq<Entry>)
    requires HistOk(hist) && a <= b < |hist| && Sorted(mem) && Contents(mem) == Between(hist, a, b)
    ensures Sorted(InsertEntry(mem, hist[b])) && Contents(InsertEntry(mem, hist[b])) == Between(hist, a, b + 1)
  {
    BetweenIs(hist, a, b);
    forall x | x in mem ensures Tag(x.key) != Tag(hist[b].key) {
      assert x in Contents(mem);
      NewerTag(hist[b].key, x.key);
    }
    InsertEntryIs(mem, hist[b]);
    BetweenSplit(hist, a, b, b + 1);
    assert Between(hist, b, b + 1) == {hist[b]};
  }
}
