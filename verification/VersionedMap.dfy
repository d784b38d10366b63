/** The specification of the store: a set of versioned entries, read at a sequence number.
    A read of `k` at `s` is answered by the newest entry of `k` numbered at most `s`. */
module VersionedMap {
  import opened Format

  predicate Candidate(e: Entry, k: UserKey, s: nat) {
    e.key.user == k && e.key.seqno <= s
  }

  ghost predicate IsNewest(S: set<Entry>, k: UserKey, s: nat, e: Entry) {
    && e in S
    && Candidate(e, k, s)
    && forall x :: x in S && Candidate(x, k, s) ==> x.key.seqno <= e.key.seqno
  }

  /** One entry per (user key, sequence number). */
  ghost predicate Functional(S: set<Entry>) {
    forall x, y :: x in S && y in S && x.key.user == y.key.user && x.key.seqno == y.key.seqno ==> x == y
  }

  ghost function Newest(S: set<Entry>, k: UserKey, s: nat): Option<Entry> {
    if exists e :: IsNewest(S, k, s, e) then
      var e :| IsNewest(S, k, s, e);
      Some(e)
    else
      None
  }

  ghost function Read(S: set<Entry>, k: UserKey, s: nat): Option<Value> {
    match Newest(S, k, s)
    case None => None
    case Some(e) => Live(e)
  }

  lemma {:induction false} NewestExists(S: set<Entry>, k: UserKey, s: nat, x: Entry) returns (e: Entry)
    requires x in S && Candidate(x, k, s)
    ensures IsNewest(S, k, s, e)
  {
    if y :| y in S - {x} && Candidate(y, k, s) {
      var z := NewestExists(S - {x}, k, s, y);
      e := if z.key.seqno >= x.key.seqno then z else x;
      assert forall w :: w in S ==> w in S - {x} || w == x;
    } else {
      e := x;
      assert forall w :: w in S ==> w in S - {x} || w == x;
    }
  }

  /** The newest candidate is the answer, and there is no answer exactly when there is no candidate. */
  lemma NewestIs(S: set<Entry>, k: UserKey, s: nat)
    requires Functional(S)
    ensures forall e :: IsNewest(S, k, s, e) ==> Newest(S, k, s) == Some(e)
    ensures Newest(S, k, s).None? <==> forall x :: x in S ==> !Candidate(x, k, s)
  {
    forall x | x in S && Candidate(x, k, s)
      ensures Newest(S, k, s).Some?
    {
      var e := NewestExists(S, k, s, x);
    }
  }

  /** Adding entries of other keys, later entries, or entries older than one already there
      leaves the answer alone. */
  lemma NewestOfSuperset(S: set<Entry>, T: set<Entry>, k: UserKey, s: nat)
    requires S <= T && Functional(T)
    requires forall x :: x in T - S && Candidate(x, k, s) ==>
               exists y :: y in S && Candidate(y, k, s) && y.key.seqno > x.key.seqno
    ensures Newest(T, k, s) == Newest(S, k, s)
  {
    NewestIs(S, k, s);
    NewestIs(T, k, s);
    match Newest(T, k, s)
    case None =>
    case Some(e) =>
      assert IsNewest(T, k, s, e);
      assert e in S;
      assert IsNewest(S, k, s, e);
  }
}
