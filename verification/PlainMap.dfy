/** The store is a map: what a run shows its clients, said without sequence numbers, memtables, tables or versions. */
module PlainMap {
  import opened Format
  import opened VersionedMap
  import opened Versions
  import opened VersionSteps
  import opened History
  import opened Store
  import opened StoreInvariant
  import opened StoreTheorems
  import opened Clients
  import opened DbIter
  import opened Iteration
  import Merger

  // ---------------------------------------------------------------------------------------------
  // One history

  /** The map that clients have in mind after some operations. */
  function Applied(ops: seq<Op>): map<UserKey, Value> {
    if ops == [] then map[] else
      var before, last := Applied(ops[..|ops| - 1]), ops[|ops| - 1];
      if last.kind.Put? then before[last.user := last.value] else before - {last.user}
  }

  function LookUp(m: map<UserKey, Value>, k: UserKey): Option<Value> {
    if k in m then Some(m[k]) else None
  }

  /** The last operation of a history decides what its own key reads as, and no other. */
  lemma LastDecides(hist: seq<Entry>, s: nat, k: UserKey)
    requires HistOk(hist) && 0 < s <= |hist|
    ensures var e := hist[s - 1];
            Read(Between(hist, 0, s), k, s) == if e.key.user == k then Live(e) else Read(Between(hist, 0, s - 1), k, s - 1)
  {
    var e, before, all := hist[s - 1], Between(hist, 0, s - 1), Between(hist, 0, s);
    BetweenIs(hist, 0, s);
    BetweenIs(hist, 0, s - 1);
    BetweenSplit(hist, 0, s - 1, s);
    assert Between(hist, s - 1, s) == {e};
    if e.key.user == k {
      assert IsNewest(all, k, s, e);
      NewestIs(all, k, s);
    } else {
      NewestOfSuperset(before, all, k, s);
      SameCandidates(before, k, s);
    }
  }

  lemma SameCandidates(S: set<Entry>, k: UserKey, s: nat)
    requires 0 < s && Functional(S) && forall e :: e in S ==> e.key.seqno < s
    ensures Read(S, k, s) == Read(S, k, s - 1)
  {
    assert forall e :: IsNewest(S, k, s, e) <==> IsNewest(S, k, s - 1, e);
    NewestIs(S, k, s);
    NewestIs(S, k, s - 1);
  }

  /** A read at `s` answers what the map holds after the first `s` operations. */
  lemma {:induction false} ReadIsLookUp(ops: seq<Op>, s: nat, k: UserKey)
    requires s <= |ops| < MAX_SEQUENCE
    ensures Read(Between(Number(ops, 1), 0, |ops|), k, s) == LookUp(Applied(ops[..s]), k)
  {
    hide Read, Number, Between;
    var hist := Number(ops, 1);
    ReadPrefix(hist, s, k, s);
    if s == 0 {
      NothingRead(hist, k);
    } else {
      ReadIsLookUp(ops, s - 1, k);
      ReadPrefix(hist, s - 1, k, s - 1);
      LastDecides(hist, s, k);
      assert ops[..s][..s - 1] == ops[..s - 1];
    }
  }

  lemma NothingRead(hist: seq<Entry>, k: UserKey)
    ensures Read(Between(hist, 0, 0), k, 0) == None
  {
    assert Between(hist, 0, 0) == {};
  }

  // ---------------------------------------------------------------------------------------------
  // Whole runs

  /** The operations a run has made visible after `n` steps: those of all groups that were logged when a group
      was last published or the store last recovered. */
  function Shown(actions: seq<Action>, n: nat): seq<Op>
    requires n <= |actions|
  {
    if n == 0 then []
    else if actions[n - 1].Publish? || actions[n - 1].CrashAndRecover? then Written(actions, n - 1)
    else Shown(actions, n - 1)
  }

  /** Nothing is shown that was not written, what is shown stays shown, and what was logged when a group was
      published is. */
  lemma {:induction false} ShownGrows(actions: seq<Action>, p: nat, n: nat)
    requires p <= n <= |actions|
    ensures Shown(actions, p) <= Shown(actions, n) <= Written(actions, n)
    ensures p < n && actions[p].Publish? ==> Written(actions, p) <= Shown(actions, n)
  {
    hide Written;
    if p < n {
      ShownGrows(actions, p, n - 1);
      WrittenGrows(actions, n - 1, n);
      WrittenGrows(actions, p, n - 1);
    } else if n > 0 {
      ShownGrows(actions, n - 1, n - 1);
      WrittenGrows(actions, n - 1, n);
    }
  }

  /** The published sequence number counts the operations shown. */
  lemma {:induction false} LastSequenceCountsShown(states: seq<State>, actions: seq<Action>, n: nat)
    requires Run(states, actions) && n <= |actions|
    ensures states[n].lastSeq == |Shown(actions, n)|
  {
    hide Next, Inv, Written;
    if n > 0 {
      var st, a := states[n - 1], actions[n - 1];
      LastSequenceCountsShown(states, actions, n - 1);
      HistoryIsWritten(states, actions, n - 1);
      RunKeepsInv(states, actions, n - 1);
      PublishedStep(st, a, states[n]);
    }
  }

  lemma PublishedStep(st: State, a: Action, st': State)
    requires Inv(st) && Next(st, a, st')
    ensures st'.lastSeq == if a.Publish? || a.CrashAndRecover? then |st.hist| else st.lastSeq
  {
    hide VersionOk, Listed, ReadsOk, MemsOk, FileNumbersOk, BackgroundOk, SnapshotsOk;
    if a.CrashAndRecover? {
      RecoveredSequenceIs(st);
    }
  }

  /** Reads at a sequence number that was published at step `t` look up the map of what was shown at step `t`. */
  lemma ReadIsShown(states: seq<State>, actions: seq<Action>, t: nat, k: UserKey)
    requires Run(states, actions) && t <= |actions|
    ensures Read(Spec(states[t]), k, states[t].lastSeq) == LookUp(Applied(Shown(actions, t)), k)
  {
    hide Read, Applied, Inv, Run, Written, Shown;
    HistoryIsWritten(states, actions, t);
    LastSequenceCountsShown(states, actions, t);
    ShownGrows(actions, t, t);
    HistoryFits(states, actions, t);
    var all, shown := Written(actions, t), Shown(actions, t);
    assert all[..|shown|] == shown && |Number(all, 1)| == |all|;
    ReadIsLookUp(all, |shown|, k);
  }

  lemma HistoryFits(states: seq<State>, actions: seq<Action>, t: nat)
    requires Run(states, actions) && t <= |actions|
    ensures |states[t].hist| < MAX_SEQUENCE
  {
    RunKeepsInv(states, actions, t);
  }

  /** `Get` without a snapshot, at any step of any run. */
  method GetLatest(ghost states: seq<State>, ghost actions: seq<Action>, ghost n: nat, st: State, k: UserKey)
    returns (r: Option<Value>)
    requires Run(states, actions) && n <= |actions| && st == states[n]
    ensures r == LookUp(Applied(Shown(actions, n)), k)
  {
    hide Read, Applied, Inv, Spec;
    RunKeepsInv(states, actions, n);
    ReadIsShown(states, actions, n, k);
    r := GetFromStore(st, k, None);
  }

  /** `Get` through a snapshot that is still held: the map as it was shown when the snapshot was taken. */
  method GetHeld(ghost states: seq<State>, ghost actions: seq<Action>, ghost n: nat, st: State, x: nat, k: UserKey)
    returns (r: Option<Value>)
    requires Run(states, actions) && n <= |actions| && st == states[n] && x < |Held(actions, n)|
    ensures Held(actions, n)[x] < n && r == LookUp(Applied(Shown(actions, Held(actions, n)[x])), k)
  {
    hide Read, Applied, Inv, Spec;
    r := GetAtSnapshot(states, actions, n, st, x, k);
    ReadIsShown(states, actions, Held(actions, n)[x], k);
  }

  /** An iterator made at step `i`, for the latest state or through a snapshot of step `t`, and used at step `j`:
      the entries it stops at are the keys and values of that map, in the order of the keys. */
  lemma IteratorShowsMap(states: seq<State>, actions: seq<Action>, t: nat, i: nat, j: nat, merged: seq<Entry>)
    requires Run(states, actions) && t <= i <= j <= |actions| && NoCrash(actions, i, j)
    requires t == i || t in Held(actions, i)
    requires states[i].logs != []
    requires var w := Capture(states[i], states[t].lastSeq);
             ViewPinned(states[j], w) && |w.version| == NUM_LEVELS && Merger.IsMerge(ViewChildren(states[j], w), merged)
    ensures var m, live := Applied(Shown(actions, t)), LiveList(merged, states[t].lastSeq);
            && (forall p, q :: 0 <= p < q < |live| ==> live[p].key.user < live[q].key.user)
            && (forall k, v :: (exists e :: e in live && e.key.user == k && e.value == v) <==> LookUp(m, k) == Some(v))
  {
    hide Read, Applied, Inv, Spec, LiveList, Merger.IsMerge, Capture, ViewPinned, ViewChildren, Shown;
    var s := states[t].lastSeq;
    HeldIsCovered(states, actions, t, i);
    IteratorSeesSnapshot(states, actions, i, j, s, merged);
    forall k ensures Read(Spec(states[i]), k, s) == LookUp(Applied(Shown(actions, t)), k) {
      SpecGrows(states, actions, t, i, k);
      ReadIsShown(states, actions, t, k);
    }
  }

  lemma HeldIsCovered(states: seq<State>, actions: seq<Action>, t: nat, i: nat)
    requires Run(states, actions) && t <= i <= |actions| && (t == i || t in Held(actions, i))
    ensures states[i].horizon <= states[t].lastSeq <= states[i].lastSeq
  {
    hide VersionOk, Next, ReadsOk;
    RunKeepsInv(states, actions, i);
    SnapshotsAreHeld(states, actions, i);
  }

  lemma SpecGrows(states: seq<State>, actions: seq<Action>, t: nat, i: nat, k: UserKey)
    requires Run(states, actions) && t <= i <= |actions|
    ensures var s := states[t].lastSeq; Read(Spec(states[i]), k, s) == Read(Spec(states[t]), k, s)
  {
    hide Read, Spec, Next;
    RunKeepsInv(states, actions, t);
    RunKeepsInv(states, actions, i);
    CountersOf(states[t]);
    HistoryOnlyGrows(states, actions, t, i);
    EarlierHistory(states[t], states[i], k, states[t].lastSeq);
  }
}
