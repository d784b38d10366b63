/** What an iterator of the store delivers. */
module Iteration {
  import opened Format
  import opened VersionedMap
  import opened Versions
  import opened History
  import opened VersionSteps
  import opened Store
  import opened StoreInvariant
  import opened StoreTheorems
  import opened Cursors
  import opened DbIter
  import opened IteratorChildren
  import Merger

  /** The lists an iterator made for a view merges. */
  ghost function ViewChildren(st: State, w: View): seq<seq<Entry>>
    requires ViewPinned(st, w) && |w.version| == NUM_LEVELS
  {
    Children(ViewMem(st, w), ViewImm(st, w), w.version)
  }

  /** An iterator made at step `i` and used at a later step `j` walks the map of step `i`: over the merge of its
      children, the entries it stops at are exactly the live keys of the history at the read's sequence
      number, in order, whatever was written, flushed or compacted in between. */
  lemma IteratorSeesSnapshot(states: seq<State>, actions: seq<Action>, i: nat, j: nat, s: nat, merged: seq<Entry>)
    requires Run(states, actions) && i <= j <= |actions| && NoCrash(actions, i, j)
    requires states[i].logs != [] && states[i].horizon <= s <= states[i].lastSeq
    requires var w := Capture(states[i], s);
             ViewPinned(states[j], w) && |w.version| == NUM_LEVELS && Merger.IsMerge(ViewChildren(states[j], w), merged)
    ensures forall p, q :: 0 <= p < q < |LiveList(merged, s)| ==>
              LiveList(merged, s)[p].key.user < LiveList(merged, s)[q].key.user
    ensures forall k, v :: (exists e :: e in LiveList(merged, s) && e.key.user == k && e.value == v) <==>
              Read(Spec(states[i]), k, s) == Some(v)
  {
    hide LiveList, Spec, Merger.IsMerge, Children, Sorted, SourcesDescend, Inv, Next;
    var st, w := states[j], Capture(states[i], s);
    CapturedViewIsStable(states, actions, i, j, s);
    ViewIsFunctional(states, actions, j, w);
    ChildrenMerge(ViewMem(st, w), ViewImm(st, w), w.version, merged);
    LiveIsTheMap(merged, s);
    forall k, v
      ensures (exists e :: e in LiveList(merged, s) && e.key.user == k && e.value == v) <==> Read(Spec(states[i]), k, s) == Some(v)
    {
      assert Read(Contents(merged), k, s) == Read(ViewSources(st, w), k, s) == Read(Spec(states[i]), k, s);
    }
  }

  /** At every step there is such a merge: the children of the view are sorted, and no two of them hold one
      internal key. */
  lemma ViewMerges(states: seq<State>, actions: seq<Action>, i: nat, j: nat, s: nat) returns (merged: seq<Entry>)
    requires Run(states, actions) && i <= j <= |actions| && NoCrash(actions, i, j)
    requires states[i].logs != [] && states[i].horizon <= s <= states[i].lastSeq
    ensures var w := Capture(states[i], s);
            ViewPinned(states[j], w) && |w.version| == NUM_LEVELS && Merger.IsMerge(ViewChildren(states[j], w), merged)
  {
    hide Merger.IsMerge, Children, Sorted, SourcesDescend, Inv, Next, Spec;
    var st, w := states[j], Capture(states[i], s);
    CapturedViewIsStable(states, actions, i, j, s);
    OwnTrailers(states, actions, j, w);
    merged := SortedListing(ViewSources(st, w));
    ChildrenMerge(ViewMem(st, w), ViewImm(st, w), w.version, merged);
  }

  lemma OwnTrailers(states: seq<State>, actions: seq<Action>, j: nat, w: View)
    requires Run(states, actions) && j <= |actions| && ViewOk(states[j], w)
    ensures var S := ViewSources(states[j], w);
            forall x, y :: x in S && y in S && Tag(x.key) == Tag(y.key) ==> x == y
  {
    hide Next, SourcesDescend, ViewSources;
    RunKeepsInv(states, actions, j);
    var S := ViewSources(states[j], w);
    BetweenIs(states[j].hist, 0, states[j].inserted);
    forall x, y | x in S && y in S && Tag(x.key) == Tag(y.key) ensures x == y {
      assert x.key.seqno == y.key.seqno;
    }
  }

  /** What a step adds to the sources of a view: nothing, or the operation that enters the memtable it holds. */
  ghost function Arriving(st: State, a: Action, w: View): Option<Entry> {
    if a.Insert? && st.logs != [] && w.mem == MemLog(st) && st.inserted < |st.hist| then Some(st.hist[st.inserted]) else None
  }

  lemma SourcesAfterStep(st: State, a: Action, st': State, w: View)
    requires Inv(st) && Next(st, a, st') && !a.CrashAndRecover? && ViewOk(st, w)
    ensures ViewOk(st', w)
    ensures match Arriving(st, a, w)
            case None => ViewSources(st', w) == ViewSources(st, w)
            case Some(e) => && ViewSources(st', w) == ViewSources(st, w) + {e} && e.key.seqno > w.seqno
                            && forall x :: x in ViewSources(st, w) ==> Tag(x.key) != Tag(e.key)
  {
    hide VersionOk, Listed, ReadsOk, SourcesDescend, LogTail;
    if a.Insert? {
      ViewGrows(st, st', w);
      EntryArrives(st, w);
      ArrivesInMemtable(st, st', w);
    } else {
      OnlyInsertTouchesMemtables(st, a, st');
      ViewUnder(st, st', w);
    }
  }

  lemma ArrivesInMemtable(st: State, st': State, w: View)
    requires Inv(st) && InsertStep(st, st') && ViewOk(st, w) && ViewOk(st', w)
    requires ViewSources(st, w) <= ViewSources(st', w) <= ViewSources(st, w) + {st.hist[st.inserted]}
    ensures w.mem == MemLog(st) ==> st.hist[st.inserted] in ViewSources(st', w)
    ensures w.mem != MemLog(st) ==> ViewSources(st', w) == ViewSources(st, w)
    ensures forall x :: x in ViewSources(st, w) ==> Tag(x.key) != Tag(st.hist[st.inserted].key)
  {
    hide Listed, ReadsOk, SourcesDescend, LogsOk, InsertEntry, HistOk, VersionContents;
    NewTrailer(st.hist, st.inserted, ViewSources(st, w));
    if w.mem == MemLog(st) {
      InsertNext(st.hist, st.memStart, st.inserted, st.mems[MemLog(st)]);
      assert st.hist[st.inserted] in Between(st.hist, st.memStart, st.inserted + 1);
    } else {
      assert ViewMem(st', w) == ViewMem(st, w) && ViewImm(st', w) == ViewImm(st, w);
    }
  }

  lemma NewTrailer(hist: seq<Entry>, n: nat, S: set<Entry>)
    requires HistOk(hist) && n < |hist| && S <= Between(hist, 0, n)
    ensures forall x :: x in S ==> Tag(x.key) != Tag(hist[n].key)
  {
    BetweenIs(hist, 0, n);
  }

  /** A step of the store between two calls of an iterator: if the list it walks was the merge of its children,
      it is so again once the arriving entry has joined it, and neither the live keys nor the iterator's
      place among them change. */
  method AfterStep(db: DBIter, arriving: Option<Entry>, ghost st: State, ghost a: Action, ghost st': State, ghost w: View)
    requires Inv(st) && Next(st, a, st') && !a.CrashAndRecover? && ViewOk(st, w) && arriving == Arriving(st, a, w)
    requires db.Inv() && db.sequence == w.seqno && |w.version| == NUM_LEVELS
    requires Merger.IsMerge(ViewChildren(st, w), db.iter.items)
    modifies db.iter, db`at
    ensures db.Inv() && ViewOk(st', w) && Merger.IsMerge(ViewChildren(st', w), db.iter.items)
    ensures LiveList(db.iter.items, w.seqno) == old(LiveList(db.iter.items, w.seqno)) && db.Pos() == old(db.Pos())
  {
    hide Inv, Next, Merger.IsMerge, Children, Sorted, SourcesDescend, LiveList, Rank, IsLive, Behind, Inserted;
    SourcesAfterStep(st, a, st', w);
    ChildrenMerge(ViewMem(st, w), ViewImm(st, w), w.version, db.iter.items);
    if arriving.Some? {
      assert forall x :: x in db.iter.items ==> x in Contents(db.iter.items);
      InsertedSorted(db.iter.items, arriving.value);
      db.MemtableGrows(arriving.value);
    }
    ChildrenMerge(ViewMem(st', w), ViewImm(st', w), w.version, db.iter.items);
  }

  lemma ViewIsFunctional(states: seq<State>, actions: seq<Action>, j: nat, w: View)
    requires Run(states, actions) && j <= |actions| && ViewOk(states[j], w)
    ensures Functional(ViewSources(states[j], w))
  {
    RunKeepsInv(states, actions, j);
    BetweenIs(states[j].hist, 0, states[j].inserted);
    FunctionalSubset(ViewSources(states[j], w), Between(states[j].hist, 0, states[j].inserted));
  }
}
