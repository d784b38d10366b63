/** What clients may rely on, in every reachable state. */
module StoreTheorems {
  import opened Format
  import opened VersionedMap
  import opened Files
  import opened Versions
  import opened Manifest
  import opened VersionSteps
  import opened History
  import opened Store
  import opened StoreInvariant
  import opened ManifestTrace

  ghost function Spec(st: State): set<Entry> {
    Between(st.hist, 0, |st.hist|)
  }

  function MemOf(st: State): seq<Entry>
    requires st.logs != [] && MemLog(st) in st.mems
  {
    st.mems[MemLog(st)]
  }

  function ImmOf(st: State): Option<seq<Entry>>
    requires st.imm.Some? ==> st.imm.value in st.mems
  {
    if st.imm.Some? then Some(st.mems[st.imm.value]) else None
  }

  /** The sources a read goes through are in the right order, and hold logged operations only. */
  lemma SourcesAreOrdered(st: State)
    requires Inv(st)
    ensures SourcesDescend(MemOf(st), ImmOf(st), st.version)
    ensures Sources(MemOf(st), ImmOf(st), st.version) == Between(st.hist, st.flushed, st.inserted) + VersionContents(st.version)
    ensures Functional(Sources(MemOf(st), ImmOf(st), st.version))
  {
    var mem, imm, tables := Contents(MemOf(st)), ImmContents(ImmOf(st)), VersionContents(st.version);
    StretchOfImm(st);
    BetweenSplit(st.hist, st.flushed, st.memStart, st.inserted);
    BetweenSplit(st.hist, 0, st.flushed, st.memStart);
    BetweenSplit(st.hist, 0, st.memStart, st.inserted);
    LaterIsNewer(st.hist, 0, st.flushed, st.memStart, imm, tables);
    LaterIsNewer(st.hist, 0, st.memStart, st.inserted, mem, imm + tables);
    BetweenIs(st.hist, 0, st.inserted);
    FunctionalSubset(Sources(MemOf(st), ImmOf(st), st.version), Between(st.hist, 0, st.inserted));
  }

  lemma StretchOfImm(st: State)
    requires MemsOk(st) && st.flushed <= st.memStart <= |st.hist|
    ensures ImmContents(ImmOf(st)) == Between(st.hist, st.flushed, st.memStart)
  {
    BetweenEmpty(st.hist, st.flushed, st.memStart);
  }

  /** Between the horizon and the last published sequence number, the union of the sources reads like the
      whole history. */
  lemma SourcesReadLikeHistory(st: State, k: UserKey, s: nat)
    requires Inv(st) && st.horizon <= s <= st.lastSeq
    ensures Read(Sources(MemOf(st), ImmOf(st), st.version), k, s) == Read(Spec(st), k, s)
  {
    SourcesAreOrdered(st);
    ReadAbove(st.hist, st.flushed, st.inserted, VersionContents(st.version), k, s);
    ReadPrefix(st.hist, st.inserted, k, s);
  }

  /** `DBImpl::Get` in a reachable state: the newest logged operation at or below the read's sequence number
      decides, although the search stops at the first source that knows the key. */
  method GetFromStore(st: State, k: UserKey, snapshot: Option<nat>) returns (r: Option<Value>)
    requires Inv(st) && (snapshot.Some? ==> snapshot.value in st.snapshots)
    ensures r == Read(Spec(st), k, if snapshot.Some? then snapshot.value else st.lastSeq)
  {
    var s := st.lastSeq;
    if snapshot.Some? {
      s := snapshot.value;
    }
    SourcesAreOrdered(st);
    SourcesReadLikeHistory(st, k, s);
    r := Get(MemOf(st), ImmOf(st), st.version, k, s);
  }

  // ---------------------------------------------------------------------------------------------
  // Captured views

  /** What `Get` and `NewIterator` capture under the mutex; the memtables are shared and may still grow. */
  datatype View = View(seqno: nat, mem: nat, imm: Option<nat>, version: seq<seq<File>>)

  function Capture(st: State, s: nat): View
    requires st.logs != []
  {
    View(s, MemLog(st), st.imm, st.version)
  }

  ghost predicate ViewPinned(st: State, w: View) {
    && w.mem in st.mems && (w.imm.Some? ==> w.imm.value in st.mems)
  }

  ghost function ViewMem(st: State, w: View): seq<Entry>
    requires ViewPinned(st, w)
  {
    st.mems[w.mem]
  }

  ghost function ViewImm(st: State, w: View): Option<seq<Entry>>
    requires ViewPinned(st, w)
  {
    if w.imm.Some? then Some(st.mems[w.imm.value]) else None
  }

  ghost function ViewSources(st: State, w: View): set<Entry>
    requires ViewPinned(st, w)
  {
    Sources(ViewMem(st, w), ViewImm(st, w), w.version)
  }

  ghost predicate ViewOk(st: State, w: View) {
    && ViewPinned(st, w)
    && st.logs != [] && w.mem <= MemLog(st) && (w.imm.Some? ==> w.imm.value < w.mem)
    && w.seqno <= st.lastSeq && st.inserted <= |st.hist|
    && SourcesDescend(ViewMem(st, w), ViewImm(st, w), w.version)
    && ViewSources(st, w) <= Between(st.hist, 0, st.inserted)
  }

  lemma CaptureOk(st: State, s: nat)
    requires Inv(st) && st.horizon <= s <= st.lastSeq
    ensures ViewOk(st, Capture(st, s))
    ensures forall k :: Read(ViewSources(st, Capture(st, s)), k, s) == Read(Spec(st), k, s)
  {
    SourcesAreOrdered(st);
    BetweenSplit(st.hist, 0, st.flushed, st.inserted);
    forall k ensures Read(ViewSources(st, Capture(st, s)), k, s) == Read(Spec(st), k, s) {
      SourcesReadLikeHistory(st, k, s);
    }
  }

  /** How the process changes what readers share: histories and counters grow, memtables stay. */
  ghost predicate Extends(st: State, st': State) {
    && (forall id :: id in st.mems ==> id in st'.mems && st'.mems[id] == st.mems[id])
    && st.logs != [] && st'.logs != [] && MemLog(st) <= MemLog(st')
    && st.hist <= st'.hist && st.lastSeq <= st'.lastSeq && st.inserted <= st'.inserted <= |st'.hist|
  }

  lemma OnlyInsertTouchesMemtables(st: State, a: Action, st': State)
    requires Inv(st) && Next(st, a, st') && !a.CrashAndRecover? && !a.Insert?
    ensures Extends(st, st')
  {
    hide VersionOk, Listed, ReadsOk;
    assert st.nextFile !in st.mems;
  }

  lemma ViewUnder(st: State, st': State, w: View)
    requires ViewOk(st, w) && Extends(st, st')
    ensures ViewOk(st', w) && ViewSources(st', w) == ViewSources(st, w)
  {
    assert st'.hist == st.hist + st'.hist[|st.hist|..];
    BetweenPrefix(st.hist, st'.hist[|st.hist|..], 0, st.inserted);
    BetweenSplit(st'.hist, 0, st.inserted, st'.inserted);
  }

  /** The entry that enters the memtable is newer than everything a view holds, and later than it asks for. */
  lemma EntryArrives(st: State, w: View)
    requires HistOk(st.hist) && st.lastSeq <= st.inserted < |st.hist| && ViewOk(st, w)
    ensures var e := st.hist[st.inserted];
            Newer({e}, ImmContents(ViewImm(st, w)) + VersionContents(w.version)) && e.key.seqno > w.seqno
  {
    var e := st.hist[st.inserted];
    assert e in Between(st.hist, st.inserted, st.inserted + 1);
    LaterIsNewer(st.hist, 0, st.inserted, st.inserted + 1, {e}, ImmContents(ViewImm(st, w)) + VersionContents(w.version));
  }

  lemma ViewGrows(st: State, st': State, w: View)
    requires Inv(st) && InsertStep(st, st') && ViewOk(st, w)
    ensures ViewOk(st', w)
    ensures ViewSources(st, w) <= ViewSources(st', w) <= ViewSources(st, w) + {st.hist[st.inserted]}
  {
    hide VersionOk, Listed, ReadsOk;
    var e := st.hist[st.inserted];
    EntryArrives(st, w);
    BetweenSplit(st.hist, 0, st.inserted, st.inserted + 1);
    assert Between(st.hist, st.inserted, st.inserted + 1) == {e};
    assert ViewImm(st', w) == ViewImm(st, w);
    if w.mem == MemLog(st) {
      InsertNext(st.hist, st.memStart, st.inserted, st.mems[MemLog(st)]);
      BetweenSplit(st.hist, st.memStart, st.inserted, st.inserted + 1);
      assert Contents(ViewMem(st', w)) == Contents(ViewMem(st, w)) + {e};
      NewerGrows(ViewMem(st, w), ViewMem(st', w), e, ImmContents(ViewImm(st, w)) + VersionContents(w.version));
    } else {
      assert ViewMem(st', w) == ViewMem(st, w);
    }
  }

  lemma NewerGrows(mem: seq<Entry>, mem': seq<Entry>, e: Entry, lower: set<Entry>)
    requires Contents(mem') == Contents(mem) + {e} && Newer(Contents(mem), lower) && Newer({e}, lower)
    ensures Newer(Contents(mem'), lower)
  {}

  lemma LaterEntryUnseen(S: set<Entry>, S': set<Entry>, hist: seq<Entry>, n: nat, s: nat)
    requires HistOk(hist) && n < |hist| && hist[n].key.seqno > s
    requires S <= S' <= S + {hist[n]} && S' <= Between(hist, 0, n + 1)
    ensures forall k :: Read(S', k, s) == Read(S, k, s)
  {
    BetweenIs(hist, 0, n + 1);
    FunctionalSubset(S', Between(hist, 0, n + 1));
    forall k ensures Read(S', k, s) == Read(S, k, s) {
      NewestOfSuperset(S, S', k, s);
    }
  }

  /** Whatever happens next, short of the process ending, a captured view keeps giving the same answers. */
  lemma ViewSurvives(st: State, a: Action, st': State, w: View)
    requires Inv(st) && Next(st, a, st') && !a.CrashAndRecover? && ViewOk(st, w)
    ensures ViewOk(st', w)
    ensures forall k :: Read(ViewSources(st', w), k, w.seqno) == Read(ViewSources(st, w), k, w.seqno)
  {
    hide VersionOk, Listed, ReadsOk, SourcesDescend;
    if a.Insert? {
      ViewGrows(st, st', w);
      EntryArrives(st, w);
      LaterEntryUnseen(ViewSources(st, w), ViewSources(st', w), st.hist, st.inserted, w.seqno);
    } else {
      OnlyInsertTouchesMemtables(st, a, st');
      ViewUnder(st, st', w);
    }
  }

  ghost predicate NoCrash(actions: seq<Action>, i: nat, j: nat) {
    forall n :: i <= n < j && n < |actions| ==> !actions[n].CrashAndRecover?
  }

  /** Snapshot isolation: a view captured at step `i` of any run, read at any later step `j` before a crash,
      still answers every key from the history as it stood at step `i`. */
  lemma {:induction false} CapturedViewIsStable(states: seq<State>, actions: seq<Action>, i: nat, j: nat, s: nat)
    requires Run(states, actions) && i <= j <= |actions| && NoCrash(actions, i, j)
    requires states[i].logs != [] && states[i].horizon <= s <= states[i].lastSeq
    ensures var w := Capture(states[i], s);
            ViewOk(states[j], w) && forall k :: Read(ViewSources(states[j], w), k, s) == Read(Spec(states[i]), k, s)
  {
    hide Inv, ViewOk;
    RunKeepsInv(states, actions, i);
    if i == j {
      CaptureOk(states[i], s);
    } else {
      CapturedViewIsStable(states, actions, i, j - 1, s);
      RunKeepsInv(states, actions, j - 1);
      assert Next(states[j - 1], actions[j - 1], states[j]);
      ViewSurvives(states[j - 1], actions[j - 1], states[j], Capture(states[i], s));
    }
  }

  /** A reader that holds a view uses it with the same search, however many steps later. */
  method GetFromView(st: State, w: View, k: UserKey) returns (r: Option<Value>)
    requires Inv(st) && ViewOk(st, w)
    ensures r == Read(ViewSources(st, w), k, w.seqno)
  {
    BetweenIs(st.hist, 0, st.inserted);
    FunctionalSubset(ViewSources(st, w), Between(st.hist, 0, st.inserted));
    var imm := None;
    if w.imm.Some? {
      imm := Some(st.mems[w.imm.value]);
    }
    r := Get(st.mems[w.mem], imm, w.version, k, w.seqno);
  }

  // ---------------------------------------------------------------------------------------------
  // Crash safety

  /** A crash at any step of any run, followed by recovery from nothing but the log files and what the records
      of the manifest say: the history is intact up to the last complete record, every acknowledged operation
      is in it, reads at the recovered sequence number are answered from it, and no surviving entry is
      numbered above that. */
  lemma RecoveryIsComplete(states: seq<State>, actions: seq<Action>, n: nat)
    requires Run(states, actions) && n < |actions| && actions[n].CrashAndRecover?
    ensures TraceOf(states, actions, n).versions != []
    ensures var before, after, records := states[n], states[n + 1], Records(TraceOf(states, actions, n));
            && Recoverable(records)
            && (forall r :: RecoversTo(records, r) ==> CrashStep(Reopened(before, r), actions[n].sizes, after))
            && Inv(after)
            && after.hist == before.hist && before.acked <= |after.hist| && after.lastSeq == |after.hist|
            && (forall e :: e in VersionContents(after.version) ==> e.key.seqno <= after.lastSeq)
            && (forall k :: Read(Sources(MemOf(after), ImmOf(after), after.version), k, after.lastSeq) == Read(Spec(before), k, |before.hist|))
  {
    hide VersionOk, Listed, TraceOf, RecoversTo, Recoverable, Records, RecoverLogs, LogTail;
    var before, after := states[n], states[n + 1];
    RunKeepsInv(states, actions, n);
    ManifestIsExact(states, actions, n);
    assert Reopened(before, Durable(before)) == before;
    assert Next(before, actions[n], after);
    NextKeeps(before, actions[n], after);
    RecoveredSequenceIs(before);
    CrashCases(before, actions[n].sizes, after);
    BetweenIs(after.hist, 0, after.flushed);
    forall k ensures Read(Sources(MemOf(after), ImmOf(after), after.version), k, after.lastSeq) == Read(Spec(before), k, |before.hist|) {
      SourcesReadLikeHistory(after, k, after.lastSeq);
    }
  }

  /** Acknowledged operations never disappear: the history only ever grows along a run. */
  lemma {:induction false} HistoryOnlyGrows(states: seq<State>, actions: seq<Action>, i: nat, j: nat)
    requires Run(states, actions) && i <= j <= |actions|
    ensures states[i].hist <= states[j].hist && states[i].acked <= states[j].acked <= |states[j].hist|
  {
    hide VersionOk, Listed, ReadsOk, MemsOk, LogsOk, FileNumbersOk, BackgroundOk, SnapshotsOk, HistOk, Next;
    RunKeepsInv(states, actions, j);
    if i < j {
      HistoryOnlyGrows(states, actions, i, j - 1);
      HistoryStep(states[j - 1], actions[j - 1], states[j]);
    }
  }

  lemma HistoryStep(st: State, a: Action, st': State)
    requires Next(st, a, st') && st.acked <= |st.hist|
    ensures st.hist <= st'.hist && st.acked <= st'.acked
  {}

  /** Reading the latest state of a key anywhere in a run gives its latest acknowledged-or-logged operation
      numbered at most `lastSeq`, and what is acknowledged is always visible. */
  lemma LatestReadSeesAcknowledged(states: seq<State>, actions: seq<Action>, n: nat, k: UserKey)
    requires Run(states, actions) && n <= |actions|
    ensures var st := states[n];
            && Inv(st) && st.acked <= st.lastSeq
            && Read(Sources(MemOf(st), ImmOf(st), st.version), k, st.lastSeq) == Read(Spec(st), k, st.lastSeq)
  {
    RunKeepsInv(states, actions, n);
    SourcesReadLikeHistory(states[n], k, states[n].lastSeq);
  }
}
