/** What a store is after a compaction that stopped at shutdown, which is always followed by a restart. */
module StoppedRestart {
  import opened Format
  import opened VersionedMap
  import opened Files
  import opened Selection
  import opened Versions
  import opened CompactionPass
  import opened Manifest
  import opened VersionSteps
  import opened History
  import opened Store
  import opened StoreInvariant
  import opened ManifestTrace
  import opened StoreTheorems
  import opened Coding
  import opened ManifestRecords
  import opened CompactionFailures
  import Codec = VersionEdit

  /** What a restart has to go by: the operations in the logs and the entries of the tables. */
  ghost function Known(st: State): set<Entry>
    requires st.flushed <= |st.hist|
  {
    Between(st.hist, st.flushed, |st.hist|) + VersionContents(st.version)
  }

  /** Whatever the tables hold, a restart reads the logged operations on top of them. */
  lemma RestartReads(st: State, sizes: seq<nat>, st': State)
    requires HistOk(st.hist) && CountersOk(st) && LogsOk(st) && Listed(st.version) && CrashStep(st, sizes, st')
    ensures st'.lastSeq == |st.hist| && st'.logs != [] && MemLog(st') in st'.mems && st'.imm == None
    ensures Sources(MemOf(st'), ImmOf(st'), st'.version) == Known(st)
  {
    hide HistOk, CountersOk, LogsOk, Listed, RecoverLogs, FilesOk, NumbersDescend, VersionAfter, VersionContents, LevelContents;
    RecoveredSequenceIs(st);
    RecoveredFrom(st, sizes);
    CrashCases(st, sizes, st');
    var (files, next) := RecoverLogs(st.logs, st.logNumber, sizes, st.manifestNext + 1);
    if files == [] {
      NoContents();
    } else {
      AddedContents(st.version, next, next + 1, |st.hist|, files, st'.version);
    }
  }

  lemma NoContents()
    ensures LevelContents([]) == {}
  {
  }

  lemma AddedContents(v: seq<seq<File>>, log: nat, next: nat, last: nat, files: seq<File>, v': seq<seq<File>>)
    requires Listed(v) && VersionAfter(v, AddEdit(log, next, last, 0, files), v')
    ensures VersionContents(v') == VersionContents(v) + LevelContents(files)
  {
    hide LevelAfter;
    AddEditShape(v, AddEdit(log, next, last, 0, files), log, next, last, 0, files, v');
    FilesIn(v'[0], Members(v[0]) + Members(files));
    assert LevelContents(v'[0]) == LevelContents(v[0]) + LevelContents(files);
    forall e ensures e in VersionContents(v') <==> e in VersionContents(v) + LevelContents(files) {
      ContentsByLevel(v, v', LevelContents(files), 0, e);
    }
  }

  /** The edit of a pass that stopped after `n` entries is installed. */
  ghost predicate StopsAfter(st: State, input: seq<Entry>, n: nat, size: nat, v': seq<seq<File>>) {
    && st.bg.Compacting? && Sorted(input) && n <= |input|
    && Contents(input) == LevelContents(st.bg.in0) + LevelContents(st.bg.in1)
    && VersionAfter(st.version, StoppedEdit(st, input, n, size), v')
  }

  /** Each entry not reached that is the newest of its user key is repeated by the tables that stay. */
  ghost predicate LosesNothing(st: State, input: seq<Entry>, n: nat)
    requires st.bg.Compacting? && st.flushed <= |st.hist|
  {
    forall i :: n <= i < |input| && IsNewest(Known(st), input[i].key.user, |st.hist|, input[i]) ==>
      Below(Rest(st.version, st.bg.level, st.bg.in0, st.bg.in1), input[i]) == Live(input[i])
  }

  /** The restarted store answers like the history if and only if no newest entry is lost. */
  lemma RestartedReadsExact(st: State, input: seq<Entry>, n: nat, size: nat, v': seq<seq<File>>, sizes: seq<nat>, st': State)
    requires Inv(st) && StopsAfter(st, input, n, size, v') && CrashStep(Installed(st, v'), sizes, st')
    ensures st'.lastSeq == |st.hist| && st'.logs != [] && MemLog(st') in st'.mems && st'.imm == None
    ensures (forall k :: Read(Sources(MemOf(st'), ImmOf(st'), st'.version), k, st'.lastSeq) == Read(Spec(st), k, |st.hist|))
            <==> LosesNothing(st, input, n)
  {
    hide Inv, Listed, VersionAfter, VersionContents, LevelContents, Rest, Sorted, Survivors,
         CrashStep, Read, IsNewest, Below, TombstonesSafe, Functional;
    var c, v := st.bg, st.version;
    StoppedIsListed(st, input, n, size, v');
    var newer, rest := Between(st.hist, st.flushed, |st.hist|), Rest(v, c.level, c.in0, c.in1);
    StoppedParts(st, input, n, size, v');
    RestartReads(Installed(st, v'), sizes, st');
    AllFunctional(st, input, rest);
    AboveIsSafe(st, input, rest);
    var out := Contents(Survivors(v, c.level, input[..n], c.snapshot));
    assert newer + (rest + out) == newer + rest + out && newer + (rest + Contents(input)) == newer + rest + Contents(input);
    EarlyStopAt(v, c.level, newer + rest, input, c.snapshot, n, |st.hist|);
    forall i | n <= i < |input| ensures Below(newer + rest, input[i]) == Below(rest, input[i]) {
      assert input[i] in Contents(input);
      BelowTables(st, rest, input[i]);
    }
    forall k ensures Read(Known(st), k, |st.hist|) == Read(Spec(st), k, |st.hist|) {
      KnownReads(st, k);
    }
  }

  lemma StoppedIsListed(st: State, input: seq<Entry>, n: nat, size: nat, v': seq<seq<File>>)
    requires Inv(st) && StopsAfter(st, input, n, size, v')
    ensures Listed(v') && HistOk(st.hist) && CountersOk(Installed(st, v')) && LogsOk(Installed(st, v'))
    ensures st.flushed <= |st.hist| && st.bg.snapshot <= |st.hist|
  {
    hide VersionOk, Listed, ReadsOk, MemsOk, Survivors, VersionAfter, Sorted, LogTail;
    var c := st.bg;
    var out := File(c.number, size, Survivors(st.version, c.level, input[..n], c.snapshot));
    NumbersUnused(st, c.number);
    ReplaceEditShape(st.version, StoppedEdit(st, input, n, size), st.logNumber, st.nextFile, st.lastSeq, c.level, c.in0, c.in1, out, v');
  }

  lemma AllFunctional(st: State, input: seq<Entry>, rest: set<Entry>)
    requires Inv(st) && VersionContents(st.version) == rest + Contents(input)
    ensures Functional(Between(st.hist, st.flushed, |st.hist|) + rest + Contents(input))
  {
    BetweenIs(st.hist, 0, |st.hist|);
    BetweenSplit(st.hist, 0, st.flushed, |st.hist|);
    FunctionalSubset(Between(st.hist, st.flushed, |st.hist|) + rest + Contents(input), Between(st.hist, 0, |st.hist|));
  }

  lemma AboveIsSafe(st: State, input: seq<Entry>, rest: set<Entry>)
    requires Inv(st) && st.bg.Compacting? && VersionContents(st.version) == rest + Contents(input)
    requires TombstonesSafe(st.version, st.bg.level, rest, input)
    ensures TombstonesSafe(st.version, st.bg.level, Between(st.hist, st.flushed, |st.hist|) + rest, input)
  {
    var newer := Between(st.hist, st.flushed, |st.hist|);
    LaterIsNewer(st.hist, 0, st.flushed, |st.hist|, newer, VersionContents(st.version));
    assert forall e :: e in input ==> e in Contents(input);
  }

  /** What is in the logs is above every entry of a table. */
  lemma BelowTables(st: State, rest: set<Entry>, e: Entry)
    requires Inv(st) && rest <= VersionContents(st.version) && e in VersionContents(st.version)
    ensures Below(Between(st.hist, st.flushed, |st.hist|) + rest, e) == Below(rest, e)
  {
    var newer := Between(st.hist, st.flushed, |st.hist|);
    BetweenIs(st.hist, 0, st.flushed);
    BetweenIs(st.hist, st.flushed, |st.hist|);
    BetweenIs(st.hist, 0, |st.hist|);
    BetweenSplit(st.hist, 0, st.flushed, |st.hist|);
    FunctionalSubset(newer + rest, Between(st.hist, 0, |st.hist|));
    NewestOfSuperset(rest, newer + rest, e.key.user, e.key.seqno);
  }

  lemma KnownReads(st: State, k: UserKey)
    requires Inv(st)
    ensures Read(Known(st), k, |st.hist|) == Read(Spec(st), k, |st.hist|)
  {
    hide VersionOk, Listed, MemsOk, LogsOk;
    ReadAbove(st.hist, st.flushed, |st.hist|, VersionContents(st.version), k, |st.hist|);
  }

  /** Apart from its readability, the edit takes its place in the manifest like any other. */
  lemma StoppedTrace(t: Trace, st: State, input: seq<Entry>, n: nat, size: nat, v': seq<seq<File>>)
    requires TraceOk(t, st) && Inv(st) && StopsAfter(st, input, n, size, v')
    ensures TraceOk(Logged(t, st.version, StoppedEdit(st, input, n, size), v'), Installed(st, v'))
  {
    hide TraceOk, VersionOk, Listed, ReadsOk, MemsOk, LogsOk, HistOk, VersionAfter, Survivors, Sorted;
    var c := st.bg;
    var out := File(c.number, size, Survivors(st.version, c.level, input[..n], c.snapshot));
    StoppedIsListed(st, input, n, size, v');
    NumbersUnused(st, c.number);
    ReplaceJoins(st.version, st.logNumber, st.nextFile, st.lastSeq, c.level, c.in0, c.in1, out, v');
    LoggedOk(t, st, StoppedEdit(st, input, n, size), c.level + 1, [out], Installed(st, v'));
  }

  /** What the manifest says after the edit, if it can be read, is where the restart begins. */
  lemma StoppedManifest(t: Trace, st: State, input: seq<Entry>, n: nat, size: nat, v': seq<seq<File>>)
    requires TraceOk(t, st) && Inv(st) && StopsAfter(st, input, n, size, v')
    ensures forall r :: RecoversTo(Records(Logged(t, st.version, StoppedEdit(st, input, n, size), v')), r)
                        <==> r == Durable(Installed(st, v'))
  {
    hide TraceOk, Inv, VersionAfter, Sorted, RecoversTo, Records;
    StoppedTrace(t, st, input, n, size, v');
    RecordsRecover(Logged(t, st.version, StoppedEdit(st, input, n, size), v'), Installed(st, v'));
  }

  // ---------------------------------------------------------------------------------------------
  // Opening the manifest

  lemma VersionKeyed(v: seq<seq<File>>)
    requires VersionOk(v)
    ensures Keyed(SnapshotEdit(v))
  {
    var e := SnapshotEdit(v);
    forall i | 0 <= i < |e.added| ensures e.added[i].1.entries != [] {
      assert e.added[i] in e.added;
    }
  }

  /** What an install adds is in the version it makes. */
  lemma InstallKeyed(v: seq<seq<File>>, e: Edit, v': seq<seq<File>>)
    requires VersionAfter(v, e, v') && VersionOk(v') && EditOk(e)
    ensures Keyed(e)
  {
    forall i | 0 <= i < |e.added| ensures e.added[i].1.entries != [] {
      var l, f := e.added[i].0, e.added[i].1;
      assert e.added[i] in e.added && f in AddedAt(e, l) && f.number in Numbers(AddedAt(e, l));
      assert LevelAfter(v[l], e, l, v'[l]);
      assert f in Members(v'[l]);
    }
  }

  ghost predicate AllVersionsOk(t: Trace) {
    forall i :: 0 <= i < |t.versions| ==> VersionOk(t.versions[i])
  }

  lemma RecordsKeyed(t: Trace)
    requires Installs(t.versions, t.edits) && AllVersionsOk(t) && forall i :: 0 <= i < |t.edits| ==> EditOk(t.edits[i])
    ensures AllKeyed(Records(t))
  {
    hide VersionOk, VersionAfter, Keyed, EditOk;
    VersionKeyed(t.versions[0]);
    forall i | 0 <= i < |t.edits| ensures Keyed(t.edits[i]) {
      InstallKeyed(t.versions[i], t.edits[i], t.versions[i + 1]);
    }
  }

  lemma TracedVersions(t: Trace, st: State, a: Action, st': State)
    requires AllVersionsOk(t) && VersionOk(st.version) && VersionOk(st'.version)
    ensures AllVersionsOk(Traced(t, st, a, st'))
  {
    hide VersionOk, Survivors, RecoverLogs, RecoveredSequence, AddEdit, ReplaceEdit;
  }

  lemma {:induction false} RunVersionsOk(states: seq<State>, actions: seq<Action>, n: nat)
    requires Run(states, actions) && n <= |actions|
    ensures AllVersionsOk(TraceOf(states, actions, n))
  {
    hide VersionOk, AllVersionsOk, Traced, Next, Init;
    if n == 0 {
      CreatedVersionsOk();
    } else {
      RunVersionsOk(states, actions, n - 1);
      RunVersionOk(states, actions, n - 1);
      RunVersionOk(states, actions, n);
      TracedVersions(TraceOf(states, actions, n - 1), states[n - 1], actions[n - 1], states[n]);
    }
  }

  lemma CreatedVersionsOk()
    ensures AllVersionsOk(Created())
  {
    hide VersionOk, EmptyVersion;
    EmptyVersionOk();
  }

  lemma RunVersionOk(states: seq<State>, actions: seq<Action>, n: nat)
    requires Run(states, actions) && n <= |actions|
    ensures VersionOk(states[n].version)
  {
    hide VersionOk, Next, Init;
    RunKeepsInv(states, actions, n);
  }

  /** At every moment of every run the manifest can be opened, whatever the encoding of keys. */
  lemma RunManifestOpens(states: seq<State>, actions: seq<Action>, n: nat, rs: seq<Codec.Edit>, bytes: IKey -> Bytes)
    requires Run(states, actions) && n <= |actions| && forall k :: bytes(k) != []
    requires var t := TraceOf(states, actions, n); t.versions != [] && EncodesAll(rs, Records(t), bytes)
    ensures Opens(rs)
  {
    hide Next, Init, TraceOf, EncodesAll, Opens, AllKeyed, RecoversTo, Recoverable;
    var t := TraceOf(states, actions, n);
    RunIsTraced(states, actions, n);
    RunVersionsOk(states, actions, n);
    RecordsKeyed(t);
    RecordsRecover(t, states[n]);
    ManifestOpens(rs, Records(t), bytes);
  }

  // ---------------------------------------------------------------------------------------------
  // Both at once

  /** The records after a stopped compaction: those before it can be read, so its own decides. */
  lemma StoppedManifestOpens(t: Trace, st: State, input: seq<Entry>, n: nat, size: nat, v': seq<seq<File>>,
                             rs: seq<Codec.Edit>, bytes: IKey -> Bytes)
    requires TraceOk(t, st) && AllVersionsOk(t) && Inv(st) && StopsAfter(st, input, n, size, v') && forall k :: bytes(k) != []
    requires EncodesAll(rs, Records(Logged(t, st.version, StoppedEdit(st, input, n, size), v')), bytes)
    ensures Opens(rs) <==> ReachesSurvivor(st.version, st.bg.level, input, st.bg.snapshot, n)
  {
    hide Inv, EncodesAll, Sorted, LevelContents, VersionAfter, ReachesSurvivor, Keyed, AllKeyed, EditOk, Survivors, TraceOk, AllVersionsOk,
         Records, Opens;
    var e := StoppedEdit(st, input, n, size);
    var es := Records(Logged(t, st.version, e, v'));
    StoppedTrace(t, st, input, n, size, v');
    TraceEditsOk(Logged(t, st.version, e, v'), Installed(st, v'));
    ManifestOpens(rs, es, bytes);
    var before := KeyedBefore(t, st, e, v');
    PrefixSurvives(st.version, st.bg.level, input, st.bg.snapshot, n);
    assert Keyed(e) <==> Survivors(st.version, st.bg.level, input[..n], st.bg.snapshot) != [] by { OneOutput(st, input, n, size); }
    LastDecides(before, e);
  }

  /** The records a further edit comes after, in the open manifest or in a new one. */
  lemma KeyedBefore(t: Trace, st: State, e: Edit, v': seq<seq<File>>) returns (before: seq<Edit>)
    requires TraceOk(t, st) && AllVersionsOk(t)
    ensures Records(Logged(t, st.version, e, v')) == before + [e] && AllKeyed(before)
  {
    hide Keyed, Tracks, BuiltFrom, VersionOk, EditOk;
    RecordsKeyed(t);
    assert VersionOk(st.version) by { assert t.versions[|t.edits|] == st.version; }
    VersionKeyed(st.version);
    before := if t.open then Records(t) else [SnapshotEdit(st.version)];
    assert Records(Logged(t, st.version, e, v')) == before + [e];
  }

  lemma OneOutput(st: State, input: seq<Entry>, n: nat, size: nat)
    requires st.bg.Compacting? && n <= |input|
    ensures Keyed(StoppedEdit(st, input, n, size)) <==> Survivors(st.version, st.bg.level, input[..n], st.bg.snapshot) != []
  {
    hide Survivors;
    var e := StoppedEdit(st, input, n, size);
    assert |e.added| == 1 && e.added[0].1.entries == Survivors(st.version, st.bg.level, input[..n], st.bg.snapshot);
  }

  lemma LastDecides(before: seq<Edit>, e: Edit)
    requires AllKeyed(before)
    ensures AllKeyed(before + [e]) <==> Keyed(e)
  {
    hide Keyed;
    assert (before + [e])[|before|] == e;
  }

  lemma TraceEditsOk(t: Trace, st: State)
    requires TraceOk(t, st)
    ensures forall i :: 0 <= i < |Records(t)| ==> EditOk(Records(t)[i])
  {
    hide Tracks, BuiltFrom, VersionAfter;
    SnapshotOk(t.versions[0]);
  }

  /** A compaction stopped after any number of entries leaves a store that can be opened and that answers every
      read as if nothing had happened if and only if the pass reached something that survives and lost no
      entry that is the newest of its user key, unless the tables that stay repeat it. */
  lemma StoppedStoreExact(t: Trace, st: State, input: seq<Entry>, n: nat, size: nat, v': seq<seq<File>>,
                          rs: seq<Codec.Edit>, bytes: IKey -> Bytes, sizes: seq<nat>, st': State)
    requires TraceOk(t, st) && AllVersionsOk(t) && Inv(st) && StopsAfter(st, input, n, size, v') && forall k :: bytes(k) != []
    requires EncodesAll(rs, Records(Logged(t, st.version, StoppedEdit(st, input, n, size), v')), bytes)
    requires CrashStep(Installed(st, v'), sizes, st')
    ensures forall r :: RecoversTo(Records(Logged(t, st.version, StoppedEdit(st, input, n, size), v')), r)
                        <==> r == Durable(Installed(st, v'))
    ensures st'.logs != [] && MemLog(st') in st'.mems && st'.imm == None
    ensures Opens(rs) && (forall k :: Read(Sources(MemOf(st'), ImmOf(st'), st'.version), k, st'.lastSeq) == Read(Spec(st), k, |st.hist|))
            <==> ReachesSurvivor(st.version, st.bg.level, input, st.bg.snapshot, n) && LosesNothing(st, input, n)
  {
    hide TraceOk, Inv, AllVersionsOk, Sorted, LevelContents, VersionAfter, EncodesAll, Opens, ReachesSurvivor,
         CrashStep, RecoversTo, Records, Read, LosesNothing;
    StoppedManifest(t, st, input, n, size, v');
    RestartedReadsExact(st, input, n, size, v', sizes, st');
    StoppedManifestOpens(t, st, input, n, size, v', rs, bytes);
  }
}
