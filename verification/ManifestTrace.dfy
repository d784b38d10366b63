/** The manifest along a run of the store: what it holds at any moment is what recovery needs. */
module ManifestTrace {
  import opened Format
  import opened Files
  import opened Selection
  import opened Versions
  import opened CompactionPass
  import opened Manifest
  import opened VersionSteps
  import opened History
  import opened Store
  import opened StoreInvariant

  /** The manifest that is current: the versions since its snapshot record, the edits that led from one to the
      next, and whether this process has it open for writing. */
  datatype Trace = Trace(versions: seq<seq<seq<File>>>, edits: seq<Edit>, open: bool)

  ghost function Records(t: Trace): seq<Edit>
    requires t.versions != []
  {
    [SnapshotEdit(t.versions[0])] + t.edits
  }

  /** `LogAndApply`: a process that has no manifest open starts a new one from a snapshot of its version. */
  function Logged(t: Trace, v: seq<seq<File>>, e: Edit, v': seq<seq<File>>): (r: Trace)
    ensures r.versions != []
  {
    if t.open then Trace(t.versions + [v'], t.edits + [e], true) else Trace([v, v'], [e], true)
  }

  const CREATION := Edit(None, Some(0), Some(0), Some(2), Some(0), {}, [])

  /** Creating a store writes an empty snapshot and an empty edit, and leaves the manifest open. */
  function Created(): Trace {
    Trace([EmptyVersion(), EmptyVersion()], [CREATION], true)
  }

  /** What one action writes to the manifest. A restart reads it and leaves it closed. */
  ghost function Traced(t: Trace, st: State, a: Action, st': State): Trace {
    match a
    case FlushInstall(level, size) =>
      if st.bg.Flushing? && st.imm.Some? && st.imm.value in st.mems && st.logs != [] then
        var f := File(st.bg.number, size, st.mems[st.imm.value]);
        Logged(t, st.version, AddEdit(MemLog(st), st.nextFile, st.lastSeq, level, [f]), st'.version)
      else t
    case Move(level, f) =>
      Logged(t, st.version, ReplaceEdit(st.logNumber, st.nextFile, st.lastSeq, level, [f], [], f), st'.version)
    case CompactInstall(input, size) =>
      if st.bg.Compacting? then
        var out := File(st.bg.number, size, Survivors(st.version, st.bg.level, input, st.bg.snapshot));
        Logged(t, st.version, ReplaceEdit(st.logNumber, st.nextFile, st.lastSeq, st.bg.level, st.bg.in0, st.bg.in1, out), st'.version)
      else t
    case CrashAndRecover(sizes) =>
      if |sizes| == |st.logs| then
        var (files, next) := RecoverLogs(st.logs, st.logNumber, sizes, st.manifestNext + 1);
        var closed := t.(open := false);
        if files == [] then closed
        else Logged(closed, st.version, AddEdit(next, next + 1, RecoveredSequence(st), 0, files), st'.version)
      else t
    case _ => t
  }

  /** The manifest after `n` actions of a run. */
  ghost function TraceOf(states: seq<State>, actions: seq<Action>, n: nat): Trace
    requires |states| == |actions| + 1 && n <= |actions|
  {
    if n == 0 then Created() else Traced(TraceOf(states, actions, n - 1), states[n - 1], actions[n - 1], states[n])
  }

  // ---------------------------------------------------------------------------------------------
  // File numbers

  /** A file ever added at a level bears a number below the recorded bound, and what bears that number now is
      at that level or deeper. */
  ghost predicate Sunk(f: File, l: nat, v: seq<seq<File>>, bound: nat) {
    f.number < bound && forall i, g :: 0 <= i < |v| && g in v[i] && g.number == f.number ==> l <= i
  }

  ghost predicate Tracks(es: seq<Edit>, v: seq<seq<File>>, bound: nat) {
    forall l :: 0 <= l < NUM_LEVELS ==> Fresh(es, l) && forall f :: f in GatheredAdds(es, l) ==> Sunk(f, l, v, bound)
  }

  lemma SnapshotTracks(v: seq<seq<File>>, bound: nat)
    requires Listed(v) && forall i, g :: 0 <= i < |v| && g in v[i] ==> g.number < bound
    ensures Tracks([SnapshotEdit(v)], v, bound)
  {
    forall l | 0 <= l < NUM_LEVELS
      ensures Fresh([SnapshotEdit(v)], l) && forall f :: f in GatheredAdds([SnapshotEdit(v)], l) ==> Sunk(f, l, v, bound)
    {
      SnapshotAdds(v, l);
      OneEdit(SnapshotEdit(v), l);
    }
  }

  /** A file that may join a level: its number is new, or it comes from the level above. */
  ghost predicate MayJoin(v: seq<seq<File>>, level: nat, f: File, bound: nat) {
    bound <= f.number || (0 < level <= |v| && f in v[level - 1])
  }

  /** An edit that adds files at one level. */
  ghost predicate Joins(v: seq<seq<File>>, e: Edit, level: nat, files: seq<File>, v': seq<seq<File>>) {
    && |v| == |v'| == NUM_LEVELS && level < NUM_LEVELS
    && (forall l :: 0 <= l < NUM_LEVELS ==> AddedAt(e, l) == if l == level then Members(files) else {})
    && (forall f :: f in files ==> f in v'[level])
    && (forall i, g :: 0 <= i < NUM_LEVELS && g in v'[i] ==> g in v[i] || (i == level && g in files))
  }

  lemma JoinTracks(es: seq<Edit>, v: seq<seq<File>>, bound: nat, e: Edit, level: nat, files: seq<File>, v': seq<seq<File>>, bound': nat)
    requires Tracks(es, v, bound) && Joins(v, e, level, files, v') && Listed(v') && bound <= bound'
    requires forall f :: f in files ==> MayJoin(v, level, f, bound) && f.number < bound'
    ensures Tracks(es + [e], v', bound')
  {
    forall l | 0 <= l < NUM_LEVELS
      ensures Fresh(es + [e], l) && forall f :: f in GatheredAdds(es + [e], l) ==> Sunk(f, l, v', bound')
    {
      JoinIsFresh(es, v, bound, e, level, files, v', l);
      assert (es + [e])[..|es|] == es;
      forall f | f in GatheredAdds(es + [e], l) ensures Sunk(f, l, v', bound') {
        if f in GatheredAdds(es, l) {
          StaysSunk(f, l, v, bound, e, level, files, v', bound');
        } else {
          assert f in AddedAt(e, l) && f in files;
        }
      }
    }
  }

  lemma JoinIsFresh(es: seq<Edit>, v: seq<seq<File>>, bound: nat, e: Edit, level: nat, files: seq<File>, v': seq<seq<File>>, l: nat)
    requires Tracks(es, v, bound) && Joins(v, e, level, files, v') && Listed(v') && l < NUM_LEVELS
    requires forall f :: f in files ==> MayJoin(v, level, f, bound)
    ensures Fresh(es + [e], l)
  {
    assert forall f :: f in AddedAt(e, l) ==> l == level && f in files && f in v'[l];
    forall f, h | f in GatheredAdds(es, l) && h in AddedAt(e, l) ensures f.number != h.number {
      assert Sunk(f, l, v, bound) && MayJoin(v, level, h, bound);
    }
    assert Fresh(es, l) && UniqueNumbers(AddedAt(e, l));
    FreshGrows(es, e, l);
  }

  lemma FreshGrows(es: seq<Edit>, e: Edit, l: nat)
    requires Fresh(es, l) && UniqueNumbers(AddedAt(e, l))
    requires forall f, h :: f in GatheredAdds(es, l) && h in AddedAt(e, l) ==> f.number != h.number
    ensures Fresh(es + [e], l)
  {
    assert (es + [e])[..|es|] == es;
  }

  lemma StaysSunk(f: File, l: nat, v: seq<seq<File>>, bound: nat, e: Edit, level: nat, files: seq<File>, v': seq<seq<File>>, bound': nat)
    requires Sunk(f, l, v, bound) && Joins(v, e, level, files, v') && bound <= bound'
    requires forall g :: g in files ==> MayJoin(v, level, g, bound)
    ensures Sunk(f, l, v', bound')
  {
    forall i, g | 0 <= i < |v'| && g in v'[i] && g.number == f.number ensures l <= i {
      assert g in v[i] ==> l <= i;
      assert 0 < level && g in v[level - 1] ==> l <= level - 1;
      assert g in files ==> MayJoin(v, level, g, bound);
    }
  }

  // ---------------------------------------------------------------------------------------------
  // The manifest and the running store agree

  /** Every record but the snapshot carries all counters. */
  predicate Complete(e: Edit) {
    e.comparator.None? && e.logNumber.Some? && e.prevLogNumber == Some(0) && e.nextFile.Some? && e.lastSequence.Some?
  }

  /** The counters of the edit are those the manifest is known to hold. */
  predicate Recorded(e: Edit, st: State) {
    e.logNumber == Some(st.logNumber) && e.nextFile == Some(st.manifestNext) && e.lastSequence == Some(st.manifestSeq)
  }

  /** The version is what the builder saves from the one before and the edit, level by level. */
  ghost predicate BuiltFrom(v: seq<seq<File>>, e: Edit, v': seq<seq<File>>) {
    |v| == |v'| == NUM_LEVELS && forall l :: 0 <= l < NUM_LEVELS ==> v'[l] == Saved(v[l], [e], l)
  }

  /** An installed version is, level by level, the very list that the builder saves. */
  lemma JoinIsBuilt(v: seq<seq<File>>, bound: nat, e: Edit, level: nat, files: seq<File>, v': seq<seq<File>>)
    requires Listed(v) && Listed(v') && Joins(v, e, level, files, v') && VersionAfter(v, e, v')
    requires forall i, g :: 0 <= i < |v| && g in v[i] ==> g.number < bound
    requires forall f :: f in files ==> MayJoin(v, level, f, bound)
    ensures BuiltFrom(v, e, v')
  {
    hide Saved, StepLevel;
    forall l | 0 <= l < NUM_LEVELS ensures v'[l] == Saved(v[l], [e], l) {
      assert LevelAfter(v[l], e, l, v'[l]);
      JoinIsFreshFor(v, bound, e, level, files, v', l);
      InstalledIsSaved(v[l], e, l, v'[l]);
    }
  }

  /** Numbers that are new, or come from the level above, are fresh at the level they join. */
  lemma JoinIsFreshFor(v: seq<seq<File>>, bound: nat, e: Edit, level: nat, files: seq<File>, v': seq<seq<File>>, l: nat)
    requires Listed(v) && Listed(v') && Joins(v, e, level, files, v') && l < NUM_LEVELS
    requires forall i, g :: 0 <= i < |v| && g in v[i] ==> g.number < bound
    requires forall f :: f in files ==> MayJoin(v, level, f, bound)
    ensures FreshFor(v[l], e, l)
  {
    assert forall f :: f in AddedAt(e, l) ==> l == level && f in files && f in v'[l];
    forall f, h | f in Members(v[l]) && h in AddedAt(e, l) ensures f.number != h.number {
      assert MayJoin(v, level, h, bound);
    }
  }

  lemma InstalledIsSaved(files: seq<File>, e: Edit, l: nat, files': seq<File>)
    requires Ordered(files) && FreshFor(files, e, l) && LevelAfter(files, e, l, files')
    ensures files' == Saved(files, [e], l)
  {
    hide Saved;
    OneEdit(e, l);
    OrderedIsWeak(files);
    SavedIs(files, [e], l);
    assert Members(Saved(files, [e], l)) == StepLevel(Members(files), e, l);
    OrderedUnique(files', Saved(files, [e], l));
  }

  ghost predicate TraceOk(t: Trace, st: State) {
    && t.edits != [] && Installs(t.versions, t.edits) && t.versions[|t.edits|] == st.version
    && (forall i :: 0 <= i < |t.edits| ==> EditOk(t.edits[i]) && Complete(t.edits[i]))
    && (forall i :: 0 <= i < |t.edits| ==> BuiltFrom(t.versions[i], t.edits[i], t.versions[i + 1]))
    && Recorded(t.edits[|t.edits| - 1], st)
    && Tracks(Records(t), st.version, st.manifestNext)
  }

  lemma CreatedOk(st: State)
    requires Init(st)
    ensures TraceOk(Created(), st)
  {
    hide Tracks, VersionAfter, EmptyVersion, BuiltFrom, Listed, Joins;
    var v := EmptyVersion();
    CreationChangesNothing();
    JoinIsBuilt(v, 2, CREATION, 0, [], v);
    SnapshotTracks(v, 2);
    JoinTracks([SnapshotEdit(v)], v, 2, CREATION, 0, [], v, 2);
    assert Records(Created()) == [SnapshotEdit(v)] + [CREATION];
  }

  lemma CreationChangesNothing()
    ensures var v := EmptyVersion();
            && |v| == NUM_LEVELS && Listed(v) && VersionAfter(v, CREATION, v) && Joins(v, CREATION, 0, [], v)
            && forall i :: 0 <= i < |v| ==> v[i] == []
  {
    var v := EmptyVersion();
    forall l | 0 <= l < NUM_LEVELS ensures AddedAt(CREATION, l) == {} && LevelAfter(v[l], CREATION, l, v[l]) {
      assert StepLevel(Members(v[l]), CREATION, l) == {};
    }
  }

  lemma LoggedOk(t: Trace, st: State, e: Edit, level: nat, files: seq<File>, st': State)
    requires TraceOk(t, st) && Inv(st) && Listed(st'.version) && VersionAfter(st.version, e, st'.version)
    requires EditOk(e) && Complete(e) && Recorded(e, st')
    requires Joins(st.version, e, level, files, st'.version) && st.manifestNext <= st'.manifestNext
    requires forall f :: f in files ==> MayJoin(st.version, level, f, st.manifestNext) && f.number < st'.manifestNext
    ensures TraceOk(Logged(t, st.version, e, st'.version), st')
  {
    hide Tracks, Joins, MayJoin, EditOk, VersionAfter, VersionOk, MemsOk, LogsOk, ReadsOk, BuiltFrom, Listed;
    var v, v', t' := st.version, st'.version, Logged(t, st.version, e, st'.version);
    var before := if t.open then Records(t) else [SnapshotEdit(v)];
    if !t.open {
      SnapshotTracks(v, st.manifestNext);
    }
    JoinTracks(before, v, st.manifestNext, e, level, files, v', st'.manifestNext);
    JoinIsBuilt(v, st.manifestNext, e, level, files, v');
    assert Records(t') == before + [e];
    InstallsMore(t, v, e, v');
  }

  lemma InstallsMore(t: Trace, v: seq<seq<File>>, e: Edit, v': seq<seq<File>>)
    requires Installs(t.versions, t.edits) && t.versions[|t.edits|] == v && VersionAfter(v, e, v')
    ensures var t' := Logged(t, v, e, v'); Installs(t'.versions, t'.edits)
  {
    hide LevelAfter;
  }

  // ---------------------------------------------------------------------------------------------
  // Every action

  lemma AddJoins(v: seq<seq<File>>, log: nat, next: nat, last: nat, level: nat, files: seq<File>, v': seq<seq<File>>)
    requires Listed(v) && level < NUM_LEVELS && VersionAfter(v, AddEdit(log, next, last, level, files), v')
    ensures var e := AddEdit(log, next, last, level, files); Joins(v, e, level, files, v') && EditOk(e) && Complete(e)
  {
    var e := AddEdit(log, next, last, level, files);
    AddEditShape(v, e, log, next, last, level, files, v');
    forall l | 0 <= l < NUM_LEVELS ensures AddedAt(e, l) == if l == level then Members(files) else {} {
      forall f | f in files ensures l == level ==> f in AddedAt(e, l) {
        assert (level, f) in e.added;
      }
    }
    FilesIn(v'[level], Members(v[level]) + Members(files));
  }

  lemma ReplaceJoins(v: seq<seq<File>>, log: nat, next: nat, last: nat, level: nat, in0: seq<File>, in1: seq<File>, out: File,
                     v': seq<seq<File>>)
    requires Listed(v) && level + 1 < NUM_LEVELS && ClosedInputs(v[level], v[level + 1], in0, in1)
    requires VersionAfter(v, ReplaceEdit(log, next, last, level, in0, in1, out), v') && (Unused(v, out.number) || out in in0)
    ensures var e := ReplaceEdit(log, next, last, level, in0, in1, out);
            Joins(v, e, level + 1, [out], v') && EditOk(e) && Complete(e)
  {
    hide VersionAfter;
    var e := ReplaceEdit(log, next, last, level, in0, in1, out);
    ReplaceEditShape(v, e, log, next, last, level, in0, in1, out, v');
    assert (level + 1, out) in e.added;
    forall l | 0 <= l < NUM_LEVELS ensures AddedAt(e, l) == if l == level + 1 then Members([out]) else {} {
    }
    forall i, g | 0 <= i < NUM_LEVELS ensures g in v'[i] ==> g in v[i] || (i == level + 1 && g in [out]) {
      KeptIn(v, level, in0, in1, out, v', i, g);
    }
    KeptIn(v, level, in0, in1, out, v', level + 1, out);
  }

  lemma FlushTraced(t: Trace, st: State, level: nat, size: nat, st': State)
    requires TraceOk(t, st) && Inv(st) && Inv(st') && FlushInstallStep(st, level, size, st')
    ensures TraceOk(Traced(t, st, FlushInstall(level, size), st'), st')
  {
    hide TraceOk, VersionOk, Listed, ReadsOk, MemsOk, LogsOk, VersionAfter, Joins;
    var f := File(st.bg.number, size, st.mems[st.imm.value]);
    AddJoins(st.version, MemLog(st), st.nextFile, st.lastSeq, level, [f], st'.version);
    LoggedOk(t, st, AddEdit(MemLog(st), st.nextFile, st.lastSeq, level, [f]), level, [f], st');
  }

  lemma MoveTraced(t: Trace, st: State, level: nat, f: File, st': State)
    requires TraceOk(t, st) && Inv(st) && Inv(st') && MoveStep(st, level, f, st')
    ensures TraceOk(Traced(t, st, Move(level, f), st'), st')
  {
    hide TraceOk, VersionOk, Listed, ReadsOk, MemsOk, LogsOk, VersionAfter, Joins;
    assert f in [f] && f in st.version[level];
    ReplaceJoins(st.version, st.logNumber, st.nextFile, st.lastSeq, level, [f], [], f, st'.version);
    LoggedOk(t, st, ReplaceEdit(st.logNumber, st.nextFile, st.lastSeq, level, [f], [], f), level + 1, [f], st');
  }

  lemma CompactTraced(t: Trace, st: State, input: seq<Entry>, size: nat, st': State)
    requires TraceOk(t, st) && Inv(st) && Inv(st') && CompactInstallStep(st, input, size, st')
    ensures TraceOk(Traced(t, st, CompactInstall(input, size), st'), st')
  {
    hide TraceOk, VersionOk, Listed, ReadsOk, MemsOk, LogsOk, VersionAfter, Joins, Survivors;
    var c := st.bg;
    var out := File(c.number, size, Survivors(st.version, c.level, input, c.snapshot));
    NumbersUnused(st, c.number);
    ReplaceJoins(st.version, st.logNumber, st.nextFile, st.lastSeq, c.level, c.in0, c.in1, out, st'.version);
    LoggedOk(t, st, ReplaceEdit(st.logNumber, st.nextFile, st.lastSeq, c.level, c.in0, c.in1, out), c.level + 1, [out], st');
  }

  lemma CrashTraced(t: Trace, st: State, sizes: seq<nat>, st': State)
    requires TraceOk(t, st) && Inv(st) && Inv(st') && CrashStep(st, sizes, st')
    ensures TraceOk(Traced(t, st, CrashAndRecover(sizes), st'), st')
  {
    hide TraceOk, Inv, VersionAfter, RecoverLogs, RecoveredSequence;
    var (files, next) := RecoverLogs(st.logs, st.logNumber, sizes, st.manifestNext + 1);
    if files == [] {
      ClosedTrace(t, st, st');
    } else {
      ClosedTrace(t, st, st);
      RestartTraced(t.(open := false), st, sizes, files, next, RecoveredSequence(st), st');
    }
  }

  /** Only installs change what the manifest says. */
  lemma ClosedTrace(t: Trace, st: State, st': State)
    requires TraceOk(t, st) && st'.version == st.version && st'.logNumber == st.logNumber
    requires st'.manifestNext == st.manifestNext && st'.manifestSeq == st.manifestSeq
    ensures TraceOk(t.(open := false), st')
  {
    hide Tracks, VersionAfter, BuiltFrom, EditOk;
    assert Records(t.(open := false)) == Records(t);
  }

  lemma RestartTraced(t: Trace, st: State, sizes: seq<nat>, files: seq<File>, next: nat, last: nat, st': State)
    requires TraceOk(t, st) && Inv(st) && Inv(st') && |sizes| == |st.logs|
    requires (files, next) == RecoverLogs(st.logs, st.logNumber, sizes, st.manifestNext + 1)
    requires VersionAfter(st.version, AddEdit(next, next + 1, last, 0, files), st'.version)
    requires st'.logNumber == next && st'.manifestNext == next + 1 && st'.manifestSeq == last
    ensures TraceOk(Logged(t, st.version, AddEdit(next, next + 1, last, 0, files), st'.version), st')
  {
    hide TraceOk, VersionOk, Listed, ReadsOk, MemsOk, VersionAfter, Joins, RecoverLogs, FilesOk, NumbersDescend;
    RecoveredFrom(st, sizes);
    AddJoins(st.version, next, next + 1, last, 0, files, st'.version);
    LoggedOk(t, st, AddEdit(next, next + 1, last, 0, files), 0, files, st');
  }

  lemma StepTraced(t: Trace, st: State, a: Action, st': State)
    requires TraceOk(t, st) && Inv(st) && Inv(st') && Next(st, a, st')
    ensures TraceOk(Traced(t, st, a, st'), st')
  {
    hide Inv, FlushInstallStep, MoveStep, CompactInstallStep, CrashStep, Tracks, Installs, Records, InsertEntry, Number;
    match a
    case FlushInstall(level, size) => FlushTraced(t, st, level, size, st');
    case Move(level, f) => MoveTraced(t, st, level, f, st');
    case CompactInstall(input, size) => CompactTraced(t, st, input, size, st');
    case CrashAndRecover(sizes) => CrashTraced(t, st, sizes, st');
    case _ =>
  }

  /** Along every run, trivial moves and restarts included, the manifest leads to the running version, its last
      record holds the counters, and no file number is ever added twice at a level. */
  lemma {:induction false} RunIsTraced(states: seq<State>, actions: seq<Action>, n: nat)
    requires Run(states, actions) && n <= |actions|
    ensures TraceOk(TraceOf(states, actions, n), states[n])
  {
    hide TraceOk, Inv, Next, Traced, Init;
    if n == 0 {
      assert Init(states[0]);
      CreatedOk(states[0]);
    } else {
      RunIsTraced(states, actions, n - 1);
      RunKeepsInv(states, actions, n - 1);
      RunKeepsInv(states, actions, n);
      StepTraced(TraceOf(states, actions, n - 1), states[n - 1], actions[n - 1], states[n]);
    }
  }

  // ---------------------------------------------------------------------------------------------
  // Reading it back

  /** What recovery must find in the manifest of a store. */
  ghost function Durable(st: State): Recovered {
    Recovered(st.version, st.logNumber, 0, st.manifestNext, st.manifestNext + 1, st.manifestSeq)
  }

  lemma RecordsRecover(t: Trace, st: State)
    requires TraceOk(t, st)
    ensures Recoverable(Records(t)) && (forall e :: e in Records(t) ==> EditOk(e))
    ensures forall r :: RecoversTo(Records(t), r) <==> r == Durable(st)
  {
    hide Tracks, VersionAfter, EditOk, Saved;
    var es := Records(t);
    var n := |es| - 1;
    assert es[n] == t.edits[n - 1];
    assert LatestCounters(es) == Counters(Some(st.logNumber), Some(0), Some(st.manifestNext), Some(st.manifestSeq));
    forall e | e in es ensures EditOk(e) && Matches(e) {
      SnapshotOk(t.versions[0]);
      assert e == es[0] || e in t.edits;
    }
    ReplayedVersion(t, st);
    forall r ensures RecoversTo(es, r) <==> r == Durable(st) {
      assert r.version == st.version <==> |r.version| == NUM_LEVELS && forall l :: 0 <= l < NUM_LEVELS ==> r.version[l] == st.version[l];
    }
  }

  lemma SnapshotOk(v: seq<seq<File>>)
    ensures |v| == NUM_LEVELS ==> EditOk(SnapshotEdit(v))
    ensures Matches(SnapshotEdit(v))
  {
  }

  lemma ReplayedVersion(t: Trace, st: State)
    requires TraceOk(t, st)
    ensures |st.version| == NUM_LEVELS && forall l :: 0 <= l < NUM_LEVELS ==> st.version[l] == Saved([], Records(t), l)
  {
    hide Saved, Fresh, GatheredAdds, VersionAfter, Replayed, Sunk;
    var es := Records(t);
    var recovered := seq(NUM_LEVELS, l requires 0 <= l < NUM_LEVELS => Saved([], es, l));
    forall l | 0 <= l < NUM_LEVELS ensures Ordered(recovered[l]) && Members(recovered[l]) == Replayed(es, l) {
      RecoveredLevel(es, l);
    }
    ReplayGivesCurrentVersion(t.versions, t.edits, recovered);
  }

  /** In every state of every run, opening the manifest succeeds and finds exactly the version, log number, file
      counter and sequence number of that state. */
  lemma ManifestIsExact(states: seq<State>, actions: seq<Action>, n: nat)
    requires Run(states, actions) && n <= |actions|
    ensures TraceOf(states, actions, n).versions != []
    ensures Recoverable(Records(TraceOf(states, actions, n)))
    ensures forall r :: RecoversTo(Records(TraceOf(states, actions, n)), r) <==> r == Durable(states[n])
  {
    hide Next, Init, TraceOf, RecoversTo, Recoverable;
    RunIsTraced(states, actions, n);
    RecordsRecover(TraceOf(states, actions, n), states[n]);
  }

  /** `VersionSet::Recover` at any moment of any run. */
  method Reopen(es: seq<Edit>, ghost states: seq<State>, ghost actions: seq<Action>, ghost n: nat) returns (r: Option<Recovered>)
    requires Run(states, actions) && n <= |actions|
    requires var t := TraceOf(states, actions, n); t.versions != [] && es == Records(t)
    ensures r == Some(Durable(states[n]))
  {
    hide Next, Init, TraceOf, RecoversTo, Recoverable;
    RunIsTraced(states, actions, n);
    RecordsRecover(TraceOf(states, actions, n), states[n]);
    r := Recover(es);
  }

  /** The store as a restart finds it: the counters and the version are those read back. */
  ghost function Reopened(st: State, r: Recovered): State {
    st.(version := r.version, logNumber := r.logNumber, manifestNext := r.manifestNumber, manifestSeq := r.lastSequence)
  }
}
