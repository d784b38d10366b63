/** Every action keeps the invariant, so every run does. */
module StoreInvariant {
  import opened Format
  import opened VersionedMap
  import opened Files
  import opened Selection
  import opened Versions
  import opened CompactionPass
  import opened Manifest
  import opened VersionSteps
  import opened History
  import opened Store

  // ---------------------------------------------------------------------------------------------
  // Writing

  lemma {:induction false} TailSplit(logs: seq<Log>, from: nat)
    requires logs != [] && logs[|logs| - 1].number >= from
    ensures LogTail(logs, from) == LogTail(logs[..|logs| - 1], from) + logs[|logs| - 1].ops
  {}

  lemma AppendKeeps(st: State, ops: seq<Op>, st': State)
    requires Inv(st) && AppendStep(st, ops, st')
    ensures Inv(st')
  {
    hide VersionOk, Listed, LogsOk;
    var es := Number(ops, |st.hist| + 1);
    assert st'.hist == st.hist + es;
    StretchesSurvive(st, es);
    AppendedLogs(st, es, st');
    AppendedReads(st, es);
  }

  lemma AppendedLogs(st: State, es: seq<Entry>, st': State)
    requires LogsOk(st) && st'.hist == st.hist + es && st'.flushed == st.flushed && st'.memStart == st.memStart
    requires st'.logNumber == st.logNumber && st'.nextFile == st.nextFile
    requires var last := st.logs[|st.logs| - 1];
             st'.logs == st.logs[..|st.logs| - 1] + [last.(ops := last.ops + es)]
    ensures LogsOk(st') && MemLog(st') == MemLog(st)
  {
    LastLogGrows(st.logs, st'.logs, es, st.logNumber);
    assert st'.hist[st.memStart..] == st.hist[st.memStart..] + es;
    assert st'.hist[st.flushed..] == st.hist[st.flushed..] + es;
  }

  lemma LastLogGrows(logs: seq<Log>, logs': seq<Log>, es: seq<Entry>, from: nat)
    requires logs != [] && Ascending(logs) && logs[|logs| - 1].number >= from
    requires var last := logs[|logs| - 1]; logs' == logs[..|logs| - 1] + [last.(ops := last.ops + es)]
    ensures Ascending(logs') && LogTail(logs', from) == LogTail(logs, from) + es
  {
    var n := |logs| - 1;
    assert logs'[..n] == logs[..n];
    SameNumbers(logs, logs');
    TailSplit(logs, from);
    TailSplit(logs', from);
    Regroup(LogTail(logs[..n], from), logs[n].ops, es);
  }

  lemma SameNumbers(logs: seq<Log>, logs': seq<Log>)
    requires |logs| == |logs'| > 0 && Ascending(logs) && logs'[..|logs| - 1] == logs[..|logs| - 1]
    requires logs'[|logs| - 1].number == logs[|logs| - 1].number
    ensures Ascending(logs')
  {
    forall i | 0 <= i < |logs| ensures logs'[i].number == logs[i].number {
      assert i < |logs| - 1 ==> logs'[..|logs| - 1][i] == logs[..|logs| - 1][i];
    }
  }

  lemma Regroup<T>(a: seq<T>, b: seq<T>, c: seq<T>)
    ensures a + (b + c) == a + b + c
  {}

  lemma AppendedReads(st: State, es: seq<Entry>)
    requires st.flushed <= |st.hist| && ReadsOk(st.version, st.hist, st.flushed, st.horizon)
    ensures ReadsOk(st.version, st.hist + es, st.flushed, st.horizon)
  {
    BetweenPrefix(st.hist, es, 0, st.flushed);
  }

  lemma StretchesSurvive(st: State, more: seq<Entry>)
    ensures forall mem, a, b :: HoldsStretch(mem, st.hist, a, b) ==> HoldsStretch(mem, st.hist + more, a, b)
  {
    forall mem, a, b | HoldsStretch(mem, st.hist, a, b) ensures HoldsStretch(mem, st.hist + more, a, b) {
      BetweenPrefix(st.hist, more, a, b);
    }
  }

  lemma InsertKeeps(st: State, st': State)
    requires Inv(st) && InsertStep(st, st')
    ensures Inv(st')
  {
    hide VersionOk, Listed, ReadsOk, MemsOk, LogsOk, ClosedInputs, InsertEntry;
    InsertedMems(st, st');
    InsertedLogs(st, st');
  }

  lemma InsertedLogs(st: State, st': State)
    requires LogsOk(st) && InsertStep(st, st')
    ensures LogsOk(st')
  {
    hide InsertEntry;
  }

  lemma InsertedMems(st: State, st': State)
    requires HistOk(st.hist) && CountersOk(st) && MemsOk(st) && InsertStep(st, st')
    ensures MemsOk(st')
  {
    InsertNext(st.hist, st.memStart, st.inserted, st.mems[MemLog(st)]);
  }

  lemma PublishKeeps(st: State, st': State)
    requires Inv(st) && PublishStep(st, st')
    ensures Inv(st')
  {
    hide VersionOk, Listed, ReadsOk;
  }

  lemma SwitchKeeps(st: State, st': State)
    requires Inv(st) && SwitchStep(st, st')
    ensures Inv(st')
  {
    hide VersionOk, Listed, ReadsOk, MemsOk, LogsOk, HistOk;
    SwitchedMems(st, st');
    SwitchedLogs(st, st');
  }

  lemma SwitchedMems(st: State, st': State)
    requires CountersOk(st) && MemsOk(st) && LogsOk(st) && SwitchStep(st, st')
    ensures MemsOk(st') && MemLog(st') == st.nextFile
  {
    hide LogTail;
    assert MemLog(st') == st.nextFile;
    BetweenEmpty(st.hist, |st.hist|, |st.hist|);
  }

  lemma SwitchedLogs(st: State, st': State)
    requires LogsOk(st) && SwitchStep(st, st')
    ensures LogsOk(st')
  {
    assert st'.logs[..|st.logs|] == st.logs;
    TailSplit(st'.logs, st.logNumber);
  }

  lemma FlushStartKeeps(st: State, st': State)
    requires Inv(st) && FlushStartStep(st, st')
    ensures Inv(st')
  {
    hide VersionOk, Listed, ReadsOk;
  }

  lemma TakeSnapshotKeeps(st: State, st': State)
    requires Inv(st) && TakeSnapshotStep(st, st')
    ensures Inv(st')
  {
    hide VersionOk, Listed, ReadsOk;
  }

  lemma ReleaseSnapshotKeeps(st: State, i: nat, st': State)
    requires Inv(st) && ReleaseSnapshotStep(st, i, st')
    ensures Inv(st')
  {
    hide VersionOk, Listed, ReadsOk;
    assert forall j :: 0 <= j < |st'.snapshots| ==> st'.snapshots[j] == if j < i then st.snapshots[j] else st.snapshots[j + 1];
    assert SnapshotsOk(st');
  }

  // ---------------------------------------------------------------------------------------------
  // Flushing

  lemma ImmIsEmpty(st: State)
    requires Inv(st) && st.imm.Some? && st.mems[st.imm.value] == []
    ensures st.flushed == st.memStart
  {
    BetweenEmpty(st.hist, st.flushed, st.memStart);
  }

  lemma FlushEmptyKeeps(st: State, st': State)
    requires Inv(st) && FlushEmptyStep(st, st')
    ensures Inv(st')
  {
    hide VersionOk, Listed;
    ImmIsEmpty(st);
  }

  /** A sorted, non-empty stretch of history is a well-formed table. */
  lemma StretchIsFile(es: seq<Entry>, hist: seq<Entry>, a: nat, b: nat, f: File)
    requires HistOk(hist) && HoldsStretch(es, hist, a, b) && es != [] && f.entries == es
    ensures FileOk(f)
  {
    BetweenIs(hist, a, b);
    forall e | e in f.entries ensures e.key.seqno <= MAX_SEQUENCE {
      assert e in Contents(es);
    }
  }

  lemma NumbersUnused(st: State, number: nat)
    requires FileNumbersOk(st) && st.manifestNext <= number
    ensures Unused(st.version, number)
  {}

  lemma FlushInstallKeeps(st: State, level: nat, size: nat, st': State)
    requires Inv(st) && FlushInstallStep(st, level, size, st')
    ensures Inv(st')
  {
    hide Listed, LogsOk;
    var imm := st.mems[st.imm.value];
    var f := File(st.bg.number, size, imm);
    StretchIsFile(imm, st.hist, st.flushed, st.memStart, f);
    LaterIsNewer(st.hist, 0, st.flushed, st.memStart, Contents(imm), VersionContents(st.version));
    NumbersUnused(st, f.number);
    FlushedVersion(st.version, MemLog(st), st.nextFile, st.lastSeq, level, f, st'.version);
    FlushedReads(st, imm, st'.version);
    FlushedLogs(st, st');
    FlushedRest(st, f, st');
  }

  lemma FlushedRest(st: State, f: File, st': State)
    requires CountersOk(st) && SnapshotsOk(st) && MemsOk(st) && FileNumbersOk(st) && st.imm.Some? && st.bg.Flushing?
    requires st'.hist == st.hist && st'.acked == st.acked && st'.logs == st.logs && st'.mems == st.mems && st'.imm == None
    requires st'.flushed == st'.memStart == st.memStart && st'.inserted == st.inserted && st'.lastSeq == st.lastSeq
    requires st'.manifestSeq == st.lastSeq && st'.manifestNext == st'.nextFile == st.nextFile
    requires st'.snapshots == st.snapshots && st'.horizon == st.horizon && st'.bg == Idle && f.number == st.bg.number
    requires forall i, g :: 0 <= i < |st'.version| && g in st'.version[i] ==> g.number <= f.number
    ensures CountersOk(st') && SnapshotsOk(st') && MemsOk(st') && FileNumbersOk(st')
  {}

  lemma FlushedLogs(st: State, st': State)
    requires Inv(st) && st'.logs == st.logs && st'.logNumber == MemLog(st) && st'.hist == st.hist
    requires st'.flushed == st'.memStart == st.memStart && st'.nextFile == st.nextFile
    ensures LogsOk(st')
  {
    var n := |st.logs| - 1;
    OldLogsDrop(st.logs[..n], MemLog(st));
    TailSplit(st.logs, MemLog(st));
  }

  lemma {:induction false} OldLogsDrop(logs: seq<Log>, from: nat)
    requires forall i :: 0 <= i < |logs| ==> logs[i].number < from
    ensures LogTail(logs, from) == []
  {
    if logs != [] {
      OldLogsDrop(logs[..|logs| - 1], from);
    }
  }

  /** The version after a flush, wherever the table went. */
  lemma FlushedVersion(v: seq<seq<File>>, log: nat, next: nat, last: nat, level: nat, f: File, version: seq<seq<File>>)
    requires VersionOk(v) && Listed(v) && FileOk(f) && FlushLevel(v, Lo(f), Hi(f), level) && Unused(v, f.number)
    requires forall i, g :: 0 <= i < |v| && g in v[i] ==> g.number < f.number
    requires Newer(Contents(f.entries), VersionContents(v))
    requires VersionAfter(v, AddEdit(log, next, last, level, [f]), version)
    ensures VersionOk(version) && Listed(version)
    ensures VersionContents(version) == VersionContents(v) + Contents(f.entries)
    ensures forall i, g :: 0 <= i < |version| && g in version[i] ==> g.number <= f.number
  {
    hide VersionOk, Listed, Newer, LevelAfter, NoOverlap, FileOk, VersionContents;
    ListedShape(v);
    AddEditShape(v, AddEdit(log, next, last, level, [f]), log, next, last, level, [f], version);
    AddKeepsListed(v, level, [f], version);
    assert Members([f]) == {f};
    AddedNumbers(v, level, f, version);
    if level == 0 {
      assert LevelContents([f]) == Contents(f.entries);
      Level0Join(v, f);
      AddToLevel0(v, [f], version);
    } else {
      AddBelow(v, level, f, version);
    }
  }

  lemma ListedShape(v: seq<seq<File>>)
    requires Listed(v)
    ensures |v| == NUM_LEVELS
  {}

  lemma AddedNumbers(v: seq<seq<File>>, level: nat, f: File, version: seq<seq<File>>)
    requires |v| == |version| == NUM_LEVELS && level < NUM_LEVELS
    requires forall l :: 0 <= l < NUM_LEVELS && l != level ==> version[l] == v[l]
    requires Members(version[level]) == Members(v[level]) + {f}
    requires forall i, g :: 0 <= i < |v| && g in v[i] ==> g.number < f.number
    ensures forall i, g :: 0 <= i < |version| && g in version[i] ==> g.number <= f.number
  {
    FilesIn(version[level], Members(v[level]) + {f});
  }

  lemma Level0Join(v: seq<seq<File>>, f: File)
    requires |v| == NUM_LEVELS && FileOk(f) && Newer(LevelContents([f]), VersionContents(v))
    requires forall i, g :: 0 <= i < |v| && g in v[i] ==> g.number < f.number
    ensures JoinLevel0(v, [f])
  {}

  lemma FlushedReads(st: State, imm: seq<Entry>, version: seq<seq<File>>)
    requires Inv(st) && HoldsStretch(imm, st.hist, st.flushed, st.memStart)
    requires VersionContents(version) == VersionContents(st.version) + Contents(imm)
    ensures ReadsOk(version, st.hist, st.memStart, st.horizon)
  {
    BetweenSplit(st.hist, 0, st.flushed, st.memStart);
    var A := VersionContents(st.version);
    assert VersionContents(version) == Between(st.hist, st.flushed, st.memStart) + A;
    forall k, s | s >= st.horizon
      ensures Read(VersionContents(version), k, s) == Read(Between(st.hist, 0, st.memStart), k, s)
    {
      ReadAbove(st.hist, st.flushed, st.memStart, A, k, s);
    }
  }

  // ---------------------------------------------------------------------------------------------
  // Compaction

  lemma CompactStartKeeps(st: State, level: nat, in0: seq<File>, in1: seq<File>, st': State)
    requires Inv(st) && CompactStartStep(st, level, in0, in1, st')
    ensures Inv(st')
  {
    hide VersionOk, Listed, ReadsOk;
    assert st.horizon <= SmallestSnapshot(st) <= st.lastSeq;
    assert SnapshotsOk(st');
    HorizonRises(st.version, st.hist, st.flushed, st.horizon, st'.horizon);
  }

  lemma HorizonRises(v: seq<seq<File>>, hist: seq<Entry>, flushed: nat, low: nat, high: nat)
    requires flushed <= |hist| && ReadsOk(v, hist, flushed, low) && low <= high
    ensures ReadsOk(v, hist, flushed, high)
  {}

  lemma MoveKeeps(st: State, level: nat, f: File, st': State)
    requires Inv(st) && MoveStep(st, level, f, st')
    ensures Inv(st')
  {
    MovedIsReplaced(st.version, level, f);
    MoveByLists(st, level, [f], [], f, st');
  }

  lemma MoveByLists(st: State, level: nat, in0: seq<File>, in1: seq<File>, f: File, st': State)
    requires Inv(st) && level + 1 < NUM_LEVELS && ClosedInputs(st.version[level], st.version[level + 1], in0, in1)
    requires FileOk(f) && f in st.version[level] && f in in0 && FromInputs(in0, in1, f)
    requires VersionContents(st.version) == Rest(st.version, level, in0, in1) + Contents(f.entries)
    requires VersionAfter(st.version, ReplaceEdit(st.logNumber, st.nextFile, st.lastSeq, level, in0, in1, f), st'.version)
    requires st' == Installed(st, st'.version)
    ensures Inv(st')
  {
    hide VersionOk, Listed, ReadsOk;
    ReplacedVersion(st.version, st.logNumber, st.nextFile, st.lastSeq, level, in0, in1, f, st'.version, st.manifestNext);
    SameReads(st.version, st'.version, st.hist, st.flushed, st.horizon);
    InstallKeepsRest(st, st');
  }

  lemma SameReads(v: seq<seq<File>>, v': seq<seq<File>>, hist: seq<Entry>, flushed: nat, horizon: nat)
    requires flushed <= |hist| && ReadsOk(v, hist, flushed, horizon) && VersionContents(v') == VersionContents(v)
    ensures ReadsOk(v', hist, flushed, horizon)
  {}

  /** What installing a new version leaves alone. */
  lemma InstallKeepsRest(st: State, st': State)
    requires CountersOk(st) && SnapshotsOk(st) && MemsOk(st) && LogsOk(st)
    requires st' == Installed(st, st'.version) && |st'.version| == NUM_LEVELS
    requires forall i, g :: 0 <= i < |st'.version| && g in st'.version[i] ==> g.number < st.nextFile
    ensures CountersOk(st') && SnapshotsOk(st') && MemsOk(st') && LogsOk(st') && FileNumbersOk(st') && BackgroundOk(st')
  {}

  lemma MovedIsReplaced(v: seq<seq<File>>, level: nat, f: File)
    requires VersionOk(v) && level + 1 < NUM_LEVELS && ClosedInputs(v[level], v[level + 1], [f], [])
    ensures FileOk(f) && f in v[level] && FromInputs([f], [], f)
    ensures VersionContents(v) == Rest(v, level, [f], []) + Contents(f.entries)
  {
    assert f in [f] && f in v[level];
    assert FilesOk(v[level]);
    assert LevelContents([f]) == Contents(f.entries) && LevelContents([]) == {};
    SplitContents(v, level, [f], []);
  }

  /** Installing any replacement of closed inputs by a well-formed output. */
  lemma ReplacedVersion(v: seq<seq<File>>, log: nat, next: nat, last: nat, level: nat, in0: seq<File>, in1: seq<File>, out: File,
                        v': seq<seq<File>>, bound: nat)
    requires VersionOk(v) && Listed(v) && level + 1 < NUM_LEVELS && ClosedInputs(v[level], v[level + 1], in0, in1)
    requires FileOk(out) && FromInputs(in0, in1, out) && (Unused(v, out.number) || out in in0) && out.number < bound
    requires VersionAfter(v, ReplaceEdit(log, next, last, level, in0, in1, out), v')
    requires forall i, g :: 0 <= i < |v| && g in v[i] ==> g.number < bound
    ensures VersionOk(v') && Listed(v') && Replaces(v, level, in0, in1, out, v')
    ensures VersionContents(v') == Rest(v, level, in0, in1) + Contents(out.entries)
    ensures forall i, g :: 0 <= i < |v'| && g in v'[i] ==> g.number < bound
  {
    ReplaceEditShape(v, ReplaceEdit(log, next, last, level, in0, in1, out), log, next, last, level, in0, in1, out, v');
    ReplaceKeepsOrder(v, level, in0, in1, out, v');
    ReplacedContents(v, level, in0, in1, out, v');
    ReplacedNumbers(v, level, in0, in1, out, v', bound);
  }

  lemma ReplacedNumbers(v: seq<seq<File>>, level: nat, in0: seq<File>, in1: seq<File>, out: File, v': seq<seq<File>>, bound: nat)
    requires Replaces(v, level, in0, in1, out, v') && out.number < bound
    requires forall i, g :: 0 <= i < |v| && g in v[i] ==> g.number < bound
    ensures forall i, g :: 0 <= i < |v'| && g in v'[i] ==> g.number < bound
  {
    forall i, g | 0 <= i < |v'| && g in v'[i] ensures g.number < bound {
      KeptIn(v, level, in0, in1, out, v', i, g);
    }
  }

  lemma CompactInstallKeeps(st: State, input: seq<Entry>, size: nat, st': State)
    requires Inv(st) && CompactInstallStep(st, input, size, st')
    ensures Inv(st')
  {
    hide Listed, ReadsOk;
    var c := st.bg;
    var v, v' := st.version, st'.version;
    var out := File(c.number, size, Survivors(v, c.level, input, c.snapshot));
    CompactedFile(st, input, out);
    NumbersUnused(st, c.number);
    ReplacedVersion(v, st.logNumber, st.nextFile, st.lastSeq, c.level, c.in0, c.in1, out, v', st.nextFile);
    CompactedReads(st, input, out, v');
    InstallKeepsRest(st, st');
  }

  /** The output is a well-formed table made of input entries. */
  lemma CompactedFile(st: State, input: seq<Entry>, out: File)
    requires Inv(st) && st.bg.Compacting? && Sorted(input)
    requires Contents(input) <= LevelContents(st.bg.in0) + LevelContents(st.bg.in1)
    requires out.entries == Survivors(st.version, st.bg.level, input, st.bg.snapshot) && out.entries != []
    ensures FileOk(out) && FromInputs(st.bg.in0, st.bg.in1, out)
  {
    SurvivorsAre(st.version, st.bg.level, input, st.bg.snapshot);
    SplitContents(st.version, st.bg.level, st.bg.in0, st.bg.in1);
    BetweenIs(st.hist, 0, st.flushed);
    forall e | e in out.entries
      ensures e in LevelContents(st.bg.in0) || e in LevelContents(st.bg.in1)
      ensures e.key.seqno <= MAX_SEQUENCE
    {
      assert e in Contents(input);
      assert e in VersionContents(st.version);
    }
  }

  /** Reads from the horizon on are the same before and after the compaction is installed. */
  lemma CompactedReads(st: State, input: seq<Entry>, out: File, v': seq<seq<File>>)
    requires Inv(st) && st.bg.Compacting? && Sorted(input)
    requires Contents(input) == LevelContents(st.bg.in0) + LevelContents(st.bg.in1)
    requires out.entries == Survivors(st.version, st.bg.level, input, st.bg.snapshot)
    requires Replaces(st.version, st.bg.level, st.bg.in0, st.bg.in1, out, v')
    ensures ReadsOk(v', st.hist, st.flushed, st.horizon)
  {
    var c := st.bg;
    var rest := Rest(st.version, c.level, c.in0, c.in1);
    SplitContents(st.version, c.level, c.in0, c.in1);
    ReplacedContents(st.version, c.level, c.in0, c.in1, out, v');
    RestIsSafe(st.version, c.level, c.in0, c.in1, input);
    SurvivorsAre(st.version, c.level, input, c.snapshot);
    BetweenIs(st.hist, 0, st.flushed);
    FunctionalSubset(VersionContents(st.version), Between(st.hist, 0, st.flushed));
    assert Contents(out.entries) <= Contents(input);
    forall k, s | s >= st.horizon
      ensures Read(VersionContents(v'), k, s) == Read(Between(st.hist, 0, st.flushed), k, s)
    {
      PassPreservesReads(st.version, c.level, rest, input, c.snapshot, k, s);
    }
  }

  /** A compaction adds an output even if that has no entries, and then no key range: after a pass over the
      first `n` entries the version stays well formed exactly when the pass reached the newest version of
      some user key that is not a dead tombstone. */
  lemma CompactionNeedsASurvivor(st: State, input: seq<Entry>, n: nat, size: nat, v': seq<seq<File>>)
    requires Inv(st) && st.bg.Compacting? && Sorted(input) && n <= |input|
    requires Contents(input) == LevelContents(st.bg.in0) + LevelContents(st.bg.in1)
    requires VersionAfter(st.version, ReplaceEdit(st.logNumber, st.nextFile, st.lastSeq, st.bg.level, st.bg.in0, st.bg.in1,
                          File(st.bg.number, size, Survivors(st.version, st.bg.level, input[..n], st.bg.snapshot))), v')
    ensures VersionOk(v') <==> ReachesSurvivor(st.version, st.bg.level, input, st.bg.snapshot, n)
  {
    hide VersionOk, Listed, ReadsOk, Survivors, VersionAfter, Inv, ReachesSurvivor;
    var c := st.bg;
    PrefixSurvives(st.version, c.level, input, c.snapshot, n);
    assert Contents(input[..n]) <= Contents(input);
    CompactedVersion(st, input[..n], File(c.number, size, Survivors(st.version, c.level, input[..n], c.snapshot)), v');
  }

  lemma CompactedVersion(st: State, input: seq<Entry>, out: File, v': seq<seq<File>>)
    requires Inv(st) && st.bg.Compacting? && Sorted(input) && out.number == st.bg.number
    requires Contents(input) <= LevelContents(st.bg.in0) + LevelContents(st.bg.in1)
    requires out.entries == Survivors(st.version, st.bg.level, input, st.bg.snapshot)
    requires VersionAfter(st.version, ReplaceEdit(st.logNumber, st.nextFile, st.lastSeq, st.bg.level, st.bg.in0, st.bg.in1, out), v')
    ensures VersionOk(v') <==> out.entries != []
  {
    hide VersionOk, Listed, ReadsOk, LogsOk, MemsOk, ClosedInputs, Replaces;
    var c := st.bg;
    NumbersUnused(st, c.number);
    if out.entries != [] {
      CompactedFile(st, input, out);
      ReplacedVersion(st.version, st.logNumber, st.nextFile, st.lastSeq, c.level, c.in0, c.in1, out, v', st.nextFile);
    } else {
      EmptyReplacement(st.version, st.logNumber, st.nextFile, st.lastSeq, c.level, c.in0, c.in1, out, v');
    }
  }

  lemma EmptyReplacement(v: seq<seq<File>>, log: nat, next: nat, last: nat, level: nat, in0: seq<File>, in1: seq<File>, out: File,
                         v': seq<seq<File>>)
    requires VersionOk(v) && Listed(v) && level + 1 < NUM_LEVELS && ClosedInputs(v[level], v[level + 1], in0, in1)
    requires out.entries == [] && Unused(v, out.number)
    requires VersionAfter(v, ReplaceEdit(log, next, last, level, in0, in1, out), v')
    ensures !VersionOk(v')
  {
    hide VersionOk, Listed;
    ReplaceEditShape(v, ReplaceEdit(log, next, last, level, in0, in1, out), log, next, last, level, in0, in1, out, v');
    EmptyOutputBreaks(v, level, in0, in1, out, v');
  }

  lemma EmptyOutputBreaks(v: seq<seq<File>>, level: nat, in0: seq<File>, in1: seq<File>, out: File, v': seq<seq<File>>)
    requires Replaces(v, level, in0, in1, out, v') && out.entries == []
    ensures !VersionOk(v')
  {
    var lower := level + 1;
    assert Exchanged(v[lower], in1, out, v'[lower]);
    assert out in v'[lower] && !FileOk(out);
    assert !FilesOk(v'[lower]);
  }

  // ---------------------------------------------------------------------------------------------
  // Crash and recovery

  /** The tables rebuilt from a list of logs hold exactly the operations of those logs, newer logs in
      higher-numbered files, and the counter ends past every log read. */
  lemma {:induction false} RecoveredTables(logs: seq<Log>, from: nat, sizes: seq<nat>, next: nat, hist: seq<Entry>, a: nat)
    requires HistOk(hist) && |sizes| == |logs| && a + |LogTail(logs, from)| <= |hist|
    requires LogTail(logs, from) == hist[a..a + |LogTail(logs, from)|]
    ensures var (files, at) := RecoverLogs(logs, from, sizes, next);
            && next <= at && (files == [] <==> LogTail(logs, from) == [])
            && FilesOk(files) && NumbersDescend(files)
            && LevelContents(files) == Between(hist, a, a + |LogTail(logs, from)|)
            && (forall f :: f in files ==> next <= f.number < at)
            && (forall i :: 0 <= i < |logs| && logs[i].number >= from ==> logs[i].number < at)
  {
    hide FilesOk, NumbersDescend, LevelContents, Between, HoldsStretch;
    if logs == [] {
      NoTables(hist, a);
    } else {
      var n := |logs| - 1;
      TailOfPrefix(logs, from, hist, a);
      RecoveredTables(logs[..n], from, sizes[..n], next, hist, a);
      assert forall i :: 0 <= i < n ==> logs[..n][i] == logs[i];
      if logs[n].number >= from && logs[n].ops != [] {
        var m := a + |LogTail(logs[..n], from)|;
        var (files, at) := RecoverLogs(logs[..n], from, sizes[..n], next);
        StretchTable(hist, m, a + |LogTail(logs, from)|);
        OneMoreTable(hist, a, m, a + |LogTail(logs, from)|, files, File(at, sizes[n], Memtable(logs[n].ops)));
      }
    }
  }

  lemma NoTables(hist: seq<Entry>, a: nat)
    requires a <= |hist|
    ensures FilesOk([]) && NumbersDescend([]) && LevelContents([]) == Between(hist, a, a)
  {
    BetweenEmpty(hist, a, a);
  }

  lemma StretchTable(hist: seq<Entry>, a: nat, b: nat)
    requires HistOk(hist) && a <= b <= |hist|
    ensures HoldsStretch(Memtable(hist[a..b]), hist, a, b)
  {
    MemtableIs(hist, a, b);
  }

  lemma TailOfPrefix(logs: seq<Log>, from: nat, hist: seq<Entry>, a: nat)
    requires logs != [] && a + |LogTail(logs, from)| <= |hist|
    requires LogTail(logs, from) == hist[a..a + |LogTail(logs, from)|]
    ensures var n := |logs| - 1;
            var m := a + |LogTail(logs[..n], from)|;
            && m <= a + |LogTail(logs, from)|
            && LogTail(logs[..n], from) == hist[a..m]
            && (logs[n].number >= from ==> logs[n].ops == hist[m..a + |LogTail(logs, from)|])
            && (logs[n].number < from ==> m == a + |LogTail(logs, from)|)
  {
    var n := |logs| - 1;
    var init, tail := LogTail(logs[..n], from), LogTail(logs, from);
    var ops := if logs[n].number >= from then logs[n].ops else [];
    assert tail == init + ops;
    assert init == tail[..|init|] && ops == tail[|init|..];
  }

  lemma OneMoreTable(hist: seq<Entry>, a: nat, m: nat, b: nat, files: seq<File>, f: File)
    requires HistOk(hist) && a <= m < b <= |hist| && HoldsStretch(f.entries, hist, m, b)
    requires FilesOk(files) && NumbersDescend(files) && LevelContents(files) == Between(hist, a, m)
    requires forall g :: g in files ==> g.number < f.number
    ensures FilesOk(files + [f]) && NumbersDescend(files + [f]) && LevelContents(files + [f]) == Between(hist, a, b)
  {
    BetweenEmpty(hist, m, b);
    assert f.entries != [];
    StretchIsFile(f.entries, hist, m, b, f);
    BetweenSplit(hist, a, m, b);
    assert LevelContents(files + [f]) == LevelContents(files) + Contents(f.entries);
    forall g | g in files ensures Newer(Contents(f.entries), Contents(g.entries)) {
      assert Contents(g.entries) <= LevelContents(files);
      LaterIsNewer(hist, a, m, b, Contents(f.entries), Contents(g.entries));
    }
  }

  /** The recovered sequence counter is the number of the last logged operation. */
  lemma RecoveredSequenceIs(st: State)
    requires HistOk(st.hist) && CountersOk(st) && LogsOk(st)
    ensures RecoveredSequence(st) == |st.hist|
  {
    var tail := LogTail(st.logs, st.logNumber);
    assert tail == st.hist[st.flushed..];
    if tail != [] {
      assert tail[|tail| - 1] == st.hist[|st.hist| - 1];
    }
  }

  /** What `Recover` finds in the logs. */
  lemma RecoveredFrom(st: State, sizes: seq<nat>)
    requires HistOk(st.hist) && LogsOk(st) && |sizes| == |st.logs|
    ensures var (files, next) := RecoverLogs(st.logs, st.logNumber, sizes, st.manifestNext + 1);
            && MemLog(st) < next && st.manifestNext < next
            && (files == [] <==> LogTail(st.logs, st.logNumber) == [])
            && FilesOk(files) && NumbersDescend(files) && LevelContents(files) == Between(st.hist, st.flushed, |st.hist|)
            && (forall f :: f in files ==> st.manifestNext < f.number < next)
  {
    var tail := LogTail(st.logs, st.logNumber);
    assert tail == st.hist[st.flushed..] == st.hist[st.flushed..st.flushed + |tail|];
    RecoveredTables(st.logs, st.logNumber, sizes, st.manifestNext + 1, st.hist, st.flushed);
  }

  lemma CrashKeeps(st: State, sizes: seq<nat>, st': State)
    requires Inv(st) && CrashStep(st, sizes, st')
    ensures Inv(st')
  {
    hide VersionOk, Listed, ReadsOk;
    RecoveredSequenceIs(st);
    RecoveredFrom(st, sizes);
    CrashCases(st, sizes, st');
    var (files, next) := RecoverLogs(st.logs, st.logNumber, sizes, st.manifestNext + 1);
    if files == [] {
      RecoverNothing(st, next, st');
    } else {
      RecoverTables(st, files, next, st');
    }
  }

  /** The two ways a recovery ends, with the recovered counter put in. */
  lemma CrashCases(st: State, sizes: seq<nat>, st': State)
    requires CrashStep(st, sizes, st') && RecoveredSequence(st) == |st.hist|
    ensures var (files, next) := RecoverLogs(st.logs, st.logNumber, sizes, st.manifestNext + 1);
            if files == [] then RecoversNothing(st, next, st') else RecoversTables(st, files, next, st')
  {}

  ghost predicate RecoversNothing(st: State, next: nat, st': State) {
    st' == st.(mems := map[next := []], imm := None, flushed := |st.hist|, memStart := |st.hist|, inserted := |st.hist|,
               lastSeq := |st.hist|, snapshots := [], bg := Idle,
               logs := st.logs + [Log(next, [])], nextFile := next + 1)
  }

  ghost predicate RecoversTables(st: State, files: seq<File>, next: nat, st': State) {
    && VersionAfter(st.version, AddEdit(next, next + 1, |st.hist|, 0, files), st'.version)
    && st' == st.(mems := map[next + 1 := []], imm := None, flushed := |st.hist|, memStart := |st.hist|, inserted := |st.hist|,
                  lastSeq := |st.hist|, snapshots := [], bg := Idle,
                  version := st'.version, logNumber := next, manifestSeq := |st.hist|, manifestNext := next + 1,
                  logs := st.logs + [Log(next + 1, [])], nextFile := next + 2)
  }

  lemma FreshLog(logs: seq<Log>, number: nat, from: nat)
    requires logs != [] && Ascending(logs) && logs[|logs| - 1].number < number && from <= number
    ensures Ascending(logs + [Log(number, [])])
    ensures LogTail(logs + [Log(number, [])], from) == LogTail(logs, from)
  {
    TailSplit(logs + [Log(number, [])], from);
    assert (logs + [Log(number, [])])[..|logs|] == logs;
  }

  lemma FreshMemtable(st': State, id: nat)
    requires st'.logs != [] && MemLog(st') == id && st'.mems == map[id := []] && st'.imm == None
    requires st'.flushed == st'.memStart == st'.inserted == |st'.hist| && id < st'.nextFile
    ensures MemsOk(st')
  {
    BetweenEmpty(st'.hist, |st'.hist|, |st'.hist|);
  }

  lemma RecoverNothing(st: State, next: nat, st': State)
    requires Inv(st) && MemLog(st) < next && st.manifestNext < next
    requires LogTail(st.logs, st.logNumber) == [] && RecoversNothing(st, next, st')
    ensures Inv(st')
  {
    hide VersionOk, Listed;
    assert st.flushed == |st.hist|;
    FreshLog(st.logs, next, st.logNumber);
    FreshMemtable(st', next);
    assert LogsOk(st');
  }

  lemma RecoverTables(st: State, files: seq<File>, next: nat, st': State)
    requires Inv(st) && MemLog(st) < next && st.manifestNext < next
    requires FilesOk(files) && NumbersDescend(files) && LevelContents(files) == Between(st.hist, st.flushed, |st.hist|)
    requires forall f :: f in files ==> st.manifestNext < f.number < next
    requires RecoversTables(st, files, next, st')
    ensures Inv(st')
  {
    hide VersionOk, Listed;
    LaterIsNewer(st.hist, 0, st.flushed, |st.hist|, LevelContents(files), VersionContents(st.version));
    RecoveredVersion(st.version, next, |st.hist|, files, st'.version, st.manifestNext);
    RecoveredReads(st, files, st'.version);
    RecoveredLogs(st, next, st');
    FreshMemtable(st', next + 1);
  }

  lemma RecoveredLogs(st: State, next: nat, st': State)
    requires LogsOk(st) && MemLog(st) < next
    requires st'.logs == st.logs + [Log(next + 1, [])] && st'.logNumber == next && st'.hist == st.hist
    requires st'.flushed == st'.memStart == |st.hist| && st'.nextFile == next + 2
    ensures LogsOk(st')
  {
    FreshLog(st.logs, next + 1, next);
    assert forall i :: 0 <= i < |st.logs| ==> st.logs[i].number <= MemLog(st);
    OldLogsDrop(st.logs, next);
  }

  lemma RecoveredVersion(v: seq<seq<File>>, next: nat, last: nat, files: seq<File>, v': seq<seq<File>>, bound: nat)
    requires VersionOk(v) && Listed(v) && FilesOk(files) && NumbersDescend(files)
    requires Newer(LevelContents(files), VersionContents(v))
    requires forall i, g :: 0 <= i < |v| && g in v[i] ==> g.number < bound
    requires forall f :: f in files ==> bound < f.number < next
    requires bound < next && VersionAfter(v, AddEdit(next, next + 1, last, 0, files), v')
    ensures VersionOk(v') && Listed(v') && VersionContents(v') == VersionContents(v) + LevelContents(files)
    ensures forall i, g :: 0 <= i < |v'| && g in v'[i] ==> g.number < next
  {
    hide VersionOk, Listed, Newer, LevelAfter, VersionContents;
    ListedShape(v);
    AddEditShape(v, AddEdit(next, next + 1, last, 0, files), next, next + 1, last, 0, files, v');
    AddKeepsListed(v, 0, files, v');
    assert JoinLevel0(v, files);
    AddToLevel0(v, files, v');
    FilesIn(v'[0], Members(v[0]) + Members(files));
  }

  lemma RecoveredReads(st: State, files: seq<File>, version: seq<seq<File>>)
    requires Inv(st) && LevelContents(files) == Between(st.hist, st.flushed, |st.hist|)
    requires VersionContents(version) == VersionContents(st.version) + LevelContents(files)
    ensures ReadsOk(version, st.hist, |st.hist|, st.horizon)
  {
    BetweenSplit(st.hist, 0, st.flushed, |st.hist|);
    var A := VersionContents(st.version);
    assert VersionContents(version) == Between(st.hist, st.flushed, |st.hist|) + A;
    forall k, s | s >= st.horizon
      ensures Read(VersionContents(version), k, s) == Read(Between(st.hist, 0, |st.hist|), k, s)
    {
      ReadAbove(st.hist, st.flushed, |st.hist|, A, k, s);
    }
  }

  // ---------------------------------------------------------------------------------------------
  // Every run

  lemma NextKeeps(st: State, a: Action, st': State)
    requires Inv(st) && Next(st, a, st')
    ensures Inv(st')
  {
    hide Inv;
    match a
    case Append(ops) => AppendKeeps(st, ops, st');
    case Insert => InsertKeeps(st, st');
    case Publish => PublishKeeps(st, st');
    case Switch => SwitchKeeps(st, st');
    case FlushStart => FlushStartKeeps(st, st');
    case FlushInstall(level, size) => FlushInstallKeeps(st, level, size, st');
    case FlushEmpty => FlushEmptyKeeps(st, st');
    case Move(level, f) => MoveKeeps(st, level, f, st');
    case CompactStart(level, in0, in1) => CompactStartKeeps(st, level, in0, in1, st');
    case CompactInstall(input, size) => CompactInstallKeeps(st, input, size, st');
    case TakeSnapshot => TakeSnapshotKeeps(st, st');
    case ReleaseSnapshot(i) => ReleaseSnapshotKeeps(st, i, st');
    case CrashAndRecover(sizes) => CrashKeeps(st, sizes, st');
  }

  lemma InitOk(st: State)
    requires Init(st)
    ensures Inv(st)
  {
    EmptyVersionOk();
    BetweenEmpty(st.hist, 0, 0);
    FreshMemtable(st, 3);
    assert LogTail(st.logs, 0) == [] by {
      assert st.logs[..0] == [];
    }
  }

  lemma EmptyVersionOk()
    ensures VersionOk(EmptyVersion()) && Listed(EmptyVersion()) && VersionContents(EmptyVersion()) == {}
  {
    assert forall l :: 0 <= l < NUM_LEVELS ==> EmptyVersion()[l] == [];
  }

  ghost predicate Run(states: seq<State>, actions: seq<Action>) {
    && |states| == |actions| + 1 && Init(states[0])
    && forall i :: 0 <= i < |actions| ==> Next(states[i], actions[i], states[i + 1])
  }

  /** The recency invariant and everything else in `Inv` hold after any number of actions, crashes included. */
  lemma {:induction false} RunKeepsInv(states: seq<State>, actions: seq<Action>, n: nat)
    requires Run(states, actions) && n <= |actions|
    ensures Inv(states[n])
  {
    hide Inv;
    if n == 0 {
      InitOk(states[0]);
    } else {
      RunKeepsInv(states, actions, n - 1);
      NextKeeps(states[n - 1], actions[n - 1], states[n]);
    }
  }
}
