/** The store as a state machine.  Each action is one region that runs under the mutex (or one durable
    write), so any interleaving of writers, readers, the background thread and crashes is a run. */
module Store {
  import opened Format
  import opened VersionedMap
  import opened Files
  import opened Selection
  import opened Versions
  import opened CompactionPass
  import opened Manifest
  import opened VersionSteps
  import opened History

  /** A log file: the operations of its complete records, in order. */
  datatype Log = Log(number: nat, ops: seq<Entry>)

  datatype Background =
    | Idle
    | Flushing(number: nat)
    | Compacting(level: nat, in0: seq<File>, in1: seq<File>, snapshot: nat, number: nat)

  datatype State = State(
    // what the specification sees: every logged operation, and how many of them were acknowledged
    hist: seq<Entry>, acked: nat,
    // durable: log files, and what the manifest records
    logs: seq<Log>, version: seq<seq<File>>, logNumber: nat, manifestSeq: nat, manifestNext: nat,
    // memtables by log number (readers may still hold old ones), and which one is being flushed
    mems: map<nat, seq<Entry>>, imm: Option<nat>,
    // positions in `hist`: in tables up to `flushed`, in `imm` up to `memStart`, in `mem` up to `inserted`
    flushed: nat, memStart: nat, inserted: nat,
    lastSeq: nat, nextFile: nat, snapshots: seq<nat>,
    // no reader asks for a sequence number below this one any more
    horizon: nat,
    bg: Background)

  function MemLog(st: State): nat
    requires st.logs != []
  {
    st.logs[|st.logs| - 1].number
  }

  // ---------------------------------------------------------------------------------------------
  // Actions

  datatype Action =
    | Append(ops: seq<Op>)
    | Insert
    | Publish
    | Switch
    | FlushStart
    | FlushInstall(flushLevel: nat, flushSize: nat)
    | FlushEmpty
    | Move(moveLevel: nat, file: File)
    | CompactStart(level: nat, in0: seq<File>, in1: seq<File>)
    | CompactInstall(input: seq<Entry>, outSize: nat)
    | TakeSnapshot
    | ReleaseSnapshot(index: nat)
    | CrashAndRecover(sizes: seq<nat>)

  /** The front writer's record reaches the log as a whole. */
  ghost predicate AppendStep(st: State, ops: seq<Op>, st': State) {
    && st.logs != [] && st.lastSeq == |st.hist| && |st.hist| + |ops| < MAX_SEQUENCE
    && var es := Number(ops, |st.hist| + 1);
       var last := st.logs[|st.logs| - 1];
       st' == st.(hist := st.hist + es, logs := st.logs[..|st.logs| - 1] + [last.(ops := last.ops + es)])
  }

  /** One operation of the logged group goes into the memtable, where readers may already look. */
  ghost predicate InsertStep(st: State, st': State) {
    && st.logs != [] && MemLog(st) in st.mems && st.inserted < |st.hist|
    && st' == st.(mems := st.mems[MemLog(st) := InsertEntry(st.mems[MemLog(st)], st.hist[st.inserted])], inserted := st.inserted + 1)
  }

  /** The group is in the memtable: its sequence numbers become visible and its writers return. */
  ghost predicate PublishStep(st: State, st': State) {
    st.inserted == |st.hist| && st' == st.(lastSeq := |st.hist|, acked := |st.hist|)
  }

  /** `MakeRoomForWrite` with a full memtable: new log, new memtable. */
  ghost predicate SwitchStep(st: State, st': State) {
    && st.logs != [] && st.imm.None? && st.lastSeq == |st.hist|
    && st' == st.(logs := st.logs + [Log(st.nextFile, [])], mems := st.mems[st.nextFile := []], imm := Some(MemLog(st)),
                  memStart := |st.hist|, nextFile := st.nextFile + 1)
  }

  ghost predicate FlushStartStep(st: State, st': State) {
    st.bg.Idle? && st.imm.Some? && st' == st.(bg := Flushing(st.nextFile), nextFile := st.nextFile + 1)
  }

  function Installed(st: State, version: seq<seq<File>>): State {
    st.(version := version, manifestSeq := st.lastSeq, manifestNext := st.nextFile, bg := Idle)
  }

  ghost predicate FlushInstallStep(st: State, level: nat, size: nat, st': State) {
    && st.bg.Flushing? && st.imm.Some? && st.imm.value in st.mems && st.mems[st.imm.value] != [] && st.logs != []
    && |st.version| == NUM_LEVELS
    && var f := File(st.bg.number, size, st.mems[st.imm.value]);
       && FlushLevel(st.version, Lo(f), Hi(f), level)
       && VersionAfter(st.version, AddEdit(MemLog(st), st.nextFile, st.lastSeq, level, [f]), st'.version)
       && st' == Installed(st, st'.version).(logNumber := MemLog(st), imm := None, flushed := st.memStart)
  }

  /** An empty memtable leaves no table and no manifest record. */
  ghost predicate FlushEmptyStep(st: State, st': State) {
    && st.bg.Flushing? && st.imm.Some? && st.imm.value in st.mems && st.mems[st.imm.value] == []
    && st' == st.(imm := None, flushed := st.memStart, bg := Idle)
  }

  ghost predicate MoveStep(st: State, level: nat, f: File, st': State) {
    && st.bg.Idle? && st.imm.None? && |st.version| == NUM_LEVELS && level + 1 < NUM_LEVELS
    && ClosedInputs(st.version[level], st.version[level + 1], [f], [])
    && VersionAfter(st.version, ReplaceEdit(st.logNumber, st.nextFile, st.lastSeq, level, [f], [], f), st'.version)
    && st' == Installed(st, st'.version)
  }

  function SmallestSnapshot(st: State): nat {
    if st.snapshots == [] then st.lastSeq else st.snapshots[0]
  }

  ghost predicate CompactStartStep(st: State, level: nat, in0: seq<File>, in1: seq<File>, st': State) {
    && st.bg.Idle? && st.imm.None? && |st.version| == NUM_LEVELS && level + 1 < NUM_LEVELS
    && ClosedInputs(st.version[level], st.version[level + 1], in0, in1)
    && st' == st.(bg := Compacting(level, in0, in1, SmallestSnapshot(st), st.nextFile), nextFile := st.nextFile + 1,
                  horizon := SmallestSnapshot(st))
  }

  /** A pass that ran to the end of its merged input and kept at least one entry. */
  ghost predicate CompactInstallStep(st: State, input: seq<Entry>, size: nat, st': State) {
    && st.bg.Compacting? && |st.version| == NUM_LEVELS
    && var c := st.bg;
       && Sorted(input) && Contents(input) == LevelContents(c.in0) + LevelContents(c.in1)
       && var entries := Survivors(st.version, c.level, input, c.snapshot);
          && entries != []
          && VersionAfter(st.version, ReplaceEdit(st.logNumber, st.nextFile, st.lastSeq, c.level, c.in0, c.in1,
                                                  File(c.number, size, entries)), st'.version)
          && st' == Installed(st, st'.version)
  }

  ghost predicate TakeSnapshotStep(st: State, st': State) {
    st' == st.(snapshots := st.snapshots + [st.lastSeq])
  }

  ghost predicate ReleaseSnapshotStep(st: State, i: nat, st': State) {
    i < |st.snapshots| && st' == st.(snapshots := st.snapshots[..i] + st.snapshots[i + 1..])
  }

  /** The operations of all logs the manifest still counts on. */
  function LogTail(logs: seq<Log>, from: nat): seq<Entry> {
    if logs == [] then [] else
      var n := |logs| - 1;
      LogTail(logs[..n], from) + if logs[n].number >= from then logs[n].ops else []
  }

  /** `RecoverLogFile` over the logs in ascending order: one level-0 table for each that holds operations.
      The second component is the file-number counter afterwards. */
  function RecoverLogs(logs: seq<Log>, from: nat, sizes: seq<nat>, next: nat): (seq<File>, nat)
    requires |sizes| == |logs|
  {
    if logs == [] then ([], next) else
      var n := |logs| - 1;
      var (files, at) := RecoverLogs(logs[..n], from, sizes[..n], next);
      var log := logs[n];
      if log.number < from then (files, at)
      else if log.ops == [] then (files, Past(at, log.number))
      else (files + [File(at, sizes[n], Memtable(log.ops))], Past(at + 1, log.number))
  }

  /** `MarkFileNumberUsed`. */
  function Past(next: nat, number: nat): nat {
    if next <= number then number + 1 else next
  }

  function RecoveredSequence(st: State): nat {
    var tail := LogTail(st.logs, st.logNumber);
    if tail != [] && tail[|tail| - 1].key.seqno > st.manifestSeq then tail[|tail| - 1].key.seqno else st.manifestSeq
  }

  /** Everything volatile is lost; `Recover` and `Open` rebuild a state from the logs and the manifest. */
  ghost predicate CrashStep(st: State, sizes: seq<nat>, st': State) {
    && |sizes| == |st.logs|
    && var (files, next) := RecoverLogs(st.logs, st.logNumber, sizes, st.manifestNext + 1);
       var seqno := RecoveredSequence(st);
       var blank := st.(mems := map[], imm := None, flushed := seqno, memStart := seqno, inserted := seqno, lastSeq := seqno,
                        snapshots := [], bg := Idle);
       if files == [] then
         st' == blank.(logs := st.logs + [Log(next, [])], mems := map[next := []], nextFile := next + 1)
       else
         && VersionAfter(st.version, AddEdit(next, next + 1, seqno, 0, files), st'.version)
         && st' == blank.(version := st'.version, logNumber := next, manifestSeq := seqno, manifestNext := next + 1,
                          logs := st.logs + [Log(next + 1, [])], mems := map[next + 1 := []], nextFile := next + 2)
  }

  ghost predicate Next(st: State, a: Action, st': State) {
    match a
    case Append(ops) => AppendStep(st, ops, st')
    case Insert => InsertStep(st, st')
    case Publish => PublishStep(st, st')
    case Switch => SwitchStep(st, st')
    case FlushStart => FlushStartStep(st, st')
    case FlushInstall(level, size) => FlushInstallStep(st, level, size, st')
    case FlushEmpty => FlushEmptyStep(st, st')
    case Move(level, f) => MoveStep(st, level, f, st')
    case CompactStart(level, in0, in1) => CompactStartStep(st, level, in0, in1, st')
    case CompactInstall(input, size) => CompactInstallStep(st, input, size, st')
    case TakeSnapshot => TakeSnapshotStep(st, st')
    case ReleaseSnapshot(i) => ReleaseSnapshotStep(st, i, st')
    case CrashAndRecover(sizes) => CrashStep(st, sizes, st')
  }

  function EmptyVersion(): seq<seq<File>> {
    seq(NUM_LEVELS, i => [])
  }

  /** A freshly created store: the manifest records next file 2, the manifest itself takes that number
      and the first log takes 3. */
  predicate Init(st: State) {
    st == State([], 0, [Log(3, [])], EmptyVersion(), 0, 0, 2, map[3 := []], None, 0, 0, 0, 0, 4, [], 0, Idle)
  }

  // ---------------------------------------------------------------------------------------------
  // The invariant

  predicate CountersOk(st: State) {
    && st.flushed <= st.memStart <= st.lastSeq <= st.inserted <= |st.hist|
    && st.acked <= st.lastSeq
    && st.flushed <= st.manifestSeq <= st.lastSeq
    && st.horizon <= st.lastSeq
  }

  predicate SnapshotsOk(st: State) {
    && (forall i :: 0 <= i < |st.snapshots| ==> st.horizon <= st.snapshots[i] <= st.lastSeq)
    && (forall i, j :: 0 <= i < j < |st.snapshots| ==> st.snapshots[i] <= st.snapshots[j])
  }

  ghost predicate HoldsStretch(es: seq<Entry>, hist: seq<Entry>, a: nat, b: nat) {
    a <= b <= |hist| && Sorted(es) && Contents(es) == Between(hist, a, b)
  }

  ghost predicate MemsOk(st: State) {
    && st.logs != []
    && MemLog(st) in st.mems && HoldsStretch(st.mems[MemLog(st)], st.hist, st.memStart, st.inserted)
    && (st.imm.None? ==> st.flushed == st.memStart)
    && (st.imm.Some? ==> st.imm.value in st.mems && st.imm.value < MemLog(st)
                         && HoldsStretch(st.mems[st.imm.value], st.hist, st.flushed, st.memStart))
    && (forall id :: id in st.mems ==> id < st.nextFile)
  }

  predicate Ascending(logs: seq<Log>) {
    forall i, j :: 0 <= i < j < |logs| ==> logs[i].number < logs[j].number
  }

  /** What is not in a table is in a log that recovery will read. */
  predicate LogsOk(st: State) {
    && st.logs != [] && Ascending(st.logs)
    && st.logNumber <= MemLog(st) < st.nextFile
    && st.flushed <= st.memStart <= |st.hist|
    && st.logs[|st.logs| - 1].ops == st.hist[st.memStart..]
    && LogTail(st.logs, st.logNumber) == st.hist[st.flushed..]
  }

  ghost predicate FileNumbersOk(st: State) {
    && st.manifestNext <= st.nextFile
    && (forall i, f :: 0 <= i < |st.version| && f in st.version[i] ==> f.number < st.manifestNext)
    && (st.bg.Flushing? ==> st.manifestNext <= st.bg.number < st.nextFile)
    && (st.bg.Compacting? ==> st.manifestNext <= st.bg.number < st.nextFile)
  }

  /** The tables read like the flushed part of the history, from the horizon on. */
  ghost predicate ReadsOk(version: seq<seq<File>>, hist: seq<Entry>, flushed: nat, horizon: nat)
    requires flushed <= |hist|
  {
    && VersionContents(version) <= Between(hist, 0, flushed)
    && forall k, s :: s >= horizon ==> Read(VersionContents(version), k, s) == Read(Between(hist, 0, flushed), k, s)
  }

  ghost predicate BackgroundOk(st: State)
    requires |st.version| == NUM_LEVELS
  {
    && (st.bg.Flushing? ==> st.imm.Some?)
    && (st.bg.Compacting? ==>
          && st.bg.level + 1 < NUM_LEVELS && st.bg.snapshot == st.horizon
          && ClosedInputs(st.version[st.bg.level], st.version[st.bg.level + 1], st.bg.in0, st.bg.in1))
  }

  ghost predicate Inv(st: State) {
    && HistOk(st.hist)
    && CountersOk(st)
    && SnapshotsOk(st)
    && MemsOk(st)
    && LogsOk(st)
    && VersionOk(st.version) && Listed(st.version)
    && FileNumbersOk(st)
    && ReadsOk(st.version, st.hist, st.flushed, st.horizon)
    && BackgroundOk(st)
  }
}
