/** The two compactions that do harm, in runs of the store that lead to them. */
module CompactionFailures {
  import opened Format
  import opened VersionedMap
  import opened Files
  import opened Selection
  import opened Versions
  import opened CompactionPass
  import opened Manifest
  import opened VersionSteps
  import opened History
  import opened Store
  import opened StoreInvariant
  import opened Coding
  import opened ManifestRecords
  import Codec = VersionEdit

  // ---------------------------------------------------------------------------------------------
  // A run that writes one batch, flushes it to level 0 and starts to compact the table

  function Start(): State {
    State([], 0, [Log(3, [])], EmptyVersion(), 0, 0, 2, map[3 := []], None, 0, 0, 0, 0, 4, [], 0, Idle)
  }

  function Inserted(ops: seq<Op>, i: nat): State
    requires i <= |ops|
  {
    var es := Number(ops, 1);
    Start().(hist := es, logs := [Log(3, es)], mems := map[3 := Memtable(es[..i])], inserted := i)
  }

  function Published(ops: seq<Op>): State {
    Inserted(ops, |ops|).(lastSeq := |ops|, acked := |ops|)
  }

  function Switched(ops: seq<Op>): State {
    var es := Number(ops, 1);
    Published(ops).(logs := [Log(3, es), Log(4, [])], mems := map[3 := Memtable(es), 4 := []], imm := Some(3),
                    memStart := |ops|, nextFile := 5)
  }

  function Reserved(ops: seq<Op>): State {
    Switched(ops).(bg := Flushing(5), nextFile := 6)
  }

  function Table(ops: seq<Op>): File {
    File(5, 1, Memtable(Number(ops, 1)))
  }

  function Flushed(ops: seq<Op>): State {
    Reserved(ops).(version := EmptyVersion()[0 := [Table(ops)]], manifestSeq := |ops|, manifestNext := 6, bg := Idle, logNumber := 4,
                   imm := None, flushed := |ops|)
  }

  function Compacting(ops: seq<Op>): State {
    Flushed(ops).(bg := Background.Compacting(0, [Table(ops)], [], |ops|, 6), nextFile := 7, horizon := |ops|)
  }

  lemma Extend(states: seq<State>, actions: seq<Action>, a: Action, st': State)
    requires Run(states, actions) && Next(states[|actions|], a, st')
    ensures Run(states + [st'], actions + [a])
  {
  }

  /** Any batch at all can be the whole input of a compaction: a manual one, since it is not moved as it is. */
  lemma ReachesCompaction(ops: seq<Op>) returns (states: seq<State>, actions: seq<Action>)
    requires 0 < |ops| < MAX_SEQUENCE
    ensures Run(states, actions) && states[|actions|] == Compacting(ops)
  {
    hide Next;
    states, actions := [Start()], [];
    AppendOne(ops);
    SwitchOne(ops);
    CompactOne(ops);
    Extend(states, actions, Append(ops), Inserted(ops, 0));
    states, actions := states + [Inserted(ops, 0)], actions + [Append(ops)];
    for i := 0 to |ops|
      invariant Run(states, actions) && states[|actions|] == Inserted(ops, i)
    {
      InsertOne(ops, i);
      Extend(states, actions, Insert, Inserted(ops, i + 1));
      states, actions := states + [Inserted(ops, i + 1)], actions + [Insert];
    }
    Extend(states, actions, Publish, Published(ops));
    states, actions := states + [Published(ops)], actions + [Publish];
    Extend(states, actions, Switch, Switched(ops));
    states, actions := states + [Switched(ops)], actions + [Switch];
    Extend(states, actions, FlushStart, Reserved(ops));
    states, actions := states + [Reserved(ops)], actions + [FlushStart];
    FlushOne(ops);
    Extend(states, actions, FlushInstall(0, 1), Flushed(ops));
    states, actions := states + [Flushed(ops)], actions + [FlushInstall(0, 1)];
    Extend(states, actions, CompactStart(0, [Table(ops)], []), Compacting(ops));
    states, actions := states + [Compacting(ops)], actions + [CompactStart(0, [Table(ops)], [])];
  }

  lemma AppendOne(ops: seq<Op>)
    requires 0 < |ops| < MAX_SEQUENCE
    ensures Next(Start(), Append(ops), Inserted(ops, 0))
  {
    var es := Number(ops, 1);
    assert [] + es == es && [Log(3, [])][..0] == [];
  }

  lemma SwitchOne(ops: seq<Op>)
    ensures Next(Inserted(ops, |ops|), Publish, Published(ops))
    ensures Next(Published(ops), Switch, Switched(ops))
    ensures Next(Switched(ops), FlushStart, Reserved(ops))
  {
    var es := Number(ops, 1);
    assert es[..|ops|] == es;
    assert [Log(3, es)] + [Log(4, [])] == [Log(3, es), Log(4, [])];
  }

  lemma CompactOne(ops: seq<Op>)
    ensures Next(Flushed(ops), CompactStart(0, [Table(ops)], []), Compacting(ops))
  {
    var f := Table(ops);
    assert ClosedInputs([f], [], [f], []) by { assert f in [f]; }
  }

  lemma InsertOne(ops: seq<Op>, i: nat)
    requires i < |ops| < MAX_SEQUENCE
    ensures Next(Inserted(ops, i), Insert, Inserted(ops, i + 1))
  {
    var es := Number(ops, 1);
    assert es[..i + 1][..i] == es[..i];
    assert map[3 := Memtable(es[..i])][3 := Memtable(es[..i + 1])] == map[3 := Memtable(es[..i + 1])];
  }

  lemma FlushOne(ops: seq<Op>)
    requires 0 < |ops| < MAX_SEQUENCE
    ensures Next(Reserved(ops), FlushInstall(0, 1), Flushed(ops))
  {
    var st, f := Reserved(ops), Table(ops);
    var v', e := EmptyVersion()[0 := [f]], AddEdit(4, 6, |ops|, 0, [f]);
    HoldsAll(ops);
    forall l | 0 <= l < NUM_LEVELS ensures LevelAfter(EmptyVersion()[l], e, l, v'[l]) {
      AddEditAt(4, 6, |ops|, 0, [f], l, Members(EmptyVersion()[l]));
    }
  }

  /** The table holds the batch. */
  lemma HoldsAll(ops: seq<Op>)
    requires 0 < |ops| < MAX_SEQUENCE
    ensures var es := Number(ops, 1);
            Sorted(Memtable(es)) && Contents(Memtable(es)) == Contents(es) && Memtable(es) != []
  {
    hide Memtable, Sorted, Between, HistOk, Number;
    var es := Number(ops, 1);
    Numbered(ops);
    MemtableIs(es, 0, |es|);
    WholeHistory(es);
    assert es[0] in Contents(Memtable(es));
  }

  lemma Numbered(ops: seq<Op>)
    requires |ops| < MAX_SEQUENCE
    ensures |Number(ops, 1)| == |ops| && HistOk(Number(ops, 1))
  {
  }

  lemma WholeHistory(es: seq<Entry>)
    ensures es[0..|es|] == es && Between(es, 0, |es|) == Contents(es)
  {
    forall e | e in es ensures e in Between(es, 0, |es|) {
      var i :| 0 <= i < |es| && es[i] == e;
    }
  }

  // ---------------------------------------------------------------------------------------------
  // A compaction that stops early

  /** The edit of a compaction that saw the shutdown flag after `n` entries. */
  ghost function StoppedEdit(st: State, input: seq<Entry>, n: nat, size: nat): Edit
    requires st.bg.Compacting? && n <= |input|
  {
    ReplaceEdit(st.logNumber, st.nextFile, st.lastSeq, st.bg.level, st.bg.in0, st.bg.in1,
                File(st.bg.number, size, Survivors(st.version, st.bg.level, input[..n], st.bg.snapshot)))
  }

  /** In any reachable state, installing the output of a pass that stopped after `n` entries leaves every read
      from the oldest snapshot on alone if and only if no entry it did not reach is still asked for, unless
      the tables that stay say the same. */
  lemma StoppedCompactionExact(st: State, input: seq<Entry>, n: nat, size: nat, v': seq<seq<File>>)
    requires Inv(st) && st.bg.Compacting? && Sorted(input) && n <= |input|
    requires Contents(input) == LevelContents(st.bg.in0) + LevelContents(st.bg.in1)
    requires VersionAfter(st.version, StoppedEdit(st, input, n, size), v')
    ensures var rest := Rest(st.version, st.bg.level, st.bg.in0, st.bg.in1);
            (forall k, s :: s >= st.bg.snapshot ==> Read(VersionContents(v'), k, s) == Read(VersionContents(st.version), k, s))
            <==> (forall i :: n <= i < |input| && Exposed(VersionContents(st.version), input[i], st.bg.snapshot) ==>
                    Below(rest, input[i]) == Live(input[i]))
  {
    hide Inv, VersionAfter, VersionContents, LevelContents, Rest, TombstonesSafe, Functional, Survivors, Sorted, Exposed, Below, Read, Live;
    var c, v := st.bg, st.version;
    StoppedParts(st, input, n, size, v');
    EarlyStopExact(v, c.level, Rest(v, c.level, c.in0, c.in1), input, c.snapshot, n);
  }

  /** What a stopped compaction starts from and leaves, as the pass sees it. */
  lemma StoppedParts(st: State, input: seq<Entry>, n: nat, size: nat, v': seq<seq<File>>)
    requires Inv(st) && st.bg.Compacting? && Sorted(input) && n <= |input|
    requires Contents(input) == LevelContents(st.bg.in0) + LevelContents(st.bg.in1)
    requires VersionAfter(st.version, StoppedEdit(st, input, n, size), v')
    ensures var c, v := st.bg, st.version;
            var rest := Rest(v, c.level, c.in0, c.in1);
            && TombstonesSafe(v, c.level, rest, input)
            && VersionContents(v) == rest + Contents(input) && Functional(VersionContents(v))
            && VersionContents(v') == rest + Contents(Survivors(v, c.level, input[..n], c.snapshot))
  {
    hide VersionOk, Listed, ReadsOk, LogsOk, MemsOk, HistOk, Survivors, Sorted, Functional, VersionAfter,
         VersionContents, LevelContents, Rest, TombstonesSafe;
    var c, v := st.bg, st.version;
    var out := File(c.number, size, Survivors(v, c.level, input[..n], c.snapshot));
    NumbersUnused(st, c.number);
    ListedShape(v);
    StoppedContents(v, StoppedEdit(st, input, n, size), st.logNumber, st.nextFile, st.lastSeq, c.level, c.in0, c.in1, out, v');
    SplitContents(v, c.level, c.in0, c.in1);
    RestIsSafe(v, c.level, c.in0, c.in1, input);
    TablesFunctional(st);
  }

  lemma TablesFunctional(st: State)
    requires Inv(st)
    ensures Functional(VersionContents(st.version))
  {
    BetweenIs(st.hist, 0, st.flushed);
    FunctionalSubset(VersionContents(st.version), Between(st.hist, 0, st.flushed));
  }

  lemma StoppedContents(v: seq<seq<File>>, e: Edit, log: nat, next: nat, last: nat, level: nat, in0: seq<File>, in1: seq<File>,
                        out: File, v': seq<seq<File>>)
    requires Listed(v) && level + 1 < NUM_LEVELS && ClosedInputs(v[level], v[level + 1], in0, in1) && Unused(v, out.number)
    requires e == ReplaceEdit(log, next, last, level, in0, in1, out) && VersionAfter(v, e, v')
    ensures VersionContents(v') == Rest(v, level, in0, in1) + Contents(out.entries)
  {
    ReplaceEditShape(v, e, log, next, last, level, in0, in1, out, v');
    ReplacedContents(v, level, in0, in1, out, v');
  }

  /** What the edit makes of a store whose one table is being compacted. */
  lemma OneTableReplaced(ops: seq<Op>, out: File, v': seq<seq<File>>)
    requires out.number == 6 && v' == EmptyVersion()[1 := [out]]
    ensures VersionAfter(Compacting(ops).version, ReplaceEdit(4, 7, |ops|, 0, [Table(ops)], [], out), v')
  {
    var f, e := Table(ops), ReplaceEdit(4, 7, |ops|, 0, [Table(ops)], [], out);
    assert (0, 5) in e.deleted by { assert f in [f] && f.number == 5; }
    assert (1, out) in e.added;
    forall l | 0 <= l < NUM_LEVELS ensures LevelAfter(Compacting(ops).version[l], e, l, v'[l]) {
      assert AddedAt(e, l) == if l == 1 then {out} else {};
      assert l == 0 ==> 5 in DeletedAt(e, 0);
      assert l > 1 ==> StepLevel({}, e, l) == {};
    }
  }

  const TWO_PUTS := [Op(1, Put, "a"), Op(2, Put, "b")]

  /** A run after which a compaction of two committed keys, stopped after the first, makes the second unreadable. */
  lemma EarlyStopLosesReads() returns (states: seq<State>, actions: seq<Action>, input: seq<Entry>, v': seq<seq<File>>)
    ensures Run(states, actions) && states[|actions|].bg.Compacting? && |input| == 2
    ensures var st := states[|actions|];
            && Sorted(input) && Contents(input) == LevelContents(st.bg.in0) + LevelContents(st.bg.in1)
            && VersionAfter(st.version, StoppedEdit(st, input, 1, 1), v')
            && Read(VersionContents(st.version), 2, st.lastSeq) == Some("b") && Read(VersionContents(v'), 2, st.lastSeq) == None
  {
    hide Run;
    states, actions := ReachesCompaction(TWO_PUTS);
    input, v' := SecondKeyLost();
  }

  lemma SecondKeyLost() returns (input: seq<Entry>, v': seq<seq<File>>)
    ensures var st := Compacting(TWO_PUTS);
            && |input| == 2 && Sorted(input) && Contents(input) == LevelContents(st.bg.in0) + LevelContents(st.bg.in1)
            && VersionAfter(st.version, StoppedEdit(st, input, 1, 1), v')
            && Read(VersionContents(st.version), 2, st.lastSeq) == Some("b") && Read(VersionContents(v'), 2, st.lastSeq) == None
  {
    hide VersionAfter, Read, Memtable, Survivors, VersionContents;
    var a, b := Entry(IKey(1, 1, Put), "a"), Entry(IKey(2, 2, Put), "b");
    var st, f, out := Compacting(TWO_PUTS), Table(TWO_PUTS), File(6, 1, [a]);
    input, v' := [a, b], EmptyVersion()[1 := [out]];
    TwoEntries();
    OneSurvivor(st.version, input, 2);
    OneTableReplaced(TWO_PUTS, out, v');
    OnlyTable(st.version, 0, f);
    OnlyTable(v', 1, out);
    ReadsOfTwo(a, b);
  }

  lemma ReadsOfTwo(a: Entry, b: Entry)
    requires a == Entry(IKey(1, 1, Put), "a") && b == Entry(IKey(2, 2, Put), "b")
    ensures Read(Contents([a, b]), 2, 2) == Some("b") && Read(Contents([a]), 2, 2) == None
  {
    assert b in [a, b];
    OneRead(Contents([a, b]), b, 2);
    NewestIs(Contents([a]), 2, 2);
  }

  lemma TwoEntries()
    ensures Memtable(Number(TWO_PUTS, 1)) == [Entry(IKey(1, 1, Put), "a"), Entry(IKey(2, 2, Put), "b")]
  {
    var es := Number(TWO_PUTS, 1);
    var a, b := Entry(IKey(1, 1, Put), "a"), Entry(IKey(2, 2, Put), "b");
    assert es == [a, b];
    assert es[..1] == [a] && [a][..0] == [] && [a][1..] == [];
    assert Memtable([a]) == InsertEntry(Memtable([]), a) == [a];
    assert InsertEntry([], b) == [b];
    assert InsertEntry([a], b) == [a, b];
  }

  lemma OneSurvivor(v: seq<seq<File>>, input: seq<Entry>, snapshot: nat)
    requires |input| == 2 && input[0].key.kind.Put?
    ensures Survivors(v, 0, input[..1], snapshot) == [input[0]]
  {
    assert input[..1] == [input[0]] && input[..1][..0] == [];
  }

  lemma OnlyTable(v: seq<seq<File>>, level: nat, f: File)
    requires level < NUM_LEVELS && v == EmptyVersion()[level := [f]]
    ensures VersionContents(v) == Contents(f.entries) && LevelContents([f]) == Contents(f.entries) && LevelContents([]) == {}
  {
    assert LevelContents([f]) == Contents(f.entries) by { assert f in [f]; }
    assert v[level] == [f] && forall l :: 0 <= l < |v| && l != level ==> v[l] == [];
    forall e | e in f.entries ensures e in VersionContents(v) {
      assert e in LevelContents(v[level]);
    }
  }

  lemma OneRead(S: set<Entry>, e: Entry, s: nat)
    requires Functional(S) && e in S && e.key.seqno == s
    ensures Read(S, e.key.user, s) == Live(e)
  {
    NewestIs(S, e.key.user, s);
    assert IsNewest(S, e.key.user, s, e);
  }

  // ---------------------------------------------------------------------------------------------
  // A compaction that writes nothing

  /** In any reachable state, the manifest record of a pass over the first `n` entries can be read again if and
      only if the pass reached the newest version of some user key that is not a dead tombstone. The record
      of an output without keys gets written where assertions are off. */
  lemma CompactionRecordReadable(st: State, input: seq<Entry>, n: nat, size: nat, r: Codec.Edit, bytes: IKey -> Bytes)
    requires Inv(st) && st.bg.Compacting? && Sorted(input) && n <= |input|
    requires Contents(input) == LevelContents(st.bg.in0) + LevelContents(st.bg.in1)
    requires Encodes(r, StoppedEdit(st, input, n, size), bytes) && forall k :: bytes(k) != []
    ensures Readable(r) <==> ReachesSurvivor(st.version, st.bg.level, input, st.bg.snapshot, n)
  {
    hide Codec.ReadFields, Codec.FieldsBytes, Codec.FieldsOf, Encodes, Survivors, Inv, Sorted, LevelContents, ReachesSurvivor;
    var e := StoppedEdit(st, input, n, size);
    PrefixSurvives(st.version, st.bg.level, input, st.bg.snapshot, n);
    CompactingLevel(st);
    RecordReadable(r, e, bytes);
    assert e.added[0].1.entries == Survivors(st.version, st.bg.level, input[..n], st.bg.snapshot);
  }

  lemma CompactingLevel(st: State)
    requires Inv(st) && st.bg.Compacting?
    ensures st.bg.level + 1 < NUM_LEVELS
  {
    hide VersionOk, Listed, ReadsOk, LogsOk, MemsOk, HistOk;
  }

  /** The record of an edit that replaces the table of a batch by an output without entries: the compaction
      pointer, the input gone, the output without keys. */
  function EmptyOutputRecord(ops: seq<Op>, bytes: IKey -> Bytes): Codec.Edit {
    Codec.Edit(None, Some(4), Some(0), Some(7), Some(|ops|), [Codec.CompactPointer(0, bytes(Largest(Table(ops))))],
               [Codec.Pair(0, 5)], [Codec.NewFile(1, 6, 1, [], [])])
  }

  /** What a compaction of the table of a batch does that stops after `n` entries with nothing written. */
  ghost predicate Breaks(ops: seq<Op>, n: nat, bytes: IKey -> Bytes, v': seq<seq<File>>) {
    var st, input := Compacting(ops), Table(ops).entries;
    && n <= |input| && Sorted(input) && Contents(input) == LevelContents(st.bg.in0) + LevelContents(st.bg.in1)
    && VersionAfter(st.version, StoppedEdit(st, input, n, 1), v') && !VersionOk(v')
    && Encodes(EmptyOutputRecord(ops, bytes), StoppedEdit(st, input, n, 1), bytes) && !Readable(EmptyOutputRecord(ops, bytes))
  }

  /** Any batch at all, its table compacted by a pass that sees the shutdown flag at once: the version installed
      is not one, and the record of the edit cannot be read again, so the store cannot be opened any more. */
  lemma StopAtOnceBreaksStore(ops: seq<Op>, bytes: IKey -> Bytes)
    returns (states: seq<State>, actions: seq<Action>, v': seq<seq<File>>)
    requires 0 < |ops| < MAX_SEQUENCE && forall k :: 0 < |bytes(k)| < WORD
    ensures Run(states, actions) && states[|actions|] == Compacting(ops) && Breaks(ops, 0, bytes, v')
  {
    hide Run, Breaks;
    states, actions := ReachesCompaction(ops);
    RunKeepsInv(states, actions, |actions|);
    v' := NothingWritten(ops, 0, bytes);
  }

  const ONE_DELETE := [Op(1, Deletion, "")]

  /** The same with a pass that runs to its end, over one deletion that was logged and flushed. */
  lemma DeadInputBreaksStore(bytes: IKey -> Bytes) returns (states: seq<State>, actions: seq<Action>, v': seq<seq<File>>)
    requires forall k :: 0 < |bytes(k)| < WORD
    ensures Run(states, actions) && states[|actions|] == Compacting(ONE_DELETE)
    ensures |Table(ONE_DELETE).entries| == 1 && Breaks(ONE_DELETE, 1, bytes, v')
  {
    hide Run, Breaks;
    states, actions := ReachesCompaction(ONE_DELETE);
    RunKeepsInv(states, actions, |actions|);
    TombstoneDies();
    v' := NothingWritten(ONE_DELETE, 1, bytes);
  }

  lemma TombstoneDies()
    ensures |Table(ONE_DELETE).entries| == 1
    ensures !ReachesSurvivor(Compacting(ONE_DELETE).version, 0, Table(ONE_DELETE).entries, 1, 1)
  {
    var t := Entry(IKey(1, 1, Deletion), "");
    var es := Number(ONE_DELETE, 1);
    assert es == [t] && [t][..0] == [];
    assert Memtable(es) == InsertEntry(Memtable([]), t) == [t];
    assert DeadTombstone(Compacting(ONE_DELETE).version, 0, t, 1);
  }

  lemma NothingWritten(ops: seq<Op>, n: nat, bytes: IKey -> Bytes) returns (v': seq<seq<File>>)
    requires 0 < |ops| < MAX_SEQUENCE && n <= |Table(ops).entries| && forall k :: 0 < |bytes(k)| < WORD
    requires Inv(Compacting(ops)) && !ReachesSurvivor(Compacting(ops).version, 0, Table(ops).entries, |ops|, n)
    ensures Breaks(ops, n, bytes, v')
  {
    hide Inv, Encodes, VersionOk, VersionAfter, ReachesSurvivor, Codec.ReadFields, Codec.FieldsBytes, Codec.FieldsOf, Memtable, Survivors;
    var st, f, out := Compacting(ops), Table(ops), File(6, 1, []);
    var input := f.entries;
    v' := EmptyVersion()[1 := [out]];
    HoldsAll(ops);
    OneTableReplaced(ops, out, v');
    OnlyTable(st.version, 0, f);
    PrefixSurvives(st.version, 0, input, |ops|, n);
    RecordOfNothing(ops, bytes);
    CompactionRecordReadable(st, input, n, 1, EmptyOutputRecord(ops, bytes), bytes);
    CompactionNeedsASurvivor(st, input, n, 1, v');
  }

  lemma RecordOfNothing(ops: seq<Op>, bytes: IKey -> Bytes)
    requires |ops| < MAX_SEQUENCE && forall k :: 0 < |bytes(k)| < WORD
    ensures Encodes(EmptyOutputRecord(ops, bytes), ReplaceEdit(4, 7, |ops|, 0, [Table(ops)], [], File(6, 1, [])), bytes)
  {
    hide Memtable;
    var f, r := Table(ops), EmptyOutputRecord(ops, bytes);
    var e := ReplaceEdit(4, 7, |ops|, 0, [f], [], File(6, 1, []));
    assert (0, 5) in e.deleted by { assert f in [f] && f.number == 5; }
    assert forall p :: p in e.deleted ==> p == (0, 5);
    assert Codec.Pair(0, 5) in r.deleted;
    RecordFits(ops, bytes);
  }

  lemma RecordFits(ops: seq<Op>, bytes: IKey -> Bytes)
    requires |ops| < MAX_SEQUENCE && forall k :: 0 < |bytes(k)| < WORD
    ensures var r := EmptyOutputRecord(ops, bytes);
            Codec.WellFormed(r) && forall i :: 0 <= i < |Codec.FieldsOf(r)| ==> Codec.Fits(Codec.FieldsOf(r)[i])
  {
    hide Memtable;
    var r := EmptyOutputRecord(ops, bytes);
    assert Codec.Scalars(r) == [Codec.LogNumber(4), Codec.PrevLogNumber(0), Codec.NextFileNumber(7), Codec.LastSequence(|ops|)];
    assert Codec.Deletions(r.deleted) == [Codec.DeletedFile(0, 5)];
  }
}
