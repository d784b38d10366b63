/** Whole runs, seen by clients: what they wrote, what was acknowledged, and what their snapshots show. */
module Clients {
  import opened Format
  import opened VersionedMap
  import opened Files
  import opened Selection
  import opened Versions
  import opened Manifest
  import opened VersionSteps
  import opened History
  import opened Store
  import opened StoreInvariant
  import opened StoreTheorems

  // ---------------------------------------------------------------------------------------------
  // Writes

  function OpsOf(a: Action): seq<Op> {
    if a.Append? then a.ops else []
  }

  /** The operations of all groups that were logged in the first `n` steps, in order. */
  function Written(actions: seq<Action>, n: nat): seq<Op>
    requires n <= |actions|
  {
    if n == 0 then [] else Written(actions, n - 1) + OpsOf(actions[n - 1])
  }

  lemma {:induction false} WrittenGrows(actions: seq<Action>, i: nat, j: nat)
    requires i <= j <= |actions|
    ensures Written(actions, i) <= Written(actions, j)
  {
    if i < j {
      WrittenGrows(actions, i, j - 1);
    }
  }

  /** The history is what was written: every operation once, in order, under the number of its place. */
  lemma {:induction false} HistoryIsWritten(states: seq<State>, actions: seq<Action>, n: nat)
    requires Run(states, actions) && n <= |actions|
    ensures states[n].hist == Number(Written(actions, n), 1)
  {
    hide Next, OpsOf, Number;
    if n == 0 {
      NothingNumbered();
    } else {
      HistoryIsWritten(states, actions, n - 1);
      LoggedStep(states[n - 1], actions[n - 1], states[n]);
      NumberJoins(Written(actions, n - 1), OpsOf(actions[n - 1]));
    }
  }

  lemma NothingNumbered()
    ensures Number([], 1) == []
  {
  }

  lemma NumberJoins(a: seq<Op>, b: seq<Op>)
    ensures Number(a + b, 1) == Number(a, 1) + Number(b, |a| + 1)
  {
  }

  lemma LoggedStep(st: State, a: Action, st': State)
    requires Next(st, a, st')
    ensures st'.hist == st.hist + Number(OpsOf(a), |st.hist| + 1)
  {
    assert !a.Append? ==> st.hist + [] == st.hist;
  }

  /** When the writers of a group return, all that was logged until then is acknowledged and visible, and it
      stays so for the rest of the run, crashes included. */
  lemma AcknowledgedStays(states: seq<State>, actions: seq<Action>, p: nat, n: nat)
    requires Run(states, actions) && p < n <= |actions| && actions[p].Publish?
    ensures |Written(actions, p)| <= states[n].acked <= states[n].lastSeq
  {
    hide Inv;
    HistoryIsWritten(states, actions, p);
    assert Next(states[p], actions[p], states[p + 1]);
    HistoryOnlyGrows(states, actions, p + 1, n);
    RunKeepsInv(states, actions, n);
    CountersOf(states[n]);
  }

  lemma CountersOf(st: State)
    requires Inv(st)
    ensures CountersOk(st) && st.logs != [] && MemLog(st) in st.mems && (st.imm.Some? ==> st.imm.value in st.mems)
  {
  }

  /** Read your writes: an operation of a group logged at step `i`, whose writers have returned by step `n`, is
      in what every later read of its key goes by, under a number that read covers. */
  lemma ReadYourWrites(states: seq<State>, actions: seq<Action>, i: nat, x: nat, p: nat, n: nat)
    requires Run(states, actions) && i < p < n <= |actions| && actions[i].Append? && x < |actions[i].ops| && actions[p].Publish?
    ensures var st, op := states[n], actions[i].ops[x];
            && Inv(st) && st.logs != [] && MemLog(st) in st.mems && (st.imm.Some? ==> st.imm.value in st.mems)
            && Read(Sources(MemOf(st), ImmOf(st), st.version), op.user, st.lastSeq) == Read(Spec(st), op.user, st.lastSeq)
            && exists e :: e in Spec(st) && e.key.user == op.user && e.key.kind == op.kind && e.value == op.value && e.key.seqno <= st.acked
                           && st.acked <= st.lastSeq
  {
    hide Inv, Sources, Read, Next, Written, Spec;
    var st, op := states[n], actions[i].ops[x];
    LatestReadSeesAcknowledged(states, actions, n, op.user);
    CountersOf(st);
    AcknowledgedStays(states, actions, p, n);
    WrittenGrows(actions, i + 1, p);
    var e := WrittenEntry(states, actions, i, x, n);
  }

  lemma WrittenEntry(states: seq<State>, actions: seq<Action>, i: nat, x: nat, n: nat) returns (e: Entry)
    requires Run(states, actions) && i < n <= |actions| < |states| && actions[i].Append? && x < |actions[i].ops|
    ensures var op := actions[i].ops[x]; e.key.user == op.user && e.key.kind == op.kind && e.value == op.value
    ensures e in Spec(states[n]) && e.key.seqno <= |Written(actions, i + 1)|
  {
    hide Run, Written;
    HistoryIsWritten(states, actions, n);
    WrittenAt(actions, i, x, n);
    var at := |Written(actions, i)| + x;
    e := states[n].hist[at];
  }

  lemma WrittenAt(actions: seq<Action>, i: nat, x: nat, n: nat)
    requires i < n <= |actions| && actions[i].Append? && x < |actions[i].ops|
    ensures var at := |Written(actions, i)| + x;
            at < |Written(actions, i + 1)| <= |Written(actions, n)| && Written(actions, n)[at] == actions[i].ops[x]
  {
    hide Written;
    WrittenStep(actions, i);
    WrittenGrows(actions, i + 1, n);
    assert (Written(actions, i) + actions[i].ops)[|Written(actions, i)| + x] == actions[i].ops[x];
  }

  lemma WrittenStep(actions: seq<Action>, i: nat)
    requires i < |actions| && actions[i].Append?
    ensures Written(actions, i + 1) == Written(actions, i) + actions[i].ops
  {
  }

  // ---------------------------------------------------------------------------------------------
  // Snapshots

  /** The steps at which the snapshots still held were taken, oldest first. */
  function Held(actions: seq<Action>, n: nat): seq<nat>
    requires n <= |actions|
  {
    if n == 0 then [] else
      var held := Held(actions, n - 1);
      match actions[n - 1]
      case TakeSnapshot => held + [n - 1]
      case ReleaseSnapshot(i) => if i < |held| then held[..i] + held[i + 1..] else held
      case CrashAndRecover(_) => []
      case _ => held
  }

  lemma {:induction false} HeldAre(actions: seq<Action>, n: nat, x: nat)
    requires n <= |actions| && x < |Held(actions, n)|
    ensures var t := Held(actions, n)[x]; t < n && actions[t].TakeSnapshot? && NoCrash(actions, t, n)
  {
    var held := Held(actions, n - 1);
    if actions[n - 1].ReleaseSnapshot? && actions[n - 1].index < |held| && x >= actions[n - 1].index {
      HeldAre(actions, n - 1, x + 1);
    } else if x < |held| {
      HeldAre(actions, n - 1, x);
    }
  }

  /** The list of snapshots is, at every step of every run, the sequence numbers that were published when the
      snapshots still held were taken: none missing, none left over. */
  lemma {:induction false} SnapshotsAreHeld(states: seq<State>, actions: seq<Action>, n: nat)
    requires Run(states, actions) && n <= |actions|
    ensures |states[n].snapshots| == |Held(actions, n)|
    ensures forall x :: 0 <= x < |Held(actions, n)| ==> Held(actions, n)[x] < n && states[n].snapshots[x] == states[Held(actions, n)[x]].lastSeq
  {
    hide Next;
    forall x | 0 <= x < |Held(actions, n)| ensures Held(actions, n)[x] < n {
      HeldAre(actions, n, x);
    }
    if n > 0 {
      SnapshotsAreHeld(states, actions, n - 1);
      SnapshotStep(states[n - 1], actions[n - 1], states[n]);
    }
  }

  lemma SnapshotStep(st: State, a: Action, st': State)
    requires Next(st, a, st')
    ensures match a
            case TakeSnapshot => st'.snapshots == st.snapshots + [st.lastSeq]
            case ReleaseSnapshot(i) => i < |st.snapshots| && st'.snapshots == st.snapshots[..i] + st.snapshots[i + 1..]
            case CrashAndRecover(_) => st'.snapshots == []
            case _ => st'.snapshots == st.snapshots
  {
  }

  /** A snapshot taken at step `t` and still held at step `n` shows the store as it was at step `t`: every
      operation acknowledged by then, and none logged later. */
  method GetAtSnapshot(ghost states: seq<State>, ghost actions: seq<Action>, ghost n: nat, st: State, x: nat, k: UserKey)
    returns (r: Option<Value>)
    requires Run(states, actions) && n <= |actions| && st == states[n] && x < |Held(actions, n)|
    ensures var t := Held(actions, n)[x];
            && t < n && actions[t].TakeSnapshot? && states[t].acked <= states[t].lastSeq
            && r == Read(Spec(states[t]), k, states[t].lastSeq)
  {
    hide Inv, Read;
    ghost var t := Held(actions, n)[x];
    HeldAre(actions, n, x);
    SnapshotsAreHeld(states, actions, n);
    RunKeepsInv(states, actions, n);
    RunKeepsInv(states, actions, t);
    CountersOf(states[t]);
    r := GetFromStore(st, k, Some(st.snapshots[x]));
    HistoryOnlyGrows(states, actions, t, n);
    EarlierHistory(states[t], st, k, states[t].lastSeq);
  }

  /** What was logged after a sequence number does not show at it. */
  lemma EarlierHistory(before: State, st: State, k: UserKey, s: nat)
    requires Inv(before) && Inv(st) && before.hist <= st.hist && s <= |before.hist|
    ensures Read(Spec(st), k, s) == Read(Spec(before), k, s)
  {
    hide VersionOk, Listed, ReadsOk, MemsOk, LogsOk, FileNumbersOk, BackgroundOk, SnapshotsOk;
    var more := st.hist[|before.hist|..];
    assert st.hist == before.hist + more;
    BetweenPrefix(before.hist, more, 0, |before.hist|);
    ReadPrefix(st.hist, |before.hist|, k, s);
  }

  /** A compaction goes by the oldest snapshot held when it starts, or by the last published sequence number
      when none is: as much as it may drop, and no more. */
  lemma CompactionGoesByOldest(states: seq<State>, actions: seq<Action>, n: nat)
    requires Run(states, actions) && n < |actions| && actions[n].CompactStart?
    ensures states[n + 1].bg.Compacting?
    ensures var s, held := states[n + 1].bg.snapshot, Held(actions, n);
            && s <= states[n].lastSeq && (held == [] ==> s == states[n].lastSeq)
            && (forall x :: 0 <= x < |held| ==> held[x] < n && s <= states[held[x]].lastSeq)
            && (held != [] ==> exists x :: 0 <= x < |held| && held[x] < n && s == states[held[x]].lastSeq)
  {
    hide VersionOk, Listed, ReadsOk, MemsOk, LogsOk, FileNumbersOk, BackgroundOk, HistOk;
    RunKeepsInv(states, actions, n);
    SnapshotsAreHeld(states, actions, n);
    assert Next(states[n], actions[n], states[n + 1]);
  }

  // ---------------------------------------------------------------------------------------------
  // Where entries go

  /** A full memtable becomes the immutable one, and a new one takes its place. */
  lemma SwitchMoves(st: State, st': State)
    requires Inv(st) && SwitchStep(st, st')
    ensures Inv(st') && MemOf(st') == [] && ImmOf(st') == Some(MemOf(st)) && st'.version == st.version
  {
    hide VersionOk, Listed, ReadsOk;
    SwitchKeeps(st, st');
    assert st.nextFile !in st.mems;
  }

  /** A flush takes the immutable memtable into the tables, entry for entry, and leaves recovery with the log of
      the current memtable only. */
  lemma FlushMoves(st: State, level: nat, size: nat, st': State)
    requires Inv(st) && FlushInstallStep(st, level, size, st')
    ensures Inv(st') && MemOf(st') == MemOf(st) && ImmOf(st') == None
    ensures VersionContents(st'.version) == VersionContents(st.version) + ImmContents(ImmOf(st))
    ensures LogTail(st'.logs, st'.logNumber) == st'.logs[|st'.logs| - 1].ops
  {
    hide VersionOk, Listed, FlushLevel, VersionAfter, Newer, FileOk, LogTail, Ascending, VersionContents;
    FlushInstallKeeps(st, level, size, st');
    var imm := st.mems[st.imm.value];
    var f := File(st.bg.number, size, imm);
    StretchIsFile(imm, st.hist, st.flushed, st.memStart, f);
    LaterIsNewer(st.hist, 0, st.flushed, st.memStart, Contents(imm), VersionContents(st.version));
    NumbersUnused(st, f.number);
    FlushedVersion(st.version, MemLog(st), st.nextFile, st.lastSeq, level, f, st'.version);
  }
}
