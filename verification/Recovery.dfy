/** The recovery loop over the log files, against the function the store's crash step uses. */
module Recovery {
  import opened Format
  import opened Files
  import opened History
  import opened Store

  /** The largest sequence number among some operations. */
  function MaxSequence(es: seq<Entry>): nat {
    if es == [] then 0
    else
      var before, last := MaxSequence(es[..|es| - 1]), es[|es| - 1].key.seqno;
      if last > before then last else before
  }

  /** Insert the operations of one log into a new memtable, keeping track of the largest number seen. */
  method ReplayLog(ops: seq<Entry>, seen: nat, ghost before: seq<Entry>) returns (mem: seq<Entry>, maxSequence: nat)
    requires seen == MaxSequence(before)
    ensures mem == Memtable(ops) && maxSequence == MaxSequence(before + ops)
  {
    hide Memtable, InsertEntry, MaxSequence;
    mem, maxSequence := [], seen;
    NothingReplayed(before, ops);
    for i := 0 to |ops|
      invariant mem == Memtable(ops[..i]) && maxSequence == MaxSequence(before + ops[..i])
    {
      OneReplayed(before, ops, i);
      mem := InsertEntry(mem, ops[i]);
      if ops[i].key.seqno > maxSequence {
        maxSequence := ops[i].key.seqno;
      }
    }
    assert ops[..|ops|] == ops;
  }

  lemma NothingReplayed(before: seq<Entry>, ops: seq<Entry>)
    ensures Memtable(ops[..0]) == [] && before + ops[..0] == before
  {
  }

  lemma OneReplayed(before: seq<Entry>, ops: seq<Entry>, i: nat)
    requires i < |ops|
    ensures Memtable(ops[..i + 1]) == InsertEntry(Memtable(ops[..i]), ops[i])
    ensures var seen := MaxSequence(before + ops[..i]);
            MaxSequence(before + ops[..i + 1]) == if ops[i].key.seqno > seen then ops[i].key.seqno else seen
  {
    assert ops[..i + 1][..i] == ops[..i];
    assert (before + ops[..i + 1])[..|before| + i] == before + ops[..i];
  }

  /** Replay the logs the manifest still counts on, in ascending order, into one level-0 table each. */
  method RecoverLogFiles(logs: seq<Log>, from: nat, sizes: seq<nat>, next: nat)
    returns (files: seq<File>, at: nat, maxSequence: nat)
    requires |sizes| == |logs|
    ensures (files, at) == RecoverLogs(logs, from, sizes, next)
    ensures maxSequence == MaxSequence(LogTail(logs, from))
  {
    files, at, maxSequence := [], next, 0;
    for i := 0 to |logs|
      invariant (files, at) == RecoverLogs(logs[..i], from, sizes[..i], next)
      invariant maxSequence == MaxSequence(LogTail(logs[..i], from))
    {
      hide Memtable, MaxSequence;
      assert logs[..i + 1][..i] == logs[..i] && sizes[..i + 1][..i] == sizes[..i];
      var log := logs[i];
      ghost var tail := LogTail(logs[..i], from);
      if log.number >= from {
        var mem;
        mem, maxSequence := ReplayLog(log.ops, maxSequence, tail);
        if |log.ops| > 0 {
          files := files + [File(at, sizes[i], mem)];
          at := at + 1;
        }
        at := Past(at, log.number);
      } else {
        assert tail + [] == tail;
      }
    }
    assert logs[..|logs|] == logs && sizes[..|sizes|] == sizes;
  }

  /** The largest number replayed, or the manifest's if that is larger, is the recovered sequence number. */
  lemma RecoveredIsMax(st: State)
    requires HistOk(st.hist) && LogsOk(st)
    ensures var m := MaxSequence(LogTail(st.logs, st.logNumber));
            RecoveredSequence(st) == if st.manifestSeq < m then m else st.manifestSeq
  {
    var tail := LogTail(st.logs, st.logNumber);
    AscendingMax(st.hist, st.flushed, |st.hist|);
    assert st.hist[st.flushed..|st.hist|] == tail;
  }

  lemma {:induction false} AscendingMax(hist: seq<Entry>, a: nat, b: nat)
    requires HistOk(hist) && a <= b <= |hist|
    ensures MaxSequence(hist[a..b]) == if a == b then 0 else hist[b - 1].key.seqno
  {
    if a < b {
      AscendingMax(hist, a, b - 1);
      assert hist[a..b][..b - 1 - a] == hist[a..b - 1];
    }
  }
}
