/** From the bytes of a log file to a memtable: records, batches, numbered operations. */
module LogReplay {
  import opened Format
  import opened Coding
  import opened History
  import opened LogFormat
  import opened LogReader
  import opened LogTheorems
  import opened WriteBatch

  /** How strings of bytes stand for the user keys and values of the store. */
  datatype Naming = Naming(rank: Bytes -> UserKey, text: Bytes -> Value)

  function OpOf(n: Naming, op: BatchOp): Op {
    match op
    case BatchPut(key, value) => Op(n.rank(key), Put, n.text(value))
    case BatchDelete(key) => Op(n.rank(key), Deletion, "")
  }

  function OpsOf(n: Naming, ops: seq<BatchOp>): (r: seq<Op>)
    ensures |r| == |ops| && forall i :: 0 <= i < |ops| ==> r[i] == OpOf(n, ops[i])
  {
    seq(|ops|, i requires 0 <= i < |ops| => OpOf(n, ops[i]))
  }

  // ---------------------------------------------------------------------------------------------
  // What recovery makes of records

  /** What `InsertInto` puts into the memtable, whether or not the batch turns out to be sound. */
  function Inserted(n: Naming, record: Bytes): seq<Entry> {
    if |record| < HEADER then [] else Number(OpsOf(n, ReadOps(record[HEADER..]).0), DecodeFixed(record[..8]))
  }

  predicate Sound(record: Bytes) {
    && |record| >= HEADER
    && var ops := ReadOps(record[HEADER..]);
       ops.1 && |ops.0| == DecodeFixed32(record[8..HEADER])
  }

  /** The number of the last operation, computed in 64 bits. */
  function LastNumber(record: Bytes): nat
    requires |record| >= HEADER
  {
    (DecodeFixed(record[..8]) + DecodeFixed32(record[8..HEADER]) + DOUBLE_WORD - 1) % DOUBLE_WORD
  }

  /** The entries inserted, the operations counted, and the largest number seen. */
  datatype Replay = Replay(entries: seq<Entry>, count: nat, maxSequence: nat)

  function Replayed(n: Naming, records: seq<Bytes>, seen: nat): Replay {
    if records == [] then Replay([], 0, seen) else
      var k := |records| - 1;
      ReplayOne(n, Replayed(n, records[..k], seen), records[k])
  }

  function ReplayOne(n: Naming, before: Replay, record: Bytes): Replay {
    if !Sound(record) then before.(entries := before.entries + Inserted(n, record))
    else
      var last := LastNumber(record);
      Replay(before.entries + Inserted(n, record), before.count + DecodeFixed32(record[8..HEADER]),
             if last > before.maxSequence then last else before.maxSequence)
  }

  /** `RecoverLogFile` up to the building of the table; `seen` is the largest number of the logs before. */
  method RecoverLogFile(n: Naming, file: Bytes, seen: nat) returns (mem: seq<Entry>, count: nat, maxSequence: nat)
    ensures var spec := Replayed(n, ReadAll(file, 0, true).0, seen);
            mem == Memtable(spec.entries) && count == spec.count && maxSequence == spec.maxSequence
  {
    hide NextRecord, Memtable, ReplayOne, BlockEnd;
    var reader := new Reader(file, true);
    mem, count, maxSequence := [], 0, seen;
    EmptyMemtable();
    ghost var records: seq<Bytes> := [];
    ghost var all := ReadAll(file, 0, true).0;
    var more := true;
    while more
      invariant reader.Valid() && fresh(reader) && reader.file == file && reader.checksum && reader.At() <= |file|
      invariant all == records + if more then ReadAll(file, reader.At(), true).0 else []
      invariant var spec := Replayed(n, records, seen);
                mem == Memtable(spec.entries) && count == spec.count && maxSequence == spec.maxSequence
      decreases more, |file| - reader.At()
    {
      ghost var spec := Replayed(n, records, seen);
      ghost var pos := reader.At();
      ReadOnce(file, pos, records);
      var record := reader.ReadRecord();
      more := record.Some?;
      if more {
        ReplayNext(n, records, record.value, seen);
        mem, count, maxSequence := ReplayRecord(n, record.value, mem, count, maxSequence, spec);
        records := records + [record.value];
      }
    }
    assert records + [] == records;
  }

  /** One record: too short to be a batch, or a batch, of which as much is inserted as can be read. */
  method ReplayRecord(n: Naming, record: Bytes, mem: seq<Entry>, count: nat, seen: nat, ghost before: Replay)
    returns (mem': seq<Entry>, count': nat, seen': nat)
    requires mem == Memtable(before.entries) && count == before.count && seen == before.maxSequence
    ensures var after := ReplayOne(n, before, record);
            mem' == Memtable(after.entries) && count' == after.count && seen' == after.maxSequence
  {
    hide Memtable, ReadOps, DecodeFixed32, DecodeFixed, LastNumber;
    mem', count', seen' := mem, count, seen;
    assert before.entries + [] == before.entries;
    if |record| < HEADER {
      return;
    }
    var batch := new WriteBatch();
    batch.SetContents(record);
    var handled, ok := batch.Iterate();
    var first := batch.Sequence();
    mem' := InsertInto(n, handled, first, mem, before.entries);
    if ok {
      count' := count + DecodeFixed32(record[8..HEADER]);
      var last := LastNumber(record);
      if last > seen {
        seen' := last;
      }
    }
  }

  /** The handler of `InsertInto`: each operation takes the next number. */
  method InsertInto(n: Naming, ops: seq<BatchOp>, first: nat, mem: seq<Entry>, ghost before: seq<Entry>) returns (mem': seq<Entry>)
    requires mem == Memtable(before)
    ensures mem' == Memtable(before + Number(OpsOf(n, ops), first))
  {
    hide Memtable, InsertEntry, OpOf;
    mem' := mem;
    var sequence := first;
    ghost var es := Number(OpsOf(n, ops), first);
    assert before + es[..0] == before;
    for i := 0 to |ops|
      invariant sequence == first + i && mem' == Memtable(before + es[..i])
    {
      var op := OpOf(n, ops[i]);
      InsertedOne(before, es, i);
      mem' := InsertEntry(mem', Entry(IKey(op.user, sequence, op.kind), op.value));
      sequence := sequence + 1;
    }
    assert es[..|ops|] == es;
  }

  lemma InsertedOne(before: seq<Entry>, es: seq<Entry>, i: nat)
    requires i < |es|
    ensures Memtable(before + es[..i + 1]) == InsertEntry(Memtable(before + es[..i]), es[i])
  {
    var all := before + es[..i + 1];
    assert all[..|all| - 1] == before + es[..i] && all[|all| - 1] == es[i];
  }

  lemma EmptyMemtable()
    ensures Memtable([]) == []
  {
  }

  lemma ReadOnce(file: Bytes, pos: nat, records: seq<Bytes>)
    requires pos <= |file|
    ensures var r := NextRecord(file, pos, true, None);
            && (r.record.None? ==> ReadAll(file, pos, true).0 == [])
            && (r.record.Some? ==> records + ReadAll(file, pos, true).0
                                   == records + [r.record.value] + ReadAll(file, r.next, true).0)
  {
    hide NextRecord;
  }

  lemma ReplayNext(n: Naming, records: seq<Bytes>, record: Bytes, seen: nat)
    ensures Replayed(n, records + [record], seen) == ReplayOne(n, Replayed(n, records, seen), record)
  {
    hide ReplayOne;
    assert (records + [record])[..|records|] == records;
  }

  // ---------------------------------------------------------------------------------------------
  // What was written is what is replayed

  datatype Batch = Batch(sequence: nat, ops: seq<BatchOp>)

  function BatchBytes(b: Batch): Bytes {
    Fixed(b.sequence, 8) + Fixed(|b.ops|, 4) + OpsBytes(b.ops)
  }

  predicate BatchFits(b: Batch) {
    0 < b.sequence && b.sequence + |b.ops| < DOUBLE_WORD && |b.ops| < WORD && forall i :: 0 <= i < |b.ops| ==> OpFits(b.ops[i])
  }

  /** The batches of a log, in the order in which they were written. */
  function BatchRecords(batches: seq<Batch>): seq<Bytes> {
    seq(|batches|, i requires 0 <= i < |batches| => BatchBytes(batches[i]))
  }

  function AllOps(batches: seq<Batch>): seq<BatchOp> {
    if batches == [] then [] else AllOps(batches[..|batches| - 1]) + batches[|batches| - 1].ops
  }

  /** Each batch is numbered on from the one before. */
  predicate Chained(batches: seq<Batch>, first: nat) {
    forall i :: 0 <= i < |batches| ==> BatchFits(batches[i]) && batches[i].sequence == first + |AllOps(batches[..i])|
  }

  lemma BatchReadsBack(n: Naming, b: Batch)
    requires BatchFits(b)
    ensures var record := BatchBytes(b);
            && Sound(record) && Inserted(n, record) == Number(OpsOf(n, b.ops), b.sequence)
            && DecodeFixed32(record[8..HEADER]) == |b.ops| && LastNumber(record) == b.sequence + |b.ops| - 1
  {
    hide Fixed, DecodeFixed, DecodeFixed32, ReadOps, OpsBytes;
    var record := BatchBytes(b);
    assert record[..8] == Fixed(b.sequence, 8) && record[8..HEADER] == Fixed(|b.ops|, 4) && record[HEADER..] == OpsBytes(b.ops);
    Fixed64RoundTrip(b.sequence);
    Fixed32RoundTrip(|b.ops|);
    OpsRoundTrip(b.ops);
  }

  lemma {:induction false} BatchesReplay(n: Naming, batches: seq<Batch>, first: nat)
    requires Chained(batches, first) && 0 < first
    ensures Replayed(n, BatchRecords(batches), 0) ==
            var ops := AllOps(batches);
            Replay(Number(OpsOf(n, ops), first), |ops|, if batches == [] then 0 else first + |ops| - 1)
  {
    hide BatchFits, BatchRecords, BatchBytes, OpsOf, Number, ReplayOne, Chained;
    if batches == [] {
      assert BatchRecords(batches) == [] && Number(OpsOf(n, AllOps(batches)), first) == [] by { NoBatches(n, first); }
    } else {
      var k := |batches| - 1;
      ChainedParts(batches, first, k);
      BatchesReplay(n, batches[..k], first);
      ReplayNext(n, BatchRecords(batches[..k]), BatchBytes(batches[k]), 0);
      ReplayBatch(n, AllOps(batches[..k]), first, if k == 0 then 0 else first + |AllOps(batches[..k])| - 1, batches[k]);
    }
  }

  lemma NoBatches(n: Naming, first: nat)
    ensures BatchRecords([]) == [] && Number(OpsOf(n, AllOps([])), first) == []
  {
  }

  lemma ChainedParts(batches: seq<Batch>, first: nat, k: nat)
    requires Chained(batches, first) && k < |batches|
    ensures Chained(batches[..k], first) && BatchFits(batches[k]) && batches[k].sequence == first + |AllOps(batches[..k])|
    ensures k == |batches| - 1 ==> BatchRecords(batches) == BatchRecords(batches[..k]) + [BatchBytes(batches[k])]
  {
    hide BatchFits, BatchBytes, AllOps;
    assert forall i :: 0 <= i < k ==> batches[..k][..i] == batches[..i];
  }

  /** Replaying one more batch that is numbered on. */
  lemma ReplayBatch(n: Naming, ops: seq<BatchOp>, first: nat, seen: nat, b: Batch)
    requires BatchFits(b) && b.sequence == first + |ops| && seen < b.sequence
    ensures ReplayOne(n, Replay(Number(OpsOf(n, ops), first), |ops|, seen), BatchBytes(b))
            == Replay(Number(OpsOf(n, ops + b.ops), first), |ops + b.ops|, first + |ops + b.ops| - 1)
  {
    hide BatchBytes, Sound, Inserted, LastNumber, Number, OpsOf, DecodeFixed32;
    BatchReadsBack(n, b);
    NumberOn(n, ops, b.ops, first);
  }

  lemma NumberOn(n: Naming, a: seq<BatchOp>, b: seq<BatchOp>, first: nat)
    ensures Number(OpsOf(n, a), first) + Number(OpsOf(n, b), first + |a|) == Number(OpsOf(n, a + b), first)
  {
    hide OpOf;
  }

  /** Cut the log of a chain of batches anywhere: what replay finds is the operations of the batches that lie
      wholly before the cut, every one of them under its own number, and nothing else. */
  lemma CutLogReplays(n: Naming, batches: seq<Batch>, first: nat, cut: nat, whole: nat)
    requires Chained(batches, first) && 0 < first && whole <= |batches|
    requires var records := BatchRecords(batches);
             && |Log(records[..whole])| <= cut <= |Log(records)|
             && (whole < |batches| ==> cut < |Log(records[..whole + 1])|)
    ensures var ops := AllOps(batches[..whole]);
            Replayed(n, ReadAll(Log(BatchRecords(batches))[..cut], 0, true).0, 0)
            == Replay(Number(OpsOf(n, ops), first), |ops|, if whole == 0 then 0 else first + |ops| - 1)
  {
    hide Log, ReadAll, BatchBytes, BatchFits, AllOps, Replayed, OpsOf, Chained;
    var records := BatchRecords(batches);
    assert records[..0] == [];
    EmptyLog();
    PrefixReadsWholeRecords(records, cut, 0, whole, true);
    assert records[0..whole] == BatchRecords(batches[..whole]);
    assert batches[..|batches|] == batches;
    if whole < |batches| {
      ChainedParts(batches, first, whole);
    }
    BatchesReplay(n, batches[..whole], first);
  }

  /** So recovery of a cut log makes the memtable of the whole batches. */
  method RecoverCutLog(n: Naming, file: Bytes, ghost batches: seq<Batch>, ghost first: nat, ghost cut: nat, ghost whole: nat)
    returns (mem: seq<Entry>, count: nat, maxSequence: nat)
    requires Chained(batches, first) && 0 < first && whole <= |batches|
    requires var records := BatchRecords(batches);
             && |Log(records[..whole])| <= cut <= |Log(records)| && file == Log(records)[..cut]
             && (whole < |batches| ==> cut < |Log(records[..whole + 1])|)
    ensures var ops := AllOps(batches[..whole]);
            && mem == Memtable(Number(OpsOf(n, ops), first)) && count == |ops|
            && maxSequence == if whole == 0 then 0 else first + |ops| - 1
  {
    hide Log, ReadAll, BatchRecords, AllOps, Replayed, Memtable, Chained;
    CutLogReplays(n, batches, first, cut, whole);
    mem, count, maxSequence := RecoverLogFile(n, file, 0);
  }

  // ---------------------------------------------------------------------------------------------
  // Records that are no sound batch

  /** A batch whose header counts wrong, or that is followed by something unreadable: its operations are inserted,
      but neither counted nor is their number taken for the last. */
  lemma UnsoundBatch(n: Naming, before: Replay, b: Batch, count: nat, junk: Bytes)
    requires BatchFits(b) && count < WORD && (junk == [] ==> count != |b.ops|) && (junk != [] ==> ReadOp(junk).None?)
    ensures ReplayOne(n, before, Fixed(b.sequence, 8) + Fixed(count, 4) + (OpsBytes(b.ops) + junk))
            == before.(entries := before.entries + Number(OpsOf(n, b.ops), b.sequence))
  {
    hide Fixed, DecodeFixed, DecodeFixed32, ReadOps, OpsBytes, ReadOp, Number;
    var record := Fixed(b.sequence, 8) + Fixed(count, 4) + (OpsBytes(b.ops) + junk);
    assert record[..8] == Fixed(b.sequence, 8) && record[8..HEADER] == Fixed(count, 4) && record[HEADER..] == OpsBytes(b.ops) + junk;
    Fixed64RoundTrip(b.sequence);
    Fixed32RoundTrip(count);
    if junk == [] {
      assert OpsBytes(b.ops) + junk == OpsBytes(b.ops);
      OpsRoundTrip(b.ops);
    } else {
      JunkAfterOps(b.ops, junk);
    }
  }

  /** A record too short for a header is passed over. */
  lemma ShortRecord(n: Naming, before: Replay, record: Bytes)
    requires |record| < HEADER
    ensures ReplayOne(n, before, record) == before
  {
    assert before.entries + [] == before.entries;
  }
}
