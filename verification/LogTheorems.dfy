/** What the writer wrote, the reader reads: on the whole log and on every prefix of it. */
module LogTheorems {
  import opened Format
  import opened Coding
  import opened Crc32c
  import opened LogFormat
  import opened LogReader

  /** From `pos` on, the file is `bytes`, as far as the file goes. */
  ghost predicate Agrees(file: Bytes, pos: nat, bytes: Bytes) {
    forall k :: 0 <= k < |bytes| && pos + k < |file| ==> file[pos + k] == bytes[k]
  }

  lemma AgreesPart(file: Bytes, pos: nat, bytes: Bytes, from: nat, part: Bytes)
    requires Agrees(file, pos, bytes) && from + |part| <= |bytes| && bytes[from..from + |part|] == part
    ensures Agrees(file, pos + from, part)
  {
    forall k | 0 <= k < |part| && pos + from + k < |file| ensures file[pos + from + k] == part[k] {
      assert bytes[from..from + |part|][k] == bytes[from + k];
      assert file[pos + (from + k)] == bytes[from + k];
    }
  }

  /** The header says what it was written to say, and the checksum holds. */
  lemma ParseFragment(kind: Byte, payload: Bytes, after: Bytes, cutShort: bool, checksum: bool)
    requires |payload| < 65536 && kind != ZERO_TYPE
    ensures Parse(Fragment(kind, payload) + after, cutShort, checksum) == Piece(kind, payload, HEADER_SIZE + |payload|)
  {
    hide Step, Fold, Mask, Unmask, Fixed, DecodeFixed32, Checksum;
    var crc := Checksum([kind] + payload);
    var buffer := Fragment(kind, payload) + after;
    assert buffer[..4] == Fixed(Mask(crc), 4);
    Fixed32RoundTrip(Mask(crc));
    UnmaskMask(crc);
    assert buffer[4] == |payload| % 256 && buffer[5] == |payload| / 256 && buffer[6] == kind;
    assert buffer[6..7 + |payload|] == [kind] + payload;
    assert buffer[7..7 + |payload|] == payload;
  }

  /** A fragment that is cut off, wherever the cut falls, is the end of the input and not damage. */
  lemma ParseCutFragment(kind: Byte, payload: Bytes, buffer: Bytes, checksum: bool)
    requires |payload| < 65536 && HEADER_SIZE <= |buffer| < HEADER_SIZE + |payload|
    requires Agrees(buffer, 0, Fragment(kind, payload))
    ensures Parse(buffer, true, checksum) == Eof
  {
    hide Step, Fold, Mask, Unmask, Fixed, DecodeFixed32, Checksum;
    var frag := Fragment(kind, payload);
    assert buffer[0 + 4] == frag[4] && buffer[0 + 5] == frag[5];
    assert frag[4] == |payload| % 256 && frag[5] == |payload| / 256;
  }

  /** Reading a fragment that starts in its block at `pos`. */
  lemma ReadFragment(file: Bytes, pos: nat, kind: Byte, payload: Bytes, checksum: bool)
    requires pos <= |file| && kind != ZERO_TYPE && pos % BLOCK_SIZE + HEADER_SIZE + |payload| <= BLOCK_SIZE
    requires Agrees(file, pos, Fragment(kind, payload))
    ensures ReadPhysical(file, pos, checksum) ==
            if pos + HEADER_SIZE + |payload| <= |file| then Piece(kind, payload, pos + HEADER_SIZE + |payload|) else Eof
  {
    hide Fragment, Parse;
    var end, frag, size := BufferEnd(file, pos), Fragment(kind, payload), HEADER_SIZE + |payload|;
    assert pos + size <= BlockEnd(pos);
    var buffer := file[pos..end];
    if pos + size <= |file| {
      assert buffer[..size] == frag;
      assert buffer == frag + buffer[size..];
      ParseFragment(kind, payload, buffer[size..], |file| < BlockEnd(pos), checksum);
    } else if end - pos >= HEADER_SIZE {
      assert Agrees(buffer, 0, frag);
      ParseCutFragment(kind, payload, buffer, checksum);
    }
  }

  /** Reading a fragment with the trailer before it. */
  lemma ReadAfterGap(file: Bytes, pos: nat, offset: nat, kind: Byte, payload: Bytes, checksum: bool)
    requires pos <= |file| && offset <= BLOCK_SIZE && pos % BLOCK_SIZE == offset % BLOCK_SIZE
    requires kind != ZERO_TYPE && Start(offset) + HEADER_SIZE + |payload| <= BLOCK_SIZE
    requires Agrees(file, pos + Gap(offset), Fragment(kind, payload))
    ensures var next := pos + Gap(offset) + HEADER_SIZE + |payload|;
            ReadPhysical(file, pos, checksum) == if next <= |file| then Piece(kind, payload, next) else Eof
  {
    hide Fragment, Parse, ReadPhysical, BlockEnd;
    SameOffset(pos, offset, Gap(offset));
    if Gap(offset) > 0 {
      SkipTrailer(file, pos, checksum);
    }
    if pos + Gap(offset) <= |file| {
      ReadFragment(file, pos + Gap(offset), kind, payload, checksum);
    }
  }

  lemma SkipTrailer(file: Bytes, pos: nat, checksum: bool)
    requires pos <= |file| && BLOCK_SIZE - pos % BLOCK_SIZE < HEADER_SIZE
    ensures var end := pos + BLOCK_SIZE - pos % BLOCK_SIZE;
            ReadPhysical(file, pos, checksum) == if end <= |file| then ReadPhysical(file, end, checksum) else Eof
  {
    hide Parse;
  }

  /** The first fragment of an encoded record, and what is then left to agree with the file. */
  lemma ReadFirst(file: Bytes, pos: nat, offset: nat, data: Bytes, begin: bool, checksum: bool)
    requires pos <= |file| && offset <= BLOCK_SIZE && pos % BLOCK_SIZE == offset % BLOCK_SIZE
    requires Agrees(file, pos, Encoded(offset, data, begin))
    ensures var n := Taken(offset, data);
            var next := pos + Gap(offset) + HEADER_SIZE + n;
            && ReadPhysical(file, pos, checksum)
               == (if next <= |file| then Piece(FragmentType(begin, n == |data|), data[..n], next) else Eof)
            && pos + |Encoded(offset, data, begin)| == next + (if n == |data| then 0 else |Encoded(BLOCK_SIZE, data[n..], false)|)
            && (n < |data| ==> next % BLOCK_SIZE == 0 && Agrees(file, next, Encoded(BLOCK_SIZE, data[n..], false)))
  {
    hide Fragment, ReadPhysical, Encoded;
    var n, gap := Taken(offset, data), Gap(offset);
    var kind := FragmentType(begin, n == |data|);
    EncodedParts(offset, data, begin);
    AgreesPart(file, pos, Encoded(offset, data, begin), gap, Fragment(kind, data[..n]));
    ReadAfterGap(file, pos, offset, kind, data[..n], checksum);
    if n < |data| {
      AgreesPart(file, pos, Encoded(offset, data, begin), gap + HEADER_SIZE + n, Encoded(BLOCK_SIZE, data[n..], false));
      SameOffset(pos, offset, gap + HEADER_SIZE + n);
    }
  }

  /** Reading back one record, or what is left of one. */
  lemma {:induction false} ReadEncoded(file: Bytes, pos: nat, offset: nat, data: Bytes, scratch: Option<Bytes>, checksum: bool)
    requires pos <= |file| && offset <= BLOCK_SIZE && pos % BLOCK_SIZE == offset % BLOCK_SIZE
    requires Agrees(file, pos, Encoded(offset, data, scratch.None?))
    ensures var end := pos + |Encoded(offset, data, scratch.None?)|;
            NextRecord(file, pos, checksum, scratch) ==
            if end <= |file| then Reading(Some(Gathered(scratch) + data), end, []) else Reading(None, |file|, [])
    decreases |data|, if Start(offset) + HEADER_SIZE == BLOCK_SIZE then 1 else 0
  {
    hide Fragment, ReadPhysical, NextRecord, Encoded, Agrees;
    var n := Taken(offset, data);
    var next := pos + Gap(offset) + HEADER_SIZE + n;
    ReadFirst(file, pos, offset, data, scratch.None?, checksum);
    RecordStep(file, pos, checksum, scratch, data[..n]);
    assert [] + data[..n] == data[..n];
    if next <= |file| && n < |data| {
      var gathered := Gathered(scratch) + data[..n];
      assert Dispatch(FragmentType(scratch.None?, false), data[..n], scratch) == Go(Some(gathered), []);
      ReadEncoded(file, next, BLOCK_SIZE, data[n..], Some(gathered), checksum);
      assert gathered + data[n..] == Gathered(scratch) + data;
    } else if n == |data| {
      assert data[..n] == data;
    }
  }

  function Gathered(scratch: Option<Bytes>): Bytes {
    if scratch.Some? then scratch.value else []
  }

  lemma EncodedParts(offset: nat, data: Bytes, begin: bool)
    requires offset <= BLOCK_SIZE
    ensures var n, gap := Taken(offset, data), Gap(offset);
            var frag := Fragment(FragmentType(begin, n == |data|), data[..n]);
            var rest := if n == |data| then [] else Encoded(BLOCK_SIZE, data[n..], false);
            var enc := Encoded(offset, data, begin);
            && |enc| == gap + |frag| + |rest|
            && enc[gap..gap + |frag|] == frag
            && enc[gap + |frag|..gap + |frag| + |rest|] == rest
  {
    hide Fragment;
  }

  // ---------------------------------------------------------------------------------------------
  // Whole logs

  lemma {:induction false} LogPrefix(records: seq<Bytes>, k: nat)
    requires k <= |records|
    ensures Log(records[..k]) <= Log(records)
  {
    if k == |records| {
      assert records[..k] == records;
    } else {
      LogPrefix(records[..|records| - 1], k);
      assert records[..|records| - 1][..k] == records[..k];
    }
  }

  /** The next record is read from where the ones before it end. */
  lemma ReadNext(records: seq<Bytes>, cut: nat, k: nat, checksum: bool)
    requires k < |records| && |Log(records[..k])| <= cut <= |Log(records)|
    ensures var file, pos, end := Log(records)[..cut], |Log(records[..k])|, |Log(records[..k + 1])|;
            NextRecord(file, pos, checksum, None) ==
            if end <= cut then Reading(Some(records[k]), end, []) else Reading(None, cut, [])
  {
    hide Encoded, NextRecord, Agrees;
    var file, before, upto := Log(records)[..cut], Log(records[..k]), Log(records[..k + 1]);
    LogPrefix(records, k + 1);
    assert records[..k + 1][..k] == records[..k];
    var enc := Encoded(|before| % BLOCK_SIZE, records[k], true);
    assert upto == before + enc;
    PrefixAgrees(Log(records), cut, before, enc);
    ReadEncoded(file, |before|, |before| % BLOCK_SIZE, records[k], None, checksum);
    assert Gathered(None) + records[k] == records[k];
  }

  lemma PrefixAgrees(log: Bytes, cut: nat, before: Bytes, enc: Bytes)
    requires before + enc <= log && cut <= |log|
    ensures Agrees(log[..cut], |before|, enc)
  {
    forall i | 0 <= i < |enc| && |before| + i < cut ensures log[..cut][|before| + i] == enc[i] {
      assert (before + enc)[|before| + i] == enc[i];
    }
  }

  /** On the first `cut` bytes of a log the reader returns exactly the records that lie wholly
      within them, whether or not it checks checksums, and reports no damage. */
  lemma {:induction false} PrefixReadsWholeRecords(records: seq<Bytes>, cut: nat, from: nat, whole: nat, checksum: bool)
    requires from <= whole <= |records| && |Log(records[..whole])| <= cut <= |Log(records)|
    requires whole < |records| ==> cut < |Log(records[..whole + 1])|
    ensures |Log(records[..from])| <= cut
    ensures ReadAll(Log(records)[..cut], |Log(records[..from])|, checksum) == (records[from..whole], [])
    decreases whole - from
  {
    hide Log, NextRecord;
    LogPrefix(records[..whole], from);
    assert records[..whole][..from] == records[..from];
    if from < whole {
      LogPrefix(records[..whole], from + 1);
      assert records[..whole][..from + 1] == records[..from + 1];
      ReadNext(records, cut, from, checksum);
      PrefixReadsWholeRecords(records, cut, from + 1, whole, checksum);
      var rest: seq<nat> := [];
      assert rest + rest == [];
      assert records[from..whole] == [records[from]] + records[from + 1..whole];
    } else if whole < |records| {
      ReadNext(records, cut, whole, checksum);
      assert records[from..whole] == [];
    } else {
      assert records[..whole] == records;
      NothingAtEnd(Log(records)[..cut], checksum);
    }
  }

  lemma NothingAtEnd(file: Bytes, checksum: bool)
    ensures NextRecord(file, |file|, checksum, None) == Reading(None, |file|, [])
  {
    NothingLeft(file, |file|, checksum);
    RecordStep(file, |file|, checksum, None, []);
  }

  /** A whole log reads back as the records written. */
  lemma LogReadsBack(records: seq<Bytes>, checksum: bool)
    ensures ReadAll(Log(records), 0, checksum) == (records, [])
  {
    hide Log;
    assert records[..|records|] == records && records[..0] == [];
    assert Log(records)[..|Log(records)|] == Log(records);
    EmptyLog();
    PrefixReadsWholeRecords(records, |Log(records)|, 0, |records|, checksum);
    assert records[0..|records|] == records;
  }

  lemma EmptyLog()
    ensures Log([]) == []
  {
  }

  // ---------------------------------------------------------------------------------------------
  // Fragments of a type the format does not have

  /** What the reader makes of a sound fragment of an unknown type: it is the code that decides. */
  lemma UnknownFragment(file: Bytes, pos: nat, kind: Byte, payload: Bytes, checksum: bool, scratch: Option<Bytes>)
    requires kind > LAST_TYPE && pos % BLOCK_SIZE + HEADER_SIZE + |payload| <= BLOCK_SIZE
    requires pos + HEADER_SIZE + |payload| <= |file| && Agrees(file, pos, Fragment(kind, payload))
    ensures var next := pos + HEADER_SIZE + |payload|;
            NextRecord(file, pos, checksum, scratch) ==
            if kind as int == EOF_CODE then Reading(None, next, [])
            else Reported(if kind as int != BAD_RECORD_CODE then [|payload| + Size(scratch)]
                          else if scratch.Some? then [|scratch.value|] else [],
                          NextRecord(file, next, checksum, None))
  {
    hide Fragment, ReadPhysical, NextRecord;
    ReadFragment(file, pos, kind, payload, checksum);
    RecordStep(file, pos, checksum, scratch, payload);
    var none: seq<nat> := [];
    assert none + Dispatch(kind, payload, scratch).reports == Dispatch(kind, payload, scratch).reports;
  }

  /** Such a fragment is reported with what it interrupts, and reading goes on behind it, if and only if its
      type is not the code for the end, and is the code for damage only where the two reports are the same. */
  lemma UnknownTypeExact(file: Bytes, pos: nat, kind: Byte, payload: Bytes, checksum: bool, scratch: Option<Bytes>)
    requires kind > LAST_TYPE && pos % BLOCK_SIZE + HEADER_SIZE + |payload| <= BLOCK_SIZE
    requires pos + HEADER_SIZE + |payload| <= |file| && Agrees(file, pos, Fragment(kind, payload))
    ensures NextRecord(file, pos, checksum, scratch)
            == Reported([|payload| + Size(scratch)], NextRecord(file, pos + HEADER_SIZE + |payload|, checksum, None))
            <==> kind as int != EOF_CODE && (kind as int == BAD_RECORD_CODE ==> scratch.Some? && payload == [])
  {
    hide Fragment, NextRecord, Agrees;
    UnknownFragment(file, pos, kind, payload, checksum, scratch);
    var said := NextRecord(file, pos + HEADER_SIZE + |payload|, checksum, None).reports;
    assert ([|payload| + Size(scratch)] + said)[0] == |payload| + Size(scratch);
    assert scratch.Some? ==> ([|scratch.value|] + said)[0] == |scratch.value|;
    assert |[] + said| < |[|payload| + Size(scratch)] + said|;
  }

  /** A fragment of any unknown type before a sound record: the record is read and the fragment reported,
      unless the type is one of the two codes. For the one nothing is said; for the other the record and all
      that follows it are lost as well. */
  lemma CodeHidesRecords(file: Bytes, pos: nat, kind: Byte, payload: Bytes, record: Bytes, checksum: bool)
    requires kind > LAST_TYPE && pos % BLOCK_SIZE + HEADER_SIZE + |payload| <= BLOCK_SIZE && pos <= |file|
    requires var enc := Encoded(pos % BLOCK_SIZE + HEADER_SIZE + |payload|, record, true);
             file[pos..] == Fragment(kind, payload) + enc
    ensures ReadAll(file, pos, checksum) ==
            if kind as int == EOF_CODE then ([], []) else ([record], if kind as int == BAD_RECORD_CODE then [] else [|payload|])
  {
    hide Fragment, NextRecord, Encoded, ReadAll, Agrees;
    var frag, enc := Fragment(kind, payload), Encoded(pos % BLOCK_SIZE + HEADER_SIZE + |payload|, record, true);
    Halves(file, pos, frag, enc);
    UnknownFragment(file, pos, kind, payload, checksum, None);
    LastRecord(file, pos + |frag|, pos % BLOCK_SIZE + |frag|, record, checksum);
    if kind as int == EOF_CODE {
      NoRecord(file, pos, checksum);
    } else {
      var none: seq<nat> := [];
      assert none + none == none && [|payload|] + none == [|payload|];
      OneRecord(file, pos, checksum);
    }
  }

  lemma Halves(file: Bytes, pos: nat, a: Bytes, b: Bytes)
    requires pos <= |file| && file[pos..] == a + b
    ensures |file| == pos + |a| + |b| && Agrees(file, pos, a) && Agrees(file, pos + |a|, b)
  {
    assert forall k :: 0 <= k < |a + b| ==> file[pos + k] == file[pos..][k];
  }

  lemma LastRecord(file: Bytes, pos: nat, offset: nat, record: Bytes, checksum: bool)
    requires pos <= |file| && offset <= BLOCK_SIZE && pos % BLOCK_SIZE == offset % BLOCK_SIZE
    requires Agrees(file, pos, Encoded(offset, record, true)) && pos + |Encoded(offset, record, true)| == |file|
    ensures NextRecord(file, pos, checksum, None) == Reading(Some(record), |file|, [])
  {
    hide NextRecord, Encoded, Agrees;
    ReadEncoded(file, pos, offset, record, None, checksum);
    assert Gathered(None) + record == record;
  }

  lemma NoRecord(file: Bytes, pos: nat, checksum: bool)
    requires pos <= |file| && NextRecord(file, pos, checksum, None).record.None?
    ensures ReadAll(file, pos, checksum) == ([], NextRecord(file, pos, checksum, None).reports)
  {
    hide NextRecord;
  }

  lemma OneRecord(file: Bytes, pos: nat, checksum: bool)
    requires pos <= |file|
    requires var r := NextRecord(file, pos, checksum, None); r.record.Some? && r.next == |file|
    ensures var r := NextRecord(file, pos, checksum, None); ReadAll(file, pos, checksum) == ([r.record.value], r.reports)
  {
    hide NextRecord;
    NothingAtEnd(file, checksum);
    NoRecord(file, |file|, checksum);
    var r := NextRecord(file, pos, checksum, None);
    assert [r.record.value] + [] == [r.record.value] && r.reports + [] == r.reports;
  }
}
