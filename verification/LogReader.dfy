/** Reading a write-ahead log back: fragments are found block by block, checked and reassembled. */
module LogReader {
  import opened Format
  import opened Coding
  import opened Crc32c
  import opened LogFormat

  const EOF_CODE := 5
  const BAD_RECORD_CODE := 6

  /** One attempt to read a fragment: the end of the file, a damaged stretch (with the bytes reported
      as dropped, if any), or a fragment; `next` is where reading goes on. */
  datatype Physical = Eof | Bad(next: nat, dropped: seq<nat>) | Piece(kind: Byte, payload: Bytes, next: nat)

  function BlockEnd(pos: nat): (e: nat)
    ensures e > pos && e - pos == BLOCK_SIZE - pos % BLOCK_SIZE
  {
    (pos / BLOCK_SIZE + 1) * BLOCK_SIZE
  }

  function BufferEnd(file: Bytes, pos: nat): nat {
    if |file| < BlockEnd(pos) then |file| else BlockEnd(pos)
  }

  /** What the unread part of a block starts with; a block that the file cuts short is the last one. */
  function Parse(buffer: Bytes, cutShort: bool, checksum: bool): (r: Physical)
    requires |buffer| >= HEADER_SIZE
    ensures r.Eof? ==> cutShort
    ensures r.Bad? ==> r.next == |buffer|
    ensures r.Piece? ==> HEADER_SIZE <= r.next <= |buffer|
  {
    var low: int, high: int, kind := buffer[4], buffer[5], buffer[6];
    var length := low + 256 * high;
    if HEADER_SIZE + length > |buffer| then
      if cutShort then Eof else Bad(|buffer|, [|buffer|])
    else if kind == ZERO_TYPE && length == 0 then Bad(|buffer|, [])
    else if checksum && Unmask(DecodeFixed32(buffer[..4])) != Checksum(buffer[6..7 + length]) then Bad(|buffer|, [|buffer|])
    else Piece(kind, buffer[7..7 + length], 7 + length)
  }

  function Shifted(p: Physical, base: nat): Physical {
    match p
    case Eof => Eof
    case Bad(next, dropped) => Bad(base + next, dropped)
    case Piece(kind, payload, next) => Piece(kind, payload, base + next)
  }

  /** What a reader standing at `pos` reads: what is too short for a header is a trailer. */
  function ReadPhysical(file: Bytes, pos: nat, checksum: bool): (r: Physical)
    requires pos <= |file|
    ensures r.Bad? ==> pos < r.next <= |file|
    ensures r.Piece? ==> pos < r.next <= |file|
    decreases |file| - pos
  {
    var cutShort, end := |file| < BlockEnd(pos), BufferEnd(file, pos);
    if end - pos >= HEADER_SIZE then Shifted(Parse(file[pos..end], cutShort, checksum), pos)
    else if cutShort then Eof
    else ReadPhysical(file, end, checksum)
  }

  /** The outcome of a read: a record or nothing, where reading goes on, and the sizes reported as dropped. */
  datatype Reading = Reading(record: Option<Bytes>, next: nat, reports: seq<nat>)

  function Unfinished(scratch: Option<Bytes>): seq<nat> {
    if scratch.Some? && scratch.value != [] then [|scratch.value|] else []
  }

  function Size(scratch: Option<Bytes>): nat {
    if scratch.Some? then |scratch.value| else 0
  }

  /** What a fragment, or a failure to read one, does to a record under assembly. */
  datatype Effect = Done(record: Option<Bytes>, reports: seq<nat>) | Go(scratch: Option<Bytes>, reports: seq<nat>)

  /** The codes for the end and for damage share the number space of the fragment types. */
  function Dispatch(code: nat, fragment: Bytes, scratch: Option<Bytes>): (e: Effect)
    ensures code == EOF_CODE ==> e.Done? && e.record.None?
    ensures code == BAD_RECORD_CODE ==> e.Go?
  {
    if code == FULL_TYPE then Done(Some(fragment), Unfinished(scratch))
    else if code == FIRST_TYPE then Go(Some(fragment), Unfinished(scratch))
    else if code == MIDDLE_TYPE then
      if scratch.None? then Go(None, [|fragment|]) else Go(Some(scratch.value + fragment), [])
    else if code == LAST_TYPE then
      if scratch.None? then Go(None, [|fragment|]) else Done(Some(scratch.value + fragment), [])
    else if code == EOF_CODE then Done(None, [])
    else if code == BAD_RECORD_CODE then Go(None, if scratch.Some? then [|scratch.value|] else [])
    else Go(None, [|fragment| + Size(scratch)])
  }

  function Code(p: Physical): nat {
    match p
    case Eof => EOF_CODE
    case Bad(_, _) => BAD_RECORD_CODE
    case Piece(kind, _, _) => kind
  }

  function Dropped(p: Physical): seq<nat> {
    if p.Bad? then p.dropped else []
  }

  function Following(file: Bytes, p: Physical): nat {
    if p.Eof? then |file| else p.next
  }

  /** The next record from `pos`; `scratch` is what a fragmented record has gathered so far. */
  function NextRecord(file: Bytes, pos: nat, checksum: bool, scratch: Option<Bytes>): (r: Reading)
    requires pos <= |file|
    ensures r.next <= |file| && (r.record.Some? ==> pos < r.next)
    decreases |file| - pos
  {
    var p := ReadPhysical(file, pos, checksum);
    var e := Dispatch(Code(p), if p.Piece? then p.payload else [], scratch);
    if e.Done? then Reading(e.record, Following(file, p), Dropped(p) + e.reports)
    else Reported(Dropped(p) + e.reports, NextRecord(file, Following(file, p), checksum, e.scratch))
  }

  function Reported(reports: seq<nat>, r: Reading): Reading {
    r.(reports := reports + r.reports)
  }

  /** All records up to the first failed read, and everything reported on the way. */
  function ReadAll(file: Bytes, pos: nat, checksum: bool): (seq<Bytes>, seq<nat>)
    requires pos <= |file|
    decreases |file| - pos
  {
    var r := NextRecord(file, pos, checksum, None);
    if r.record.None? then ([], r.reports)
    else
      var rest := ReadAll(file, r.next, checksum);
      ([r.record.value] + rest.0, r.reports + rest.1)
  }

  class Reader {
    const file: Bytes
    const checksum: bool
    var readPos: nat
    var buffer: Bytes
    var eof: bool
    var reports: seq<nat>

    ghost predicate Valid()
      reads this
    {
      && |buffer| <= readPos <= |file|
      && buffer == file[At()..readPos]
      && (eof ==> readPos == |file| && |file| < BlockEnd(At()))
      && (!eof ==> readPos % BLOCK_SIZE == 0 && (buffer != [] ==> readPos == BlockEnd(At())))
    }

    /** The position of the first unread byte. */
    ghost function At(): nat
      reads this
    {
      if |buffer| <= readPos then readPos - |buffer| else 0
    }

    constructor (file: Bytes, checksum: bool)
      ensures Valid() && this.file == file && this.checksum == checksum && At() == 0 && reports == []
    {
      hide BlockEnd;
      this.file, this.checksum := file, checksum;
      readPos, buffer, eof, reports := 0, [], false, [];
    }

    /** The outcome of one attempt: what the method returns, and where it leaves the reader. */
    twostate predicate Delivers(spec: Physical, code: nat, fragment: Bytes)
      reads this
    {
      match spec
      case Eof => code == EOF_CODE && At() == |file| && reports == old(reports)
      case Bad(next, dropped) => code == BAD_RECORD_CODE && At() == next && reports == old(reports) + dropped
      case Piece(kind, payload, next) =>
        code == kind && fragment == payload && At() == next && reports == old(reports)
    }

    /** The next record, or nothing at the end of the input. */
    method ReadRecord() returns (record: Option<Bytes>)
      requires Valid()
      modifies this
      ensures Valid()
      ensures var spec := NextRecord(file, old(At()), checksum, None);
              record == spec.record && At() == spec.next && reports == old(reports) + spec.reports
    {
      hide NextRecord, BlockEnd;
      ghost var goal := NextRecord(file, At(), checksum, None);
      ghost var said: seq<nat> := [];
      var scratch: Option<Bytes> := None;
      while true
        invariant Valid() && At() <= |file| && reports == old(reports) + said
        invariant goal == Reported(said, NextRecord(file, At(), checksum, scratch))
        decreases |file| - At()
      {
        var done;
        ghost var more;
        done, record, scratch, more := Turn(scratch);
        said := said + more;
        if done {
          return;
        }
      }
    }

    /** One turn of the loop: read a fragment and add it to the record under assembly. */
    method Turn(scratch: Option<Bytes>)
      returns (done: bool, record: Option<Bytes>, gathered: Option<Bytes>, ghost said: seq<nat>)
      requires Valid()
      modifies this
      ensures Valid() && At() <= |file| && reports == old(reports) + said
      ensures done ==> NextRecord(file, old(At()), checksum, scratch) == Reading(record, At(), said)
      ensures !done ==> old(At()) < At()
      ensures !done ==> NextRecord(file, old(At()), checksum, scratch)
                        == Reported(said, NextRecord(file, At(), checksum, gathered))
    {
      hide NextRecord, ReadPhysical, Dispatch, BlockEnd;
      ghost var pos := At();
      var code, fragment := ReadPhysicalRecord();
      RecordStep(file, pos, checksum, scratch, fragment);
      said := Dropped(ReadPhysical(file, pos, checksum)) + Dispatch(code, fragment, scratch).reports;
      done, record, gathered := Assemble(code, fragment, scratch);
    }

    /** The branches of the reading loop. */
    method Assemble(code: nat, fragment: Bytes, scratch: Option<Bytes>)
      returns (done: bool, record: Option<Bytes>, gathered: Option<Bytes>)
      modifies `reports
      ensures var e := Dispatch(code, fragment, scratch);
              && reports == old(reports) + e.reports
              && (done <==> e.Done?)
              && if e.Done? then record == e.record else gathered == e.scratch
    {
      done, record, gathered := false, None, scratch;
      if code == FULL_TYPE {
        if scratch.Some? && scratch.value != [] {
          reports := reports + [|scratch.value|];
        }
        return true, Some(fragment), None;
      } else if code == FIRST_TYPE {
        if scratch.Some? && scratch.value != [] {
          reports := reports + [|scratch.value|];
        }
        gathered := Some(fragment);
      } else if code == MIDDLE_TYPE {
        if scratch.None? {
          reports := reports + [|fragment|];
        } else {
          gathered := Some(scratch.value + fragment);
        }
      } else if code == LAST_TYPE {
        if scratch.None? {
          reports := reports + [|fragment|];
        } else {
          return true, Some(scratch.value + fragment), None;
        }
      } else if code == EOF_CODE {
        return true, None, None;
      } else if code == BAD_RECORD_CODE {
        if scratch.Some? {
          reports := reports + [|scratch.value|];
          gathered := None;
        }
      } else {
        reports := reports + [|fragment| + Size(scratch)];
        gathered := None;
      }
    }

    method ReadPhysicalRecord() returns (code: nat, fragment: Bytes)
      requires Valid()
      modifies this
      ensures Valid() && Delivers(ReadPhysical(file, old(At()), checksum), code, fragment)
    {
      hide ReadPhysical, Parse, BlockEnd;
      var ok := FillBuffer();
      if !ok {
        return EOF_CODE, [];
      }
      ghost var pos := At();
      PhysicalIs(file, pos, checksum);
      code, fragment := ParseRecord();
      Consumed(file, pos, readPos, readPos - pos - |buffer|);
      SameBlock(pos, At());
    }

    /** Skip trailers and read blocks until a header is at hand. */
    method FillBuffer() returns (ok: bool)
      requires Valid()
      modifies this
      ensures Valid() && reports == old(reports)
      ensures ok ==> |buffer| >= HEADER_SIZE && BufferEnd(file, At()) == readPos && (eof <==> |file| < BlockEnd(At()))
      ensures ok ==> ReadPhysical(file, At(), checksum) == ReadPhysical(file, old(At()), checksum)
      ensures !ok ==> At() == |file| && ReadPhysical(file, old(At()), checksum) == Eof
    {
      hide ReadPhysical, BlockEnd;
      while |buffer| < HEADER_SIZE
        invariant Valid() && reports == old(reports)
        invariant ReadPhysical(file, At(), checksum) == ReadPhysical(file, old(At()), checksum)
        decreases !eof, |file| - readPos
      {
        if !eof {
          Refill();
        } else {
          NothingLeft(file, At(), checksum);
          SameBlock(At(), |file|);
          buffer := [];
          return false;
        }
      }
      ok := true;
    }

    /** A buffer that holds a header: check it against what follows. */
    method ParseRecord() returns (code: nat, fragment: Bytes)
      requires |buffer| >= HEADER_SIZE
      modifies `buffer, `reports
      ensures var spec := Parse(old(buffer), eof, checksum);
              match spec
              case Eof => code == EOF_CODE && buffer == [] && reports == old(reports)
              case Bad(_, dropped) => code == BAD_RECORD_CODE && buffer == [] && reports == old(reports) + dropped
              case Piece(kind, payload, next) =>
                code == kind && fragment == payload && buffer == old(buffer)[next..] && reports == old(reports)
    {
      hide Checksum, Unmask, DecodeFixed32;
      fragment := [];
      var a: int, b: int, kind := buffer[4], buffer[5], buffer[6];
      var length := a + 256 * b;
      if HEADER_SIZE + length > |buffer| {
        var drop := |buffer|;
        buffer := [];
        if !eof {
          reports := reports + [drop];
          return BAD_RECORD_CODE, fragment;
        }
        return EOF_CODE, fragment;
      }
      if kind == ZERO_TYPE && length == 0 {
        buffer := [];
        return BAD_RECORD_CODE, fragment;
      }
      if checksum {
        var expected := Unmask(DecodeFixed32(buffer[..4]));
        var actual := Checksum(buffer[6..7 + length]);
        if actual != expected {
          var drop := |buffer|;
          buffer := [];
          reports := reports + [drop];
          return BAD_RECORD_CODE, fragment;
        }
      }
      fragment := buffer[7..7 + length];
      buffer := buffer[7 + length..];
      code := kind;
    }

    /** Read the next block; what is left of the last one is a trailer. */
    method Refill()
      requires Valid() && !eof && |buffer| < HEADER_SIZE
      modifies this
      ensures Valid() && reports == old(reports) && At() >= old(At())
      ensures ReadPhysical(file, At(), checksum) == ReadPhysical(file, old(At()), checksum)
      ensures eof || readPos > old(readPos)
    {
      var end := if readPos + BLOCK_SIZE <= |file| then readPos + BLOCK_SIZE else |file|;
      buffer := file[readPos..end];
      readPos := end;
      if |buffer| < BLOCK_SIZE {
        eof := true;
      }
    }
  }

  lemma PhysicalIs(file: Bytes, pos: nat, checksum: bool)
    requires pos <= |file| && BufferEnd(file, pos) - pos >= HEADER_SIZE
    ensures ReadPhysical(file, pos, checksum)
            == Shifted(Parse(file[pos..BufferEnd(file, pos)], |file| < BlockEnd(pos), checksum), pos)
  {
  }

  lemma Consumed(file: Bytes, pos: nat, end: nat, n: nat)
    requires pos <= end <= |file| && n <= end - pos
    ensures file[pos..end][n..] == file[pos + n..end]
  {
    assert forall k :: 0 <= k < end - pos - n ==> file[pos..end][n..][k] == file[pos + n..end][k];
  }

  lemma SameBlock(pos: nat, next: nat)
    requires pos <= next
    ensures BlockEnd(pos) <= BlockEnd(next) && (next < BlockEnd(pos) ==> BlockEnd(next) == BlockEnd(pos))
  {
  }

  lemma NothingLeft(file: Bytes, pos: nat, checksum: bool)
    requires pos <= |file| && |file| - pos < HEADER_SIZE && |file| < BlockEnd(pos)
    ensures ReadPhysical(file, pos, checksum) == Eof
  {
  }

  /** One turn of the reading loop; a failed read delivers no payload, and none is looked at. */
  lemma {:induction false} RecordStep(file: Bytes, pos: nat, checksum: bool, scratch: Option<Bytes>, fragment: Bytes)
    requires pos <= |file|
    requires var p := ReadPhysical(file, pos, checksum); p.Piece? ==> fragment == p.payload
    ensures var p := ReadPhysical(file, pos, checksum);
            var e := Dispatch(Code(p), fragment, scratch);
            NextRecord(file, pos, checksum, scratch) ==
              if e.Done? then Reading(e.record, Following(file, p), Dropped(p) + e.reports)
              else Reported(Dropped(p) + e.reports, NextRecord(file, Following(file, p), checksum, e.scratch))
  {
    hide ReadPhysical;
  }
}
