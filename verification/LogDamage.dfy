/** Reading any bytes at all: nothing is returned but what stands intact in the file, damage is noticed, and
    what is not returned is reported. */
module LogDamage {
  import opened Format
  import opened Coding
  import opened Crc32c
  import opened LogFormat
  import opened LogReader
  import opened LogTheorems

  // ---------------------------------------------------------------------------------------------
  // One fragment

  lemma {:induction false} FixedBack(b: Bytes)
    ensures Fixed(DecodeFixed(b), |b|) == b
  {
    if b != [] {
      FixedBack(b[1..]);
      var rest := DecodeFixed(b[1..]);
      assert (b[0] + 256 * rest) % 256 == b[0] && (b[0] + 256 * rest) / 256 == rest;
      assert b == [b[0]] + b[1..];
    }
  }

  /** The length that the header of a buffer claims. */
  function Claimed(buffer: Bytes): nat
    requires |buffer| >= HEADER_SIZE
  {
    var low: int, high: int := buffer[4], buffer[5];
    low + 256 * high
  }

  /** A buffer starts with a fragment as it was written: header, checksum and payload. */
  ghost predicate Intact(buffer: Bytes, kind: Byte, payload: Bytes) {
    && |payload| < 65536 && HEADER_SIZE + |payload| <= |buffer|
    && buffer[..HEADER_SIZE + |payload|] == Fragment(kind, payload)
  }

  /** The zeroes that a file may be filled with. */
  predicate Blank(kind: Byte, payload: Bytes) {
    kind == ZERO_TYPE && payload == []
  }

  lemma HeaderOf(buffer: Bytes, kind: Byte, payload: Bytes)
    requires Intact(buffer, kind, payload)
    ensures Claimed(buffer) == |payload| && buffer[6] == kind && buffer[7..7 + |payload|] == payload
    ensures buffer[..4] == Fixed(Mask(Checksum([kind] + payload)), 4)
  {
    hide Fixed, Mask, Checksum;
    var n, frag := HEADER_SIZE + |payload|, Fragment(kind, payload);
    assert forall i :: 0 <= i < n ==> buffer[i] == buffer[..n][i] == frag[i];
    assert frag[4] == |payload| % 256 && frag[5] == |payload| / 256 && frag[6] == kind;
    assert frag[..4] == Fixed(Mask(Checksum([kind] + payload)), 4);
    assert buffer[..4] == frag[..4];
    assert frag[7..] == payload;
    assert buffer[7..7 + |payload|] == frag[7..];
  }

  /** The checksum holds if and only if the fragment stands as it was written. */
  lemma SoundIsIntact(buffer: Bytes)
    requires |buffer| >= HEADER_SIZE && HEADER_SIZE + Claimed(buffer) <= |buffer|
    ensures var n := Claimed(buffer);
            Unmask(DecodeFixed32(buffer[..4])) == Checksum(buffer[6..7 + n]) <==> Intact(buffer, buffer[6], buffer[7..7 + n])
  {
    hide Fixed, Mask, Unmask, Checksum, DecodeFixed;
    var n, kind := Claimed(buffer), buffer[6];
    var payload := buffer[7..7 + n];
    assert [kind] + payload == buffer[6..7 + n];
    var crc := Checksum([kind] + payload);
    FixedBack(buffer[..4]);
    if Unmask(DecodeFixed32(buffer[..4])) == crc {
      MaskUnmask(DecodeFixed32(buffer[..4]));
      assert n % 256 == buffer[4] && n / 256 == buffer[5];
      assert buffer[..7 + n] == buffer[..4] + [buffer[4], buffer[5], kind] + payload;
    }
    if Intact(buffer, kind, payload) {
      HeaderOf(buffer, kind, payload);
      Fixed32RoundTrip(Mask(crc));
      UnmaskMask(crc);
    }
  }

  /** What a reader that checks makes of any buffer: a fragment if and only if one stands there intact that is
      not blank; otherwise the end of a file that is cut short, or a stretch to the end of the block, reported
      unless it is blank. */
  lemma ParseExact(buffer: Bytes, cutShort: bool)
    requires |buffer| >= HEADER_SIZE
    ensures var r := Parse(buffer, cutShort, true);
            && (forall kind: Byte, payload: Bytes :: Intact(buffer, kind, payload) && !Blank(kind, payload) ==>
                  r == Piece(kind, payload, HEADER_SIZE + |payload|))
            && (r.Piece? ==> Intact(buffer, r.kind, r.payload) && !Blank(r.kind, r.payload))
            && (r.Eof? ==> cutShort && HEADER_SIZE + Claimed(buffer) > |buffer|)
            && (r.Bad? ==> r.next == |buffer| && r.dropped == if buffer[6] == ZERO_TYPE && Claimed(buffer) == 0 then [] else [|buffer|])
  {
    hide Unmask, Checksum, DecodeFixed32, Intact;
    var n := Claimed(buffer);
    forall kind: Byte, payload: Bytes | Intact(buffer, kind, payload)
      ensures |payload| == n && HEADER_SIZE + n <= |buffer| && kind == buffer[6] && payload == buffer[7..7 + n]
    {
      HeaderOf(buffer, kind, payload);
      Bounds(buffer, kind, payload);
    }
    if HEADER_SIZE + n <= |buffer| {
      SoundIsIntact(buffer);
    }
  }

  lemma Bounds(buffer: Bytes, kind: Byte, payload: Bytes)
    requires Intact(buffer, kind, payload)
    ensures HEADER_SIZE + |payload| <= |buffer|
  {
  }

  /** No single changed byte gets through, in the checksum, the type or the payload: the block is given up. */
  lemma ChangedByteIsRefused(kind: Byte, payload: Bytes, after: Bytes, i: nat, b: Byte, cutShort: bool)
    requires |payload| < 65536 && kind != ZERO_TYPE
    requires i < HEADER_SIZE + |payload| && i != 4 && i != 5 && b != Fragment(kind, payload)[i]
    ensures var buffer := (Fragment(kind, payload) + after)[i := b];
            var r := Parse(buffer, cutShort, true);
            r.Bad? && r.next == |buffer| && r.dropped == if i == 6 && b == ZERO_TYPE && payload == [] then [] else [|buffer|]
  {
    hide Parse, Fragment, Intact, Claimed, Fixed, Mask, Checksum;
    var was := Fragment(kind, payload) + after;
    var buffer := was[i := b];
    WrittenHeader(kind, payload, after);
    assert buffer[4] == was[4] && buffer[5] == was[5];
    SameClaim(was, buffer);
    ParseExact(buffer, cutShort);
    Broken(kind, payload, after, i, b);
    NotIntact(buffer);
  }

  lemma SameClaim(a: Bytes, b: Bytes)
    requires |a| == |b| >= HEADER_SIZE && a[4] == b[4] && a[5] == b[5]
    ensures Claimed(a) == Claimed(b)
  {
  }

  lemma WrittenHeader(kind: Byte, payload: Bytes, after: Bytes)
    requires |payload| < 65536
    ensures var buffer := Fragment(kind, payload) + after;
            |buffer| >= HEADER_SIZE + |payload| && Claimed(buffer) == |payload| && buffer[6] == kind && buffer[7..7 + |payload|] == payload
            && buffer[..4] == Fixed(Mask(Checksum([kind] + payload)), 4)
  {
    hide Fragment;
    var buffer := Fragment(kind, payload) + after;
    assert buffer[..HEADER_SIZE + |payload|] == Fragment(kind, payload);
    HeaderOf(buffer, kind, payload);
  }

  lemma NotIntact(buffer: Bytes)
    requires |buffer| >= HEADER_SIZE && HEADER_SIZE + Claimed(buffer) <= |buffer|
    requires buffer[..4] != Fixed(Mask(Checksum(buffer[6..7 + Claimed(buffer)])), 4)
    ensures forall kind: Byte, payload: Bytes :: !Intact(buffer, kind, payload)
  {
    hide Intact, Claimed, Fixed, Mask, Checksum;
    IntactHeader(buffer);
  }

  lemma IntactHeader(buffer: Bytes)
    requires |buffer| >= HEADER_SIZE && HEADER_SIZE + Claimed(buffer) <= |buffer|
    ensures forall kind: Byte, payload: Bytes :: Intact(buffer, kind, payload) ==>
              buffer[..4] == Fixed(Mask(Checksum(buffer[6..7 + Claimed(buffer)])), 4)
  {
    hide Intact, Claimed, Fixed, Mask, Checksum;
    forall kind: Byte, payload: Bytes | Intact(buffer, kind, payload)
      ensures buffer[..4] == Fixed(Mask(Checksum(buffer[6..7 + Claimed(buffer)])), 4)
    {
      HeaderOf(buffer, kind, payload);
      assert [kind] + payload == buffer[6..7 + |payload|];
    }
  }

  /** Checksum and checked bytes do not fit any more. */
  lemma Broken(kind: Byte, payload: Bytes, after: Bytes, i: nat, b: Byte)
    requires |payload| < 65536 && i < HEADER_SIZE + |payload| && i != 4 && i != 5 && b != Fragment(kind, payload)[i]
    ensures var buffer := (Fragment(kind, payload) + after)[i := b];
            buffer[..4] != Fixed(Mask(Checksum(buffer[6..7 + |payload|])), 4)
  {
    hide Fragment, Mask, Checksum, Fixed, Claimed;
    var was := Fragment(kind, payload) + after;
    var buffer := was[i := b];
    WrittenHeader(kind, payload, after);
    var checked, now := was[6..7 + |payload|], buffer[6..7 + |payload|];
    assert [kind] + payload == checked;
    if i < 4 {
      assert buffer[..4][i] == b && was[..4][i] == was[i];
      assert now == checked;
    } else {
      assert buffer[..4] == was[..4];
      OneChange(checked, now, i - 6);
      StoredDiffer(Checksum(checked), Checksum(now));
    }
  }

  lemma StoredDiffer(c: Word, d: Word)
    requires c != d
    ensures Fixed(Mask(c), 4) != Fixed(Mask(d), 4)
  {
    hide Mask, Unmask, Fixed, DecodeFixed32;
    Fixed32RoundTrip(Mask(c));
    Fixed32RoundTrip(Mask(d));
    UnmaskMask(c);
    UnmaskMask(d);
  }

  lemma OneChange(a: Bytes, b: Bytes, i: nat)
    requires |a| == |b| && i < |a| && a[i] != b[i] && forall j :: 0 <= j < |a| && j != i ==> a[j] == b[j]
    ensures Checksum(a) != Checksum(b)
  {
    hide Checksum;
    assert a == a[..i] + [a[i]] + a[i + 1..];
    assert b == a[..i] + [b[i]] + a[i + 1..];
    ByteIsNoticed(a[..i], a[i], b[i], a[i + 1..]);
  }
  // ---------------------------------------------------------------------------------------------
  // Whole records

  /** A fragment and where it stands. */
  datatype Place = Place(at: nat, kind: Byte, payload: Bytes)

  ghost predicate StandsIn(file: Bytes, p: Place) {
    p.at <= |file| && p.at % BLOCK_SIZE + HEADER_SIZE + |p.payload| <= BLOCK_SIZE && Intact(file[p.at..], p.kind, p.payload)
  }

  function EndOf(p: Place): nat {
    p.at + HEADER_SIZE + |p.payload|
  }

  /** Where the fragment after a position starts: what is left of a block may be too short for a header. */
  function FragmentFrom(pos: nat): nat {
    if BLOCK_SIZE - pos % BLOCK_SIZE < HEADER_SIZE then BlockEnd(pos) else pos
  }

  function Payloads(places: seq<Place>): Bytes {
    if places == [] then [] else Payloads(places[..|places| - 1]) + places[|places| - 1].payload
  }

  /** Fragments that stand one right after the other: a first one and ones from the middle. */
  ghost predicate Opens(file: Bytes, places: seq<Place>) {
    && places != [] && (forall i :: 0 <= i < |places| ==> StandsIn(file, places[i]))
    && (forall i :: 0 < i < |places| ==> places[i].at == FragmentFrom(EndOf(places[i - 1])))
    && (forall i :: 0 <= i < |places| ==> places[i].kind == if i == 0 then FIRST_TYPE else MIDDLE_TYPE)
  }

  /** The fragments of one record: a full one, or a first, some from the middle and a last, one right after the
      other. */
  ghost predicate Spells(file: Bytes, places: seq<Place>, record: Bytes) {
    && places != [] && record == Payloads(places)
    && var n := |places| - 1;
       && StandsIn(file, places[n])
       && if n == 0 then places[n].kind == FULL_TYPE
          else places[n].kind == LAST_TYPE && Opens(file, places[..n]) && places[n].at == FragmentFrom(EndOf(places[n - 1]))
  }

  /** A fragment that is read stands in the file where one would. */
  lemma PieceStands(file: Bytes, pos: nat)
    requires pos <= |file| && ReadPhysical(file, pos, true).Piece?
    ensures var p := ReadPhysical(file, pos, true);
            var place := Place(FragmentFrom(pos), p.kind, p.payload);
            StandsIn(file, place) && p.next == EndOf(place) && p.next <= |file| && pos <= place.at
  {
    hide ReadPhysical, BlockEnd, StandsIn;
    BlockEndIs(pos);
    if BLOCK_SIZE - pos % BLOCK_SIZE < HEADER_SIZE {
      SkipTrailer(file, pos, true);
      PieceAt(file, BlockEnd(pos));
    } else {
      PieceAt(file, pos);
    }
  }

  lemma BlockEndIs(pos: nat)
    ensures BlockEnd(pos) == pos + BLOCK_SIZE - pos % BLOCK_SIZE && BlockEnd(pos) % BLOCK_SIZE == 0 && BlockEnd(pos) > pos
  {
  }

  lemma PieceAt(file: Bytes, pos: nat)
    requires pos <= |file| && ReadPhysical(file, pos, true).Piece? && BLOCK_SIZE - pos % BLOCK_SIZE >= HEADER_SIZE
    ensures var p := ReadPhysical(file, pos, true);
            StandsIn(file, Place(pos, p.kind, p.payload)) && p.next == pos + HEADER_SIZE + |p.payload| <= |file|
  {
    hide Parse, Intact;
    var end := BufferEnd(file, pos);
    var buffer := file[pos..end];
    ParseExact(buffer, |file| < BlockEnd(pos));
    var p := Parse(buffer, |file| < BlockEnd(pos), true);
    PieceSize(buffer, |file| < BlockEnd(pos));
    Longer(buffer, file[pos..], p.kind, p.payload);
  }

  lemma PieceSize(buffer: Bytes, cutShort: bool)
    requires |buffer| >= HEADER_SIZE && Parse(buffer, cutShort, true).Piece?
    ensures var p := Parse(buffer, cutShort, true); p.next == HEADER_SIZE + |p.payload| <= |buffer|
  {
    hide Checksum, Unmask, DecodeFixed32;
  }

  lemma Longer(buffer: Bytes, more: Bytes, kind: Byte, payload: Bytes)
    requires Intact(buffer, kind, payload) && buffer <= more
    ensures Intact(more, kind, payload)
  {
    hide Fragment;
    assert more[..HEADER_SIZE + |payload|] == buffer[..HEADER_SIZE + |payload|];
  }

  /** Whatever is returned as a record stands in the file, fragment after fragment, at or after the position
      reading began, and reading goes on right behind it. */
  lemma RecordStands(file: Bytes, pos: nat) returns (places: seq<Place>)
    requires pos <= |file| && NextRecord(file, pos, true, None).record.Some?
    ensures var r := NextRecord(file, pos, true, None);
            Spells(file, places, r.record.value) && pos <= places[0].at && EndOf(places[|places| - 1]) == r.next
  {
    places := GatheredStands(file, pos, None, []);
  }

  ghost predicate Gathers(file: Bytes, pos: nat, scratch: Option<Bytes>, places: seq<Place>) {
    if scratch.None? then places == []
    else Opens(file, places) && scratch.value == Payloads(places) && EndOf(places[|places| - 1]) == pos
  }

  lemma {:induction false} GatheredStands(file: Bytes, pos: nat, scratch: Option<Bytes>, before: seq<Place>) returns (places: seq<Place>)
    requires pos <= |file| && Gathers(file, pos, scratch, before) && NextRecord(file, pos, true, scratch).record.Some?
    ensures var r := NextRecord(file, pos, true, scratch);
            && Spells(file, places, r.record.value) && EndOf(places[|places| - 1]) == r.next
            && (before == [] ==> pos <= places[0].at) && (before != [] ==> before[0].at <= places[0].at)
    decreases |file| - pos
  {
    hide ReadPhysical, NextRecord, StandsIn, FragmentFrom, Dispatch, Spells, Gathers;
    var p := ReadPhysical(file, pos, true);
    var fragment := if p.Piece? then p.payload else [];
    RecordStep(file, pos, true, scratch, fragment);
    var e := Dispatch(Code(p), fragment, scratch);
    Ahead(file, pos, scratch, before);
    if p.Piece? {
      PieceStands(file, pos);
      var place := Place(FragmentFrom(pos), p.kind, p.payload);
      var kept := GatherStep(file, pos, scratch, before, place);
      if e.Done? {
        places := kept;
      } else {
        places := GatheredStands(file, p.next, e.scratch, kept);
      }
    } else {
      FailedStep(file, scratch, Following(file, p));
      places := GatheredStands(file, Following(file, p), None, []);
    }
  }

  /** A failed read ends the reading or drops what was gathered. */
  lemma FailedStep(file: Bytes, scratch: Option<Bytes>, next: nat)
    ensures Dispatch(EOF_CODE, [], scratch).Done? && Dispatch(EOF_CODE, [], scratch).record.None?
    ensures Dispatch(BAD_RECORD_CODE, [], scratch).Go? && Dispatch(BAD_RECORD_CODE, [], scratch).scratch.None?
    ensures Gathers(file, next, None, [])
  {
  }

  /** What a fragment does to a record under assembly keeps it a list of standing fragments. */
  lemma GatherStep(file: Bytes, pos: nat, scratch: Option<Bytes>, before: seq<Place>, place: Place) returns (kept: seq<Place>)
    requires Gathers(file, pos, scratch, before) && StandsIn(file, place) && place.at == FragmentFrom(pos)
    requires before != [] ==> before[0].at <= pos
    ensures var e := Dispatch(place.kind, place.payload, scratch);
            && (e.Done? && e.record.Some? ==> kept != [] && Spells(file, kept, e.record.value) && kept[|kept| - 1] == place)
            && (e.Go? ==> Gathers(file, EndOf(place), e.scratch, kept))
    ensures kept != [] ==> kept[0] == place || (before != [] && kept[0] == before[0])
  {
    hide StandsIn, FragmentFrom, Payloads, Opens, EndOf;
    kept := [];
    if place.kind == FULL_TYPE || place.kind == FIRST_TYPE {
      kept := [place];
      PayloadsGrow([], place);
      OpensGrows(file, [], place);
    } else if scratch.Some? && (place.kind == MIDDLE_TYPE || place.kind == LAST_TYPE) {
      kept := before + [place];
      PayloadsGrow(before, place);
      OpensGrows(file, before, place);
      assert kept[..|before|] == before;
    }
  }

  lemma PayloadsGrow(places: seq<Place>, place: Place)
    ensures Payloads(places + [place]) == Payloads(places) + place.payload
    ensures Payloads([place]) == place.payload && Payloads([] + [place]) == place.payload
  {
    assert (places + [place])[..|places|] == places;
    assert [place][..0] == [] && [] + [place] == [place];
  }

  lemma OpensGrows(file: Bytes, places: seq<Place>, place: Place)
    requires StandsIn(file, place)
    ensures (place.kind == FIRST_TYPE ==> Opens(file, [place])) && (Opens(file, places) ==> places != [])
    ensures Opens(file, places) && place.kind == MIDDLE_TYPE && place.at == FragmentFrom(EndOf(places[|places| - 1]))
            ==> Opens(file, places + [place])
  {
    hide StandsIn, FragmentFrom;
  }

  lemma Ahead(file: Bytes, pos: nat, scratch: Option<Bytes>, places: seq<Place>)
    requires Gathers(file, pos, scratch, places)
    ensures places != [] ==> places[0].at <= pos
  {
    hide Opens;
    if places != [] {
      OpensAhead(file, places);
    }
  }

  lemma {:induction false} OpensAhead(file: Bytes, places: seq<Place>)
    requires Opens(file, places)
    ensures places[0].at <= EndOf(places[|places| - 1])
  {
    hide StandsIn;
    if |places| > 1 {
      var n := |places| - 1;
      assert places[n].at == FragmentFrom(EndOf(places[n - 1]));
      OpensAhead(file, places[..n]);
    }
  }

  /** All records of a reading stand in the file, each after the one before. */
  ghost predicate Standing(file: Bytes, pos: nat, records: seq<Bytes>)
    decreases |records|
  {
    records == [] || exists places: seq<Place> ::
      && Spells(file, places, records[0]) && pos <= places[0].at
      && Standing(file, EndOf(places[|places| - 1]), records[1..])
  }

  /** Nothing is ever returned that does not stand intact in the file. */
  lemma {:induction false} ReadingStands(file: Bytes, pos: nat)
    requires pos <= |file|
    ensures Standing(file, pos, ReadAll(file, pos, true).0)
    decreases |file| - pos
  {
    hide NextRecord, Spells;
    var r := NextRecord(file, pos, true, None);
    if r.record.Some? {
      var places := RecordStands(file, pos);
      ReadingStands(file, r.next);
      var rest := ReadAll(file, r.next, true);
      assert ([r.record.value] + rest.0)[1..] == rest.0;
      NotEmpty(file, places, r.record.value);
    }
  }

  lemma NotEmpty(file: Bytes, places: seq<Place>, record: Bytes)
    requires Spells(file, places, record)
    ensures places != []
  {
  }

  // ---------------------------------------------------------------------------------------------
  // After damage

  /** Where a fragment would start but none stands that is whole and sound, the rest of the block is given up and
      reported, a record under assembly with it, and reading goes on with the next block. */
  lemma DamageSkipsBlock(file: Bytes, pos: nat, scratch: Option<Bytes>)
    requires pos <= |file| && BufferEnd(file, pos) - pos >= HEADER_SIZE
    requires var buffer := file[pos..BufferEnd(file, pos)];
             && (HEADER_SIZE + Claimed(buffer) <= |buffer| || BlockEnd(pos) <= |file|) && !(buffer[6] == ZERO_TYPE && Claimed(buffer) == 0)
             && forall kind: Byte, payload: Bytes :: !Intact(buffer, kind, payload)
    ensures NextRecord(file, pos, true, scratch)
            == Reported([BufferEnd(file, pos) - pos] + (if scratch.Some? then [|scratch.value|] else []),
                        NextRecord(file, BufferEnd(file, pos), true, None))
  {
    hide Parse, Intact, NextRecord, ReadPhysical;
    var end := BufferEnd(file, pos);
    PhysicalIs(file, pos, true);
    ParseExact(file[pos..end], |file| < BlockEnd(pos));
    RecordStep(file, pos, true, scratch, []);
  }

  // ---------------------------------------------------------------------------------------------
  // Accounts

  function Sum(ns: seq<nat>): nat {
    if ns == [] then 0 else Sum(ns[..|ns| - 1]) + ns[|ns| - 1]
  }

  lemma {:induction false} SumSplits(a: seq<nat>, b: seq<nat>)
    ensures Sum(a + b) == Sum(a) + Sum(b)
  {
    if b == [] {
      assert a + b == a;
    } else {
      SumSplits(a, b[..|b| - 1]);
      assert (a + b)[..|a + b| - 1] == a + b[..|b| - 1];
    }
  }

  /** The bytes that one attempt delivers as payload or gives up as damaged. */
  function Volume(p: Physical): nat {
    match p
    case Eof => 0
    case Bad(_, dropped) => Sum(dropped)
    case Piece(_, payload, _) => |payload|
  }

  /** What vanishes without a word: a record that the end of the file cuts off, and what fragments hold whose type
      is one of the reader's own codes. */
  function Silent(p: Physical, scratch: Option<Bytes>): nat {
    match p
    case Eof => Size(scratch)
    case Bad(_, _) => 0
    case Piece(kind, payload, _) =>
      if kind as int == EOF_CODE then |payload| + Size(scratch) else if kind as int == BAD_RECORD_CODE then |payload| else 0
  }

  /** What a call to the reader goes through, and what of it vanishes. */
  function Passed(file: Bytes, pos: nat, checksum: bool, scratch: Option<Bytes>): (r: (nat, nat))
    requires pos <= |file|
    decreases |file| - pos
  {
    var p := ReadPhysical(file, pos, checksum);
    var e := Dispatch(Code(p), if p.Piece? then p.payload else [], scratch);
    if e.Done? then (Volume(p), Silent(p, scratch))
    else
      var rest := Passed(file, Following(file, p), checksum, e.scratch);
      (Volume(p) + rest.0, Silent(p, scratch) + rest.1)
  }

  /** Every byte is accounted for: what a call goes through, and what it had gathered before, is returned, reported
      or among what vanishes. */
  lemma {:induction false} Accounts(file: Bytes, pos: nat, checksum: bool, scratch: Option<Bytes>)
    requires pos <= |file|
    ensures var r, passed := NextRecord(file, pos, checksum, scratch), Passed(file, pos, checksum, scratch);
            Size(scratch) + passed.0 == Size(r.record) + Sum(r.reports) + passed.1
    decreases |file| - pos
  {
    hide ReadPhysical, NextRecord, Dispatch, Sum;
    var p := ReadPhysical(file, pos, checksum);
    var fragment := if p.Piece? then p.payload else [];
    RecordStep(file, pos, checksum, scratch, fragment);
    var e := Dispatch(Code(p), fragment, scratch);
    Balance(p, scratch);
    SumSplits(Dropped(p), e.reports);
    if e.Go? {
      Accounts(file, Following(file, p), checksum, e.scratch);
      SumSplits(Dropped(p) + e.reports, NextRecord(file, Following(file, p), checksum, e.scratch).reports);
    }
  }

  lemma Balance(p: Physical, scratch: Option<Bytes>)
    ensures var e := Dispatch(Code(p), if p.Piece? then p.payload else [], scratch);
            && (p.Eof? ==> e.Done?) && (e.Go? ==> !p.Eof?)
            && Size(scratch) + Volume(p) == Sum(Dropped(p)) + Sum(e.reports) + Size(if e.Done? then e.record else e.scratch) + Silent(p, scratch)
  {
    assert forall n: nat :: Sum([n]) == n by {
      forall n: nat ensures Sum([n]) == n {
        assert [n][..0] == [];
      }
    }
  }
}
