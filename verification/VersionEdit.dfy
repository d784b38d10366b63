/** The manifest record: tagged fields, written in a fixed order and read in any. */
module VersionEdit {
  import opened Format
  import opened Coding

  datatype Field =
    | Comparator(name: Bytes)
    | LogNumber(number: nat)
    | PrevLogNumber(number: nat)
    | NextFileNumber(number: nat)
    | LastSequence(number: nat)
    | CompactPointer(level: nat, key: Bytes)
    | DeletedFile(level: nat, number: nat)
    | NewFile(level: nat, number: nat, size: nat, smallest: Bytes, largest: Bytes)

  function TagOf(f: Field): (t: nat)
    ensures 1 <= t <= 9
  {
    match f
    case Comparator(_) => 1
    case LogNumber(_) => 2
    case NextFileNumber(_) => 3
    case LastSequence(_) => 4
    case CompactPointer(_, _) => 5
    case DeletedFile(_, _) => 6
    case NewFile(_, _, _, _, _) => 7
    case PrevLogNumber(_) => 9
  }

  function Payload(f: Field): Bytes {
    match f
    case Comparator(name) => Prefixed(name)
    case LogNumber(n) => Varint(n)
    case PrevLogNumber(n) => Varint(n)
    case NextFileNumber(n) => Varint(n)
    case LastSequence(n) => Varint(n)
    case CompactPointer(level, key) => Varint(level) + Prefixed(key)
    case DeletedFile(level, n) => Varint(level) + Varint(n)
    case NewFile(level, n, size, smallest, largest) =>
      Varint(level) + (Varint(n) + (Varint(size) + (Prefixed(smallest) + Prefixed(largest))))
  }

  function FieldBytes(f: Field): Bytes {
    Varint(TagOf(f)) + Payload(f)
  }

  /** The sizes that the field types of the record can hold. */
  predicate Fits(f: Field) {
    match f
    case Comparator(name) => |name| < WORD
    case CompactPointer(level, key) => level < WORD && |key| < WORD
    case DeletedFile(level, n) => level < WORD && n < DOUBLE_WORD
    case NewFile(level, n, size, smallest, largest) =>
      level < WORD && n < DOUBLE_WORD && size < DOUBLE_WORD && |smallest| < WORD && |largest| < WORD
    case _ => f.number < DOUBLE_WORD
  }

  /** What the reader accepts: a level of the tree, and keys that are not empty. */
  predicate Accepted(f: Field) {
    match f
    case CompactPointer(level, key) => level < NUM_LEVELS && key != []
    case DeletedFile(level, _) => level < NUM_LEVELS
    case NewFile(level, _, _, smallest, largest) => level < NUM_LEVELS && smallest != [] && largest != []
    case _ => true
  }

  // ---------------------------------------------------------------------------------------------
  // Reading: a value and what is left of the input

  datatype Read<T> = Bad | Got(value: T, rest: Bytes)

  function GetVarint32(s: Bytes): (r: Read<nat>)
    ensures r.Got? ==> |r.rest| < |s|
  {
    var v := ReadVarint(s, 5);
    if v.None? then Bad else Got(Cut(v.value.0, false), s[v.value.1..])
  }

  function GetVarint64(s: Bytes): (r: Read<nat>)
    ensures r.Got? ==> |r.rest| < |s|
  {
    var v := ReadVarint(s, 10);
    if v.None? then Bad else Got(Cut(v.value.0, true), s[v.value.1..])
  }

  function GetSlice(s: Bytes): (r: Read<Bytes>)
    ensures r.Got? ==> |r.rest| < |s|
  {
    var v := ReadPrefixed(s);
    if v.None? then Bad else Got(v.value.0, s[v.value.1..])
  }

  function GetLevel(s: Bytes): (r: Read<nat>)
    ensures r.Got? ==> |r.rest| < |s|
  {
    var v := GetVarint32(s);
    if v.Bad? || v.value >= NUM_LEVELS then Bad else v
  }

  function GetKey(s: Bytes): (r: Read<Bytes>)
    ensures r.Got? ==> |r.rest| < |s|
  {
    var v := GetSlice(s);
    if v.Bad? || v.value == [] then Bad else v
  }

  function GetNumber(s: Bytes, make: nat -> Field): (r: Read<Field>)
    ensures r.Got? ==> |r.rest| < |s|
  {
    var n := GetVarint64(s);
    if n.Bad? then Bad else Got(make(n.value), n.rest)
  }

  function GetPointer(s: Bytes): (r: Read<Field>)
    ensures r.Got? ==> |r.rest| < |s|
  {
    var level := GetLevel(s);
    if level.Bad? then Bad else
    var key := GetKey(level.rest);
    if key.Bad? then Bad else Got(CompactPointer(level.value, key.value), key.rest)
  }

  function GetDeleted(s: Bytes): (r: Read<Field>)
    ensures r.Got? ==> |r.rest| < |s|
  {
    var level := GetLevel(s);
    if level.Bad? then Bad else
    var n := GetVarint64(level.rest);
    if n.Bad? then Bad else Got(DeletedFile(level.value, n.value), n.rest)
  }

  function GetNewFile(s: Bytes): (r: Read<Field>)
    ensures r.Got? ==> |r.rest| < |s|
  {
    var level := GetLevel(s);
    if level.Bad? then Bad else
    var n := GetVarint64(level.rest);
    if n.Bad? then Bad else
    var size := GetVarint64(n.rest);
    if size.Bad? then Bad else
    var smallest := GetKey(size.rest);
    if smallest.Bad? then Bad else
    var largest := GetKey(smallest.rest);
    if largest.Bad? then Bad else Got(NewFile(level.value, n.value, size.value, smallest.value, largest.value), largest.rest)
  }

  function GetPayload(tag: nat, s: Bytes): (r: Read<Field>)
    ensures r.Got? ==> |r.rest| < |s|
  {
    if tag == 1 then
      var name := GetSlice(s);
      if name.Bad? then Bad else Got(Comparator(name.value), name.rest)
    else if tag == 2 then GetNumber(s, (n: nat) => LogNumber(n))
    else if tag == 9 then GetNumber(s, (n: nat) => PrevLogNumber(n))
    else if tag == 3 then GetNumber(s, (n: nat) => NextFileNumber(n))
    else if tag == 4 then GetNumber(s, (n: nat) => LastSequence(n))
    else if tag == 5 then GetPointer(s)
    else if tag == 6 then GetDeleted(s)
    else if tag == 7 then GetNewFile(s)
    else Bad
  }

  /** All fields, or nothing if one is malformed or something is left over. */
  function ReadFields(s: Bytes): Option<seq<Field>>
    decreases |s|
  {
    var tag := GetVarint32(s);
    if tag.Bad? then (if s == [] then Some([]) else None)
    else
      var f := GetPayload(tag.value, tag.rest);
      if f.Bad? then None
      else
        var rest := ReadFields(f.rest);
        if rest.None? then None else Some([f.value] + rest.value)
  }

  // ---------------------------------------------------------------------------------------------
  // Reading back what was written

  lemma Varint32Back(v: nat, rest: Bytes)
    requires v < WORD
    ensures GetVarint32(Varint(v) + rest) == Got(v, rest)
  {
    hide Varint, ReadVarint;
    Varint32RoundTrip(v, rest);
    assert (Varint(v) + rest)[|Varint(v)|..] == rest;
  }

  lemma Varint64Back(v: nat, rest: Bytes)
    requires v < DOUBLE_WORD
    ensures GetVarint64(Varint(v) + rest) == Got(v, rest)
  {
    hide Varint, ReadVarint;
    Varint64RoundTrip(v, rest);
    assert (Varint(v) + rest)[|Varint(v)|..] == rest;
  }

  lemma SliceBack(b: Bytes, rest: Bytes)
    requires |b| < WORD
    ensures GetSlice(Prefixed(b) + rest) == Got(b, rest)
  {
    hide Prefixed, ReadPrefixed;
    PrefixedRoundTrip(b, rest);
    assert (Prefixed(b) + rest)[|Prefixed(b)|..] == rest;
  }

  lemma Regroup(a: Bytes, b: Bytes, c: Bytes)
    ensures (a + b) + c == a + (b + c)
  {
  }

  /** A field reads back exactly when it is one the reader accepts; otherwise the record is refused. */
  lemma FieldBack(f: Field, rest: Bytes)
    requires Fits(f)
    ensures GetPayload(TagOf(f), Payload(f) + rest) == if Accepted(f) then Got(f, rest) else Bad
  {
    hide Varint, Prefixed, GetVarint32, GetVarint64, GetSlice;
    match f
    case Comparator(name) => SliceBack(name, rest);
    case CompactPointer(level, key) =>
      Regroup(Varint(level), Prefixed(key), rest);
      Varint32Back(level, Prefixed(key) + rest);
      SliceBack(key, rest);
    case DeletedFile(level, n) =>
      Regroup(Varint(level), Varint(n), rest);
      Varint32Back(level, Varint(n) + rest);
      Varint64Back(n, rest);
    case NewFile(_, _, _, _, _) => NewFileBack(f, rest);
    case _ => Varint64Back(f.number, rest);
  }

  lemma NewFileBack(f: Field, rest: Bytes)
    requires f.NewFile? && Fits(f)
    ensures GetNewFile(Payload(f) + rest) == if Accepted(f) then Got(f, rest) else Bad
  {
    hide Varint, Prefixed, GetVarint32, GetVarint64, GetSlice;
    var d := Prefixed(f.largest);
    var c := Prefixed(f.smallest) + d;
    var b := Varint(f.size) + c;
    var a := Varint(f.number) + b;
    Regroup(Varint(f.level), a, rest);
    Regroup(Varint(f.number), b, rest);
    Regroup(Varint(f.size), c, rest);
    Regroup(Prefixed(f.smallest), d, rest);
    Varint32Back(f.level, a + rest);
    Varint64Back(f.number, b + rest);
    Varint64Back(f.size, c + rest);
    SliceBack(f.smallest, d + rest);
    SliceBack(f.largest, rest);
  }

  function FieldsBytes(fs: seq<Field>): Bytes {
    if fs == [] then [] else FieldBytes(fs[0]) + FieldsBytes(fs[1..])
  }

  /** A record reads back as its fields if and only if the reader accepts each of them. */
  lemma {:induction false} FieldsBack(fs: seq<Field>)
    requires forall i :: 0 <= i < |fs| ==> Fits(fs[i])
    ensures ReadFields(FieldsBytes(fs)) == if forall i :: 0 <= i < |fs| ==> Accepted(fs[i]) then Some(fs) else None
  {
    hide Varint, Payload, GetVarint32, GetPayload, Accepted;
    if fs == [] {
      NothingToRead();
    } else {
      var f, rest := fs[0], FieldsBytes(fs[1..]);
      Regroup(Varint(TagOf(f)), Payload(f), rest);
      Varint32Back(TagOf(f), Payload(f) + rest);
      FieldBack(f, rest);
      FieldsBack(fs[1..]);
      assert fs == [f] + fs[1..];
      assert (forall i :: 0 <= i < |fs| ==> Accepted(fs[i])) <==>
             Accepted(f) && forall i :: 0 <= i < |fs[1..]| ==> Accepted(fs[1..][i]);
    }
  }

  lemma NothingToRead()
    ensures GetVarint32([]) == Bad
  {
  }

  // ---------------------------------------------------------------------------------------------
  // Whole edits

  datatype Pair = Pair(level: nat, number: nat)

  /** An edit; deleted files are an ordered set, the other lists keep the order of the calls. */
  datatype Edit = Edit(comparator: Option<Bytes>, logNumber: Option<nat>, prevLogNumber: Option<nat>,
                       nextFileNumber: Option<nat>, lastSequence: Option<nat>,
                       pointers: seq<Field>, deleted: seq<Pair>, newFiles: seq<Field>)

  const EMPTY := Edit(None, None, None, None, None, [], [], [])

  predicate PairLess(a: Pair, b: Pair) {
    a.level < b.level || (a.level == b.level && a.number < b.number)
  }

  function InsertPair(s: seq<Pair>, x: Pair): seq<Pair> {
    if s == [] then [x]
    else if s[|s| - 1] == x then s
    else if PairLess(s[|s| - 1], x) then s + [x]
    else InsertPair(s[..|s| - 1], x) + [s[|s| - 1]]
  }

  ghost predicate WellFormed(e: Edit) {
    && (forall i :: 0 <= i < |e.pointers| ==> e.pointers[i].CompactPointer?)
    && (forall i :: 0 <= i < |e.newFiles| ==> e.newFiles[i].NewFile?)
    && (forall i, j :: 0 <= i < j < |e.deleted| ==> PairLess(e.deleted[i], e.deleted[j]))
  }

  /** What one field does to the edit being read. */
  function Fill(e: Edit, f: Field): Edit {
    match f
    case Comparator(name) => e.(comparator := Some(name))
    case LogNumber(n) => e.(logNumber := Some(n))
    case PrevLogNumber(n) => e.(prevLogNumber := Some(n))
    case NextFileNumber(n) => e.(nextFileNumber := Some(n))
    case LastSequence(n) => e.(lastSequence := Some(n))
    case CompactPointer(_, _) => e.(pointers := e.pointers + [f])
    case DeletedFile(level, n) => e.(deleted := InsertPair(e.deleted, Pair(level, n)))
    case NewFile(_, _, _, _, _) => e.(newFiles := e.newFiles + [f])
  }

  function FillAll(e: Edit, fs: seq<Field>): Edit {
    if fs == [] then e else Fill(FillAll(e, fs[..|fs| - 1]), fs[|fs| - 1])
  }

  function ComparatorField(e: Edit): seq<Field> {
    if e.comparator.Some? then [Comparator(e.comparator.value)] else []
  }

  function LogField(e: Edit): seq<Field> {
    if e.logNumber.Some? then [LogNumber(e.logNumber.value)] else []
  }

  function PrevLogField(e: Edit): seq<Field> {
    if e.prevLogNumber.Some? then [PrevLogNumber(e.prevLogNumber.value)] else []
  }

  function NextFileField(e: Edit): seq<Field> {
    if e.nextFileNumber.Some? then [NextFileNumber(e.nextFileNumber.value)] else []
  }

  function SequenceField(e: Edit): seq<Field> {
    if e.lastSequence.Some? then [LastSequence(e.lastSequence.value)] else []
  }

  function Scalars(e: Edit): seq<Field> {
    ComparatorField(e) + LogField(e) + PrevLogField(e) + NextFileField(e) + SequenceField(e)
  }

  function Deletions(deleted: seq<Pair>): seq<Field> {
    seq(|deleted|, i requires 0 <= i < |deleted| => DeletedFile(deleted[i].level, deleted[i].number))
  }

  /** The fields in the order they are written. */
  function FieldsOf(e: Edit): seq<Field> {
    Scalars(e) + e.pointers + Deletions(e.deleted) + e.newFiles
  }

  method EncodeTo(e: Edit) returns (dst: Bytes)
    ensures dst == FieldsBytes(FieldsOf(e))
  {
    hide FieldBytes, Scalars;
    var scalars := Scalars(e);
    dst := AppendFields([], scalars, []);
    assert [] + scalars == scalars;
    dst := AppendFields(dst, e.pointers, scalars);
    dst := AppendFields(dst, Deletions(e.deleted), scalars + e.pointers);
    dst := AppendFields(dst, e.newFiles, scalars + e.pointers + Deletions(e.deleted));
  }

  method AppendFields(buffer: Bytes, fs: seq<Field>, ghost before: seq<Field>) returns (dst: Bytes)
    requires buffer == FieldsBytes(before)
    ensures dst == FieldsBytes(before + fs)
  {
    hide FieldBytes;
    dst := buffer;
    assert before + fs[..0] == before;
    for i := 0 to |fs|
      invariant dst == FieldsBytes(before + fs[..i])
    {
      OneMore(before + fs[..i], fs[i]);
      assert before + fs[..i] + [fs[i]] == before + fs[..i + 1];
      dst := dst + FieldBytes(fs[i]);
    }
    assert fs[..|fs|] == fs;
  }

  lemma {:induction false} OneMore(fs: seq<Field>, f: Field)
    ensures FieldsBytes(fs + [f]) == FieldsBytes(fs) + FieldBytes(f)
  {
    hide FieldBytes;
    if fs == [] {
      assert fs + [f] == [f] && [f][1..] == [];
    } else {
      OneMore(fs[1..], f);
      assert (fs + [f])[1..] == fs[1..] + [f];
    }
  }

  /** Read fields until the input is used up; a malformed or unknown one refuses the record. */
  method DecodeFrom(src: Bytes) returns (r: Option<Edit>)
    ensures r == if ReadFields(src).None? then None else Some(FillAll(EMPTY, ReadFields(src).value))
  {
    hide GetVarint32, GetPayload, Fill;
    var input, e := src, EMPTY;
    ghost var done: seq<Field> := [];
    ghost var whole := ReadFields(src);
    assert whole.Some? ==> done + whole.value == whole.value;
    while true
      invariant e == FillAll(EMPTY, done)
      invariant var rest := ReadFields(input); whole == if rest.None? then None else Some(done + rest.value)
      decreases |input|
    {
      var tag := GetVarint32(input);
      if tag.Bad? {
        break;
      }
      var f := GetPayload(tag.value, tag.rest);
      if f.Bad? {
        return None;
      }
      input := f.rest;
      ghost var rest := ReadFields(input);
      assert rest.Some? ==> done + ([f.value] + rest.value) == done + [f.value] + rest.value;
      assert (done + [f.value])[..|done|] == done;
      done := done + [f.value];
      e := Fill(e, f.value);
    }
    if input != [] {
      return None;
    }
    assert done + [] == done;
    r := Some(e);
  }

  // ---------------------------------------------------------------------------------------------
  // An edit reads back as itself

  lemma {:induction false} FillAppend(e: Edit, a: seq<Field>, b: seq<Field>)
    ensures FillAll(e, a + b) == FillAll(FillAll(e, a), b)
  {
    hide Fill;
    if b == [] {
      assert a + b == a;
    } else {
      FillAppend(e, a, b[..|b| - 1]);
      assert (a + b)[..|a + b| - 1] == a + b[..|b| - 1];
    }
  }

  lemma {:induction false} FillPointers(e: Edit, fs: seq<Field>)
    requires forall i :: 0 <= i < |fs| ==> fs[i].CompactPointer?
    ensures FillAll(e, fs) == e.(pointers := e.pointers + fs)
  {
    if fs != [] {
      FillPointers(e, fs[..|fs| - 1]);
      assert fs == fs[..|fs| - 1] + [fs[|fs| - 1]];
    }
  }

  lemma {:induction false} FillNewFiles(e: Edit, fs: seq<Field>)
    requires forall i :: 0 <= i < |fs| ==> fs[i].NewFile?
    ensures FillAll(e, fs) == e.(newFiles := e.newFiles + fs)
  {
    if fs != [] {
      FillNewFiles(e, fs[..|fs| - 1]);
      assert fs == fs[..|fs| - 1] + [fs[|fs| - 1]];
    }
  }

  lemma {:induction false} FillDeletions(e: Edit, s: seq<Pair>)
    requires e.deleted == [] && forall i, j :: 0 <= i < j < |s| ==> PairLess(s[i], s[j])
    ensures FillAll(e, Deletions(s)) == e.(deleted := s)
  {
    if s != [] {
      var last := |s| - 1;
      FillDeletions(e, s[..last]);
      assert Deletions(s)[..last] == Deletions(s[..last]);
      assert s == s[..last] + [s[last]];
    }
  }

  lemma FillScalars(e: Edit)
    ensures FillAll(EMPTY, Scalars(e)) == e.(pointers := [], deleted := [], newFiles := [])
  {
    hide ComparatorField, LogField, PrevLogField, NextFileField, SequenceField, FillAll;
    var a, b, c, d, f := ComparatorField(e), LogField(e), PrevLogField(e), NextFileField(e), SequenceField(e);
    FillAppend(EMPTY, a + b + c + d, f);
    FillAppend(EMPTY, a + b + c, d);
    FillAppend(EMPTY, a + b, c);
    FillAppend(EMPTY, a, b);
    var x1 := EMPTY.(comparator := e.comparator);
    var x2 := x1.(logNumber := e.logNumber);
    var x3 := x2.(prevLogNumber := e.prevLogNumber);
    var x4 := x3.(nextFileNumber := e.nextFileNumber);
    FillEach(EMPTY, e);
    FillEach(x1, e);
    FillEach(x2, e);
    FillEach(x3, e);
    FillEach(x4, e);
  }

  /** A field that is absent leaves what was there, which was nothing. */
  lemma FillEach(x: Edit, e: Edit)
    ensures x.comparator.None? ==> FillAll(x, ComparatorField(e)) == x.(comparator := e.comparator)
    ensures x.logNumber.None? ==> FillAll(x, LogField(e)) == x.(logNumber := e.logNumber)
    ensures x.prevLogNumber.None? ==> FillAll(x, PrevLogField(e)) == x.(prevLogNumber := e.prevLogNumber)
    ensures x.nextFileNumber.None? ==> FillAll(x, NextFileField(e)) == x.(nextFileNumber := e.nextFileNumber)
    ensures x.lastSequence.None? ==> FillAll(x, SequenceField(e)) == x.(lastSequence := e.lastSequence)
  {
    hide FillAll;
    FillOne(x, ComparatorField(e));
    FillOne(x, LogField(e));
    FillOne(x, PrevLogField(e));
    FillOne(x, NextFileField(e));
    FillOne(x, SequenceField(e));
  }

  lemma FillOne(e: Edit, fs: seq<Field>)
    requires |fs| <= 1
    ensures FillAll(e, fs) == if fs == [] then e else Fill(e, fs[0])
  {
  }

  /** An edit reads back as itself if and only if every level in it is one of the tree's and no key in it is
      empty; otherwise its record is refused. */
  lemma EditBack(e: Edit)
    requires WellFormed(e) && forall i :: 0 <= i < |FieldsOf(e)| ==> Fits(FieldsOf(e)[i])
    ensures var r := ReadFields(FieldsBytes(FieldsOf(e)));
            if forall i :: 0 <= i < |FieldsOf(e)| ==> Accepted(FieldsOf(e)[i]) then r.Some? && FillAll(EMPTY, r.value) == e
            else r.None?
  {
    hide Fits, Accepted, ReadFields, FieldsBytes, Scalars, FillAll;
    FieldsBack(FieldsOf(e));
    var scalars, deletions := Scalars(e), Deletions(e.deleted);
    FillAppend(EMPTY, scalars + e.pointers + deletions, e.newFiles);
    FillAppend(EMPTY, scalars + e.pointers, deletions);
    FillAppend(EMPTY, scalars, e.pointers);
    FillScalars(e);
    var a := e.(pointers := [], deleted := [], newFiles := []);
    FillPointers(a, e.pointers);
    var b := a.(pointers := [] + e.pointers);
    FillDeletions(b, e.deleted);
    FillNewFiles(b.(deleted := e.deleted), e.newFiles);
    assert [] + e.newFiles == e.newFiles && [] + e.pointers == e.pointers;
  }

  /** A record that adds a file without keys is written but cannot be read. */
  lemma EmptyKeyIsRefused(level: nat, n: nat, size: nat)
    requires level < NUM_LEVELS && n < DOUBLE_WORD && size < DOUBLE_WORD
    ensures ReadFields(FieldsBytes([NewFile(level, n, size, [], [])])) == None
  {
    var fs := [NewFile(level, n, size, [], [])];
    FieldsBack(fs);
    assert !Accepted(fs[0]);
  }

  // ---------------------------------------------------------------------------------------------
  // Bytes that are no record

  /** Tag 8 is no longer in use, and nothing above 9 ever was. */
  lemma UnknownTagIsRefused(tag: nat, s: Bytes)
    requires tag == 0 || tag == 8 || tag > 9
    ensures GetPayload(tag, s).Bad?
  {
  }

  lemma FieldReadIsAccepted(tag: nat, s: Bytes)
    requires GetPayload(tag, s).Got?
    ensures var f := GetPayload(tag, s).value; Accepted(f) && Fits(f) && TagOf(f) == tag
  {
    hide GetVarint32, GetVarint64, GetSlice;
    Bounded();
  }

  /** What is read fits the type it is read into. */
  lemma Bounded()
    ensures forall s :: GetVarint32(s).Got? ==> GetVarint32(s).value < WORD
    ensures forall s :: GetVarint64(s).Got? ==> GetVarint64(s).value < DOUBLE_WORD
    ensures forall s :: GetSlice(s).Got? ==> |GetSlice(s).value| < WORD
  {
    hide ReadVarint;
  }

  /** Whatever bytes are accepted, the fields read from them are ones that a reader accepts, so a record of them reads
      the same. */
  lemma {:induction false} FieldsReadAreAccepted(s: Bytes)
    requires ReadFields(s).Some?
    ensures var fs := ReadFields(s).value;
            (forall i :: 0 <= i < |fs| ==> Accepted(fs[i]) && Fits(fs[i])) && ReadFields(FieldsBytes(fs)) == Some(fs)
    decreases |s|
  {
    hide GetVarint32, GetPayload, Accepted, Fits, FieldsBytes;
    var tag := GetVarint32(s);
    if tag.Got? {
      FieldReadIsAccepted(tag.value, tag.rest);
      FieldsReadAreAccepted(GetPayload(tag.value, tag.rest).rest);
    }
    FieldsBack(ReadFields(s).value);
  }

  const SAMPLE := Edit(Some([99]), Some(3), Some(0), Some(5), Some(7), [CompactPointer(2, [100])], [Pair(1, 2)],
                       [NewFile(0, 4, 9, [97], [98])])

  /** An edit with every kind of field, byte for byte. */
  lemma KnownRecord()
    ensures FieldsBytes(FieldsOf(SAMPLE)) == [1, 1, 99, 2, 3, 9, 0, 3, 5, 4, 7, 5, 2, 1, 100, 6, 1, 2, 7, 0, 4, 9, 1, 97, 1, 98]
  {
    hide FieldBytes, FieldsBytes, FieldsOf;
    var scalars: seq<Field> := [Comparator([99]), LogNumber(3), PrevLogNumber(0), NextFileNumber(5), LastSequence(7)];
    var files: seq<Field> := [CompactPointer(2, [100]), DeletedFile(1, 2), NewFile(0, 4, 9, [97], [98])];
    SampleFields(scalars, files);
    KnownScalars(scalars);
    KnownFiles(files);
    BytesAppend(scalars, files);
  }

  lemma SampleFields(scalars: seq<Field>, files: seq<Field>)
    requires scalars == [Comparator([99]), LogNumber(3), PrevLogNumber(0), NextFileNumber(5), LastSequence(7)]
    requires files == [CompactPointer(2, [100]), DeletedFile(1, 2), NewFile(0, 4, 9, [97], [98])]
    ensures FieldsOf(SAMPLE) == scalars + files
  {
    hide Scalars, Deletions;
    assert Scalars(SAMPLE) == scalars by { SampleScalars(); }
    assert Deletions([Pair(1, 2)]) == [DeletedFile(1, 2)] by { SampleDeletions(); }
  }

  lemma SampleScalars()
    ensures Scalars(SAMPLE) == [Comparator([99]), LogNumber(3), PrevLogNumber(0), NextFileNumber(5), LastSequence(7)]
  {
  }

  lemma SampleDeletions()
    ensures Deletions([Pair(1, 2)]) == [DeletedFile(1, 2)]
  {
  }

  lemma {:induction false} BytesAppend(a: seq<Field>, b: seq<Field>)
    ensures FieldsBytes(a + b) == FieldsBytes(a) + FieldsBytes(b)
  {
    hide FieldBytes;
    if a == [] {
      assert a + b == b;
    } else {
      BytesAppend(a[1..], b);
      assert (a + b)[1..] == a[1..] + b && (a + b)[0] == a[0];
      Regroup(FieldBytes(a[0]), FieldsBytes(a[1..]), FieldsBytes(b));
    }
  }

  lemma KnownScalars(fs: seq<Field>)
    requires fs == [Comparator([99]), LogNumber(3), PrevLogNumber(0), NextFileNumber(5), LastSequence(7)]
    ensures FieldsBytes(fs) == [1, 1, 99, 2, 3, 9, 0, 3, 5, 4, 7]
  {
    hide FieldBytes;
    KnownFields();
    assert fs[1..][1..] == fs[2..] && fs[2..][1..] == fs[3..] && fs[3..][1..] == fs[4..] && fs[4..][1..] == [];
    assert FieldsBytes(fs[4..]) == [4, 7];
    assert FieldsBytes(fs[3..]) == [3, 5, 4, 7];
    assert FieldsBytes(fs[2..]) == [9, 0, 3, 5, 4, 7];
    assert FieldsBytes(fs[1..]) == [2, 3, 9, 0, 3, 5, 4, 7];
  }

  lemma KnownFiles(fs: seq<Field>)
    requires fs == [CompactPointer(2, [100]), DeletedFile(1, 2), NewFile(0, 4, 9, [97], [98])]
    ensures FieldsBytes(fs) == [5, 2, 1, 100, 6, 1, 2, 7, 0, 4, 9, 1, 97, 1, 98]
  {
    hide FieldBytes;
    KnownFields();
    assert fs[1..][1..] == fs[2..] && fs[2..][1..] == [];
    assert FieldsBytes(fs[2..]) == [7, 0, 4, 9, 1, 97, 1, 98];
    assert FieldsBytes(fs[1..]) == [6, 1, 2, 7, 0, 4, 9, 1, 97, 1, 98];
  }

  lemma KnownFields()
    ensures FieldBytes(Comparator([99])) == [1, 1, 99]
    ensures FieldBytes(LogNumber(3)) == [2, 3] && FieldBytes(PrevLogNumber(0)) == [9, 0]
    ensures FieldBytes(NextFileNumber(5)) == [3, 5] && FieldBytes(LastSequence(7)) == [4, 7]
    ensures FieldBytes(CompactPointer(2, [100])) == [5, 2, 1, 100] && FieldBytes(DeletedFile(1, 2)) == [6, 1, 2]
    ensures FieldBytes(NewFile(0, 4, 9, [97], [98])) == [7, 0, 4, 9, 1, 97, 1, 98]
  {
    hide Varint;
    forall v: nat | v < 128 ensures Varint(v) == [v] {
      Small(v);
    }
  }

  lemma Small(v: nat)
    requires v < 128
    ensures Varint(v) == [v]
  {
  }
}
