/** Table files, their key ranges, and the searches over the files of one level. */
module Files {
  import opened Format

  datatype File = File(number: nat, size: nat, entries: seq<Entry>)

  predicate FileOk(f: File) {
    && f.entries != []
    && Sorted(f.entries)
    && forall e :: e in f.entries ==> e.key.seqno <= MAX_SEQUENCE
  }

  predicate FilesOk(fs: seq<File>) {
    forall f :: f in fs ==> FileOk(f)
  }

  /** The part of `FileOk` that concerns only the recorded key range. */
  predicate RangeOk(f: File) {
    && LessEq(Smallest(f), Largest(f))
    && Smallest(f).seqno <= MAX_SEQUENCE && Largest(f).seqno <= MAX_SEQUENCE
  }

  predicate RangesOk(fs: seq<File>) {
    forall f :: f in fs ==> RangeOk(f)
  }

  const CLEARED_KEY := IKey(0, 0, Deletion)

  /** `FileMetaData::smallest` and `largest`: the first and last key of the table. */
  function Smallest(f: File): IKey {
    if f.entries == [] then CLEARED_KEY else f.entries[0].key
  }

  function Largest(f: File): IKey {
    if f.entries == [] then CLEARED_KEY else f.entries[|f.entries| - 1].key
  }

  function Lo(f: File): UserKey { Smallest(f).user }

  function Hi(f: File): UserKey { Largest(f).user }

  lemma Bounds(f: File)
    requires FileOk(f)
    ensures RangeOk(f)
    ensures forall e :: e in f.entries ==> LessEq(Smallest(f), e.key) && LessEq(e.key, Largest(f))
    ensures forall e :: e in f.entries ==> Lo(f) <= e.key.user <= Hi(f)
  {}

  lemma OkRanges(fs: seq<File>)
    requires FilesOk(fs)
    ensures RangesOk(fs)
  {
    forall f | f in fs ensures RangeOk(f) {
      Bounds(f);
    }
  }

  /** The files of a level above 0: in ascending order, with disjoint internal-key ranges.
      Two neighbours may still share one user key, the older versions on the right. */
  predicate SortedLevel(fs: seq<File>) {
    forall i, j :: 0 <= i < j < |fs| ==> Less(Largest(fs[i]), Smallest(fs[j]))
  }

  predicate Overlaps(f: File, lo: Option<UserKey>, hi: Option<UserKey>) {
    && (lo.Some? ==> lo.value <= Hi(f))
    && (hi.Some? ==> Lo(f) <= hi.value)
  }

  /** The two files' user-key ranges meet. */
  predicate Touch(f: File, g: File) {
    Lo(f) <= Hi(g) && Lo(g) <= Hi(f)
  }

  /** `FindFile`: binary search for the first file whose largest key is at or past `key`. */
  method FindFile(files: seq<File>, key: IKey) returns (r: nat)
    requires RangesOk(files) && SortedLevel(files)
    ensures r <= |files|
    ensures forall i :: 0 <= i < r ==> Less(Largest(files[i]), key)
    ensures forall i :: r <= i < |files| ==> LessEq(key, Largest(files[i]))
  {
    var left, right := 0, |files|;
    while left < right
      invariant 0 <= left <= right <= |files|
      invariant forall i :: 0 <= i < left ==> Less(Largest(files[i]), key)
      invariant forall i :: right <= i < |files| ==> LessEq(key, Largest(files[i]))
    {
      var mid := (left + right) / 2;
      LargestAscends(files, mid);
      if Less(Largest(files[mid]), key) {
        left := mid + 1;
      } else {
        right := mid;
      }
    }
    r := right;
  }

  lemma LargestAscends(files: seq<File>, m: nat)
    requires RangesOk(files) && SortedLevel(files) && m < |files|
    ensures forall i :: 0 <= i < m ==> Less(Largest(files[i]), Largest(files[m]))
    ensures forall i :: m < i < |files| ==> Less(Largest(files[m]), Largest(files[i]))
  {
    assert forall i :: 0 <= i < |files| ==> RangeOk(files[i]);
  }

  /** `SomeFileOverlapsRange`: the binary search over disjoint files agrees with the full scan. */
  method SomeFileOverlapsRange(disjointSorted: bool, files: seq<File>, lo: Option<UserKey>, hi: Option<UserKey>)
    returns (r: bool)
    requires RangesOk(files) && (disjointSorted ==> SortedLevel(files))
    ensures r <==> exists f :: f in files && Overlaps(f, lo, hi)
  {
    if !disjointSorted {
      for i := 0 to |files|
        invariant forall j :: 0 <= j < i ==> !Overlaps(files[j], lo, hi)
      {
        if hi.Some? && Lo(files[i]) > hi.value {
          continue;
        }
        if lo.Some? && Hi(files[i]) < lo.value {
          continue;
        }
        assert Overlaps(files[i], lo, hi);
        return true;
      }
      return false;
    }
    var index := 0;
    if lo.Some? {
      index := FindFile(files, IKey(lo.value, MAX_SEQUENCE, Put));
    }
    forall i | 0 <= i < index ensures !Overlaps(files[i], lo, hi) {
      assert RangeOk(files[i]);
    }
    if index >= |files| {
      return false;
    }
    SeekPastUser(files[index], lo);
    if hi.Some? && Lo(files[index]) > hi.value {
      forall i | index <= i < |files| ensures !Overlaps(files[i], lo, hi) {
        LoAscends(files, index, i);
      }
      return false;
    }
    assert Overlaps(files[index], lo, hi);
    return true;
  }

  /** A file not wholly before (lo, MAX_SEQUENCE) reaches user key `lo`. */
  lemma SeekPastUser(f: File, lo: Option<UserKey>)
    requires RangeOk(f)
    requires lo.Some? ==> LessEq(IKey(lo.value, MAX_SEQUENCE, Put), Largest(f))
    ensures lo.Some? ==> lo.value <= Hi(f)
  {}

  lemma LoAscends(files: seq<File>, i: nat, j: nat)
    requires RangesOk(files) && SortedLevel(files) && i <= j < |files|
    ensures Lo(files[i]) <= Lo(files[j])
  {
    assert RangeOk(files[i]);
  }

  /** The files meeting a user-key range, in level order. */
  function Overlapping(files: seq<File>, lo: Option<UserKey>, hi: Option<UserKey>): seq<File> {
    if files == [] then [] else
      var n := |files| - 1;
      Overlapping(files[..n], lo, hi) + if Overlaps(files[n], lo, hi) then [files[n]] else []
  }

  lemma {:induction false} OverlappingMembers(files: seq<File>, lo: Option<UserKey>, hi: Option<UserKey>)
    ensures forall f :: f in Overlapping(files, lo, hi) <==> f in files && Overlaps(f, lo, hi)
  {
    if files != [] {
      var n := |files| - 1;
      OverlappingMembers(files[..n], lo, hi);
      assert files == files[..n] + [files[n]];
    }
  }

  predicate NoDuplicates(fs: seq<File>) {
    forall i, j :: 0 <= i < j < |fs| ==> fs[i] != fs[j]
  }

  lemma {:induction false} OverlappingNoDuplicates(files: seq<File>, lo: Option<UserKey>, hi: Option<UserKey>)
    requires NoDuplicates(files)
    ensures NoDuplicates(Overlapping(files, lo, hi))
  {
    if files != [] {
      var n := |files| - 1;
      OverlappingNoDuplicates(files[..n], lo, hi);
      OverlappingMembers(files[..n], lo, hi);
      assert files[n] !in Overlapping(files[..n], lo, hi);
    }
  }

  /** A set of files that holds every file meeting the range and every file meeting a member. */
  ghost predicate OverlapClosed(files: seq<File>, lo: Option<UserKey>, hi: Option<UserKey>, C: set<File>) {
    && (forall f :: f in files && Overlaps(f, lo, hi) ==> f in C)
    && (forall f, g :: f in files && g in files && f in C && Touch(f, g) ==> g in C)
  }

  ghost function Members(fs: seq<File>): set<File> {
    set f | f in fs
  }

  /** `Version::GetOverlappingInputs`.  Above level 0 it is one filtering scan.  At level 0 the scan
      restarts whenever a file widens the range; it stops, and yields the least overlap-closed set. */
  method GetOverlappingInputs(level: nat, files: seq<File>, begin: Option<UserKey>, end: Option<UserKey>)
    returns (inputs: seq<File>)
    requires RangesOk(files)
    ensures forall f :: f in inputs ==> f in files
    ensures level > 0 ==> inputs == Overlapping(files, begin, end)
    ensures level == 0 ==> OverlapClosed(files, begin, end, Members(inputs))
    ensures level == 0 ==> forall C :: OverlapClosed(files, begin, end, C) ==> Members(inputs) <= C
    ensures exists lo, hi :: inputs == Overlapping(files, lo, hi)
  {
    inputs := [];
    var userBegin, userEnd := begin, end;
    var i := 0;
    while i < |files|
      invariant 0 <= i <= |files|
      invariant userBegin.Some? <==> begin.Some?
      invariant userEnd.Some? <==> end.Some?
      invariant begin.Some? ==> userBegin.value <= begin.value
      invariant end.Some? ==> end.value <= userEnd.value
      invariant level > 0 ==> userBegin == begin && userEnd == end
      invariant inputs == Overlapping(files[..i], userBegin, userEnd)
      invariant level == 0 ==> forall f :: f in inputs ==> Within(f, userBegin, userEnd)
      invariant forall C :: OverlapClosed(files, begin, end, C) ==>
                  forall f :: f in files && Overlaps(f, userBegin, userEnd) ==> f in C
      decreases Outside(files, userBegin, userEnd), |files| - i
    {
      var f := files[i];
      assert files[..i + 1][..i] == files[..i];
      i := i + 1;
      if userBegin.Some? && Hi(f) < userBegin.value {
      } else if userEnd.Some? && Lo(f) > userEnd.value {
      } else {
        inputs := inputs + [f];
        if level == 0 {
          if userBegin.Some? && Lo(f) < userBegin.value {
            WidenBegin(files, begin, end, userBegin, userEnd, f);
            userBegin := Some(Lo(f));
            inputs := [];
            i := 0;
          } else if userEnd.Some? && Hi(f) > userEnd.value {
            WidenEnd(files, begin, end, userBegin, userEnd, f);
            userEnd := Some(Hi(f));
            inputs := [];
            i := 0;
          }
        }
      }
    }
    assert files[..i] == files;
    OverlappingMembers(files, userBegin, userEnd);
  }

  predicate Within(f: File, lo: Option<UserKey>, hi: Option<UserKey>) {
    (lo.Some? ==> lo.value <= Lo(f)) && (hi.Some? ==> Hi(f) <= hi.value)
  }

  /** The termination measure of the restarting scan: how many files still reach outside the range. */
  ghost function Outside(files: seq<File>, lo: Option<UserKey>, hi: Option<UserKey>): nat {
    |set f | f in files && lo.Some? && Lo(f) < lo.value| + |set f | f in files && hi.Some? && Hi(f) > hi.value|
  }

  lemma WidenBegin(files: seq<File>, begin: Option<UserKey>, end: Option<UserKey>,
                   lo: Option<UserKey>, hi: Option<UserKey>, f: File)
    requires RangesOk(files) && f in files && lo.Some? && Lo(f) < lo.value && Overlaps(f, lo, hi)
    ensures Outside(files, Some(Lo(f)), hi) < Outside(files, lo, hi)
    ensures forall C :: OverlapClosed(files, begin, end, C)
                     && (forall g :: g in files && Overlaps(g, lo, hi) ==> g in C)
                     ==> forall g :: g in files && Overlaps(g, Some(Lo(f)), hi) ==> g in C
  {
    var before := set g | g in files && lo.Some? && Lo(g) < lo.value;
    var after := set g | g in files && Some(Lo(f)).Some? && Lo(g) < Some(Lo(f)).value;
    SmallerSet(after, before, f);
    forall C, g | OverlapClosed(files, begin, end, C) && g in files && Overlaps(g, Some(Lo(f)), hi)
               && (forall h :: h in files && Overlaps(h, lo, hi) ==> h in C)
      ensures g in C
    {
      assert RangeOk(g);
      assert Overlaps(g, lo, hi) || Touch(f, g);
    }
  }

  lemma WidenEnd(files: seq<File>, begin: Option<UserKey>, end: Option<UserKey>,
                 lo: Option<UserKey>, hi: Option<UserKey>, f: File)
    requires RangesOk(files) && f in files && hi.Some? && Hi(f) > hi.value && Overlaps(f, lo, hi)
    ensures Outside(files, lo, Some(Hi(f))) < Outside(files, lo, hi)
    ensures forall C :: OverlapClosed(files, begin, end, C)
                     && (forall g :: g in files && Overlaps(g, lo, hi) ==> g in C)
                     ==> forall g :: g in files && Overlaps(g, lo, Some(Hi(f))) ==> g in C
  {
    var before := set g | g in files && hi.Some? && Hi(g) > hi.value;
    var after := set g | g in files && Some(Hi(f)).Some? && Hi(g) > Some(Hi(f)).value;
    SmallerSet(after, before, f);
    forall C, g | OverlapClosed(files, begin, end, C) && g in files && Overlaps(g, lo, Some(Hi(f)))
               && (forall h :: h in files && Overlaps(h, lo, hi) ==> h in C)
      ensures g in C
    {
      assert RangeOk(g);
      assert Overlaps(g, lo, hi) || Touch(f, g);
    }
  }

  lemma SmallerSet<T>(a: set<T>, b: set<T>, x: T)
    requires a <= b && x in b && x !in a
    ensures |a| < |b|
  {
    SubsetSize(a, b - {x});
  }

  lemma {:induction false} SubsetSize<T>(a: set<T>, b: set<T>)
    requires a <= b
    ensures |a| <= |b|
  {
    if x :| x in a {
      SubsetSize(a - {x}, b - {x});
    }
  }
}
