/** Choosing the inputs of a compaction: the boundary files at the same level, the overlapping files
    one level down, and the optional widening that does not pull in more of the lower level. */
module Selection {
  import opened Format
  import opened Files

  /** The newest-first order of internal keys, on entries of one user key. */
  predicate Before(x: Entry, e: Entry) {
    x.key.user == e.key.user ==> Less(x.key, e.key)
  }

  /** No file left at a level holds an older version of a user key that is being taken. */
  ghost predicate LeavesNoOlder(level: seq<File>, taken: seq<File>) {
    forall f, g, e, x :: f in taken && g in level && g !in taken && e in f.entries && x in g.entries ==> Before(x, e)
  }

  /** No file left at a level reaches into the internal-key hull of the inputs. */
  ghost predicate OutsideHull(level: seq<File>, taken: seq<File>, inputs: seq<File>) {
    forall g :: g in level && g !in taken ==>
      || (forall f :: f in inputs ==> Less(Largest(g), Smallest(f)))
      || (forall f :: f in inputs ==> Less(Largest(f), Smallest(g)))
  }

  /** What makes a pair of input lists safe to merge into one file of `lower`. */
  ghost predicate ClosedInputs(upper: seq<File>, lower: seq<File>, in0: seq<File>, in1: seq<File>) {
    && in0 != []
    && (forall f :: f in in0 ==> f in upper)
    && (forall f :: f in in1 ==> f in lower)
    && NoDuplicates(in0) && NoDuplicates(in1)
    && LeavesNoOlder(upper, in0)
    && LeavesNoOlder(lower, in1)
    && (forall f, g :: f in in0 && g in lower && g !in in1 ==> !Touch(f, g))
    && OutsideHull(lower, in1, in0 + in1)
  }

  // ---------------------------------------------------------------------------------------------
  // Boundary files

  /** `f` continues the user key that `key` ends with. */
  predicate IsBoundary(f: File, key: IKey) {
    Less(key, Smallest(f)) && Lo(f) == key.user
  }

  method FindLargestKey(files: seq<File>) returns (r: Option<IKey>)
    ensures r.None? <==> files == []
    ensures r.Some? ==> IsLargestKey(files, r.value)
  {
    if files == [] {
      return None;
    }
    var largest := Largest(files[0]);
    for i := 1 to |files|
      invariant forall j :: 0 <= j < i ==> LessEq(Largest(files[j]), largest)
      invariant exists j :: 0 <= j < i && Largest(files[j]) == largest
    {
      if Less(largest, Largest(files[i])) {
        largest := Largest(files[i]);
      }
    }
    r := Some(largest);
  }

  method FindSmallestBoundaryFile(level: seq<File>, key: IKey) returns (r: Option<File>)
    ensures r.None? <==> NoBoundary(level, key)
    ensures r.Some? ==> FirstBoundary(level, key, r.value)
  {
    r := None;
    for i := 0 to |level|
      invariant r.None? <==> forall j :: 0 <= j < i ==> !IsBoundary(level[j], key)
      invariant r.Some? ==> r.value in level && IsBoundary(r.value, key)
      invariant r.Some? ==> forall j :: 0 <= j < i && IsBoundary(level[j], key) ==> LessEq(Smallest(r.value), Smallest(level[j]))
    {
      var f := level[i];
      if IsBoundary(f, key) {
        if r.None? || Less(Smallest(f), Smallest(r.value)) {
          r := Some(f);
        }
      }
    }
  }

  ghost function Beyond(level: seq<File>, key: IKey): set<File> {
    set f | f in level && Less(key, Smallest(f))
  }

  /** `f` is the boundary file after `key` that starts first. */
  ghost predicate FirstBoundary(level: seq<File>, key: IKey, f: File) {
    && f in level && IsBoundary(f, key)
    && forall g :: g in level && IsBoundary(g, key) ==> LessEq(Smallest(f), Smallest(g))
  }

  /** The largest key once the files of `chain` have followed `key`. */
  function KeyAfter(key: IKey, chain: seq<File>): IKey {
    if chain == [] then key else Largest(chain[|chain| - 1])
  }

  ghost predicate Links(level: seq<File>, key: IKey, chain: seq<File>) {
    chain == [] ||
    var n := |chain| - 1;
    Links(level, key, chain[..n]) && FirstBoundary(level, KeyAfter(key, chain[..n]), chain[n])
  }

  /** A complete chain: each link is the first boundary file after the one before, and none follows. */
  ghost predicate BoundaryChain(level: seq<File>, key: IKey, chain: seq<File>) {
    Links(level, key, chain) && NoBoundary(level, KeyAfter(key, chain))
  }

  predicate NoBoundary(level: seq<File>, key: IKey) {
    forall f :: f in level ==> !IsBoundary(f, key)
  }

  ghost predicate IsLargestKey(files: seq<File>, key: IKey) {
    && (forall f :: f in files ==> LessEq(Largest(f), key))
    && exists f :: f in files && Largest(f) == key
  }

  /** `r` is `files` followed by the whole boundary chain after its largest key. */
  ghost predicate BoundaryClosure(level: seq<File>, files: seq<File>, r: seq<File>) {
    && |files| <= |r| && r[..|files|] == files
    && (files == [] ==> r == [])
    && (files != [] ==> exists key :: IsLargestKey(files, key) && BoundaryChain(level, key, r[|files|..]))
  }

  /** `AddBoundaryInputs`: the search stops, because every file it appends starts after everything
      gathered so far, and it has followed the chain of boundary files to its end. */
  method AddBoundaryInputs(level: seq<File>, files: seq<File>) returns (r: seq<File>)
    requires RangesOk(level)
    ensures BoundaryClosure(level, files, r)
  {
    var largest := FindLargestKey(files);
    if largest.None? {
      return files;
    }
    var key := largest.value;
    var chain: seq<File> := [];
    var searching := true;
    while searching
      invariant key == KeyAfter(largest.value, chain)
      invariant Links(level, largest.value, chain)
      invariant !searching ==> NoBoundary(level, key)
      decreases searching, |Beyond(level, key)|
    {
      var next := FindSmallestBoundaryFile(level, key);
      if next.Some? {
        var f := next.value;
        Passes(level, key, f);
        assert (chain + [f])[..|chain|] == chain;
        chain := chain + [f];
        key := Largest(f);
      } else {
        searching := false;
      }
    }
    r := files + chain;
    assert r[|files|..] == chain;
    assert IsLargestKey(files, largest.value) && BoundaryChain(level, largest.value, chain);
  }

  lemma Passes(level: seq<File>, key: IKey, f: File)
    requires RangesOk(level) && FirstBoundary(level, key, f)
    ensures |Beyond(level, Largest(f))| < |Beyond(level, key)|
    ensures Less(key, Largest(f))
  {
    assert RangeOk(f);
    SmallerSet(Beyond(level, Largest(f)), Beyond(level, key), f);
  }

  /** Nothing in a chain was there before: it repeats no file and adds none it started from. */
  lemma {:induction false} ChainIsNew(level: seq<File>, files: seq<File>, key: IKey, chain: seq<File>)
    requires RangesOk(level) && IsLargestKey(files, key) && Links(level, key, chain)
    ensures forall f :: f in files + chain ==> LessEq(Largest(f), KeyAfter(key, chain))
    ensures forall f :: f in chain ==> f in level && f !in files
    ensures NoDuplicates(chain)
  {
    if chain != [] {
      var n := |chain| - 1;
      ChainIsNew(level, files, key, chain[..n]);
      Passes(level, KeyAfter(key, chain[..n]), chain[n]);
      assert chain == chain[..n] + [chain[n]];
      assert chain[n] !in files + chain[..n];
    }
  }

  /** In a sorted level the chain that follows a contiguous run is the rest of that run. */
  lemma {:induction false} ChainOfRun(level: seq<File>, to: nat, chain: seq<File>)
    requires RangesOk(level) && SortedLevel(level) && 0 < to <= |level|
    requires Links(level, Largest(level[to - 1]), chain)
    ensures to + |chain| <= |level| && forall k :: 0 <= k < |chain| ==> chain[k] == level[to + k]
  {
    if chain != [] {
      var n := |chain| - 1;
      var init := chain[..n];
      ChainOfRun(level, to, init);
      assert n > 0 ==> init[n - 1] == level[to + n - 1];
      NextIsBoundary(level, to + n, chain[n]);
      forall k | 0 <= k < n ensures chain[k] == level[to + k] {
        assert init[k] == chain[k];
      }
    }
  }

  /** `AddBoundaryInputs` on a run of a sorted level extends it to where a user key ends. */
  lemma BoundaryOfRun(level: seq<File>, from: nat, to: nat, r: seq<File>) returns (end: nat)
    requires RangesOk(level) && SortedLevel(level) && from < to <= |level|
    requires BoundaryClosure(level, level[from..to], r)
    ensures to <= end <= |level| && r == level[from..end]
    ensures end < |level| ==> Hi(level[end - 1]) < Lo(level[end])
  {
    var chain := r[|level[from..to]|..];
    var key :| IsLargestKey(level[from..to], key) && BoundaryChain(level, key, chain);
    end := ChainAfterRun(level, from, to, key, chain);
    Adjacent(level, from, to, end);
    assert r == r[..|level[from..to]|] + chain;
  }

  lemma ChainAfterRun(level: seq<File>, from: nat, to: nat, key: IKey, chain: seq<File>) returns (end: nat)
    requires RangesOk(level) && SortedLevel(level) && from < to <= |level|
    requires IsLargestKey(level[from..to], key) && BoundaryChain(level, key, chain)
    ensures to <= end <= |level| && chain == level[to..end]
    ensures end < |level| ==> Hi(level[end - 1]) < Lo(level[end])
  {
    hide RangesOk, SortedLevel, NoBoundary, Hi, Lo, Largest, Smallest;
    RunEnd(level, from, to, key);
    ChainOfRun(level, to, chain);
    end := to + |chain|;
    assert chain == level[to..end];
    if end < |level| {
      UserKeyEnds(level, end);
    }
  }

  lemma Adjacent<T>(s: seq<T>, a: nat, b: nat, c: nat)
    requires a <= b <= c <= |s|
    ensures s[a..b] + s[b..c] == s[a..c]
  {}

  lemma UserKeyEnds(level: seq<File>, end: nat)
    requires SortedLevel(level) && 0 < end < |level| && NoBoundary(level, Largest(level[end - 1]))
    ensures Hi(level[end - 1]) < Lo(level[end])
  {
    assert !IsBoundary(level[end], Largest(level[end - 1]));
  }

  lemma RunEnd(level: seq<File>, from: nat, to: nat, key: IKey)
    requires RangesOk(level) && SortedLevel(level) && from < to <= |level|
    requires forall f :: f in level[from..to] ==> LessEq(Largest(f), key)
    requires exists f :: f in level[from..to] && Largest(f) == key
    ensures key == Largest(level[to - 1])
  {
    var f :| f in level[from..to] && Largest(f) == key;
    assert level[from..to][to - 1 - from] == level[to - 1];
    LargestAscends(level, to - 1);
  }

  /** In a sorted level the smallest boundary file after position `to - 1` is the very next file. */
  lemma NextIsBoundary(level: seq<File>, to: nat, f: File)
    requires RangesOk(level) && SortedLevel(level) && 0 < to <= |level|
    requires FirstBoundary(level, Largest(level[to - 1]), f)
    ensures to < |level| && level[to] == f
  {
    var k :| 0 <= k < |level| && level[k] == f;
    LargestAscends(level, to - 1);
    assert k >= to;
    assert forall m :: to < m < |level| ==> Less(Largest(level[to]), Smallest(level[m]));
    LoAscends(level, to - 1, to);
    LoAscends(level, to, k);
    assert IsBoundary(f, Largest(level[to - 1])) && Lo(level[to]) <= Lo(f);
    assert IsBoundary(level[to], Largest(level[to - 1])) && RangeOk(level[to]);
  }

  // ---------------------------------------------------------------------------------------------
  // Ranges

  /** The least and the greatest key of some files. */
  ghost predicate IsHull(files: seq<File>, smallest: IKey, largest: IKey) {
    && (forall f :: f in files ==> LessEq(smallest, Smallest(f)) && LessEq(Largest(f), largest))
    && (exists f :: f in files && Smallest(f) == smallest)
    && (exists f :: f in files && Largest(f) == largest)
  }

  method GetRange(files: seq<File>) returns (smallest: IKey, largest: IKey)
    requires files != []
    ensures IsHull(files, smallest, largest)
  {
    smallest, largest := Smallest(files[0]), Largest(files[0]);
    for i := 1 to |files|
      invariant forall j :: 0 <= j < i ==> LessEq(smallest, Smallest(files[j])) && LessEq(Largest(files[j]), largest)
      invariant exists j :: 0 <= j < i && Smallest(files[j]) == smallest
      invariant exists j :: 0 <= j < i && Largest(files[j]) == largest
    {
      if Less(Smallest(files[i]), smallest) {
        smallest := Smallest(files[i]);
      }
      if Less(largest, Largest(files[i])) {
        largest := Largest(files[i]);
      }
    }
  }

  function TotalFileSize(files: seq<File>): nat {
    if files == [] then 0 else files[0].size + TotalFileSize(files[1..])
  }

  // ---------------------------------------------------------------------------------------------
  // Runs of a sorted level

  lemma OverlappingRun(level: seq<File>, lo: Option<UserKey>, hi: Option<UserKey>, i: nat, j: nat)
    requires i <= j <= |level|
    requires forall k :: 0 <= k < |level| ==> (Overlaps(level[k], lo, hi) <==> i <= k < j)
    ensures Overlapping(level, lo, hi) == level[i..j]
  {
    hide Overlaps, Overlapping;
    OverlappingUpTo(level, lo, hi, i, j, |level|);
    assert level[..|level|] == level;
  }

  lemma {:induction false} OverlappingUpTo(level: seq<File>, lo: Option<UserKey>, hi: Option<UserKey>, i: nat, j: nat, n: nat)
    requires i <= j <= |level| && n <= |level|
    requires forall k :: 0 <= k < |level| ==> (Overlaps(level[k], lo, hi) <==> i <= k < j)
    ensures Overlapping(level[..n], lo, hi) == if n <= i then [] else if n < j then level[i..n] else level[i..j]
  {
    hide Overlaps, Overlapping;
    OverlappingStep(level, lo, hi, n);
    if n > 0 {
      OverlappingUpTo(level, lo, hi, i, j, n - 1);
      if i < n <= j {
        Adjacent(level, i, n - 1, n);
      }
    }
  }

  lemma OverlappingStep(level: seq<File>, lo: Option<UserKey>, hi: Option<UserKey>, n: nat)
    requires n <= |level|
    ensures n == 0 ==> Overlapping(level[..n], lo, hi) == []
    ensures n > 0 ==> Overlapping(level[..n], lo, hi)
                      == Overlapping(level[..n - 1], lo, hi) + if Overlaps(level[n - 1], lo, hi) then level[n - 1..n] else []
  {
    hide Overlaps;
    assert n > 0 ==> level[..n][..n - 1] == level[..n - 1];
  }

  /** In a sorted level the files meeting a range are contiguous. */
  lemma OverlappingIsRun(level: seq<File>, lo: Option<UserKey>, hi: Option<UserKey>) returns (i: nat, j: nat)
    requires RangesOk(level) && SortedLevel(level)
    ensures i <= j <= |level| && Overlapping(level, lo, hi) == level[i..j]
    ensures forall k :: 0 <= k < |level| ==> (Overlaps(level[k], lo, hi) <==> i <= k < j)
  {
    i := 0;
    while i < |level| && !Overlaps(level[i], lo, hi)
      invariant i <= |level| && forall k :: 0 <= k < i ==> !Overlaps(level[k], lo, hi)
    {
      i := i + 1;
    }
    j := i;
    while j < |level| && Overlaps(level[j], lo, hi)
      invariant i <= j <= |level| && forall k :: i <= k < j ==> Overlaps(level[k], lo, hi)
    {
      j := j + 1;
    }
    forall k | j <= k < |level| ensures !Overlaps(level[k], lo, hi) {
      if i < j {
        LoAscends(level, j, k);
        LargestAscends(level, j);
        LargestAscends(level, i);
      }
    }
    OverlappingRun(level, lo, hi, i, j);
  }

  /** A run of a sorted level that ends where a user key ends leaves nothing older behind. */
  lemma ClosedRun(level: seq<File>, i: nat, j: nat)
    requires FilesOk(level) && SortedLevel(level) && i <= j <= |level|
    requires i < j < |level| ==> Hi(level[j - 1]) < Lo(level[j])
    ensures LeavesNoOlder(level, level[i..j])
  {
    forall f, g, e, x | f in level[i..j] && g in level && g !in level[i..j] && e in f.entries && x in g.entries
      ensures Before(x, e)
    {
      var a :| i <= a < j && level[a] == f;
      var b :| 0 <= b < |level| && level[b] == g;
      assert forall c :: i <= c < j ==> level[i..j][c - i] == level[c];
      assert b < i || b >= j;
      Bounds(f);
      Bounds(g);
      if b >= j {
        UserKeysApart(level, a, j, b);
      }
    }
  }

  lemma UserKeysApart(level: seq<File>, a: nat, j: nat, b: nat)
    requires FilesOk(level) && SortedLevel(level) && a < j <= b < |level| && Hi(level[j - 1]) < Lo(level[j])
    ensures Hi(level[a]) < Lo(level[b])
  {
    OkRanges(level);
    LoAscends(level, j, b);
    LargestAscends(level, j - 1);
  }

  lemma SortedNoDuplicates(level: seq<File>)
    requires RangesOk(level) && SortedLevel(level)
    ensures NoDuplicates(level)
  {
    forall i, j | 0 <= i < j < |level| ensures level[i] != level[j] {
      assert RangeOk(level[i]);
    }
  }

  // ---------------------------------------------------------------------------------------------
  // Closing the inputs

  /** The shape every installed version has: seven levels of well-formed tables, sorted above level 0. */
  predicate VersionShape(v: seq<seq<File>>) {
    && |v| == NUM_LEVELS
    && (forall i :: 0 <= i < NUM_LEVELS ==> FilesOk(v[i]) && NoDuplicates(v[i]))
    && (forall i :: 1 <= i < NUM_LEVELS ==> SortedLevel(v[i]))
  }

  /** How a compaction starts: at level 0 with an overlap-closed set of files, above it with a run. */
  ghost predicate ValidSeed(level: nat, files: seq<File>, inputs: seq<File>) {
    && inputs != []
    && (level == 0 ==>
          && NoDuplicates(inputs)
          && (forall f :: f in inputs ==> f in files)
          && (forall f, g :: f in inputs && g in files && Touch(f, g) ==> g in inputs))
    && (level > 0 ==> IsRun(files, inputs))
  }

  ghost predicate IsRun(files: seq<File>, inputs: seq<File>) {
    exists i, j :: 0 <= i < j <= |files| && inputs == files[i..j]
  }

  /** Whatever `GetOverlappingInputs` returns can start a compaction. */
  lemma OverlappingIsSeed(level: nat, files: seq<File>, lo: Option<UserKey>, hi: Option<UserKey>, inputs: seq<File>)
    requires FilesOk(files) && NoDuplicates(files) && (level > 0 ==> SortedLevel(files)) && inputs != []
    requires level > 0 ==> inputs == Overlapping(files, lo, hi)
    requires level == 0 ==> OverlapClosed(files, lo, hi, Members(inputs))
    requires exists lo', hi' :: inputs == Overlapping(files, lo', hi')
    ensures ValidSeed(level, files, inputs)
  {
    OkRanges(files);
    if level == 0 {
      var lo', hi' :| inputs == Overlapping(files, lo', hi');
      OverlappingMembers(files, lo', hi');
      OverlappingNoDuplicates(files, lo', hi');
      assert forall f :: f in inputs <==> f in Members(inputs);
    } else {
      var i, j := OverlappingIsRun(files, lo, hi);
      assert 0 <= i < j <= |files| && inputs == files[i..j];
    }
  }

  /** A level-0 seed already holds every boundary file. */
  lemma NoBoundaryAtLevel0(files: seq<File>, inputs: seq<File>, r: seq<File>)
    requires FilesOk(files) && ValidSeed(0, files, inputs) && BoundaryClosure(files, inputs, r)
    ensures r == inputs
  {
    OkRanges(files);
    var chain := r[|inputs|..];
    var key :| IsLargestKey(inputs, key) && BoundaryChain(files, key, chain);
    if chain != [] {
      ChainIsNew(files, inputs, key, chain);
      FirstLink(files, key, chain);
      var h :| h in inputs && Largest(h) == key;
      assert RangeOk(h) && RangeOk(chain[0]);
      assert Touch(h, chain[0]);
      assert false;
    }
    assert r == r[..|inputs|] + chain;
  }

  lemma {:induction false} FirstLink(level: seq<File>, key: IKey, chain: seq<File>)
    requires chain != [] && Links(level, key, chain)
    ensures FirstBoundary(level, key, chain[0])
  {
    if |chain| > 1 {
      FirstLink(level, key, chain[..|chain| - 1]);
    }
  }

  lemma RunIsSorted(files: seq<File>, i: nat, j: nat)
    requires SortedLevel(files) && i <= j <= |files|
    ensures SortedLevel(files[i..j])
  {}

  lemma RunIsClean(files: seq<File>, i: nat, j: nat)
    requires NoDuplicates(files) && i <= j <= |files|
    ensures NoDuplicates(files[i..j]) && forall f :: f in files[i..j] ==> f in files
  {}

  /** After the boundary search, nothing left at the upper level is older than what was taken. */
  lemma UpperClosure(level: nat, files: seq<File>, inputs: seq<File>, r: seq<File>)
    requires FilesOk(files) && NoDuplicates(files) && (level > 0 ==> SortedLevel(files))
    requires ValidSeed(level, files, inputs) && BoundaryClosure(files, inputs, r)
    ensures r != [] && (forall f :: f in r ==> f in files) && NoDuplicates(r) && LeavesNoOlder(files, r)
    ensures level > 0 ==> SortedLevel(r)
  {
    OkRanges(files);
    if level == 0 {
      NoBoundaryAtLevel0(files, inputs, r);
      forall f, g, e, x | f in r && g in files && g !in r && e in f.entries && x in g.entries
        ensures Before(x, e)
      {
        Bounds(f);
        Bounds(g);
        assert !Touch(f, g);
      }
    } else {
      var i, j :| 0 <= i < j <= |files| && inputs == files[i..j];
      var end := BoundaryOfRun(files, i, j, r);
      RunIsClean(files, i, end);
      RunIsSorted(files, i, end);
      ClosedRun(files, i, end);
    }
  }

  /** The lower inputs swallow everything that meets the upper ones, and leave nothing inside the hull. */
  lemma LowerClosure(lower: seq<File>, in0: seq<File>, smallest: IKey, largest: IKey, in1: seq<File>)
    requires FilesOk(lower) && SortedLevel(lower) && RangesOk(in0) && in0 != []
    requires forall f :: f in in0 ==> LessEq(smallest, Smallest(f)) && LessEq(Largest(f), largest)
    requires BoundaryClosure(lower, Overlapping(lower, Some(smallest.user), Some(largest.user)), in1)
    ensures (forall f :: f in in1 ==> f in lower) && NoDuplicates(in1) && LeavesNoOlder(lower, in1)
    ensures forall f, g :: f in in0 && g in lower && g !in in1 ==> !Touch(f, g)
    ensures OutsideHull(lower, in1, in0 + in1) && SortedLevel(in1)
  {
    OkRanges(lower);
    SortedNoDuplicates(lower);
    var i, j, end := LowerRun(lower, smallest.user, largest.user, in1);
    RunIsClean(lower, i, end);
    RunIsSorted(lower, i, end);
    ClosedRun(lower, i, end);
    forall g | g in lower && g !in in1
      ensures Beside(g, in0, in1)
    {
      LeftBehind(lower, smallest.user, largest.user, i, j, end, g);
      BesideHull(in0, in1, smallest, largest, g);
    }
  }

  lemma LowerRun(lower: seq<File>, lo: UserKey, hi: UserKey, in1: seq<File>) returns (i: nat, j: nat, end: nat)
    requires RangesOk(lower) && SortedLevel(lower)
    requires BoundaryClosure(lower, Overlapping(lower, Some(lo), Some(hi)), in1)
    ensures i <= j <= end <= |lower| && (i == j ==> j == end) && in1 == lower[i..end]
    ensures forall k :: 0 <= k < |lower| ==> (Overlaps(lower[k], Some(lo), Some(hi)) <==> i <= k < j)
    ensures i < end < |lower| ==> Hi(lower[end - 1]) < Lo(lower[end])
  {
    i, j := OverlappingIsRun(lower, Some(lo), Some(hi));
    end := RunOrNothing(lower, i, j, in1);
  }

  lemma RunOrNothing(lower: seq<File>, i: nat, j: nat, in1: seq<File>) returns (end: nat)
    requires RangesOk(lower) && SortedLevel(lower) && i <= j <= |lower| && BoundaryClosure(lower, lower[i..j], in1)
    ensures j <= end <= |lower| && (i == j ==> j == end) && in1 == lower[i..end]
    ensures i < end < |lower| ==> Hi(lower[end - 1]) < Lo(lower[end])
  {
    hide RangesOk, SortedLevel;
    if i == j {
      end := j;
    } else {
      end := BoundaryOfRun(lower, i, j, in1);
    }
  }

  /** `g` lies to one side of all the inputs, and meets no user key of the upper ones. */
  ghost predicate Beside(g: File, in0: seq<File>, in1: seq<File>) {
    && (forall f :: f in in0 ==> !Touch(f, g))
    && (|| (forall f :: f in in0 + in1 ==> Less(Largest(g), Smallest(f)))
        || (forall f :: f in in0 + in1 ==> Less(Largest(f), Smallest(g))))
  }

  lemma BesideHull(in0: seq<File>, in1: seq<File>, smallest: IKey, largest: IKey, g: File)
    requires RangesOk(in0) && RangeOk(g)
    requires forall f :: f in in0 ==> LessEq(smallest, Smallest(f)) && LessEq(Largest(f), largest)
    requires || (Hi(g) < smallest.user && forall f :: f in in1 ==> Less(Largest(g), Smallest(f)))
             || (Lo(g) > largest.user && forall f :: f in in1 ==> Less(Largest(f), Smallest(g)))
    ensures Beside(g, in0, in1)
  {
    forall f | f in in0 ensures smallest.user <= Lo(f) && Lo(f) <= Hi(f) && Hi(f) <= largest.user {
      assert RangeOk(f);
    }
  }

  /** Where a file outside the run `lower[i..end]` lies. */
  lemma LeftBehind(lower: seq<File>, lo: UserKey, hi: UserKey, i: nat, j: nat, end: nat, g: File)
    requires RangesOk(lower) && SortedLevel(lower) && i <= j <= end <= |lower| && (i == j ==> j == end)
    requires forall k :: 0 <= k < |lower| ==> (Overlaps(lower[k], Some(lo), Some(hi)) <==> i <= k < j)
    requires g in lower && g !in lower[i..end]
    ensures || (Hi(g) < lo && forall f :: f in lower[i..end] ==> Less(Largest(g), Smallest(f)))
            || (Lo(g) > hi && forall f :: f in lower[i..end] ==> Less(Largest(f), Smallest(g)))
  {
    var b :| 0 <= b < |lower| && lower[b] == g;
    assert forall c :: i <= c < end ==> lower[i..end][c - i] == lower[c];
    assert b < i || b >= end;
    assert !Overlaps(lower[b], Some(lo), Some(hi));
    if i < j {
      if b < i {
        LoAscends(lower, b, i);
        assert Overlaps(lower[i], Some(lo), Some(hi));
      } else {
        LargestAscends(lower, j - 1);
        assert Overlaps(lower[j - 1], Some(lo), Some(hi));
      }
    }
  }

  /** Inputs above level 0 are listed in key order, boundary files included, so they can be read one after the other. */
  predicate InOrder(level: nat, in0: seq<File>, in1: seq<File>) {
    (level > 0 ==> SortedLevel(in0)) && SortedLevel(in1)
  }

  datatype Compaction = Compaction(level: nat, in0: seq<File>, in1: seq<File>, grandparents: seq<File>, pointer: IKey)

  /** The lower inputs that go with given upper ones. */
  method LowerInputs(level: nat, upper: seq<File>, lower: seq<File>, in0: seq<File>)
    returns (in1: seq<File>, smallest: IKey, largest: IKey)
    requires FilesOk(lower) && SortedLevel(lower) && level > 0 && FilesOk(upper)
    requires in0 != [] && (forall f :: f in in0 ==> f in upper) && NoDuplicates(in0) && LeavesNoOlder(upper, in0)
    ensures ClosedInputs(upper, lower, in0, in1) && SortedLevel(in1)
    ensures LowerOf(lower, in0, in1) && IsHull(in0, smallest, largest)
  {
    OkRanges(upper);
    OkRanges(lower);
    smallest, largest := GetRange(in0);
    assert IsHull(in0, smallest, largest);
    in1 := GetOverlappingInputs(level, lower, Some(smallest.user), Some(largest.user));
    in1 := AddBoundaryInputs(lower, in1);
    LowerClosure(lower, in0, smallest, largest, in1);
  }

  /** The files of the lower level that a compaction of `in0` takes along. */
  ghost predicate LowerOf(lower: seq<File>, in0: seq<File>, in1: seq<File>) {
    exists smallest, largest ::
      && IsHull(in0, smallest, largest)
      && BoundaryClosure(lower, Overlapping(lower, Some(smallest.user), Some(largest.user)), in1)
  }

  /** The files of a level that meet a range, at level 0 with all that touch them in turn: the least such set. */
  ghost predicate Gathers(level: nat, files: seq<File>, lo: Option<UserKey>, hi: Option<UserKey>, seed: seq<File>) {
    && (level > 0 ==> seed == Overlapping(files, lo, hi))
    && (level == 0 ==> OverlapClosed(files, lo, hi, Members(seed)))
    && (level == 0 ==> forall C :: OverlapClosed(files, lo, hi, C) ==> Members(seed) <= C)
    && (exists lo', hi' :: seed == Overlapping(files, lo', hi'))
  }

  /** The upper files that the range of all inputs reaches, followed by their boundary files. */
  ghost predicate Widening(level: nat, upper: seq<File>, in0: seq<File>, in1: seq<File>, wide: seq<File>) {
    exists start, limit, seed ::
      && IsHull(in0 + in1, start, limit)
      && Gathers(level, upper, Some(start.user), Some(limit.user), seed)
      && BoundaryClosure(upper, seed, wide)
  }

  /** Widened inputs are worth having: there are more of them, and they are not too much. */
  ghost predicate WorthWidening(in0: seq<File>, in1: seq<File>, wide: seq<File>, expandLimit: nat) {
    |wide| > |in0| && TotalFileSize(in1) + TotalFileSize(wide) < expandLimit
  }

  /** The inputs that follow from a seed: its boundary closure and what that takes along; or more of the upper
      level, if that is worth having and takes along the very same files of the lower level. */
  ghost predicate Chosen(v: seq<seq<File>>, level: nat, inputs: seq<File>, expandLimit: nat, c: Compaction)
    requires |v| == NUM_LEVELS && level + 1 < NUM_LEVELS
  {
    exists in0 ::
      && BoundaryClosure(v[level], inputs, in0) && LowerOf(v[level + 1], in0, c.in1)
      && (c.in1 == [] ==> c.in0 == in0)
      && (c.in1 != [] ==> exists wide :: Widening(level, v[level], in0, c.in1, wide) && Decided(v[level + 1], in0, wide, expandLimit, c))
  }

  ghost predicate Decided(lower: seq<File>, in0: seq<File>, wide: seq<File>, expandLimit: nat, c: Compaction) {
    c.in0 == if WorthWidening(in0, c.in1, wide, expandLimit) && LowerOf(lower, wide, c.in1) then wide else in0
  }

  /** Some of these files starts at or before the end of `f`, and some ends at or after its start. */
  ghost predicate Meets(f: File, files: seq<File>) {
    (exists g :: g in files && Lo(g) <= Hi(f)) && (exists g :: g in files && Lo(f) <= Hi(g))
  }

  /** The files two levels down that the range of the inputs meets, in order. */
  ghost predicate Grandparents(v: seq<seq<File>>, c: Compaction)
    requires |v| == NUM_LEVELS
  {
    if c.level + 2 >= NUM_LEVELS then c.grandparents == []
    else exists lo, hi :: c.grandparents == Overlapping(v[c.level + 2], Some(lo), Some(hi)) && HullMeets(v[c.level + 2], c.in0 + c.in1, lo, hi)
  }

  ghost predicate HullMeets(files: seq<File>, inputs: seq<File>, lo: UserKey, hi: UserKey) {
    forall f :: f in files ==> (Overlaps(f, Some(lo), Some(hi)) <==> Meets(f, inputs))
  }

  lemma HullIsMet(files: seq<File>, inputs: seq<File>, smallest: IKey, largest: IKey)
    requires IsHull(inputs, smallest, largest)
    ensures HullMeets(files, inputs, smallest.user, largest.user)
  {
  }

  lemma HullUnique(files: seq<File>, s: IKey, l: IKey, s': IKey, l': IKey)
    requires IsHull(files, s, l) && IsHull(files, s', l')
    ensures s.user == s'.user && l.user == l'.user
  {
    assert LessEq(s, s') && LessEq(s', s) && LessEq(l, l') && LessEq(l', l);
  }

  lemma {:induction false} SameLinks(level: seq<File>, to: nat, chain: seq<File>, more: seq<File>)
    requires RangesOk(level) && SortedLevel(level) && 0 < to <= |level|
    requires Links(level, Largest(level[to - 1]), more) && chain < more && Links(level, Largest(level[to - 1]), chain)
    ensures !NoBoundary(level, KeyAfter(Largest(level[to - 1]), chain))
  {
    hide RangesOk, SortedLevel;
    var n := |more| - 1;
    if n == |chain| {
      assert more[..n] == chain;
      assert IsBoundary(more[n], KeyAfter(Largest(level[to - 1]), chain));
    } else {
      assert chain < more[..n];
      SameLinks(level, to, chain, more[..n]);
    }
  }

  /** In a sorted level a run has one boundary closure. */
  lemma ClosureUnique(level: seq<File>, i: nat, j: nat, r: seq<File>, r': seq<File>)
    requires RangesOk(level) && SortedLevel(level) && i <= j <= |level|
    requires BoundaryClosure(level, level[i..j], r) && BoundaryClosure(level, level[i..j], r')
    ensures r == r'
  {
    hide RangesOk, SortedLevel, NoBoundary, IsLargestKey, Links, KeyAfter, Largest;
    if i < j {
      var n := j - i;
      var key :| IsLargestKey(level[i..j], key) && BoundaryChain(level, key, r[n..]);
      var key' :| IsLargestKey(level[i..j], key') && BoundaryChain(level, key', r'[n..]);
      LargestOfRun(level, i, j, key);
      LargestOfRun(level, i, j, key');
      ChainOfRun(level, j, r[n..]);
      ChainOfRun(level, j, r'[n..]);
      if |r| < |r'| {
        assert r[n..] < r'[n..];
        SameLinks(level, j, r[n..], r'[n..]);
      } else if |r'| < |r| {
        assert r'[n..] < r[n..];
        SameLinks(level, j, r'[n..], r[n..]);
      }
      assert r[n..] == r'[n..];
      assert r == r[..n] + r[n..] && r' == r'[..n] + r'[n..];
    }
  }

  lemma LowerUnique(lower: seq<File>, in0: seq<File>, in1: seq<File>, in1': seq<File>)
    requires RangesOk(lower) && SortedLevel(lower) && LowerOf(lower, in0, in1) && LowerOf(lower, in0, in1')
    ensures in1 == in1'
  {
    hide RangesOk, SortedLevel, BoundaryClosure, IsHull, Overlapping;
    var s, l :| IsHull(in0, s, l) && BoundaryClosure(lower, Overlapping(lower, Some(s.user), Some(l.user)), in1);
    var s', l' :| IsHull(in0, s', l') && BoundaryClosure(lower, Overlapping(lower, Some(s'.user), Some(l'.user)), in1');
    HullUnique(in0, s, l, s', l');
    var i, j := OverlappingIsRun(lower, Some(s.user), Some(l.user));
    ClosureUnique(lower, i, j, in1, in1');
  }

  /** More files above that take along as many below take along the same: counting files decides the widening. */
  lemma LowerGrows(lower: seq<File>, in0: seq<File>, in1: seq<File>, wide0: seq<File>, wide1: seq<File>)
    requires RangesOk(lower) && SortedLevel(lower) && LowerOf(lower, in0, in1) && LowerOf(lower, wide0, wide1)
    requires forall f :: f in in0 ==> f in wide0
    ensures |wide1| == |in1| && in1 != [] ==> wide1 == in1
  {
    hide RangesOk, SortedLevel, BoundaryClosure, Overlapping, Overlaps, IsHull;
    var s, l :| IsHull(in0, s, l) && BoundaryClosure(lower, Overlapping(lower, Some(s.user), Some(l.user)), in1);
    var s', l' :| IsHull(wide0, s', l') && BoundaryClosure(lower, Overlapping(lower, Some(s'.user), Some(l'.user)), wide1);
    HullGrows(in0, s, l, wide0, s', l');
    var i, j := OverlappingIsRun(lower, Some(s.user), Some(l.user));
    var i', j' := OverlappingIsRun(lower, Some(s'.user), Some(l'.user));
    if i < j {
      OverlapsMore(lower[i], s.user, l.user, s'.user, l'.user);
      OverlapsMore(lower[j - 1], s.user, l.user, s'.user, l'.user);
      RunsGrow(lower, i, j, in1, i', j', wide1);
    } else {
      NoClosure(lower, i, j, in1);
    }
  }

  lemma NoClosure(level: seq<File>, i: nat, j: nat, r: seq<File>)
    requires i == j <= |level| && BoundaryClosure(level, level[i..j], r)
    ensures r == []
  {
  }

  lemma HullGrows(files: seq<File>, s: IKey, l: IKey, more: seq<File>, s': IKey, l': IKey)
    requires IsHull(files, s, l) && IsHull(more, s', l') && forall f :: f in files ==> f in more
    ensures s'.user <= s.user && l.user <= l'.user
  {
    assert LessEq(s', s) && LessEq(l, l');
  }

  lemma OverlapsMore(f: File, lo: UserKey, hi: UserKey, lo': UserKey, hi': UserKey)
    requires Overlaps(f, Some(lo), Some(hi)) && lo' <= lo && hi <= hi'
    ensures Overlaps(f, Some(lo'), Some(hi'))
  {
  }

  lemma RunsGrow(level: seq<File>, i: nat, j: nat, r: seq<File>, i': nat, j': nat, r': seq<File>)
    requires RangesOk(level) && SortedLevel(level) && i' <= i < j <= j' <= |level|
    requires BoundaryClosure(level, level[i..j], r) && BoundaryClosure(level, level[i'..j'], r')
    ensures |r| == |r'| ==> r == r'
  {
    hide RangesOk, SortedLevel, BoundaryClosure;
    var end := RunOrNothing(level, i, j, r);
    var end' := RunOrNothing(level, i', j', r');
    if |r| == |r'| {
      assert |r| == end - i && |r'| == end' - i';
      if i' < i {
        assert end' < end;
        ChainContinues(level, i, j, r, end, end');
      }
    }
  }

  /** Inside the boundary chain of a run every file goes on with the user key of the one before. */
  lemma ChainContinues(level: seq<File>, i: nat, j: nat, r: seq<File>, end: nat, at: nat)
    requires RangesOk(level) && SortedLevel(level) && i < j <= at < end <= |level|
    requires BoundaryClosure(level, level[i..j], r) && r == level[i..end]
    ensures Hi(level[at - 1]) >= Lo(level[at])
  {
    hide RangesOk, SortedLevel, IsLargestKey, Links, NoBoundary, FirstBoundary;
    var n := j - i;
    var key :| IsLargestKey(level[i..j], key) && BoundaryChain(level, key, r[n..]);
    LargestOfRun(level, i, j, key);
    var chain := r[n..];
    assert chain == level[j..end] by { Adjacent(level, i, j, end); }
    LinkAt(level, key, chain, at - j);
    assert chain[..at - j] == level[j..at];
    LinkContinues(level, key, j, at);
  }

  lemma LargestOfRun(level: seq<File>, i: nat, j: nat, key: IKey)
    requires RangesOk(level) && SortedLevel(level) && i < j <= |level| && IsLargestKey(level[i..j], key)
    ensures key == Largest(level[j - 1])
  {
    RunEnd(level, i, j, key);
  }

  lemma LinkContinues(level: seq<File>, key: IKey, j: nat, at: nat)
    requires 0 < j <= at < |level| && key == Largest(level[j - 1]) && FirstBoundary(level, KeyAfter(key, level[j..at]), level[at])
    ensures Hi(level[at - 1]) >= Lo(level[at])
  {
  }

  lemma {:induction false} LinkAt(level: seq<File>, key: IKey, chain: seq<File>, k: nat)
    requires Links(level, key, chain) && k < |chain|
    ensures FirstBoundary(level, KeyAfter(key, chain[..k]), chain[k])
  {
    var n := |chain| - 1;
    if k < n {
      LinkAt(level, key, chain[..n], k);
      assert chain[..n][..k] == chain[..k];
    }
  }

  /** What is gathered over the range of some files of the level holds them. */
  lemma GathersAll(level: nat, files: seq<File>, inputs: seq<File>, more: seq<File>, start: IKey, limit: IKey, seed: seq<File>)
    requires RangesOk(files) && (forall f :: f in inputs ==> f in files) && IsHull(inputs + more, start, limit)
    requires Gathers(level, files, Some(start.user), Some(limit.user), seed)
    ensures forall f :: f in inputs ==> f in seed
  {
    forall f | f in inputs ensures f in seed {
      assert f in inputs + more && RangeOk(f);
      assert Overlaps(f, Some(start.user), Some(limit.user));
      OverlappingMembers(files, Some(start.user), Some(limit.user));
      assert level == 0 ==> f in Members(seed);
    }
  }

  lemma ShapeOf(v: seq<seq<File>>, level: nat)
    requires VersionShape(v) && level < NUM_LEVELS
    ensures |v| == NUM_LEVELS && FilesOk(v[level]) && RangesOk(v[level]) && NoDuplicates(v[level]) && (level > 0 ==> SortedLevel(v[level]))
  {
    OkRanges(v[level]);
  }

  lemma HoldsPrefix(level: seq<File>, files: seq<File>, r: seq<File>)
    requires BoundaryClosure(level, files, r)
    ensures forall f :: f in files ==> f in r
  {
    assert forall k :: 0 <= k < |files| ==> files[k] == r[k];
  }

  /** `VersionSet::SetupOtherInputs`: whichever way the widening goes, the inputs come out closed, hold the seed,
      and take no more of the lower level than the seed asked for. */
  method SetupOtherInputs(v: seq<seq<File>>, level: nat, inputs: seq<File>, expandLimit: nat) returns (c: Compaction)
    requires VersionShape(v) && level + 1 < NUM_LEVELS && ValidSeed(level, v[level], inputs)
    ensures c.level == level
    ensures ClosedInputs(v[level], v[level + 1], c.in0, c.in1) && InOrder(level, c.in0, c.in1)
    ensures Chosen(v, level, inputs, expandLimit, c) && forall f :: f in inputs ==> f in c.in0
    ensures IsLargestKey(c.in0, c.pointer) && Grandparents(v, c)
  {
    hide VersionShape, RangesOk, FilesOk, SortedLevel, ClosedInputs, BoundaryClosure, IsHull, LowerOf, Gathers, ValidSeed, NoDuplicates,
         LeavesNoOlder, IsLargestKey, Grandparents, Widening, Chosen;
    ShapeOf(v, level);
    ShapeOf(v, level + 1);
    var upper, lower := v[level], v[level + 1];
    var plain := AddBoundaryInputs(upper, inputs);
    HoldsPrefix(upper, inputs, plain);
    UpperClosure(level, upper, inputs, plain);
    var in0 := plain;
    var in1, smallest, largest := LowerInputs(level + 1, upper, lower, in0);
    LargestOfHull(in0, smallest, largest);
    ghost var wide := in0;

    if in1 != [] {
      var expanded0 := Expand(v, level, in0, in1);
      wide := expanded0;
      if |expanded0| > |in0| && TotalFileSize(in1) + TotalFileSize(expanded0) < expandLimit {
        var expanded1, newStart, newLimit := LowerInputs(level + 1, upper, lower, expanded0);
        LowerGrows(lower, in0, in1, expanded0, expanded1);
        if |expanded1| == |in1| {
          largest := newLimit;
          LargestOfHull(expanded0, newStart, newLimit);
          in0, in1 := expanded0, expanded1;
        } else if LowerOf(lower, expanded0, in1) {
          LowerUnique(lower, expanded0, in1, expanded1);
        }
      }
    }

    var grandparents := FindGrandparents(v, level, in0, in1, largest);
    c := Compaction(level, in0, in1, grandparents, largest);
    ChosenBy(v, level, inputs, expandLimit, plain, wide, c);
  }

  lemma ChosenBy(v: seq<seq<File>>, level: nat, inputs: seq<File>, expandLimit: nat, plain: seq<File>, wide: seq<File>, c: Compaction)
    requires |v| == NUM_LEVELS && level + 1 < NUM_LEVELS
    requires BoundaryClosure(v[level], inputs, plain) && LowerOf(v[level + 1], plain, c.in1) && (c.in1 == [] ==> c.in0 == plain)
    requires c.in1 != [] ==> Widening(level, v[level], plain, c.in1, wide) && Decided(v[level + 1], plain, wide, expandLimit, c)
    ensures Chosen(v, level, inputs, expandLimit, c)
  {
    hide BoundaryClosure, LowerOf, Widening, Decided;
  }

  /** The files two levels down that the inputs reach. */
  method FindGrandparents(v: seq<seq<File>>, level: nat, in0: seq<File>, in1: seq<File>, pointer: IKey) returns (grandparents: seq<File>)
    requires VersionShape(v) && level + 1 < NUM_LEVELS && in0 != []
    ensures Grandparents(v, Compaction(level, in0, in1, grandparents, pointer))
  {
    hide VersionShape, RangesOk, FilesOk, SortedLevel, IsHull, NoDuplicates, Overlapping, HullMeets;
    ShapeOf(v, level);
    grandparents := [];
    var allStart, allLimit := GetRange(in0 + in1);
    if level + 2 < NUM_LEVELS {
      ShapeOf(v, level + 2);
      grandparents := GetOverlappingInputs(level + 2, v[level + 2], Some(allStart.user), Some(allLimit.user));
      HullIsMet(v[level + 2], in0 + in1, allStart, allLimit);
    }
  }

  lemma LargestOfHull(files: seq<File>, smallest: IKey, largest: IKey)
    requires IsHull(files, smallest, largest)
    ensures IsLargestKey(files, largest)
  {
  }

  /** The upper files that the range of all inputs reaches, and their boundary files. */
  method Expand(v: seq<seq<File>>, level: nat, in0: seq<File>, in1: seq<File>) returns (wide: seq<File>)
    requires VersionShape(v) && level + 1 < NUM_LEVELS && in0 != [] && forall f :: f in in0 ==> f in v[level]
    ensures Widening(level, v[level], in0, in1, wide)
    ensures wide != [] && (forall f :: f in wide ==> f in v[level]) && NoDuplicates(wide) && LeavesNoOlder(v[level], wide)
    ensures (level > 0 ==> SortedLevel(wide)) && forall f :: f in in0 ==> f in wide
  {
    hide VersionShape, RangesOk, FilesOk, SortedLevel, BoundaryClosure, IsHull, ValidSeed, NoDuplicates, LeavesNoOlder;
    ShapeOf(v, level);
    var allStart, allLimit := GetRange(in0 + in1);
    var overlapping := GetOverlappingInputs(level, v[level], Some(allStart.user), Some(allLimit.user));
    assert Gathers(level, v[level], Some(allStart.user), Some(allLimit.user), overlapping);
    GathersAll(level, v[level], in0, in1, allStart, allLimit, overlapping);
    assert in0[0] in overlapping;
    OverlappingIsSeed(level, v[level], Some(allStart.user), Some(allLimit.user), overlapping);
    wide := AddBoundaryInputs(v[level], overlapping);
    HoldsPrefix(v[level], overlapping, wide);
    UpperClosure(level, v[level], overlapping, wide);
  }

  /** The file a compaction of a level by size starts with: the first that ends after the compaction pointer,
      or the first of all when there is none. */
  ghost predicate NextFile(files: seq<File>, pointer: Option<IKey>, f: File) {
    exists i ::
      && 0 <= i < |files| && files[i] == f
      && (forall j :: 0 <= j < i ==> !EndsAfter(files[j], pointer))
      && (EndsAfter(f, pointer) || (i == 0 && forall j :: 0 <= j < |files| ==> !EndsAfter(files[j], pointer)))
  }

  ghost predicate EndsAfter(f: File, pointer: Option<IKey>) {
    pointer.None? || Less(pointer.value, Largest(f))
  }

  /** The seed of a compaction that starts with one file: at level 0 all that its range reaches. */
  ghost predicate SeedOf(level: nat, files: seq<File>, f: File, seed: seq<File>) {
    if level == 0 then Gathers(0, files, Some(Lo(f)), Some(Hi(f)), seed) else seed == [f]
  }

  /** `VersionSet::PickCompaction`, once the level is known: the next file after the compaction pointer,
      wrapping around to the first, or the file a run of seeks has singled out. */
  method PickCompaction(v: seq<seq<File>>, level: nat, sizeCompaction: bool, pointer: Option<IKey>, seekFile: File,
                        expandLimit: nat)
    returns (c: Compaction, ghost f: File)
    requires VersionShape(v) && level + 1 < NUM_LEVELS
    requires if sizeCompaction then v[level] != [] else seekFile in v[level]
    ensures c.level == level
    ensures ClosedInputs(v[level], v[level + 1], c.in0, c.in1) && InOrder(level, c.in0, c.in1)
    ensures if sizeCompaction then NextFile(v[level], pointer, f) else f == seekFile
    ensures f in c.in0 && exists seed :: SeedOf(level, v[level], f, seed) && Chosen(v, level, seed, expandLimit, c)
    ensures IsLargestKey(c.in0, c.pointer) && Grandparents(v, c)
  {
    hide VersionShape, ClosedInputs, Chosen, IsLargestKey, Grandparents, InOrder, Gathers;
    ShapeOf(v, level);
    var first := PickFile(v[level], sizeCompaction, pointer, seekFile);
    f := first;
    var inputs := SeedFrom(v, level, first);
    c := SetupOtherInputs(v, level, inputs, expandLimit);
  }

  method PickFile(files: seq<File>, sizeCompaction: bool, pointer: Option<IKey>, seekFile: File) returns (f: File)
    requires if sizeCompaction then files != [] else seekFile in files
    ensures f in files && if sizeCompaction then NextFile(files, pointer, f) else f == seekFile
  {
    if sizeCompaction {
      for i := 0 to |files|
        invariant forall j :: 0 <= j < i ==> !EndsAfter(files[j], pointer)
      {
        if pointer.None? || Less(pointer.value, Largest(files[i])) {
          return files[i];
        }
      }
      f := files[0];
    } else {
      f := seekFile;
    }
  }

  method SeedFrom(v: seq<seq<File>>, level: nat, f: File) returns (inputs: seq<File>)
    requires VersionShape(v) && level < NUM_LEVELS && f in v[level]
    ensures SeedOf(level, v[level], f, inputs) && ValidSeed(level, v[level], inputs) && f in inputs
  {
    hide VersionShape, FilesOk, RangesOk, SortedLevel, NoDuplicates;
    ShapeOf(v, level);
    inputs := [f];
    if level == 0 {
      assert RangeOk(f) by { InRange(v[0], f); }
      var smallest, largest := GetRange(inputs);
      assert smallest.user == Lo(f) && largest.user == Hi(f) by { HullUnique([f], smallest, largest, Smallest(f), Largest(f)); }
      inputs := GetOverlappingInputs(0, v[0], Some(smallest.user), Some(largest.user));
      assert Overlaps(f, Some(smallest.user), Some(largest.user));
      assert f in Members(inputs);
      OverlappingIsSeed(0, v[0], Some(smallest.user), Some(largest.user), inputs);
    } else {
      var k :| 0 <= k < |v[level]| && v[level][k] == inputs[0];
      assert inputs == v[level][k..k + 1];
    }
  }

  lemma InRange(files: seq<File>, f: File)
    requires RangesOk(files) && f in files
    ensures RangeOk(f) && IsHull([f], Smallest(f), Largest(f))
  {
  }

  /** Once the pointer is where a compaction left it, the next one by size starts with a file the last did not
      take, until no file is left that ends later. */
  lemma PickMovesOn(files: seq<File>, c: Compaction, f: File)
    requires IsLargestKey(c.in0, c.pointer) && NextFile(files, Some(c.pointer), f)
    ensures f !in c.in0 || (f == files[0] && forall g :: g in files ==> LessEq(Largest(g), c.pointer))
  {
  }

  /** Where the size limit cuts a manual compaction: behind the first file that reaches it. */
  ghost predicate CutAt(files: seq<File>, limit: nat, n: nat) {
    && 0 < n <= |files|
    && (forall k :: 0 < k < n ==> TotalFileSize(files[..k]) < limit)
    && (TotalFileSize(files[..n]) >= limit || n == |files|)
  }

  /** The seed of a manual compaction. */
  ghost predicate RangeSeed(level: nat, files: seq<File>, begin: Option<UserKey>, end: Option<UserKey>, limit: nat, seed: seq<File>) {
    if level == 0 then Gathers(0, files, begin, end, seed)
    else exists n: nat :: CutAt(Overlapping(files, begin, end), limit, n) && seed == Overlapping(files, begin, end)[..n]
  }

  /** `VersionSet::CompactRange`: a manual compaction, cut short above level 0 once it is big enough. */
  method CompactRange(v: seq<seq<File>>, level: nat, begin: Option<UserKey>, end: Option<UserKey>, limit: nat, expandLimit: nat)
    returns (c: Option<Compaction>)
    requires VersionShape(v) && level + 1 < NUM_LEVELS
    ensures c.None? <==> forall f :: f in v[level] ==> !Overlaps(f, begin, end)
    ensures c.Some? ==> c.value.level == level && ClosedInputs(v[level], v[level + 1], c.value.in0, c.value.in1)
                        && InOrder(level, c.value.in0, c.value.in1)
    ensures c.Some? ==> exists seed :: RangeSeed(level, v[level], begin, end, limit, seed) && Chosen(v, level, seed, expandLimit, c.value)
                                       && forall f :: f in seed ==> f in c.value.in0
    ensures c.Some? ==> IsLargestKey(c.value.in0, c.value.pointer) && Grandparents(v, c.value)
  {
    hide VersionShape, FilesOk, RangesOk, SortedLevel, NoDuplicates, ClosedInputs, Chosen, IsLargestKey, Grandparents, InOrder, ValidSeed,
         Overlapping, IsRun, OverlapClosed;
    ShapeOf(v, level);
    var inputs := GetOverlappingInputs(level, v[level], begin, end);
    if level == 0 {
      EmptyClosure(v[0], begin, end, inputs);
    } else {
      NothingOverlaps(v[level], begin, end);
    }
    if inputs == [] {
      return None;
    }
    OverlappingIsSeed(level, v[level], begin, end, inputs);
    if level > 0 {
      var n := CutInputs(inputs, limit);
      CutSeed(level, v[level], inputs, n);
      inputs := inputs[..n];
    }
    var s := SetupOtherInputs(v, level, inputs, expandLimit);
    c := Some(s);
  }

  lemma CutSeed(level: nat, files: seq<File>, inputs: seq<File>, n: nat)
    requires level > 0 && ValidSeed(level, files, inputs) && 0 < n <= |inputs|
    ensures ValidSeed(level, files, inputs[..n])
  {
    PrefixOfRun(files, inputs, n);
  }

  method CutInputs(inputs: seq<File>, limit: nat) returns (n: nat)
    requires inputs != []
    ensures CutAt(inputs, limit, n)
  {
    var total := 0;
    for i := 0 to |inputs|
      invariant total == TotalFileSize(inputs[..i])
      invariant forall k :: 0 < k <= i ==> TotalFileSize(inputs[..k]) < limit
    {
      SizeOfNext(inputs, i);
      total := total + inputs[i].size;
      if total >= limit {
        return i + 1;
      }
    }
    n := |inputs|;
  }

  lemma SizeOfNext(files: seq<File>, i: nat)
    requires i < |files|
    ensures TotalFileSize(files[..i + 1]) == TotalFileSize(files[..i]) + files[i].size
  {
    assert files[..i + 1] == files[..i] + [files[i]];
    SizesAdd(files[..i], [files[i]]);
  }

  /** The size of some files is that of any two parts of them together. */
  lemma {:induction false} SizesAdd(a: seq<File>, b: seq<File>)
    ensures TotalFileSize(a + b) == TotalFileSize(a) + TotalFileSize(b)
    ensures |b| == 1 ==> TotalFileSize(b) == b[0].size
  {
    if a == [] {
      assert a + b == b;
    } else {
      SizesAdd(a[1..], b);
      assert (a + b)[1..] == a[1..] + b;
    }
  }

  lemma EmptyClosure(files: seq<File>, begin: Option<UserKey>, end: Option<UserKey>, inputs: seq<File>)
    requires OverlapClosed(files, begin, end, Members(inputs))
    requires forall C :: OverlapClosed(files, begin, end, C) ==> Members(inputs) <= C
    ensures inputs == [] <==> forall f :: f in files ==> !Overlaps(f, begin, end)
  {
    assert |inputs| > 0 ==> inputs[0] in Members(inputs);
    if forall f :: f in files ==> !Overlaps(f, begin, end) {
      assert OverlapClosed(files, begin, end, {});
      assert Members(inputs) == {};
    } else {
      var f :| f in files && Overlaps(f, begin, end);
      assert f in Members(inputs);
    }
  }

  lemma NothingOverlaps(files: seq<File>, begin: Option<UserKey>, end: Option<UserKey>)
    ensures Overlapping(files, begin, end) == [] <==> forall f :: f in files ==> !Overlaps(f, begin, end)
  {
    OverlappingMembers(files, begin, end);
    if Overlapping(files, begin, end) != [] {
      assert Overlapping(files, begin, end)[0] in Overlapping(files, begin, end);
    }
  }

  lemma PrefixOfRun(files: seq<File>, inputs: seq<File>, n: nat)
    requires IsRun(files, inputs) && 0 < n <= |inputs|
    ensures IsRun(files, inputs[..n])
  {
    var i, j :| 0 <= i < j <= |files| && inputs == files[i..j];
    assert inputs[..n] == files[i..i + n];
  }

  // ---------------------------------------------------------------------------------------------
  // Where a flushed memtable goes

  ghost predicate NoOverlap(files: seq<File>, lo: UserKey, hi: UserKey) {
    forall f :: f in files ==> !Overlaps(f, Some(lo), Some(hi))
  }

  /** A flush may skip down only past levels that hold none of its user keys. */
  ghost predicate FlushLevel(v: seq<seq<File>>, lo: UserKey, hi: UserKey, level: nat)
    requires |v| == NUM_LEVELS
  {
    && level <= MAX_MEM_COMPACT_LEVEL
    && (level > 0 ==> forall i :: 0 <= i <= level ==> NoOverlap(v[i], lo, hi))
  }

  /** From this level a table may go one further down: nothing there overlaps it, and not too much below that. */
  ghost predicate MaySink(v: seq<seq<File>>, lo: UserKey, hi: UserKey, grandparentLimit: nat, level: nat)
    requires |v| == NUM_LEVELS && level < MAX_MEM_COMPACT_LEVEL
  {
    && NoOverlap(v[level + 1], lo, hi)
    && TotalFileSize(Overlapping(v[level + 2], Some(lo), Some(hi))) <= grandparentLimit
  }

  /** `Version::PickLevelForMemTableOutput`: as deep as it may sink, and no deeper. */
  method PickLevelForMemTableOutput(v: seq<seq<File>>, lo: UserKey, hi: UserKey, grandparentLimit: nat) returns (level: nat)
    requires VersionShape(v)
    ensures FlushLevel(v, lo, hi, level)
    ensures !NoOverlap(v[0], lo, hi) ==> level == 0
    ensures forall i :: 0 <= i < level ==> MaySink(v, lo, hi, grandparentLimit, i)
    ensures level < MAX_MEM_COMPACT_LEVEL && NoOverlap(v[0], lo, hi) ==> !MaySink(v, lo, hi, grandparentLimit, level)
  {
    level := 0;
    OkRanges(v[0]);
    var overlap := SomeFileOverlapsRange(false, v[0], Some(lo), Some(hi));
    if !overlap {
      while level < MAX_MEM_COMPACT_LEVEL
        invariant level <= MAX_MEM_COMPACT_LEVEL
        invariant forall i :: 0 <= i <= level ==> NoOverlap(v[i], lo, hi)
        invariant forall i :: 0 <= i < level ==> MaySink(v, lo, hi, grandparentLimit, i)
      {
        OkRanges(v[level + 1]);
        overlap := SomeFileOverlapsRange(true, v[level + 1], Some(lo), Some(hi));
        if overlap {
          break;
        }
        if level + 2 < NUM_LEVELS {
          OkRanges(v[level + 2]);
          var overlaps := GetOverlappingInputs(level + 2, v[level + 2], Some(lo), Some(hi));
          if TotalFileSize(overlaps) > grandparentLimit {
            break;
          }
        }
        level := level + 1;
      }
    }
  }

  // ---------------------------------------------------------------------------------------------
  // Tombstones at their base level

  /** No level below the compaction's output has a file whose range covers the user key. */
  ghost predicate IsBase(v: seq<seq<File>>, level: nat, user: UserKey) {
    forall l, f :: level + 2 <= l < |v| && f in v[l] ==> !(Lo(f) <= user <= Hi(f))
  }

  /** Files before the cursor end before every user key from here on. */
  ghost predicate Passed(files: seq<File>, ptr: nat, user: UserKey) {
    ptr <= |files| && forall i :: 0 <= i < ptr ==> Hi(files[i]) < user
  }

  /** `Compaction::IsBaseLevelForKey` with its per-level cursors.  As long as the queries ascend, the
      cursors never move back, and the answer is the one a full scan of the lower levels would give. */
  class BaseLevelCursors {
    const version: seq<seq<File>>
    const level: nat
    var ptrs: seq<nat>

    ghost predicate Valid(user: UserKey)
      reads this
    {
      && VersionShape(version)
      && |ptrs| == NUM_LEVELS
      && forall l :: level + 2 <= l < NUM_LEVELS ==> Passed(version[l], ptrs[l], user)
    }

    constructor (v: seq<seq<File>>, level: nat)
      requires VersionShape(v)
      ensures version == v && this.level == level && forall user :: Valid(user)
    {
      version := v;
      this.level := level;
      ptrs := seq(NUM_LEVELS, i => 0);
    }

    method IsBaseLevelForKey(user: UserKey) returns (r: bool)
      requires Valid(user)
      modifies this
      ensures forall later :: later >= user ==> Valid(later)
      ensures r <==> IsBase(version, level, user)
    {
      var l := level + 2;
      while l < NUM_LEVELS
        invariant level + 2 <= l <= NUM_LEVELS || l == level + 2
        invariant Valid(user)
        invariant forall m, f :: level + 2 <= m < l && m < NUM_LEVELS && f in version[m] ==> !(Lo(f) <= user <= Hi(f))
      {
        var files := version[l];
        while ptrs[l] < |files|
          invariant Valid(user)
          decreases |files| - ptrs[l]
        {
          var f := files[ptrs[l]];
          if user <= Hi(f) {
            if user >= Lo(f) {
              ValidLater(user);
              return false;
            }
            break;
          }
          ptrs := ptrs[l := ptrs[l] + 1];
        }
        NotCovered(files, ptrs[l], user);
        l := l + 1;
      }
      ValidLater(user);
      r := true;
    }

    lemma ValidLater(user: UserKey)
      requires Valid(user)
      ensures forall later :: later >= user ==> Valid(later)
    {}
  }

  lemma NotCovered(files: seq<File>, ptr: nat, user: UserKey)
    requires FilesOk(files) && SortedLevel(files) && Passed(files, ptr, user)
    requires ptr < |files| ==> user < Lo(files[ptr])
    ensures forall f :: f in files ==> !(Lo(f) <= user <= Hi(f))
  {
    OkRanges(files);
    forall i | ptr <= i < |files| ensures user < Lo(files[i]) {
      LoAscends(files, ptr, i);
    }
  }
}
