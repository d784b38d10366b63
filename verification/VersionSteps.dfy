/** The ways an edit changes a version, and why each keeps the recency invariant. */
module VersionSteps {
  import opened Format
  import opened Files
  import opened Selection
  import opened Versions
  import opened CompactionPass
  import opened Manifest

  /** A version as the builder lists it: every level ordered, no file number used twice anywhere. */
  ghost predicate Listed(v: seq<seq<File>>) {
    && |v| == NUM_LEVELS
    && (forall l :: 0 <= l < NUM_LEVELS ==> Ordered(v[l]))
    && (forall i, j, f, g :: 0 <= i < NUM_LEVELS && 0 <= j < NUM_LEVELS && f in v[i] && g in v[j] && f.number == g.number
          ==> i == j && f == g)
  }

  lemma OrderedNoDuplicates(fs: seq<File>)
    requires Ordered(fs)
    ensures NoDuplicates(fs)
  {
    forall i, j | 0 <= i < j < |fs| ensures fs[i] != fs[j] {
      assert BySmallest(fs[i], fs[j]);
    }
  }

  lemma FilesIn(fs: seq<File>, S: set<File>)
    requires Members(fs) == S
    ensures forall f :: f in fs <==> f in S
  {}

  // ---------------------------------------------------------------------------------------------
  // Adding files

  /** Files may join level 0 when they are numbered after, and newer than, everything there is. */
  ghost predicate JoinLevel0(v: seq<seq<File>>, files: seq<File>) {
    && FilesOk(files) && NumbersDescend(files)
    && Newer(LevelContents(files), VersionContents(v))
    && |v| == NUM_LEVELS && forall f, g :: f in files && g in v[0] ==> f.number > g.number
  }

  lemma AddToLevel0(v: seq<seq<File>>, files: seq<File>, v': seq<seq<File>>)
    requires VersionOk(v) && JoinLevel0(v, files)
    requires |v'| == NUM_LEVELS && Ordered(v'[0]) && Members(v'[0]) == Members(v[0]) + Members(files)
    requires forall l :: 1 <= l < NUM_LEVELS ==> v'[l] == v[l]
    ensures VersionOk(v') && VersionContents(v') == VersionContents(v) + LevelContents(files)
  {
    FilesIn(v'[0], Members(v[0]) + Members(files));
    assert forall f :: f in v'[0] <==> f in v[0] || f in files;
    OrderedNoDuplicates(v'[0]);
    assert FilesOk(v'[0]);
    assert VersionShape(v');
    Level0Grows(v, files, v'[0]);
    assert LevelContents(v'[0]) == LevelContents(v[0]) + LevelContents(files);
    forall i, j | 0 <= i < j < |v'| ensures Newer(LevelContents(v'[i]), LevelContents(v'[j])) {
      assert Newer(LevelContents(v[i]), LevelContents(v[j]));
      assert forall e :: e in LevelContents(v[j]) ==> e in VersionContents(v);
    }
    forall e ensures e in VersionContents(v') <==> e in VersionContents(v) + LevelContents(files) {
      ContentsByLevel(v, v', LevelContents(files), 0, e);
    }
  }

  lemma Level0Grows(v: seq<seq<File>>, files: seq<File>, level0: seq<File>)
    requires VersionOk(v) && JoinLevel0(v, files) && forall f :: f in level0 <==> f in v[0] || f in files
    ensures NumbersDescend(level0)
  {
    forall f, g | f in level0 && g in level0 && f.number > g.number
      ensures Newer(Contents(f.entries), Contents(g.entries))
    {
      if f in files && g in v[0] {
        forall a, b | a in Contents(f.entries) && b in Contents(g.entries) ensures Before(a, b) {
          assert a in LevelContents(files);
          assert b in LevelContents(v[0]);
          assert b in VersionContents(v);
        }
      }
    }
  }

  lemma ContentsByLevel(v: seq<seq<File>>, v': seq<seq<File>>, N: set<Entry>, l: nat, e: Entry)
    requires |v| == |v'| == NUM_LEVELS && l < NUM_LEVELS
    requires forall i :: 0 <= i < NUM_LEVELS && i != l ==> v'[i] == v[i]
    requires LevelContents(v'[l]) == LevelContents(v[l]) + N
    ensures e in VersionContents(v') <==> e in VersionContents(v) + N
  {
    if e in VersionContents(v') {
      var i :| 0 <= i < |v'| && e in LevelContents(v'[i]);
      assert i != l ==> v'[i] == v[i];
    }
    if e in VersionContents(v) {
      var i :| 0 <= i < |v| && e in LevelContents(v[i]);
      assert i != l ==> v'[i] == v[i];
      assert e in LevelContents(v'[i]);
    }
    if e in N {
      assert e in LevelContents(v'[l]);
    }
  }

  /** A flushed table may sink past levels that hold none of its user keys. */
  lemma AddBelow(v: seq<seq<File>>, level: nat, f: File, v': seq<seq<File>>)
    requires VersionOk(v) && FileOk(f) && 0 < level < NUM_LEVELS && FlushLevel(v, Lo(f), Hi(f), level)
    requires Newer(Contents(f.entries), VersionContents(v))
    requires |v'| == NUM_LEVELS && Ordered(v'[level]) && Members(v'[level]) == Members(v[level]) + {f}
    requires forall l :: 0 <= l < NUM_LEVELS && l != level ==> v'[l] == v[l]
    ensures VersionOk(v') && VersionContents(v') == VersionContents(v) + Contents(f.entries)
  {
    FilesIn(v'[level], Members(v[level]) + {f});
    OrderedNoDuplicates(v'[level]);
    assert FilesOk(v'[level]);
    forall g | g in v[level] ensures Apart(f, g) {
      assert NoOverlap(v[level], Lo(f), Hi(f));
    }
    InsertApart(v[level], f, v'[level]);
    assert VersionShape(v');
    assert LevelContents(v'[level]) == LevelContents(v[level]) + Contents(f.entries);
    forall i, j | 0 <= i < j < |v'| ensures Newer(LevelContents(v'[i]), LevelContents(v'[j])) {
      assert Newer(LevelContents(v[i]), LevelContents(v[j]));
      if j == level {
        NoSharedKeys(v[i], f);
      } else {
        assert forall e :: e in LevelContents(v[j]) ==> e in VersionContents(v);
      }
    }
    forall e ensures e in VersionContents(v') <==> e in VersionContents(v) + Contents(f.entries) {
      ContentsByLevel(v, v', Contents(f.entries), level, e);
    }
  }

  lemma NoSharedKeys(files: seq<File>, f: File)
    requires FilesOk(files) && FileOk(f) && NoOverlap(files, Lo(f), Hi(f))
    ensures Newer(LevelContents(files), Contents(f.entries))
  {
    forall a, b | a in LevelContents(files) && b in Contents(f.entries) ensures Before(a, b) {
      var g :| g in files && a in g.entries;
      Bounds(g);
      Bounds(f);
      assert !Overlaps(g, Some(Lo(f)), Some(Hi(f)));
    }
  }

  /** Two files with disjoint internal-key ranges. */
  predicate Apart(f: File, g: File) {
    Less(Largest(f), Smallest(g)) || Less(Largest(g), Smallest(f))
  }

  /** Adding a file apart from all others to a sorted level, in its place, keeps it sorted. */
  lemma InsertApart(level: seq<File>, f: File, level': seq<File>)
    requires FilesOk(level') && SortedLevel(level) && Ordered(level')
    requires forall g :: g in level' ==> g in level || g == f
    requires forall g :: g in level' && g != f ==> Apart(f, g)
    ensures SortedLevel(level')
  {
    OkRanges(level');
    forall i, j | 0 <= i < j < |level'| ensures Less(Largest(level'[i]), Smallest(level'[j])) {
      var a, b := level'[i], level'[j];
      assert BySmallest(a, b);
      assert RangeOk(a) && RangeOk(b);
      assert a in level' && b in level' && a != b;
      if a != f && b != f {
        SortedApart(level, a, b);
      } else {
        assert a != f ==> Apart(f, a);
        assert b != f ==> Apart(f, b);
      }
    }
  }

  lemma SortedApart(level: seq<File>, a: File, b: File)
    requires SortedLevel(level) && a in level && b in level && a != b
    ensures Apart(a, b)
  {
    var i :| 0 <= i < |level| && level[i] == a;
    var j :| 0 <= j < |level| && level[j] == b;
  }

  // ---------------------------------------------------------------------------------------------
  // Replacing inputs by an output

  ghost predicate Taken(level: nat, in0: seq<File>, in1: seq<File>, i: nat, f: File) {
    (i == level && f in in0) || (i == level + 1 && f in in1)
  }

  /** The entries of the files a compaction does not touch. */
  ghost function Rest(v: seq<seq<File>>, level: nat, in0: seq<File>, in1: seq<File>): set<Entry> {
    set i, f, e | 0 <= i < |v| && f in v[i] && !Taken(level, in0, in1, i, f) && e in f.entries :: e
  }

  ghost predicate Removed(files: seq<File>, taken: seq<File>, files': seq<File>) {
    forall f :: f in files' <==> f in files && f !in taken
  }

  ghost predicate Exchanged(files: seq<File>, taken: seq<File>, out: File, files': seq<File>) {
    forall f :: f in files' <==> (f in files && f !in taken) || f == out
  }

  ghost predicate Replaces(v: seq<seq<File>>, level: nat, in0: seq<File>, in1: seq<File>, out: File, v': seq<seq<File>>) {
    && |v| == |v'| == NUM_LEVELS && level + 1 < NUM_LEVELS
    && Ordered(v'[level]) && Ordered(v'[level + 1])
    && Removed(v[level], in0, v'[level])
    && Exchanged(v[level + 1], in1, out, v'[level + 1])
    && (forall l :: 0 <= l < NUM_LEVELS && l != level && l != level + 1 ==> v'[l] == v[l])
  }

  ghost predicate FromInputs(in0: seq<File>, in1: seq<File>, out: File) {
    forall e :: e in out.entries ==> e in LevelContents(in0) || e in LevelContents(in1)
  }

  lemma SplitContents(v: seq<seq<File>>, level: nat, in0: seq<File>, in1: seq<File>)
    requires |v| == NUM_LEVELS && level + 1 < NUM_LEVELS
    requires (forall f :: f in in0 ==> f in v[level]) && (forall f :: f in in1 ==> f in v[level + 1])
    ensures VersionContents(v) == Rest(v, level, in0, in1) + (LevelContents(in0) + LevelContents(in1))
  {
    forall e | e in VersionContents(v) ensures e in Rest(v, level, in0, in1) + (LevelContents(in0) + LevelContents(in1)) {
      var i :| 0 <= i < |v| && e in LevelContents(v[i]);
      var f :| f in v[i] && e in f.entries;
      assert Taken(level, in0, in1, i, f) || e in Rest(v, level, in0, in1);
    }
    forall e | e in Rest(v, level, in0, in1) ensures e in VersionContents(v) {
      var i, f :| 0 <= i < |v| && f in v[i] && !Taken(level, in0, in1, i, f) && e in f.entries;
      assert e in LevelContents(v[i]);
    }
    forall e | e in LevelContents(in0) || e in LevelContents(in1) ensures e in VersionContents(v) {
      assert e in LevelContents(v[level]) || e in LevelContents(v[level + 1]);
    }
  }

  lemma KeptIn(v: seq<seq<File>>, level: nat, in0: seq<File>, in1: seq<File>, out: File, v': seq<seq<File>>, i: nat, f: File)
    requires Replaces(v, level, in0, in1, out, v') && i < NUM_LEVELS
    ensures f in v'[i] <==> (f in v[i] && !Taken(level, in0, in1, i, f)) || (i == level + 1 && f == out)
  {
    if i == level {
      assert Removed(v[i], in0, v'[i]);
    } else if i == level + 1 {
      assert Exchanged(v[i], in1, out, v'[i]);
    } else {
      assert v'[i] == v[i];
    }
  }

  lemma ReplacedContents(v: seq<seq<File>>, level: nat, in0: seq<File>, in1: seq<File>, out: File, v': seq<seq<File>>)
    requires Replaces(v, level, in0, in1, out, v')
    ensures VersionContents(v') == Rest(v, level, in0, in1) + Contents(out.entries)
  {
    forall e | e in VersionContents(v') ensures e in Rest(v, level, in0, in1) + Contents(out.entries) {
      var i :| 0 <= i < |v'| && e in LevelContents(v'[i]);
      var f :| f in v'[i] && e in f.entries;
      KeptIn(v, level, in0, in1, out, v', i, f);
    }
    forall e | e in Rest(v, level, in0, in1) ensures e in VersionContents(v') {
      var i, f :| 0 <= i < |v| && f in v[i] && !Taken(level, in0, in1, i, f) && e in f.entries;
      KeptIn(v, level, in0, in1, out, v', i, f);
      assert e in LevelContents(v'[i]);
    }
    var l := level + 1;
    assert Exchanged(v[l], in1, out, v'[l]);
    forall e | e in Contents(out.entries) ensures e in VersionContents(v') {
      assert out in v'[l];
      assert e in LevelContents(v'[l]);
    }
  }

  /** Whatever stays put while inputs with a base-level user key move is newer than they are. */
  lemma RestIsSafe(v: seq<seq<File>>, level: nat, in0: seq<File>, in1: seq<File>, input: seq<Entry>)
    requires VersionOk(v) && level + 1 < NUM_LEVELS && ClosedInputs(v[level], v[level + 1], in0, in1)
    requires Contents(input) == LevelContents(in0) + LevelContents(in1)
    ensures TombstonesSafe(v, level, Rest(v, level, in0, in1), input)
  {
    forall e, x | e in input && x in Rest(v, level, in0, in1) && IsBase(v, level, e.key.user)
      ensures Before(x, e)
    {
      assert e in Contents(input);
      var i, g :| 0 <= i < |v| && g in v[i] && !Taken(level, in0, in1, i, g) && x in g.entries;
      if i >= level + 2 {
        Bounds(g);
      } else if e in LevelContents(in0) {
        var f :| f in in0 && e in f.entries;
        StaysNewer(v, level, in0, in1, i, g, x, level, f, e);
      } else {
        var f :| f in in1 && e in f.entries;
        StaysNewer(v, level, in0, in1, i, g, x, level + 1, f, e);
      }
    }
  }

  /** A file left at or above the output level holds nothing older than an input entry. */
  lemma StaysNewer(v: seq<seq<File>>, level: nat, in0: seq<File>, in1: seq<File>, i: nat, g: File, x: Entry, j: nat, f: File, e: Entry)
    requires VersionOk(v) && level + 1 < NUM_LEVELS && ClosedInputs(v[level], v[level + 1], in0, in1)
    requires i <= level + 1 && g in v[i] && !Taken(level, in0, in1, i, g) && x in g.entries
    requires (j == level && f in in0) || (j == level + 1 && f in in1)
    requires e in f.entries
    ensures Before(x, e)
  {
    if i < j {
      assert x in LevelContents(v[i]) && e in LevelContents(v[j]);
      assert Newer(LevelContents(v[i]), LevelContents(v[j]));
    } else if i > j {
      assert !Touch(f, g);
      Bounds(f);
      Bounds(g);
    }
  }

  /** Installing a compaction (or a trivial move) keeps the recency invariant. */
  lemma ReplaceKeepsOrder(v: seq<seq<File>>, level: nat, in0: seq<File>, in1: seq<File>, out: File, v': seq<seq<File>>)
    requires VersionOk(v) && level + 1 < NUM_LEVELS && ClosedInputs(v[level], v[level + 1], in0, in1)
    requires FileOk(out) && FromInputs(in0, in1, out) && Replaces(v, level, in0, in1, out, v')
    ensures VersionOk(v')
  {
    OrderedNoDuplicates(v'[level]);
    OrderedNoDuplicates(v'[level + 1]);
    if level > 0 {
      SubLevelSorted(v[level], v'[level]);
    }
    OutputApart(v[level + 1], in0, in1, out);
    SortedAround(v[level + 1], in1, out, v'[level + 1]);
    assert VersionShape(v');
    forall i, j | 0 <= i < j < |v'| ensures Newer(LevelContents(v'[i]), LevelContents(v'[j])) {
      LevelsStayOrdered(v, level, in0, in1, out, v', i, j);
    }
    assert forall f :: f in v'[0] ==> f in v[0];
  }

  lemma SubLevelSorted(files: seq<File>, files': seq<File>)
    requires FilesOk(files) && SortedLevel(files) && Ordered(files') && forall f :: f in files' ==> f in files
    ensures SortedLevel(files')
  {
    OkRanges(files);
    forall i, j | 0 <= i < j < |files'| ensures Less(Largest(files'[i]), Smallest(files'[j])) {
      assert BySmallest(files'[i], files'[j]);
      assert RangeOk(files'[i]) && RangeOk(files'[j]);
      SortedApart(files, files'[i], files'[j]);
    }
  }

  /** The output stays inside the hull of the inputs, so it is apart from every file left beside it. */
  lemma OutputApart(lower: seq<File>, in0: seq<File>, in1: seq<File>, out: File)
    requires FileOk(out) && FromInputs(in0, in1, out) && FilesOk(in0) && FilesOk(in1)
    requires OutsideHull(lower, in1, in0 + in1)
    ensures forall g :: g in lower && g !in in1 ==> Apart(out, g)
  {
    var first, last := out.entries[0], out.entries[|out.entries| - 1];
    var a := SourceOf(in0, in1, first);
    var b := SourceOf(in0, in1, last);
    Bounds(a);
    Bounds(b);
  }

  lemma SourceOf(in0: seq<File>, in1: seq<File>, e: Entry) returns (f: File)
    requires e in LevelContents(in0) || e in LevelContents(in1)
    ensures f in in0 + in1 && e in f.entries
  {
    if e in LevelContents(in0) {
      f :| f in in0 && e in f.entries;
    } else {
      f :| f in in1 && e in f.entries;
    }
  }

  lemma SortedAround(lower: seq<File>, in1: seq<File>, out: File, lower': seq<File>)
    requires FilesOk(lower) && SortedLevel(lower) && FileOk(out) && Ordered(lower')
    requires forall g :: g in lower && g !in in1 ==> Apart(out, g)
    requires Exchanged(lower, in1, out, lower')
    ensures SortedLevel(lower') && FilesOk(lower')
  {
    InsertApart(lower, out, lower');
  }

  lemma LevelsStayOrdered(v: seq<seq<File>>, level: nat, in0: seq<File>, in1: seq<File>, out: File, v': seq<seq<File>>, i: nat, j: nat)
    requires VersionOk(v) && level + 1 < NUM_LEVELS && ClosedInputs(v[level], v[level + 1], in0, in1)
    requires FromInputs(in0, in1, out) && Replaces(v, level, in0, in1, out, v')
    requires i < j < NUM_LEVELS
    ensures Newer(LevelContents(v'[i]), LevelContents(v'[j]))
  {
    forall a, b | a in LevelContents(v'[i]) && b in LevelContents(v'[j]) ensures Before(a, b) {
      var f :| f in v'[i] && a in f.entries;
      var g :| g in v'[j] && b in g.entries;
      if i == level + 1 && f == out {
        InputAbove(v, level, in0, in1, a, j, g, b);
      } else if j == level + 1 && g == out {
        var h := SourceOf(in0, in1, b);
        if h in in0 {
          StaysNewer(v, level, in0, in1, i, f, a, level, h, b);
        } else {
          StaysNewer(v, level, in0, in1, i, f, a, level + 1, h, b);
        }
      } else {
        assert a in LevelContents(v[i]) && b in LevelContents(v[j]);
        assert Newer(LevelContents(v[i]), LevelContents(v[j]));
      }
    }
  }

  lemma InputAbove(v: seq<seq<File>>, level: nat, in0: seq<File>, in1: seq<File>, a: Entry, j: nat, g: File, b: Entry)
    requires VersionOk(v) && level + 1 < NUM_LEVELS && ClosedInputs(v[level], v[level + 1], in0, in1)
    requires (a in LevelContents(in0) || a in LevelContents(in1)) && level + 1 < j < NUM_LEVELS && g in v[j] && b in g.entries
    ensures Before(a, b)
  {
    var h := SourceOf(in0, in1, a);
    assert b in LevelContents(v[j]);
    if h in in0 {
      assert a in LevelContents(v[level]);
      assert Newer(LevelContents(v[level]), LevelContents(v[j]));
    } else {
      assert a in LevelContents(v[level + 1]);
      assert Newer(LevelContents(v[level + 1]), LevelContents(v[j]));
    }
  }

  // ---------------------------------------------------------------------------------------------
  // From edits to these shapes

  function NumberSet(files: seq<File>, level: nat): (r: set<(nat, nat)>)
    ensures forall p :: p in r <==> p.0 == level && exists f :: f in files && f.number == p.1
  {
    set f | f in files :: (level, f.number)
  }

  /** The edit of a compaction: remove every input, add the output one level down. */
  function ReplaceEdit(logNumber: nat, nextFile: nat, lastSequence: nat, level: nat, in0: seq<File>, in1: seq<File>, out: File): Edit {
    Edit(None, Some(logNumber), Some(0), Some(nextFile), Some(lastSequence),
         NumberSet(in0, level) + NumberSet(in1, level + 1), [(level + 1, out)])
  }

  /** The edit of a flush or of a recovery: add tables at one level, advance the log number. */
  function AddEdit(logNumber: nat, nextFile: nat, lastSequence: nat, level: nat, files: seq<File>): Edit {
    Edit(None, Some(logNumber), Some(0), Some(nextFile), Some(lastSequence), {}, LevelPairs(files, level))
  }

  /** No file of the version, at any level, bears the number. */
  ghost predicate Unused(v: seq<seq<File>>, number: nat) {
    forall i, f :: 0 <= i < |v| && f in v[i] ==> f.number != number
  }

  lemma AddEditAt(logNumber: nat, nextFile: nat, lastSequence: nat, level: nat, files: seq<File>, l: nat, S: set<File>)
    ensures var e := AddEdit(logNumber, nextFile, lastSequence, level, files);
            StepLevel(S, e, l) == if l == level then S + Members(files) else S
  {
    var e := AddEdit(logNumber, nextFile, lastSequence, level, files);
    assert DeletedAt(e, l) == {};
    if l == level {
      forall f | f in files ensures f in AddedAt(e, l) {
        assert (level, f) in e.added;
      }
      assert AddedAt(e, l) == Members(files);
    } else {
      assert AddedAt(e, l) == {};
    }
  }

  /** After an `AddEdit` only one level's listing differs. */
  lemma AddEditShape(v: seq<seq<File>>, e: Edit, logNumber: nat, nextFile: nat, lastSequence: nat, level: nat, files: seq<File>, v': seq<seq<File>>)
    requires Listed(v) && level < NUM_LEVELS && e == AddEdit(logNumber, nextFile, lastSequence, level, files) && VersionAfter(v, e, v')
    ensures forall l :: 0 <= l < NUM_LEVELS ==> Ordered(v'[l])
    ensures forall l :: 0 <= l < NUM_LEVELS && l != level ==> v'[l] == v[l]
    ensures Members(v'[level]) == Members(v[level]) + Members(files)
  {
    forall l | 0 <= l < NUM_LEVELS ensures Ordered(v'[l]) && (l != level ==> v'[l] == v[l]) {
      assert LevelAfter(v[l], e, l, v'[l]);
      AddEditAt(logNumber, nextFile, lastSequence, level, files, l, Members(v[l]));
      if l != level {
        OrderedUnique(v'[l], v[l]);
      }
    }
    assert LevelAfter(v[level], e, level, v'[level]);
    AddEditAt(logNumber, nextFile, lastSequence, level, files, level, Members(v[level]));
  }

  /** Fresh, distinct numbers keep the version listed. */
  lemma AddKeepsListed(v: seq<seq<File>>, level: nat, files: seq<File>, v': seq<seq<File>>)
    requires Listed(v) && level < NUM_LEVELS && |v'| == NUM_LEVELS
    requires forall l :: 0 <= l < NUM_LEVELS ==> Ordered(v'[l])
    requires forall l :: 0 <= l < NUM_LEVELS && l != level ==> v'[l] == v[l]
    requires Members(v'[level]) == Members(v[level]) + Members(files)
    requires forall f :: f in files ==> Unused(v, f.number)
    requires forall f, g :: f in files && g in files && f.number == g.number ==> f == g
    ensures Listed(v')
  {
    FilesIn(v'[level], Members(v[level]) + Members(files));
    forall i, j, f, g | 0 <= i < NUM_LEVELS && 0 <= j < NUM_LEVELS && f in v'[i] && g in v'[j] && f.number == g.number
      ensures i == j && f == g
    {
      assert f in v[i] || (i == level && f in files);
      assert g in v[j] || (j == level && g in files);
    }
  }

  lemma ReplaceEditAt(v: seq<seq<File>>, e: Edit, logNumber: nat, nextFile: nat, lastSequence: nat,
                      level: nat, in0: seq<File>, in1: seq<File>, out: File, l: nat, f: File)
    requires Listed(v) && level + 1 < NUM_LEVELS && l < NUM_LEVELS
    requires (forall g :: g in in0 ==> g in v[level]) && (forall g :: g in in1 ==> g in v[level + 1])
    requires e == ReplaceEdit(logNumber, nextFile, lastSequence, level, in0, in1, out)
    requires forall g :: g in v[level + 1] ==> g.number != out.number
    ensures f in StepLevel(Members(v[l]), e, l) <==>
              (f in v[l] && !Taken(level, in0, in1, l, f)) || (l == level + 1 && f == out)
  {
    assert e.added == [(level + 1, out)] && (level + 1, out) in e.added;
    assert AddedAt(e, l) == if l == level + 1 then {out} else {};
    assert l == level + 1 ==> out.number in Numbers(AddedAt(e, l));
    if f in v[l] {
      assert f.number in DeletedAt(e, l) <==> (l, f.number) in e.deleted;
      if (l, f.number) in e.deleted {
        if l == level {
          var g :| g in in0 && g.number == f.number;
          assert g in v[l] && g == f;
        } else {
          var g :| g in in1 && g.number == f.number;
          assert g in v[l] && g == f;
        }
      }
      if Taken(level, in0, in1, l, f) {
        assert (l, f.number) in e.deleted;
      }
    }
  }

  lemma ReplaceEditShape(v: seq<seq<File>>, e: Edit, logNumber: nat, nextFile: nat, lastSequence: nat,
                         level: nat, in0: seq<File>, in1: seq<File>, out: File, v': seq<seq<File>>)
    requires Listed(v) && level + 1 < NUM_LEVELS
    requires (forall g :: g in in0 ==> g in v[level]) && (forall g :: g in in1 ==> g in v[level + 1])
    requires e == ReplaceEdit(logNumber, nextFile, lastSequence, level, in0, in1, out) && VersionAfter(v, e, v')
    requires Unused(v, out.number) || out in in0
    ensures Replaces(v, level, in0, in1, out, v') && Listed(v')
  {
    OutputNumberFree(v, level, in0, out);
    forall l, f | 0 <= l < NUM_LEVELS
      ensures f in v'[l] <==> (f in v[l] && !Taken(level, in0, in1, l, f)) || (l == level + 1 && f == out)
    {
      assert LevelAfter(v[l], e, l, v'[l]);
      ReplaceEditAt(v, e, logNumber, nextFile, lastSequence, level, in0, in1, out, l, f);
      assert f in v'[l] <==> f in Members(v'[l]);
    }
    forall l | 0 <= l < NUM_LEVELS ensures Ordered(v'[l]) {
      assert LevelAfter(v[l], e, l, v'[l]);
    }
    forall l | 0 <= l < NUM_LEVELS && l != level && l != level + 1 ensures v'[l] == v[l] {
      assert Members(v'[l]) == Members(v[l]);
      OrderedUnique(v'[l], v[l]);
    }
    var lower := level + 1;
    assert Removed(v[level], in0, v'[level]);
    assert Exchanged(v[lower], in1, out, v'[lower]);
    forall i, j, f, g | 0 <= i < NUM_LEVELS && 0 <= j < NUM_LEVELS && f in v'[i] && g in v'[j] && f.number == g.number
      ensures i == j && f == g
    {
      NumbersStayUnique(v, level, in0, in1, out, i, j, f, g);
    }
  }

  lemma OutputNumberFree(v: seq<seq<File>>, level: nat, in0: seq<File>, out: File)
    requires Listed(v) && level + 1 < NUM_LEVELS && (forall g :: g in in0 ==> g in v[level])
    requires Unused(v, out.number) || out in in0
    ensures forall i, g :: 0 <= i < NUM_LEVELS && g in v[i] && g.number == out.number ==> i == level && g == out && out in in0
  {}

  lemma NumbersStayUnique(v: seq<seq<File>>, level: nat, in0: seq<File>, in1: seq<File>, out: File, i: nat, j: nat, f: File, g: File)
    requires Listed(v) && level + 1 < NUM_LEVELS && i < NUM_LEVELS && j < NUM_LEVELS
    requires forall k, h :: 0 <= k < NUM_LEVELS && h in v[k] && h.number == out.number ==> k == level && h == out && out in in0
    requires (f in v[i] && !Taken(level, in0, in1, i, f)) || (i == level + 1 && f == out)
    requires (g in v[j] && !Taken(level, in0, in1, j, g)) || (j == level + 1 && g == out)
    requires f.number == g.number
    ensures i == j && f == g
  {}
}
