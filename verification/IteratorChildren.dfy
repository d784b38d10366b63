/** The sources an iterator of the store merges: memtables, level-0 tables, and one list for each deeper level. */
module IteratorChildren {
  import opened Format
  import opened Files
  import opened Selection
  import opened Versions
  import opened History
  import Merger
  import TwoLevel

  // ---------------------------------------------------------------------------------------------
  // A sorted level as one list

  /** The entries of the files, one file after the other. */
  function LevelList(files: seq<File>): seq<Entry> {
    if files == [] then [] else LevelList(files[..|files| - 1]) + files[|files| - 1].entries
  }

  /** What `LevelFileNumIterator` goes through: the largest key of each file, and its number and size. */
  function LevelIndex(files: seq<File>, name: File -> Value): seq<Entry> {
    seq(|files|, i requires 0 <= i < |files| => Entry(Largest(files[i]), name(files[i])))
  }

  ghost predicate Opens(files: seq<File>, name: File -> Value, read: map<Value, seq<Entry>>) {
    forall f :: f in files ==> name(f) in read && read[name(f)] == f.entries
  }

  /** The concatenating iterator of a sorted level: the index and the tables it opens are what a two-level
      iterator needs, and what that walks over is the list of the level. */
  lemma ConcatenatesLevel(files: seq<File>, name: File -> Value, read: map<Value, seq<Entry>>)
    requires FilesOk(files) && SortedLevel(files) && Opens(files, name, read)
    ensures TwoLevel.IndexOk(LevelIndex(files, name), read)
    ensures TwoLevel.Joined(LevelIndex(files, name), read, |files|) == LevelList(files)
  {
    hide FilesOk, SortedLevel, TwoLevel.Block, LevelIndex, TwoLevel.Joined, LevelList;
    IndexBlocks(files, name, read);
    IndexDivides(files, name, read);
    JoinsFiles(files, name, read, |files|);
    assert files[..|files|] == files;
  }

  lemma IndexBlocks(files: seq<File>, name: File -> Value, read: map<Value, seq<Entry>>)
    requires Opens(files, name, read)
    ensures var index := LevelIndex(files, name);
            && |index| == |files|
            && forall i :: 0 <= i < |files| ==> index[i].value in read && TwoLevel.Block(index, read, i) == files[i].entries
  {
    var index := LevelIndex(files, name);
    forall i | 0 <= i < |files| ensures index[i].value in read && TwoLevel.Block(index, read, i) == files[i].entries {
      assert files[i] in files;
    }
  }

  lemma IndexDivides(files: seq<File>, name: File -> Value, read: map<Value, seq<Entry>>)
    requires FilesOk(files) && SortedLevel(files) && Opens(files, name, read)
    ensures TwoLevel.IndexOk(LevelIndex(files, name), read)
  {
    hide TwoLevel.Block, Sorted, TwoLevel.Divides;
    var index := LevelIndex(files, name);
    IndexBlocks(files, name, read);
    IndexSorted(files, name);
    forall i | 0 <= i < |index| ensures Sorted(TwoLevel.Block(index, read, i)) {
      assert files[i] in files;
    }
    forall i, j, k | 0 <= i <= j < |index| && 0 <= k < |TwoLevel.Block(index, read, j)|
      ensures TwoLevel.Divides(index[i].key, TwoLevel.Block(index, read, j)[k].key, i == j)
    {
      DividesFiles(files, i, j, files[j].entries[k]);
    }
  }

  lemma IndexSorted(files: seq<File>, name: File -> Value)
    requires FilesOk(files) && SortedLevel(files)
    ensures Sorted(LevelIndex(files, name))
  {
    OkRanges(files);
    forall i, j | 0 <= i < j < |files| ensures Less(Largest(files[i]), Largest(files[j])) {
      LargestAscends(files, i);
    }
  }

  lemma DividesFiles(files: seq<File>, i: nat, j: nat, e: Entry)
    requires FilesOk(files) && SortedLevel(files) && i <= j < |files| && e in files[j].entries
    ensures TwoLevel.Divides(Largest(files[i]), e.key, i == j)
  {
    assert files[j] in files;
    Bounds(files[j]);
  }

  lemma {:induction false} JoinsFiles(files: seq<File>, name: File -> Value, read: map<Value, seq<Entry>>, n: nat)
    requires n <= |files| && forall i :: 0 <= i < |files| ==> TwoLevel.Block(LevelIndex(files, name), read, i) == files[i].entries
    ensures TwoLevel.Joined(LevelIndex(files, name), read, n) == LevelList(files[..n])
  {
    if n > 0 {
      JoinsFiles(files, name, read, n - 1);
      assert files[..n][..n - 1] == files[..n - 1];
    }
  }

  lemma {:induction false} LevelListIs(files: seq<File>)
    requires FilesOk(files) && SortedLevel(files)
    ensures Sorted(LevelList(files)) && Contents(LevelList(files)) == LevelContents(files)
  {
    hide Sorted, LevelContents;
    if files == [] {
      NoFiles();
    } else {
      var n := |files| - 1;
      LevelListIs(files[..n]);
      LastFile(files);
    }
  }

  lemma NoFiles()
    ensures Sorted([]) && Contents([]) == {} == LevelContents([])
  {
  }

  lemma LastFile(files: seq<File>)
    requires files != [] && FilesOk(files) && SortedLevel(files)
    requires var before := files[..|files| - 1]; Sorted(LevelList(before)) && Contents(LevelList(before)) == LevelContents(before)
    ensures Sorted(LevelList(files)) && Contents(LevelList(files)) == LevelContents(files)
  {
    hide Sorted, SortedLevel, LevelContents;
    var n := |files| - 1;
    var before, last := LevelList(files[..n]), files[n];
    assert files == files[..n] + [last] && last in files;
    forall x, y | x in before && y in last.entries ensures Less(x.key, y.key) {
      assert x in Contents(before);
      InEarlierFile(files, x, y);
    }
    SortedJoin(before, last.entries);
    LevelGrows(files[..n], last);
    assert Contents(before + last.entries) == Contents(before) + Contents(last.entries);
  }

  lemma SortedJoin(a: seq<Entry>, b: seq<Entry>)
    requires Sorted(a) && Sorted(b) && forall x, y :: x in a && y in b ==> Less(x.key, y.key)
    ensures Sorted(a + b)
  {
  }

  lemma LevelGrows(a: seq<File>, f: File)
    ensures LevelContents(a + [f]) == LevelContents(a) + Contents(f.entries)
  {
    assert forall g :: g in a + [f] <==> g in a || g == f;
  }

  lemma InEarlierFile(files: seq<File>, x: Entry, y: Entry)
    requires files != [] && FilesOk(files) && SortedLevel(files)
    requires x in LevelContents(files[..|files| - 1]) && y in files[|files| - 1].entries
    ensures Less(x.key, y.key)
  {
    var n := |files| - 1;
    var f :| f in files[..n] && x in f.entries;
    var i :| 0 <= i < n && files[i] == f;
    assert files[i] in files && files[n] in files;
    Bounds(files[i]);
    Bounds(files[n]);
  }

  // ---------------------------------------------------------------------------------------------
  // The children

  function Tables(files: seq<File>): (r: seq<seq<Entry>>)
    ensures |r| == |files| && forall i :: 0 <= i < |files| ==> r[i] == files[i].entries
  {
    seq(|files|, i requires 0 <= i < |files| => files[i].entries)
  }

  /** One list for each level from `l` on that has files. */
  function DeeperLists(v: seq<seq<File>>, l: nat): seq<seq<Entry>>
    decreases |v| - l
  {
    if l >= |v| then []
    else (if v[l] == [] then [] else [LevelList(v[l])]) + DeeperLists(v, l + 1)
  }

  /** `NewIterator` and `AddIterators`. */
  function Children(mem: seq<Entry>, imm: Option<seq<Entry>>, v: seq<seq<File>>): seq<seq<Entry>>
    requires |v| == NUM_LEVELS
  {
    [mem] + ((if imm.Some? then [imm.value] else []) + (Tables(v[0]) + DeeperLists(v, 1)))
  }

  /** All entries of some lists. */
  ghost function Union(lists: seq<seq<Entry>>): set<Entry> {
    set i, e | 0 <= i < |lists| && e in lists[i] :: e
  }

  /** Sorted lists, any two of which hold versions of a user key that do not interleave. */
  ghost predicate Ranked(lists: seq<seq<Entry>>) {
    && (forall i :: 0 <= i < |lists| ==> Sorted(lists[i]))
    && (forall i, j :: 0 <= i < j < |lists| ==> OneSide(lists[i], lists[j]))
  }

  ghost predicate OneSide(a: seq<Entry>, b: seq<Entry>) {
    Newer(Contents(a), Contents(b)) || Newer(Contents(b), Contents(a))
  }

  lemma RankedJoin(a: seq<seq<Entry>>, b: seq<seq<Entry>>)
    requires Ranked(a) && Ranked(b) && Newer(Union(a), Union(b))
    ensures Ranked(a + b) && Union(a + b) == Union(a) + Union(b)
  {
    var all := a + b;
    forall i, j | 0 <= i < j < |all| ensures OneSide(all[i], all[j]) {
      assert i < |a| && j >= |a| ==> Contents(a[i]) <= Union(a) && Contents(b[j - |a|]) <= Union(b);
    }
    forall e ensures e in Union(all) <==> e in Union(a) + Union(b) {
      if e in Union(a) {
        var i :| 0 <= i < |a| && e in a[i];
        assert e in all[i];
      }
      if e in Union(b) {
        var i :| 0 <= i < |b| && e in b[i];
        assert e in all[|a| + i];
      }
    }
  }

  lemma OneList(a: seq<Entry>)
    requires Sorted(a)
    ensures Ranked([a]) && Union([a]) == Contents(a)
  {
    assert forall e :: e in a ==> e in [a][0];
  }

  lemma NoList()
    ensures Ranked([]) && Union([]) == {}
  {
  }

  lemma TablesRanked(files: seq<File>)
    requires FilesOk(files) && NoDuplicates(files) && NumbersDescend(files)
    ensures Ranked(Tables(files)) && Union(Tables(files)) == LevelContents(files)
  {
    var lists := Tables(files);
    forall i, j | 0 <= i < j < |lists| ensures OneSide(lists[i], lists[j]) {
      assert files[i] in files && files[j] in files && files[i] != files[j];
    }
    forall i | 0 <= i < |lists| ensures Sorted(lists[i]) {
      assert files[i] in files;
    }
    forall e | e in LevelContents(files) ensures e in Union(lists) {
      var f :| f in files && e in f.entries;
      var i :| 0 <= i < |files| && files[i] == f;
      assert e in lists[i];
    }
  }

  ghost function ContentsFrom(v: seq<seq<File>>, l: nat): set<Entry> {
    set i, e | l <= i < |v| && e in LevelContents(v[i]) :: e
  }

  lemma {:induction false} DeeperRanked(v: seq<seq<File>>, l: nat)
    requires 1 <= l <= |v| && LevelsDescend(v)
    requires forall i :: 1 <= i < |v| ==> FilesOk(v[i]) && SortedLevel(v[i])
    ensures Ranked(DeeperLists(v, l)) && Union(DeeperLists(v, l)) == ContentsFrom(v, l)
    decreases |v| - l
  {
    hide Ranked, Union, LevelContents;
    if l == |v| {
      NoList();
    } else {
      DeeperRanked(v, l + 1);
      LevelAbove(v, l);
      if v[l] == [] {
        assert [] + DeeperLists(v, l + 1) == DeeperLists(v, l + 1);
      } else {
        LevelListIs(v[l]);
        OneList(LevelList(v[l]));
        RankedJoin([LevelList(v[l])], DeeperLists(v, l + 1));
      }
    }
  }

  lemma LevelAbove(v: seq<seq<File>>, l: nat)
    requires l < |v| && LevelsDescend(v)
    ensures ContentsFrom(v, l) == LevelContents(v[l]) + ContentsFrom(v, l + 1)
    ensures Newer(LevelContents(v[l]), ContentsFrom(v, l + 1))
    ensures v[l] == [] ==> LevelContents(v[l]) == {}
  {
    forall a, b | a in LevelContents(v[l]) && b in ContentsFrom(v, l + 1) ensures Before(a, b) {
      var j :| l + 1 <= j < |v| && b in LevelContents(v[j]);
      assert Newer(LevelContents(v[l]), LevelContents(v[j]));
    }
  }

  lemma VersionRanked(v: seq<seq<File>>)
    requires VersionOk(v)
    ensures Ranked(Tables(v[0]) + DeeperLists(v, 1)) && Union(Tables(v[0]) + DeeperLists(v, 1)) == VersionContents(v)
  {
    hide Ranked, Union, LevelContents;
    TablesRanked(v[0]);
    DeeperRanked(v, 1);
    LevelAbove(v, 0);
    RankedJoin(Tables(v[0]), DeeperLists(v, 1));
    assert ContentsFrom(v, 0) == VersionContents(v);
  }

  lemma ChildrenRanked(mem: seq<Entry>, imm: Option<seq<Entry>>, v: seq<seq<File>>)
    requires SourcesDescend(mem, imm, v)
    ensures |v| == NUM_LEVELS && Ranked(Children(mem, imm, v)) && Union(Children(mem, imm, v)) == Sources(mem, imm, v)
  {
    hide Ranked, Union, VersionContents, Tables, DeeperLists, LevelsDescend, NumbersDescend;
    VersionRanked(v);
    var below := Tables(v[0]) + DeeperLists(v, 1);
    var older := (if imm.Some? then [imm.value] else []) + below;
    if imm.Some? {
      OneList(imm.value);
      RankedJoin([imm.value], below);
    } else {
      assert older == below;
    }
    OneList(mem);
    RankedJoin([mem], older);
  }

  /** The sorted union of the sources is what merging the children yields, and nothing else is. */
  lemma ChildrenMerge(mem: seq<Entry>, imm: Option<seq<Entry>>, v: seq<seq<File>>, merged: seq<Entry>)
    requires SourcesDescend(mem, imm, v)
    ensures |v| == NUM_LEVELS
    ensures Merger.IsMerge(Children(mem, imm, v), merged) <==> Sorted(merged) && Contents(merged) == Sources(mem, imm, v)
  {
    hide Children, Sources, Sorted, SourcesDescend;
    ChildrenRanked(mem, imm, v);
    RankedMerge(Children(mem, imm, v), merged);
  }

  lemma RankedMerge(lists: seq<seq<Entry>>, merged: seq<Entry>)
    requires Ranked(lists)
    ensures Merger.IsMerge(lists, merged) <==> Sorted(merged) && Contents(merged) == Union(lists)
  {
    hide Sorted;
    forall e ensures Merger.Holds(lists, e) <==> e in Union(lists) {
      if e in Union(lists) {
        var i :| 0 <= i < |lists| && e in lists[i];
        var j :| 0 <= j < |lists[i]| && lists[i][j] == e;
      }
      if Merger.Holds(lists, e) {
        var i, j :| 0 <= i < |lists| && 0 <= j < |lists[i]| && lists[i][j] == e;
        assert e in lists[i];
      }
    }
    assert (forall e :: e in merged <==> e in Union(lists)) <==> Contents(merged) == Union(lists);
    forall i, j, a, b |
        0 <= i < |lists| && 0 <= j < |lists| && 0 <= a < |lists[i]| && 0 <= b < |lists[j]|
        && !Less(lists[i][a].key, lists[j][b].key) && !Less(lists[j][b].key, lists[i][a].key)
      ensures i == j
    {
      Comparable(lists, i, j, lists[i][a], lists[j][b]);
    }
  }

  lemma Comparable(lists: seq<seq<Entry>>, i: nat, j: nat, x: Entry, y: Entry)
    requires Ranked(lists) && i < |lists| && j < |lists| && x in lists[i] && y in lists[j]
    ensures i == j || Less(x.key, y.key) || Less(y.key, x.key)
  {
    assert x in Contents(lists[i]) && y in Contents(lists[j]);
    assert i < j ==> OneSide(lists[i], lists[j]);
    assert j < i ==> OneSide(lists[j], lists[i]);
    assert i != j ==> Before(x, y) || Before(y, x);
  }

  // ---------------------------------------------------------------------------------------------
  // The input of a compaction

  /** `MakeInputIterator`: level-0 tables one by one, other inputs as one list. */
  function InputLists(level: nat, in0: seq<File>, in1: seq<File>): seq<seq<Entry>> {
    (if in0 == [] then [] else if level == 0 then Tables(in0) else [LevelList(in0)])
    + (if in1 == [] then [] else [LevelList(in1)])
  }

  lemma UpperInputsRanked(v: seq<seq<File>>, level: nat, in0: seq<File>)
    requires VersionOk(v) && level < NUM_LEVELS && (forall f :: f in in0 ==> f in v[level]) && NoDuplicates(in0) && in0 != []
    requires level > 0 ==> SortedLevel(in0)
    ensures var lists := if level == 0 then Tables(in0) else [LevelList(in0)];
            Ranked(lists) && Union(lists) == LevelContents(in0)
  {
    hide Ranked, Union, LevelContents, LevelList, Sorted;
    if level == 0 {
      TablesRanked(in0);
    } else {
      LevelListIs(in0);
      OneList(LevelList(in0));
    }
  }

  lemma LowerInputsRanked(in1: seq<File>)
    requires FilesOk(in1) && SortedLevel(in1)
    ensures var lists := if in1 == [] then [] else [LevelList(in1)];
            Ranked(lists) && Union(lists) == LevelContents(in1)
  {
    hide Ranked, Union, LevelContents, LevelList, Sorted;
    if in1 == [] {
      NoList();
      NoFiles();
    } else {
      LevelListIs(in1);
      OneList(LevelList(in1));
    }
  }

  /** A list is the merged input of a compaction if and only if it is the sorted contents of the input files. */
  lemma InputsMerge(v: seq<seq<File>>, level: nat, in0: seq<File>, in1: seq<File>, merged: seq<Entry>)
    requires VersionOk(v) && level + 1 < NUM_LEVELS && ClosedInputs(v[level], v[level + 1], in0, in1) && InOrder(level, in0, in1)
    ensures Merger.IsMerge(InputLists(level, in0, in1), merged)
            <==> Sorted(merged) && Contents(merged) == LevelContents(in0) + LevelContents(in1)
  {
    hide Ranked, Union, LevelContents, LevelList, Sorted, Tables, Merger.IsMerge, NumbersDescend;
    UpperInputsRanked(v, level, in0);
    LowerInputsRanked(in1);
    InputsDescend(v, level, in0, in1);
    RankedJoin(if level == 0 then Tables(in0) else [LevelList(in0)], if in1 == [] then [] else [LevelList(in1)]);
    RankedMerge(InputLists(level, in0, in1), merged);
  }

  lemma InputsDescend(v: seq<seq<File>>, level: nat, in0: seq<File>, in1: seq<File>)
    requires LevelsDescend(v) && level + 1 < |v|
    requires (forall f :: f in in0 ==> f in v[level]) && (forall f :: f in in1 ==> f in v[level + 1])
    ensures Newer(LevelContents(in0), LevelContents(in1))
  {
    var lower := level + 1;
    assert Newer(LevelContents(v[level]), LevelContents(v[lower]));
    assert LevelContents(in0) <= LevelContents(v[level]) && LevelContents(in1) <= LevelContents(v[lower]);
  }

  /** Entries with trailers of their own can be listed in order. */
  lemma {:induction false} SortedListing(S: set<Entry>) returns (merged: seq<Entry>)
    requires forall x, y :: x in S && y in S && Tag(x.key) == Tag(y.key) ==> x == y
    ensures Sorted(merged) && Contents(merged) == S
    decreases S
  {
    if S == {} {
      merged := [];
    } else {
      var e :| e in S;
      var rest := SortedListing(S - {e});
      assert forall x :: x in rest ==> x in Contents(rest);
      InsertEntryIs(rest, e);
      merged := InsertEntry(rest, e);
    }
  }
}
