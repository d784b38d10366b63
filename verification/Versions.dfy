/** The tree of levels: the order in which sources must be searched, and the search itself. */
module Versions {
  import opened Format
  import opened VersionedMap
  import opened Files
  import opened Selection

  ghost function LevelContents(files: seq<File>): set<Entry> {
    set f, e | f in files && e in f.entries :: e
  }

  ghost function VersionContents(v: seq<seq<File>>): set<Entry> {
    set i, e | 0 <= i < |v| && e in LevelContents(v[i]) :: e
  }

  /** For every user key, each version in `A` is newer than each version in `B`. */
  ghost predicate Newer(A: set<Entry>, B: set<Entry>) {
    forall a, b :: a in A && b in B ==> Before(a, b)
  }

  ghost predicate LevelsDescend(v: seq<seq<File>>) {
    forall i, j :: 0 <= i < j < |v| ==> Newer(LevelContents(v[i]), LevelContents(v[j]))
  }

  /** Level-0 files may overlap; the file numbers order them. */
  ghost predicate NumbersDescend(files: seq<File>) {
    && (forall f, g :: f in files && g in files && f.number == g.number ==> f == g)
    && (forall f, g :: f in files && g in files && f.number > g.number ==> Newer(Contents(f.entries), Contents(g.entries)))
  }

  /** The recency invariant: versions of a user key get older from level 0 (by descending file number)
      to level 6, and every level above 0 is sorted and disjoint. */
  ghost predicate VersionOk(v: seq<seq<File>>) {
    VersionShape(v) && LevelsDescend(v) && NumbersDescend(v[0])
  }

  // ---------------------------------------------------------------------------------------------
  // Searching one sorted run of entries

  /** Where a seek to `target` lands. */
  function SeekIndex(es: seq<Entry>, target: IKey): (i: nat)
    ensures i <= |es|
    ensures forall j :: 0 <= j < i ==> Less(es[j].key, target)
    ensures i < |es| ==> LessEq(target, es[i].key)
  {
    if es == [] || LessEq(target, es[0].key) then 0 else 1 + SeekIndex(es[1..], target)
  }

  /** What `MemTable::Get` and `Table::InternalGet` hand back: the entry a seek to the lookup key
      lands on, if it belongs to the user key. */
  function SeekGet(es: seq<Entry>, k: UserKey, s: nat): Option<Entry> {
    var i := SeekIndex(es, LookupKey(k, s));
    if i < |es| && es[i].key.user == k then Some(es[i]) else None
  }

  ghost predicate NoCandidate(S: set<Entry>, k: UserKey, s: nat) {
    forall x :: x in S ==> !Candidate(x, k, s)
  }

  /** `e` is a candidate that comes first in internal-key order among those of `S`. */
  ghost predicate IsFirst(S: set<Entry>, k: UserKey, s: nat, e: Entry) {
    && e in S && Candidate(e, k, s)
    && forall x :: x in S && Candidate(x, k, s) ==> LessEq(e.key, x.key)
  }

  lemma SeekGetCorrect(es: seq<Entry>, k: UserKey, s: nat)
    requires Sorted(es)
    ensures SeekGet(es, k, s).Some? ==> IsFirst(Contents(es), k, s, SeekGet(es, k, s).value)
    ensures SeekGet(es, k, s).None? ==> NoCandidate(Contents(es), k, s)
  {
    var target := LookupKey(k, s);
    var i := SeekIndex(es, target);
    forall x | x in Contents(es) && Candidate(x, k, s)
      ensures i < |es| && es[i].key.user == k && LessEq(es[i].key, x.key)
    {
      var j :| 0 <= j < |es| && es[j] == x;
      assert j >= i;
    }
  }

  // ---------------------------------------------------------------------------------------------
  // Searching level 0

  predicate NewestFirst(files: seq<File>) {
    forall i, j :: 0 <= i < j < |files| ==> files[i].number >= files[j].number
  }

  function InsertNewestFirst(files: seq<File>, f: File): (r: seq<File>)
    ensures multiset(r) == multiset(files) + multiset{f}
    ensures NewestFirst(files) ==> NewestFirst(r)
  {
    if files == [] || files[0].number < f.number then
      [f] + files
    else
      assert files == [files[0]] + files[1..];
      var rest := InsertNewestFirst(files[1..], f);
      SameHeads(files, f, rest);
      [files[0]] + rest
  }

  lemma SameHeads(files: seq<File>, f: File, rest: seq<File>)
    requires files != [] && files[0].number >= f.number && multiset(rest) == multiset(files[1..]) + multiset{f}
    ensures NewestFirst(files) && NewestFirst(rest) ==> NewestFirst([files[0]] + rest)
  {
    forall g | g in rest ensures NewestFirst(files) ==> g.number <= files[0].number {
      assert g in multiset(rest);
      assert g == f || g in files[1..];
    }
  }

  /** `std::sort` by descending file number. */
  function SortNewestFirst(files: seq<File>): (r: seq<File>)
    ensures NewestFirst(r) && multiset(r) == multiset(files)
  {
    if files == [] then [] else
      assert files == [files[0]] + files[1..];
      InsertNewestFirst(SortNewestFirst(files[1..]), files[0])
  }

  function CoveringFiles(files: seq<File>, k: UserKey): (r: seq<File>)
    ensures forall f :: f in r <==> f in files && Lo(f) <= k <= Hi(f)
  {
    if files == [] then [] else
      (if Lo(files[0]) <= k <= Hi(files[0]) then [files[0]] else []) + CoveringFiles(files[1..], k)
  }

  function ProbeOrder(files: seq<File>, k: UserKey): (r: seq<File>)
    ensures NewestFirst(r) && forall f :: f in r <==> f in files && Lo(f) <= k <= Hi(f)
  {
    var r := SortNewestFirst(CoveringFiles(files, k));
    SameMembers(r, CoveringFiles(files, k));
    r
  }

  /** Files probed so far held no version to return. */
  ghost predicate NoneIn(files: seq<File>, k: UserKey, s: nat) {
    forall f :: f in files ==> NoCandidate(Contents(f.entries), k, s)
  }

  /** Probing files one after another, up to the first hit. */
  method ProbeInOrder(tmp: seq<File>, k: UserKey, s: nat) returns (r: Option<Entry>, i: nat)
    requires FilesOk(tmp)
    ensures i <= |tmp| && NoneIn(tmp[..i], k, s)
    ensures r.Some? ==> i < |tmp| && IsFirst(Contents(tmp[i].entries), k, s, r.value)
    ensures r.None? ==> i == |tmp|
  {
    r, i := None, 0;
    while i < |tmp|
      invariant i <= |tmp| && r.None? && NoneIn(tmp[..i], k, s)
    {
      assert FileOk(tmp[i]);
      SeekGetCorrect(tmp[i].entries, k, s);
      r := SeekGet(tmp[i].entries, k, s);
      if r.Some? {
        return;
      }
      assert tmp[..i + 1] == tmp[..i] + [tmp[i]];
      i := i + 1;
    }
  }

  /** The level-0 part of `ForEachOverlapping`: newest file first, stopping at the first hit. */
  method Level0Get(files: seq<File>, k: UserKey, s: nat) returns (r: Option<Entry>)
    requires FilesOk(files) && NumbersDescend(files)
    ensures r.Some? ==> IsFirst(LevelContents(files), k, s, r.value)
    ensures r.None? ==> NoCandidate(LevelContents(files), k, s)
  {
    var tmp := ProbeOrder(files, k);
    var i: nat;
    r, i := ProbeInOrder(tmp, k, s);
    if r.Some? {
      FirstOfLevel0(files, tmp, i, k, s, r.value);
    } else {
      assert tmp[..i] == tmp;
      NoneElsewhere(files, tmp, k, s);
    }
  }

  lemma SameMembers(a: seq<File>, b: seq<File>)
    requires multiset(a) == multiset(b)
    ensures forall f :: f in a <==> f in b
  {
    assert forall f :: f in a <==> f in multiset(a);
    assert forall f :: f in b <==> f in multiset(b);
  }

  lemma OnlyCovering(f: File, k: UserKey, s: nat)
    requires FileOk(f) && !(Lo(f) <= k <= Hi(f))
    ensures NoCandidate(Contents(f.entries), k, s)
  {
    Bounds(f);
  }

  lemma NoneElsewhere(files: seq<File>, tmp: seq<File>, k: UserKey, s: nat)
    requires FilesOk(files) && forall f :: f in tmp <==> f in files && Lo(f) <= k <= Hi(f)
    requires NoneIn(tmp, k, s)
    ensures NoCandidate(LevelContents(files), k, s)
  {
    forall x | x in LevelContents(files) ensures !Candidate(x, k, s) {
      var f :| f in files && x in f.entries;
      assert x in Contents(f.entries);
      if f !in tmp {
        OnlyCovering(f, k, s);
      }
    }
  }

  lemma FirstOfLevel0(files: seq<File>, tmp: seq<File>, i: nat, k: UserKey, s: nat, e: Entry)
    requires FilesOk(files) && NumbersDescend(files) && forall f :: f in tmp <==> f in files && Lo(f) <= k <= Hi(f)
    requires NewestFirst(tmp) && i < |tmp| && NoneIn(tmp[..i], k, s) && IsFirst(Contents(tmp[i].entries), k, s, e)
    ensures IsFirst(LevelContents(files), k, s, e)
  {
    hide FilesOk, FileOk, NumbersDescend, NewestFirst, Lo, Hi, LessEq;
    assert tmp[i] in files;
    forall x | x in LevelContents(files) && Candidate(x, k, s) ensures LessEq(e.key, x.key) {
      var f :| f in files && x in f.entries;
      AnswersFirst(files, tmp, i, k, s, e, f, x);
    }
  }

  /** Whichever file a candidate is in, the first answer is not older. */
  lemma AnswersFirst(files: seq<File>, tmp: seq<File>, i: nat, k: UserKey, s: nat, e: Entry, f: File, x: Entry)
    requires FilesOk(files) && NumbersDescend(files) && forall f :: f in tmp <==> f in files && Lo(f) <= k <= Hi(f)
    requires NewestFirst(tmp) && i < |tmp| && NoneIn(tmp[..i], k, s) && IsFirst(Contents(tmp[i].entries), k, s, e)
    requires f in files && x in f.entries && Candidate(x, k, s)
    ensures LessEq(e.key, x.key)
  {
    hide FilesOk, FileOk, Newer, LessEq;
    assert x in Contents(f.entries);
    Covers(files, f, k, s, x);
    var j :| 0 <= j < |tmp| && tmp[j] == f;
    assert forall c :: 0 <= c < i ==> tmp[c] in tmp[..i];
    assert j >= i;
    OlderAnswer(tmp[i], f, k, s, e, x);
  }

  lemma Covers(files: seq<File>, f: File, k: UserKey, s: nat, x: Entry)
    requires FilesOk(files) && f in files && x in f.entries && Candidate(x, k, s)
    ensures Lo(f) <= k <= Hi(f)
  {
    if !(Lo(f) <= k <= Hi(f)) {
      OnlyCovering(f, k, s);
    }
  }

  lemma OlderAnswer(g: File, f: File, k: UserKey, s: nat, e: Entry, x: Entry)
    requires IsFirst(Contents(g.entries), k, s, e) && x in f.entries && Candidate(x, k, s)
    requires f == g || Newer(Contents(g.entries), Contents(f.entries))
    ensures LessEq(e.key, x.key)
  {
    assert x in Contents(f.entries);
    assert f != g ==> Before(e, x);
  }

  // ---------------------------------------------------------------------------------------------
  // Searching a sorted level

  /** One level above 0: at most one file is probed. */
  method SortedLevelGet(files: seq<File>, k: UserKey, s: nat) returns (r: Option<Entry>)
    requires FilesOk(files) && SortedLevel(files)
    ensures r.Some? ==> IsFirst(LevelContents(files), k, s, r.value)
    ensures r.None? ==> NoCandidate(LevelContents(files), k, s)
  {
    OkRanges(files);
    var index := FindFile(files, LookupKey(k, s));
    r := None;
    if index < |files| {
      var f := files[index];
      if k < Lo(f) {
        // all of the file is past any data for the key
      } else {
        r := SeekGet(f.entries, k, s);
      }
    }
    OneFileSuffices(files, index, k, s);
  }

  /** Entries before file `index` sort before the lookup key; a file that reaches it decides the search. */
  lemma OneFileSuffices(files: seq<File>, index: nat, k: UserKey, s: nat)
    requires FilesOk(files) && SortedLevel(files) && index <= |files|
    requires forall i :: 0 <= i < index ==> Less(Largest(files[i]), LookupKey(k, s))
    requires index < |files| ==> LessEq(LookupKey(k, s), Largest(files[index]))
    ensures var r := if index < |files| && k >= Lo(files[index]) then SeekGet(files[index].entries, k, s) else None;
            && (r.Some? ==> IsFirst(LevelContents(files), k, s, r.value))
            && (r.None? ==> NoCandidate(LevelContents(files), k, s))
  {
    var r := if index < |files| && k >= Lo(files[index]) then SeekGet(files[index].entries, k, s) else None;
    if index < |files| {
      assert FileOk(files[index]);
      SeekGetCorrect(files[index].entries, k, s);
      Bounds(files[index]);
      if r.Some? {
        assert files[index] in files && r.value in files[index].entries;
      }
    }
    forall x | x in LevelContents(files) && Candidate(x, k, s)
      ensures r.Some? && LessEq(r.value.key, x.key)
    {
      var f :| f in files && x in f.entries;
      var j :| 0 <= j < |files| && files[j] == f;
      CandidateFile(files, index, j, k, s, x);
    }
  }

  lemma CandidateFile(files: seq<File>, index: nat, j: nat, k: UserKey, s: nat, x: Entry)
    requires FilesOk(files) && SortedLevel(files) && index <= |files| && j < |files|
    requires forall i :: 0 <= i < index ==> Less(Largest(files[i]), LookupKey(k, s))
    requires index < |files| ==> LessEq(LookupKey(k, s), Largest(files[index]))
    requires x in files[j].entries && Candidate(x, k, s)
    ensures index <= j && k >= Lo(files[index])
    ensures SeekGet(files[index].entries, k, s).Some? && LessEq(SeekGet(files[index].entries, k, s).value.key, x.key)
  {
    Bounds(files[j]);
    assert LessEq(LookupKey(k, s), x.key);
    assert index <= j;
    Bounds(files[index]);
    var es := files[index].entries;
    SeekGetCorrect(es, k, s);
    assert x in Contents(files[j].entries);
    if index < j {
      assert Less(Largest(files[index]), Smallest(files[j]));
      assert Largest(files[index]).user == k;
      assert es[|es| - 1] in Contents(es) && Candidate(es[|es| - 1], k, s);
    }
  }

  // ---------------------------------------------------------------------------------------------
  // Searching a version

  ghost function Above(v: seq<seq<File>>, l: nat): set<Entry>
    requires l <= |v|
  {
    set i, e | 0 <= i < l && e in LevelContents(v[i]) :: e
  }

  /** `Version::Get`: the first source to answer, level by level, holds the newest version. */
  method VersionGet(v: seq<seq<File>>, k: UserKey, s: nat) returns (r: Option<Entry>)
    requires VersionOk(v)
    ensures r.Some? ==> IsFirst(VersionContents(v), k, s, r.value)
    ensures r.None? ==> NoCandidate(VersionContents(v), k, s)
  {
    r := Level0Get(v[0], k, s);
    if r.Some? {
      FirstOfVersion(v, 0, k, s, r.value);
      return;
    }
    for level := 1 to NUM_LEVELS
      invariant NoCandidate(Above(v, level), k, s)
    {
      if |v[level]| > 0 {
        r := SortedLevelGet(v[level], k, s);
        if r.Some? {
          FirstOfVersion(v, level, k, s, r.value);
          return;
        }
      }
    }
    r := None;
  }

  lemma FirstOfVersion(v: seq<seq<File>>, l: nat, k: UserKey, s: nat, e: Entry)
    requires LevelsDescend(v) && l < |v| && NoCandidate(Above(v, l), k, s) && IsFirst(LevelContents(v[l]), k, s, e)
    ensures IsFirst(VersionContents(v), k, s, e)
  {
    assert forall i, x :: 0 <= i < l && x in LevelContents(v[i]) ==> x in Above(v, l);
    forall x | x in VersionContents(v) && Candidate(x, k, s) ensures LessEq(e.key, x.key) {
      var i :| 0 <= i < |v| && x in LevelContents(v[i]);
      if i > l {
        assert Newer(LevelContents(v[l]), LevelContents(v[i]));
        assert Before(e, x);
      }
    }
  }

  // ---------------------------------------------------------------------------------------------
  // Searching the store

  ghost function Sources(mem: seq<Entry>, imm: Option<seq<Entry>>, v: seq<seq<File>>): set<Entry> {
    Contents(mem) + (ImmContents(imm) + VersionContents(v))
  }

  ghost function ImmContents(imm: Option<seq<Entry>>): set<Entry> {
    if imm.Some? then Contents(imm.value) else {}
  }

  ghost predicate SourcesDescend(mem: seq<Entry>, imm: Option<seq<Entry>>, v: seq<seq<File>>) {
    && Sorted(mem)
    && (imm.Some? ==> Sorted(imm.value))
    && Newer(Contents(mem), ImmContents(imm) + VersionContents(v))
    && Newer(ImmContents(imm), VersionContents(v))
    && VersionOk(v)
  }

  lemma FirstOfUnion(A: set<Entry>, B: set<Entry>, k: UserKey, s: nat, e: Entry)
    requires if e in A then IsFirst(A, k, s, e) && Newer(A, B) else NoCandidate(A, k, s) && IsFirst(B, k, s, e)
    ensures IsFirst(A + B, k, s, e)
  {
    if e in A {
      forall x | x in B && Candidate(x, k, s) ensures LessEq(e.key, x.key) {
        assert Before(e, x);
      }
    }
  }

  /** `DBImpl::Get` on a captured memtable, immutable memtable and version.  It stops at the first hit,
      yet the answer is the newest version at most `s` in the union of all sources. */
  method Get(mem: seq<Entry>, imm: Option<seq<Entry>>, v: seq<seq<File>>, k: UserKey, s: nat) returns (r: Option<Value>)
    requires SourcesDescend(mem, imm, v) && Functional(Sources(mem, imm, v))
    ensures r == Read(Sources(mem, imm, v), k, s)
  {
    ghost var lower := ImmContents(imm) + VersionContents(v);
    NewestIs(Sources(mem, imm, v), k, s);
    SeekGetCorrect(mem, k, s);
    var hit := SeekGet(mem, k, s);
    if hit.Some? {
      FirstOfUnion(Contents(mem), lower, k, s, hit.value);
      assert IsNewest(Sources(mem, imm, v), k, s, hit.value);
      return Live(hit.value);
    }
    if imm.Some? {
      SeekGetCorrect(imm.value, k, s);
      hit := SeekGet(imm.value, k, s);
      if hit.Some? {
        FirstOfUnion(Contents(imm.value), VersionContents(v), k, s, hit.value);
        FirstOfUnion(Contents(mem), lower, k, s, hit.value);
        assert IsNewest(Sources(mem, imm, v), k, s, hit.value);
        return Live(hit.value);
      }
    }
    hit := VersionGet(v, k, s);
    if hit.Some? {
      FirstOfUnion(ImmContents(imm), VersionContents(v), k, s, hit.value);
      FirstOfUnion(Contents(mem), lower, k, s, hit.value);
      assert IsNewest(Sources(mem, imm, v), k, s, hit.value);
      return Live(hit.value);
    }
    r := None;
  }
}
