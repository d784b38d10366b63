/** Version edits, the builder that applies them, and recovery of a version from a manifest. */
module Manifest {
  import opened Format
  import opened Files

  datatype Edit = Edit(comparator: Option<string>, logNumber: Option<nat>, prevLogNumber: Option<nat>, nextFile: Option<nat>,
                       lastSequence: Option<nat>, deleted: set<(nat, nat)>, added: seq<(nat, File)>)

  /** The name of the user comparator, which a manifest records and an opener compares. */
  const COMPARATOR := "leveldb.BytewiseComparator"

  /** What `VersionEdit::DecodeFrom` guarantees: levels are in range. */
  predicate EditOk(e: Edit) {
    && (forall p :: p in e.deleted ==> p.0 < NUM_LEVELS)
    && (forall p :: p in e.added ==> p.0 < NUM_LEVELS)
  }

  /** `BySmallestKey`. */
  predicate BySmallest(f: File, g: File) {
    Less(Smallest(f), Smallest(g)) || (Smallest(f) == Smallest(g) && f.number < g.number)
  }

  predicate Ordered(fs: seq<File>) {
    forall i, j :: 0 <= i < j < |fs| ==> BySmallest(fs[i], fs[j])
  }

  ghost function Numbers(S: set<File>): set<nat> {
    set f | f in S :: f.number
  }

  ghost predicate UniqueNumbers(S: set<File>) {
    forall f, g :: f in S && g in S && f.number == g.number ==> f == g
  }

  ghost function AddedAt(e: Edit, l: nat): set<File> {
    set p | p in e.added && p.0 == l :: p.1
  }

  ghost function DeletedAt(e: Edit, l: nat): set<nat> {
    set p | p in e.deleted && p.0 == l :: p.1
  }

  // ---------------------------------------------------------------------------------------------
  // Ordered listings

  /** A set of files has one listing. */
  lemma {:induction false} OrderedUnique(a: seq<File>, b: seq<File>)
    requires Ordered(a) && Ordered(b) && Members(a) == Members(b)
    ensures a == b
  {
    assert |b| > 0 ==> b[0] in Members(b);
    if a == [] {
    } else {
      assert a[0] in Members(a);
      assert b != [];
      assert b[0] in Members(b);
      var i :| 0 <= i < |b| && b[i] == a[0];
      var j :| 0 <= j < |a| && a[j] == b[0];
      assert a[0] == b[0];
      assert a == [a[0]] + a[1..] && b == [b[0]] + b[1..];
      RestMembers(a);
      RestMembers(b);
      OrderedUnique(a[1..], b[1..]);
    }
  }

  lemma RestMembers(a: seq<File>)
    requires Ordered(a) && a != []
    ensures Members(a[1..]) == Members(a) - {a[0]}
  {
    assert a == [a[0]] + a[1..];
    assert forall k :: 0 < k < |a| ==> BySmallest(a[0], a[k]);
  }

  /** `std::set::insert` under `BySmallestKey`: an equivalent element keeps the newcomer out. */
  function InsertOrdered(fs: seq<File>, f: File): seq<File> {
    if fs == [] || BySmallest(f, fs[0]) then [f] + fs
    else if BySmallest(fs[0], f) then [fs[0]] + InsertOrdered(fs[1..], f)
    else fs
  }

  /** `std::set` orders by the comparator alone, so what two files share decides whether both can be in it. */
  predicate Equivalent(f: File, g: File) {
    Smallest(f) == Smallest(g) && f.number == g.number
  }

  lemma ConsOrdered(f: File, rest: seq<File>)
    requires Ordered(rest) && forall g :: g in rest ==> BySmallest(f, g)
    ensures Ordered([f] + rest) && Members([f] + rest) == Members(rest) + {f}
  {}

  lemma {:induction false} InsertOrderedIs(fs: seq<File>, f: File)
    requires Ordered(fs)
    ensures var r := InsertOrdered(fs, f);
            && Ordered(r)
            && Members(r) == Members(fs) + if exists g :: g in fs && Equivalent(f, g) then {} else {f}
  {
    if fs == [] {
    } else if BySmallest(f, fs[0]) {
      assert forall k :: 0 < k < |fs| ==> BySmallest(fs[0], fs[k]);
      ConsOrdered(f, fs);
    } else if BySmallest(fs[0], f) {
      var rest := InsertOrdered(fs[1..], f);
      InsertOrderedIs(fs[1..], f);
      RestMembers(fs);
      assert forall g :: g in fs <==> g == fs[0] || g in fs[1..];
      forall g | g in rest ensures BySmallest(fs[0], g) {
        assert g in Members(rest);
        assert g in fs[1..] || g == f;
      }
      ConsOrdered(fs[0], rest);
    } else {
      assert fs[0] in fs && Equivalent(f, fs[0]);
    }
  }

  // ---------------------------------------------------------------------------------------------
  // The builder

  /** What one edit makes of a level, as a set. */
  ghost function StepLevel(S: set<File>, e: Edit, l: nat): set<File> {
    set f | f in S + AddedAt(e, l) && f.number !in DeletedAt(e, l) - Numbers(AddedAt(e, l))
  }

  /** The deletions and additions a builder has gathered for a level after a series of edits. */
  ghost function GatheredDeletes(es: seq<Edit>, l: nat): set<nat> {
    if es == [] then {} else
      var n := |es| - 1;
      GatheredDeletes(es[..n], l) + DeletedAt(es[n], l) - Numbers(AddedAt(es[n], l))
  }

  ghost function GatheredAdds(es: seq<Edit>, l: nat): set<File> {
    if es == [] then {} else
      var n := |es| - 1;
      GatheredAdds(es[..n], l) + AddedAt(es[n], l)
  }

  /** No two files ever added at a level share a number. */
  ghost predicate Fresh(es: seq<Edit>, l: nat) {
    es == [] ||
    var n := |es| - 1;
    && Fresh(es[..n], l)
    && UniqueNumbers(AddedAt(es[n], l))
    && Numbers(GatheredAdds(es[..n], l)) !! Numbers(AddedAt(es[n], l))
  }

  /** The additions of a level as the builder holds them: each inserted in turn. */
  function InsertAll(fs: seq<File>, pairs: seq<(nat, File)>, l: nat): seq<File> {
    if pairs == [] then fs else
      var n := |pairs| - 1;
      var before := InsertAll(fs, pairs[..n], l);
      if pairs[n].0 == l then InsertOrdered(before, pairs[n].1) else before
  }

  function GatheredList(es: seq<Edit>, l: nat): seq<File> {
    if es == [] then [] else
      var n := |es| - 1;
      InsertAll(GatheredList(es[..n], l), es[n].added, l)
  }

  /** Equal elements of the two listings keep their order, the first listing's before the second's. */
  function Merge(base: seq<File>, added: seq<File>): seq<File> {
    if added == [] then base
    else if base != [] && !BySmallest(added[0], base[0]) then [base[0]] + Merge(base[1..], added)
    else [added[0]] + Merge(base, added[1..])
  }

  function Kept(files: seq<File>, dead: set<nat>): seq<File> {
    if files == [] then [] else
      var n := |files| - 1;
      MaybeAddFile(Kept(files[..n], dead), dead, files[n])
  }

  /** A listing in which equivalent files may stand side by side. */
  predicate WeaklyOrdered(fs: seq<File>) {
    forall i, j :: 0 <= i < j < |fs| ==> !BySmallest(fs[j], fs[i])
  }

  /** What a builder that started from `base` makes of a level. */
  ghost function Saved(base: seq<File>, es: seq<Edit>, l: nat): seq<File> {
    Kept(Merge(base, GatheredList(es, l)), GatheredDeletes(es, l))
  }

  class Builder {
    const base: seq<seq<File>>
    var deleted: seq<set<nat>>
    var added: seq<seq<File>>
    ghost var edits: seq<Edit>

    ghost predicate Valid()
      reads this
    {
      && |base| == |deleted| == |added| == NUM_LEVELS
      && forall l :: 0 <= l < NUM_LEVELS ==> deleted[l] == GatheredDeletes(edits, l) && added[l] == GatheredList(edits, l)
    }

    constructor (base: seq<seq<File>>)
      requires |base| == NUM_LEVELS
      ensures Valid() && edits == [] && this.base == base
    {
      this.base := base;
      deleted := seq(NUM_LEVELS, i => {});
      added := seq(NUM_LEVELS, i => []);
      edits := [];
    }

    /** `Builder::Apply`: deletions first, then additions, each cancelling a deletion of its number. */
    method Apply(e: Edit)
      requires Valid() && EditOk(e)
      modifies this
      ensures Valid() && edits == old(edits) + [e]
    {
      ghost var before := edits;
      deleted := MarkDeleted(deleted, e.deleted);
      for i := 0 to |e.added|
        invariant |deleted| == |added| == NUM_LEVELS && edits == before
        invariant forall l :: 0 <= l < NUM_LEVELS ==> AddedSoFar(deleted[l], added[l], before, e, i, l)
      {
        var level, f := e.added[i].0, e.added[i].1;
        assert e.added[i] in e.added;
        AddOne(deleted, added, before, e, i);
        deleted := deleted[level := deleted[level] - {f.number}];
        added := added[level := InsertOrdered(added[level], f)];
      }
      edits := edits + [e];
      forall l | 0 <= l < NUM_LEVELS ensures deleted[l] == GatheredDeletes(edits, l) && added[l] == GatheredList(edits, l) {
        AllAdded(deleted[l], added[l], before, e, l);
      }
    }

    /** `Builder::SaveTo` for one level: a merge of the base listing and the ordered additions that
        leaves out deleted numbers. */
    method SaveLevel(l: nat) returns (files: seq<File>)
      requires Valid() && l < NUM_LEVELS && WeaklyOrdered(base[l])
      ensures files == Saved(base[l], edits, l) && WeaklyOrdered(files)
      ensures Ordered(base[l]) && Fresh(edits, l) && Numbers(Members(base[l])) !! Numbers(GatheredAdds(edits, l)) ==>
                && Ordered(files)
                && Members(files) == set f | f in Members(base[l]) + GatheredAdds(edits, l) && f.number !in GatheredDeletes(edits, l)
    {
      hide Merge, Kept;
      files := [];
      var basePos := 0;
      ghost var emitted: seq<File> := [];
      var dead := deleted[l];
      MergeStart(base[l], added[l], dead);
      for i := 0 to |added[l]|
        invariant MergeState(base[l], added[l], dead, basePos, i, emitted, files)
      {
        var f := added[l][i];
        while basePos < |base[l]| && !BySmallest(f, base[l][basePos])
          invariant MergeState(base[l], added[l], dead, basePos, i, emitted, files)
        {
          TakeBase(base[l], added[l], dead, basePos, i, emitted, files);
          emitted := emitted + [base[l][basePos]];
          files := MaybeAddFile(files, dead, base[l][basePos]);
          basePos := basePos + 1;
        }
        TakeAdded(base[l], added[l], dead, basePos, i, emitted, files);
        emitted := emitted + [f];
        files := MaybeAddFile(files, dead, f);
      }
      while basePos < |base[l]|
        invariant MergeState(base[l], added[l], dead, basePos, |added[l]|, emitted, files)
      {
        TakeBase(base[l], added[l], dead, basePos, |added[l]|, emitted, files);
        emitted := emitted + [base[l][basePos]];
        files := MaybeAddFile(files, dead, base[l][basePos]);
        basePos := basePos + 1;
      }
      MergeEnd(base[l], added[l], dead, emitted, files);
      SavedIs(base[l], edits, l);
    }
  }

  method MarkDeleted(deleted: seq<set<nat>>, pairs: set<(nat, nat)>) returns (r: seq<set<nat>>)
    requires |deleted| == NUM_LEVELS && forall p :: p in pairs ==> p.0 < NUM_LEVELS
    ensures |r| == NUM_LEVELS
    ensures forall l :: 0 <= l < NUM_LEVELS ==> r[l] == deleted[l] + (set p | p in pairs && p.0 == l :: p.1)
  {
    r := deleted;
    var pending := pairs;
    ghost var done: set<(nat, nat)> := {};
    while pending != {}
      invariant |r| == NUM_LEVELS && done + pending == pairs
      invariant forall l :: 0 <= l < NUM_LEVELS ==> r[l] == deleted[l] + (set p | p in done && p.0 == l :: p.1)
      decreases pending
    {
      var p :| p in pending;
      r := r[p.0 := r[p.0] + {p.1}];
      done := done + {p};
      pending := pending - {p};
    }
    assert done == pairs;
  }

  lemma AllAdded(deleted: set<nat>, added: seq<File>, es: seq<Edit>, e: Edit, l: nat)
    requires AddedSoFar(deleted, added, es, e, |e.added|, l)
    ensures deleted == GatheredDeletes(es + [e], l) && added == GatheredList(es + [e], l)
  {
    assert (es + [e])[..|es|] == es;
    assert e.added[..|e.added|] == e.added;
  }

  function MaybeAddFile(files: seq<File>, dead: set<nat>, f: File): seq<File> {
    if f.number in dead then files else files + [f]
  }

  /** The first `i` additions of an edit, at one level. */
  ghost function AddedPrefix(e: Edit, i: nat, l: nat): set<File>
    requires i <= |e.added|
  {
    set p | p in e.added[..i] && p.0 == l :: p.1
  }

  ghost predicate AddedSoFar(deleted: set<nat>, added: seq<File>, es: seq<Edit>, e: Edit, i: nat, l: nat)
    requires i <= |e.added|
  {
    && deleted == GatheredDeletes(es, l) + DeletedAt(e, l) - Numbers(AddedPrefix(e, i, l))
    && added == InsertAll(GatheredList(es, l), e.added[..i], l)
  }

  lemma PrefixGrows(e: Edit, i: nat, l: nat)
    requires i < |e.added|
    ensures AddedPrefix(e, i + 1, l) == AddedPrefix(e, i, l) + if e.added[i].0 == l then {e.added[i].1} else {}
    ensures AddedPrefix(e, i, l) <= AddedAt(e, l)
  {
    assert e.added[..i + 1] == e.added[..i] + [e.added[i]];
  }

  lemma AddOne(deleted: seq<set<nat>>, added: seq<seq<File>>, es: seq<Edit>, e: Edit, i: nat)
    requires |deleted| == |added| == NUM_LEVELS && i < |e.added| && e.added[i].0 < NUM_LEVELS
    requires forall l :: 0 <= l < NUM_LEVELS ==> AddedSoFar(deleted[l], added[l], es, e, i, l)
    ensures var level, f := e.added[i].0, e.added[i].1;
            var deleted', added' := deleted[level := deleted[level] - {f.number}], added[level := InsertOrdered(added[level], f)];
            forall l :: 0 <= l < NUM_LEVELS ==> AddedSoFar(deleted'[l], added'[l], es, e, i + 1, l)
  {
    hide GatheredDeletes, GatheredList, InsertOrdered;
    var level, f := e.added[i].0, e.added[i].1;
    var deleted', added' := deleted[level := deleted[level] - {f.number}], added[level := InsertOrdered(added[level], f)];
    assert e.added[..i + 1][..i] == e.added[..i];
    forall l | 0 <= l < NUM_LEVELS ensures AddedSoFar(deleted'[l], added'[l], es, e, i + 1, l) {
      assert AddedSoFar(deleted[l], added[l], es, e, i, l);
      PrefixGrows(e, i, l);
    }
  }

  // The merge of SaveTo: `emitted` is what has been passed over, `files` what was kept of it.

  ghost predicate MergeState(base: seq<File>, added: seq<File>, dead: set<nat>, b: nat, a: nat, emitted: seq<File>, files: seq<File>) {
    && b <= |base| && a <= |added|
    && emitted + Merge(base[b..], added[a..]) == Merge(base, added)
    && files == Kept(emitted, dead)
  }

  lemma MergeStart(base: seq<File>, added: seq<File>, dead: set<nat>)
    ensures MergeState(base, added, dead, 0, 0, [], [])
  {
    assert base[0..] == base && added[0..] == added;
  }

  lemma Emit(dead: set<nat>, emitted: seq<File>, f: File)
    ensures Kept(emitted + [f], dead) == MaybeAddFile(Kept(emitted, dead), dead, f)
  {
    assert (emitted + [f])[..|emitted|] == emitted;
  }

  lemma TakeBase(base: seq<File>, added: seq<File>, dead: set<nat>, b: nat, a: nat, emitted: seq<File>, files: seq<File>)
    requires MergeState(base, added, dead, b, a, emitted, files) && b < |base|
    requires a < |added| ==> !BySmallest(added[a], base[b])
    ensures MergeState(base, added, dead, b + 1, a, emitted + [base[b]], MaybeAddFile(files, dead, base[b]))
  {
    hide Kept;
    Emit(dead, emitted, base[b]);
    assert base[b..][1..] == base[b + 1..] && base[b..] == [base[b]] + base[b + 1..];
    assert Merge(base[b..], added[a..]) == [base[b]] + Merge(base[b + 1..], added[a..]);
  }

  lemma TakeAdded(base: seq<File>, added: seq<File>, dead: set<nat>, b: nat, a: nat, emitted: seq<File>, files: seq<File>)
    requires MergeState(base, added, dead, b, a, emitted, files) && a < |added|
    requires b < |base| ==> BySmallest(added[a], base[b])
    ensures MergeState(base, added, dead, b, a + 1, emitted + [added[a]], MaybeAddFile(files, dead, added[a]))
  {
    hide Kept;
    Emit(dead, emitted, added[a]);
    assert added[a..][1..] == added[a + 1..];
    assert Merge(base[b..], added[a..]) == [added[a]] + Merge(base[b..], added[a + 1..]);
  }

  lemma MergeEnd(base: seq<File>, added: seq<File>, dead: set<nat>, emitted: seq<File>, files: seq<File>)
    requires MergeState(base, added, dead, |base|, |added|, emitted, files)
    ensures files == Kept(Merge(base, added), dead)
  {
    hide Kept;
    assert emitted + [] == emitted;
  }

  // What the listings hold

  lemma {:induction false} InsertAllIs(fs: seq<File>, pairs: seq<(nat, File)>, l: nat)
    requires Ordered(fs)
    ensures Ordered(InsertAll(fs, pairs, l))
    ensures Members(InsertAll(fs, pairs, l)) <= Members(fs) + set p | p in pairs && p.0 == l :: p.1
  {
    if pairs != [] {
      var n := |pairs| - 1;
      InsertAllIs(fs, pairs[..n], l);
      assert pairs == pairs[..n] + [pairs[n]];
      InsertOrderedIs(InsertAll(fs, pairs[..n], l), pairs[n].1);
    }
  }

  /** Where numbers identify files, nothing is kept out. */
  lemma {:induction false} InsertAllKeeps(fs: seq<File>, pairs: seq<(nat, File)>, l: nat)
    requires Ordered(fs)
    requires UniqueNumbers(Members(fs) + set p | p in pairs && p.0 == l :: p.1)
    ensures Members(InsertAll(fs, pairs, l)) == Members(fs) + set p | p in pairs && p.0 == l :: p.1
  {
    if pairs != [] {
      var n := |pairs| - 1;
      var before, all := (set p | p in pairs[..n] && p.0 == l :: p.1), (set p | p in pairs && p.0 == l :: p.1);
      assert pairs == pairs[..n] + [pairs[n]];
      assert all == before + if pairs[n].0 == l then {pairs[n].1} else {};
      InsertAllKeeps(fs, pairs[..n], l);
      InsertAllIs(fs, pairs[..n], l);
      var rest := InsertAll(fs, pairs[..n], l);
      assert forall g :: g in rest ==> g in Members(rest);
      InsertOrderedIs(rest, pairs[n].1);
    }
  }

  lemma {:induction false} GatheredListIs(es: seq<Edit>, l: nat)
    ensures Ordered(GatheredList(es, l)) && Members(GatheredList(es, l)) <= GatheredAdds(es, l)
    ensures Fresh(es, l) ==> Members(GatheredList(es, l)) == GatheredAdds(es, l) && UniqueNumbers(GatheredAdds(es, l))
  {
    hide InsertAll;
    if es != [] {
      var n := |es| - 1;
      var before := GatheredAdds(es[..n], l);
      GatheredListIs(es[..n], l);
      InsertAllIs(GatheredList(es[..n], l), es[n].added, l);
      assert (set p | p in es[n].added && p.0 == l :: p.1) == AddedAt(es[n], l);
      if Fresh(es, l) {
        assert forall f :: f in before ==> f.number in Numbers(before);
        assert forall f :: f in AddedAt(es[n], l) ==> f.number in Numbers(AddedAt(es[n], l));
        assert UniqueNumbers(before + AddedAt(es[n], l));
        InsertAllKeeps(GatheredList(es[..n], l), es[n].added, l);
      }
    }
  }

  /** Nothing is lost and nothing made up, duplicates included. */
  lemma {:induction false} MergeContents(base: seq<File>, added: seq<File>)
    ensures multiset(Merge(base, added)) == multiset(base) + multiset(added)
    decreases |base| + |added|
  {
    if added == [] {
    } else if base != [] && !BySmallest(added[0], base[0]) {
      MergeContents(base[1..], added);
      HeadCounts(base);
      HeadCounts(Merge(base, added));
      assert Merge(base, added)[1..] == Merge(base[1..], added);
    } else {
      MergeContents(base, added[1..]);
      HeadCounts(added);
      HeadCounts(Merge(base, added));
      assert Merge(base, added)[1..] == Merge(base, added[1..]);
    }
  }

  lemma HeadCounts(fs: seq<File>)
    requires fs != []
    ensures multiset(fs) == multiset{fs[0]} + multiset(fs[1..])
  {
    assert fs == [fs[0]] + fs[1..];
  }

  lemma MergeMembers(base: seq<File>, added: seq<File>)
    ensures forall f :: f in Merge(base, added) <==> f in base || f in added
  {
    hide Merge;
    MergeContents(base, added);
    forall f ensures f in Merge(base, added) <==> f in base || f in added {
      assert f in multiset(Merge(base, added)) <==> f in multiset(base) + multiset(added);
    }
  }

  lemma {:induction false} MergeIs(base: seq<File>, added: seq<File>)
    requires WeaklyOrdered(base) && WeaklyOrdered(added)
    ensures WeaklyOrdered(Merge(base, added))
    decreases |base| + |added|
  {
    if added == [] {
    } else if base != [] && !BySmallest(added[0], base[0]) {
      MergeIs(base[1..], added);
      MergeMembers(base[1..], added);
      HeadFirst(base[0], added);
      HeadFirst(base[0], base);
      ConsWeak(base[0], Merge(base[1..], added));
    } else {
      MergeIs(base, added[1..]);
      MergeMembers(base, added[1..]);
      HeadFirst(added[0], added);
      HeadFirst(added[0], base);
      ConsWeak(added[0], Merge(base, added[1..]));
    }
  }

  /** Nothing in a listing comes before what does not come after its head. */
  lemma HeadFirst(f: File, fs: seq<File>)
    requires WeaklyOrdered(fs) && (fs != [] ==> !BySmallest(fs[0], f))
    ensures forall g :: g in fs ==> !BySmallest(g, f)
  {
    forall g | g in fs ensures !BySmallest(g, f) {
      var i :| 0 <= i < |fs| && fs[i] == g;
      assert i > 0 ==> !BySmallest(fs[i], fs[0]);
    }
  }

  lemma ConsWeak(f: File, rest: seq<File>)
    requires WeaklyOrdered(rest) && forall g :: g in rest ==> !BySmallest(g, f)
    ensures WeaklyOrdered([f] + rest)
  {
  }

  lemma OrderedIsWeak(fs: seq<File>)
    requires Ordered(fs)
    ensures WeaklyOrdered(fs)
  {
  }

  /** Without equivalent files the order is strict. */
  lemma {:induction false} MergeIsStrict(base: seq<File>, added: seq<File>)
    requires Ordered(base) && Ordered(added) && forall f, g :: f in base && g in added ==> f.number != g.number
    ensures Ordered(Merge(base, added))
    decreases |base| + |added|
  {
    if added == [] {
    } else if base != [] && !BySmallest(added[0], base[0]) {
      MergeIsStrict(base[1..], added);
      MergeMembers(base[1..], added);
      assert base[0].number != added[0].number;
      AheadOf(base[0], added);
      AheadOf(base[0], base[1..]);
      ConsOrdered(base[0], Merge(base[1..], added));
    } else {
      MergeIsStrict(base, added[1..]);
      MergeMembers(base, added[1..]);
      AheadOf(added[0], added[1..]);
      AheadOf(added[0], base);
      ConsOrdered(added[0], Merge(base, added[1..]));
    }
  }

  lemma AheadOf(f: File, fs: seq<File>)
    requires Ordered(fs) && (fs != [] ==> BySmallest(f, fs[0]))
    ensures forall g :: g in fs ==> BySmallest(f, g)
  {
    forall g | g in fs ensures BySmallest(f, g) {
      var i :| 0 <= i < |fs| && fs[i] == g;
      assert i > 0 ==> BySmallest(fs[0], fs[i]);
    }
  }

  lemma {:induction false} KeptMembers(fs: seq<File>, dead: set<nat>)
    ensures forall f :: f in Kept(fs, dead) <==> f in fs && f.number !in dead
  {
    if fs != [] {
      var n := |fs| - 1;
      KeptMembers(fs[..n], dead);
      assert fs == fs[..n] + [fs[n]];
    }
  }

  lemma {:induction false} KeptIsWeak(fs: seq<File>, dead: set<nat>)
    requires WeaklyOrdered(fs)
    ensures WeaklyOrdered(Kept(fs, dead))
  {
    if fs != [] {
      var n := |fs| - 1;
      KeptIsWeak(fs[..n], dead);
      KeptMembers(fs[..n], dead);
      assert forall g :: g in fs[..n] ==> !BySmallest(fs[n], g);
    }
  }

  lemma {:induction false} KeptIsOrdered(fs: seq<File>, dead: set<nat>)
    requires Ordered(fs)
    ensures Ordered(Kept(fs, dead))
  {
    if fs != [] {
      var n := |fs| - 1;
      KeptIsOrdered(fs[..n], dead);
      KeptMembers(fs[..n], dead);
      assert forall g :: g in fs[..n] ==> BySmallest(g, fs[n]);
    }
  }

  lemma SavedIs(base: seq<File>, es: seq<Edit>, l: nat)
    requires WeaklyOrdered(base)
    ensures WeaklyOrdered(Saved(base, es, l))
    ensures Ordered(base) && Fresh(es, l) && Numbers(Members(base)) !! Numbers(GatheredAdds(es, l)) ==>
              && Ordered(Saved(base, es, l))
              && Members(Saved(base, es, l)) == set f | f in Members(base) + GatheredAdds(es, l) && f.number !in GatheredDeletes(es, l)
  {
    hide Merge, Kept, Ordered, WeaklyOrdered, GatheredDeletes, GatheredList, GatheredAdds, Fresh;
    var added, dead := GatheredList(es, l), GatheredDeletes(es, l);
    GatheredListIs(es, l);
    OrderedIsWeak(added);
    MergeIs(base, added);
    MergeMembers(base, added);
    KeptMembers(Merge(base, added), dead);
    KeptIsWeak(Merge(base, added), dead);
    if Ordered(base) && Fresh(es, l) && Numbers(Members(base)) !! Numbers(GatheredAdds(es, l)) {
      DistinctNumbers(base, added);
      MergeIsStrict(base, added);
      KeptIsOrdered(Merge(base, added), dead);
    }
  }

  lemma DistinctNumbers(base: seq<File>, added: seq<File>)
    requires Numbers(Members(base)) !! Numbers(Members(added))
    ensures forall f, g :: f in base && g in added ==> f.number != g.number
  {
    forall f, g | f in base && g in added ensures f.number != g.number {
      assert f in Members(base) && g in Members(added);
      assert f.number in Numbers(Members(base)) && g.number in Numbers(Members(added));
    }
  }

  // ---------------------------------------------------------------------------------------------
  // Installing an edit, and replaying a manifest

  ghost predicate LevelAfter(files: seq<File>, e: Edit, l: nat, files': seq<File>) {
    Ordered(files') && Members(files') == StepLevel(Members(files), e, l)
  }

  ghost predicate VersionAfter(v: seq<seq<File>>, e: Edit, v': seq<seq<File>>) {
    |v| == |v'| == NUM_LEVELS && forall l :: 0 <= l < NUM_LEVELS ==> LevelAfter(v[l], e, l, v'[l])
  }

  /** The files an edit adds at a level bear numbers not yet used there. */
  ghost predicate FreshFor(files: seq<File>, e: Edit, l: nat) {
    UniqueNumbers(AddedAt(e, l)) && Numbers(Members(files)) !! Numbers(AddedAt(e, l))
  }

  /** The version part of `VersionSet::LogAndApply`: one edit on the current version. */
  method NextVersion(v: seq<seq<File>>, e: Edit) returns (v': seq<seq<File>>)
    requires |v| == NUM_LEVELS && EditOk(e) && forall l :: 0 <= l < NUM_LEVELS ==> WeaklyOrdered(v[l])
    ensures |v'| == NUM_LEVELS && forall l :: 0 <= l < NUM_LEVELS ==> v'[l] == Saved(v[l], [e], l) && WeaklyOrdered(v'[l])
    ensures forall l :: 0 <= l < NUM_LEVELS && Ordered(v[l]) && FreshFor(v[l], e, l) ==> LevelAfter(v[l], e, l, v'[l])
  {
    hide Saved, Fresh, WeaklyOrdered, Ordered;
    var builder := new Builder(v);
    assert [] + [e] == [e];
    builder.Apply(e);
    v' := [];
    for l := 0 to NUM_LEVELS
      invariant |v'| == l && builder.Valid() && builder.base == v && builder.edits == [e]
      invariant forall i :: 0 <= i < l ==> v'[i] == Saved(v[i], [e], i) && WeaklyOrdered(v'[i])
      invariant forall i :: 0 <= i < l && Ordered(v[i]) && FreshFor(v[i], e, i) ==> LevelAfter(v[i], e, i, v'[i])
    {
      OneEdit(e, l);
      var files := builder.SaveLevel(l);
      v' := v' + [files];
    }
  }

  lemma OneEdit(e: Edit, l: nat)
    ensures GatheredDeletes([e], l) == DeletedAt(e, l) - Numbers(AddedAt(e, l))
    ensures GatheredAdds([e], l) == AddedAt(e, l)
    ensures UniqueNumbers(AddedAt(e, l)) ==> Fresh([e], l)
  {
    assert [e][..0] == [];
    assert Fresh([], l) && GatheredAdds([], l) == {};
  }

  /** A level after all edits have gone through one builder that started empty. */
  ghost function Replayed(es: seq<Edit>, l: nat): set<File> {
    set f | f in GatheredAdds(es, l) && f.number !in GatheredDeletes(es, l)
  }

  /** A level after the edits have been installed one at a time. */
  ghost function Folded(S: set<File>, es: seq<Edit>, l: nat): set<File> {
    if es == [] then S else
      var n := |es| - 1;
      StepLevel(Folded(S, es[..n], l), es[n], l)
  }

  /** An edit reuses the number of a file deleted from the level earlier. */
  ghost predicate Resurrects(es: seq<Edit>, e: Edit, l: nat) {
    exists f :: f in GatheredAdds(es, l) && f !in AddedAt(e, l) &&
                f.number in GatheredDeletes(es, l) && f.number in Numbers(AddedAt(e, l))
  }

  /** Gathering one more edit is the same as installing it exactly when it resurrects no number. */
  lemma ReplayStepExact(es: seq<Edit>, e: Edit, l: nat)
    ensures Replayed(es + [e], l) == StepLevel(Replayed(es, l), e, l) <==> !Resurrects(es, e, l)
  {
    var es' := es + [e];
    assert es'[..|es|] == es;
    var one, two := Replayed(es', l), StepLevel(Replayed(es, l), e, l);
    if f :| f in GatheredAdds(es, l) && f !in AddedAt(e, l) &&
            f.number in GatheredDeletes(es, l) && f.number in Numbers(AddedAt(e, l)) {
      assert f in one && f !in two;
    } else {
      forall f | f in one || f in two ensures f in one && f in two {
        assert f in AddedAt(e, l) ==> f.number in Numbers(AddedAt(e, l));
      }
    }
  }

  lemma {:induction false} ReplayIsFold(es: seq<Edit>, l: nat)
    requires Fresh(es, l)
    ensures Replayed(es, l) == Folded({}, es, l)
  {
    if es != [] {
      var n := |es| - 1;
      ReplayIsFold(es[..n], l);
      assert es == es[..n] + [es[n]];
      ReplayStepExact(es[..n], es[n], l);
      assert forall f :: f in GatheredAdds(es[..n], l) ==> f.number in Numbers(GatheredAdds(es[..n], l));
    }
  }

  /** Reusing a number breaks replay: two files come back where the running store has one. */
  lemma ReusedNumberBreaksReplay() returns (es: seq<Edit>, e: Edit, l: nat)
    ensures !Fresh(es + [e], l) && Resurrects(es, e, l)
    ensures Replayed(es + [e], l) != StepLevel(Replayed(es, l), e, l)
  {
    var f := File(5, 1, [Entry(IKey(1, 1, Put), "a")]);
    var g := File(5, 1, [Entry(IKey(2, 2, Put), "b")]);
    l := 1;
    var first := Edit(None, None, None, None, None, {}, [(1, f)]);
    var second := Edit(None, None, None, None, None, {(1, 5)}, []);
    es := [first, second];
    e := Edit(None, None, None, None, None, {}, [(1, g)]);
    assert (1, f) in first.added && (1, g) in e.added && (1, 5) in second.deleted;
    assert f in AddedAt(first, 1) && g in AddedAt(e, 1) && 5 in DeletedAt(second, 1);
    assert es[..1] == [first] && [first][..0] == [] && (es + [e])[..2] == es;
    assert AddedAt(second, 1) == {};
    assert 5 in GatheredDeletes(es, 1) && f in GatheredAdds(es, 1);
    assert f.number in Numbers(GatheredAdds(es, 1)) && g.number in Numbers(AddedAt(e, 1));
    assert f !in AddedAt(e, 1);
    ReplayStepExact(es, e, l);
  }

  /** `VersionSet::WriteSnapshot`: every file of the current version, as one edit. */
  function LevelPairs(files: seq<File>, l: nat): (r: seq<(nat, File)>)
    ensures forall p :: p in r <==> p.0 == l && p.1 in files
  {
    if files == [] then [] else [(l, files[0])] + LevelPairs(files[1..], l)
  }

  function SnapshotPairs(v: seq<seq<File>>, l: nat): (r: seq<(nat, File)>)
    requires l <= |v|
    ensures forall p :: p in r <==> p.0 < l && p.1 in v[p.0]
  {
    if l == 0 then [] else SnapshotPairs(v, l - 1) + LevelPairs(v[l - 1], l - 1)
  }

  function SnapshotEdit(v: seq<seq<File>>): Edit {
    Edit(Some(COMPARATOR), None, None, None, None, {}, SnapshotPairs(v, |v|))
  }

  lemma SnapshotAdds(v: seq<seq<File>>, l: nat)
    requires l < |v|
    ensures AddedAt(SnapshotEdit(v), l) == Members(v[l])
  {
    forall f | f in Members(v[l]) ensures f in AddedAt(SnapshotEdit(v), l) {
      assert (l, f) in SnapshotEdit(v).added;
    }
  }

  lemma {:induction false} FoldFromSnapshot(v: seq<seq<File>>, es: seq<Edit>, l: nat)
    requires l < |v|
    ensures Folded({}, [SnapshotEdit(v)] + es, l) == Folded(Members(v[l]), es, l)
  {
    var m := [SnapshotEdit(v)] + es;
    var n := |es|;
    if n == 0 {
      SnapshotAdds(v, l);
      assert m == [SnapshotEdit(v)] && m[..0] == [];
      assert Folded({}, m[..0], l) == {};
    } else {
      FoldFromSnapshot(v, es[..n - 1], l);
      assert m[..n] == [SnapshotEdit(v)] + es[..n - 1];
    }
  }

  /** The versions a running store goes through. */
  ghost predicate Installs(vs: seq<seq<seq<File>>>, es: seq<Edit>) {
    && |vs| == |es| + 1 && |vs[0]| == NUM_LEVELS
    && forall i :: 0 <= i < |es| ==> VersionAfter(vs[i], es[i], vs[i + 1])
  }

  lemma {:induction false} InstallsFold(vs: seq<seq<seq<File>>>, es: seq<Edit>, n: nat, l: nat)
    requires Installs(vs, es) && n <= |es| && l < NUM_LEVELS
    ensures |vs[n]| == NUM_LEVELS && Members(vs[n][l]) == Folded(Members(vs[0][l]), es[..n], l)
  {
    if n > 0 {
      InstallsFold(vs, es, n - 1, l);
      assert VersionAfter(vs[n - 1], es[n - 1], vs[n]);
      assert LevelAfter(vs[n - 1][l], es[n - 1], l, vs[n][l]);
      assert es[..n][..n - 1] == es[..n - 1];
    }
  }

  /** Recovery is faithful: replaying the snapshot record and the edits after it through one builder gives,
      level by level, the very listing that installing the edits one at a time gave. */
  lemma ReplayGivesCurrentVersion(vs: seq<seq<seq<File>>>, es: seq<Edit>, recovered: seq<seq<File>>)
    requires Installs(vs, es) && es != []
    requires forall l :: 0 <= l < NUM_LEVELS ==> Fresh([SnapshotEdit(vs[0])] + es, l)
    requires |recovered| == NUM_LEVELS
    requires forall l :: 0 <= l < NUM_LEVELS ==>
               Ordered(recovered[l]) && Members(recovered[l]) == Replayed([SnapshotEdit(vs[0])] + es, l)
    ensures recovered == vs[|es|]
  {
    var last := vs[|es|];
    assert VersionAfter(vs[|es| - 1], es[|es| - 1], last);
    forall l | 0 <= l < NUM_LEVELS ensures recovered[l] == last[l] {
      ReplayIsFold([SnapshotEdit(vs[0])] + es, l);
      FoldFromSnapshot(vs[0], es, l);
      InstallsFold(vs, es, |es|, l);
      assert es[..|es|] == es;
      assert LevelAfter(vs[|es| - 1][l], es[|es| - 1], l, last[l]);
      OrderedUnique(recovered[l], last[l]);
    }
  }

  /** The last value an optional field takes in a series of edits. */
  function Latest(xs: seq<Option<nat>>): Option<nat> {
    if xs == [] then None
    else if xs[|xs| - 1].Some? then xs[|xs| - 1]
    else Latest(xs[..|xs| - 1])
  }

  /** It is some value that the field takes and after which it takes no other, if it takes any. */
  lemma {:induction false} LatestIs(xs: seq<Option<nat>>)
    ensures Latest(xs).None? <==> forall i :: 0 <= i < |xs| ==> xs[i].None?
    ensures Latest(xs).Some? ==> exists i :: 0 <= i < |xs| && xs[i] == Latest(xs) && forall j :: i < j < |xs| ==> xs[j].None?
  {
    if xs != [] && xs[|xs| - 1].None? {
      LatestIs(xs[..|xs| - 1]);
    } else if xs != [] {
      assert xs[|xs| - 1] == Latest(xs);
    }
  }

  function LogNumbers(es: seq<Edit>): seq<Option<nat>> { seq(|es|, i requires 0 <= i < |es| => es[i].logNumber) }
  function PrevLogNumbers(es: seq<Edit>): seq<Option<nat>> { seq(|es|, i requires 0 <= i < |es| => es[i].prevLogNumber) }
  function NextFiles(es: seq<Edit>): seq<Option<nat>> { seq(|es|, i requires 0 <= i < |es| => es[i].nextFile) }
  function LastSequences(es: seq<Edit>): seq<Option<nat>> { seq(|es|, i requires 0 <= i < |es| => es[i].lastSequence) }

  /** What a series of edits leaves in the four counters. */
  datatype Counters = Counters(logNumber: Option<nat>, prevLogNumber: Option<nat>, nextFile: Option<nat>, lastSequence: Option<nat>)

  function LatestCounters(es: seq<Edit>): Counters {
    Counters(Latest(LogNumbers(es)), Latest(PrevLogNumbers(es)), Latest(NextFiles(es)), Latest(LastSequences(es)))
  }

  predicate Matches(e: Edit) {
    e.comparator.Some? ==> e.comparator.value == COMPARATOR
  }

  datatype Recovered = Recovered(version: seq<seq<File>>, logNumber: nat, prevLogNumber: nat, manifestNumber: nat, nextFile: nat,
                                 lastSequence: nat)

  /** A manifest that can be opened at all: every record names this comparator or none, and the counters are there. */
  predicate Recoverable(es: seq<Edit>) {
    var c := LatestCounters(es);
    (forall e :: e in es ==> Matches(e)) && c.logNumber.Some? && c.nextFile.Some? && c.lastSequence.Some?
  }

  /** What is then in force. */
  ghost predicate RecoversTo(es: seq<Edit>, r: Recovered) {
    var c := LatestCounters(es);
    && Some(r.logNumber) == c.logNumber && r.prevLogNumber == (if c.prevLogNumber.Some? then c.prevLogNumber.value else 0)
    && Some(r.manifestNumber) == c.nextFile && r.nextFile == r.manifestNumber + 1
    && Some(r.lastSequence) == c.lastSequence
    && |r.version| == NUM_LEVELS && forall l :: 0 <= l < NUM_LEVELS ==> r.version[l] == Saved([], es, l)
  }

  /** `VersionSet::Recover` on the decoded records of a manifest. */
  method Recover(es: seq<Edit>) returns (r: Option<Recovered>)
    requires forall e :: e in es ==> EditOk(e)
    ensures r.Some? <==> Recoverable(es)
    ensures r.Some? ==> RecoversTo(es, r.value)
    ensures (exists e :: e in es && e.comparator.Some? && e.comparator.value != COMPARATOR) ==> r.None?
  {
    hide Saved, Latest;
    var empty: seq<seq<File>> := seq(NUM_LEVELS, i => []);
    var builder := new Builder(empty);
    var c := Counters(None, None, None, None);
    NoCounters();
    for i := 0 to |es|
      invariant builder.Valid() && builder.edits == es[..i] && builder.base == empty
      invariant fresh(builder)
      invariant c == LatestCounters(es[..i]) && forall j :: 0 <= j < i ==> Matches(es[j])
    {
      var e := es[i];
      if e.comparator.Some? && e.comparator.value != COMPARATOR {
        assert e in es && !Matches(e);
        return None;
      }
      CountersStep(es, i);
      builder.Apply(e);
      c := Counters(if e.logNumber.Some? then e.logNumber else c.logNumber,
                    if e.prevLogNumber.Some? then e.prevLogNumber else c.prevLogNumber,
                    if e.nextFile.Some? then e.nextFile else c.nextFile,
                    if e.lastSequence.Some? then e.lastSequence else c.lastSequence);
    }
    assert es[..|es|] == es;
    if c.nextFile.None? || c.logNumber.None? || c.lastSequence.None? {
      return None;
    }
    var version: seq<seq<File>> := [];
    for l := 0 to NUM_LEVELS
      invariant |version| == l && builder.Valid() && builder.base == empty && builder.edits == es
      invariant forall i :: 0 <= i < l ==> version[i] == Saved([], es, i)
    {
      var files := builder.SaveLevel(l);
      version := version + [files];
    }
    r := Some(Recovered(version, c.logNumber.value, if c.prevLogNumber.Some? then c.prevLogNumber.value else 0,
                        c.nextFile.value, c.nextFile.value + 1, c.lastSequence.value));
  }

  lemma NoCounters()
    ensures LatestCounters([]) == Counters(None, None, None, None)
  {
  }

  lemma CountersStep(es: seq<Edit>, i: nat)
    requires i < |es|
    ensures es[..i + 1] == es[..i] + [es[i]]
    ensures var before, e := LatestCounters(es[..i]), es[i];
            LatestCounters(es[..i + 1]) ==
            Counters(if e.logNumber.Some? then e.logNumber else before.logNumber,
                     if e.prevLogNumber.Some? then e.prevLogNumber else before.prevLogNumber,
                     if e.nextFile.Some? then e.nextFile else before.nextFile,
                     if e.lastSequence.Some? then e.lastSequence else before.lastSequence)
  {
    assert LogNumbers(es[..i + 1])[..i] == LogNumbers(es[..i]);
    assert PrevLogNumbers(es[..i + 1])[..i] == PrevLogNumbers(es[..i]);
    assert NextFiles(es[..i + 1])[..i] == NextFiles(es[..i]);
    assert LastSequences(es[..i + 1])[..i] == LastSequences(es[..i]);
  }

  /** With fresh numbers the recovered listing of a level is its replay, in order. */
  lemma RecoveredLevel(es: seq<Edit>, l: nat)
    requires Fresh(es, l)
    ensures Ordered(Saved([], es, l)) && Members(Saved([], es, l)) == Replayed(es, l)
  {
    hide Saved;
    SavedIs([], es, l);
  }
}
