/** Merging several sorted sources into one cursor, in both directions. */
module Merger {
  import opened Format
  import opened Cursors

  ghost predicate Holds(lists: seq<seq<Entry>>, e: Entry) {
    exists i, j :: 0 <= i < |lists| && 0 <= j < |lists[i]| && lists[i][j] == e
  }

  /** `merged` is the sorted union of sorted sources that share no internal key. */
  ghost predicate IsMerge(lists: seq<seq<Entry>>, merged: seq<Entry>) {
    && Sorted(merged)
    && (forall i :: 0 <= i < |lists| ==> Sorted(lists[i]))
    && (forall e :: e in merged <==> Holds(lists, e))
    && (forall i, j, a, b ::
          (0 <= i < |lists| && 0 <= j < |lists| && 0 <= a < |lists[i]| && 0 <= b < |lists[j]|
           && !Less(lists[i][a].key, lists[j][b].key) && !Less(lists[j][b].key, lists[i][a].key)) ==> i == j)
  }

  /** Every child stands at its first entry that is not before `merged[m]`. */
  ghost predicate CutAt(lists: seq<seq<Entry>>, merged: seq<Entry>, m: nat, pos: seq<nat>) {
    && |pos| == |lists| && m <= |merged|
    && forall i :: 0 <= i < |lists| ==> CutChild(lists[i], merged, m, pos[i])
  }

  ghost predicate CutChild(list: seq<Entry>, merged: seq<Entry>, m: nat, p: nat)
    requires m <= |merged|
  {
    && p <= |list|
    && (forall j :: 0 <= j < p && m < |merged| ==> Less(list[j].key, merged[m].key))
    && (forall j :: p <= j < |list| ==> From(merged, m, list[j].key))
  }

  predicate From(merged: seq<Entry>, m: nat, key: IKey) {
    m < |merged| && LessEq(merged[m].key, key)
  }

  /** Every child stands at its last entry before `merged[m]`, or nowhere if it has none. */
  ghost predicate CutBefore(lists: seq<seq<Entry>>, merged: seq<Entry>, m: nat, pos: seq<nat>) {
    && |pos| == |lists| && m <= |merged|
    && forall i :: 0 <= i < |lists| ==> BackChild(lists[i], merged, m, pos[i])
  }

  ghost predicate BackChild(list: seq<Entry>, merged: seq<Entry>, m: nat, p: nat)
    requires m <= |merged|
  {
    exists q: nat :: CutChild(list, merged, m, q) && p == PrevPos(|list|, q)
  }

  datatype Direction = Forward | Reverse

  class MergingIterator {
    const lists: seq<seq<Entry>>
    ghost const merged: seq<Entry>
    var pos: seq<nat>
    var current: Option<nat>
    var direction: Direction
    /** The position in the merged list, when there is a current child. */
    ghost var at: nat

    ghost predicate Inv()
      reads this
    {
      && IsMerge(lists, merged) && |pos| == |lists|
      && (current.Some? ==>
            && at < |merged| && current.value < |lists| && pos[current.value] < |lists[current.value]|
            && lists[current.value][pos[current.value]] == merged[at]
            && (direction.Forward? ==> CutAt(lists, merged, at, pos))
            && (direction.Reverse? ==> OthersBefore(lists, merged, at, pos, current.value)))
      && (forall i :: 0 <= i < |lists| ==> pos[i] <= |lists[i]|)
    }

    ghost function Pos(): nat
      reads this
    {
      if current.Some? then at else |merged|
    }

    constructor (lists: seq<seq<Entry>>, ghost merged: seq<Entry>)
      requires IsMerge(lists, merged)
      ensures Inv() && this.lists == lists && this.merged == merged && current.None?
    {
      this.lists := lists;
      this.merged := merged;
      pos := seq(|lists|, i requires 0 <= i < |lists| => |lists[i]|);
      current, direction, at := None, Forward, 0;
    }

    /** `key()` and `value()`. */
    method Current() returns (e: Entry)
      requires Inv() && current.Some?
      ensures Pos() < |merged| && e == merged[Pos()]
    {
      e := lists[current.value][pos[current.value]];
    }

    method SeekToFirst()
      requires Inv()
      modifies this
      ensures Inv() && Pos() == 0
    {
      pos := seq(|lists|, i => 0);
      FirstCut(lists, merged);
      FindSmallest(0);
      direction := Forward;
    }

    method SeekToLast()
      requires Inv()
      modifies this
      ensures Inv() && Pos() == LastPos(|merged|)
    {
      pos := seq(|lists|, i requires 0 <= i < |lists| => LastPos(|lists[i]|));
      LastCut(lists, merged, pos);
      FindLargest(|merged|);
      direction := Reverse;
    }

    method Seek(target: IKey)
      requires Inv()
      modifies this
      ensures Inv() && Pos() == SeekPos(merged, target)
    {
      pos := seq(|lists|, i requires 0 <= i < |lists| => SeekPos(lists[i], target));
      SeekCut(lists, merged, target, pos);
      FindSmallest(SeekPos(merged, target));
      direction := Forward;
    }

    method Next()
      requires Inv() && current.Some?
      modifies this
      ensures Inv() && Pos() == old(Pos()) + 1
    {
      var c := current.value;
      var key := lists[c][pos[c]].key;
      ghost var m := at;
      if direction.Reverse? {
        for i := 0 to |lists|
          invariant |pos| == |lists| && pos[c] == old(pos)[c] && current == Some(c) && at == m
          invariant forall j :: 0 <= j < i ==> CutChild(lists[j], merged, m, pos[j])
        {
          if i != c {
            var p := SeekPos(lists[i], key);
            SeekChild(lists, merged, i, m);
            var skip := if p < |lists[i]| && lists[i][p].key == key then 1 else 0;
            if skip == 1 {
              SharedKey(lists, merged, i, c, p, pos[c]);
            }
            pos := pos[i := p + skip];
          } else {
            CurrentChild(lists, merged, c, pos[c], m);
          }
        }
        direction := Forward;
      }
      AdvanceCut(lists, merged, m, pos, c);
      pos := pos[c := pos[c] + 1];
      FindSmallest(m + 1);
    }

    method Prev()
      requires Inv() && current.Some?
      modifies this
      ensures Inv() && Pos() == PrevPos(|merged|, old(Pos()))
    {
      var c := current.value;
      var key := lists[c][pos[c]].key;
      ghost var m := at;
      if direction.Forward? {
        for i := 0 to |lists|
          invariant |pos| == |lists| && pos[c] == old(pos)[c] && current == Some(c) && at == m
          invariant forall j :: 0 <= j < i && j != c ==> BackChild(lists[j], merged, m, pos[j])
        {
          if i != c {
            var p := SeekPos(lists[i], key);
            SeekChild(lists, merged, i, m);
            if p < |lists[i]| {
              p := PrevPos(|lists[i]|, p);
            } else {
              p := LastPos(|lists[i]|);
            }
            pos := pos[i := p];
          }
        }
        direction := Reverse;
      }
      CurrentChild(lists, merged, c, pos[c], m);
      pos := pos[c := PrevPos(|lists[c]|, pos[c])];
      FindLargest(m);
    }

    /** The child with the smallest key, which is the next entry of the merge. */
    method FindSmallest(ghost m: nat)
      requires IsMerge(lists, merged) && CutAt(lists, merged, m, pos)
      modifies `current, `at
      ensures current.None? <==> m == |merged|
      ensures current.Some? ==> at == m && current.value < |lists| && pos[current.value] < |lists[current.value]|
      ensures current.Some? ==> lists[current.value][pos[current.value]] == merged[m]
    {
      var smallest: Option<nat> := None;
      for i := 0 to |lists|
        invariant smallest.Some? ==> smallest.value < i && pos[smallest.value] < |lists[smallest.value]|
        invariant forall j :: 0 <= j < i && pos[j] < |lists[j]| ==>
                    smallest.Some? && LessEq(lists[smallest.value][pos[smallest.value]].key, lists[j][pos[j]].key)
      {
        if pos[i] < |lists[i]| {
          if smallest.None? {
            smallest := Some(i);
          } else if Less(lists[i][pos[i]].key, lists[smallest.value][pos[smallest.value]].key) {
            smallest := Some(i);
          }
        }
      }
      SmallestIsNext(lists, merged, m, pos, smallest);
      current := smallest;
      at := m;
    }

    /** The child with the largest key, scanned from the back as the source does. */
    method FindLargest(ghost m: nat)
      requires IsMerge(lists, merged) && CutBefore(lists, merged, m, pos)
      modifies `current, `at
      ensures current.None? <==> m == 0
      ensures current.Some? ==> m > 0 && at == m - 1 && current.value < |lists| && pos[current.value] < |lists[current.value]|
      ensures current.Some? ==> lists[current.value][pos[current.value]] == merged[m - 1]
      ensures current.Some? ==> OthersBefore(lists, merged, m - 1, pos, current.value)
    {
      var largest: Option<nat> := None;
      var i := |lists|;
      while i > 0
        invariant 0 <= i <= |lists|
        invariant largest.Some? ==> i <= largest.value < |lists| && pos[largest.value] < |lists[largest.value]|
        invariant forall j :: i <= j < |lists| && pos[j] < |lists[j]| ==>
                    largest.Some? && LessEq(lists[j][pos[j]].key, lists[largest.value][pos[largest.value]].key)
      {
        i := i - 1;
        if pos[i] < |lists[i]| {
          if largest.None? {
            largest := Some(i);
          } else if Less(lists[largest.value][pos[largest.value]].key, lists[i][pos[i]].key) {
            largest := Some(i);
          }
        }
      }
      LargestIsLast(lists, merged, m, pos, largest);
      current := largest;
      at := if m > 0 then m - 1 else 0;
    }
  }

  /** Going backward, every child but the current one stands before `merged[m]`. */
  ghost predicate OthersBefore(lists: seq<seq<Entry>>, merged: seq<Entry>, m: nat, pos: seq<nat>, c: nat) {
    && |pos| == |lists| && m <= |merged|
    && forall i :: 0 <= i < |lists| && i != c ==> BackChild(lists[i], merged, m, pos[i])
  }

  // ---------------------------------------------------------------------------------------------
  // Cuts

  lemma InMerged(lists: seq<seq<Entry>>, merged: seq<Entry>, i: nat, j: nat) returns (t: nat)
    requires IsMerge(lists, merged) && i < |lists| && j < |lists[i]|
    ensures t < |merged| && merged[t] == lists[i][j]
  {
    assert Holds(lists, lists[i][j]);
    t :| 0 <= t < |merged| && merged[t] == lists[i][j];
  }

  lemma FirstCut(lists: seq<seq<Entry>>, merged: seq<Entry>)
    requires IsMerge(lists, merged)
    ensures CutAt(lists, merged, 0, seq(|lists|, i => 0))
  {
    forall i | 0 <= i < |lists| ensures CutChild(lists[i], merged, 0, 0) {
      var list := lists[i];
      forall j | 0 <= j < |list| ensures From(merged, 0, list[j].key) {
        var t := InMerged(lists, merged, i, j);
        SortedOrder(merged, 0, t);
      }
    }
  }

  lemma LastCut(lists: seq<seq<Entry>>, merged: seq<Entry>, pos: seq<nat>)
    requires IsMerge(lists, merged) && |pos| == |lists| && forall i :: 0 <= i < |lists| ==> pos[i] == LastPos(|lists[i]|)
    ensures CutBefore(lists, merged, |merged|, pos)
  {
    forall i | 0 <= i < |lists| ensures BackChild(lists[i], merged, |merged|, pos[i]) {
      assert CutChild(lists[i], merged, |merged|, |lists[i]|);
    }
  }

  lemma SeekCut(lists: seq<seq<Entry>>, merged: seq<Entry>, target: IKey, pos: seq<nat>)
    requires IsMerge(lists, merged) && |pos| == |lists|
    requires forall i :: 0 <= i < |lists| ==> pos[i] == SeekPos(lists[i], target)
    ensures CutAt(lists, merged, SeekPos(merged, target), pos)
  {
    var m := SeekPos(merged, target);
    forall i | 0 <= i < |lists| ensures CutChild(lists[i], merged, m, pos[i]) {
      SeekSplits(lists[i], target);
      var list := lists[i];
      forall j | pos[i] <= j < |list| ensures From(merged, m, list[j].key) {
        var t := InMerged(lists, merged, i, j);
        assert m <= t;
        SortedOrder(merged, m, t);
      }
    }
  }

  /** Seeking a child to the current key cuts it there. */
  lemma SeekChild(lists: seq<seq<Entry>>, merged: seq<Entry>, i: nat, m: nat)
    requires IsMerge(lists, merged) && i < |lists| && m < |merged|
    ensures CutChild(lists[i], merged, m, SeekPos(lists[i], merged[m].key))
  {
    SeekSplits(lists[i], merged[m].key);
  }

  lemma SharedKey(lists: seq<seq<Entry>>, merged: seq<Entry>, i: nat, c: nat, a: nat, b: nat)
    requires IsMerge(lists, merged) && i < |lists| && c < |lists| && a < |lists[i]| && b < |lists[c]|
    requires lists[i][a].key == lists[c][b].key
    ensures i == c
  {}

  lemma CurrentChild(lists: seq<seq<Entry>>, merged: seq<Entry>, c: nat, p: nat, m: nat)
    requires IsMerge(lists, merged) && c < |lists| && m < |merged| && p < |lists[c]| && lists[c][p] == merged[m]
    ensures CutChild(lists[c], merged, m, p)
  {
    forall j | 0 <= j < |lists[c]| ensures j < p ==> Less(lists[c][j].key, merged[m].key)
      ensures j >= p ==> LessEq(merged[m].key, lists[c][j].key)
    {
      assert j < p ==> Less(lists[c][j].key, lists[c][p].key);
      assert j > p ==> Less(lists[c][p].key, lists[c][j].key);
    }
  }

  lemma AdvanceCut(lists: seq<seq<Entry>>, merged: seq<Entry>, m: nat, pos: seq<nat>, c: nat)
    requires IsMerge(lists, merged) && CutAt(lists, merged, m, pos)
    requires m < |merged| && c < |lists| && pos[c] < |lists[c]| && lists[c][pos[c]] == merged[m]
    ensures CutAt(lists, merged, m + 1, pos[c := pos[c] + 1])
  {
    var pos' := pos[c := pos[c] + 1];
    forall i | 0 <= i < |lists| ensures CutChild(lists[i], merged, m + 1, pos'[i]) {
      assert CutChild(lists[i], merged, m, pos[i]);
      AdvanceChild(lists, merged, m, i, c, pos[i], pos[c], pos'[i]);
    }
  }

  lemma AdvanceChild(lists: seq<seq<Entry>>, merged: seq<Entry>, m: nat, i: nat, c: nat, p: nat, pc: nat, p': nat)
    requires IsMerge(lists, merged) && i < |lists| && c < |lists| && m < |merged| && CutChild(lists[i], merged, m, p)
    requires pc < |lists[c]| && lists[c][pc] == merged[m] && (i == c ==> p == pc && p' == p + 1) && (i != c ==> p' == p)
    ensures CutChild(lists[i], merged, m + 1, p')
  {
    var list, m' := lists[i], m + 1;
    forall j | 0 <= j < |list|
      ensures j < p' && m' < |merged| ==> Less(list[j].key, merged[m'].key)
      ensures j >= p' ==> From(merged, m', list[j].key)
    {
      AdvanceEntry(lists, merged, m, i, c, p, pc, j);
    }
  }

  lemma AdvanceEntry(lists: seq<seq<Entry>>, merged: seq<Entry>, m: nat, i: nat, c: nat, p: nat, pc: nat, j: nat)
    requires IsMerge(lists, merged) && i < |lists| && c < |lists| && m < |merged| && CutChild(lists[i], merged, m, p)
    requires pc < |lists[c]| && lists[c][pc] == merged[m] && (i == c ==> p == pc) && j < |lists[i]|
    ensures j < p || (i == c && j == p) ==> m + 1 < |merged| ==> Less(lists[i][j].key, merged[m + 1].key)
    ensures !(j < p || (i == c && j == p)) ==> From(merged, m + 1, lists[i][j].key)
  {
    var t := Place(lists, merged, i, j, m, p);
    SortedOrder(merged, t, m);
    SortedOrder(merged, m, t);
    if t == m {
      SameKeySameEntry(lists, merged, i, c, j, pc);
    }
    if m + 1 < |merged| {
      SortedOrder(merged, t, m + 1);
      SortedOrder(merged, m + 1, t);
    }
  }

  /** Where an entry of a child falls in the merge tells on which side of the cut it is. */
  lemma Place(lists: seq<seq<Entry>>, merged: seq<Entry>, i: nat, j: nat, m: nat, p: nat) returns (t: nat)
    requires IsMerge(lists, merged) && i < |lists| && j < |lists[i]| && m <= |merged| && CutChild(lists[i], merged, m, p)
    ensures t < |merged| && merged[t] == lists[i][j] && (j < p <==> t < m)
  {
    t := InMerged(lists, merged, i, j);
    if m < |merged| {
      SortedOrder(merged, t, m);
      SortedOrder(merged, m, t);
    }
  }

  lemma OwnerOf(lists: seq<seq<Entry>>, merged: seq<Entry>, m: nat) returns (i: nat, j: nat)
    requires IsMerge(lists, merged) && m < |merged|
    ensures i < |lists| && j < |lists[i]| && lists[i][j] == merged[m]
  {
    assert merged[m] in merged;
    assert Holds(lists, merged[m]);
    i, j :| 0 <= i < |lists| && 0 <= j < |lists[i]| && lists[i][j] == merged[m];
  }

  lemma SmallestIsNext(lists: seq<seq<Entry>>, merged: seq<Entry>, m: nat, pos: seq<nat>, smallest: Option<nat>)
    requires IsMerge(lists, merged) && CutAt(lists, merged, m, pos)
    requires smallest.Some? ==> smallest.value < |lists| && pos[smallest.value] < |lists[smallest.value]|
    requires forall j :: 0 <= j < |lists| && pos[j] < |lists[j]| ==>
               smallest.Some? && LessEq(lists[smallest.value][pos[smallest.value]].key, lists[j][pos[j]].key)
    ensures smallest.None? <==> m == |merged|
    ensures smallest.Some? ==> lists[smallest.value][pos[smallest.value]] == merged[m]
  {
    if smallest.Some? {
      assert CutChild(lists[smallest.value], merged, m, pos[smallest.value]);
    }
    if m < |merged| {
      var c, j := OwnerOf(lists, merged, m);
      assert CutChild(lists[c], merged, m, pos[c]);
      assert pos[c] <= j;
      SortedOrder(lists[c], pos[c], j);
      SameKeySameEntry(lists, merged, smallest.value, c, pos[smallest.value], j);
    }
  }

  /** The sources share no internal key, so an internal key names one entry. */
  lemma SameKeySameEntry(lists: seq<seq<Entry>>, merged: seq<Entry>, i: nat, c: nat, a: nat, b: nat)
    requires IsMerge(lists, merged) && i < |lists| && c < |lists| && a < |lists[i]| && b < |lists[c]|
    requires !Less(lists[i][a].key, lists[c][b].key) && !Less(lists[c][b].key, lists[i][a].key)
    ensures i == c && a == b
  {
    SortedOrder(lists[i], a, b);
    SortedOrder(lists[i], b, a);
  }

  lemma DistinctKeys(lists: seq<seq<Entry>>, merged: seq<Entry>, i: nat, l: nat, a: nat, b: nat)
    requires IsMerge(lists, merged) && i < |lists| && l < |lists| && a < |lists[i]| && b < |lists[l]| && i != l
    ensures lists[i][a].key != lists[l][b].key
  {
  }

  lemma LargestIsLast(lists: seq<seq<Entry>>, merged: seq<Entry>, m: nat, pos: seq<nat>, largest: Option<nat>)
    requires IsMerge(lists, merged) && CutBefore(lists, merged, m, pos)
    requires largest.Some? ==> largest.value < |lists| && pos[largest.value] < |lists[largest.value]|
    requires forall j :: 0 <= j < |lists| && pos[j] < |lists[j]| ==>
               largest.Some? && LessEq(lists[j][pos[j]].key, lists[largest.value][pos[largest.value]].key)
    ensures largest.None? <==> m == 0
    ensures largest.Some? ==> m > 0 && lists[largest.value][pos[largest.value]] == merged[m - 1]
    ensures largest.Some? ==> OthersBefore(lists, merged, m - 1, pos, largest.value)
  {
    if largest.Some? {
      var t := BeforeCut(lists, merged, m, pos, largest.value);
      SortedOrder(merged, m - 1, t);
    }
    if m > 0 {
      var c, j := OwnerOf(lists, merged, m - 1);
      LastBefore(lists, merged, m, pos, c, j);
      forall i | 0 <= i < |lists| && i != largest.value ensures BackChild(lists[i], merged, m - 1, pos[i]) {
        StepBack(lists, merged, m, pos, i, largest.value);
      }
    }
  }

  /** A valid child of a backward cut stands before the cut. */
  lemma BeforeCut(lists: seq<seq<Entry>>, merged: seq<Entry>, m: nat, pos: seq<nat>, i: nat) returns (t: nat)
    requires IsMerge(lists, merged) && CutBefore(lists, merged, m, pos) && i < |lists| && pos[i] < |lists[i]|
    ensures t < m && merged[t] == lists[i][pos[i]]
  {
    assert BackChild(lists[i], merged, m, pos[i]);
    var q: nat :| CutChild(lists[i], merged, m, q) && pos[i] == PrevPos(|lists[i]|, q);
    t := Place(lists, merged, i, pos[i], m, q);
  }

  /** The child that owns the entry just before the cut stands on it. */
  lemma LastBefore(lists: seq<seq<Entry>>, merged: seq<Entry>, m: nat, pos: seq<nat>, c: nat, j: nat)
    requires IsMerge(lists, merged) && CutBefore(lists, merged, m, pos) && 0 < m && c < |lists|
    requires j < |lists[c]| && lists[c][j] == merged[m - 1]
    ensures pos[c] == j
  {
    assert BackChild(lists[c], merged, m, pos[c]);
    var q: nat :| CutChild(lists[c], merged, m, q) && pos[c] == PrevPos(|lists[c]|, q);
    var t0 := Place(lists, merged, c, j, m, q);
    SortedOrder(merged, t0, m - 1);
    SortedOrder(merged, m - 1, t0);
    var t := Place(lists, merged, c, q - 1, m, q);
    SortedOrder(merged, m - 1, t);
    SortedOrder(lists[c], j, q - 1);
  }

  lemma StepBack(lists: seq<seq<Entry>>, merged: seq<Entry>, m: nat, pos: seq<nat>, i: nat, l: nat)
    requires IsMerge(lists, merged) && CutBefore(lists, merged, m, pos) && 0 < m && i < |lists| && l < |lists| && i != l
    requires pos[l] < |lists[l]| && lists[l][pos[l]] == merged[m - 1]
    ensures BackChild(lists[i], merged, m - 1, pos[i])
  {
    assert BackChild(lists[i], merged, m, pos[i]);
    var q: nat :| CutChild(lists[i], merged, m, q) && pos[i] == PrevPos(|lists[i]|, q);
    forall j | 0 <= j < |lists[i]|
      ensures j < q ==> Less(lists[i][j].key, merged[m - 1].key)
      ensures j >= q ==> LessEq(merged[m - 1].key, lists[i][j].key)
    {
      var t := Place(lists, merged, i, j, m, q);
      SortedOrder(merged, t, m - 1);
      SortedOrder(merged, m - 1, t);
      DistinctKeys(lists, merged, i, l, j, pos[l]);
    }
    assert CutChild(lists[i], merged, m - 1, q);
  }
}
