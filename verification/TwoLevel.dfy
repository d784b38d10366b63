/** An iterator over an index whose values name blocks of entries: the cursor of one table,
    and of one sorted level. */
module TwoLevel {
  import opened Format
  import opened Cursors

  function Block(index: seq<Entry>, read: map<Value, seq<Entry>>, i: nat): seq<Entry> {
    if i < |index| && index[i].value in read then read[index[i].value] else []
  }

  /** The entries of the first `n` blocks, in order. */
  function Joined(index: seq<Entry>, read: map<Value, seq<Entry>>, n: nat): seq<Entry> {
    if n == 0 then [] else Joined(index, read, n - 1) + Block(index, read, n - 1)
  }

  /** Every index key is at or past its own block and before every later one. */
  ghost predicate IndexOk(index: seq<Entry>, read: map<Value, seq<Entry>>) {
    && Sorted(index)
    && (forall i :: 0 <= i < |index| ==> index[i].value in read && Sorted(Block(index, read, i)))
    && (forall i, j, k :: 0 <= i <= j < |index| && 0 <= k < |Block(index, read, j)| ==>
          Divides(index[i].key, Block(index, read, j)[k].key, i == j))
  }

  predicate Divides(separator: IKey, key: IKey, own: bool) {
    if own then LessEq(key, separator) else Less(separator, key)
  }

  datatype Loaded = Loaded(items: seq<Entry>, pos: nat)

  class TwoLevelIterator {
    const index: seq<Entry>
    const read: map<Value, seq<Entry>>
    var at: nat
    var data: Option<Loaded>
    var handle: Value

    ghost function All(): seq<Entry> {
      Joined(index, read, |index|)
    }

    predicate Valid()
      reads this
    {
      data.Some? && data.value.pos < |data.value.items|
    }

    /** A loaded block is the one its remembered handle names. */
    ghost predicate Caches()
      reads this
    {
      && at <= |index|
      && (data.Some? ==> at < |index| && handle in read && data.value.items == read[handle] && data.value.pos <= |data.value.items|)
    }

    ghost predicate Inv()
      reads this
    {
      && IndexOk(index, read) && Caches()
      && (data.Some? ==> Valid() && handle == index[at].value)
    }

    /** The position in the joined list. */
    ghost function Pos(): nat
      reads this
    {
      if Valid() then |Joined(index, read, at)| + data.value.pos else |All()|
    }

    constructor (index: seq<Entry>, read: map<Value, seq<Entry>>)
      requires IndexOk(index, read)
      ensures Inv() && this.index == index && this.read == read && !Valid()
    {
      this.index, this.read := index, read;
      at, data, handle := |index|, None, [];
    }

    method Current() returns (e: Entry)
      requires Inv() && Valid()
      ensures Pos() < |All()| && e == All()[Pos()]
    {
      JoinedAt(index, read, at, data.value.pos, |index|);
      e := data.value.items[data.value.pos];
    }

    method Seek(target: IKey)
      requires Inv()
      modifies this
      ensures Inv() && Pos() == SeekPos(All(), target)
    {
      at := SeekPos(index, target);
      InitDataBlock();
      if data.Some? {
        data := Some(data.value.(pos := SeekPos(data.value.items, target)));
      }
      SeekInBlock(index, read, target);
      SkipEmptyDataBlocksForward(SeekPos(All(), target));
    }

    method SeekToFirst()
      requires Inv()
      modifies this
      ensures Inv() && Pos() == 0
    {
      at := 0;
      InitDataBlock();
      if data.Some? {
        data := Some(data.value.(pos := 0));
      }
      SkipEmptyDataBlocksForward(0);
    }

    method SeekToLast()
      requires Inv()
      modifies this
      ensures Inv() && Pos() == LastPos(|All()|)
    {
      at := LastPos(|index|);
      InitDataBlock();
      if data.Some? {
        data := Some(data.value.(pos := LastPos(|data.value.items|)));
      }
      SkipEmptyDataBlocksBackward(LastPos(|All()|));
    }

    method Next()
      requires Inv() && Valid()
      modifies this
      ensures Inv() && Pos() == old(Pos()) + 1
    {
      ghost var goal := Pos() + 1;
      data := Some(data.value.(pos := data.value.pos + 1));
      SkipEmptyDataBlocksForward(goal);
    }

    method Prev()
      requires Inv() && Valid()
      modifies this
      ensures Inv() && Pos() == PrevPos(|All()|, old(Pos()))
    {
      ghost var goal := PrevPos(|All()|, Pos());
      data := Some(data.value.(pos := PrevPos(|data.value.items|, data.value.pos)));
      SkipEmptyDataBlocksBackward(goal);
    }

    /** Load the block the index names, unless it is the one already loaded. */
    method InitDataBlock()
      requires IndexOk(index, read) && at <= |index|
      requires data.Some? ==> handle in read && data.value.items == read[handle] && data.value.pos <= |data.value.items|
      modifies `data, `handle
      ensures Caches()
      ensures at < |index| ==> data.Some? && handle == index[at].value
    {
      if at >= |index| {
        data := None;
      } else {
        var named := index[at].value;
        if data.None? || named != handle {
          data := Some(Loaded(read[named], 0));
          handle := named;
        }
      }
    }

    /** Step over exhausted blocks; `goal` is the position in the joined list. */
    method SkipEmptyDataBlocksForward(ghost goal: nat)
      requires IndexOk(index, read) && Caches()
      requires at < |index| ==> data.Some? && handle == index[at].value && goal == |Joined(index, read, at)| + data.value.pos
      requires at == |index| ==> goal == |All()|
      modifies this
      ensures Inv() && Pos() == goal
    {
      hide IndexOk;
      while !Valid()
        invariant Caches()
        invariant at < |index| ==> data.Some? && handle == index[at].value && goal == |Joined(index, read, at)| + data.value.pos
        invariant at == |index| ==> goal == |All()|
        decreases |index| - at, data.Some?
      {
        if at >= |index| {
          data := None;
          return;
        }
        at := at + 1;
        InitDataBlock();
        if data.Some? {
          data := Some(data.value.(pos := 0));
        }
      }
    }

    method SkipEmptyDataBlocksBackward(ghost goal: nat)
      requires IndexOk(index, read) && Caches()
      requires Retreats(goal)
      modifies this
      ensures Inv() && Pos() == goal
    {
      while !Valid()
        invariant Caches() && Retreats(goal)
        decreases if at < |index| then at + 1 else 0
      {
        if at >= |index| {
          data := None;
          return;
        }
        at := PrevPos(|index|, at);
        InitDataBlock();
        if data.Some? {
          data := Some(data.value.(pos := LastPos(|data.value.items|)));
        }
      }
    }

    /** Going backward: at the goal, or with nothing of the current block left before it. */
    ghost predicate Retreats(goal: nat)
      reads this
      requires Caches()
    {
      if at < |index| then
        && data.Some? && handle == index[at].value
        && goal == if Valid() then |Joined(index, read, at)| + data.value.pos
                   else PrevPos(|All()|, |Joined(index, read, at)|)
      else goal == |All()|
    }
  }

  // ---------------------------------------------------------------------------------------------
  // The joined list

  lemma {:induction false} JoinedAt(index: seq<Entry>, read: map<Value, seq<Entry>>, i: nat, k: nat, n: nat)
    requires i < n && k < |Block(index, read, i)|
    ensures |Joined(index, read, i)| + k < |Joined(index, read, n)|
    ensures Joined(index, read, n)[|Joined(index, read, i)| + k] == Block(index, read, i)[k]
  {
    if i < n - 1 {
      JoinedAt(index, read, i, k, n - 1);
    }
  }

  /** Every entry of the joined list has its place in one block. */
  lemma {:induction false} Located(index: seq<Entry>, read: map<Value, seq<Entry>>, n: nat, p: nat) returns (i: nat, k: nat)
    requires p < |Joined(index, read, n)|
    ensures i < n && k < |Block(index, read, i)| && p == |Joined(index, read, i)| + k
    ensures Joined(index, read, n)[p] == Block(index, read, i)[k]
  {
    if p < |Joined(index, read, n - 1)| {
      i, k := Located(index, read, n - 1, p);
    } else {
      i, k := n - 1, p - |Joined(index, read, n - 1)|;
    }
  }

  lemma {:induction false} JoinedGrows(index: seq<Entry>, read: map<Value, seq<Entry>>, i: nat, n: nat)
    requires i <= n
    ensures |Joined(index, read, i)| <= |Joined(index, read, n)|
  {
    if i < n {
      JoinedGrows(index, read, i, n - 1);
    }
  }

  /** The index seek finds the one block where the target's position can be. */
  lemma SeekInBlock(index: seq<Entry>, read: map<Value, seq<Entry>>, target: IKey)
    requires IndexOk(index, read)
    ensures var at, all := SeekPos(index, target), Joined(index, read, |index|);
            SeekPos(all, target) == if at < |index| then |Joined(index, read, at)| + SeekPos(Block(index, read, at), target) else |all|
  {
    hide IndexOk, Block, SeekPos;
    var at, all := SeekPos(index, target), Joined(index, read, |index|);
    var p := if at < |index| then |Joined(index, read, at)| + SeekPos(Block(index, read, at), target) else |all|;
    JoinedGrows(index, read, at, |index|);
    if at < |index| {
      JoinedGrows(index, read, at + 1, |index|);
    }
    forall q | 0 <= q < |all| ensures q < p <==> Less(all[q].key, target) {
      BesideTarget(index, read, target, q);
    }
    SeekIs(all, target, p);
  }

  lemma SeekIs(items: seq<Entry>, target: IKey, p: nat)
    requires p <= |items| && forall q :: 0 <= q < |items| ==> (q < p <==> Less(items[q].key, target))
    ensures SeekPos(items, target) == p
  {
    var s := SeekPos(items, target);
    assert s < |items| ==> (s < p <==> Less(items[s].key, target));
    assert p < |items| ==> !Less(items[p].key, target);
  }

  lemma BesideTarget(index: seq<Entry>, read: map<Value, seq<Entry>>, target: IKey, q: nat)
    requires IndexOk(index, read) && q < |Joined(index, read, |index|)|
    ensures var at, all := SeekPos(index, target), Joined(index, read, |index|);
            Less(all[q].key, target) <==> at == |index| || q < |Joined(index, read, at)| + SeekPos(Block(index, read, at), target)
  {
    hide IndexOk, Block, SeekPos;
    var at := SeekPos(index, target);
    var i, k := Located(index, read, |index|, q);
    if i < at {
      OwnSeparator(index, read, i, k);
      JoinedGrows(index, read, i + 1, at);
    } else if i == at {
      OwnSeparator(index, read, i, k);
      SeekSplits(Block(index, read, at), target);
    } else {
      JoinedGrows(index, read, at + 1, i);
      EarlierSeparator(index, read, at, i, k);
    }
  }

  lemma OwnSeparator(index: seq<Entry>, read: map<Value, seq<Entry>>, i: nat, k: nat)
    requires IndexOk(index, read) && i < |index| && k < |Block(index, read, i)|
    ensures LessEq(Block(index, read, i)[k].key, index[i].key) && Sorted(Block(index, read, i))
  {
    assert Divides(index[i].key, Block(index, read, i)[k].key, i == i);
  }

  lemma EarlierSeparator(index: seq<Entry>, read: map<Value, seq<Entry>>, i: nat, j: nat, k: nat)
    requires IndexOk(index, read) && i < j < |index| && k < |Block(index, read, j)|
    ensures Less(index[i].key, Block(index, read, j)[k].key)
  {
    assert Divides(index[i].key, Block(index, read, j)[k].key, i == j);
  }

  /** The joined list is sorted, so the iterator is a cursor like any other. */
  lemma JoinedSorted(index: seq<Entry>, read: map<Value, seq<Entry>>)
    requires IndexOk(index, read)
    ensures Sorted(Joined(index, read, |index|))
  {
    var all := Joined(index, read, |index|);
    forall p, q | 0 <= p < q < |all| ensures Less(all[p].key, all[q].key) {
      InOrder(index, read, p, q);
    }
  }

  lemma InOrder(index: seq<Entry>, read: map<Value, seq<Entry>>, p: nat, q: nat)
    requires IndexOk(index, read) && p < q < |Joined(index, read, |index|)|
    ensures Less(Joined(index, read, |index|)[p].key, Joined(index, read, |index|)[q].key)
  {
    hide IndexOk, Block;
    var i, k := Located(index, read, |index|, p);
    var j, l := Located(index, read, |index|, q);
    OwnSeparator(index, read, i, k);
    if i < j {
      EarlierSeparator(index, read, i, j, l);
    } else {
      JoinedGrows(index, read, j, i);
      NotBefore(index, read, i, k, j, l);
    }
  }

  lemma NotBefore(index: seq<Entry>, read: map<Value, seq<Entry>>, i: nat, k: nat, j: nat, l: nat)
    requires j <= i && k < |Block(index, read, i)| && l < |Block(index, read, j)|
    requires |Joined(index, read, i)| + k < |Joined(index, read, j)| + l
    ensures i == j
  {
    if j < i {
      JoinedGrows(index, read, j + 1, i);
    }
  }
}
