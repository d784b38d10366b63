/** The iterator over one block. Its methods are total on any bytes in which no entry's sizes wrap when they
    are added; on a block that was built from an ascending list of pairs they are the moves of a cursor
    over that list. */
module BlockIter {
  import opened Format
  import opened Coding
  import opened Cursors
  import opened BlockFormat

  /** `p` is the first pair whose key is not before the target. */
  ghost predicate IsSeek(less: (Bytes, Bytes) -> bool, pairs: seq<Pair>, target: Bytes, p: nat) {
    && p <= |pairs|
    && (forall i :: 0 <= i < p ==> less(pairs[i].key, target))
    && (forall i :: p <= i < |pairs| ==> !less(pairs[i].key, target))
  }

  /** The bytes are a block made of `l`. */
  ghost predicate LaidOut(data: Bytes, restarts: nat, numRestarts: nat, less: (Bytes, Bytes) -> bool, l: Layout) {
    && Orders(less) && Ascending(less, l.pairs) && IsBlock(data, l)
    && |l.offs| == |l.pairs| + 1 == |l.shares| + 1
    && restarts == l.offs[|l.pairs|] && numRestarts == |l.points|
  }

  class Iter {
    const data: Bytes
    const restarts: nat
    const numRestarts: nat
    const less: (Bytes, Bytes) -> bool
    ghost const layout: Layout
    var current: nat
    var restartIndex: nat
    var key: Bytes
    var valueStart: nat
    var valueEnd: nat
    var corrupt: bool
    ghost var at: nat

    ghost predicate Laid() {
      LaidOut(data, restarts, numRestarts, less, layout)
    }

    ghost predicate Bounded() {
      && numRestarts > 0 && restarts < WORD && restarts + 4 * numRestarts <= |data|
      && (Laid() || NoWrap(data, restarts))
    }

    ghost predicate Inv()
      reads this
    {
      && Bounded()
      && (Valid() ==> restartIndex < numRestarts)
      && (Laid() && Valid() ==> Placed())
    }

    predicate Valid()
      reads this
    {
      current < restarts
    }

    /** The restart index is one that a scan from there reaches entry `i`. */
    ghost predicate Near(i: nat)
      reads this
      requires Laid()
    {
      && restartIndex < numRestarts && layout.points[restartIndex] <= i
      && (restartIndex + 1 < numRestarts ==> i <= layout.points[restartIndex + 1])
    }

    ghost predicate Placed()
      reads this
      requires Laid()
    {
      && at < |layout.pairs| && current == layout.offs[at] && valueEnd == layout.offs[at + 1]
      && key == layout.pairs[at].key
      && valueStart <= valueEnd <= |data| && data[valueStart..valueEnd] == layout.pairs[at].value
      && Near(at)
    }

    /** The next parse is of entry `i`. */
    ghost predicate Ready(i: nat)
      reads this
      requires Laid()
    {
      && i <= |layout.pairs| && valueEnd == layout.offs[i]
      && restartIndex < numRestarts && layout.points[restartIndex] <= i
      && (i < |layout.pairs| ==> layout.shares[i] <= |key| && layout.shares[i] <= |layout.pairs[i].key|)
      && (i < |layout.pairs| ==> key[..layout.shares[i]] == layout.pairs[i].key[..layout.shares[i]])
    }

    ghost function Pos(): nat
      reads this
    {
      if Valid() then at else |layout.pairs|
    }

    constructor (data: Bytes, restarts: nat, numRestarts: nat, less: (Bytes, Bytes) -> bool, ghost layout: Layout)
      requires numRestarts > 0 && restarts < WORD && restarts + 4 * numRestarts <= |data|
      requires LaidOut(data, restarts, numRestarts, less, layout) || NoWrap(data, restarts)
      ensures Inv() && !Valid() && !corrupt
      ensures this.data == data && this.restarts == restarts && this.numRestarts == numRestarts
      ensures this.less == less && this.layout == layout
    {
      this.data, this.restarts, this.numRestarts, this.less, this.layout := data, restarts, numRestarts, less, layout;
      current, restartIndex, key, valueStart, valueEnd, corrupt, at := restarts, numRestarts, [], 0, 0, false, 0;
    }

    /** `key()` and `value()`. */
    method Current() returns (pair: Pair)
      requires Inv() && Valid()
      ensures Laid() ==> Pos() < |layout.pairs| && pair == layout.pairs[Pos()]
    {
      var value := if valueStart <= valueEnd <= |data| then data[valueStart..valueEnd] else [];
      pair := Pair(key, value);
    }

    function GetRestartPoint(index: nat): nat
      requires Bounded() && index < numRestarts
    {
      DecodeFixed32(data[restarts + 4 * index..restarts + 4 * index + 4])
    }

    method SeekToRestartPoint(index: nat)
      requires Bounded() && index < numRestarts
      modifies this
      ensures restartIndex == index && corrupt == old(corrupt) && at == old(at)
      ensures Laid() ==> Ready(layout.points[index])
    {
      hide IsBlock;
      key := [];
      restartIndex := index;
      valueStart := GetRestartPoint(index);
      valueEnd := valueStart;
      if Laid() {
        PointFacts(data, layout, index);
      }
    }

    method CorruptionError()
      modifies this
      ensures current == restarts && corrupt && restartIndex == numRestarts
    {
      current, restartIndex, corrupt, key, valueStart, valueEnd := restarts, numRestarts, true, [], 0, 0;
    }

    /** Decode the entry after the current value; `i` is its number in a well-formed block. */
    method ParseNextKey(ghost i: nat) returns (ok: bool)
      requires Bounded() && restartIndex < numRestarts
      requires Laid() ==> Ready(i)
      modifies this
      ensures ok ==> Valid() && restartIndex < numRestarts && valueEnd > old(valueEnd) && valueEnd <= restarts
      ensures !ok ==> current == restarts && restartIndex == numRestarts
      ensures Laid() ==> corrupt == old(corrupt) && ok == (i < |layout.pairs|) && (ok ==> at == i && Placed())
    {
      hide IsBlock, DecodeEntry, Orders, Ascending;
      at := i;
      current := valueEnd;
      if Laid() {
        OffsetOrder(data, layout, i);
      }
      if current >= restarts {
        current, restartIndex := restarts, numRestarts;
        return false;
      }
      var d := DecodeEntry(data, current, restarts);
      if Laid() {
        EntryFacts(data, layout, i);
      }
      if d.None? || |key| < d.value.shared {
        CorruptionError();
        return false;
      }
      AcceptedFitsExact(data, current, restarts);
      key := key[..d.value.shared] + data[d.value.start..d.value.start + d.value.nonShared];
      valueStart := d.value.start + d.value.nonShared;
      valueEnd := valueStart + d.value.valueLength;
      AdvanceRestartIndex(i);
      ok := true;
    }

    method Next()
      requires Inv() && Valid()
      modifies this
      ensures Inv()
      ensures Laid() ==> Pos() == old(Pos()) + 1 && corrupt == old(corrupt)
    {
      hide IsBlock, Orders, Ascending;
      if Laid() {
        ReadyAfter(data, layout, at);
      }
      var _ := ParseNextKey(at + 1);
    }

    /** Back up to a restart point before the current entry and scan forward to the one just before it. */
    method Prev()
      requires Inv() && Valid()
      modifies this
      ensures Inv()
      ensures Laid() ==> Pos() == PrevPos(|layout.pairs|, old(Pos())) && corrupt == old(corrupt)
    {
      hide IsBlock, Orders, Ascending;
      var original := current;
      ghost var goal := at;
      var found := BackUp();
      if !found {
        current, restartIndex := restarts, numRestarts;
        return;
      }
      SeekToRestartPoint(restartIndex);
      ghost var i := if Laid() then layout.points[restartIndex] else 0;
      var ok := ParseNextKey(i);
      ScanTo(original, ok, goal);
    }

    /** Move the restart index to a point before the current entry, if there is one. */
    method BackUp() returns (found: bool)
      requires Inv() && Valid()
      modifies `restartIndex
      ensures restartIndex < numRestarts
      ensures Laid() ==> found == (at > 0) && (found ==> layout.points[restartIndex] < at)
    {
      hide IsBlock, Orders, Ascending;
      while GetRestartPoint(restartIndex) >= current
        invariant restartIndex < numRestarts
        decreases restartIndex
      {
        if restartIndex == 0 {
          if Laid() {
            PointOrder(data, layout, 0, at);
            FirstPoint(data, layout);
          }
          return false;
        }
        restartIndex := restartIndex - 1;
      }
      if Laid() {
        PointOrder(data, layout, restartIndex, at);
      }
      found := true;
    }

    /** Parse on until the next entry would start at `original` or later. */
    method ScanTo(original: nat, parsed: bool, ghost goal: nat)
      requires Bounded() && (parsed ==> Inv() && Valid()) && (!parsed ==> Inv() && !Valid())
      requires Laid() ==> goal <= |layout.pairs| && original == layout.offs[goal] && (|layout.pairs| > 0 ==> parsed && at < goal)
      modifies this
      ensures Inv()
      ensures Laid() ==> corrupt == old(corrupt) && Pos() == if |layout.pairs| > 0 then goal - 1 else 0
    {
      hide IsBlock, Orders, Ascending;
      var ok := parsed;
      while ok && valueEnd < original
        invariant Inv() && (ok <==> Valid())
        invariant Laid() ==> corrupt == old(corrupt) && (|layout.pairs| > 0 ==> ok && at < goal)
        decreases ok, restarts - valueEnd
      {
        if Laid() {
          ReadyAfter(data, layout, at);
          BeforeOffset(data, layout, at + 1, goal);
        }
        ok := ParseNextKey(at + 1);
      }
      if Laid() && |layout.pairs| > 0 {
        BeforeOffset(data, layout, at + 1, goal);
      }
    }

    method SeekToFirst()
      requires Inv()
      modifies this
      ensures Inv()
      ensures Laid() ==> Pos() == 0 && corrupt == old(corrupt)
    {
      hide IsBlock, Orders, Ascending;
      SeekToRestartPoint(0);
      if Laid() {
        FirstPoint(data, layout);
      }
      var _ := ParseNextKey(0);
    }

    method SeekToLast()
      requires Inv()
      modifies this
      ensures Inv()
      ensures Laid() ==> Pos() == LastPos(|layout.pairs|) && corrupt == old(corrupt)
    {
      hide IsBlock, Orders, Ascending;
      SeekToRestartPoint(numRestarts - 1);
      if Laid() {
        PointFacts(data, layout, numRestarts - 1);
        LastPoint(data, layout);
      }
      ghost var i := if Laid() then layout.points[numRestarts - 1] else 0;
      var ok := ParseNextKey(i);
      ScanTo(restarts, ok, |layout.pairs|);
    }

    /** A bracket of restart points for the target: the seek position is past `left` and not past the next of `right`. */
    ghost predicate Brackets(target: Bytes, left: nat, right: nat)
      requires Laid()
    {
      && left <= right < numRestarts
      && (left > 0 ==> Before(target, layout.points[left]))
      && (right + 1 < numRestarts ==> !Before(target, layout.points[right + 1]))
    }

    ghost predicate Before(target: Bytes, i: nat) {
      i < |layout.pairs| && less(layout.pairs[i].key, target)
    }

    /** Binary search among the restart points, narrowed by the current entry when there is one, then a
        scan that goes on from the current entry when that is in the same stretch. */
    method Seek(target: Bytes)
      requires Inv()
      modifies this
      ensures Inv()
      ensures Laid() ==> IsSeek(less, layout.pairs, target, Pos()) && corrupt == old(corrupt)
    {
      hide IsBlock, Orders, Ascending;
      var left, right := 0, numRestarts - 1;
      var behind := false;
      if Valid() {
        behind := less(key, target);
        var past := less(target, key);
        if Laid() {
          NarrowedBy(target);
        }
        if behind {
          left := restartIndex;
        } else if past {
          right := restartIndex;
        } else {
          return;
        }
      }
      var ok;
      left, ok := FindRestart(target, left, right);
      if !ok {
        CorruptionError();
        return;
      }
      var skip := behind && left == restartIndex;
      ghost var i := if skip then at + 1 else if Laid() then layout.points[left] else 0;
      if Laid() {
        StartOfScan(target, left, skip);
      }
      if !skip {
        SeekToRestartPoint(left);
      }
      ScanFor(target, i);
    }

    /** The last restart point before the target, within the bracket. */
    method FindRestart(target: Bytes, low: nat, high: nat) returns (left: nat, ok: bool)
      requires Bounded() && low <= high < numRestarts
      requires Laid() ==> Brackets(target, low, high)
      ensures ok ==> left < numRestarts
      ensures Laid() ==> ok && Brackets(target, left, left)
    {
      hide IsBlock, Orders, Ascending, DecodeEntry;
      left := low;
      var right := high;
      while left < right
        invariant low <= left <= right <= high
        invariant Laid() ==> Brackets(target, left, right)
      {
        var mid := (left + right + 1) / 2;
        var d := DecodeEntry(data, GetRestartPoint(mid), restarts);
        if Laid() {
          KeyAtPoint(data, layout, mid);
        }
        if d.None? || d.value.shared != 0 {
          return left, false;
        }
        AcceptedFitsExact(data, GetRestartPoint(mid), restarts);
        var midKey := data[d.value.start..d.value.start + d.value.nonShared];
        if less(midKey, target) {
          left := mid;
        } else {
          right := mid - 1;
        }
      }
      ok := true;
    }

    /** Parse on until a key that is not before the target. */
    method ScanFor(target: Bytes, ghost first: nat)
      requires Bounded() && restartIndex < numRestarts
      requires Laid() ==> Ready(first) && forall j :: 0 <= j < first ==> less(layout.pairs[j].key, target)
      modifies this
      ensures Inv()
      ensures Laid() ==> IsSeek(less, layout.pairs, target, Pos()) && corrupt == old(corrupt)
    {
      hide IsBlock, Orders, Ascending;
      ghost var i := first;
      while true
        invariant restartIndex < numRestarts
        invariant Laid() ==> Ready(i) && corrupt == old(corrupt)
        invariant Laid() ==> forall j :: 0 <= j < i ==> less(layout.pairs[j].key, target)
        decreases restarts - valueEnd
      {
        var ok := ParseNextKey(i);
        if !ok {
          return;
        }
        if !less(key, target) {
          if Laid() {
            RestNotBefore(less, layout.pairs, target, i);
          }
          return;
        }
        if Laid() {
          ReadyAfter(data, layout, i);
        }
        i := i + 1;
      }
    }

    /** What the current key says about the target. */
    lemma NarrowedBy(target: Bytes)
      requires Inv() && Valid() && Laid()
      ensures less(key, target) ==> Brackets(target, restartIndex, numRestarts - 1)
      ensures less(target, key) ==> Brackets(target, 0, restartIndex)
      ensures !less(key, target) && !less(target, key) ==> IsSeek(less, layout.pairs, target, at)
    {
      hide IsBlock;
      forall j | 0 <= j < |layout.pairs|
        ensures j <= at && less(key, target) ==> less(layout.pairs[j].key, target)
        ensures j >= at && !less(key, target) ==> !less(layout.pairs[j].key, target)
        ensures j < at && !less(target, key) ==> less(layout.pairs[j].key, target)
      {
        Compared(less, layout.pairs, target, j, at);
      }
    }

    /** Everything before the scan starts is before the target. */
    lemma StartOfScan(target: Bytes, left: nat, skip: bool)
      requires Inv() && Laid() && Brackets(target, left, left)
      requires skip ==> Valid() && less(key, target)
      ensures !skip ==> forall j :: 0 <= j < layout.points[left] ==> j < |layout.pairs| && less(layout.pairs[j].key, target)
      ensures skip ==> Ready(at + 1) && forall j :: 0 <= j < at + 1 ==> less(layout.pairs[j].key, target)
    {
      hide IsBlock;
      FirstPoint(data, layout);
      if skip {
        ReadyAfter(data, layout, at);
      }
      var last := if skip then at else layout.points[left];
      forall j | 0 <= j < |layout.pairs| && j <= last && Before(target, last) ensures less(layout.pairs[j].key, target) {
        Compared(less, layout.pairs, target, j, last);
      }
      PointFacts(data, layout, left);
    }

    method AdvanceRestartIndex(ghost i: nat)
      requires Bounded() && restartIndex < numRestarts
      requires Laid() ==> i < |layout.pairs| && current == layout.offs[i] && layout.points[restartIndex] <= i
      modifies `restartIndex
      ensures restartIndex < numRestarts
      ensures Laid() ==> Near(i)
    {
      hide IsBlock, Orders, Ascending;
      while restartIndex + 1 < numRestarts && GetRestartPoint(restartIndex + 1) < current
        invariant restartIndex < numRestarts
        invariant Laid() ==> layout.points[restartIndex] <= i
      {
        if Laid() {
          PointOrder(data, layout, restartIndex + 1, i);
        }
        restartIndex := restartIndex + 1;
      }
      if Laid() && restartIndex + 1 < numRestarts {
        PointOrder(data, layout, restartIndex + 1, i);
      }
    }
  }

  /** What opening a block finds: where its entries end and how many restart points follow. */
  function Open(contents: Bytes): (r: Option<(nat, nat)>)
    ensures r.Some? ==> r.value.0 + 4 * r.value.1 + 4 == |contents|
  {
    if |contents| < 4 then None
    else
      var count := DecodeFixed32(contents[|contents| - 4..]);
      if count > (|contents| - 4) / 4 then None else Some((|contents| - (1 + count) * 4, count))
  }

  lemma OpenFinds(block: Bytes, l: Layout)
    requires IsBlock(block, l)
    ensures Open(block) == Some((l.offs[|l.pairs|], |l.points|))
  {
    hide EntriesOk, Fixed, DecodeFixed32;
    var n, stored := l.offs[|l.pairs|], RestartArray(PointOffsets(l));
    assert |block[n..]| == |stored| + 4 && |stored| == 4 * |l.points|;
    assert block[|block| - 4..] == block[n..][|stored|..];
    assert (stored + Fixed(|l.points|, 4))[|stored|..] == Fixed(|l.points|, 4);
    Fixed32RoundTrip(|l.points|);
  }

  /** A size within which a block of these pairs stays, whatever the restart interval. */
  ghost function Generous(pairs: seq<Pair>): nat {
    if pairs == [] then 8 else Generous(pairs[..|pairs| - 1]) + |pairs[|pairs| - 1].key| + |pairs[|pairs| - 1].value| + 19
  }

  lemma {:induction false} GenerousAt(pairs: seq<Pair>, i: nat)
    requires i < |pairs|
    ensures |pairs[i].value| < Generous(pairs)
    ensures Generous(pairs[..i + 1]) == Generous(pairs[..i]) + |pairs[i].key| + |pairs[i].value| + 19
  {
    assert pairs[..i + 1][..i] == pairs[..i];
    var n := |pairs| - 1;
    if i < n {
      GenerousAt(pairs[..n], i);
    } else {
      assert pairs[..i + 1] == pairs;
    }
  }

  /** Build a block of an ascending list; it may be too big for 32-bit offsets. */
  method Build(pairs: seq<Pair>, interval: nat, less: (Bytes, Bytes) -> bool) returns (fits: bool, block: Bytes, ghost l: Layout)
    requires interval >= 1 && Orders(less) && Ascending(less, pairs)
    requires forall i :: 0 <= i < |pairs| ==> |pairs[i].key| < WORD
    ensures fits ==> IsBlock(block, l) && l.pairs == pairs && Spaced(l.points, interval) && Packed(l)
    ensures Generous(pairs) < WORD ==> fits
  {
    hide IsBlock, Orders, Ascending, EntriesOk, PointsOk, Spaced, Packed;
    var builder := new BlockBuilder(interval, less);
    for i := 0 to |pairs|
      invariant builder.Valid() && builder.less == less && builder.interval == interval && fresh(builder)
      invariant builder.layout.pairs == pairs[..i]
      invariant Generous(pairs) < WORD ==> |builder.buffer| + 4 * |builder.restarts| + 4 <= Generous(pairs[..i])
    {
      NextAscends(less, pairs, i);
      GenerousAt(pairs, i);
      builder.Add(pairs[i].key, pairs[i].value);
    }
    l := builder.layout;
    fits, block := |builder.buffer| + 4 * |builder.restarts| + 4 < WORD, [];
    if fits {
      block := builder.Finish();
    }
    assert pairs[..|pairs|] == pairs;
  }

  /** Any ascending list, built with any restart interval, reads back as itself in both directions. */
  method BuildAndRead(pairs: seq<Pair>, interval: nat, less: (Bytes, Bytes) -> bool)
    returns (fits: bool, forward: seq<Pair>, backward: seq<Pair>)
    requires interval >= 1 && Orders(less) && Ascending(less, pairs)
    requires forall i :: 0 <= i < |pairs| ==> |pairs[i].key| < WORD
    ensures fits ==> forward == pairs && |backward| == |pairs|
    ensures fits ==> forall i :: 0 <= i < |pairs| ==> backward[i] == pairs[|pairs| - 1 - i]
    ensures Generous(pairs) < WORD ==> fits
  {
    hide IsBlock, Orders, Ascending, Open;
    ghost var l;
    var block;
    fits, block, l := Build(pairs, interval, less);
    forward, backward := [], [];
    if fits {
      OpenFinds(block, l);
      BlockShape(block, l);
      var open := Open(block).value;
      var iter := new Iter(block, open.0, open.1, less, l);
      forward := ReadForward(iter);
      backward := ReadBackward(iter);
    }
  }

  method ReadForward(iter: Iter) returns (pairs: seq<Pair>)
    requires iter.Inv() && iter.Laid()
    modifies iter
    ensures iter.Inv() && pairs == iter.layout.pairs
  {
    hide IsBlock, Orders, Ascending;
    pairs := [];
    iter.SeekToFirst();
    while iter.Valid()
      invariant iter.Inv() && iter.Laid()
      invariant iter.Pos() <= |iter.layout.pairs| && pairs == iter.layout.pairs[..iter.Pos()]
      decreases |iter.layout.pairs| - iter.Pos()
    {
      var pair := iter.Current();
      pairs := pairs + [pair];
      iter.Next();
    }
  }

  method ReadBackward(iter: Iter) returns (pairs: seq<Pair>)
    requires iter.Inv() && iter.Laid()
    modifies iter
    ensures iter.Inv() && |pairs| == |iter.layout.pairs|
    ensures forall i :: 0 <= i < |pairs| ==> pairs[i] == iter.layout.pairs[|pairs| - 1 - i]
  {
    hide IsBlock, Orders, Ascending;
    pairs := [];
    iter.SeekToLast();
    ghost var n := |iter.layout.pairs|;
    while iter.Valid()
      invariant iter.Inv() && iter.Laid()
      invariant |pairs| + (if iter.Pos() < n then iter.Pos() + 1 else 0) == n && (iter.Valid() <==> iter.Pos() < n)
      invariant forall i :: 0 <= i < |pairs| ==> pairs[i] == iter.layout.pairs[n - 1 - i]
      decreases n - |pairs|
    {
      var pair := iter.Current();
      pairs := pairs + [pair];
      iter.Prev();
    }
  }

  lemma NextAscends(less: (Bytes, Bytes) -> bool, pairs: seq<Pair>, i: nat)
    requires Ascending(less, pairs) && i < |pairs|
    ensures i > 0 ==> less(pairs[..i][i - 1].key, pairs[i].key)
    ensures pairs[..i + 1] == pairs[..i] + [Pair(pairs[i].key, pairs[i].value)]
  {
  }

  lemma BlockShape(block: Bytes, l: Layout)
    requires IsBlock(block, l)
    ensures |l.offs| == |l.pairs| + 1 == |l.shares| + 1 && |l.points| > 0 && l.offs[|l.pairs|] < WORD
  {
  }

  // ---------------------------------------------------------------------------------------------
  // Facts about a laid-out block

  /** What is stored for a restart point is the offset of its entry, and that entry shares nothing. */
  lemma PointFacts(block: Bytes, l: Layout, r: nat)
    requires IsBlock(block, l) && r < |l.points|
    ensures var n := l.offs[|l.pairs|];
            && n + 4 * |l.points| <= |block|
            && DecodeFixed32(block[n + 4 * r..n + 4 * r + 4]) == l.offs[l.points[r]]
    ensures l.points[r] <= |l.pairs| && |l.shares| == |l.pairs| && (l.points[r] < |l.pairs| ==> l.shares[l.points[r]] == 0)
  {
    hide EntriesOk, Fixed, DecodeFixed32;
    var n, offsets := l.offs[|l.pairs|], PointOffsets(l);
    assert offsets[r] == l.offs[l.points[r]];
    StoredAt(block, n, offsets, Fixed(|l.points|, 4), r);
    OffsetOrder(block, l, l.points[r]);
    Fixed32RoundTrip(offsets[r]);
  }

  lemma StoredAt(block: Bytes, n: nat, offsets: seq<nat>, count: Bytes, r: nat)
    requires n <= |block| && block[n..] == RestartArray(offsets) + count && r < |offsets|
    ensures n + 4 * |offsets| <= |block| && block[n + 4 * r..n + 4 * r + 4] == Fixed(offsets[r], 4)
  {
    hide Fixed, RestartArray;
    var stored, i := RestartArray(offsets), 4 * r;
    assert |block[n..]| == |stored| + |count|;
    RestartArrayAt(offsets, r);
    assert stored[i..i + 4] == Fixed(offsets[r], 4);
    StoredPart(block, n, stored, count, i, i + 4);
  }

  lemma StoredPart(block: Bytes, n: nat, stored: Bytes, count: Bytes, i: nat, j: nat)
    requires n <= |block| && block[n..] == stored + count && i <= j <= |stored|
    ensures block[n + i..n + j] == stored[i..j]
  {
    forall k | 0 <= k < j - i ensures block[n + i..n + j][k] == stored[i..j][k] {
      assert block[n..][i + k] == (stored + count)[i + k];
    }
  }

  lemma {:induction false} RestartArrayAt(offsets: seq<nat>, r: nat)
    requires r < |offsets|
    ensures RestartArray(offsets)[4 * r..4 * r + 4] == Fixed(offsets[r], 4)
  {
    var last := |offsets| - 1;
    var before := RestartArray(offsets[..last]);
    if r == last {
      assert (before + Fixed(offsets[last], 4))[4 * r..4 * r + 4] == Fixed(offsets[last], 4);
    } else {
      RestartArrayAt(offsets[..last], r);
      assert (before + Fixed(offsets[last], 4))[4 * r..4 * r + 4] == before[4 * r..4 * r + 4];
    }
  }

  /** Offsets ascend. */
  lemma OffsetOrder(block: Bytes, l: Layout, i: nat)
    requires IsBlock(block, l) && i <= |l.pairs|
    ensures l.offs[i] <= l.offs[|l.pairs|] <= |block|
    ensures i < |l.pairs| ==> l.offs[i] < l.offs[|l.pairs|]
  {
    OffsetsAscend(block[..l.offs[|l.pairs|]], l, i, |l.pairs|);
  }

  lemma {:induction false} OffsetsAscend(data: Bytes, l: Layout, i: nat, j: nat)
    requires EntriesOk(data, l) && i <= j <= |l.pairs|
    ensures l.offs[i] <= l.offs[j] && (i < j ==> l.offs[i] < l.offs[j])
  {
    hide EntryBytes;
    if i < j {
      OffsetsAscend(data, l, i, j - 1);
      assert EntryAt(data, l, j - 1);
    }
  }

  /** A stored restart offset is before an entry exactly when its entry is. */
  lemma PointOrder(block: Bytes, l: Layout, r: nat, i: nat)
    requires IsBlock(block, l) && r < |l.points| && i <= |l.pairs|
    ensures var n := l.offs[|l.pairs|];
            && n + 4 * |l.points| <= |block|
            && (DecodeFixed32(block[n + 4 * r..n + 4 * r + 4]) < l.offs[i] <==> l.points[r] < i)
  {
    PointFacts(block, l, r);
    var data := block[..l.offs[|l.pairs|]];
    if l.points[r] <= i {
      OffsetsAscend(data, l, l.points[r], i);
    } else {
      OffsetsAscend(data, l, i, l.points[r]);
    }
  }

  /** Decoding entry `i` where it starts. */
  lemma EntryFacts(block: Bytes, l: Layout, i: nat)
    requires IsBlock(block, l) && i < |l.pairs|
    ensures |l.shares| == |l.pairs| && l.shares[i] <= |l.pairs[i].key| && l.offs[|l.pairs|] <= |block|
    ensures var d := DecodeEntry(block, l.offs[i], l.offs[|l.pairs|]);
            && d.Some? && d.value.shared == l.shares[i]
            && var middle := d.value.start + d.value.nonShared;
               && middle + d.value.valueLength == l.offs[i + 1] <= l.offs[|l.pairs|]
               && l.pairs[i].key == l.pairs[i].key[..l.shares[i]] + block[d.value.start..middle]
               && block[middle..l.offs[i + 1]] == l.pairs[i].value
  {
    hide EntryBytes, DecodeEntry;
    var n := l.offs[|l.pairs|];
    assert EntryAt(block[..n], l, i);
    OffsetsAscend(block[..n], l, i + 1, |l.pairs|);
    assert block[..n][l.offs[i]..l.offs[i + 1]] == block[l.offs[i]..l.offs[i + 1]];
    EntryRoundTrip(block, l.offs[i], n, l.pairs[i], l.shares[i]);
  }

  /** What the current entry leaves behind is what the next one needs. */
  lemma ReadyAfter(block: Bytes, l: Layout, i: nat)
    requires IsBlock(block, l) && i < |l.pairs|
    ensures |l.shares| == |l.pairs|
    ensures i + 1 < |l.pairs| ==> l.shares[i + 1] <= |l.pairs[i].key| && l.shares[i + 1] <= |l.pairs[i + 1].key|
    ensures i + 1 < |l.pairs| ==> l.pairs[i].key[..l.shares[i + 1]] == l.pairs[i + 1].key[..l.shares[i + 1]]
  {
    hide EntryBytes;
    if i + 1 < |l.pairs| {
      assert EntryAt(block[..l.offs[|l.pairs|]], l, i + 1);
      assert l.pairs[i + 1 - 1] == l.pairs[i];
    }
  }

  lemma LastPoint(block: Bytes, l: Layout)
    requires IsBlock(block, l)
    ensures |l.pairs| > 0 ==> l.points[|l.points| - 1] < |l.pairs|
  {
  }

  lemma FirstPoint(block: Bytes, l: Layout)
    requires IsBlock(block, l)
    ensures l.points[0] == 0
  {
  }

  lemma BeforeOffset(block: Bytes, l: Layout, i: nat, j: nat)
    requires IsBlock(block, l) && i <= |l.pairs| && j <= |l.pairs|
    ensures l.offs[i] < l.offs[j] <==> i < j
  {
    var data := block[..l.offs[|l.pairs|]];
    if i <= j {
      OffsetsAscend(data, l, i, j);
    } else {
      OffsetsAscend(data, l, j, i);
    }
  }

  /** The key of a restart point can be read without the keys before it. */
  lemma KeyAtPoint(block: Bytes, l: Layout, r: nat)
    requires IsBlock(block, l) && 0 < r < |l.points|
    ensures var n := l.offs[|l.pairs|];
            && n + 4 * |l.points| <= |block| && l.points[r] < |l.pairs|
            && var d := DecodeEntry(block, DecodeFixed32(block[n + 4 * r..n + 4 * r + 4]), n);
               && d.Some? && d.value.shared == 0 && d.value.nonShared + d.value.valueLength < WORD
               && d.value.start + d.value.nonShared <= |block|
               && block[d.value.start..d.value.start + d.value.nonShared] == l.pairs[l.points[r]].key
  {
    hide DecodeEntry, EntriesOk, DecodeFixed32;
    PointFacts(block, l, r);
    EntryFacts(block, l, l.points[r]);
  }

  /** Keys ascend, so one comparison with the target settles others. */
  lemma Compared(less: (Bytes, Bytes) -> bool, pairs: seq<Pair>, target: Bytes, j: nat, i: nat)
    requires Orders(less) && Ascending(less, pairs) && j < |pairs| && i < |pairs|
    ensures j <= i && less(pairs[i].key, target) ==> less(pairs[j].key, target)
    ensures j >= i && !less(pairs[i].key, target) ==> !less(pairs[j].key, target)
    ensures j < i && !less(target, pairs[i].key) ==> less(pairs[j].key, target)
  {
    assert j < i ==> less(pairs[j].key, pairs[i].key);
    assert i < j ==> less(pairs[i].key, pairs[j].key);
  }

  lemma RestNotBefore(less: (Bytes, Bytes) -> bool, pairs: seq<Pair>, target: Bytes, i: nat)
    requires Orders(less) && Ascending(less, pairs) && i < |pairs| && !less(pairs[i].key, target)
    ensures forall j :: i <= j < |pairs| ==> !less(pairs[j].key, target)
  {
    forall j | i <= j < |pairs| ensures !less(pairs[j].key, target) {
      Compared(less, pairs, target, j, i);
    }
  }
}
