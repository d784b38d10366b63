/** Blocks of prefix-compressed entries with restart points: the encoding and its builder. */
module BlockFormat {
  import opened Format
  import opened Coding

  datatype Pair = Pair(key: Bytes, value: Bytes)

  /** A comparator: a strict weak order on keys. */
  ghost predicate Orders(less: (Bytes, Bytes) -> bool) {
    && (forall a, b :: less(a, b) ==> !less(b, a))
    && (forall a, b, c :: less(a, b) && less(b, c) ==> less(a, c))
    && (forall a, b, c :: less(a, c) ==> less(a, b) || less(b, c))
  }

  ghost predicate Ascending(less: (Bytes, Bytes) -> bool, pairs: seq<Pair>) {
    forall i, j :: 0 <= i < j < |pairs| ==> less(pairs[i].key, pairs[j].key)
  }

  // ---------------------------------------------------------------------------------------------
  // One entry

  function EntryBytes(pair: Pair, shared: nat): (b: Bytes)
    requires shared <= |pair.key|
    ensures |b| >= 3
  {
    Varint(shared) + Varint(|pair.key| - shared) + Varint(|pair.value|) + pair.key[shared..] + pair.value
  }

  lemma EntrySize(pair: Pair, shared: nat)
    requires shared <= |pair.key| < WORD
    ensures |pair.value| < WORD ==> |EntryBytes(pair, shared)| <= |pair.key| + |pair.value| + 15
  {
    hide Varint;
    WordSize(shared);
    WordSize(|pair.key| - shared);
    if |pair.value| < WORD {
      WordSize(|pair.value|);
    }
  }

  lemma WordSize(v: Word)
    ensures |Varint(v)| <= 5
  {
    assert Power(128, 5) > WORD by {
      assert Power(128, 2) == 16384;
      assert Power(128, 4) == 268435456;
    }
    VarintLength(v, 5);
  }

  datatype Decoded = Decoded(shared: nat, nonShared: nat, valueLength: nat, start: nat)

  function Varint32At(data: Bytes, p: nat, limit: nat): (r: Option<(nat, nat)>)
    requires p <= limit <= |data|
    ensures r.Some? ==> p < r.value.1 <= limit && r.value.0 < WORD
  {
    var v := ReadVarint(data[p..limit], 5);
    if v.None? then None else Some((Cut(v.value.0, false), p + v.value.1))
  }

  /** Three varints, whatever their sizes. */
  function DecodeSlowly(data: Bytes, p: nat, limit: nat): (r: Option<Decoded>)
    requires p <= limit <= |data|
    ensures r.Some? ==> p + 3 <= r.value.start <= limit && r.value.nonShared < WORD && r.value.valueLength < WORD
  {
    var shared := Varint32At(data, p, limit);
    if shared.None? then None else
    var nonShared := Varint32At(data, shared.value.1, limit);
    if nonShared.None? then None else
    var valueLength := Varint32At(data, nonShared.value.1, limit);
    if valueLength.None? then None else
    Some(Decoded(shared.value.0, nonShared.value.0, valueLength.value.0, valueLength.value.1))
  }

  /** The entry at `p`, with a short cut when all three sizes take one byte. The two sizes that say how much
      follows are added in 32 bits. */
  function DecodeEntry(data: Bytes, p: nat, limit: nat): (r: Option<Decoded>)
    requires limit <= |data|
    ensures r.Some? ==> p + 3 <= r.value.start <= limit && r.value.nonShared < WORD && r.value.valueLength < WORD
  {
    if limit < p + 3 then None
    else
      var fast := data[p] < 128 && data[p + 1] < 128 && data[p + 2] < 128;
      var d := if fast then Some(Decoded(data[p], data[p + 1], data[p + 2], p + 3)) else DecodeSlowly(data, p, limit);
      if d.Some? && (limit - d.value.start) % WORD < (d.value.nonShared + d.value.valueLength) % WORD then None else d
  }

  /** On any bytes, an entry that is accepted lies before the limit if and only if the sum of its sizes does
      not wrap. */
  lemma AcceptedFitsExact(data: Bytes, p: nat, limit: nat)
    requires limit <= |data| && limit < WORD && DecodeEntry(data, p, limit).Some?
    ensures var d := DecodeEntry(data, p, limit).value;
            d.start + d.nonShared + d.valueLength <= limit <==> d.nonShared + d.valueLength < WORD
  {
    hide DecodeSlowly;
  }

  /** Wherever an entry is read in these bytes, the sum of its sizes does not wrap. */
  ghost predicate NoWrap(data: Bytes, limit: nat)
    requires limit <= |data|
  {
    forall p {:trigger DecodeEntry(data, p, limit)} ::
      var d := DecodeEntry(data, p, limit);
      p >= 0 && d.Some? ==> d.value.nonShared + d.value.valueLength < WORD
  }

  /** Seven bytes that claim a key of the greatest length and a value of one byte. */
  const WRAPPING: Bytes := [0, 255, 255, 255, 255, 15, 1]

  /** They are accepted, although nothing at all is left of the block. */
  lemma WrapIsAccepted()
    ensures DecodeEntry(WRAPPING, 0, 7) == Some(Decoded(0, WORD - 1, 1, 7))
  {
    hide Varint, ReadVarint;
    var data := WRAPPING;
    assert Varint(WORD - 1) == [255, 255, 255, 255, 15] by { Unrolled(WORD - 1); }
    assert data[1..6] == [255, 255, 255, 255, 15];
    OneByte(data, 0, 7);
    VarintAt(data, 1, 7, WORD - 1, 6);
    OneByte(data, 6, 7);
  }

  /** The short cut reads what the three varints say. */
  lemma FastPathAgrees(data: Bytes, p: nat, limit: nat)
    requires p + 3 <= limit <= |data| && data[p] < 128 && data[p + 1] < 128 && data[p + 2] < 128
    ensures DecodeSlowly(data, p, limit) == Some(Decoded(data[p], data[p + 1], data[p + 2], p + 3))
  {
    OneByte(data, p, limit);
    OneByte(data, p + 1, limit);
    OneByte(data, p + 2, limit);
  }

  lemma OneByte(data: Bytes, p: nat, limit: nat)
    requires p < limit <= |data| && data[p] < 128
    ensures Varint32At(data, p, limit) == Some((data[p] as int, p + 1))
  {
    assert data[p..limit][0] == data[p];
  }

  /** Decoding an entry wherever it lies in a block. */
  lemma EntryRoundTrip(data: Bytes, p: nat, limit: nat, pair: Pair, shared: nat)
    requires shared <= |pair.key| < WORD && limit <= |data| && p + |EntryBytes(pair, shared)| <= limit < WORD
    requires data[p..p + |EntryBytes(pair, shared)|] == EntryBytes(pair, shared)
    ensures var d := DecodeEntry(data, p, limit);
            var end := p + |EntryBytes(pair, shared)|;
            && d.Some? && d.value.shared == shared && d.value.nonShared == |pair.key| - shared
            && d.value.valueLength == |pair.value| && d.value.start + d.value.nonShared + |pair.value| == end
            && data[d.value.start..d.value.start + d.value.nonShared] == pair.key[shared..]
            && data[d.value.start + d.value.nonShared..end] == pair.value
  {
    hide Varint, EntryBytes, ReadVarint, DecodeEntry;
    var q, r, s := EntryParts(data, p, pair, shared);
    VarintAt(data, p, limit, shared, q);
    VarintAt(data, q, limit, |pair.key| - shared, r);
    VarintAt(data, r, limit, |pair.value|, s);
    SlowIsEnough(data, p, limit);
  }

  lemma SlowIsEnough(data: Bytes, p: nat, limit: nat)
    requires p <= limit <= |data| && limit < WORD
    ensures var d := DecodeSlowly(data, p, limit);
            d.Some? && d.value.nonShared + d.value.valueLength <= limit - d.value.start ==> DecodeEntry(data, p, limit) == d
  {
    hide DecodeSlowly;
    if p + 3 <= limit && data[p] < 128 && data[p + 1] < 128 && data[p + 2] < 128 {
      FastPathAgrees(data, p, limit);
    }
  }

  /** Where the parts of an encoded entry lie. */
  lemma EntryParts(data: Bytes, p: nat, pair: Pair, shared: nat) returns (q: nat, r: nat, s: nat)
    requires shared <= |pair.key| && p + |EntryBytes(pair, shared)| <= |data|
    requires data[p..p + |EntryBytes(pair, shared)|] == EntryBytes(pair, shared)
    ensures p < q < r < s <= |data| && s + |pair.key| - shared + |pair.value| == p + |EntryBytes(pair, shared)|
    ensures data[p..q] == Varint(shared) && data[q..r] == Varint(|pair.key| - shared) && data[r..s] == Varint(|pair.value|)
    ensures data[s..s + |pair.key| - shared] == pair.key[shared..]
    ensures data[s + |pair.key| - shared..p + |EntryBytes(pair, shared)|] == pair.value
  {
    hide Varint;
    var a, b, c := Varint(shared), Varint(|pair.key| - shared), Varint(|pair.value|);
    FiveParts(data, p, a, b, c, pair.key[shared..], pair.value);
    q, r, s := p + |a|, p + |a| + |b|, p + |a| + |b| + |c|;
  }

  lemma FiveParts(data: Bytes, p: nat, a: Bytes, b: Bytes, c: Bytes, d: Bytes, e: Bytes)
    requires var s := a + b + c + d + e; p + |s| <= |data| && data[p..p + |s|] == s
    ensures var q := p + |a|;
            var r := q + |b|;
            var t := r + |c|;
            var u := t + |d|;
            data[p..q] == a && data[q..r] == b && data[r..t] == c && data[t..u] == d && data[u..u + |e|] == e
  {
    Peel(data, p, a + b + c + d, e);
    Peel(data, p, a + b + c, d);
    Peel(data, p, a + b, c);
    Peel(data, p, a, b);
  }

  lemma Peel(data: Bytes, p: nat, x: Bytes, y: Bytes)
    requires p + |x + y| <= |data| && data[p..p + |x + y|] == x + y
    ensures data[p..p + |x|] == x && data[p + |x|..p + |x| + |y|] == y
  {
    Within(data, p, x + y, 0, |x|);
    Within(data, p, x + y, |x|, |x + y|);
  }

  lemma Within(data: Bytes, p: nat, e: Bytes, i: nat, j: nat)
    requires p + |e| <= |data| && data[p..p + |e|] == e && i <= j <= |e|
    ensures data[p + i..p + j] == e[i..j]
  {
    forall k | 0 <= k < j - i ensures data[p + i..p + j][k] == e[i..j][k] {
      assert data[p..p + |e|][i + k] == e[i + k];
    }
  }

  lemma VarintAt(data: Bytes, p: nat, limit: nat, v: Word, q: nat)
    requires p <= q <= limit <= |data| && data[p..q] == Varint(v)
    ensures Varint32At(data, p, limit) == Some((v, q))
  {
    hide Varint, ReadVarint;
    assert data[p..limit] == Varint(v) + data[q..limit];
    Varint32RoundTrip(v, data[q..limit]);
  }

  // ---------------------------------------------------------------------------------------------
  // Whole blocks

  /** Where the entries of a block start (and the last one ends), how much of its key each shares with
      the one before, and which entries are restart points. */
  datatype Layout = Layout(pairs: seq<Pair>, shares: seq<nat>, offs: seq<nat>, points: seq<nat>)

  ghost predicate Shares(l: Layout, i: nat)
    requires i < |l.pairs| && i < |l.shares|
  {
    && l.shares[i] <= |l.pairs[i].key| < WORD
    && (l.shares[i] > 0 ==> i > 0 && l.shares[i] <= |l.pairs[i - 1].key|
                            && l.pairs[i].key[..l.shares[i]] == l.pairs[i - 1].key[..l.shares[i]])
  }

  ghost predicate EntryAt(data: Bytes, l: Layout, i: nat)
    requires i < |l.pairs| && i < |l.shares| && i + 1 < |l.offs|
  {
    && Shares(l, i)
    && l.offs[i + 1] == l.offs[i] + |EntryBytes(l.pairs[i], l.shares[i])| <= |data|
    && data[l.offs[i]..l.offs[i + 1]] == EntryBytes(l.pairs[i], l.shares[i])
  }

  /** The entries follow one another in `data`. */
  ghost predicate EntriesOk(data: Bytes, l: Layout) {
    && |l.shares| == |l.pairs| && |l.offs| == |l.pairs| + 1 && l.offs[0] == 0
    && forall i :: 0 <= i < |l.pairs| ==> EntryAt(data, l, i)
  }

  /** Restart points ascend from the first entry, and their entries stand alone. */
  ghost predicate PointsOk(l: Layout) {
    && |l.shares| == |l.pairs| && |l.points| > 0 && l.points[0] == 0
    && (forall r, s :: 0 <= r < s < |l.points| ==> l.points[r] < l.points[s])
    && (forall r :: 0 <= r < |l.points| && l.pairs != [] ==> l.points[r] < |l.pairs| && l.shares[l.points[r]] == 0)
    && (l.pairs == [] ==> |l.points| == 1)
  }

  /** A restart point every `interval` entries. */
  ghost predicate Spaced(points: seq<nat>, interval: nat) {
    forall r, s :: 0 <= r && s == r + 1 < |points| ==> points[s] == points[r] + interval
  }

  /** Between restart points every key leaves out all that it shares with the one before. */
  ghost predicate Packed(l: Layout) {
    |l.shares| == |l.pairs| && forall i :: 0 < i < |l.pairs| && i !in l.points ==> LeavesOut(l, i)
  }

  ghost predicate LeavesOut(l: Layout, i: nat)
    requires 0 < i < |l.pairs| && i < |l.shares|
  {
    var n, key, before := l.shares[i], l.pairs[i].key, l.pairs[i - 1].key;
    n == |key| || n == |before| || (n < |key| && n < |before| && key[n] != before[n])
  }

  lemma PackedGrows(l: Layout, m: Layout)
    requires Packed(l) && |m.pairs| == |l.pairs| + 1 && |m.shares| == |m.pairs|
    requires m.pairs[..|l.pairs|] == l.pairs && m.shares[..|l.pairs|] == l.shares
    requires m.points == l.points || m.points == l.points + [|l.pairs|]
    requires |l.pairs| > 0 && m.points == l.points ==> LeavesOut(m, |l.pairs|)
    ensures Packed(m)
  {
    assert (l.points + [|l.pairs|])[|l.points|] == |l.pairs|;
    forall i | 0 < i < |m.pairs| && i !in m.points ensures LeavesOut(m, i) {
      if i < |l.pairs| {
        assert i !in l.points;
        assert m.pairs[..|l.pairs|][i] == l.pairs[i] && m.pairs[..|l.pairs|][i - 1] == l.pairs[i - 1] && m.shares[..|l.pairs|][i] == l.shares[i];
        assert LeavesOut(l, i);
      }
    }
  }

  function RestartArray(offsets: seq<nat>): (b: Bytes)
    ensures |b| == 4 * |offsets|
  {
    if offsets == [] then [] else RestartArray(offsets[..|offsets| - 1]) + Fixed(offsets[|offsets| - 1], 4)
  }

  ghost function PointOffsets(l: Layout): seq<nat>
    requires |l.offs| == |l.pairs| + 1 && PointsOk(l)
  {
    seq(|l.points|, r requires 0 <= r < |l.points| => l.offs[l.points[r]])
  }

  /** A finished block: entries, the offsets of the restart points, and their number. */
  ghost predicate IsBlock(block: Bytes, l: Layout) {
    && PointsOk(l) && |l.offs| == |l.pairs| + 1
    && |block| < WORD
    && var n := l.offs[|l.pairs|];
       && n <= |block| && EntriesOk(block[..n], l)
       && block[n..] == RestartArray(PointOffsets(l)) + Fixed(|l.points|, 4)
  }

  class BlockBuilder {
    const interval: nat
    const less: (Bytes, Bytes) -> bool
    var buffer: Bytes
    var restarts: seq<nat>
    var counter: nat
    var lastKey: Bytes
    var finished: bool
    ghost var layout: Layout

    ghost predicate Valid()
      reads this
    {
      && interval >= 1 && !finished
      && EntriesOk(buffer, layout) && PointsOk(layout) && layout.offs[|layout.pairs|] == |buffer|
      && restarts == PointOffsets(layout)
      && Ascending(less, layout.pairs)
      && (layout.pairs != [] ==> lastKey == layout.pairs[|layout.pairs| - 1].key)
      && (layout.pairs == [] ==> lastKey == [])
      && Spaced(layout.points, interval) && Packed(layout)
      && counter <= interval && |layout.pairs| == layout.points[|layout.points| - 1] + counter
    }

    constructor (interval: nat, less: (Bytes, Bytes) -> bool)
      requires interval >= 1
      ensures Valid() && this.interval == interval && this.less == less && layout.pairs == [] && buffer == [] && |restarts| == 1
    {
      this.interval, this.less := interval, less;
      buffer, restarts, counter, lastKey, finished := [], [0], 0, [], false;
      layout := Layout([], [], [0], [0]);
    }

    method Reset()
      requires interval >= 1
      modifies this
      ensures Valid() && layout.pairs == []
    {
      buffer, restarts, counter, lastKey, finished := [], [0], 0, [], false;
      layout := Layout([], [], [0], [0]);
    }

    /** Keys are added in order. */
    method Add(key: Bytes, value: Bytes)
      requires Valid() && Orders(less) && |key| < WORD
      requires layout.pairs != [] ==> less(layout.pairs[|layout.pairs| - 1].key, key)
      modifies this
      ensures Valid() && layout.pairs == old(layout.pairs) + [Pair(key, value)]
      ensures |value| < WORD ==> |buffer| <= |old(buffer)| + |key| + |value| + 15
      ensures |restarts| <= |old(restarts)| + 1
    {
      hide EntryBytes, EntriesOk, PointsOk, Ascending, Orders, PointOffsets, Varint, Packed;
      ghost var l, data := layout, buffer;
      LayoutShape(data, l);
      var shared := 0;
      ghost var points := l.points;
      if counter < interval {
        shared := SharedLength(lastKey, key);
      } else {
        restarts := restarts + [|buffer|];
        points := points + [|l.pairs|];
        counter := 0;
      }
      EntrySize(Pair(key, value), shared);
      buffer := buffer + EntryBytes(Pair(key, value), shared);
      lastKey := lastKey[..shared] + key[shared..];
      counter := counter + 1;
      layout := Layout(l.pairs + [Pair(key, value)], l.shares + [shared], l.offs + [|buffer|], points);
      assert lastKey == key;
      EntriesGrow(data, l, layout);
      PointsGrow(l, layout);
      PackedGrows(l, layout);
      AscendingGrows(less, l.pairs, Pair(key, value));
    }

    /** Append the restart points and their number. */
    method Finish() returns (block: Bytes)
      requires Valid() && |buffer| + 4 * |restarts| + 4 < WORD
      modifies this
      ensures IsBlock(block, layout) && Spaced(layout.points, interval) && Packed(layout) && layout == old(layout) && finished
    {
      hide EntriesOk, PointsOk, Ascending, Fixed, Packed;
      var i := 0;
      ghost var entries := buffer;
      LayoutShape(buffer, layout);
      while i < |restarts|
        invariant 0 <= i <= |restarts| && restarts == old(restarts) && layout == old(layout)
        invariant buffer == entries + RestartArray(restarts[..i])
      {
        assert restarts[..i + 1][..i] == restarts[..i];
        buffer := buffer + Fixed(restarts[i], 4);
        i := i + 1;
      }
      assert restarts[..|restarts|] == restarts;
      buffer := buffer + Fixed(|restarts|, 4);
      finished := true;
      block := buffer;
      assert block[..|entries|] == entries;
      assert block[|entries|..] == RestartArray(restarts) + Fixed(|restarts|, 4);
    }
  }

  /** The length of the longest common prefix. */
  method SharedLength(a: Bytes, b: Bytes) returns (n: nat)
    ensures n <= |a| && n <= |b| && a[..n] == b[..n]
    ensures n < |a| && n < |b| ==> a[n] != b[n]
  {
    n := 0;
    while n < |a| && n < |b| && a[n] == b[n]
      invariant n <= |a| && n <= |b| && a[..n] == b[..n]
    {
      n := n + 1;
    }
  }

  lemma LayoutShape(data: Bytes, l: Layout)
    requires EntriesOk(data, l) && PointsOk(l)
    ensures |l.shares| == |l.pairs| && |l.offs| == |l.pairs| + 1 && |l.points| > 0
    ensures l.pairs == [] ==> |l.points| == 1 && l.points[0] == 0
    ensures l.points[|l.points| - 1] <= |l.pairs|
  {
  }

  /** The new entry is a restart point, or the points stay as they are. */
  lemma PointsGrow(l: Layout, m: Layout)
    requires PointsOk(l) && |l.offs| == |l.pairs| + 1
    requires |m.pairs| == |l.pairs| + 1 && |m.shares| == |m.pairs| && |m.offs| == |m.pairs| + 1
    requires m.shares[..|l.pairs|] == l.shares && m.offs[..|l.offs|] == l.offs
    requires (m.points == l.points && (l.pairs == [] ==> m.shares[0] == 0))
             || (m.points == l.points + [|l.pairs|] && l.pairs != [] && m.shares[|l.pairs|] == 0)
    ensures PointsOk(m)
    ensures PointOffsets(m) == PointOffsets(l) + if m.points == l.points then [] else [l.offs[|l.pairs|]]
  {
    forall r | 0 <= r < |m.points| ensures m.points[r] < |m.pairs| && m.shares[m.points[r]] == 0 {
      assert r < |l.points| && l.pairs != [] ==> m.shares[..|l.pairs|][l.points[r]] == l.shares[l.points[r]];
    }
    forall r | 0 <= r < |l.points| ensures m.offs[l.points[r]] == l.offs[l.points[r]] {
      assert m.offs[..|l.offs|][l.points[r]] == l.offs[l.points[r]];
    }
  }

  lemma AscendingGrows(less: (Bytes, Bytes) -> bool, pairs: seq<Pair>, pair: Pair)
    requires Orders(less) && Ascending(less, pairs) && (pairs != [] ==> less(pairs[|pairs| - 1].key, pair.key))
    ensures Ascending(less, pairs + [pair])
  {
    var n := |pairs|;
    forall i | 0 <= i < n ensures less(pairs[i].key, pair.key) {
      if i < n - 1 {
        assert less(pairs[i].key, pairs[n - 1].key);
      }
    }
  }

  lemma EntriesGrow(data: Bytes, l: Layout, m: Layout)
    requires EntriesOk(data, l) && l.offs[|l.pairs|] == |data|
    requires |m.pairs| == |l.pairs| + 1 && |m.shares| == |m.pairs| && |m.offs| == |m.pairs| + 1
    requires m.pairs[..|l.pairs|] == l.pairs && m.shares[..|l.pairs|] == l.shares && m.offs[..|l.offs|] == l.offs
    requires Shares(m, |l.pairs|)
    requires var e := EntryBytes(m.pairs[|l.pairs|], m.shares[|l.pairs|]);
             m.offs[|m.pairs|] == |data| + |e|
    ensures EntriesOk(data + EntryBytes(m.pairs[|l.pairs|], m.shares[|l.pairs|]), m)
  {
    hide EntryBytes;
    var n := |l.pairs|;
    var grown := data + EntryBytes(m.pairs[n], m.shares[n]);
    forall i | 0 <= i < n ensures EntryAt(grown, m, i) {
      assert EntryAt(data, l, i);
      SameEntry(l, m, i);
      assert grown[l.offs[i]..l.offs[i + 1]] == data[l.offs[i]..l.offs[i + 1]];
    }
    assert EntryAt(grown, m, n);
  }

  lemma SameEntry(l: Layout, m: Layout, i: nat)
    requires i < |l.pairs| && |l.shares| == |l.pairs| && |l.offs| == |l.pairs| + 1
    requires |m.pairs| == |l.pairs| + 1 && |m.shares| == |m.pairs| && |m.offs| == |m.pairs| + 1
    requires m.pairs[..|l.pairs|] == l.pairs && m.shares[..|l.pairs|] == l.shares && m.offs[..|l.offs|] == l.offs
    ensures m.pairs[i] == l.pairs[i] && m.shares[i] == l.shares[i] && m.offs[i] == l.offs[i] && m.offs[i + 1] == l.offs[i + 1]
    ensures Shares(l, i) ==> Shares(m, i)
  {
    assert m.pairs[..|l.pairs|][i] == l.pairs[i] && m.shares[..|l.pairs|][i] == l.shares[i];
    assert m.offs[..|l.offs|][i] == l.offs[i] && m.offs[..|l.offs|][i + 1] == l.offs[i + 1];
    if i > 0 {
      assert m.pairs[..|l.pairs|][i - 1] == l.pairs[i - 1];
    }
  }
}
