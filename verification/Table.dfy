/** A table: data blocks, an index of separators over them, and filters that may skip a block. */
module Table {
  import opened Format
  import opened Coding
  import opened Comparators
  import opened FilterBlock

  datatype TableEntry = TableEntry(key: InternalKey, value: Bytes)
  datatype IndexEntry = IndexEntry(separator: InternalKey, offset: nat)

  /** What a reader sees: the index, the blocks by their offset, and the filter block if there is one. */
  datatype Table = Table(index: seq<IndexEntry>, blocks: map<nat, seq<TableEntry>>, filter: Option<Bytes>)

  ghost predicate Ascends(es: seq<TableEntry>) {
    forall i, j :: 0 <= i < j < |es| ==> KeyLess(es[i].key, es[j].key)
  }

  function First(es: seq<TableEntry>): InternalKey
    requires es != []
  {
    es[0].key
  }

  function Last(es: seq<TableEntry>): InternalKey
    requires es != []
  {
    es[|es| - 1].key
  }

  /** Blocks that are not empty and follow one another in key order. */
  ghost predicate PartsOk(parts: seq<seq<TableEntry>>) {
    && (forall i :: 0 <= i < |parts| ==> parts[i] != [] && Ascends(parts[i]))
    && (forall i, j :: 0 <= i < j < |parts| ==> KeyLess(Last(parts[i]), First(parts[j])))
  }

  /** Each separator is its block's last key, or has a user key past it and before the next block's. */
  ghost predicate SeparatorsOk(index: seq<IndexEntry>, parts: seq<seq<TableEntry>>)
    requires forall i :: 0 <= i < |parts| ==> parts[i] != []
  {
    && |index| == |parts|
    && forall i :: 0 <= i < |index| ==> SeparatorOk(index, parts, i)
  }

  ghost predicate SeparatorOk(index: seq<IndexEntry>, parts: seq<seq<TableEntry>>, i: nat)
    requires i < |index| && i < |parts| && forall j :: 0 <= j < |parts| ==> parts[j] != []
  {
    var last, sep := Last(parts[i]), index[i].separator;
    sep == last || (BytesLess(last.user, sep.user) && (i + 1 < |parts| ==> BytesLess(sep.user, First(parts[i + 1]).user)))
  }

  ghost predicate Lookups(t: Table, parts: seq<seq<TableEntry>>) {
    && |t.index| == |parts|
    && forall i :: 0 <= i < |parts| ==> t.index[i].offset in t.blocks && t.blocks[t.index[i].offset] == parts[i]
  }

  ghost predicate FilterOk(t: Table, parts: seq<seq<TableEntry>>) {
    && |t.index| == |parts|
    && (t.filter.Some? ==> forall i, j :: 0 <= i < |parts| && 0 <= j < |parts[i]| ==>
          Passes(t.filter.value, t.index[i].offset, parts[i][j].key))
  }

  ghost predicate Passes(filter: Bytes, offset: nat, key: InternalKey) {
    var b := EncodeKey(key);
    |b| >= 8 && FilterMatches(filter, offset, b)
  }

  ghost predicate TableOk(t: Table, parts: seq<seq<TableEntry>>) {
    PartsOk(parts) && Lookups(t, parts) && SeparatorsOk(t.index, parts) && FilterOk(t, parts)
  }

  // ---------------------------------------------------------------------------------------------
  // Looking up

  /** The first index entry at or past a key. */
  function SeekIndex(index: seq<IndexEntry>, k: InternalKey): (p: nat)
    ensures p <= |index|
    ensures forall i :: 0 <= i < p ==> KeyLess(index[i].separator, k)
    ensures p < |index| ==> !KeyLess(index[p].separator, k)
  {
    if index == [] || !KeyLess(index[0].separator, k) then 0 else 1 + SeekIndex(index[1..], k)
  }

  function SeekEntry(es: seq<TableEntry>, k: InternalKey): (p: nat)
    ensures p <= |es|
    ensures forall i :: 0 <= i < p ==> KeyLess(es[i].key, k)
    ensures p < |es| ==> !KeyLess(es[p].key, k)
  {
    if es == [] || !KeyLess(es[0].key, k) then 0 else 1 + SeekEntry(es[1..], k)
  }

  /** The entry that a seek in the one block the index names delivers. */
  function Delivered(index: seq<IndexEntry>, parts: seq<seq<TableEntry>>, k: InternalKey): Option<TableEntry>
    requires |index| == |parts|
  {
    var at := SeekIndex(index, k);
    if at == |index| then None
    else
      var p := SeekEntry(parts[at], k);
      if p == |parts[at]| then None else Some(parts[at][p])
  }

  ghost predicate Matches(e: TableEntry, k: InternalKey) {
    e.key.user == k.user && e.key.tag <= k.tag
  }

  ghost predicate Holds(parts: seq<seq<TableEntry>>, e: TableEntry) {
    exists i, j :: 0 <= i < |parts| && 0 <= j < |parts[i]| && parts[i][j] == e
  }

  /** The newest version of the sought user key that is not newer than the lookup. */
  ghost predicate IsNewestMatch(parts: seq<seq<TableEntry>>, k: InternalKey, e: TableEntry) {
    Holds(parts, e) && Matches(e, k) && forall o :: Holds(parts, o) && Matches(o, k) ==> o.key.tag <= e.key.tag
  }

  /** The block that a lookup is for, unless the filter turns the lookup away. */
  ghost predicate Reads(t: Table, k: InternalKey, offset: nat) {
    exists at ::
      && 0 <= at < |t.index| && t.index[at].offset == offset
      && (forall i :: 0 <= i < at ==> KeyLess(t.index[i].separator, k)) && !KeyLess(t.index[at].separator, k)
      && (t.filter.Some? ==> Passes(t.filter.value, offset, k))
  }

  /** `read` is the block that was read, if any: the filter saves reading one. */
  method InternalGet(t: Table, k: InternalKey, ghost parts: seq<seq<TableEntry>>) returns (r: Option<TableEntry>, read: Option<nat>)
    requires TableOk(t, parts)
    ensures r.Some? && r.value.key.user == k.user <==> exists e :: Holds(parts, e) && Matches(e, k)
    ensures r.Some? && r.value.key.user == k.user ==> IsNewestMatch(parts, k, r.value)
    ensures read.Some? ==> Reads(t, k, read.value)
    ensures read.None? ==> r.None? && forall offset :: !Reads(t, k, offset)
  {
    hide PartsOk, SeparatorsOk, FilterMatches, KeyLess, Reads, FilterOk, Holds, IsNewestMatch;
    r, read := None, None;
    NamedBlock(t, k);
    DeliveredIsNewest(t.index, parts, k);
    var at := SeekIndex(t.index, k);
    if at < |t.index| {
      var offset := t.index[at].offset;
      var skip := false;
      if t.filter.Some? {
        KeyRoundTrip(k);
        var may := ReadFilter(t.filter.value, offset, EncodeKey(k));
        skip := !may;
        SkippedHasNone(t, parts, k, at);
      }
      if !skip {
        read := Some(offset);
        var block := t.blocks[offset];
        var p := SeekEntry(block, k);
        if p < |block| {
          r := Some(block[p]);
        }
      }
    }
  }

  /** The first index entry not before the key names the block, and the filter has its say. */
  lemma NamedBlock(t: Table, k: InternalKey)
    ensures var at := SeekIndex(t.index, k);
            if at < |t.index| && (t.filter.Some? ==> Passes(t.filter.value, t.index[at].offset, k)) then Reads(t, k, t.index[at].offset)
            else forall offset :: !Reads(t, k, offset)
  {
    hide Passes, KeyLess;
  }

  /** A filter that turns a lookup away speaks for every version of its user key in the block. */
  lemma SkippedHasNone(t: Table, parts: seq<seq<TableEntry>>, k: InternalKey, at: nat)
    requires FilterOk(t, parts) && at < |parts| && t.filter.Some?
    ensures !Passes(t.filter.value, t.index[at].offset, k) ==>
              forall j :: 0 <= j < |parts[at]| ==> parts[at][j].key.user != k.user
  {
    hide FilterMatches;
    forall j | 0 <= j < |parts[at]| && parts[at][j].key.user == k.user
      ensures Passes(t.filter.value, t.index[at].offset, k)
    {
      assert Passes(t.filter.value, t.index[at].offset, parts[at][j].key);
      SameUserSameFilter(t.filter.value, t.index[at].offset, parts[at][j].key, k);
    }
  }

  /** The filter looks at user keys only. */
  lemma SameUserSameFilter(filter: Bytes, offset: nat, a: InternalKey, b: InternalKey)
    requires a.user == b.user
    ensures Passes(filter, offset, a) <==> Passes(filter, offset, b)
  {
    KeyRoundTrip(a);
    KeyRoundTrip(b);
  }

  lemma Sandwich(k: InternalKey, x: InternalKey, e: InternalKey)
    requires !KeyLess(x, k) && !KeyLess(e, x) && e.user == k.user
    ensures x.user == k.user && e.tag <= x.tag <= k.tag
  {
    LessTotal(x.user, k.user);
    LessIrreflexive(k.user);
  }

  lemma MatchIsPast(e: InternalKey, k: InternalKey)
    requires e.user == k.user
    ensures e.tag <= k.tag <==> !KeyLess(e, k)
  {
    LessIrreflexive(k.user);
  }

  /** A version of the sought key anywhere in the table makes the seek in one block deliver one that is
      at least as new. */
  lemma BlockOfMatch(index: seq<IndexEntry>, parts: seq<seq<TableEntry>>, k: InternalKey, j: nat, l: nat)
    requires PartsOk(parts) && SeparatorsOk(index, parts) && j < |parts| && l < |parts[j]| && Matches(parts[j][l], k)
    ensures var r := Delivered(index, parts, k);
            r.Some? && r.value.key.user == k.user && parts[j][l].key.tag <= r.value.key.tag
  {
    hide KeyLess;
    var e, at := parts[j][l].key, SeekIndex(index, k);
    MatchIsPast(e, k);
    SeparatorPast(index, parts, j, l);
    NotLessTransitive(index[j].separator, e, k);
    assert at <= j;
    var p := SeekEntry(parts[at], k);
    if at < j {
      LastIsMatch(index, parts, k, j, l);
      InBlock(parts[at], p, |parts[at]| - 1);
      NotLessTransitive(e, Last(parts[at]), parts[at][p].key);
    } else {
      InBlock(parts[at], p, l);
    }
    Sandwich(k, parts[at][p].key, e);
  }

  lemma NotLessTransitive(a: InternalKey, b: InternalKey, c: InternalKey)
    requires !KeyLess(a, b) && !KeyLess(b, c)
    ensures !KeyLess(a, c)
  {
    KeyLessOrders(a, b, c);
    KeyLessOrders(a, c, b);
    KeyLessOrders(b, c, a);
  }

  lemma InBlock(es: seq<TableEntry>, p: nat, l: nat)
    requires Ascends(es) && p <= l < |es|
    ensures !KeyLess(es[l].key, es[p].key)
  {
    KeyLessOrders(es[p].key, es[l].key, es[p].key);
  }

  lemma SeparatorPast(index: seq<IndexEntry>, parts: seq<seq<TableEntry>>, j: nat, l: nat)
    requires PartsOk(parts) && SeparatorsOk(index, parts) && j < |parts| && l < |parts[j]|
    ensures !KeyLess(index[j].separator, parts[j][l].key)
  {
    assert SeparatorOk(index, parts, j);
    var last, sep := Last(parts[j]), index[j].separator;
    InBlock(parts[j], l, |parts[j]| - 1);
    KeyLessOrders(last, sep, last);
    NotLessTransitive(sep, last, parts[j][l].key);
  }

  /** If the index names an earlier block, that block's last key is itself a version of the sought key. */
  lemma LastIsMatch(index: seq<IndexEntry>, parts: seq<seq<TableEntry>>, k: InternalKey, j: nat, l: nat)
    requires PartsOk(parts) && SeparatorsOk(index, parts) && j < |parts| && l < |parts[j]| && Matches(parts[j][l], k)
    requires SeekIndex(index, k) < j
    ensures var last := Last(parts[SeekIndex(index, k)]);
            !KeyLess(last, k) && !KeyLess(parts[j][l].key, last)
    ensures SeekEntry(parts[SeekIndex(index, k)], k) < |parts[SeekIndex(index, k)]|
  {
    var at, e := SeekIndex(index, k), parts[j][l].key;
    var last, sep := Last(parts[at]), index[at].separator;
    assert SeparatorOk(index, parts, at);
    KeyLessOrders(last, First(parts[j]), last);
    InBlock(parts[j], 0, l);
    NotLessTransitive(e, First(parts[j]), last);
    if sep != last {
      UserOrder(parts, at + 1, j, l);
      LessOrEqualTransitive(sep.user, First(parts[at + 1]).user, e.user);
      assert false;
    }
  }

  /** User keys do not descend from the start of one block to any entry from there on. */
  lemma UserOrder(parts: seq<seq<TableEntry>>, i: nat, j: nat, l: nat)
    requires PartsOk(parts) && i <= j < |parts| && l < |parts[j]|
    ensures First(parts[i]).user == parts[j][l].key.user || BytesLess(First(parts[i]).user, parts[j][l].key.user)
  {
    var a, e := First(parts[i]), parts[j][l].key;
    InBlock(parts[j], 0, l);
    if i < j {
      InBlock(parts[i], 0, |parts[i]| - 1);
      KeyLessOrders(Last(parts[i]), First(parts[j]), a);
      NotLessTransitive(First(parts[j]), Last(parts[i]), a);
      NotLessTransitive(e, First(parts[j]), a);
    }
    KeyLessOrders(a, e, a);
    LessTotal(a.user, e.user);
  }

  lemma LessOrEqualTransitive(a: Bytes, b: Bytes, c: Bytes)
    requires BytesLess(a, b) && (b == c || BytesLess(b, c))
    ensures BytesLess(a, c)
  {
    if b != c {
      LessTransitive(a, b, c);
    }
  }

  /** Searching one block delivers a version of the sought key exactly when the table holds one that the
      lookup may see, and then the newest. */
  lemma DeliveredIsNewest(index: seq<IndexEntry>, parts: seq<seq<TableEntry>>, k: InternalKey)
    requires PartsOk(parts) && SeparatorsOk(index, parts)
    ensures var r := Delivered(index, parts, k);
            && (r.Some? && r.value.key.user == k.user <==> exists e :: Holds(parts, e) && Matches(e, k))
            && (r.Some? && r.value.key.user == k.user ==> IsNewestMatch(parts, k, r.value))
  {
    var r := Delivered(index, parts, k);
    forall e | Holds(parts, e) && Matches(e, k)
      ensures r.Some? && r.value.key.user == k.user && e.key.tag <= r.value.key.tag
    {
      var i, j :| 0 <= i < |parts| && 0 <= j < |parts[i]| && parts[i][j] == e;
      BlockOfMatch(index, parts, k, i, j);
    }
    if r.Some? && r.value.key.user == k.user {
      MatchIsPast(r.value.key, k);
      var at := SeekIndex(index, k);
      assert parts[at][SeekEntry(parts[at], k)] == r.value;
      assert Holds(parts, r.value) && Matches(r.value, k);
    }
  }

  /** It is not enough that separators lie between the keys of their blocks: one that falls between two
      versions of one user key hides the older from a lookup between them. */
  lemma SplitVersionsLoseReads(u: Bytes)
    ensures var a, b, sep := InternalKey(u, 9), InternalKey(u, 3), InternalKey(u, 5);
            var parts, index := [[TableEntry(a, [])], [TableEntry(b, [])]], [IndexEntry(sep, 0), IndexEntry(b, 1)];
            && PartsOk(parts) && KeyLess(a, sep) && KeyLess(sep, b)
            && Matches(TableEntry(b, []), InternalKey(u, 6)) && Delivered(index, parts, InternalKey(u, 6)) == None
  {
    LessIrreflexive(u);
    var a, b, sep, k := InternalKey(u, 9), InternalKey(u, 3), InternalKey(u, 5), InternalKey(u, 6);
    var index := [IndexEntry(sep, 0), IndexEntry(b, 1)];
    assert SeekIndex(index, k) == 0;
    var es := [TableEntry(a, [])];
    assert es[1..] == [];
    assert SeekEntry(es, k) == 1 + SeekEntry(es[1..], k);
  }
}
