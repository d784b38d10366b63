/** Building a table from entries in key order. */
module TableBuilder {
  import opened Format
  import opened Coding
  import opened Comparators
  import opened FilterBlock
  import opened Table

  const BLOCK_TRAILER_SIZE := 5

  /** The blocks written so far and where they start. */
  datatype Written = Written(parts: seq<seq<TableEntry>>, offsets: seq<nat>)

  /** Entries in the order they were added. */
  function Joined(parts: seq<seq<TableEntry>>): seq<TableEntry> {
    if parts == [] then [] else Joined(parts[..|parts| - 1]) + parts[|parts| - 1]
  }

  /** Blocks start at ascending offsets before `end`, and each is found at its own. */
  ghost predicate WrittenOk(w: Written, blocks: map<nat, seq<TableEntry>>, end: nat) {
    && |w.offsets| == |w.parts|
    && (forall i :: 0 <= i < |w.parts| ==> w.offsets[i] < end && w.offsets[i] in blocks && blocks[w.offsets[i]] == w.parts[i])
  }

  /** The blocks with the one under construction, if it has entries. */
  function WithOpen(parts: seq<seq<TableEntry>>, block: seq<TableEntry>): seq<seq<TableEntry>> {
    if block == [] then parts else parts + [block]
  }

  /** The keys for the filter that serves offset group `g`. */
  ghost function GroupAt(groups: seq<seq<Bytes>>, pending: seq<Bytes>, g: nat): seq<Bytes> {
    if g < |groups| then groups[g] else pending
  }

  ghost predicate Filtered(w: Written, groups: seq<seq<Bytes>>, pending: seq<Bytes>) {
    && |w.offsets| == |w.parts|
    && forall i, j :: 0 <= i < |w.parts| && 0 <= j < |w.parts[i]| ==>
         InGroup(groups, pending, w.offsets[i], w.parts[i][j].key)
  }

  ghost predicate InGroup(groups: seq<seq<Bytes>>, pending: seq<Bytes>, offset: nat, key: InternalKey) {
    EncodeKey(key) in GroupAt(groups, pending, offset / FILTER_BASE)
  }

  /** A key of a block that starts in this offset group. */
  ghost predicate KeyOfGroup(w: Written, g: nat, key: Bytes) {
    exists i, j :: 0 <= i < |w.parts| && i < |w.offsets| && 0 <= j < |w.parts[i]|
                   && w.offsets[i] / FILTER_BASE == g && EncodeKey(w.parts[i][j].key) == key
  }

  /** Nothing else is in a group: its keys are those of its blocks, the waiting ones also of the open block. */
  ghost predicate Sourced(w: Written, block: seq<TableEntry>, groups: seq<seq<Bytes>>, pending: seq<Bytes>) {
    && (forall g, key :: 0 <= g < |groups| && key in groups[g] ==> KeyOfGroup(w, g, key))
    && (forall key :: key in pending ==> KeyOfGroup(w, |groups|, key) || KeyOfBlock(block, key))
  }

  ghost predicate KeyOfBlock(block: seq<TableEntry>, key: Bytes) {
    exists j :: 0 <= j < |block| && EncodeKey(block[j].key) == key
  }

  /** The index covers all written blocks, or all but the last while its separator waits for the next key. */
  ghost predicate Indexed(index: seq<IndexEntry>, w: Written, waiting: bool, parts: seq<seq<TableEntry>>) {
    && |w.offsets| == |w.parts| <= |parts|
    && |index| + (if waiting then 1 else 0) == |w.parts|
    && (forall i :: 0 <= i < |parts| ==> parts[i] != [])
    && (forall i :: 0 <= i < |index| ==> index[i].offset == w.offsets[i])
    && (forall i :: 0 <= i < |index| ==> SeparatorOk(index, parts, i))
  }

  /** Blocks in key order, an index over them, and the last key added. */
  ghost predicate ShapeOk(index: seq<IndexEntry>, w: Written, block: seq<TableEntry>, waiting: bool, pendingOffset: nat,
      lastKey: Option<InternalKey>)
  {
    var parts := WithOpen(w.parts, block);
    && PartsOk(parts)
    && Indexed(index, w, waiting, parts)
    && (waiting ==> block == [] && pendingOffset == w.offsets[|w.offsets| - 1])
    && (!waiting && w.parts != [] ==> block != [])
    && (parts == [] ==> lastKey.None?) && (parts != [] ==> lastKey == Some(Last(parts[|parts| - 1])))
  }

  class TableBuilder {
    const blockSize: nat
    /** The size a block takes once written. */
    const sizeOf: seq<TableEntry> -> nat
    const filter: FilterBlockBuilder
    var index: seq<IndexEntry>
    var blocks: map<nat, seq<TableEntry>>
    var dataBlock: seq<TableEntry>
    var lastKey: Option<InternalKey>
    var pendingIndexEntry: bool
    var pendingOffset: nat
    var offset: nat
    ghost var written: Written

    ghost predicate Valid()
      reads this, filter
    {
      && ShapeOk(index, written, dataBlock, pendingIndexEntry, pendingOffset, lastKey)
      && WrittenOk(written, blocks, offset)
      && filter.Valid() && |filter.groups| == offset / FILTER_BASE
      && Filtered(written, filter.groups, filter.pending)
      && (forall j :: 0 <= j < |dataBlock| ==> EncodeKey(dataBlock[j].key) in filter.pending)
      && Sourced(written, dataBlock, filter.groups, filter.pending)
    }

    /** Everything added so far. */
    ghost function Entries(): seq<TableEntry>
      reads this
    {
      Joined(written.parts) + dataBlock
    }

    constructor (blockSize: nat, sizeOf: seq<TableEntry> -> nat, policy: Policy)
      requires 1 <= policy.probes <= 30
      ensures Valid() && Entries() == [] && fresh(filter) && filter.policy == policy
    {
      this.blockSize, this.sizeOf := blockSize, sizeOf;
      filter := new FilterBlockBuilder(policy);
      index, blocks, dataBlock, lastKey := [], map[], [], None;
      pendingIndexEntry, pendingOffset, offset := false, 0, 0;
      written := Written([], []);
    }

    method Add(key: InternalKey, value: Bytes)
      requires Valid() && (lastKey.Some? ==> KeyLess(lastKey.value, key))
      modifies this, filter
      ensures Valid() && Entries() == old(Entries()) + [TableEntry(key, value)]
      ensures var block := old(dataBlock) + [TableEntry(key, value)];
              if sizeOf(block) >= blockSize then dataBlock == [] && written.parts == old(written.parts) + [block]
              else dataBlock == block && written == old(written)
    {
      hide Valid, KeyLess, Joined;
      AddEntry(key, value);
      if sizeOf(dataBlock) >= blockSize {
        Flush();
      }
    }

    method AddEntry(key: InternalKey, value: Bytes)
      requires Valid() && (lastKey.Some? ==> KeyLess(lastKey.value, key))
      modifies this, filter
      ensures Valid() && Entries() == old(Entries()) + [TableEntry(key, value)]
      ensures dataBlock == old(dataBlock) + [TableEntry(key, value)] && written == old(written)
    {
      hide Sourced, ShapeOk, WrittenOk, Filtered, FilterBlockBuilder.Valid, KeyLess, BytesLess, Joined, EncodeKey;
      ghost var was, e, waiting := index, TableEntry(key, value), pendingIndexEntry;
      WaitingHasLast(index, written, dataBlock, waiting, pendingOffset, lastKey);
      if pendingIndexEntry {
        var separator := SeparateKeys(lastKey.value, key);
        index := index + [IndexEntry(separator, pendingOffset)];
        pendingIndexEntry := false;
      }
      ShapeGrows(was, written, dataBlock, waiting, pendingOffset, lastKey, e, index);
      KeyRoundTrip(key);
      ghost var pending := filter.pending;
      filter.AddKey(EncodeKey(key));
      FilteredGrows(written, filter.groups, pending, EncodeKey(key));
      SourcedGrows(written, dataBlock, filter.groups, pending, e);
      lastKey := Some(key);
      dataBlock := dataBlock + [TableEntry(key, value)];
    }

    /** Write the block under construction. */
    method Flush()
      requires Valid()
      modifies this, filter
      ensures Valid() && Entries() == old(Entries()) && dataBlock == []
      ensures written.parts == WithOpen(old(written.parts), old(dataBlock))
    {
      hide Sourced, PartsOk, Indexed, WrittenOk, Filtered, FilterBlockBuilder.Valid, EncodeKey, Joined, ShapeOk;
      if dataBlock == [] {
        return;
      }
      ghost var w, groups, pending := written, filter.groups, filter.pending;
      FlushShape(index, w, dataBlock, pendingIndexEntry, pendingOffset, lastKey, offset);
      assert !pendingIndexEntry;
      BlockWritten(index, written, blocks, dataBlock, offset, sizeOf(dataBlock) + BLOCK_TRAILER_SIZE, groups, pending);
      JoinedGrows(w.parts, dataBlock);
      ghost var block := dataBlock;
      pendingOffset := offset;
      blocks := blocks[offset := dataBlock];
      offset := offset + sizeOf(dataBlock) + BLOCK_TRAILER_SIZE;
      written := Written(w.parts + [dataBlock], w.offsets + [pendingOffset]);
      dataBlock := [];
      pendingIndexEntry := true;
      OffsetGroups(pendingOffset, offset);
      filter.StartBlock(offset);
      GroupsKept(written, pendingOffset, groups, pending, filter.groups, filter.pending);
      SourcedWritten(w, block, pendingOffset, groups, pending, filter.groups, filter.pending);
    }

    /** Write what is left, the filters and the index; a table of everything added, if its filter block
        stays within 32-bit offsets. */
    method Finish() returns (t: Table, ghost parts: seq<seq<TableEntry>>)
      requires Valid()
      modifies this, filter
      ensures Joined(parts) == old(Entries())
      ensures FilteredExactly(t, parts, filter.policy) && TableOk(t.(filter := None), parts)
      ensures |t.filter.value| < WORD ==> TableOk(t, parts)
    {
      hide Sourced, FilteredExactly, PartsOk, Indexed, WrittenOk, Filtered, FilterBlockBuilder.Valid, IsFilterBlock, SeparatorsOk,
           FilterOk, Lookups, BytesLess, KeyLess, EncodeKey, Joined, ShapeOk;
      Flush();
      parts := written.parts;
      assert Joined(parts) + [] == Joined(parts);
      ghost var groups, pending, was := filter.groups, filter.pending, index;
      DoneShape(index, written, pendingIndexEntry, pendingOffset, lastKey);
      var contents := filter.Finish();
      if pendingIndexEntry {
        var separator := SucceedKey(lastKey.value);
        index := index + [IndexEntry(separator, pendingOffset)];
      }
      t := Table(index, blocks, Some(contents));
      IndexDone(was, written, pendingIndexEntry, index);
      LookupsDone(written, offset, t);
      ExactlyDone(written, offset, groups, pending, filter.groups, filter.policy, t);
      NoFilter(t, parts);
      if |contents| < WORD {
        FilterDone(written, offset, groups, pending, filter.groups, filter.policy, t);
      }
    }
  }

  /** The filter block is made of the keys of each group of blocks, and no others. */
  ghost predicate FilteredExactly(t: Table, parts: seq<seq<TableEntry>>, policy: Policy) {
    && t.filter.Some? && |t.index| == |parts|
    && exists groups :: IsFilterBlock(t.filter.value, groups, policy) && Grouped(t.index, parts, groups)
  }

  ghost predicate Grouped(index: seq<IndexEntry>, parts: seq<seq<TableEntry>>, groups: seq<seq<Bytes>>)
    requires |index| == |parts|
  {
    && (forall i :: 0 <= i < |index| ==> index[i].offset / FILTER_BASE < |groups|)
    && (forall g, key :: 0 <= g < |groups| ==> (key in groups[g] <==> KeyOfGroup(Written(parts, Offsets(index)), g, key)))
  }

  ghost function Offsets(index: seq<IndexEntry>): (r: seq<nat>)
    ensures |r| == |index| && forall i :: 0 <= i < |index| ==> r[i] == index[i].offset
  {
    seq(|index|, i requires 0 <= i < |index| => index[i].offset)
  }

  lemma SourcedGrows(w: Written, block: seq<TableEntry>, groups: seq<seq<Bytes>>, pending: seq<Bytes>, e: TableEntry)
    requires Sourced(w, block, groups, pending)
    ensures Sourced(w, block + [e], groups, pending + [EncodeKey(e.key)])
  {
    hide KeyOfGroup, EncodeKey;
    var grown := block + [e];
    assert grown[|block|] == e;
    forall key | KeyOfBlock(block, key) ensures KeyOfBlock(grown, key) {
      var j :| 0 <= j < |block| && EncodeKey(block[j].key) == key;
      assert grown[j] == block[j];
    }
  }

  lemma SourcedWritten(w: Written, block: seq<TableEntry>, offset: nat, groups: seq<seq<Bytes>>, pending: seq<Bytes>,
      groups': seq<seq<Bytes>>, pending': seq<Bytes>)
    requires Sourced(w, block, groups, pending) && |w.offsets| == |w.parts| && |groups| == offset / FILTER_BASE
    requires if |groups'| == |groups| then groups' == groups && pending' == pending
             else |groups'| > |groups| && groups'[..|groups| + 1] == groups + [pending] && pending' == []
    requires forall i :: |groups| < i < |groups'| ==> groups'[i] == []
    ensures Sourced(Written(w.parts + [block], w.offsets + [offset]), [], groups', pending')
  {
    hide KeyOfGroup, KeyOfBlock;
    var w' := Written(w.parts + [block], w.offsets + [offset]);
    forall key | key in pending ensures KeyOfGroup(w', |groups|, key) {
      if KeyOfGroup(w, |groups|, key) {
        StillInGroup(w, block, offset, |groups|, key);
      } else {
        NowInGroup(w, block, offset, key);
      }
    }
    forall g, key | 0 <= g < |groups'| && key in groups'[g] ensures KeyOfGroup(w', g, key) {
      if g < |groups| {
        assert groups'[g] == (if |groups'| == |groups| then groups' else groups'[..|groups| + 1])[g] == groups[g];
        StillInGroup(w, block, offset, g, key);
      } else {
        assert g == |groups| ==> groups'[g] == groups'[..|groups| + 1][g] == pending;
      }
    }
  }

  lemma StillInGroup(w: Written, block: seq<TableEntry>, offset: nat, g: nat, key: Bytes)
    requires KeyOfGroup(w, g, key) && |w.offsets| == |w.parts|
    ensures KeyOfGroup(Written(w.parts + [block], w.offsets + [offset]), g, key)
  {
    var w' := Written(w.parts + [block], w.offsets + [offset]);
    var i, j :| 0 <= i < |w.parts| && i < |w.offsets| && 0 <= j < |w.parts[i]|
                && w.offsets[i] / FILTER_BASE == g && EncodeKey(w.parts[i][j].key) == key;
    assert w'.parts[i] == w.parts[i] && w'.offsets[i] == w.offsets[i];
    assert EncodeKey(w'.parts[i][j].key) == key;
  }

  lemma NowInGroup(w: Written, block: seq<TableEntry>, offset: nat, key: Bytes)
    requires KeyOfBlock(block, key) && |w.offsets| == |w.parts|
    ensures KeyOfGroup(Written(w.parts + [block], w.offsets + [offset]), offset / FILTER_BASE, key)
  {
    var w', n := Written(w.parts + [block], w.offsets + [offset]), |w.parts|;
    var j :| 0 <= j < |block| && EncodeKey(block[j].key) == key;
    assert w'.parts[n] == block && w'.offsets[n] == offset;
    assert EncodeKey(w'.parts[n][j].key) == key;
  }

  lemma ExactlyDone(w: Written, end: nat, groups: seq<seq<Bytes>>, pending: seq<Bytes>, final: seq<seq<Bytes>>, policy: Policy, t: Table)
    requires Filtered(w, groups, pending) && Sourced(w, [], groups, pending) && WrittenOk(w, t.blocks, end) && |groups| == end / FILTER_BASE
    requires t.filter.Some? && IsFilterBlock(t.filter.value, final, policy)
    requires final == if pending == [] then groups else groups + [pending]
    requires |t.index| == |w.parts| && (forall i :: 0 <= i < |t.index| ==> t.index[i].offset == w.offsets[i])
    requires forall i :: 0 <= i < |w.parts| ==> w.parts[i] != []
    ensures FilteredExactly(t, w.parts, policy)
  {
    hide IsFilterBlock, EncodeKey;
    assert Offsets(t.index) == w.offsets;
    forall i | 0 <= i < |t.index| ensures t.index[i].offset / FILTER_BASE < |final| {
      assert InGroup(groups, pending, w.offsets[i], w.parts[i][0].key);
      OffsetGroups(w.offsets[i], end);
    }
    forall g, key | 0 <= g < |final| ensures key in final[g] <==> KeyOfGroup(w, g, key) {
      if KeyOfGroup(w, g, key) {
        var i, j :| 0 <= i < |w.parts| && i < |w.offsets| && 0 <= j < |w.parts[i]|
                    && w.offsets[i] / FILTER_BASE == g && EncodeKey(w.parts[i][j].key) == key;
        assert InGroup(groups, pending, w.offsets[i], w.parts[i][j].key);
      }
    }
    assert Grouped(t.index, w.parts, final);
  }

  /** Which lookups a table with a filter lets through: those of a user key each of whose probes is one of some
      key in the group of the block that the index names. */
  lemma LookupPasses(t: Table, parts: seq<seq<TableEntry>>, groups: seq<seq<Bytes>>, policy: Policy, at: nat, k: InternalKey)
    requires t.filter.Some? && |t.index| == |parts| && IsFilterBlock(t.filter.value, groups, policy) && Grouped(t.index, parts, groups)
    requires at < |t.index| && 1 <= policy.probes <= 30 && |t.filter.value| < WORD
    ensures var g := t.index[at].offset / FILTER_BASE;
            g < |groups| && (Passes(t.filter.value, t.index[at].offset, k) <==> KeysOk(groups[g]) && GroupMatches(groups[g], policy, k.user))
  {
    hide IsFilterBlock, EncodeKey, FilterMatches, GroupMatches, KeysOk;
    KeyRoundTrip(k);
    FilterBlockExact(t.filter.value, groups, policy, t.index[at].offset, EncodeKey(k));
  }

  lemma NoFilter(t: Table, parts: seq<seq<TableEntry>>)
    requires PartsOk(parts) && Lookups(t, parts) && SeparatorsOk(t.index, parts)
    ensures TableOk(t.(filter := None), parts)
  {
    hide PartsOk, SeparatorsOk;
  }

  /** With no block under construction, the separator that waits is that of the last block. */
  lemma DoneShape(index: seq<IndexEntry>, w: Written, waiting: bool, pendingOffset: nat, lastKey: Option<InternalKey>)
    requires ShapeOk(index, w, [], waiting, pendingOffset, lastKey)
    ensures PartsOk(w.parts) && Indexed(index, w, waiting, w.parts)
    ensures |w.offsets| == |w.parts| == |index| + (if waiting then 1 else 0)
    ensures forall i :: 0 <= i < |w.parts| ==> w.parts[i] != []
    ensures waiting ==> lastKey == Some(Last(w.parts[|index|])) && pendingOffset == w.offsets[|index|]
  {
    hide PartsOk, SeparatorOk;
  }

  /** The last separator has no key after it. */
  lemma IndexDone(index: seq<IndexEntry>, w: Written, waiting: bool, done: seq<IndexEntry>)
    requires Indexed(index, w, waiting, w.parts)
    requires waiting ==> |done| == |index| + 1 && done[..|index|] == index && done[|index|].offset == w.offsets[|index|]
    requires waiting ==> done[|index|].separator == Last(w.parts[|index|])
                         || BytesLess(Last(w.parts[|index|]).user, done[|index|].separator.user)
    requires !waiting ==> done == index
    ensures SeparatorsOk(done, w.parts)
    ensures forall i :: 0 <= i < |done| ==> done[i].offset == w.offsets[i]
  {
    forall i | 0 <= i < |done| ensures SeparatorOk(done, w.parts, i) && done[i].offset == w.offsets[i] {
      if i < |index| {
        assert waiting ==> done[..|index|][i] == index[i];
        assert SeparatorOk(index, w.parts, i);
      }
    }
  }

  lemma LookupsDone(w: Written, end: nat, t: Table)
    requires WrittenOk(w, t.blocks, end) && |t.index| == |w.parts|
    requires forall i :: 0 <= i < |t.index| ==> t.index[i].offset == w.offsets[i]
    ensures Lookups(t, w.parts)
  {
  }

  lemma FilterDone(w: Written, end: nat, groups: seq<seq<Bytes>>, pending: seq<Bytes>, final: seq<seq<Bytes>>, policy: Policy, t: Table)
    requires Filtered(w, groups, pending) && t.filter.Some? && IsFilterBlock(t.filter.value, final, policy) && |t.filter.value| < WORD
    requires 1 <= policy.probes <= 30
    requires WrittenOk(w, t.blocks, end) && |groups| == end / FILTER_BASE
    requires final == if pending == [] then groups else groups + [pending]
    requires |t.index| == |w.parts| && forall i :: 0 <= i < |t.index| ==> t.index[i].offset == w.offsets[i]
    ensures FilterOk(t, w.parts)
  {
    hide IsFilterBlock, FilterMatches;
    forall i, j | 0 <= i < |w.parts| && 0 <= j < |w.parts[i]|
      ensures Passes(t.filter.value, t.index[i].offset, w.parts[i][j].key)
    {
      var key, offset := w.parts[i][j].key, w.offsets[i];
      assert InGroup(groups, pending, offset, key);
      OffsetGroups(offset, end);
      var g := offset / FILTER_BASE;
      var m :| 0 <= m < |final[g]| && final[g][m] == EncodeKey(key);
      FilterHasItsKeys(t.filter.value, final, policy, offset, m);
    }
  }

  /** The entries of the blocks are those of the list. */
  lemma {:induction false} HoldsJoined(parts: seq<seq<TableEntry>>, e: TableEntry)
    ensures Holds(parts, e) <==> e in Joined(parts)
  {
    if parts != [] {
      var last := |parts| - 1;
      HoldsJoined(parts[..last], e);
      HoldsLast(parts, e);
    }
  }

  lemma HoldsLast(parts: seq<seq<TableEntry>>, e: TableEntry)
    requires parts != []
    ensures Holds(parts, e) <==> Holds(parts[..|parts| - 1], e) || e in parts[|parts| - 1]
  {
    var last := |parts| - 1;
    var before := parts[..last];
    if Holds(before, e) {
      var i, j :| 0 <= i < |before| && 0 <= j < |before[i]| && before[i][j] == e;
      assert parts[i][j] == e;
    }
    if e in parts[last] {
      var j :| 0 <= j < |parts[last]| && parts[last][j] == e;
    }
    if Holds(parts, e) {
      var i, j :| 0 <= i < |parts| && 0 <= j < |parts[i]| && parts[i][j] == e;
      if i < last {
        assert before[i][j] == e;
      }
    }
  }

  /** The newest version among some entries of a user key that a reader may see. */
  ghost predicate IsNewestIn(es: seq<TableEntry>, k: InternalKey, e: TableEntry) {
    e in es && Matches(e, k) && forall o :: o in es && Matches(o, k) ==> o.key.tag <= e.key.tag
  }

  /** What a lookup in a table delivers, against the list the table was made from. */
  ghost predicate Answers(es: seq<TableEntry>, k: InternalKey, r: Option<TableEntry>) {
    && (r.Some? && r.value.key.user == k.user <==> exists e :: e in es && Matches(e, k))
    && (r.Some? && r.value.key.user == k.user ==> IsNewestIn(es, k, r.value))
  }

  /** A finished table answers every lookup from the entries that were added, whether it is read with its filter
      (which must stay within 32-bit offsets) or without. */
  method FinishAndGet(builder: TableBuilder, filtered: bool, k: InternalKey)
    returns (t: Table, ghost parts: seq<seq<TableEntry>>, r: Option<TableEntry>)
    requires builder.Valid()
    modifies builder, builder.filter
    ensures FilteredExactly(t, parts, builder.filter.policy) && Joined(parts) == old(builder.Entries())
    ensures (filtered ==> |t.filter.value| < WORD) ==> Answers(old(builder.Entries()), k, r)
  {
    hide TableBuilder.Valid, PartsOk, SeparatorsOk, Lookups, Joined, FilterOk, FilteredExactly, TableOk;
    t, parts := builder.Finish();
    HasFilter(t, parts, builder.filter.policy);
    r := None;
    if !filtered || |t.filter.value| < WORD {
      var block;
      r, block := InternalGet(if filtered then t else t.(filter := None), k, parts);
      forall e ensures Holds(parts, e) <==> e in Joined(parts) {
        HoldsJoined(parts, e);
      }
    }
  }

  lemma HasFilter(t: Table, parts: seq<seq<TableEntry>>, policy: Policy)
    requires FilteredExactly(t, parts, policy)
    ensures t.filter.Some?
  {
  }

  /** Any ascending list of entries, made into a table of blocks of any size: every lookup delivers a version of
      its user key exactly when the list has one it may see, and then the newest. */
  method BuildAndGet(es: seq<TableEntry>, blockSize: nat, sizeOf: seq<TableEntry> -> nat, policy: Policy, filtered: bool,
                     k: InternalKey) returns (t: Table, ghost parts: seq<seq<TableEntry>>, r: Option<TableEntry>)
    requires Ascends(es) && 1 <= policy.probes <= 30
    ensures FilteredExactly(t, parts, policy) && Joined(parts) == es
    ensures (filtered ==> |t.filter.value| < WORD) ==> Answers(es, k, r)
  {
    hide TableBuilder.Valid, TableBuilder.Entries, Answers, KeyLess, FilteredExactly;
    var builder := new TableBuilder(blockSize, sizeOf, policy);
    for i := 0 to |es|
      invariant builder.Valid() && fresh(builder) && fresh(builder.filter) && builder.Entries() == es[..i]
      invariant builder.filter.policy == policy
    {
      LastAdded(builder, es[..i]);
      builder.Add(es[i].key, es[i].value);
    }
    assert es[..|es|] == es;
    t, parts, r := FinishAndGet(builder, filtered, k);
  }

  lemma LastAdded(builder: TableBuilder, es: seq<TableEntry>)
    requires builder.Valid() && builder.Entries() == es
    ensures builder.lastKey.Some? ==> es != [] && builder.lastKey.value == es[|es| - 1].key
  {
    hide Indexed, WrittenOk, Filtered, Sourced, FilterBlockBuilder.Valid;
    var parts := WithOpen(builder.written.parts, builder.dataBlock);
    if builder.dataBlock == [] && parts != [] {
      assert Joined(parts) == Joined(parts[..|parts| - 1]) + parts[|parts| - 1];
      assert parts[|parts| - 1] != [];
      assert es == Joined(parts);
    }
  }

  lemma WaitingHasLast(index: seq<IndexEntry>, w: Written, block: seq<TableEntry>, waiting: bool, pendingOffset: nat,
      lastKey: Option<InternalKey>)
    requires ShapeOk(index, w, block, waiting, pendingOffset, lastKey)
    ensures waiting ==> lastKey.Some?
  {
  }

  /** One more entry, with the separator that waited for it. */
  lemma ShapeGrows(index: seq<IndexEntry>, w: Written, block: seq<TableEntry>, waiting: bool, pendingOffset: nat,
      lastKey: Option<InternalKey>, e: TableEntry, grown: seq<IndexEntry>)
    requires ShapeOk(index, w, block, waiting, pendingOffset, lastKey)
    requires lastKey.Some? ==> KeyLess(lastKey.value, e.key)
    requires waiting ==> lastKey.Some? && |grown| == |index| + 1 && grown[..|index|] == index
                         && grown[|index|].offset == pendingOffset
    requires waiting ==> Separates(lastKey.value, grown[|index|].separator, e.key)
    requires !waiting ==> grown == index
    ensures ShapeOk(grown, w, block + [e], false, pendingOffset, Some(e.key))
  {
    hide PartsOk, KeyLess, BytesLess;
    PartsGrow(w.parts, block, e);
    IndexedGrows(index, w, waiting, block, e, grown);
  }

  lemma PartsGrow(parts: seq<seq<TableEntry>>, block: seq<TableEntry>, e: TableEntry)
    requires PartsOk(WithOpen(parts, block))
    requires var all := WithOpen(parts, block); all != [] ==> KeyLess(Last(all[|all| - 1]), e.key)
    ensures PartsOk(WithOpen(parts, block + [e]))
  {
    var all, grown, n := WithOpen(parts, block), WithOpen(parts, block + [e]), |parts|;
    assert grown == parts + [block + [e]];
    forall i | 0 <= i < n ensures all[i] == parts[i] == grown[i] {
    }
    forall i | 0 <= i < |block| ensures KeyLess(block[i].key, e.key) {
      assert Last(all[n]) == block[|block| - 1].key;
      KeyLessOrders(block[i].key, block[|block| - 1].key, e.key);
    }
    forall i | 0 <= i < n ensures KeyLess(Last(parts[i]), First(grown[n])) {
      if block != [] {
        assert First(grown[n]) == First(all[n]);
      } else if i < n - 1 {
        InBlock(parts[n - 1], 0, |parts[n - 1]| - 1);
        KeyLessOrders(Last(parts[i]), First(parts[n - 1]), Last(parts[n - 1]));
        KeyLessOrders(First(parts[n - 1]), Last(parts[n - 1]), e.key);
        KeyLessOrders(Last(parts[i]), Last(parts[n - 1]), e.key);
      }
    }
  }

  /** A separator that waited for the key after its block is now settled. */
  lemma IndexedGrows(index: seq<IndexEntry>, w: Written, waiting: bool, block: seq<TableEntry>, e: TableEntry,
      grown: seq<IndexEntry>)
    requires Indexed(index, w, waiting, WithOpen(w.parts, block))
    requires waiting ==> block == [] && |grown| == |index| + 1 && grown[..|index|] == index
                         && grown[|index|].offset == w.offsets[|index|]
    requires waiting ==> Separates(Last(w.parts[|index|]), grown[|index|].separator, e.key)
    requires !waiting ==> grown == index && (w.parts != [] ==> block != [])
    ensures Indexed(grown, w, false, WithOpen(w.parts, block + [e]))
  {
    var all, parts := WithOpen(w.parts, block), WithOpen(w.parts, block + [e]);
    assert parts == w.parts + [block + [e]];
    forall i | 0 <= i < |parts| ensures parts[i] != [] {
      assert i < |w.parts| ==> all[i] == w.parts[i];
    }
    forall i | 0 <= i < |grown| ensures grown[i].offset == w.offsets[i] && SeparatorOk(grown, parts, i) {
      assert parts[i] == w.parts[i] == all[i];
      if i < |index| {
        assert waiting ==> grown[..|index|][i] == index[i];
        assert SeparatorOk(index, all, i);
        assert i + 1 < |all| && First(all[i + 1]) == First(parts[i + 1]);
      }
    }
  }

  lemma FilteredGrows(w: Written, groups: seq<seq<Bytes>>, pending: seq<Bytes>, key: Bytes)
    requires Filtered(w, groups, pending)
    ensures Filtered(w, groups, pending + [key])
  {
    forall i, j | 0 <= i < |w.parts| && 0 <= j < |w.parts[i]|
      ensures InGroup(groups, pending + [key], w.offsets[i], w.parts[i][j].key)
    {
      assert InGroup(groups, pending, w.offsets[i], w.parts[i][j].key);
    }
  }

  /** Writing a block leaves the shape, with its separator waiting. */
  lemma FlushShape(index: seq<IndexEntry>, w: Written, block: seq<TableEntry>, waiting: bool, pendingOffset: nat,
      lastKey: Option<InternalKey>, offset: nat)
    requires ShapeOk(index, w, block, waiting, pendingOffset, lastKey) && block != []
    ensures !waiting && |w.offsets| == |w.parts| && Indexed(index, w, false, WithOpen(w.parts, block))
    ensures ShapeOk(index, Written(w.parts + [block], w.offsets + [offset]), [], true, offset, lastKey)
  {
    hide PartsOk, SeparatorOk;
    assert WithOpen(w.parts + [block], []) == WithOpen(w.parts, block);
  }

  lemma JoinedGrows(parts: seq<seq<TableEntry>>, block: seq<TableEntry>)
    ensures Joined(parts + [block]) + [] == Joined(parts) + block
  {
    assert (parts + [block])[..|parts|] == parts;
  }

  /** The open block becomes the last of the written ones; nothing else moves. */
  lemma BlockWritten(index: seq<IndexEntry>, w: Written, blocks: map<nat, seq<TableEntry>>, block: seq<TableEntry>, offset: nat,
      size: nat, groups: seq<seq<Bytes>>, pending: seq<Bytes>)
    requires block != [] && size > 0 && WrittenOk(w, blocks, offset) && |groups| == offset / FILTER_BASE
    requires Indexed(index, w, false, WithOpen(w.parts, block)) && Filtered(w, groups, pending)
    requires forall j :: 0 <= j < |block| ==> EncodeKey(block[j].key) in pending
    ensures var w' := Written(w.parts + [block], w.offsets + [offset]);
            && WithOpen(w'.parts, []) == WithOpen(w.parts, block)
            && WrittenOk(w', blocks[offset := block], offset + size)
            && Indexed(index, w', true, WithOpen(w'.parts, []))
            && Filtered(w', groups, pending)
            && forall i :: 0 <= i < |w'.offsets| ==> w'.offsets[i] <= offset
  {
    var w' := Written(w.parts + [block], w.offsets + [offset]);
    forall i, j | 0 <= i < |w'.parts| && 0 <= j < |w'.parts[i]|
      ensures InGroup(groups, pending, w'.offsets[i], w'.parts[i][j].key)
    {
      if i < |w.parts| {
        assert InGroup(groups, pending, w.offsets[i], w.parts[i][j].key);
      }
    }
  }

  lemma OffsetGroups(a: nat, b: nat)
    requires a <= b
    ensures a / FILTER_BASE <= b / FILTER_BASE
  {
  }

  /** Making filters moves the waiting keys to the group they were waiting for. */
  lemma GroupsKept(w: Written, last: nat, groups: seq<seq<Bytes>>, pending: seq<Bytes>, groups': seq<seq<Bytes>>, pending': seq<Bytes>)
    requires Filtered(w, groups, pending) && |groups| == last / FILTER_BASE
    requires forall i :: 0 <= i < |w.offsets| ==> w.offsets[i] <= last
    requires (groups' == groups && pending' == pending)
             || (|groups'| > |groups| && groups'[..|groups| + 1] == groups + [pending])
    ensures Filtered(w, groups', pending')
  {
    forall i, j | 0 <= i < |w.parts| && 0 <= j < |w.parts[i]|
      ensures InGroup(groups', pending', w.offsets[i], w.parts[i][j].key)
    {
      assert InGroup(groups, pending, w.offsets[i], w.parts[i][j].key);
      OffsetGroups(w.offsets[i], last);
      var g := w.offsets[i] / FILTER_BASE;
      assert groups' != groups ==> groups'[..|groups| + 1][g] == (groups + [pending])[g];
    }
  }
}
