/** Filters for the data blocks of a table: one for every 2 KB of file offsets. */
module FilterBlock {
  import opened Coding
  import opened Comparators
  import opened Bloom
  import opened BlockFormat
  import opened BlockIter

  const FILTER_BASE_LG: Byte := 11
  const FILTER_BASE := 2048

  function Concat(keys: seq<Bytes>): Bytes {
    if keys == [] then [] else Concat(keys[..|keys| - 1]) + keys[|keys| - 1]
  }

  /** How filters are made: bits for each key, and probes. */
  datatype Policy = Policy(bitsPerKey: nat, probes: nat)

  predicate KeysOk(group: seq<Bytes>) {
    forall i :: 0 <= i < |group| ==> |group[i]| >= 8
  }

  ghost function UserKeysOf(group: seq<Bytes>): (r: seq<Bytes>)
    requires KeysOk(group)
    ensures |r| == |group| && forall i :: 0 <= i < |group| ==> r[i] == ExtractUserKey(group[i])
  {
    seq(|group|, i requires 0 <= i < |group| => ExtractUserKey(group[i]))
  }

  /** The filter of a group of keys; without keys there is none. */
  ghost predicate IsGroupFilter(filter: Bytes, group: seq<Bytes>, policy: Policy) {
    && KeysOk(group)
    && if group == [] then filter == [] else IsFilter(UserKeysOf(group), policy.bitsPerKey, policy.probes, filter)
  }

  ghost function EndOf(offsets: seq<nat>, end: nat, i: nat): nat
    requires i < |offsets|
  {
    if i + 1 < |offsets| then offsets[i + 1] else end
  }

  ghost predicate FiltersOk(filters: Bytes, offsets: seq<nat>, groups: seq<seq<Bytes>>, policy: Policy) {
    && |offsets| == |groups|
    && forall i :: 0 <= i < |groups| ==> FilterAt(filters, offsets, groups, policy, i)
  }

  ghost predicate FilterAt(filters: Bytes, offsets: seq<nat>, groups: seq<seq<Bytes>>, policy: Policy, i: nat)
    requires i < |offsets| == |groups|
  {
    && offsets[i] <= EndOf(offsets, |filters|, i) <= |filters|
    && IsGroupFilter(filters[offsets[i]..EndOf(offsets, |filters|, i)], groups[i], policy)
  }

  /** A finished filter block. */
  ghost predicate IsFilterBlock(contents: Bytes, groups: seq<seq<Bytes>>, policy: Policy) {
    exists filters, offsets ::
      FiltersOk(filters, offsets, groups, policy) && contents == Assembled(filters, offsets)
  }

  ghost function Assembled(filters: Bytes, offsets: seq<nat>): Bytes {
    filters + RestartArray(offsets) + Fixed(|filters|, 4) + [FILTER_BASE_LG]
  }

  // ---------------------------------------------------------------------------------------------
  // Reading

  /** Whether the filter for the block at this offset may match; anything out of range may. */
  ghost predicate FilterMatches(contents: Bytes, blockOffset: nat, key: Bytes)
    requires |key| >= 8
  {
    var n := |contents|;
    n >= 5 ==>
      var last := DecodeFixed32(contents[n - 5..n - 1]);
      last <= n - 5 ==>
        var num, index := (n - 5 - last) / 4, blockOffset / Power(2, contents[n - 1]);
        index < num ==> FilterNumber(contents, last, index, key)
  }

  ghost predicate FilterNumber(contents: Bytes, last: nat, index: nat, key: Bytes)
    requires last + 4 * index + 8 <= |contents| && |key| >= 8
  {
    var from := DecodeFixed32(contents[last + 4 * index..last + 4 * index + 4]);
    var limit := DecodeFixed32(contents[last + 4 * index + 4..last + 4 * index + 8]);
    if from <= limit && limit <= last then MayMatch(ExtractUserKey(key), contents[from..limit]) else from != limit
  }

  method ReadFilter(contents: Bytes, blockOffset: nat, key: Bytes) returns (may: bool)
    requires |key| >= 8
    ensures may == FilterMatches(contents, blockOffset, key)
  {
    hide DecodeFixed32, MayMatch, Power;
    var n := |contents|;
    if n < 5 {
      return true;
    }
    var baseLg := contents[n - 1];
    var lastWord := DecodeFixed32(contents[n - 5..n - 1]);
    if lastWord > n - 5 {
      return true;
    }
    var num := (n - 5 - lastWord) / 4;
    var index := blockOffset / Power(2, baseLg);
    if index < num {
      var at := lastWord + 4 * index;
      var from := DecodeFixed32(contents[at..at + 4]);
      var limit := DecodeFixed32(contents[at + 4..at + 8]);
      if from <= limit && limit <= lastWord {
        may := KeyMayMatch(ExtractUserKey(key), contents[from..limit]);
        return;
      } else if from == limit {
        return false;
      }
    }
    may := true;
  }

  /** The offsets of a filter, as a block stores them. */
  ghost predicate Stored(contents: Bytes, index: nat, from: nat, limit: nat) {
    && |contents| >= 5
    && var last := DecodeFixed32(contents[|contents| - 5..|contents| - 1]);
       var at := last + 4 * index;
       && at + 9 <= |contents|
       && from == DecodeFixed32(contents[at..at + 4]) && limit == DecodeFixed32(contents[at + 4..at + 8])
  }

  /** On any bytes, what turns a key away is a filter that is stored for its block and does not match, or is empty;
      whatever is out of range lets it through. */
  lemma OnlyFiltersTurnAway(contents: Bytes, blockOffset: nat, key: Bytes) returns (from: nat, limit: nat)
    requires |key| >= 8 && !FilterMatches(contents, blockOffset, key)
    ensures |contents| >= 5 && Stored(contents, blockOffset / Power(2, contents[|contents| - 1]), from, limit)
    ensures from == limit || (from <= limit <= |contents| - 5 && !MayMatch(ExtractUserKey(key), contents[from..limit]))
  {
    hide DecodeFixed32, MayMatch, Power;
    var n := |contents|;
    var last := DecodeFixed32(contents[n - 5..n - 1]);
    var at := last + 4 * (blockOffset / Power(2, contents[n - 1]));
    from, limit := DecodeFixed32(contents[at..at + 4]), DecodeFixed32(contents[at + 4..at + 8]);
  }

  /** Each probe of a user key is one of some key of the group. */
  ghost predicate GroupMatches(group: seq<Bytes>, policy: Policy, user: Bytes)
    requires KeysOk(group)
  {
    && group != []
    && var bits := 8 * FilterBytes(|group|, policy.bitsPerKey);
       forall j :: 0 <= j < policy.probes ==> Touched(UserKeysOf(group), policy.probes, bits, Probe(Hash(user), j, bits))
  }

  /** What a filter block says of any key: behind its groups nothing is turned away; within them a key is let
      through if and only if each of its probes is one of some key of the group that its block belongs to. */
  lemma FilterBlockExact(contents: Bytes, groups: seq<seq<Bytes>>, policy: Policy, blockOffset: nat, key: Bytes)
    requires IsFilterBlock(contents, groups, policy) && |contents| < WORD && 1 <= policy.probes <= 30 && |key| >= 8
    ensures var g := blockOffset / FILTER_BASE;
            FilterMatches(contents, blockOffset, key)
            <==> (g < |groups| ==> KeysOk(groups[g]) && GroupMatches(groups[g], policy, ExtractUserKey(key)))
  {
    hide DecodeFixed32, MayMatch, Fixed, GroupMatches, FilterNumber, IsGroupFilter, FilterAt;
    var filters, offsets :| FiltersOk(filters, offsets, groups, policy) && contents == Assembled(filters, offsets);
    FilterParts(filters, offsets);
    assert Power(2, 11) == FILTER_BASE by { assert Power(2, 5) == 32; }
    Fixed32RoundTrip(|filters|);
    if blockOffset / FILTER_BASE < |groups| {
      var g: nat := blockOffset / FILTER_BASE;
      assert FilterAt(filters, offsets, groups, policy, g);
      NumberExact(filters, offsets, groups, policy, g, key);
    }
  }

  lemma NumberExact(filters: Bytes, offsets: seq<nat>, groups: seq<seq<Bytes>>, policy: Policy, g: nat, key: Bytes)
    requires |offsets| == |groups| && g < |groups| && FilterAt(filters, offsets, groups, policy, g)
    requires |Assembled(filters, offsets)| < WORD && 1 <= policy.probes <= 30 && |key| >= 8
    ensures |filters| + 4 * g + 8 <= |Assembled(filters, offsets)| && KeysOk(groups[g])
    ensures FilterNumber(Assembled(filters, offsets), |filters|, g, key) <==> GroupMatches(groups[g], policy, ExtractUserKey(key))
  {
    hide DecodeFixed32, MayMatch, Fixed, GroupMatches;
    var contents := Assembled(filters, offsets);
    FilterParts(filters, offsets);
    var from: nat, end: nat := offsets[g], EndOf(offsets, |filters|, g);
    Fixed32RoundTrip(from);
    Fixed32RoundTrip(end);
    StoredOffsets(filters, offsets, g);
    assert contents[from..end] == filters[from..end];
    GroupExact(filters[from..end], groups[g], policy, ExtractUserKey(key));
  }

  lemma GroupExact(filter: Bytes, group: seq<Bytes>, policy: Policy, user: Bytes)
    requires IsGroupFilter(filter, group, policy) && 1 <= policy.probes <= 30
    ensures MayMatch(user, filter) <==> GroupMatches(group, policy, user)
  {
    hide IsFilter;
    if group != [] {
      FilterExact(UserKeysOf(group), policy.bitsPerKey, policy.probes, filter, user);
    }
  }

  /** The reader never turns away a key of the group that its block belongs to. */
  lemma FilterHasItsKeys(contents: Bytes, groups: seq<seq<Bytes>>, policy: Policy, blockOffset: nat, i: nat)
    requires IsFilterBlock(contents, groups, policy) && |contents| < WORD
    requires 1 <= policy.probes <= 30 && blockOffset / FILTER_BASE < |groups|
    requires i < |groups[blockOffset / FILTER_BASE]|
    ensures var key := groups[blockOffset / FILTER_BASE][i];
            |key| >= 8 && FilterMatches(contents, blockOffset, key)
  {
    hide FilterMatches, MayMatch, IsFilter, Assembled;
    var g: nat := blockOffset / FILTER_BASE;
    var filters, offsets :| FiltersOk(filters, offsets, groups, policy) && contents == Assembled(filters, offsets);
    assert FilterAt(filters, offsets, groups, policy, g);
    var filter := filters[offsets[g]..EndOf(offsets, |filters|, g)];
    FilterBlockExact(contents, groups, policy, blockOffset, groups[g][i]);
    NoFalseNegatives(UserKeysOf(groups[g]), policy.bitsPerKey, policy.probes, filter, i);
    GroupExact(filter, groups[g], policy, ExtractUserKey(groups[g][i]));
  }

  lemma FilterParts(filters: Bytes, offsets: seq<nat>)
    ensures var contents := Assembled(filters, offsets);
            var n := |contents|;
            && n == |filters| + 4 * |offsets| + 5
            && contents[..|filters|] == filters
            && contents[n - 5..n - 1] == Fixed(|filters|, 4) && contents[n - 1] == FILTER_BASE_LG
  {
    hide Fixed, RestartArray;
  }

  /** The word for a filter and the word after it say where the filter starts and ends. */
  lemma StoredOffsets(filters: Bytes, offsets: seq<nat>, g: nat)
    requires g < |offsets|
    ensures var contents, at := Assembled(filters, offsets), |filters| + 4 * g;
            && at + 8 <= |contents|
            && contents[at..at + 4] == Fixed(offsets[g], 4)
            && contents[at + 4..at + 8] == Fixed(EndOf(offsets, |filters|, g), 4)
  {
    hide Fixed, RestartArray;
    var contents, stored, at := Assembled(filters, offsets), RestartArray(offsets), |filters| + 4 * g;
    var tail := Fixed(|filters|, 4) + [FILTER_BASE_LG];
    assert contents == filters + (stored + tail);
    assert contents[|filters|..] == stored + tail;
    StoredAt(contents, |filters|, offsets, tail, g);
    if g + 1 < |offsets| {
      StoredAt(contents, |filters|, offsets, tail, g + 1);
    } else {
      assert at + 4 == |filters| + |stored|;
      assert contents[at + 4..at + 8] == Fixed(|filters|, 4);
    }
  }

  class FilterBlockBuilder {
    const policy: Policy
    var keys: Bytes
    var start: seq<nat>
    var result: Bytes
    var filterOffsets: seq<nat>
    /** The keys of each filter made so far, and those of the next one. */
    ghost var groups: seq<seq<Bytes>>
    ghost var pending: seq<Bytes>

    ghost predicate Valid()
      reads this
    {
      && 1 <= policy.probes <= 30
      && keys == Concat(pending) && |start| == |pending|
      && (forall i :: 0 <= i < |start| ==> start[i] == |Concat(pending[..i])|)
      && (forall i :: 0 <= i < |pending| ==> |pending[i]| >= 8)
      && FiltersOk(result, filterOffsets, groups, policy)
    }

    constructor (policy: Policy)
      requires 1 <= policy.probes <= 30
      ensures Valid() && groups == [] && pending == [] && this.policy == policy
    {
      this.policy := policy;
      keys, start, result, filterOffsets, groups, pending := [], [], [], [], [], [];
    }

    /** Filters up to the one that the block at this offset uses. */
    method StartBlock(blockOffset: nat)
      requires Valid() && |groups| <= blockOffset / FILTER_BASE
      modifies this
      ensures Valid() && |groups| == blockOffset / FILTER_BASE
      ensures if |old(groups)| == blockOffset / FILTER_BASE then groups == old(groups) && pending == old(pending)
              else groups[..|old(groups)| + 1] == old(groups) + [old(pending)] && pending == []
      ensures forall i :: |old(groups)| < i < |groups| ==> groups[i] == []
    {
      var filterIndex := blockOffset / FILTER_BASE;
      while filterIndex > |filterOffsets|
        invariant Valid() && |old(groups)| <= |groups| <= filterIndex
        invariant if groups == old(groups) then pending == old(pending)
                  else |groups| > |old(groups)| && groups[..|old(groups)| + 1] == old(groups) + [old(pending)] && pending == []
        invariant forall i :: |old(groups)| < i < |groups| ==> groups[i] == []
        decreases filterIndex - |filterOffsets|
      {
        hide FilterAt;
        GenerateFilter();
      }
    }

    method AddKey(key: Bytes)
      requires Valid() && |key| >= 8
      modifies this
      ensures Valid() && pending == old(pending) + [key] && groups == old(groups)
    {
      start := start + [|keys|];
      keys := keys + key;
      ghost var was := pending;
      pending := pending + [key];
      assert pending[..|was|] == was;
      forall i | 0 <= i < |start| ensures start[i] == |Concat(pending[..i])| {
        assert pending[..i] == was[..i];
      }
    }

    /** Make a filter of the keys gathered; without keys it is empty. */
    method GenerateFilter()
      requires Valid()
      modifies this
      ensures Valid() && groups == old(groups) + [old(pending)] && pending == []
      ensures |filterOffsets| == |old(filterOffsets)| + 1
    {
      hide FiltersOk, IsFilter;
      ghost var was, offsets := result, filterOffsets;
      if |start| == 0 {
        filterOffsets := filterOffsets + [|result|];
      } else {
        var userKeys := UserKeys();
        filterOffsets := filterOffsets + [|result|];
        var filter := CreateFilter(userKeys, policy.bitsPerKey, policy.probes);
        result := result + filter;
        assert result[|was|..] == filter && userKeys == UserKeysOf(pending);
      }
      AnotherFilter(was, offsets, groups, policy, result, pending);
      groups := groups + [pending];
      keys, start, pending := [], [], [];
    }

    /** The filters, their offsets, where the offsets start, and the base of the grouping. */
    method Finish() returns (contents: Bytes)
      requires Valid()
      modifies this
      ensures groups == (if old(pending) == [] then old(groups) else old(groups) + [old(pending)]) && 1 <= policy.probes <= 30
      ensures IsFilterBlock(contents, groups, policy)
    {
      if |start| > 0 {
        GenerateFilter();
      }
      hide FiltersOk;
      ghost var filters := result;
      var arrayOffset := |result|;
      ghost var offsets, made := filterOffsets, groups;
      for i := 0 to |filterOffsets|
        invariant filterOffsets == offsets && groups == made
        invariant result == filters + RestartArray(filterOffsets[..i])
      {
        assert filterOffsets[..i + 1][..i] == filterOffsets[..i];
        result := result + Fixed(filterOffsets[i], 4);
      }
      assert filterOffsets[..|filterOffsets|] == filterOffsets;
      result := result + Fixed(arrayOffset, 4);
      result := result + [FILTER_BASE_LG];
      contents := result;
      assert FiltersOk(filters, filterOffsets, groups, policy) && contents == Assembled(filters, filterOffsets);
    }

    /** The keys cut out of the flattened buffer, without their trailers. */
    method UserKeys() returns (userKeys: seq<Bytes>)
      requires Valid()
      ensures |userKeys| == |pending|
      ensures forall i :: 0 <= i < |pending| ==> userKeys[i] == ExtractUserKey(pending[i])
    {
      hide FiltersOk;
      userKeys := [];
      var starts := start + [|keys|];
      for i := 0 to |start|
        invariant |userKeys| == i && forall m :: 0 <= m < i ==> userKeys[m] == ExtractUserKey(pending[m])
      {
        CutOut(pending, i);
        assert pending[..|pending|] == pending;
        var key := keys[starts[i]..starts[i + 1]];
        userKeys := userKeys + [ExtractUserKey(key)];
      }
    }
  }

  /** A key lies in the flattened buffer between the lengths before and after it. */
  lemma {:induction false} CutOut(keys: seq<Bytes>, i: nat)
    requires i < |keys|
    ensures |Concat(keys[..i])| <= |Concat(keys[..i + 1])| <= |Concat(keys)|
    ensures Concat(keys)[|Concat(keys[..i])|..|Concat(keys[..i + 1])|] == keys[i]
  {
    assert keys[..i + 1][..i] == keys[..i];
    var last := |keys| - 1;
    if i == last {
      assert keys[..i + 1] == keys;
    } else {
      CutOut(keys[..last], i);
      assert keys[..last][..i] == keys[..i] && keys[..last][..i + 1] == keys[..i + 1];
    }
  }

  lemma AnotherFilter(was: Bytes, offsets: seq<nat>, groups: seq<seq<Bytes>>, policy: Policy, now: Bytes, group: seq<Bytes>)
    requires FiltersOk(was, offsets, groups, policy) && was <= now && IsGroupFilter(now[|was|..], group, policy)
    ensures FiltersOk(now, offsets + [|was|], groups + [group], policy)
  {
    hide IsGroupFilter;
    var offsets', groups' := offsets + [|was|], groups + [group];
    forall i | 0 <= i < |groups'| ensures FilterAt(now, offsets', groups', policy, i) {
      if i < |groups| {
        assert FilterAt(was, offsets, groups, policy, i);
        assert EndOf(offsets', |now|, i) == EndOf(offsets, |was|, i);
        assert now[offsets[i]..EndOf(offsets, |was|, i)] == was[offsets[i]..EndOf(offsets, |was|, i)];
      } else {
        assert now[|was|..|now|] == now[|was|..];
      }
    }
  }
}
