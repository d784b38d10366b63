/** One shard of the block cache: a hash table, reference counts, and two lists ordered by use. */
module LruCache {
  import opened Format
  import opened HandleTable

  /** A live entry: the references that clients hold, and one more while it is in the cache. */
  datatype Cached = Cached(handle: Handle, charge: nat, refs: nat, inCache: bool)

  ghost predicate NoDuplicates(ids: seq<nat>) {
    forall i, j :: 0 <= i < j < |ids| ==> ids[i] != ids[j]
  }

  function Without(ids: seq<nat>, id: nat): seq<nat> {
    if ids == [] then [] else if ids[0] == id then ids[1..] else [ids[0]] + Without(ids[1..], id)
  }

  lemma WithoutIs(ids: seq<nat>, id: nat)
    requires NoDuplicates(ids)
    ensures NoDuplicates(Without(ids, id))
    ensures forall x :: x in Without(ids, id) <==> x in ids && x != id
  {
    WithoutUnique(ids, id);
    forall x ensures x in Without(ids, id) <==> x in ids && x != id {
      InWithout(ids, id, x);
    }
  }

  lemma {:induction false} InWithout(ids: seq<nat>, id: nat, x: nat)
    requires NoDuplicates(ids)
    ensures x in Without(ids, id) <==> x in ids && x != id
  {
    if ids != [] {
      assert x in ids <==> x == ids[0] || x in ids[1..];
      if ids[0] == id {
        assert id !in ids[1..];
      } else {
        InWithout(ids[1..], id, x);
      }
    }
  }

  lemma {:induction false} WithoutUnique(ids: seq<nat>, id: nat)
    requires NoDuplicates(ids)
    ensures NoDuplicates(Without(ids, id))
  {
    if ids != [] && ids[0] != id {
      WithoutUnique(ids[1..], id);
      var rest := Without(ids[1..], id);
      forall i | 0 <= i < |rest| ensures rest[i] != ids[0] {
        InWithout(ids[1..], id, rest[i]);
        assert ids[0] !in ids[1..];
      }
    }
  }

  lemma {:induction false} WithoutAt(ids: seq<nat>, i: nat)
    requires i < |ids| && NoDuplicates(ids)
    ensures Without(ids, ids[i]) == ids[..i] + ids[i + 1..]
  {
    if i > 0 {
      WithoutAt(ids[1..], i - 1);
      assert ids[1..][i - 1] == ids[i] && ids[0] != ids[i];
      assert ids[..i] + ids[i + 1..] == [ids[0]] + (ids[1..][..i - 1] + ids[1..][i..]);
    }
  }

  /** In the order of the times at which the last client let go of them, all in the past. */
  ghost predicate ByAge(ids: seq<nat>, released: map<nat, nat>, clock: nat) {
    && (forall i :: 0 <= i < |ids| ==> ids[i] in released && released[ids[i]] < clock)
    && (forall i, j :: 0 <= i < j < |ids| ==> released[ids[i]] < released[ids[j]])
  }

  lemma ByAgeWithout(ids: seq<nat>, id: nat, released: map<nat, nat>, clock: nat)
    requires ByAge(ids, released, clock) && NoDuplicates(ids)
    ensures ByAge(Without(ids, id), released, clock)
  {
    hide Without, ByAge;
    if id in ids {
      var i :| 0 <= i < |ids| && ids[i] == id;
      WithoutAt(ids, i);
      ByAgeGap(ids, i, released, clock);
    } else {
      NothingWithout(ids, id);
    }
  }

  lemma ByAgeGap(ids: seq<nat>, i: nat, released: map<nat, nat>, clock: nat)
    requires ByAge(ids, released, clock) && i < |ids|
    ensures ByAge(ids[..i] + ids[i + 1..], released, clock)
  {
    var rest := ids[..i] + ids[i + 1..];
    assert forall k :: 0 <= k < |rest| ==> rest[k] == ids[if k < i then k else k + 1];
  }

  lemma ByAgeAppend(ids: seq<nat>, id: nat, released: map<nat, nat>, clock: nat)
    requires ByAge(ids, released, clock) && id !in ids
    ensures ByAge(ids + [id], released[id := clock], clock + 1)
  {
  }

  lemma OldestFirst(ids: seq<nat>, released: map<nat, nat>, clock: nat)
    requires ByAge(ids, released, clock) && ids != []
    ensures ids[0] in released && forall x :: x in ids[1..] ==> x in released && released[ids[0]] < released[x]
  {
    forall x | x in ids[1..] ensures x in released && released[ids[0]] < released[x] {
      var i :| 1 <= i < |ids| && ids[i] == x;
    }
  }

  lemma NewestLast(ids: seq<nat>, released: map<nat, nat>, clock: nat)
    requires ByAge(ids, released, clock) && ids != []
    ensures var last := ids[|ids| - 1];
            last in released && forall x :: x in ids && x != last ==> x in released && released[x] < released[last]
  {
    forall x | x in ids && x != ids[|ids| - 1] ensures x in released && released[x] < released[ids[|ids| - 1]] {
      var i :| 0 <= i < |ids| && ids[i] == x;
    }
  }

  /** The lists of a shard and its live entries. */
  datatype Lists = Lists(lru: seq<nat>, inUse: seq<nat>, handles: map<nat, Cached>)

  /** The total charge of some entries. */
  function Charge(handles: map<nat, Cached>, ids: seq<nat>): nat {
    if ids == [] then 0
    else (if ids[0] in handles then handles[ids[0]].charge else 0) + Charge(handles, ids[1..])
  }

  /** An entry of the cache is in one list, once: the first while only the cache refers to it. */
  ghost predicate ListsOk(s: Lists) {
    && NoDuplicates(s.lru) && NoDuplicates(s.inUse)
    && (forall id :: id in s.lru <==> id in s.handles && s.handles[id].inCache && s.handles[id].refs == 1)
    && (forall id :: id in s.inUse <==> id in s.handles && s.handles[id].inCache && s.handles[id].refs >= 2)
    && (forall id :: id in s.handles ==> s.handles[id].refs >= 1 && s.handles[id].handle.id == id)
  }

  ghost function Usage(s: Lists): nat {
    Charge(s.handles, s.lru) + Charge(s.handles, s.inUse)
  }

  // ---------------------------------------------------------------------------------------------
  // What each step does to the lists

  function Referred(s: Lists, id: nat): Lists
    requires id in s.handles
  {
    var e := s.handles[id];
    var more := s.handles[id := e.(refs := e.refs + 1)];
    if e.refs == 1 && e.inCache then Lists(Without(s.lru, id), s.inUse + [id], more) else s.(handles := more)
  }

  function Unreferred(s: Lists, id: nat): Lists
    requires id in s.handles && s.handles[id].refs >= 1
  {
    var e := s.handles[id];
    var less := s.handles[id := e.(refs := e.refs - 1)];
    if e.refs == 1 then s.(handles := s.handles - {id})
    else if e.inCache && e.refs == 2 then Lists(s.lru + [id], Without(s.inUse, id), less)
    else s.(handles := less)
  }

  /** Out of its list, and no longer in the cache. */
  function Uncached(s: Lists, id: nat): Lists
    requires id in s.handles
  {
    Lists(Without(s.lru, id), Without(s.inUse, id), s.handles[id := s.handles[id].(inCache := false)])
  }

  lemma ReferredOk(s: Lists, id: nat)
    requires ListsOk(s) && id in s.handles
    ensures ListsOk(Referred(s, id)) && Usage(Referred(s, id)) == Usage(s)
  {
    hide Charge, Without;
    WithoutIs(s.lru, id);
    ReferredUsage(s, id);
  }

  lemma ReferredUsage(s: Lists, id: nat)
    requires ListsOk(s) && id in s.handles
    ensures Usage(Referred(s, id)) == Usage(s)
  {
    hide Charge, Without;
    var t := Referred(s, id);
    SameCharge(s.handles, t.handles, s.lru);
    SameCharge(s.handles, t.handles, s.inUse);
    if s.handles[id].refs == 1 && s.handles[id].inCache {
      ChargeWithout(t.handles, s.lru, id);
      ChargeAppend(t.handles, s.inUse, id);
    }
  }

  /** Giving up a reference: not the last, or one to an entry that is not in the cache. */
  lemma UnreferredOk(s: Lists, id: nat)
    requires ListsOk(s) && id in s.handles && (s.handles[id].inCache ==> s.handles[id].refs >= 2)
    ensures ListsOk(Unreferred(s, id)) && Usage(Unreferred(s, id)) == Usage(s)
  {
    hide Charge, Without;
    WithoutIs(s.inUse, id);
    UnreferredUsage(s, id);
  }

  lemma UnreferredUsage(s: Lists, id: nat)
    requires ListsOk(s) && id in s.handles && (s.handles[id].inCache ==> s.handles[id].refs >= 2)
    ensures Usage(Unreferred(s, id)) == Usage(s)
  {
    hide Charge, Without;
    var t := Unreferred(s, id);
    SameCharge(s.handles, t.handles, s.lru);
    SameCharge(s.handles, t.handles, s.inUse);
    if s.handles[id].inCache && s.handles[id].refs == 2 {
      ChargeWithout(t.handles, s.inUse, id);
      ChargeAppend(t.handles, s.lru, id);
    }
  }

  /** A reference taken and given up again leaves everything as it was, but that an entry nobody else uses is now
      the newest to be evicted. */
  lemma ReleaseUndoesLookup(s: Lists, id: nat)
    requires ListsOk(s) && id in s.handles
    ensures var t := Referred(s, id);
            && id in t.handles && Pins(t.handles[id]) == Pins(s.handles[id]) + 1
            && var u := Unreferred(t, id);
               && u.handles == s.handles
               && if id in s.lru then u.lru == Without(s.lru, id) + [id] && u.inUse == s.inUse else u.lru == s.lru && u.inUse == s.inUse
  {
    hide Without, NoDuplicates;
    var e := s.handles[id];
    assert s.handles[id := e.(refs := e.refs + 1)][id := e] == s.handles;
    if e.refs == 1 && e.inCache {
      WithoutLast(s.inUse, id);
    }
  }

  lemma {:induction false} WithoutLast(ids: seq<nat>, id: nat)
    requires id !in ids
    ensures Without(ids + [id], id) == ids
  {
    if ids != [] {
      WithoutLast(ids[1..], id);
      assert (ids + [id])[1..] == ids[1..] + [id];
    }
  }

  lemma UncachedOk(s: Lists, id: nat)
    requires ListsOk(s) && id in s.handles && s.handles[id].inCache
    ensures ListsOk(Uncached(s, id)) && Usage(Uncached(s, id)) == Usage(s) - s.handles[id].charge
  {
    var t := Uncached(s, id);
    WithoutIs(s.lru, id);
    WithoutIs(s.inUse, id);
    SameCharge(s.handles, t.handles, s.lru);
    SameCharge(s.handles, t.handles, s.inUse);
    if s.handles[id].refs == 1 {
      ChargeWithout(t.handles, s.lru, id);
      NothingWithout(s.inUse, id);
    } else {
      ChargeWithout(t.handles, s.inUse, id);
      NothingWithout(s.lru, id);
    }
  }

  lemma {:induction false} NothingWithout(ids: seq<nat>, id: nat)
    requires id !in ids
    ensures Without(ids, id) == ids
  {
    if ids != [] {
      NothingWithout(ids[1..], id);
    }
  }

  /** Charges do not change while an entry lives, and the dead ones are in no list. */
  lemma {:induction false} SameCharge(a: map<nat, Cached>, b: map<nat, Cached>, ids: seq<nat>)
    requires forall id :: id in ids ==> id in a && id in b && a[id].charge == b[id].charge
    ensures Charge(a, ids) == Charge(b, ids)
  {
    if ids != [] {
      SameCharge(a, b, ids[1..]);
    }
  }

  lemma {:induction false} ChargeWithout(handles: map<nat, Cached>, ids: seq<nat>, id: nat)
    requires id in ids && id in handles
    ensures Charge(handles, Without(ids, id)) + handles[id].charge == Charge(handles, ids)
  {
    if ids[0] != id {
      ChargeWithout(handles, ids[1..], id);
      assert ([ids[0]] + Without(ids[1..], id))[1..] == Without(ids[1..], id);
    }
  }

  lemma {:induction false} ChargeAppend(handles: map<nat, Cached>, ids: seq<nat>, id: nat)
    requires id in handles
    ensures Charge(handles, ids + [id]) == Charge(handles, ids) + handles[id].charge
  {
    if ids == [] {
      assert ids + [id] == [id];
    } else {
      ChargeAppend(handles, ids[1..], id);
      assert (ids + [id])[1..] == ids[1..] + [id];
    }
  }

  // ---------------------------------------------------------------------------------------------
  // The table and the record of deletions

  /** The table holds the entries that are in the cache, but for one that is on its way out. */
  ghost predicate TableOk(contents: map<Tag, Handle>, handles: map<nat, Cached>, leaving: Option<nat>) {
    && (forall t :: t in contents ==> InTable(contents[t], handles) && TagOf(contents[t]) == t && leaving != Some(contents[t].id))
    && (forall id :: id in handles && handles[id].inCache && leaving != Some(id) ==> Has(contents, handles[id].handle))
  }

  ghost predicate InTable(h: Handle, handles: map<nat, Cached>) {
    h.id in handles && handles[h.id].handle == h && handles[h.id].inCache
  }

  /** The table would be right with the handle in it, once the entry it takes the place of has left. */
  ghost predicate Entering(contents: map<Tag, Handle>, handles: map<nat, Cached>, h: Handle) {
    var t := TagOf(h);
    && TableOk(contents[t := h], handles, if t in contents then Some(contents[t].id) else None)
    && (t in contents ==> InTable(contents[t], handles) && contents[t].id != h.id)
  }

  /** Every entry ever made is alive or was deleted, once. */
  ghost predicate LedgerOk(handles: map<nat, Cached>, deleted: seq<nat>, nextId: nat) {
    && NoDuplicates(deleted)
    && (forall id :: id in handles ==> id < nextId && id !in deleted)
    && (forall id :: id in deleted ==> id < nextId)
    && (forall id :: 0 <= id < nextId ==> id in handles || id in deleted)
  }

  /** The references that clients hold. */
  function Pins(e: Cached): int {
    e.refs - if e.inCache then 1 else 0
  }

  /** What admitting an entry does to the live ones: the one with its key leaves. */
  ghost predicate Admitted(before: map<nat, Cached>, contents: map<Tag, Handle>, after: map<nat, Cached>, id: nat, e: Cached) {
    var t := TagOf(e.handle);
    if e.inCache && t in contents then
      contents[t].id in before && before[contents[t].id].refs >= 1 && after == Dismissed(before, contents[t].id)[id := e]
    else after == before[id := e]
  }

  /** The live entries and the table without those that are gone. */
  ghost function Kept(handles: map<nat, Cached>, gone: seq<nat>): map<nat, Cached> {
    map id | id in handles && id !in gone :: handles[id]
  }

  ghost function KeptTags(contents: map<Tag, Handle>, gone: seq<nat>): map<Tag, Handle> {
    map t | t in contents && contents[t].id !in gone :: contents[t]
  }

  /** An entry that leaves the cache lives on while clients hold it. */
  ghost function Dismissed(handles: map<nat, Cached>, id: nat): map<nat, Cached>
    requires id in handles && handles[id].refs >= 1
  {
    if handles[id].refs == 1 then handles - {id} else handles[id := handles[id].(refs := handles[id].refs - 1, inCache := false)]
  }

  lemma KeptAll(handles: map<nat, Cached>, contents: map<Tag, Handle>)
    ensures Kept(handles, []) == handles && KeptTags(contents, []) == contents
  {
  }

  lemma OneMoreGone(handles: map<nat, Cached>, contents: map<Tag, Handle>, gone: seq<nat>, id: nat, tag: Tag)
    requires forall t :: t in KeptTags(contents, gone) ==> (KeptTags(contents, gone)[t].id == id <==> t == tag)
    ensures Kept(handles, gone) - {id} == Kept(handles, gone + [id])
    ensures KeptTags(contents, gone) - {tag} == KeptTags(contents, gone + [id])
  {
    assert forall x :: x in gone + [id] <==> x in gone || x == id;
  }

  /** In a valid table an entry has one tag. */
  lemma OneTag(contents: map<Tag, Handle>, handles: map<nat, Cached>, id: nat)
    requires TableOk(contents, handles, None) && id in handles
    ensures forall t :: t in contents ==> (contents[t].id == id ==> t == TagOf(handles[id].handle))
    ensures Has(contents, handles[id].handle) && handles[id].handle.id == id ==>
              forall t :: t in contents ==> (contents[t].id == id <==> t == TagOf(handles[id].handle))
  {
    assert forall t :: t in contents ==> InTable(contents[t], handles) && TagOf(contents[t]) == t;
  }

  class LRUCache {
    const table: HandleTable
    var capacity: nat
    var usage: nat
    /** Oldest first. */
    var lru: seq<nat>
    var inUse: seq<nat>
    var handles: map<nat, Cached>
    /** The entries passed to their deleter, in order. */
    var deleted: seq<nat>
    var nextId: nat
    /** When the last client let go of an entry. */
    ghost var released: map<nat, nat>
    ghost var clock: nat

    function State(): Lists
      reads this
    {
      Lists(lru, inUse, handles)
    }

    ghost predicate Inv(leaving: Option<nat>)
      reads this, table
    {
      && table.Valid() && TableOk(table.contents, handles, leaving)
      && ListsOk(State()) && usage == Usage(State())
      && LedgerOk(handles, deleted, nextId)
      && ByAge(lru, released, clock)
    }

    ghost predicate Valid()
      reads this, table
    {
      Inv(None)
    }

    constructor (capacity: nat)
      ensures Valid() && fresh(table) && table.contents == map[] && this.capacity == capacity && deleted == [] && handles == map[]
    {
      table := new HandleTable();
      this.capacity := capacity;
      usage, lru, inUse, handles, deleted, nextId := 0, [], [], map[], [], 0;
      released, clock := map[], 0;
    }

    method Ref(id: nat)
      requires Valid() && id in handles
      modifies `lru, `inUse, `handles
      ensures Valid() && State() == Referred(old(State()), id)
    {
      hide ListsOk, Usage, LedgerOk, TableOk, HandleTable.Valid, Without, ByAge;
      ReferredOk(State(), id);
      ReferredRecords(table.contents, State(), deleted, nextId, id);
      NoneTwice(State());
      ByAgeWithout(lru, id, released, clock);
      var e := handles[id];
      if e.refs == 1 && e.inCache {
        lru := Without(lru, id);
        inUse := inUse + [id];
      }
      handles := handles[id := e.(refs := e.refs + 1)];
    }

    /** Give up a reference; the last one deletes the entry. */
    method Unref(id: nat)
      requires Valid() && id in handles && (handles[id].inCache ==> handles[id].refs >= 2) && handles[id].refs >= 1
      modifies `lru, `inUse, `handles, `deleted, `released, `clock
      ensures Valid() && State() == Unreferred(old(State()), id)
      ensures deleted == old(deleted) + if old(handles)[id].refs == 1 then [id] else []
      ensures var e := old(handles)[id];
              if e.inCache && e.refs == 2 then released == old(released)[id := old(clock)] && clock == old(clock) + 1
              else released == old(released) && clock == old(clock)
    {
      hide ListsOk, Usage, LedgerOk, TableOk, HandleTable.Valid, Without, ByAge;
      UnreferredOk(State(), id);
      UnreferredRecords(table.contents, State(), deleted, nextId, id);
      assert deleted + [] == deleted;
      var e := handles[id];
      if e.refs == 1 {
        deleted := deleted + [id];
        handles := handles - {id};
      } else {
        handles := handles[id := e.(refs := e.refs - 1)];
        if e.inCache && e.refs == 2 {
          InUse(old(State()), id);
          ByAgeAppend(lru, id, released, clock);
          inUse := Without(inUse, id);
          lru := lru + [id];
          released, clock := released[id := clock], clock + 1;
        }
      }
    }

    /** An entry that has left the table leaves its list and loses the reference of the cache. */
    method FinishErase(id: nat)
      requires Inv(Some(id)) && id in handles && handles[id].inCache
      modifies `lru, `inUse, `handles, `deleted, `usage, `released, `clock
      ensures Valid() && State() == Erased(old(State()), id)
      ensures deleted == old(deleted) + if old(handles)[id].refs == 1 then [id] else []
      ensures released == old(released) && clock == old(clock)
    {
      hide ListsOk, Usage, LedgerOk, TableOk, HandleTable.Valid, Without, Unreferred, ByAge;
      NoneTwice(State());
      ByAgeWithout(lru, id, released, clock);
      UncachedOk(State(), id);
      UncachedRecords(table.contents, State(), deleted, nextId, id);
      lru, inUse := Without(lru, id), Without(inUse, id);
      usage := usage - handles[id].charge;
      handles := handles[id := handles[id].(inCache := false)];
      LiveRefs(State());
      Unref(id);
    }

    method Lookup(key: int, hash: nat) returns (r: Option<nat>)
      requires Valid()
      modifies `lru, `inUse, `handles
      ensures Valid()
      ensures Tag(key, hash) !in table.contents ==> r == None && State() == old(State())
      ensures Tag(key, hash) in table.contents ==>
                var id := table.contents[Tag(key, hash)].id;
                r == Some(id) && id in old(handles) && State() == Referred(old(State()), id)
    {
      hide ListsOk, Usage, LedgerOk, TableOk, HandleTable.Valid, Referred;
      var h := table.Lookup(key, hash);
      r := None;
      if h.Some? {
        FoundLives(table.contents, handles, Tag(key, hash));
        Ref(h.value.id);
        r := Some(h.value.id);
      }
    }

    /** A client gives up a reference it holds; an entry nobody uses any more is the newest to be evicted. */
    method Release(id: nat)
      requires Valid() && id in handles && Pins(handles[id]) > 0
      modifies `lru, `inUse, `handles, `deleted, `released, `clock
      ensures Valid() && State() == Unreferred(old(State()), id)
      ensures deleted == old(deleted) + if old(handles)[id].refs == 1 then [id] else []
      ensures var e := old(handles)[id];
              if e.inCache && e.refs == 2 then
                released == old(released)[id := old(clock)] && forall x :: x in lru && x != id ==> x in released && released[x] < released[id]
              else released == old(released)
    {
      hide ListsOk, Usage, LedgerOk, TableOk, HandleTable.Valid, Without, ByAge;
      Unref(id);
      if lru != [] {
        NewestLast(lru, released, clock);
      }
    }

    method Erase(key: int, hash: nat)
      requires Valid()
      modifies this, table
      ensures Valid() && table.contents == old(table.contents) - {Tag(key, hash)}
      ensures capacity == old(capacity) && nextId == old(nextId)
      ensures Tag(key, hash) !in old(table.contents) ==> State() == old(State()) && deleted == old(deleted)
      ensures Tag(key, hash) in old(table.contents) ==>
                var id := old(table.contents)[Tag(key, hash)].id;
                && id in old(handles) && State() == Erased(old(State()), id)
                && deleted == old(deleted) + if old(handles)[id].refs == 1 then [id] else []
      ensures released == old(released) && clock == old(clock)
    {
      hide ListsOk, Usage, LedgerOk, TableOk, HandleTable.Valid, Erased, ByAge;
      ghost var before := table.contents;
      var h := table.Remove(key, hash);
      if h.Some? {
        FoundLives(before, handles, Tag(key, hash));
        LiveRefs(State());
        TakenOut(before, handles, Tag(key, hash));
        FinishErase(h.value.id);
      } else {
        assert table.contents == before;
      }
    }

    /** Evict the entry that was out of use longest. */
    method EvictOldest()
      requires Valid() && lru != []
      modifies this, table
      ensures Valid() && lru == old(lru)[1..] && inUse == old(inUse)
      ensures old(lru)[0] in old(handles) && handles == old(handles) - {old(lru)[0]}
      ensures deleted == old(deleted) + [old(lru)[0]]
      ensures table.contents == old(table.contents) - {TagOf(old(handles)[old(lru)[0]].handle)}
      ensures usage + old(handles)[old(lru)[0]].charge == old(usage)
      ensures capacity == old(capacity) && nextId == old(nextId) && released == old(released) && clock == old(clock)
      ensures forall x :: x in lru ==> old(lru)[0] in released && x in released && released[old(lru)[0]] < released[x]
    {
      hide Usage, LedgerOk, TableOk, HandleTable.Valid, ListsOk, ByAge;
      var id := lru[0];
      OldestFirst(lru, released, clock);
      OldestFacts(table.contents, State());
      var h := handles[id].handle;
      ErasedOldest(State());
      ErasedUsage(State(), id);
      Erase(h.key, h.hash);
    }

    /** Make an entry, with a reference for the caller and one for the cache, and evict while too much is
        cached and something can go. `base` is the evictable list after a replaced entry has left it. */
    method Insert(key: int, hash: nat, charge: nat) returns (id: nat, ghost base: seq<nat>, ghost k: nat)
      requires Valid()
      modifies this, table
      ensures Valid() && id == old(nextId) && nextId == id + 1 && capacity == old(capacity)
      ensures id in handles && handles[id] == NewEntry(id, key, hash, charge, capacity)
      ensures capacity > 0 ==> Has(table.contents, Handle(id, key, hash))
      ensures usage <= capacity || lru == []
      ensures k <= |base| && lru == base[k..]
      ensures k > 0 ==> base[k - 1] in old(handles) && usage + old(handles)[base[k - 1]].charge > capacity
      ensures var t := Tag(key, hash);
              if capacity > 0 && t in old(table.contents) then
                var dup := old(table.contents)[t].id;
                && dup in old(handles) && base == Without(old(lru), dup)
                && deleted == old(deleted) + (if old(handles)[dup].refs == 1 then [dup] else []) + base[..k]
              else base == old(lru) && deleted == old(deleted) + base[..k]
      ensures exists live :: Admitted(old(handles), old(table.contents), live, id, handles[id]) && handles == Kept(live, base[..k])
      ensures table.contents
              == KeptTags(if capacity > 0 then old(table.contents)[Tag(key, hash) := Handle(id, key, hash)] else old(table.contents), base[..k])
    {
      hide Usage, LedgerOk, TableOk, HandleTable.Valid, ListsOk, Without, ByAge;
      id := Admit(key, hash, charge);
      base := lru;
      ghost var live := handles;
      k := MakeRoom(id);
      assert Admitted(old(handles), old(table.contents), live, id, handles[id]);
    }

    /** Put a new entry in, in the place of the one with its key. */
    method Admit(key: int, hash: nat, charge: nat) returns (id: nat)
      requires Valid()
      modifies this, table
      ensures Valid() && id == old(nextId) && nextId == id + 1 && capacity == old(capacity)
      ensures id in handles && handles[id] == NewEntry(id, key, hash, charge, capacity)
      ensures capacity > 0 ==> Has(table.contents, Handle(id, key, hash))
      ensures var t := Tag(key, hash);
              if capacity > 0 && t in old(table.contents) then
                var dup := old(table.contents)[t].id;
                && dup in old(handles) && lru == Without(old(lru), dup)
                && deleted == old(deleted) + if old(handles)[dup].refs == 1 then [dup] else []
              else lru == old(lru) && deleted == old(deleted)
      ensures forall x :: x in lru && x in handles ==> x in old(handles) && handles[x].charge == old(handles)[x].charge
      ensures table.contents == if capacity > 0 then old(table.contents)[Tag(key, hash) := Handle(id, key, hash)] else old(table.contents)
      ensures Admitted(old(handles), old(table.contents), handles, id, handles[id])
      ensures released == old(released)
    {
      hide Usage, LedgerOk, TableOk, InTable, HandleTable.Valid, ListsOk, Without, Erased, ByAge;
      id := nextId;
      Register(NewEntry(id, key, hash, charge, capacity));
      if capacity > 0 {
        EnterTable(Handle(id, key, hash));
      }
      NotOldest(State(), id);
    }

    /** Record a new entry; the table does not know it yet. */
    method Register(e: Cached)
      requires Valid() && e.handle.id == nextId && e.refs == if e.inCache then 2 else 1
      modifies `nextId, `handles, `inUse, `usage
      ensures nextId == old(nextId) + 1 && old(nextId) !in old(handles) && handles == old(handles)[old(nextId) := e]
      ensures table.Valid() && ListsOk(State()) && usage == Usage(State()) && LedgerOk(handles, deleted, nextId) && ByAge(lru, released, clock)
      ensures if e.inCache then Entering(table.contents, handles, e.handle) else TableOk(table.contents, handles, None)
      ensures TagOf(e.handle) in table.contents ==> table.contents[TagOf(e.handle)].id in old(handles)
    {
      hide Usage, LedgerOk, TableOk, HandleTable.Valid, ListsOk, ByAge;
      var id := nextId;
      ghost var s, contents := State(), table.contents;
      AddedOk(s, deleted, nextId, e);
      LiveRefs(s);
      if TagOf(e.handle) in contents {
        FoundLives(contents, s.handles, TagOf(e.handle));
      }
      nextId := nextId + 1;
      handles := handles[id := e];
      if e.inCache {
        AddedTable(contents, s.handles, id, e);
        inUse := inUse + [id];
        usage := usage + e.charge;
      } else {
        UncachedTable(contents, s.handles, id, e);
      }
    }

    /** The entry that the table gives up for a new one is erased. */
    method EnterTable(h: Handle)
      requires table.Valid() && ListsOk(State()) && usage == Usage(State()) && LedgerOk(handles, deleted, nextId) && ByAge(lru, released, clock)
      requires Entering(table.contents, handles, h) && h.id in handles
      modifies table, `lru, `inUse, `handles, `deleted, `usage, `released, `clock
      ensures released == old(released) && clock == old(clock)
      ensures Valid() && Has(table.contents, h) && h.id in handles && handles[h.id] == old(handles)[h.id]
      ensures if TagOf(h) in old(table.contents) then
                var dup := old(table.contents)[TagOf(h)].id;
                && dup in old(handles) && lru == Without(old(lru), dup)
                && deleted == old(deleted) + if old(handles)[dup].refs == 1 then [dup] else []
              else lru == old(lru) && deleted == old(deleted)
      ensures table.contents == old(table.contents)[TagOf(h) := h]
      ensures if TagOf(h) in old(table.contents) then
                var dup := old(table.contents)[TagOf(h)].id;
                old(handles)[dup].refs >= 1 && handles == Dismissed(old(handles), dup)
              else handles == old(handles)
    {
      hide Usage, LedgerOk, TableOk, HandleTable.Valid, ListsOk, Without, Erased, ByAge;
      var replaced := table.Insert(h);
      if replaced.Some? {
        LiveRefs(State());
        ErasedFacts(State(), replaced.value.id);
        FinishErase(replaced.value.id);
      }
    }

    /** Evict oldest first, until what is cached fits or nothing can go; `keep` is not evictable. */
    method MakeRoom(ghost keep: nat) returns (ghost k: nat)
      requires Valid() && keep in handles && (handles[keep].inCache ==> handles[keep].refs >= 2)
      modifies this, table
      ensures Valid() && capacity == old(capacity) && nextId == old(nextId)
      ensures usage <= capacity || lru == []
      ensures k <= |old(lru)| && lru == old(lru)[k..] && deleted == old(deleted) + old(lru)[..k]
      ensures k > 0 ==> old(lru)[k - 1] in old(handles) && usage + old(handles)[old(lru)[k - 1]].charge > capacity
      ensures keep in handles && handles[keep] == old(handles)[keep]
      ensures Has(old(table.contents), handles[keep].handle) ==> Has(table.contents, handles[keep].handle)
      ensures handles == Kept(old(handles), old(lru)[..k]) && table.contents == KeptTags(old(table.contents), old(lru)[..k])
      ensures released == old(released)
    {
      hide Usage, LedgerOk, TableOk, HandleTable.Valid, ListsOk, ByAge;
      ghost var base, was := lru, deleted;
      k := 0;
      assert was == was + base[..0];
      KeptAll(handles, table.contents);
      NotOldest(State(), keep);
      LiveRefs(State());
      while usage > capacity && lru != []
        invariant Valid() && capacity == old(capacity) && nextId == old(nextId) && released == old(released)
        invariant k <= |base| && lru == base[k..] && deleted == was + base[..k]
        invariant handles == Kept(old(handles), base[..k]) && table.contents == KeptTags(old(table.contents), base[..k])
        invariant k > 0 ==> base[k - 1] in old(handles) && usage + old(handles)[base[k - 1]].charge > capacity
        decreases |lru|
      {
        EvictNext(old(handles), old(table.contents), base, k);
        k := k + 1;
      }
      assert forall x :: x in base[..k] ==> x in base;
    }

    /** One more of the entries that go. */
    method EvictNext(ghost live: map<nat, Cached>, ghost contents: map<Tag, Handle>, ghost base: seq<nat>, ghost k: nat)
      requires Valid() && lru != [] && k < |base| && lru == base[k..]
      requires handles == Kept(live, base[..k]) && table.contents == KeptTags(contents, base[..k])
      modifies this, table
      ensures Valid() && capacity == old(capacity) && nextId == old(nextId) && released == old(released) && inUse == old(inUse)
      ensures lru == base[k + 1..] && deleted == old(deleted) + [base[k]]
      ensures base[..k + 1] == base[..k] + [base[k]]
      ensures handles == Kept(live, base[..k + 1]) && table.contents == KeptTags(contents, base[..k + 1])
      ensures base[k] in live && usage + live[base[k]].charge == old(usage)
    {
      hide Usage, LedgerOk, TableOk, HandleTable.Valid, ListsOk, ByAge, KeptTags;
      OldestFacts(table.contents, State());
      LiveRefs(State());
      OneTag(table.contents, handles, lru[0]);
      OneMoreGone(live, contents, base[..k], lru[0], TagOf(handles[lru[0]].handle));
      EvictOldest();
      assert base[..k + 1] == base[..k] + [base[k]];
    }

    /** Evict everything that is out of use. */
    method Prune()
      requires Valid()
      modifies this, table
      ensures Valid() && lru == [] && inUse == old(inUse) && deleted == old(deleted) + old(lru)
      ensures handles == Kept(old(handles), old(lru)) && table.contents == KeptTags(old(table.contents), old(lru))
    {
      hide Usage, LedgerOk, TableOk, HandleTable.Valid, ListsOk, ByAge;
      ghost var base, was, k := lru, deleted, 0;
      KeptAll(handles, table.contents);
      while lru != []
        invariant 0 <= k <= |base| && handles == Kept(old(handles), base[..k]) && table.contents == KeptTags(old(table.contents), base[..k])
        invariant Valid() && 0 <= k <= |base| && lru == base[k..] && deleted == was + base[..k] && inUse == old(inUse)
        decreases |lru|
      {
        EvictNext(old(handles), old(table.contents), base, k);
        k := k + 1;
      }
      assert base[..k] == base;
    }
  }

  /** A new entry is not cached at all when there is no capacity. */
  function NewEntry(id: nat, key: int, hash: nat, charge: nat, capacity: nat): Cached {
    if capacity > 0 then Cached(Handle(id, key, hash), charge, 2, true) else Cached(Handle(id, key, hash), charge, 1, false)
  }

  lemma AddedOk(s: Lists, deleted: seq<nat>, nextId: nat, e: Cached)
    requires ListsOk(s) && LedgerOk(s.handles, deleted, nextId) && e.handle.id == nextId
    requires e.refs == if e.inCache then 2 else 1
    ensures var t := Lists(s.lru, if e.inCache then s.inUse + [nextId] else s.inUse, s.handles[nextId := e]);
            && nextId !in s.handles && ListsOk(t) && LedgerOk(t.handles, deleted, nextId + 1)
            && Usage(t) == Usage(s) + if e.inCache then e.charge else 0
  {
    var more := s.handles[nextId := e];
    SameCharge(s.handles, more, s.lru);
    SameCharge(s.handles, more, s.inUse);
    if e.inCache {
      ChargeAppend(more, s.inUse, nextId);
    }
  }

  lemma NotOldest(s: Lists, id: nat)
    requires ListsOk(s) && id in s.handles && (s.handles[id].inCache ==> s.handles[id].refs >= 2)
    ensures id !in s.lru
  {
  }

  lemma AddedTable(contents: map<Tag, Handle>, handles: map<nat, Cached>, id: nat, e: Cached)
    requires TableOk(contents, handles, None) && id !in handles && e.handle.id == id && e.inCache
    requires forall i :: i in handles ==> handles[i].handle.id == i
    ensures var t := TagOf(e.handle);
            TableOk(contents[t := e.handle], handles[id := e], if t in contents then Some(contents[t].id) else None)
  {
    var t := TagOf(e.handle);
    var contents', handles' := contents[t := e.handle], handles[id := e];
    forall u | u in contents' ensures InTable(contents'[u], handles') && TagOf(contents'[u]) == u {
      assert u != t ==> InTable(contents[u], handles);
    }
    forall u | u in contents' && t in contents ensures contents'[u].id != contents[t].id {
      assert InTable(contents[t], handles);
      assert u != t ==> InTable(contents[u], handles);
    }
    forall i | i in handles' && handles'[i].inCache && !(t in contents && contents[t].id == i) ensures Has(contents', handles'[i].handle) {
      if i != id {
        assert Has(contents, handles[i].handle);
      }
    }
  }

  lemma UncachedTable(contents: map<Tag, Handle>, handles: map<nat, Cached>, id: nat, e: Cached)
    requires TableOk(contents, handles, None) && id !in handles && !e.inCache
    ensures TableOk(contents, handles[id := e], None)
  {
    forall t | t in contents ensures InTable(contents[t], handles[id := e]) {
      assert InTable(contents[t], handles);
    }
  }

  lemma OldestFacts(contents: map<Tag, Handle>, s: Lists)
    requires ListsOk(s) && TableOk(contents, s.handles, None) && s.lru != []
    ensures var id := s.lru[0];
            && id in s.handles && s.handles[id].inCache && s.handles[id].refs == 1
            && Has(contents, s.handles[id].handle) && s.handles[id].handle.id == id
  {
    assert s.lru[0] in s.lru;
  }

  lemma ErasedOldest(s: Lists)
    requires ListsOk(s) && s.lru != [] && s.lru[0] in s.handles && s.handles[s.lru[0]].refs == 1
    ensures Erased(s, s.lru[0]) == Lists(s.lru[1..], s.inUse, s.handles - {s.lru[0]})
  {
    var id := s.lru[0];
    NothingWithout(s.inUse, id);
    assert s.handles[id := s.handles[id].(inCache := false)] - {id} == s.handles - {id};
  }

  lemma ErasedUsage(s: Lists, id: nat)
    requires ListsOk(s) && id in s.handles && s.handles[id].inCache && s.handles[id].refs >= 1
    ensures Usage(Erased(s, id)) + s.handles[id].charge == Usage(s)
  {
    UncachedOk(s, id);
    UnreferredOk(Uncached(s, id), id);
  }

  function Erased(s: Lists, id: nat): Lists
    requires id in s.handles && s.handles[id].refs >= 1
  {
    Unreferred(Uncached(s, id), id)
  }

  /** Erasing one entry takes it off its list and leaves the others as they are. */
  lemma ErasedFacts(s: Lists, id: nat)
    requires id in s.handles && s.handles[id].refs >= 1
    ensures var t := Erased(s, id);
            && t.lru == Without(s.lru, id) && t.handles == Dismissed(s.handles, id)
            && (forall x :: x in t.handles ==> x in s.handles && t.handles[x].charge == s.handles[x].charge)
            && (forall x :: x in s.handles && x != id ==> x in t.handles && t.handles[x] == s.handles[x])
  {
    hide Without;
  }

  lemma NoneTwice(s: Lists)
    requires ListsOk(s)
    ensures NoDuplicates(s.lru) && NoDuplicates(s.inUse)
  {
  }

  lemma InUse(s: Lists, id: nat)
    requires ListsOk(s) && id in s.handles && s.handles[id].refs >= 2
    ensures id !in s.lru
  {
  }

  lemma LiveRefs(s: Lists)
    requires ListsOk(s)
    ensures forall id :: id in s.handles ==> s.handles[id].refs >= 1 && s.handles[id].handle.id == id
  {
  }

  lemma FoundLives(contents: map<Tag, Handle>, handles: map<nat, Cached>, t: Tag)
    requires TableOk(contents, handles, None) && t in contents
    ensures InTable(contents[t], handles) && TagOf(contents[t]) == t
  {
  }

  lemma TakenOut(contents: map<Tag, Handle>, handles: map<nat, Cached>, t: Tag)
    requires TableOk(contents, handles, None) && t in contents
    requires forall id :: id in handles ==> handles[id].handle.id == id
    ensures TableOk(contents - {t}, handles, Some(contents[t].id))
  {
    forall id | id in handles && handles[id].inCache && id != contents[t].id ensures Has(contents - {t}, handles[id].handle) {
      assert Has(contents, handles[id].handle);
    }
  }

  lemma ReferredRecords(contents: map<Tag, Handle>, s: Lists, deleted: seq<nat>, nextId: nat, id: nat)
    requires TableOk(contents, s.handles, None) && LedgerOk(s.handles, deleted, nextId) && id in s.handles
    ensures TableOk(contents, Referred(s, id).handles, None) && LedgerOk(Referred(s, id).handles, deleted, nextId)
  {
    StillInTable(contents, s.handles, id, s.handles[id].(refs := s.handles[id].refs + 1));
  }

  lemma StillInTable(contents: map<Tag, Handle>, handles: map<nat, Cached>, id: nat, e: Cached)
    requires TableOk(contents, handles, None) && id in handles
    requires e.handle == handles[id].handle && e.inCache == handles[id].inCache
    ensures TableOk(contents, handles[id := e], None)
  {
    forall t | t in contents ensures InTable(contents[t], handles[id := e]) {
      assert InTable(contents[t], handles);
    }
  }

  lemma UnreferredRecords(contents: map<Tag, Handle>, s: Lists, deleted: seq<nat>, nextId: nat, id: nat)
    requires TableOk(contents, s.handles, None) && LedgerOk(s.handles, deleted, nextId) && id in s.handles
    requires s.handles[id].refs >= 1 && (s.handles[id].inCache ==> s.handles[id].refs >= 2)
    ensures var t := Unreferred(s, id);
            && TableOk(contents, t.handles, None)
            && LedgerOk(t.handles, deleted + if s.handles[id].refs == 1 then [id] else [], nextId)
  {
    if s.handles[id].refs == 1 {
      forall t | t in contents ensures InTable(contents[t], s.handles - {id}) {
        assert InTable(contents[t], s.handles);
      }
    } else {
      StillInTable(contents, s.handles, id, s.handles[id].(refs := s.handles[id].refs - 1));
      assert deleted + [] == deleted;
    }
  }

  lemma UncachedRecords(contents: map<Tag, Handle>, s: Lists, deleted: seq<nat>, nextId: nat, id: nat)
    requires TableOk(contents, s.handles, Some(id)) && LedgerOk(s.handles, deleted, nextId) && id in s.handles
    ensures TableOk(contents, Uncached(s, id).handles, None) && LedgerOk(Uncached(s, id).handles, deleted, nextId)
  {
    forall t | t in contents ensures InTable(contents[t], Uncached(s, id).handles) {
      assert InTable(contents[t], s.handles);
    }
  }
}
