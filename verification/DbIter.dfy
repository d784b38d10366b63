/** The iterator clients use: a cursor over the live user keys at one sequence number, driven by a cursor
    over internal entries. */
module DbIter {
  import opened Format
  import opened VersionedMap
  import opened Cursors

  // ---------------------------------------------------------------------------------------------
  // Which entries a client sees

  predicate Visible(es: seq<Entry>, s: nat, i: nat)
    requires i < |es|
  {
    es[i].key.seqno <= s
  }

  /** Entry `i` is a value, visible at `s`, and no newer visible version of its key precedes it. */
  ghost predicate IsLive(es: seq<Entry>, s: nat, i: nat)
    requires i < |es|
  {
    && Visible(es, s, i) && es[i].key.kind.Put?
    && forall j :: 0 <= j < i && Visible(es, s, j) ==> es[j].key.user != es[i].key.user
  }

  /** The live entries before index `n`, in order: the sorted map a client iterates over. */
  ghost function LiveUpTo(es: seq<Entry>, s: nat, n: nat): seq<Entry>
    requires n <= |es|
  {
    if n == 0 then [] else LiveUpTo(es, s, n - 1) + if IsLive(es, s, n - 1) then [es[n - 1]] else []
  }

  ghost function LiveList(es: seq<Entry>, s: nat): seq<Entry> {
    LiveUpTo(es, s, |es|)
  }

  /** How many live entries precede index `i`. */
  ghost function Rank(es: seq<Entry>, s: nat, i: nat): nat
    requires i <= |es|
  {
    |LiveUpTo(es, s, i)|
  }

  lemma {:induction false} LiveUpToPrefix(es: seq<Entry>, s: nat, i: nat, j: nat)
    requires i <= j <= |es|
    ensures LiveUpTo(es, s, i) <= LiveUpTo(es, s, j)
  {
    if i < j {
      LiveUpToPrefix(es, s, i, j - 1);
    }
  }

  /** A live entry sits at its rank in the live list. */
  lemma LiveAtRank(es: seq<Entry>, s: nat, i: nat)
    requires i < |es| && IsLive(es, s, i)
    ensures Rank(es, s, i) < |LiveList(es, s)| && LiveList(es, s)[Rank(es, s, i)] == es[i]
    ensures Rank(es, s, i + 1) == Rank(es, s, i) + 1
  {
    LiveUpToPrefix(es, s, i + 1, |es|);
  }

  /** Without live entries in between, two indices have the same rank. */
  lemma {:induction false} RankSkips(es: seq<Entry>, s: nat, i: nat, j: nat)
    requires i <= j <= |es| && forall k :: i <= k < j ==> !IsLive(es, s, k)
    ensures Rank(es, s, i) == Rank(es, s, j)
  {
    if i < j {
      RankSkips(es, s, i, j - 1);
    }
  }

  /** The live list is sorted by user key, and holds exactly the keys that read as present at `s`. */
  lemma LiveIsTheMap(es: seq<Entry>, s: nat)
    requires Sorted(es) && Functional(Contents(es))
    ensures forall p, q :: 0 <= p < q < |LiveList(es, s)| ==> LiveList(es, s)[p].key.user < LiveList(es, s)[q].key.user
    ensures forall k, v :: (exists e :: e in LiveList(es, s) && e.key.user == k && e.value == v) <==>
                             Read(Contents(es), k, s) == Some(v)
  {
    LiveSorted(es, s, |es|);
    forall k, v
      ensures (exists e :: e in LiveList(es, s) && e.key.user == k && e.value == v) <==> Read(Contents(es), k, s) == Some(v)
    {
      NewestIs(Contents(es), k, s);
      if Read(Contents(es), k, s) == Some(v) {
        var e := Newest(Contents(es), k, s).value;
        assert IsNewest(Contents(es), k, s, e);
        var i :| 0 <= i < |es| && es[i] == e;
        NewestIsLive(es, s, k, i);
        LiveAtRank(es, s, i);
      }
      if e :| e in LiveList(es, s) && e.key.user == k && e.value == v {
        var i := LiveMember(es, s, |es|, e);
        LiveIsNewest(es, s, i);
      }
    }
  }

  lemma {:induction false} LiveSorted(es: seq<Entry>, s: nat, n: nat)
    requires Sorted(es) && n <= |es|
    ensures forall p, q :: 0 <= p < q < |LiveUpTo(es, s, n)| ==> LiveUpTo(es, s, n)[p].key.user < LiveUpTo(es, s, n)[q].key.user
  {
    if n > 0 {
      LiveSorted(es, s, n - 1);
      if IsLive(es, s, n - 1) {
        forall e | e in LiveUpTo(es, s, n - 1) ensures e.key.user < es[n - 1].key.user {
          var i := LiveMember(es, s, n - 1, e);
          assert Less(es[i].key, es[n - 1].key);
        }
      }
    }
  }

  lemma {:induction false} LiveMember(es: seq<Entry>, s: nat, n: nat, e: Entry) returns (i: nat)
    requires n <= |es| && e in LiveUpTo(es, s, n)
    ensures i < n && IsLive(es, s, i) && es[i] == e
  {
    if n > 0 && IsLive(es, s, n - 1) && es[n - 1] == e {
      i := n - 1;
    } else {
      i := LiveMember(es, s, n - 1, e);
    }
  }

  lemma NewestIsLive(es: seq<Entry>, s: nat, k: UserKey, i: nat)
    requires Sorted(es) && Functional(Contents(es)) && i < |es| && IsNewest(Contents(es), k, s, es[i]) && es[i].key.kind.Put?
    ensures IsLive(es, s, i)
  {
    forall j | 0 <= j < i && Visible(es, s, j) ensures es[j].key.user != es[i].key.user {
      assert Less(es[j].key, es[i].key);
      assert es[j] in Contents(es);
    }
  }

  lemma LiveIsNewest(es: seq<Entry>, s: nat, i: nat)
    requires Sorted(es) && Functional(Contents(es)) && i < |es| && IsLive(es, s, i)
    ensures Read(Contents(es), es[i].key.user, s) == Some(es[i].value)
  {
    var k := es[i].key.user;
    NewestIs(Contents(es), k, s);
    forall x | x in Contents(es) && Candidate(x, k, s) ensures x.key.seqno <= es[i].key.seqno {
      var j :| 0 <= j < |es| && es[j] == x;
      assert j >= i;
      assert i < j ==> Less(es[i].key, es[j].key);
    }
    assert IsNewest(Contents(es), k, s, es[i]);
  }

  // ---------------------------------------------------------------------------------------------
  // The iterator

  datatype Direction = Forward | Reverse

  class DBIter {
    const iter: EntryCursor
    const sequence: nat
    var direction: Direction
    var valid: bool
    var savedKey: Option<UserKey>
    var savedValue: Value
    /** The index of the entry the client is at, when valid. */
    ghost var at: nat

    ghost predicate Inv()
      reads this, iter
    {
      && Sorted(iter.items) && iter.Valid()
      && (valid ==> at < |iter.items| && IsLive(iter.items, sequence, at))
      && (valid && direction.Forward? ==> iter.pos == at)
      && (valid && direction.Reverse? ==>
            && savedKey == Some(iter.items[at].key.user) && savedValue == iter.items[at].value
            && Behind(iter.items, sequence, iter.pos, at))
    }

    /** The client's position in the live list. */
    ghost function Pos(): nat
      requires Inv()
      reads this, iter
    {
      if valid then Rank(iter.items, sequence, at) else |LiveList(iter.items, sequence)|
    }

    constructor (iter: EntryCursor, sequence: nat)
      requires Sorted(iter.items) && iter.Valid()
      ensures Inv() && this.iter == iter && this.sequence == sequence && !valid
    {
      this.iter := iter;
      this.sequence := sequence;
      direction := Forward;
      valid := false;
      savedKey := None;
      savedValue := [];
      at := 0;
    }

    /** Between two calls the memtable takes an entry that is newer than the iterator: it stays where it is, in
        the same list of live keys. */
    method MemtableGrows(e: Entry)
      requires Inv() && e.key.seqno > sequence && forall x :: x in iter.items ==> Tag(x.key) != Tag(e.key)
      modifies iter, `at
      ensures Inv() && iter.items == Inserted(old(iter.items), SeekPos(old(iter.items), e.key), e)
      ensures LiveList(iter.items, sequence) == old(LiveList(iter.items, sequence)) && Pos() == old(Pos())
    {
      hide IsLive, Sorted, LiveList, Rank, Behind, Inserted;
      ghost var es := iter.items;
      var p := SeekPos(iter.items, e.key);
      InsertedSorted(es, e);
      LiveUnchanged(es, sequence, p, e);
      if valid {
        LiveMoves(es, sequence, p, e, at);
        RankMoves(es, sequence, p, e, at);
        if direction.Reverse? {
          BehindMoves(es, sequence, p, e, iter.pos, at);
        }
        InsertedAt(es, p, e, at);
        at := MovedTo(|es|, p, at);
      }
      iter.Grow(e, p);
    }

    /** `key()` and `value()`: what the client reads is the live list at its position. */
    method Current() returns (key: UserKey, value: Value)
      requires Inv() && valid
      ensures Pos() < |LiveList(iter.items, sequence)|
      ensures key == LiveList(iter.items, sequence)[Pos()].key.user && value == LiveList(iter.items, sequence)[Pos()].value
    {
      LiveAtRank(iter.items, sequence, at);
      if direction.Forward? {
        key, value := iter.items[iter.pos].key.user, iter.items[iter.pos].value;
      } else {
        key, value := savedKey.value, savedValue;
      }
    }

    method SeekToFirst()
      requires Inv()
      modifies this, iter`pos
      ensures Inv() && Pos() == 0
    {
      direction := Forward;
      savedValue := [];
      iter.SeekToFirst();
      valid := false;
      if iter.pos < |iter.items| {
        FindNextUserEntry(false);
      }
      RankSkips(iter.items, sequence, 0, if valid then at else |iter.items|);
    }

    method Seek(target: UserKey)
      requires Inv() && sequence <= MAX_SEQUENCE
      modifies this, iter`pos
      ensures Inv() && Pos() <= |LiveList(iter.items, sequence)|
      ensures forall p :: 0 <= p < Pos() ==> LiveList(iter.items, sequence)[p].key.user < target
      ensures forall p :: Pos() <= p < |LiveList(iter.items, sequence)| ==> LiveList(iter.items, sequence)[p].key.user >= target
    {
      direction := Forward;
      savedValue := [];
      savedKey := None;
      iter.Seek(LookupKey(target, sequence));
      SeekStartsClean(iter.items, sequence, target);
      ghost var start := iter.pos;
      valid := false;
      if iter.pos < |iter.items| {
        FindNextUserEntry(false);
      }
      RankSkips(iter.items, sequence, start, if valid then at else |iter.items|);
      LiveAround(iter.items, sequence, target, start);
    }

    method SeekToLast()
      requires Inv()
      modifies this, iter`pos
      ensures Inv() && Pos() == LastPos(|LiveList(iter.items, sequence)|)
    {
      direction := Reverse;
      savedValue := [];
      valid := false;
      iter.SeekToLast();
      FindPrevUserEntry(|iter.items|);
    }

    method Next()
      requires Inv() && valid
      modifies this, iter`pos
      ensures Inv() && Pos() == old(Pos()) + 1
    {
      ghost var from := at;
      LiveAtRank(iter.items, sequence, at);
      if direction.Reverse? {
        direction := Forward;
        if iter.pos == |iter.items| {
          iter.SeekToFirst();
        } else {
          iter.Next();
        }
      } else {
        savedKey := Some(iter.items[iter.pos].key.user);
        iter.Next();
      }
      StepClean(iter.items, sequence, iter.pos, from);
      ghost var start, skip := iter.pos, savedKey;
      valid := false;
      if iter.pos == |iter.items| {
        savedKey := None;
      } else {
        FindNextUserEntry(true);
      }
      NextRank(iter.items, sequence, from, start, skip, valid, at);
    }

    method Prev()
      requires Inv() && valid
      modifies this, iter`pos
      ensures Inv() && Pos() == PrevPos(|LiveList(iter.items, sequence)|, old(Pos()))
    {
      hide Sorted, IsLive, Behind, ScanFrom, Rank, LiveList;
      ghost var from := at;
      if direction.Forward? {
        savedKey := Some(iter.items[iter.pos].key.user);
        var more := LeaveKey(from);
        if !more {
          valid := false;
          savedKey := None;
          savedValue := [];
          return;
        }
        direction := Reverse;
      } else {
        BehindScans(iter.items, sequence, iter.pos, at);
      }
      valid := false;
      FindPrevUserEntry(from);
    }

    /** Back over the entries of the current key, to an entry of a smaller one. */
    method LeaveKey(ghost from: nat) returns (more: bool)
      requires Sorted(iter.items) && iter.pos == from < |iter.items| && IsLive(iter.items, sequence, from)
      requires savedKey == Some(iter.items[from].key.user)
      modifies iter`pos
      ensures iter.Valid()
      ensures more ==> ScanFrom(iter.items, sequence, iter.pos, from)
      ensures !more ==> Rank(iter.items, sequence, from) == 0
    {
      hide Sorted, IsLive, Rank;
      while true
        invariant iter.pos <= from
        invariant forall j :: iter.pos <= j < from ==> !IsLive(iter.items, sequence, j)
        decreases iter.pos
      {
        iter.Prev();
        if iter.pos == |iter.items| {
          NoneBefore(iter.items, sequence, from);
          return false;
        }
        if iter.items[iter.pos].key.user < savedKey.value {
          return true;
        }
        SameKeyNotLive(iter.items, sequence, iter.pos, from);
      }
    }

    /** From a start with no visible entry before it that could shadow what follows, move to the next live
        entry, or run off the end. */
    method FindNextUserEntry(skip: bool)
      requires Sorted(iter.items) && iter.pos < |iter.items| && direction.Forward? && !valid
      requires skip ==> savedKey.Some?
      requires Clean(iter.items, sequence, iter.pos, if skip then savedKey else None)
      modifies this, iter`pos
      ensures Inv() && direction.Forward?
      ensures LandsOnNext(iter.items, sequence, old(iter.pos), if skip then old(savedKey) else None, valid, at)
    {
      hide Sorted, IsLive, Clean, Scanning, LandsOnNext;
      ghost var start, bound := iter.pos, if skip then savedKey else None;
      var skipping := skip;
      var skipKey := savedKey;
      ScanStart(iter.items, sequence, start, bound);
      while true
        invariant Sorted(iter.items) && start <= iter.pos < |iter.items| && direction.Forward? && !valid
        invariant skipping ==> skipKey.Some?
        invariant Scanning(iter.items, sequence, start, iter.pos, bound, if skipping then skipKey else None)
        decreases |iter.items| - iter.pos
      {
        var e := iter.items[iter.pos];
        ghost var before := if skipping then skipKey else None;
        if e.key.seqno <= sequence {
          if e.key.kind.Deletion? {
            skipKey := Some(e.key.user);
            skipping := true;
          } else {
            if skipping && e.key.user <= skipKey.value {
              // hidden
            } else {
              Found(iter.items, sequence, start, iter.pos, bound, before);
              valid := true;
              at := iter.pos;
              savedKey := None;
              return;
            }
          }
        }
        ScanOne(iter.items, sequence, start, iter.pos, bound, before);
        iter.Next();
        if iter.pos == |iter.items| {
          ScanEnd(iter.items, sequence, start, bound, if skipping then skipKey else None, at);
          break;
        }
      }
      savedKey := None;
    }

    /** From the entry the inner cursor is at, move back to the nearest live entry and stop just before it. */
    method FindPrevUserEntry(ghost limit: nat)
      requires Sorted(iter.items) && iter.Valid() && direction.Reverse? && !valid && limit <= |iter.items|
      requires ScanFrom(iter.items, sequence, iter.pos, limit)
      modifies this, iter`pos
      ensures Inv()
      ensures Pos() == PrevPos(|LiveList(iter.items, sequence)|, Rank(iter.items, sequence, limit))
    {
      hide Sorted, IsLive, Visible, ScanningBack, Behind, Rank, LiveList;
      var kind := Deletion;
      ghost var m: nat := 0;
      ghost var lo: nat := if iter.pos < |iter.items| then iter.pos + 1 else 0;
      StartBack(iter.items, sequence, iter.pos, limit);
      if iter.pos < |iter.items| {
        while true
          invariant iter.pos < |iter.items| && direction.Reverse? && !valid
          invariant lo == iter.pos + 1 && ScanningBack(iter.items, sequence, lo, limit, kind, m)
          invariant kind.Put? ==> m < |iter.items| && savedKey == Some(iter.items[m].key.user) && savedValue == iter.items[m].value
          decreases iter.pos
        {
          var e := iter.items[iter.pos];
          PassBack(iter.items, sequence, iter.pos, limit, kind, m);
          if e.key.seqno <= sequence {
            if kind.Put? && e.key.user < savedKey.value {
              break;
            }
            kind := e.key.kind;
            m := iter.pos;
            if kind.Deletion? {
              savedKey := None;
              savedValue := [];
            } else {
              savedKey := Some(e.key.user);
              savedValue := e.value;
            }
          }
          lo := iter.pos;
          iter.Prev();
          if iter.pos == |iter.items| {
            break;
          }
        }
      }
      if kind.Deletion? {
        NothingBack(iter.items, sequence, limit, m);
        savedKey := None;
        savedValue := [];
        direction := Forward;
      } else {
        FoundBack(iter.items, sequence, iter.pos, lo, limit, m);
        valid := true;
        at := m;
      }
    }
  }

  // ---------------------------------------------------------------------------------------------
  // An entry that no reader of this iterator may see

  lemma VisibleMoves(es: seq<Entry>, s: nat, p: nat, e: Entry, i: nat)
    requires p <= |es| && i < |es|
    ensures var r := Inserted(es, p, e);
            var m := MovedTo(|es|, p, i);
            m < |r| && r[m] == es[i] && (Visible(r, s, m) <==> Visible(es, s, i))
  {
    InsertedAt(es, p, e, i);
  }

  lemma LiveMoves(es: seq<Entry>, s: nat, p: nat, e: Entry, i: nat)
    requires p <= |es| && e.key.seqno > s && i < |es|
    ensures IsLive(Inserted(es, p, e), s, MovedTo(|es|, p, i)) <==> IsLive(es, s, i)
  {
    hide Inserted, Visible;
    var r, m := Inserted(es, p, e), MovedTo(|es|, p, i);
    VisibleMoves(es, s, p, e, i);
    NewInvisible(es, s, p, e);
    forall j | 0 <= j < i ensures Visible(r, s, MovedTo(|es|, p, j)) <==> Visible(es, s, j)
                          ensures r[MovedTo(|es|, p, j)] == es[j]
    {
      VisibleMoves(es, s, p, e, j);
    }
    forall j | 0 <= j < m && j != p ensures r[j] == es[MovedFrom(p, j)] && (Visible(r, s, j) <==> Visible(es, s, MovedFrom(p, j))) {
      VisibleMoves(es, s, p, e, MovedFrom(p, j));
    }
  }

  lemma NewInvisible(es: seq<Entry>, s: nat, p: nat, e: Entry)
    requires p <= |es| && e.key.seqno > s
    ensures !Visible(Inserted(es, p, e), s, p) && !IsLive(Inserted(es, p, e), s, p)
  {
  }

  /** Before the new entry nothing changes. */
  lemma {:induction false} LiveBefore(es: seq<Entry>, s: nat, p: nat, e: Entry, n: nat)
    requires n <= p <= |es| && e.key.seqno > s
    ensures LiveUpTo(Inserted(es, p, e), s, n) == LiveUpTo(es, s, n)
  {
    hide IsLive, Inserted;
    if n > 0 {
      LiveBefore(es, s, p, e, n - 1);
      LiveMoves(es, s, p, e, n - 1);
      InsertedAt(es, p, e, n - 1);
    }
  }

  /** From it on, everything is one place further. */
  lemma {:induction false} LiveAfter(es: seq<Entry>, s: nat, p: nat, e: Entry, n: nat)
    requires p <= n <= |es| && e.key.seqno > s
    ensures LiveUpTo(Inserted(es, p, e), s, n + 1) == LiveUpTo(es, s, n)
  {
    hide IsLive, Inserted;
    if n == p {
      LiveBefore(es, s, p, e, p);
      NewInvisible(es, s, p, e);
    } else {
      LiveAfter(es, s, p, e, n - 1);
      LiveMoves(es, s, p, e, n - 1);
      InsertedAt(es, p, e, n - 1);
    }
  }

  lemma LiveUnchanged(es: seq<Entry>, s: nat, p: nat, e: Entry)
    requires p <= |es| && e.key.seqno > s
    ensures LiveList(Inserted(es, p, e), s) == LiveList(es, s)
  {
    hide Inserted, LiveUpTo;
    LiveAfter(es, s, p, e, |es|);
  }

  lemma RankMoves(es: seq<Entry>, s: nat, p: nat, e: Entry, i: nat)
    requires p <= |es| && e.key.seqno > s && i < |es|
    ensures Rank(Inserted(es, p, e), s, MovedTo(|es|, p, i)) == Rank(es, s, i)
  {
    hide Inserted, LiveUpTo;
    if i < p {
      LiveBefore(es, s, p, e, i);
    } else {
      LiveAfter(es, s, p, e, i);
    }
  }

  lemma BehindMoves(es: seq<Entry>, s: nat, p: nat, e: Entry, pos: nat, at: nat)
    requires p <= |es| && e.key.seqno > s && pos <= |es| && at < |es| && Behind(es, s, pos, at)
    ensures Behind(Inserted(es, p, e), s, MovedTo(|es|, p, pos), MovedTo(|es|, p, at))
  {
    hide Inserted, Visible;
    var r := Inserted(es, p, e);
    InsertedAt(es, p, e, at);
    if pos < |es| {
      InsertedAt(es, p, e, pos);
    }
    NewInvisible(es, s, p, e);
    var lo, lo' := if pos == |es| then 0 else pos + 1, if pos == |es| then 0 else MovedTo(|es|, p, pos) + 1;
    forall j | lo' <= j < MovedTo(|es|, p, at) ensures !Visible(r, s, j) {
      if j != p {
        VisibleMoves(es, s, p, e, MovedFrom(p, j));
        assert lo <= MovedFrom(p, j) < at;
      }
    }
  }

  // ---------------------------------------------------------------------------------------------
  // Scanning forward

  /** No visible entry before `i` has a key that occurs again from `i` on, except keys to be skipped; and
      visible entries from `i` on are not below the key to be skipped. */
  ghost predicate Clean(es: seq<Entry>, s: nat, i: nat, skip: Option<UserKey>) {
    && (forall a, b :: 0 <= a < i <= b < |es| && Visible(es, s, a) && es[a].key.user == es[b].key.user
          ==> skip.Some? && es[b].key.user <= skip.value)
    && (skip.Some? ==> forall b :: i <= b < |es| && Visible(es, s, b) ==> skip.value <= es[b].key.user)
  }

  predicate Beyond(e: Entry, skip: Option<UserKey>) {
    skip.Some? ==> e.key.user > skip.value
  }

  /** The first live entry from `start` on whose key is beyond the skipped one, if any. */
  ghost predicate LandsOnNext(es: seq<Entry>, s: nat, start: nat, skip: Option<UserKey>, found: bool, i: nat) {
    && (found ==> start <= i < |es| && IsLive(es, s, i) && Beyond(es[i], skip))
    && (forall j :: start <= j < (if found then i else |es|) && j < |es| && IsLive(es, s, j) ==> !Beyond(es[j], skip))
  }

  ghost predicate Scanning(es: seq<Entry>, s: nat, start: nat, i: nat, bound: Option<UserKey>, skip: Option<UserKey>) {
    && start <= i <= |es| && Clean(es, s, i, skip)
    && (bound.Some? ==> skip.Some? && bound.value <= skip.value)
    && (forall j :: start <= j < i && IsLive(es, s, j) ==> !Beyond(es[j], bound))
    && (forall j :: i <= j < |es| && IsLive(es, s, j) && !Beyond(es[j], skip) ==> !Beyond(es[j], bound))
  }

  lemma ScanStart(es: seq<Entry>, s: nat, start: nat, bound: Option<UserKey>)
    requires start <= |es| && Clean(es, s, start, bound)
    ensures Scanning(es, s, start, start, bound, bound)
  {
    hide Clean, IsLive;
  }

  lemma ScanEnd(es: seq<Entry>, s: nat, start: nat, bound: Option<UserKey>, skip: Option<UserKey>, at: nat)
    requires Scanning(es, s, start, |es|, bound, skip)
    ensures LandsOnNext(es, s, start, bound, false, at)
  {
    hide Clean, IsLive;
  }

  lemma Found(es: seq<Entry>, s: nat, start: nat, i: nat, bound: Option<UserKey>, skip: Option<UserKey>)
    requires Sorted(es) && i < |es| && Scanning(es, s, start, i, bound, skip)
    requires Visible(es, s, i) && es[i].key.kind.Put? && Beyond(es[i], skip)
    ensures LandsOnNext(es, s, start, bound, true, i) && IsLive(es, s, i)
  {
    forall j | 0 <= j < i && Visible(es, s, j) ensures es[j].key.user != es[i].key.user {
    }
  }

  /** One entry passed over: a deletion becomes the key to skip, anything else changes nothing. */
  lemma ScanOne(es: seq<Entry>, s: nat, start: nat, i: nat, bound: Option<UserKey>, skip: Option<UserKey>)
    requires Sorted(es) && i < |es| && Scanning(es, s, start, i, bound, skip)
    requires Visible(es, s, i) && es[i].key.kind.Put? ==> !Beyond(es[i], skip)
    ensures var skip' := if Visible(es, s, i) && es[i].key.kind.Deletion? then Some(es[i].key.user) else skip;
            Scanning(es, s, start, i + 1, bound, skip')
  {
    var skip' := if Visible(es, s, i) && es[i].key.kind.Deletion? then Some(es[i].key.user) else skip;
    assert forall b :: i < b < |es| ==> es[i].key.user <= es[b].key.user by {
      forall b | i < b < |es| ensures es[i].key.user <= es[b].key.user {
        assert Less(es[i].key, es[b].key);
      }
    }
    assert IsLive(es, s, i) ==> !Beyond(es[i], skip);
  }

  lemma SeekStartsClean(es: seq<Entry>, s: nat, target: UserKey)
    requires Sorted(es)
    ensures Clean(es, s, SeekPos(es, LookupKey(target, s)), None)
    ensures forall i :: 0 <= i < SeekPos(es, LookupKey(target, s)) && Visible(es, s, i) ==> es[i].key.user < target
    ensures forall i :: SeekPos(es, LookupKey(target, s)) <= i < |es| ==> es[i].key.user >= target
  {
    SeekSplits(es, LookupKey(target, s));
  }

  /** The live entries before the landing point of a seek are those below the target. */
  lemma LiveAround(es: seq<Entry>, s: nat, target: UserKey, start: nat)
    requires Sorted(es) && start <= |es|
    requires forall i :: 0 <= i < start && Visible(es, s, i) ==> es[i].key.user < target
    requires forall i :: start <= i < |es| ==> es[i].key.user >= target
    ensures Rank(es, s, start) <= |LiveList(es, s)|
    ensures forall p :: 0 <= p < Rank(es, s, start) ==> LiveList(es, s)[p].key.user < target
    ensures forall p :: Rank(es, s, start) <= p < |LiveList(es, s)| ==> LiveList(es, s)[p].key.user >= target
  {
    LiveUpToPrefix(es, s, start, |es|);
    forall p | 0 <= p < Rank(es, s, start) ensures LiveList(es, s)[p].key.user < target {
      var e := LiveUpTo(es, s, start)[p];
      var i := LiveMember(es, s, start, e);
    }
    LiveSplit(es, s, start, |es|);
  }

  lemma {:induction false} LiveSplit(es: seq<Entry>, s: nat, start: nat, n: nat)
    requires start <= n <= |es|
    ensures |LiveUpTo(es, s, start)| <= |LiveUpTo(es, s, n)|
    ensures forall p :: |LiveUpTo(es, s, start)| <= p < |LiveUpTo(es, s, n)| ==>
              exists i :: start <= i < n && LiveUpTo(es, s, n)[p] == es[i]
  {
    if start < n {
      LiveSplit(es, s, start, n - 1);
    }
  }

  // ---------------------------------------------------------------------------------------------
  // Scanning backward

  /** The inner cursor rests before the entry at `at`, with only invisible entries in between. */
  ghost predicate Behind(es: seq<Entry>, s: nat, pos: nat, at: nat)
    requires at < |es|
  {
    && (pos == |es| || (pos < at && es[pos].key.user < es[at].key.user))
    && forall j :: (if pos == |es| then 0 else pos + 1) <= j < at ==> !Visible(es, s, j)
  }

  /** Where a backward scan may begin so as to find the last live entry below `limit`. */
  ghost predicate ScanFrom(es: seq<Entry>, s: nat, pos: nat, limit: nat)
    requires limit <= |es|
  {
    && (pos < |es| ==> pos < limit)
    && forall j :: (if pos == |es| then 0 else pos + 1) <= j < limit ==> !IsLive(es, s, j)
  }

  /** Entries from `i` to `limit` have been passed; `m` is the last visible one passed, of the given kind. */
  ghost predicate ScanningBack(es: seq<Entry>, s: nat, i: nat, limit: nat, kind: Kind, m: nat) {
    && i <= limit <= |es|
    && (kind.Put? ==> i <= m < limit && Visible(es, s, m) && es[m].key.kind.Put? && forall j :: i <= j < m ==> !Visible(es, s, j))
    && (forall j :: i <= j < limit && IsLive(es, s, j) ==> kind.Put? && j == m)
  }

  lemma StartBack(es: seq<Entry>, s: nat, pos: nat, limit: nat)
    requires pos <= |es| && limit <= |es| && ScanFrom(es, s, pos, limit)
    ensures ScanningBack(es, s, if pos < |es| then pos + 1 else 0, limit, Deletion, 0)
  {
    hide IsLive;
  }

  /** One more entry: taken if it is visible and does not end the search, passed over if it is not. */
  lemma PassBack(es: seq<Entry>, s: nat, i: nat, limit: nat, kind: Kind, m: nat)
    requires Sorted(es) && i < |es| && ScanningBack(es, s, i + 1, limit, kind, m)
    ensures es[i].key.seqno > s ==> ScanningBack(es, s, i, limit, kind, m)
    ensures es[i].key.seqno <= s && (kind.Put? ==> m < |es| && es[i].key.user >= es[m].key.user) ==>
              ScanningBack(es, s, i, limit, es[i].key.kind, i)
  {
    if kind.Put? {
      assert Less(es[i].key, es[m].key);
    }
  }

  lemma NothingBack(es: seq<Entry>, s: nat, limit: nat, m: nat)
    requires ScanningBack(es, s, 0, limit, Deletion, m)
    ensures Rank(es, s, limit) == 0
  {
    NoneBefore(es, s, limit);
  }

  lemma NoneBefore(es: seq<Entry>, s: nat, limit: nat)
    requires limit <= |es| && forall j :: 0 <= j < limit ==> !IsLive(es, s, j)
    ensures Rank(es, s, limit) == 0
  {
    RankSkips(es, s, 0, limit);
  }

  lemma BehindScans(es: seq<Entry>, s: nat, pos: nat, at: nat)
    requires at < |es| && Behind(es, s, pos, at)
    ensures ScanFrom(es, s, pos, at)
  {
  }

  /** The visible entry with nothing visible of its key before it is live, and the scan has found its place. */
  lemma FoundBack(es: seq<Entry>, s: nat, pos: nat, lo: nat, limit: nat, m: nat)
    requires Sorted(es) && ScanningBack(es, s, lo, limit, Put, m)
    requires if pos < |es| then lo == pos + 1 && es[pos].key.user < es[m].key.user else pos == |es| && lo == 0
    ensures IsLive(es, s, m) && Behind(es, s, pos, m) && Rank(es, s, limit) == Rank(es, s, m) + 1
  {
    forall j | 0 <= j < lo ensures es[j].key.user < es[m].key.user {
      assert j < pos ==> Less(es[j].key, es[pos].key);
    }
    LiveAtRank(es, s, m);
    RankSkips(es, s, m + 1, limit);
  }

  lemma StepClean(es: seq<Entry>, s: nat, pos: nat, from: nat)
    requires Sorted(es) && from < |es| && IsLive(es, s, from) && pos <= from + 1
    requires forall j :: pos <= j < from ==> !Visible(es, s, j)
    ensures Clean(es, s, pos, Some(es[from].key.user))
  {
    forall a | 0 <= a < |es|
      ensures a <= from ==> es[a].key.user <= es[from].key.user
      ensures a >= from ==> es[a].key.user >= es[from].key.user
    {
      assert a < from ==> Less(es[a].key, es[from].key);
      assert a > from ==> Less(es[from].key, es[a].key);
    }
  }

  lemma NextRank(es: seq<Entry>, s: nat, from: nat, start: nat, skip: Option<UserKey>, found: bool, at: nat)
    requires Sorted(es) && from < |es| && IsLive(es, s, from) && start <= from + 1 && skip == Some(es[from].key.user)
    requires LandsOnNext(es, s, start, skip, found, at)
    ensures Rank(es, s, if found then at else |es|) == Rank(es, s, from) + 1
  {
    var end := if found then at else |es|;
    LiveAtRank(es, s, from);
    forall a | 0 <= a < from ensures es[a].key.user <= es[from].key.user {
      assert Less(es[a].key, es[from].key);
    }
    forall j | from < j < end ensures !IsLive(es, s, j) {
      assert Less(es[from].key, es[j].key);
    }
    RankSkips(es, s, from + 1, end);
  }

  lemma SameKeyNotLive(es: seq<Entry>, s: nat, p: nat, from: nat)
    requires Sorted(es) && p < from < |es| && IsLive(es, s, from) && es[p].key.user >= es[from].key.user
    ensures !IsLive(es, s, p)
  {
    assert Less(es[p].key, es[from].key);
  }
}
