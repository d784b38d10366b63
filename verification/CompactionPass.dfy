/** One compaction pass: which entries of the merged input are rewritten, and why leaving out the
    others cannot be seen by any reader at or above the oldest snapshot. */
module CompactionPass {
  import opened Format
  import opened VersionedMap
  import opened Files
  import opened Selection

  /** A newer version of the same user key is already visible to every snapshot. */
  ghost predicate Shadowed(input: seq<Entry>, i: nat, snapshot: nat)
    requires i < |input|
  {
    exists j :: 0 <= j < i && input[j].key.user == input[i].key.user && input[j].key.seqno <= snapshot
  }

  /** A deletion every snapshot sees, with nothing below it to hide. */
  ghost predicate DeadTombstone(v: seq<seq<File>>, level: nat, e: Entry, snapshot: nat) {
    e.key.kind.Deletion? && e.key.seqno <= snapshot && IsBase(v, level, e.key.user)
  }

  ghost predicate Dropped(v: seq<seq<File>>, level: nat, input: seq<Entry>, i: nat, snapshot: nat)
    requires i < |input|
  {
    Shadowed(input, i, snapshot) || DeadTombstone(v, level, input[i], snapshot)
  }

  ghost function Survivors(v: seq<seq<File>>, level: nat, input: seq<Entry>, snapshot: nat): seq<Entry> {
    if input == [] then [] else
      var n := |input| - 1;
      Survivors(v, level, input[..n], snapshot) + if Dropped(v, level, input, n, snapshot) then [] else [input[n]]
  }

  /** The loop of `DBImpl::DoCompactionWork`.  `stop` is the iteration at which `shutting_down_` is seen.
      The one remembered sequence number decides shadowing exactly. */
  method DoCompactionWork(input: seq<Entry>, snapshot: nat, stop: nat, cursors: BaseLevelCursors) returns (out: seq<Entry>)
    requires Sorted(input) && snapshot < MAX_SEQUENCE && forall user :: cursors.Valid(user)
    modifies cursors
    ensures var n := if stop < |input| then stop else |input|;
            out == Survivors(cursors.version, cursors.level, input[..n], snapshot)
  {
    out := [];
    var hasCurrent, currentUser, lastSequence := false, 0, MAX_SEQUENCE;
    ghost var v, level := cursors.version, cursors.level;
    var i := 0;
    while i < |input| && i < stop
      invariant 0 <= i <= |input| && (i <= stop || i == 0)
      invariant hasCurrent <==> i > 0
      invariant i > 0 ==> currentUser == input[i - 1].key.user && lastSequence == input[i - 1].key.seqno
      invariant i < |input| ==> cursors.Valid(input[i].key.user)
      invariant out == Survivors(v, level, input[..i], snapshot)
    {
      var e := input[i];
      var drop := false;
      if !hasCurrent || e.key.user != currentUser {
        currentUser := e.key.user;
        hasCurrent := true;
        lastSequence := MAX_SEQUENCE;
      }
      ShadowedByLast(input, i, snapshot);
      if lastSequence <= snapshot {
        drop := true;
      } else if e.key.kind.Deletion? && e.key.seqno <= snapshot {
        drop := cursors.IsBaseLevelForKey(e.key.user);
      }
      lastSequence := e.key.seqno;
      assert i + 1 < |input| ==> Less(input[i].key, input[i + 1].key);
      PrefixDrop(v, level, input, i, snapshot);
      if !drop {
        out := out + [e];
      }
      i := i + 1;
    }
  }

  lemma ShadowedByLast(input: seq<Entry>, i: nat, snapshot: nat)
    requires Sorted(input) && i < |input|
    ensures Shadowed(input, i, snapshot) <==>
              i > 0 && input[i - 1].key.user == input[i].key.user && input[i - 1].key.seqno <= snapshot
  {
    if j :| 0 <= j < i && input[j].key.user == input[i].key.user && input[j].key.seqno <= snapshot {
      assert j < i - 1 ==> Less(input[j].key, input[i - 1].key);
      assert Less(input[i - 1].key, input[i].key);
    }
  }

  lemma PrefixDrop(v: seq<seq<File>>, level: nat, input: seq<Entry>, i: nat, snapshot: nat)
    requires i < |input|
    ensures Dropped(v, level, input[..i + 1], i, snapshot) <==> Dropped(v, level, input, i, snapshot)
    ensures Survivors(v, level, input[..i + 1], snapshot) ==
              Survivors(v, level, input[..i], snapshot) + if Dropped(v, level, input, i, snapshot) then [] else [input[i]]
  {
    var prefix := input[..i + 1];
    assert prefix[..i] == input[..i];
    assert forall j :: 0 <= j <= i ==> prefix[j] == input[j];
  }

  /** The survivors are the entries not dropped, still in order. */
  lemma {:induction false} SurvivorsAre(v: seq<seq<File>>, level: nat, input: seq<Entry>, snapshot: nat)
    requires Sorted(input)
    ensures forall e :: e in Survivors(v, level, input, snapshot) <==>
              exists i :: 0 <= i < |input| && input[i] == e && !Dropped(v, level, input, i, snapshot)
    ensures Sorted(Survivors(v, level, input, snapshot))
  {
    if input != [] {
      var n := |input| - 1;
      var init := input[..n];
      SurvivorsAre(v, level, init, snapshot);
      forall i | 0 <= i < n
        ensures Dropped(v, level, init, i, snapshot) <==> Dropped(v, level, input, i, snapshot)
      {
        PrefixDrop(v, level, input, i, snapshot);
        PrefixDrop(v, level, init, i, snapshot);
        assert input[..i + 1] == init[..i + 1];
      }
      forall e | e in Survivors(v, level, init, snapshot) ensures Less(e.key, input[n].key) {
        var i :| 0 <= i < |init| && init[i] == e && !Dropped(v, level, init, i, snapshot);
        assert init[i] == input[i];
      }
      assert forall i :: 0 <= i < n ==> init[i] == input[i];
    }
  }

  /** What must hold of the entries that stay where they are: none is older than a base-level tombstone. */
  ghost predicate TombstonesSafe(v: seq<seq<File>>, level: nat, rest: set<Entry>, input: seq<Entry>) {
    forall e, x :: e in input && x in rest && IsBase(v, level, e.key.user) ==> Before(x, e)
  }

  /** A pass that exhausts its input preserves reads: at every sequence number from the oldest snapshot
      on, every key reads the same before and after, although shadowed versions and dead tombstones are gone. */
  lemma PassPreservesReads(v: seq<seq<File>>, level: nat, rest: set<Entry>, input: seq<Entry>, snapshot: nat, k: UserKey, s: nat)
    requires Sorted(input) && Functional(rest + Contents(input)) && TombstonesSafe(v, level, rest, input)
    requires s >= snapshot
    ensures Read(rest + Contents(Survivors(v, level, input, snapshot)), k, s) == Read(rest + Contents(input), k, s)
  {
    var before := rest + Contents(input);
    var out := Survivors(v, level, input, snapshot);
    var after := rest + Contents(out);
    SurvivorsAre(v, level, input, snapshot);
    assert after <= before;
    NewestIs(before, k, s);
    NewestIs(after, k, s);
    match Newest(before, k, s)
    case None =>
    case Some(e) =>
      assert IsNewest(before, k, s, e);
      if e in after {
        assert IsNewest(after, k, s, e);
      } else {
        var i :| 0 <= i < |input| && input[i] == e;
        NewestNotShadowed(before, input, i, snapshot, k, s);
        NothingBelowTombstone(v, level, rest, input, i, snapshot, k, s);
      }
  }

  lemma NewestNotShadowed(before: set<Entry>, input: seq<Entry>, i: nat, snapshot: nat, k: UserKey, s: nat)
    requires Sorted(input) && Functional(before) && Contents(input) <= before && i < |input| && s >= snapshot
    requires IsNewest(before, k, s, input[i])
    ensures !Shadowed(input, i, snapshot)
  {
    forall j | 0 <= j < i && input[j].key.user == input[i].key.user
      ensures input[j].key.seqno > snapshot
    {
      assert input[j] in Contents(input);
      assert Less(input[j].key, input[i].key);
    }
  }

  /** Once a dead tombstone is the newest version, dropping it leaves no version to be read. */
  lemma NothingBelowTombstone(v: seq<seq<File>>, level: nat, rest: set<Entry>, input: seq<Entry>, i: nat, snapshot: nat, k: UserKey, s: nat)
    requires Sorted(input) && Functional(rest + Contents(input)) && TombstonesSafe(v, level, rest, input)
    requires i < |input| && s >= snapshot && IsNewest(rest + Contents(input), k, s, input[i])
    requires DeadTombstone(v, level, input[i], snapshot)
    ensures Newest(rest + Contents(Survivors(v, level, input, snapshot)), k, s).None?
  {
    var out := Survivors(v, level, input, snapshot);
    SurvivorsAre(v, level, input, snapshot);
    NewestIs(rest + Contents(out), k, s);
    forall x | x in rest + Contents(out) ensures !Candidate(x, k, s) {
      if x in rest {
        assert Before(x, input[i]);
      } else {
        SurvivorsAbove(v, level, input, i, snapshot, x);
      }
      assert x in rest + Contents(input);
    }
  }

  /** Of the user key of a dead tombstone, only newer versions survive. */
  lemma SurvivorsAbove(v: seq<seq<File>>, level: nat, input: seq<Entry>, i: nat, snapshot: nat, x: Entry)
    requires Sorted(input) && i < |input| && DeadTombstone(v, level, input[i], snapshot)
    requires x in Survivors(v, level, input, snapshot)
    ensures Before(x, input[i])
  {
    SurvivorsAre(v, level, input, snapshot);
    var j :| 0 <= j < |input| && input[j] == x && !Dropped(v, level, input, j, snapshot);
    assert j < i ==> Less(input[j].key, input[i].key);
    assert i < j ==> input[i].key.user != input[j].key.user;
  }

  // ---------------------------------------------------------------------------------------------
  // What a pass gets rid of

  /** Some reader from the oldest snapshot on would be answered by this entry of the input. */
  ghost predicate Asked(input: seq<Entry>, e: Entry, snapshot: nat) {
    exists s :: s >= snapshot && IsNewest(Contents(input), e.key.user, s, e)
  }

  /** A deletion that the oldest snapshot sees and that has no file to hide anything in. */
  ghost predicate HidesNothing(v: seq<seq<File>>, level: nat, e: Entry, snapshot: nat) {
    && e.key.kind.Deletion? && e.key.seqno <= snapshot
    && forall l, f :: level + 2 <= l < |v| && f in v[l] ==> e.key.user < Lo(f) || Hi(f) < e.key.user
  }

  /** Nothing is kept without need: each survivor is what some reader from the oldest snapshot on would find,
      and a deletion that all of them see is kept only where a deeper file reaches over its user key. */
  lemma SurvivorsAreNeeded(v: seq<seq<File>>, level: nat, input: seq<Entry>, snapshot: nat, e: Entry)
    requires Sorted(input) && e in Survivors(v, level, input, snapshot)
    ensures e in input && Asked(input, e, snapshot) && !HidesNothing(v, level, e, snapshot)
  {
    SurvivorsAre(v, level, input, snapshot);
    var i :| 0 <= i < |input| && input[i] == e && !Dropped(v, level, input, i, snapshot);
    var s := if e.key.seqno > snapshot then e.key.seqno else snapshot;
    forall x | x in Contents(input) && Candidate(x, e.key.user, s) ensures x.key.seqno <= e.key.seqno {
      var j :| 0 <= j < |input| && input[j] == x;
      assert i < j ==> Less(input[i].key, input[j].key);
    }
    assert IsNewest(Contents(input), e.key.user, s, e);
  }

  /** A pass keeps exactly what is needed: an entry of the input survives if and only if some reader from the
      oldest snapshot on would find it, and it is no deletion that hides nothing. */
  lemma CollectionExact(v: seq<seq<File>>, level: nat, input: seq<Entry>, snapshot: nat, e: Entry)
    requires Sorted(input) && Functional(Contents(input))
    ensures e in Survivors(v, level, input, snapshot)
            <==> e in input && Asked(input, e, snapshot) && !HidesNothing(v, level, e, snapshot)
  {
    hide Survivors, Sorted, Functional, IsNewest;
    if e in Survivors(v, level, input, snapshot) {
      SurvivorsAreNeeded(v, level, input, snapshot, e);
    }
    if e in input && Asked(input, e, snapshot) && !HidesNothing(v, level, e, snapshot) {
      SurvivorsAre(v, level, input, snapshot);
      var i :| 0 <= i < |input| && input[i] == e;
      var s :| s >= snapshot && IsNewest(Contents(input), e.key.user, s, e);
      NewestNotShadowed(Contents(input), input, i, snapshot, e.key.user, s);
    }
  }

  // ---------------------------------------------------------------------------------------------
  // The two ways a pass can go wrong

  /** The newest version of its user key in the input. */
  predicate FirstOfKey(input: seq<Entry>, i: nat)
    requires i < |input|
  {
    i == 0 || input[i - 1].key.user != input[i].key.user
  }

  /** A pass cut short after `n` entries writes what a full pass would exactly when every entry it did not
      reach would have been dropped. */
  lemma {:induction false} SameOutput(v: seq<seq<File>>, level: nat, input: seq<Entry>, snapshot: nat, n: nat)
    requires n <= |input|
    ensures Survivors(v, level, input[..n], snapshot) == Survivors(v, level, input, snapshot) <==>
              forall i :: n <= i < |input| ==> Dropped(v, level, input, i, snapshot)
    ensures |Survivors(v, level, input[..n], snapshot)| <= |Survivors(v, level, input, snapshot)|
    decreases |input| - n
  {
    if n == |input| {
      assert input[..n] == input;
    } else {
      SameOutput(v, level, input, snapshot, n + 1);
      PrefixDrop(v, level, input, n, snapshot);
    }
  }

  /** Nothing at all survives exactly when every user key's newest version is a dead tombstone. */
  lemma NothingSurvives(v: seq<seq<File>>, level: nat, input: seq<Entry>, snapshot: nat)
    requires Sorted(input)
    ensures Survivors(v, level, input, snapshot) == [] <==>
              forall i :: 0 <= i < |input| && FirstOfKey(input, i) ==> DeadTombstone(v, level, input[i], snapshot)
  {
    SameOutput(v, level, input, snapshot, 0);
    forall i | 0 <= i < |input| && FirstOfKey(input, i)
      ensures Dropped(v, level, input, i, snapshot) <==> DeadTombstone(v, level, input[i], snapshot)
    {
      ShadowedByLast(input, i, snapshot);
    }
    forall i | 0 <= i < |input|
      ensures exists j :: 0 <= j <= i && FirstOfKey(input, j) &&
                (DeadTombstone(v, level, input[j], snapshot) ==> Dropped(v, level, input, i, snapshot))
    {
      var j := FirstIsBefore(input, i);
    }
  }

  lemma {:induction false} FirstIsBefore(input: seq<Entry>, i: nat) returns (j: nat)
    requires Sorted(input) && i < |input|
    ensures j <= i && FirstOfKey(input, j) && input[j].key.user == input[i].key.user
    ensures j < i ==> forall s :: input[j].key.seqno <= s ==> Shadowed(input, i, s)
  {
    if FirstOfKey(input, i) {
      j := i;
    } else {
      j := FirstIsBefore(input, i - 1);
    }
  }

  /** No newer version of its user key is visible to every snapshot: some reader may still ask for it. */
  ghost predicate Exposed(S: set<Entry>, e: Entry, snapshot: nat) {
    forall x :: x in S && x.key.user == e.key.user && x.key.seqno > e.key.seqno ==> x.key.seqno > snapshot
  }

  /** What would be read in place of an entry that is lost: the newest version below it that stays. */
  ghost function Below(rest: set<Entry>, e: Entry): Option<Value> {
    Read(rest, e.key.user, e.key.seqno)
  }

  /** A pass that stops after `n` entries, its inputs being removed all the same, leaves every read at or above
      the oldest snapshot alone if and only if each entry it did not reach is one no such reader asks for,
      or says what the versions below it that stay say. */
  lemma EarlyStopExact(v: seq<seq<File>>, level: nat, rest: set<Entry>, input: seq<Entry>, snapshot: nat, n: nat)
    requires Sorted(input) && Functional(rest + Contents(input)) && TombstonesSafe(v, level, rest, input) && n <= |input|
    ensures (forall k, s :: s >= snapshot ==>
               Read(rest + Contents(Survivors(v, level, input[..n], snapshot)), k, s) == Read(rest + Contents(input), k, s))
            <==> (forall i :: n <= i < |input| && Exposed(rest + Contents(input), input[i], snapshot) ==>
                    Below(rest, input[i]) == Live(input[i]))
  {
    hide Survivors, Functional, TombstonesSafe;
    var out := Survivors(v, level, input[..n], snapshot);
    if forall i :: n <= i < |input| && Exposed(rest + Contents(input), input[i], snapshot) ==> Below(rest, input[i]) == Live(input[i]) {
      forall k, s | s >= snapshot ensures Read(rest + Contents(out), k, s) == Read(rest + Contents(input), k, s) {
        StoppedReads(v, level, rest, input, snapshot, n, k, s);
        CutKeepsRead(rest, input, snapshot, n, k, s);
      }
    } else {
      var i :| n <= i < |input| && Exposed(rest + Contents(input), input[i], snapshot) && Below(rest, input[i]) != Live(input[i]);
      var k := input[i].key.user;
      var s := if input[i].key.seqno > snapshot then input[i].key.seqno else snapshot;
      StoppedReads(v, level, rest, input, snapshot, n, k, s);
      ExposedIsNewest(rest, input, i, snapshot, s);
      LostReadsBelow(rest, input, n, i, s);
    }
  }

  /** What was copied reads like all that was reached. */
  lemma StoppedReads(v: seq<seq<File>>, level: nat, rest: set<Entry>, input: seq<Entry>, snapshot: nat, n: nat, k: UserKey, s: nat)
    requires Sorted(input) && Functional(rest + Contents(input)) && TombstonesSafe(v, level, rest, input) && n <= |input|
    requires s >= snapshot
    ensures Read(rest + Contents(Survivors(v, level, input[..n], snapshot)), k, s) == Read(rest + Contents(input[..n]), k, s)
  {
    assert forall e :: e in input[..n] ==> e in input;
    assert rest + Contents(input[..n]) <= rest + Contents(input);
    PassPreservesReads(v, level, rest, input[..n], snapshot, k, s);
  }

  lemma ExposedIsNewest(rest: set<Entry>, input: seq<Entry>, i: nat, snapshot: nat, s: nat)
    requires i < |input| && Exposed(rest + Contents(input), input[i], snapshot)
    requires s == if input[i].key.seqno > snapshot then input[i].key.seqno else snapshot
    ensures IsNewest(rest + Contents(input), input[i].key.user, s, input[i])
  {
    assert input[i] in Contents(input);
  }

  /** Where an entry not reached was the answer, the answer now comes from below it. */
  lemma LostReadsBelow(rest: set<Entry>, input: seq<Entry>, n: nat, i: nat, s: nat)
    requires Sorted(input) && Functional(rest + Contents(input)) && n <= i < |input|
    requires IsNewest(rest + Contents(input), input[i].key.user, s, input[i])
    ensures Read(rest + Contents(input[..n]), input[i].key.user, s) == Below(rest, input[i])
    ensures Read(rest + Contents(input), input[i].key.user, s) == Live(input[i])
  {
    var e, all, cut := input[i], rest + Contents(input), rest + Contents(input[..n]);
    var k := e.key.user;
    NewestIs(all, k, s);
    assert forall j :: 0 <= j < n ==> Less(input[..n][j].key, e.key);
    forall x | x in cut && Candidate(x, k, s) ensures x in rest && Candidate(x, k, e.key.seqno) {
      assert x in all;
    }
    SameCandidates(rest, cut, k, e.key.seqno, s);
  }

  lemma SameCandidates(rest: set<Entry>, cut: set<Entry>, k: UserKey, t: nat, s: nat)
    requires Functional(cut) && rest <= cut && t <= s
    requires forall x :: x in cut && Candidate(x, k, s) ==> x in rest && Candidate(x, k, t)
    ensures Read(rest, k, t) == Read(cut, k, s)
  {
    NewestIs(cut, k, s);
    NewestIs(rest, k, t);
    match Newest(rest, k, t)
    case None =>
    case Some(e) => assert IsNewest(rest, k, t, e) && IsNewest(cut, k, s, e);
  }

  lemma CutKeepsRead(rest: set<Entry>, input: seq<Entry>, snapshot: nat, n: nat, k: UserKey, s: nat)
    requires Sorted(input) && Functional(rest + Contents(input)) && n <= |input| && s >= snapshot
    requires forall i :: n <= i < |input| && Exposed(rest + Contents(input), input[i], snapshot) ==> Below(rest, input[i]) == Live(input[i])
    ensures Read(rest + Contents(input[..n]), k, s) == Read(rest + Contents(input), k, s)
  {
    forall i | n <= i < |input| && IsNewest(rest + Contents(input), input[i].key.user, s, input[i])
      ensures Below(rest, input[i]) == Live(input[i])
    {
      assert Exposed(rest + Contents(input), input[i], snapshot);
    }
    CutKeepsReadAt(rest, input, n, k, s);
  }

  lemma CutKeepsReadAt(rest: set<Entry>, input: seq<Entry>, n: nat, k: UserKey, s: nat)
    requires Sorted(input) && Functional(rest + Contents(input)) && n <= |input|
    requires forall i :: n <= i < |input| && IsNewest(rest + Contents(input), input[i].key.user, s, input[i]) ==>
               Below(rest, input[i]) == Live(input[i])
    ensures Read(rest + Contents(input[..n]), k, s) == Read(rest + Contents(input), k, s)
  {
    var all, cut := rest + Contents(input), rest + Contents(input[..n]);
    assert cut <= all by { assert forall e :: e in input[..n] ==> e in input; }
    assert forall i :: 0 <= i < n ==> input[..n][i] == input[i];
    NewestIs(all, k, s);
    NewestIs(cut, k, s);
    match Newest(all, k, s)
    case None =>
    case Some(e) =>
      assert IsNewest(all, k, s, e);
      if e in cut {
        assert IsNewest(cut, k, s, e);
      } else {
        var i :| 0 <= i < |input| && input[i] == e;
        LostReadsBelow(rest, input, n, i, s);
      }
  }

  /** The same at one sequence number: the entries that matter are those that answer there. */
  lemma EarlyStopAt(v: seq<seq<File>>, level: nat, rest: set<Entry>, input: seq<Entry>, snapshot: nat, n: nat, s: nat)
    requires Sorted(input) && Functional(rest + Contents(input)) && TombstonesSafe(v, level, rest, input) && n <= |input|
    requires s >= snapshot
    ensures (forall k :: Read(rest + Contents(Survivors(v, level, input[..n], snapshot)), k, s) == Read(rest + Contents(input), k, s))
            <==> (forall i :: n <= i < |input| && IsNewest(rest + Contents(input), input[i].key.user, s, input[i]) ==>
                    Below(rest, input[i]) == Live(input[i]))
  {
    hide Survivors, Functional, TombstonesSafe, IsNewest, Read, Below;
    if forall i :: n <= i < |input| && IsNewest(rest + Contents(input), input[i].key.user, s, input[i]) ==>
         Below(rest, input[i]) == Live(input[i])
    {
      forall k ensures Read(rest + Contents(Survivors(v, level, input[..n], snapshot)), k, s) == Read(rest + Contents(input), k, s) {
        StoppedReads(v, level, rest, input, snapshot, n, k, s);
        CutKeepsReadAt(rest, input, n, k, s);
      }
    } else {
      var i :| n <= i < |input| && IsNewest(rest + Contents(input), input[i].key.user, s, input[i])
                && Below(rest, input[i]) != Live(input[i]);
      StoppedReads(v, level, rest, input, snapshot, n, input[i].key.user, s);
      LostReadsBelow(rest, input, n, i, s);
    }
  }

  /** A prefix of the input leaves something if and only if it reaches the newest version of a user key that is
      not a dead tombstone. */
  lemma PrefixSurvives(v: seq<seq<File>>, level: nat, input: seq<Entry>, snapshot: nat, n: nat)
    requires Sorted(input) && n <= |input|
    ensures Survivors(v, level, input[..n], snapshot) != [] <==> ReachesSurvivor(v, level, input, snapshot, n)
  {
    hide Survivors, DeadTombstone;
    assert forall i :: 0 <= i < n ==> input[..n][i] == input[i] && (FirstOfKey(input[..n], i) <==> FirstOfKey(input, i));
    NothingSurvives(v, level, input[..n], snapshot);
  }

  ghost predicate ReachesSurvivor(v: seq<seq<File>>, level: nat, input: seq<Entry>, snapshot: nat, n: nat)
    requires n <= |input|
  {
    exists i :: 0 <= i < n && FirstOfKey(input, i) && !DeadTombstone(v, level, input[i], snapshot)
  }
}
