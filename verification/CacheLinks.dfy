/** The links between the entries of a cache shard: the two rings ordered by use, and the chains of the hash
    table. What the other modules take as sequences is here what these links spell out. */
module CacheLinks {
  import opened HandleTable
  import opened LruCache

  class Entry {
    const handle: Handle
    var nextHash: Entry?
    var next: Entry?
    var prev: Entry?

    constructor (handle: Handle)
      ensures this.handle == handle
    {
      this.handle := handle;
      nextHash, next, prev := null, null, null;
    }
  }

  // ---------------------------------------------------------------------------------------------
  // Rings

  function Succ(i: nat, n: nat): (s: nat)
    requires i < n
    ensures s < n
  {
    if i + 1 < n then i + 1 else 0
  }

  function Pred(i: nat, n: nat): (p: nat)
    requires i < n
    ensures p < n
  {
    if i == 0 then n - 1 else i - 1
  }

  ghost predicate AllDifferent(links: seq<Entry>) {
    forall i, j :: 0 <= i < j < |links| ==> links[i] != links[j]
  }

  /** The entries follow one another in a circle, in both directions. */
  ghost predicate InCircle(links: seq<Entry>, nx: seq<Entry?>, pv: seq<Entry?>) {
    && |links| == |nx| == |pv| > 0 && AllDifferent(links)
    && forall i :: 0 <= i < |links| ==> nx[i] == links[Succ(i, |links|)] && pv[i] == links[Pred(i, |links|)]
  }

  ghost function NextLinks(links: seq<Entry>): seq<Entry?>
    reads links
  {
    seq(|links|, i requires 0 <= i < |links| reads links => links[i].next)
  }

  ghost function PrevLinks(links: seq<Entry>): seq<Entry?>
    reads links
  {
    seq(|links|, i requires 0 <= i < |links| reads links => links[i].prev)
  }

  ghost predicate IsRing(links: seq<Entry>)
    reads links
  {
    InCircle(links, NextLinks(links), PrevLinks(links))
  }

  /** What a list of the cache holds: the ring without the dummy it hangs on, oldest first. */
  ghost function IdsOf(links: seq<Entry>): seq<nat> {
    if links == [] then [] else seq(|links| - 1, i requires 0 <= i < |links| - 1 => links[i + 1].handle.id)
  }

  class LruList {
    const list: Entry
    ghost var links: seq<Entry>

    ghost predicate Valid()
      reads this, links
    {
      IsRing(links) && links[0] == list && NoDuplicates(IdsOf(links))
    }

    ghost function Ids(): seq<nat>
      reads this
    {
      IdsOf(links)
    }

    constructor (dummy: Entry)
      modifies dummy
      ensures Valid() && list == dummy && links == [dummy] && Ids() == []
    {
      list, links := dummy, [dummy];
      new;
      dummy.next, dummy.prev := dummy, dummy;
    }

    /** The entry just before the dummy is the newest. */
    method Append(e: Entry)
      requires Valid() && e !in links && e.handle.id !in Ids()
      modifies this, links, e
      ensures Valid() && links == old(links) + [e] && Ids() == old(Ids()) + [e.handle.id]
    {
      hide IdsOf, NoDuplicates;
      LinkLast(e);
      IdsWith(links, e);
      links := links + [e];
    }

    method LinkLast(e: Entry)
      requires IsRing(links) && links[0] == list && e !in links
      modifies links, e
      ensures IsRing(links + [e])
    {
      ghost var n, nx, pv := |links|, NextLinks(links), PrevLinks(links);
      assert list.prev == pv[0] == links[Pred(0, n)];
      e.next := list;
      e.prev := list.prev;
      e.prev.next := e;
      e.next.prev := e;
      CircleWith(links, nx, pv, e);
      assert NextLinks(links + [e]) == nx[n - 1 := e] + [list];
      assert PrevLinks(links + [e]) == pv[0 := e] + [pv[0]];
    }

    method Remove(e: Entry)
      requires Valid() && e in links && e != list
      modifies this, links
      ensures Valid() && Ids() == Without(old(Ids()), e.handle.id)
      ensures forall x :: x in links <==> x in old(links) && x != e
    {
      hide IdsOf, NoDuplicates, Without;
      ghost var i :| 0 <= i < |links| && links[i] == e;
      Unlink(e, i);
      IdsWithout(links, i);
      links := links[..i] + links[i + 1..];
    }

    /** The neighbours of an entry are linked to each other. */
    method Unlink(e: Entry, ghost i: nat)
      requires IsRing(links) && 0 < i < |links| && links[i] == e
      modifies links
      ensures IsRing(links[..i] + links[i + 1..])
    {
      hide InCircle;
      ghost var n, nx, pv := |links|, NextLinks(links), PrevLinks(links);
      Neighbours(links, nx, pv, i);
      ghost var a, b := Pred(i, n), Succ(i, n);
      assert e.next == nx[i] && e.prev == pv[i];
      e.next.prev := e.prev;
      e.prev.next := e.next;
      CircleWithout(links, nx, pv, i);
      LinksWithout(links, nx[a := links[b]], pv[b := links[a]], i);
    }

    /** The entry that was out of use longest, if there is one. */
    method Oldest() returns (e: Entry?)
      requires Valid()
      ensures e == null <==> Ids() == []
      ensures e != null ==> e in links && e != list && e.handle.id == Ids()[0]
    {
      assert NextLinks(links)[0] == links[Succ(0, |links|)];
      assert |links| > 1 ==> links[0] != links[1];
      e := if list.next == list then null else list.next;
    }
  }

  /** `Ref` and `Unref` move an entry from one list of the shard to the other. */
  method MoveTo(from: LruList, to: LruList, e: Entry)
    requires from.Valid() && to.Valid() && from != to && (forall x :: x in from.links ==> x !in to.links)
    requires e in from.links && e != from.list && e.handle.id !in to.Ids()
    modifies from, to, from.links, to.links
    ensures from.Valid() && to.Valid() && forall x :: x in from.links ==> x !in to.links
    ensures from.Ids() == Without(old(from.Ids()), e.handle.id) && to.Ids() == old(to.Ids()) + [e.handle.id]
  {
    hide InCircle, IdsOf, NoDuplicates, Without;
    ghost var there, nx, pv := to.links, NextLinks(to.links), PrevLinks(to.links);
    assert forall k :: 0 <= k < |there| ==> there[k] in there && there[k] !in from.links;
    from.Remove(e);
    assert NextLinks(there) == nx && PrevLinks(there) == pv;
    ghost var here, nx', pv' := from.links, NextLinks(from.links), PrevLinks(from.links);
    assert forall k :: 0 <= k < |here| ==> here[k] in here && here[k] != e && here[k] !in to.links;
    to.Append(e);
    assert NextLinks(here) == nx' && PrevLinks(here) == pv';
  }

  lemma CircleWith(links: seq<Entry>, nx: seq<Entry?>, pv: seq<Entry?>, e: Entry)
    requires InCircle(links, nx, pv) && e !in links
    ensures InCircle(links + [e], nx[|links| - 1 := e] + [links[0]], pv[0 := e] + [pv[0]])
  {
  }

  lemma Neighbours(links: seq<Entry>, nx: seq<Entry?>, pv: seq<Entry?>, i: nat)
    requires InCircle(links, nx, pv) && 0 < i < |links|
    ensures var a, b := Pred(i, |links|), Succ(i, |links|);
            && a != i && b != i && |nx| == |pv| == |links| && nx[i] == links[b] && pv[i] == links[a]
            && (forall k :: 0 <= k < |links| && k != a ==> links[k] != links[a])
            && (forall k :: 0 <= k < |links| && k != b ==> links[k] != links[b])
  {
  }

  lemma LinksWithout(links: seq<Entry>, nx: seq<Entry?>, pv: seq<Entry?>, i: nat)
    requires i < |links| == |nx| == |pv|
    requires forall k :: 0 <= k < |links| ==> links[k].next == nx[k] && links[k].prev == pv[k]
    ensures NextLinks(links[..i] + links[i + 1..]) == nx[..i] + nx[i + 1..]
    ensures PrevLinks(links[..i] + links[i + 1..]) == pv[..i] + pv[i + 1..]
  {
  }

  lemma CircleWithout(links: seq<Entry>, nx: seq<Entry?>, pv: seq<Entry?>, i: nat)
    requires InCircle(links, nx, pv) && 0 < i < |links|
    ensures var a, b := Pred(i, |links|), Succ(i, |links|);
            var nx', pv' := nx[a := links[b]], pv[b := links[a]];
            InCircle(links[..i] + links[i + 1..], nx'[..i] + nx'[i + 1..], pv'[..i] + pv'[i + 1..])
  {
    hide Succ, Pred;
    var n, rest := |links|, links[..i] + links[i + 1..];
    var a, b := Pred(i, n), Succ(i, n);
    var nx', pv' := nx[a := links[b]], pv[b := links[a]];
    var nexts, prevs := nx'[..i] + nx'[i + 1..], pv'[..i] + pv'[i + 1..];
    forall k | 0 <= k < n - 1 ensures nexts[k] == rest[Succ(k, n - 1)] && prevs[k] == rest[Pred(k, n - 1)] {
      CircleWithoutAt(links, nx, pv, i, k);
    }
    DifferentWithout(links, i);
  }

  lemma DifferentWithout(links: seq<Entry>, i: nat)
    requires AllDifferent(links) && i < |links|
    ensures AllDifferent(links[..i] + links[i + 1..])
  {
    var rest := links[..i] + links[i + 1..];
    assert forall k :: 0 <= k < |rest| ==> rest[k] == links[if k < i then k else k + 1];
  }

  lemma CircleWithoutAt(links: seq<Entry>, nx: seq<Entry?>, pv: seq<Entry?>, i: nat, k: nat)
    requires InCircle(links, nx, pv) && 0 < i < |links| && k < |links| - 1
    ensures var n, rest := |links|, links[..i] + links[i + 1..];
            var a, b := Pred(i, n), Succ(i, n);
            var nx', pv' := nx[a := links[b]], pv[b := links[a]];
            (nx'[..i] + nx'[i + 1..])[k] == rest[Succ(k, n - 1)] && (pv'[..i] + pv'[i + 1..])[k] == rest[Pred(k, n - 1)]
  {
    var o := if k < i then k else k + 1;
    assert nx[o] == links[Succ(o, |links|)] && pv[o] == links[Pred(o, |links|)];
  }

  lemma IdsAre(links: seq<Entry>)
    requires links != []
    ensures |IdsOf(links)| == |links| - 1 && forall i :: 0 <= i < |links| - 1 ==> IdsOf(links)[i] == links[i + 1].handle.id
  {
  }

  lemma IdsWith(links: seq<Entry>, e: Entry)
    requires links != [] && NoDuplicates(IdsOf(links)) && e.handle.id !in IdsOf(links)
    ensures IdsOf(links + [e]) == IdsOf(links) + [e.handle.id] && NoDuplicates(IdsOf(links + [e]))
  {
    hide IdsOf;
    IdsAre(links);
    IdsAre(links + [e]);
  }

  lemma IdsWithout(links: seq<Entry>, i: nat)
    requires 0 < i < |links| && NoDuplicates(IdsOf(links))
    ensures IdsOf(links[..i] + links[i + 1..]) == Without(IdsOf(links), links[i].handle.id)
    ensures NoDuplicates(IdsOf(links[..i] + links[i + 1..]))
  {
    hide IdsOf, Without, NoDuplicates;
    var ids, rest := IdsOf(links), links[..i] + links[i + 1..];
    IdsAre(links);
    IdsAre(rest);
    WithoutAt(ids, i - 1);
    WithoutUnique(ids, ids[i - 1]);
    forall k | 0 <= k < |rest| - 1 ensures IdsOf(rest)[k] == (ids[..i - 1] + ids[i..])[k] {
      assert k < i - 1 ==> rest[k + 1] == links[k + 1];
      assert k >= i - 1 ==> rest[k + 1] == links[k + 2];
    }
    assert IdsOf(rest) == ids[..i - 1] + ids[i..];
  }

  // ---------------------------------------------------------------------------------------------
  // Chains

  ghost function At(nodes: seq<Entry>, i: nat): Entry? {
    if i < |nodes| then nodes[i] else null
  }

  ghost function Hashes(nodes: seq<Entry>): seq<Entry?>
    reads nodes
  {
    seq(|nodes|, i requires 0 <= i < |nodes| reads nodes => nodes[i].nextHash)
  }

  ghost predicate InChain(head: Entry?, nodes: seq<Entry>, nx: seq<Entry?>) {
    head == At(nodes, 0) && |nx| == |nodes| && forall i :: 0 <= i < |nodes| ==> nx[i] == At(nodes, i + 1)
  }

  /** The links of a bucket lead through these entries. */
  ghost predicate IsChain(head: Entry?, nodes: seq<Entry>)
    reads nodes
  {
    InChain(head, nodes, Hashes(nodes))
  }

  /** No entry is in two places. */
  ghost predicate Apart(chains: seq<seq<Entry>>) {
    forall b, i, c, j ::
      (0 <= b < |chains| && 0 <= i < |chains[b]| && 0 <= c < |chains| && 0 <= j < |chains[c]| && chains[b][i] == chains[c][j])
      ==> b == c && i == j
  }

  ghost predicate Chained(heads: seq<Entry?>, chains: seq<seq<Entry>>)
    reads EntriesOf(chains)
  {
    && |heads| == |chains| && Apart(chains)
    && forall b :: 0 <= b < |chains| ==> IsChain(heads[b], chains[b])
  }

  ghost function EntriesOf(chains: seq<seq<Entry>>): set<Entry> {
    set b, i | 0 <= b < |chains| && 0 <= i < |chains[b]| :: chains[b][i]
  }

  ghost function HandlesOf(nodes: seq<Entry>): (r: seq<Handle>)
    ensures |r| == |nodes| && forall i :: 0 <= i < |nodes| ==> r[i] == nodes[i].handle
  {
    seq(|nodes|, i requires 0 <= i < |nodes| => nodes[i].handle)
  }

  /** The buckets as `HandleTable` has them. */
  ghost function ListOf(chains: seq<seq<Entry>>): (r: seq<seq<Handle>>)
    ensures |r| == |chains| && forall b :: 0 <= b < |chains| ==> r[b] == HandlesOf(chains[b])
  {
    seq(|chains|, b requires 0 <= b < |chains| => HandlesOf(chains[b]))
  }

  class ChainTable {
    var heads: seq<Entry?>
    ghost var chains: seq<seq<Entry>>

    ghost predicate Valid()
      reads this, EntriesOf(chains)
    {
      |heads| > 0 && Chained(heads, chains)
    }

    constructor (length: nat)
      requires length > 0
      ensures Valid() && chains == seq(length, i => [])
    {
      heads := seq(length, i => null);
      chains := seq(length, i => []);
    }

    /** The link that leads to the entry with this key and hash, or to the end of its chain: it is the head of
        the bucket, or in the entry before. */
    method FindPointer(key: int, hash: nat) returns (b: nat, before: Entry?, found: Entry?, ghost p: nat)
      requires Valid()
      ensures b == Bucket(hash, |heads|) && p <= |chains[b]| && found == At(chains[b], p)
      ensures before == (if p == 0 then null else chains[b][p - 1])
      ensures found != null ==> TagOf(found.handle) == Tag(key, hash)
      ensures forall i :: 0 <= i < p ==> TagOf(chains[b][i].handle) != Tag(key, hash)
    {
      hide Apart, Bucket;
      b := Bucket(hash, |heads|);
      before, found, p := null, heads[b], 0;
      assert IsChain(heads[b], chains[b]);
      while found != null && (found.handle.hash != hash || found.handle.key != key)
        invariant p <= |chains[b]| && found == At(chains[b], p)
        invariant before == if p == 0 then null else chains[b][p - 1]
        invariant forall i :: 0 <= i < p ==> TagOf(chains[b][i].handle) != Tag(key, hash)
        decreases |chains[b]| - p
      {
        assert Hashes(chains[b])[p] == found.nextHash;
        before, found, p := found, found.nextHash, p + 1;
      }
    }

    /** `*ptr = e`. */
    method SetPointer(b: nat, before: Entry?, e: Entry?)
      requires b < |heads|
      modifies `heads, before
      ensures before == null ==> heads == old(heads)[b := e]
      ensures before != null ==> heads == old(heads) && before.nextHash == e
    {
      if before == null {
        heads := heads[b := e];
      } else {
        before.nextHash := e;
      }
    }

    /** Put an entry in, in the place of the one with its key and hash or at the end of the chain. */
    method Insert(h: Entry) returns (replaced: Entry?, ghost b: nat, ghost p: nat)
      requires Valid() && h !in EntriesOf(chains)
      modifies this, h, EntriesOf(chains)
      ensures Valid() && |heads| == |old(heads)| && b == Bucket(h.handle.hash, |heads|) && p <= |old(chains)[b]|
      ensures chains == old(chains)[b := PutAt(old(chains)[b], p, h)] && replaced == At(old(chains)[b], p)
      ensures replaced != null ==> TagOf(replaced.handle) == TagOf(h.handle)
      ensures forall i :: 0 <= i < p ==> TagOf(old(chains)[b][i].handle) != TagOf(h.handle)
    {
      hide Bucket, Apart, InChain;
      var bucket, before;
      bucket, before, replaced, p := FindPointer(h.handle.key, h.handle.hash);
      b := bucket;
      ghost var cs, hs, nx := chains, heads, Hashes(chains[b]);
      Untouched(cs, b, p, h);
      var rest := if replaced == null then null else replaced.nextHash;
      h.nextHash := rest;
      SetPointer(bucket, before, h);
      chains := chains[b := PutAt(cs[b], p, h)];
      PutApart(cs, b, p, h);
      PutVals(hs[b], cs[b], nx, p, h);
      assert Hashes(chains[b]) == PutNexts(nx, p, h);
      forall c | 0 <= c < |chains| && c != b ensures IsChain(heads[c], chains[c]) {
        assert IsChain(hs[c], cs[c]);
        assert Hashes(cs[c]) == old(Hashes(cs[c]));
      }
    }

    /** Take the entry with this key and hash out of its chain. */
    method Remove(key: int, hash: nat) returns (removed: Entry?, ghost b: nat, ghost p: nat)
      requires Valid()
      modifies this, EntriesOf(chains)
      ensures Valid() && |heads| == |old(heads)| && b == Bucket(hash, |heads|) && p <= |old(chains)[b]|
      ensures removed == At(old(chains)[b], p) && (removed != null ==> TagOf(removed.handle) == Tag(key, hash))
      ensures forall i :: 0 <= i < p ==> TagOf(old(chains)[b][i].handle) != Tag(key, hash)
      ensures chains == if removed == null then old(chains) else old(chains)[b := TakeAt(old(chains)[b], p)]
    {
      hide Bucket, Apart, InChain;
      var bucket, before;
      bucket, before, removed, p := FindPointer(key, hash);
      b := bucket;
      if removed == null {
        return;
      }
      ghost var cs, hs, nx := chains, heads, Hashes(chains[b]);
      Others(cs, b, p);
      SetPointer(bucket, before, removed.nextHash);
      chains := chains[b := TakeAt(cs[b], p)];
      TakeApart(cs, b, p);
      TakeVals(hs[b], cs[b], nx, p);
      assert Hashes(chains[b]) == TakeNexts(nx, p);
      forall c | 0 <= c < |chains| && c != b ensures IsChain(heads[c], chains[c]) {
        assert IsChain(hs[c], cs[c]);
        assert Hashes(cs[c]) == old(Hashes(cs[c]));
      }
    }
  }

  // ---------------------------------------------------------------------------------------------
  // Moving to another table

  /** `Resize`: every entry of every chain is moved, bucket after bucket. */
  method MoveAll(table: ChainTable, newLength: nat)
    requires table.Valid() && newLength > 0
    modifies table, EntriesOf(table.chains)
    ensures table.Valid() && |table.heads| == newLength && EntriesOf(table.chains) == old(EntriesOf(table.chains))
    ensures table.chains == PushedChains(seq(newLength, i => []), old(table.chains))
  {
    hide Apart, InChain, EntriesOf, PushedAll, Hashes;
    ghost var chains, heads := table.chains, table.heads;
    var newHeads: seq<Entry?> := seq(newLength, i => null);
    ghost var start: seq<seq<Entry>> := seq(newLength, i => []);
    ghost var cs := start;
    NewTable(newHeads, cs, chains);
    for i := 0 to |table.heads|
      invariant table.heads == heads && table.chains == chains
      invariant |newHeads| == newLength && Chained(newHeads, cs) && cs == PushedChains(start, chains[..i])
      invariant Apart(cs + chains[i..]) && EntriesOf(cs) + EntriesOf(chains[i..]) == EntriesOf(chains)
      invariant forall c :: i <= c < |chains| ==> IsChain(heads[c], chains[c])
    {
      BucketApart(cs, chains, i);
      newHeads := MoveChain(table.heads[i], newHeads, chains[i], cs);
      BucketMoved(start, cs, chains, i);
      cs := PushedAll(cs, chains[i]);
    }
    assert chains[..|chains|] == chains && chains[|chains|..] == [] && cs + [] == cs;
    NoEntries();
    table.heads := newHeads;
    table.chains := cs;
  }

  lemma NewTable(heads: seq<Entry?>, cs: seq<seq<Entry>>, chains: seq<seq<Entry>>)
    requires |heads| == |cs| > 0 && (forall b :: 0 <= b < |cs| ==> heads[b] == null && cs[b] == []) && Apart(chains)
    ensures Chained(heads, cs) && Apart(cs + chains[0..]) && cs == PushedChains(cs, chains[..0])
    ensures EntriesOf(cs) + EntriesOf(chains[0..]) == EntriesOf(chains)
  {
    hide PushedAll;
    assert chains[0..] == chains && EntriesOf(cs) == {};
    ApartJoin(cs, chains);
  }

  /** One bucket of those not yet moved, against the rest. */
  lemma BucketApart(cs: seq<seq<Entry>>, chains: seq<seq<Entry>>, i: nat)
    requires i < |chains| && Apart(cs + chains[i..])
    ensures Apart(cs + [chains[i]]) && forall x :: x in chains[i] ==> x in EntriesOf(chains)
    ensures forall c, j :: i < c < |chains| && 0 <= j < |chains[c]| ==> chains[c][j] !in chains[i]
    ensures Apart(chains[i + 1..]) && EntriesOf(chains[i..]) == EntriesOf([chains[i]]) + EntriesOf(chains[i + 1..])
    ensures EntriesOf(cs) + EntriesOf([chains[i]]) !! EntriesOf(chains[i + 1..])
  {
    hide Apart, EntriesOf;
    var one, rest := [chains[i]], chains[i + 1..];
    assert chains[i..] == one + rest && cs + chains[i..] == (cs + one) + rest;
    ApartSplit(cs + one, rest);
    JoinedEntries(cs, one);
    JoinedEntries(one, rest);
    ListEntries(chains[i]);
    Placed(chains);
    Placed(rest);
    forall c, j | i < c < |chains| && 0 <= j < |chains[c]| ensures chains[c][j] !in chains[i] {
      assert rest[c - i - 1] == chains[c] && rest[c - i - 1][j] in EntriesOf(rest);
    }
    forall x | x in chains[i] ensures x in EntriesOf(chains) {
      var j :| 0 <= j < |chains[i]| && chains[i][j] == x;
      assert chains[i][j] in EntriesOf(chains);
    }
  }

  lemma NoEntries()
    ensures EntriesOf([]) == {}
  {
  }

  lemma Placed(chains: seq<seq<Entry>>)
    ensures forall c, j :: 0 <= c < |chains| && 0 <= j < |chains[c]| ==> chains[c][j] in EntriesOf(chains)
  {
  }

  lemma JoinedEntries(a: seq<seq<Entry>>, b: seq<seq<Entry>>)
    ensures EntriesOf(a + b) == EntriesOf(a) + EntriesOf(b)
  {
    var all := a + b;
    forall x | x in EntriesOf(a) ensures x in EntriesOf(all) {
      var c, i :| 0 <= c < |a| && 0 <= i < |a[c]| && a[c][i] == x;
      assert all[c][i] == x;
    }
    forall x | x in EntriesOf(b) ensures x in EntriesOf(all) {
      var c, i :| 0 <= c < |b| && 0 <= i < |b[c]| && b[c][i] == x;
      assert all[|a| + c][i] == x;
    }
  }

  lemma BucketMoved(start: seq<seq<Entry>>, cs: seq<seq<Entry>>, chains: seq<seq<Entry>>, i: nat)
    requires |start| == |cs| > 0 && i < |chains| && Apart(cs + chains[i..]) && cs == PushedChains(start, chains[..i])
    requires var now := PushedAll(cs, chains[i]); Apart(now) && EntriesOf(now) == EntriesOf(cs) + EntriesOf([chains[i]])
    ensures var now := PushedAll(cs, chains[i]);
            && now == PushedChains(start, chains[..i + 1]) && Apart(now + chains[i + 1..])
            && EntriesOf(now) + EntriesOf(chains[i + 1..]) == EntriesOf(cs) + EntriesOf(chains[i..])
  {
    hide Apart, EntriesOf, PushedAll;
    BucketApart(cs, chains, i);
    ApartJoin(PushedAll(cs, chains[i]), chains[i + 1..]);
    assert chains[..i + 1][..i] == chains[..i];
  }

  /** An entry goes to the front of its bucket. */
  ghost function Pushed(cs: seq<seq<Entry>>, h: Entry): (r: seq<seq<Entry>>)
    requires |cs| > 0
    ensures |r| == |cs|
  {
    var b := Bucket(h.handle.hash, |cs|);
    cs[b := [h] + cs[b]]
  }

  ghost function PushedAll(cs: seq<seq<Entry>>, nodes: seq<Entry>): (r: seq<seq<Entry>>)
    requires |cs| > 0
    ensures |r| == |cs|
    decreases |nodes|
  {
    if nodes == [] then cs else PushedAll(Pushed(cs, nodes[0]), nodes[1..])
  }

  /** All entries of a table, bucket after bucket. */
  ghost function PushedChains(cs: seq<seq<Entry>>, chains: seq<seq<Entry>>): (r: seq<seq<Entry>>)
    requires |cs| > 0
    ensures |r| == |cs|
    decreases |chains|
  {
    if chains == [] then cs else PushedAll(PushedChains(cs, chains[..|chains| - 1]), chains[|chains| - 1])
  }

  /** Move one chain: each entry's link is read before it is overwritten. */
  method MoveChain(first: Entry?, heads: seq<Entry?>, ghost chain: seq<Entry>, ghost cs: seq<seq<Entry>>) returns (r: seq<Entry?>)
    requires |heads| > 0 && Chained(heads, cs) && IsChain(first, chain) && Apart(cs + [chain])
    modifies chain
    ensures |r| == |heads| && Chained(r, PushedAll(cs, chain)) && EntriesOf(PushedAll(cs, chain)) == EntriesOf(cs) + EntriesOf([chain])
  {
    hide Apart, InChain, Bucket, EntriesOf, Pushed, PushedAll, Hashes;
    r := heads;
    var h := first;
    ghost var left, now := chain, cs;
    while h != null
      invariant |r| == |heads| == |now| && IsChain(h, left) && Chained(r, now) && Apart(now + [left])
      invariant PushedAll(now, left) == PushedAll(cs, chain) && EntriesOf(now) + EntriesOf([left]) == EntriesOf(cs) + EntriesOf([chain])
      invariant forall x :: x in left ==> x in chain
      decreases |left|
    {
      HeadOf(h, left);
      assert left[0] in left;
      var next := h.nextHash;
      r := PushFront(h, r, now, left);
      MoveFirst(now, left);
      assert forall x :: x in left[1..] ==> x in left;
      now, left, h := Pushed(now, left[0]), left[1..], next;
    }
    NothingLeft(left, now);
  }

  /** `h->next_hash = *ptr; *ptr = h`. */
  method PushFront(h: Entry, heads: seq<Entry?>, ghost cs: seq<seq<Entry>>, ghost left: seq<Entry>) returns (r: seq<Entry?>)
    requires |heads| > 0 && Chained(heads, cs) && left != [] && left[0] == h && Apart(cs + [left]) && InChain(h, left, Hashes(left))
    modifies h
    ensures |r| == |heads| && Chained(r, Pushed(cs, h)) && IsChain(At(left, 1), left[1..])
  {
    hide Bucket, Apart, InChain;
    ghost var b, nx, lx := Bucket(h.handle.hash, |heads|), Hashes(cs[Bucket(h.handle.hash, |heads|)]), Hashes(left);
    NotAmong(cs, left);
    h.nextHash := heads[Bucket(h.handle.hash, |heads|)];
    r := heads[Bucket(h.handle.hash, |heads|) := h];
    ghost var now := Pushed(cs, h);
    FrontApart(cs, left);
    FrontVals(heads[b], cs[b], nx, h);
    assert Hashes(now[b]) == [heads[b]] + nx;
    RestVals(h, left, lx);
    assert Hashes(left[1..]) == lx[1..];
    forall c | 0 <= c < |now| && c != b ensures IsChain(r[c], now[c]) {
      assert IsChain(heads[c], cs[c]);
      assert Hashes(cs[c]) == old(Hashes(cs[c]));
    }
  }

  lemma FrontVals(head: Entry?, nodes: seq<Entry>, nx: seq<Entry?>, h: Entry)
    requires InChain(head, nodes, nx)
    ensures InChain(h, [h] + nodes, [head] + nx)
  {
  }

  lemma RestVals(head: Entry?, nodes: seq<Entry>, nx: seq<Entry?>)
    requires InChain(head, nodes, nx) && nodes != []
    ensures InChain(At(nodes, 1), nodes[1..], nx[1..])
  {
  }

  lemma HeadOf(h: Entry, left: seq<Entry>)
    requires IsChain(h, left)
    ensures left != [] && left[0] == h && h.nextHash == At(left, 1)
  {
    assert Hashes(left)[0] == At(left, 1);
  }

  lemma NothingLeft(left: seq<Entry>, now: seq<seq<Entry>>)
    requires IsChain(null, left) && |now| > 0
    ensures left == [] && PushedAll(now, left) == now && EntriesOf([left]) == {}
  {
  }

  /** The entries still to be moved are in none of the new chains, and different from each other. */
  lemma NotAmong(cs: seq<seq<Entry>>, left: seq<Entry>)
    requires Apart(cs + [left]) && left != []
    ensures forall c, j :: 0 <= c < |cs| && 0 <= j < |cs[c]| ==> cs[c][j] != left[0]
    ensures forall j :: 1 <= j < |left| ==> left[j] != left[0]
  {
    var all, n := cs + [left], |cs|;
    assert all[n] == left && all[n][0] == left[0];
    forall c, j | 0 <= c < |cs| && 0 <= j < |cs[c]| ensures cs[c][j] != left[0] {
      assert all[c][j] == cs[c][j];
    }
    forall j | 1 <= j < |left| ensures left[j] != left[0] {
      assert all[n][j] == left[j];
    }
  }

  lemma FrontApart(cs: seq<seq<Entry>>, left: seq<Entry>)
    requires |cs| > 0 && Apart(cs) && left != []
    requires forall c, j :: 0 <= c < |cs| && 0 <= j < |cs[c]| ==> cs[c][j] != left[0]
    ensures Apart(Pushed(cs, left[0]))
  {
    hide Bucket;
    var b, now := Bucket(left[0].handle.hash, |cs|), Pushed(cs, left[0]);
    forall j | 0 <= j < |now[b]| ensures now[b][j] == if j == 0 then left[0] else cs[b][j - 1] {
    }
  }

  lemma MoveFirst(cs: seq<seq<Entry>>, left: seq<Entry>)
    requires |cs| > 0 && left != [] && Apart(cs + [left]) && Apart(cs)
    ensures Apart(Pushed(cs, left[0]) + [left[1..]])
    ensures PushedAll(cs, left) == PushedAll(Pushed(cs, left[0]), left[1..])
    ensures EntriesOf(Pushed(cs, left[0])) + EntriesOf([left[1..]]) == EntriesOf(cs) + EntriesOf([left])
  {
    hide Bucket, Apart, EntriesOf, Pushed, PushedAll;
    NotAmong(cs, left);
    FrontApart(cs, left);
    RestApart(cs, left);
    PushStep(cs, left);
    FrontEntries(cs, left[0]);
    ListEntries(left);
    ListEntries(left[1..]);
    assert left == [left[0]] + left[1..];
    assert (set x | x in left) == {left[0]} + (set x | x in left[1..]);
  }

  lemma PushStep(cs: seq<seq<Entry>>, left: seq<Entry>)
    requires |cs| > 0 && left != []
    ensures PushedAll(cs, left) == PushedAll(Pushed(cs, left[0]), left[1..]) && |Pushed(cs, left[0])| == |cs|
  {
  }

  lemma FrontEntries(cs: seq<seq<Entry>>, h: Entry)
    requires |cs| > 0
    ensures EntriesOf(Pushed(cs, h)) == EntriesOf(cs) + {h}
  {
    hide Bucket;
    var b, now := Bucket(h.handle.hash, |cs|), Pushed(cs, h);
    forall x | x in EntriesOf(cs) ensures x in EntriesOf(now) {
      var c, i :| 0 <= c < |cs| && 0 <= i < |cs[c]| && cs[c][i] == x;
      assert now[c][if c == b then i + 1 else i] == x;
    }
    assert now[b][0] == h;
  }

  lemma ListEntries(nodes: seq<Entry>)
    ensures EntriesOf([nodes]) == set x | x in nodes
  {
    forall x | x in nodes ensures x in EntriesOf([nodes]) {
      var i :| 0 <= i < |nodes| && nodes[i] == x;
      assert [nodes][0][i] == x;
    }
  }

  /** Chains are apart when each side is and they share no entry. */
  lemma ApartJoin(a: seq<seq<Entry>>, b: seq<seq<Entry>>)
    requires Apart(a) && Apart(b) && EntriesOf(a) !! EntriesOf(b)
    ensures Apart(a + b)
  {
    var all := a + b;
    forall c, i, d, j | 0 <= c < |all| && 0 <= i < |all[c]| && 0 <= d < |all| && 0 <= j < |all[d]| && all[c][i] == all[d][j]
      ensures c == d && i == j
    {
      assert c < |a| ==> all[c][i] in EntriesOf(a);
      assert c >= |a| ==> all[c][i] in EntriesOf(b);
      assert d < |a| ==> all[d][j] in EntriesOf(a);
      assert d >= |a| ==> all[d][j] in EntriesOf(b);
    }
  }

  lemma ApartSplit(a: seq<seq<Entry>>, b: seq<seq<Entry>>)
    requires Apart(a + b)
    ensures Apart(a) && Apart(b) && EntriesOf(a) !! EntriesOf(b)
  {
    var all := a + b;
    forall c, i, d, j | 0 <= c < |a| && 0 <= i < |a[c]| && 0 <= d < |a| && 0 <= j < |a[d]| && a[c][i] == a[d][j]
      ensures c == d && i == j
    {
      assert all[c][i] == all[d][j];
    }
    forall c, i, d, j | 0 <= c < |b| && 0 <= i < |b[c]| && 0 <= d < |b| && 0 <= j < |b[d]| && b[c][i] == b[d][j]
      ensures c == d && i == j
    {
      assert all[|a| + c][i] == all[|a| + d][j];
    }
    forall c, i, d, j | 0 <= c < |a| && 0 <= i < |a[c]| && 0 <= d < |b| && 0 <= j < |b[d]| ensures a[c][i] != b[d][j] {
      assert all[c][i] == a[c][i] && all[|a| + d][j] == b[d][j];
    }
  }

  lemma RestApart(cs: seq<seq<Entry>>, left: seq<Entry>)
    requires |cs| > 0 && left != [] && Apart(cs + [left]) && Apart(Pushed(cs, left[0]))
    ensures Apart(Pushed(cs, left[0]) + [left[1..]])
  {
    hide Apart, EntriesOf, Pushed;
    ApartSplit(cs, [left]);
    NotAmong(cs, left);
    FrontEntries(cs, left[0]);
    ListEntries(left);
    ListEntries(left[1..]);
    TailApart(left);
    assert left == [left[0]] + left[1..];
    assert (set x | x in left[1..]) <= (set x | x in left);
    assert left[0] !in left[1..];
    ApartJoin(Pushed(cs, left[0]), [left[1..]]);
  }

  lemma TailApart(left: seq<Entry>)
    requires Apart([left]) && left != []
    ensures Apart([left[1..]])
  {
    var all, rest := [left], [left[1..]];
    forall b, i, c, j | 0 <= b < 1 && 0 <= i < |rest[b]| && 0 <= c < 1 && 0 <= j < |rest[c]| && rest[b][i] == rest[c][j]
      ensures b == c && i == j
    {
      assert all[b][i + 1] == all[c][j + 1];
    }
  }

  function PutAt(nodes: seq<Entry>, p: nat, h: Entry): seq<Entry>
    requires p <= |nodes|
  {
    if p < |nodes| then nodes[p := h] else nodes + [h]
  }

  ghost function PutNexts(nx: seq<Entry?>, p: nat, h: Entry): seq<Entry?>
    requires p <= |nx|
  {
    var linked := if p == 0 then nx else nx[p - 1 := h];
    if p < |nx| then linked else linked + [null]
  }

  function TakeAt(nodes: seq<Entry>, p: nat): seq<Entry>
    requires p < |nodes|
  {
    nodes[..p] + nodes[p + 1..]
  }

  ghost function TakeNexts(nx: seq<Entry?>, p: nat): seq<Entry?>
    requires p < |nx|
  {
    var linked := if p == 0 then nx else nx[p - 1 := nx[p]];
    linked[..p] + linked[p + 1..]
  }

  lemma PutVals(head: Entry?, nodes: seq<Entry>, nx: seq<Entry?>, p: nat, h: Entry)
    requires InChain(head, nodes, nx) && p <= |nodes|
    ensures InChain(if p == 0 then h else head, PutAt(nodes, p, h), PutNexts(nx, p, h))
  {
  }

  lemma TakeVals(head: Entry?, nodes: seq<Entry>, nx: seq<Entry?>, p: nat)
    requires InChain(head, nodes, nx) && p < |nodes|
    ensures InChain(if p == 0 then nx[p] else head, TakeAt(nodes, p), TakeNexts(nx, p))
  {
  }

  /** Only the entry before the place is changed, and it is in no other place. */
  lemma Others(chains: seq<seq<Entry>>, b: nat, p: nat)
    requires Apart(chains) && b < |chains| && p <= |chains[b]|
    ensures p > 0 ==> chains[b][p - 1] in EntriesOf(chains)
    ensures p > 0 ==> forall c, j :: 0 <= c < |chains| && 0 <= j < |chains[c]| && chains[c][j] == chains[b][p - 1] ==> c == b && j == p - 1
  {
    assert p > 0 ==> chains[b][p - 1] in EntriesOf(chains);
  }

  lemma Untouched(chains: seq<seq<Entry>>, b: nat, p: nat, h: Entry)
    requires Apart(chains) && b < |chains| && p <= |chains[b]| && h !in EntriesOf(chains)
    ensures forall c, j :: 0 <= c < |chains| && 0 <= j < |chains[c]| ==> chains[c][j] != h
    ensures p > 0 ==> chains[b][p - 1] in EntriesOf(chains)
    ensures p > 0 ==> forall c, j :: 0 <= c < |chains| && 0 <= j < |chains[c]| && chains[c][j] == chains[b][p - 1] ==> c == b && j == p - 1
  {
    forall c, j | 0 <= c < |chains| && 0 <= j < |chains[c]| ensures chains[c][j] != h {
      assert chains[c][j] in EntriesOf(chains);
    }
    Others(chains, b, p);
  }

  lemma PutApart(chains: seq<seq<Entry>>, b: nat, p: nat, h: Entry)
    requires Apart(chains) && b < |chains| && p <= |chains[b]|
    requires forall c, j :: 0 <= c < |chains| && 0 <= j < |chains[c]| ==> chains[c][j] != h
    ensures Apart(chains[b := PutAt(chains[b], p, h)])
  {
  }

  lemma TakeApart(chains: seq<seq<Entry>>, b: nat, p: nat)
    requires Apart(chains) && b < |chains| && p < |chains[b]|
    ensures Apart(chains[b := TakeAt(chains[b], p)])
  {
    var less := chains[b := TakeAt(chains[b], p)];
    forall j | 0 <= j < |less[b]| ensures less[b][j] == chains[b][if j < p then j else j + 1] {
    }
  }

  // ---------------------------------------------------------------------------------------------
  // The map that the links stand for

  /** The entry whose place is taken, or the first at the end, is the one the map has under the tag. */
  lemma PutRepresents(chains: seq<seq<Entry>>, m: map<Tag, Handle>, b: nat, p: nat, h: Entry)
    requires Represents(ListOf(chains), m) && b == Bucket(h.handle.hash, |chains|) && p <= |chains[b]|
    requires p < |chains[b]| ==> TagOf(chains[b][p].handle) == TagOf(h.handle)
    requires forall i :: 0 <= i < p ==> TagOf(chains[b][i].handle) != TagOf(h.handle)
    ensures Represents(ListOf(chains[b := PutAt(chains[b], p, h)]), m[TagOf(h.handle) := h.handle])
  {
    hide Represents, Bucket;
    var list := ListOf(chains);
    FoundInMap(list, m, b, p, h.handle);
    PutIn(list, m, b, p, h.handle);
    var put := PutAt(chains[b], p, h);
    assert HandlesOf(put) == if p < |list[b]| then list[b][p := h.handle] else list[b] + [h.handle];
    assert ListOf(chains[b := put]) == list[b := HandlesOf(put)];
  }

  lemma FoundInMap(list: seq<seq<Handle>>, m: map<Tag, Handle>, b: nat, p: nat, h: Handle)
    requires Represents(list, m) && b == Bucket(h.hash, |list|) && p <= |list[b]|
    requires p < |list[b]| ==> TagOf(list[b][p]) == TagOf(h)
    requires forall i :: 0 <= i < p ==> TagOf(list[b][i]) != TagOf(h)
    ensures p == |list[b]| <==> TagOf(h) !in m
  {
    hide Bucket;
    assert ChainOk(list[b], b, |list|, m);
    assert forall i :: 0 <= i < |list[b]| ==> Has(m, list[b][i]);
    if TagOf(h) in m {
      assert m[TagOf(h)] in list[b];
    }
  }

  lemma TakeRepresents(chains: seq<seq<Entry>>, m: map<Tag, Handle>, b: nat, p: nat)
    requires Represents(ListOf(chains), m) && b < |chains| && p < |chains[b]|
    ensures TagOf(chains[b][p].handle) in m
    ensures Represents(ListOf(chains[b := TakeAt(chains[b], p)]), m - {TagOf(chains[b][p].handle)})
  {
    hide Represents;
    var list := ListOf(chains);
    TakeOut(list, m, b, p);
    var taken := TakeAt(chains[b], p);
    assert HandlesOf(taken) == list[b][..p] + list[b][p + 1..];
    assert ListOf(chains[b := taken]) == list[b := HandlesOf(taken)];
  }

  ghost predicate Bucketed(chains: seq<seq<Entry>>) {
    forall b, i :: 0 <= b < |chains| && 0 <= i < |chains[b]| ==> Bucket(chains[b][i].handle.hash, |chains|) == b
  }

  lemma {:induction false} PushedAllBucketed(cs: seq<seq<Entry>>, nodes: seq<Entry>)
    requires |cs| > 0 && Bucketed(cs)
    ensures Bucketed(PushedAll(cs, nodes))
    decreases |nodes|
  {
    hide Bucket;
    if nodes != [] {
      PushedAllBucketed(Pushed(cs, nodes[0]), nodes[1..]);
    }
  }

  lemma {:induction false} PushedChainsBucketed(cs: seq<seq<Entry>>, chains: seq<seq<Entry>>)
    requires |cs| > 0 && Bucketed(cs)
    ensures Bucketed(PushedChains(cs, chains))
    decreases |chains|
  {
    hide Bucketed;
    if chains != [] {
      PushedChainsBucketed(cs, chains[..|chains| - 1]);
      PushedAllBucketed(PushedChains(cs, chains[..|chains| - 1]), chains[|chains| - 1]);
    }
  }

  /** Every entry is one of the map's, and no two bear one tag. */
  ghost predicate Tagged(S: set<Entry>, m: map<Tag, Handle>) {
    && (forall x :: x in S ==> Has(m, x.handle))
    && (forall x, y :: x in S && y in S && TagOf(x.handle) == TagOf(y.handle) ==> x == y)
    && (forall t :: t in m ==> TagOf(m[t]) == t && exists x :: x in S && x.handle == m[t])
  }

  lemma TaggedEntries(chains: seq<seq<Entry>>, m: map<Tag, Handle>)
    requires Represents(ListOf(chains), m)
    ensures Tagged(EntriesOf(chains), m)
  {
    hide Represents, EntriesOf;
    var S := EntriesOf(chains);
    forall x | x in S ensures Has(m, x.handle) {
      var b, i := PlaceOf(chains, m, x);
    }
    forall x, y | x in S && y in S && TagOf(x.handle) == TagOf(y.handle) ensures x == y {
      var b, i := PlaceOf(chains, m, x);
      var c, j := PlaceOf(chains, m, y);
      TagsDiffer(chains, m, b, i, j);
    }
    forall t | t in m ensures TagOf(m[t]) == t && exists x :: x in S && x.handle == m[t] {
      var x := EntryOf(chains, m, t);
    }
  }

  lemma PlaceOf(chains: seq<seq<Entry>>, m: map<Tag, Handle>, x: Entry) returns (b: nat, i: nat)
    requires Represents(ListOf(chains), m) && x in EntriesOf(chains)
    ensures b < |chains| && i < |chains[b]| && chains[b][i] == x && Has(m, x.handle) && b == Bucket(x.handle.hash, |chains|)
  {
    hide Bucket;
    b, i :| 0 <= b < |chains| && 0 <= i < |chains[b]| && chains[b][i] == x;
    var list := ListOf(chains);
    assert ChainOk(list[b], b, |list|, m) && list[b][i] == x.handle;
  }

  lemma TagsDiffer(chains: seq<seq<Entry>>, m: map<Tag, Handle>, b: nat, i: nat, j: nat)
    requires Represents(ListOf(chains), m) && b < |chains| && i < |chains[b]| && j < |chains[b]|
    ensures TagOf(chains[b][i].handle) == TagOf(chains[b][j].handle) ==> i == j
  {
    hide Bucket;
    var list := ListOf(chains);
    assert ChainOk(list[b], b, |list|, m);
    assert list[b][i] == chains[b][i].handle && list[b][j] == chains[b][j].handle;
  }

  lemma EntryOf(chains: seq<seq<Entry>>, m: map<Tag, Handle>, t: Tag) returns (x: Entry)
    requires Represents(ListOf(chains), m) && t in m
    ensures x in EntriesOf(chains) && x.handle == m[t] && TagOf(m[t]) == t
  {
    hide Bucket, ChainOk;
    var list := ListOf(chains);
    var b := Bucket(t.hash, |list|);
    var i :| 0 <= i < |list[b]| && list[b][i] == m[t];
    x := chains[b][i];
  }

  lemma TaggedRepresents(chains: seq<seq<Entry>>, m: map<Tag, Handle>)
    requires |chains| > 0 && Apart(chains) && Bucketed(chains) && Tagged(EntriesOf(chains), m)
    ensures Represents(ListOf(chains), m)
  {
    hide Bucket;
    var list := ListOf(chains);
    Placed(chains);
    forall b | 0 <= b < |list| ensures ChainOk(list[b], b, |list|, m) {
      forall i, j | 0 <= i < j < |list[b]| ensures TagOf(list[b][i]) != TagOf(list[b][j]) {
        assert chains[b][i] != chains[b][j];
      }
    }
    forall t | t in m ensures m[t] in list[Bucket(t.hash, |list|)] {
      var x :| x in EntriesOf(chains) && x.handle == m[t];
      var b, i :| 0 <= b < |chains| && 0 <= i < |chains[b]| && chains[b][i] == x;
      assert list[b][i] == m[t];
    }
  }

  /** A table of any length that holds the same entries, each in its bucket, stands for the same map. */
  lemma MoveRepresents(chains: seq<seq<Entry>>, moved: seq<seq<Entry>>, n: nat, m: map<Tag, Handle>)
    requires Represents(ListOf(chains), m) && n > 0 && moved == PushedChains(seq(n, i => []), chains)
    requires Apart(moved) && EntriesOf(moved) == EntriesOf(chains)
    ensures Represents(ListOf(moved), m)
  {
    hide Represents, Apart, Tagged;
    TaggedEntries(chains, m);
    PushedChainsBucketed(seq(n, i => []), chains);
    TaggedRepresents(moved, m);
  }
}
