/** The skip list of the memtable: heap nodes linked at several levels. */
module SkipList {
  const MAX_HEIGHT := 12

  class Node {
    const key: int
    /** One link for each level the node is on. */
    var next: seq<Node?>

    constructor (key: int, height: nat)
      ensures this.key == key && |next| == height && forall l :: 0 <= l < height ==> next[l] == null
    {
      this.key := key;
      next := seq(height, i => null);
    }
  }

  /** The first position after `i` that is on level `l`, or the number of positions. */
  ghost function NextAt(hs: seq<nat>, i: nat, l: nat): (j: nat)
    requires i < |hs|
    ensures i < j <= |hs|
    ensures forall m :: i < m < j ==> hs[m] <= l
    ensures j < |hs| ==> hs[j] > l
    decreases |hs| - i
  {
    if i + 1 == |hs| || hs[i + 1] > l then i + 1 else NextAt(hs, i + 1, l)
  }

  ghost function At(all: seq<Node>, j: nat): Node? {
    if j < |all| then all[j] else null
  }

  /** The links of the levels that a node is linked on. */
  ghost function Linked(next: seq<Node?>, h: nat): seq<Node?> {
    if h <= |next| then next[..h] else next
  }

  ghost function HeightAt(hs: seq<nat>, i: nat): nat {
    if i < |hs| then hs[i] else 0
  }

  ghost function NextsOf(all: seq<Node>, hs: seq<nat>): seq<seq<Node?>>
    reads all
  {
    seq(|all|, i requires 0 <= i < |all| reads all => Linked(all[i].next, HeightAt(hs, i)))
  }

  /** Every link leads to the next node on its level. */
  ghost predicate LinksOk(all: seq<Node>, hs: seq<nat>, nx: seq<seq<Node?>>) {
    && |all| == |hs| == |nx|
    && (forall i :: 0 <= i < |all| ==> |nx[i]| == hs[i])
    && (forall i, l :: 0 <= i < |all| && 0 <= l < hs[i] ==> Link(all, hs, nx, i, l))
  }

  ghost predicate Link(all: seq<Node>, hs: seq<nat>, nx: seq<seq<Node?>>, i: nat, l: nat)
    requires i < |all| == |hs| == |nx| && l < |nx[i]|
  {
    nx[i][l] == At(all, NextAt(hs, i, l))
  }

  /** The head, then nodes with ascending keys, no node twice. */
  ghost predicate NodesOk(all: seq<Node>) {
    && |all| > 0
    && (forall i, j :: 0 <= i < j < |all| ==> all[i] != all[j])
    && (forall i, j :: 1 <= i < j < |all| ==> all[i].key < all[j].key)
  }

  ghost predicate HeightsOk(hs: seq<nat>, top: nat) {
    && |hs| > 0 && hs[0] == MAX_HEIGHT && 1 <= top <= MAX_HEIGHT
    && forall i :: 1 <= i < |hs| ==> 1 <= hs[i] <= top
  }

  ghost function KeysOf(all: seq<Node>): seq<int> {
    if |all| == 0 then [] else seq(|all| - 1, i requires 0 <= i < |all| - 1 => all[i + 1].key)
  }

  /** `p` is where `key` belongs: every node before it has a smaller key, none from it on does. */
  ghost predicate Splits(all: seq<Node>, key: int, p: nat) {
    && 1 <= p <= |all|
    && (forall i :: 1 <= i < p ==> all[i].key < key)
    && (forall i :: p <= i < |all| ==> all[i].key >= key)
  }

  /** The last position before `p` on level `l`. */
  ghost predicate IsPrev(hs: seq<nat>, p: nat, l: nat, q: nat) {
    q < p <= |hs| && hs[q] > l && p <= NextAt(hs, q, l)
  }

  class SkipList {
    const head: Node
    var maxHeight: nat
    /** The head and the nodes in key order. */
    ghost var all: seq<Node>
    /** On how many levels each is linked; a node that is being inserted is not yet on all of its own. */
    ghost var heights: seq<nat>

    ghost function Nexts(): seq<seq<Node?>>
      reads `all, `heights, all
    {
      NextsOf(all, heights)
    }

    ghost predicate Valid()
      reads this, all
    {
      && NodesOk(all) && all[0] == head
      && HeightsOk(heights, maxHeight)
      && LinksOk(all, heights, Nexts())
    }

    /** Where a link leads. */
    lemma Follow(i: nat, l: nat)
      requires Valid() && i < |all| == |heights| && l < heights[i]
      ensures l < |all[i].next| && all[i].next[l] == At(all, NextAt(heights, i, l))
    {
      hide LinksOk, NodesOk, HeightsOk, NextAt;
      Shaped();
      FollowLink(all, heights, Nexts(), i, l);
    }

    /** Every node has links for the levels it is linked on. */
    lemma Shaped()
      requires Valid()
      ensures |heights| == |all| == |Nexts()|
      ensures forall i :: 0 <= i < |all| ==> heights[i] <= |all[i].next| && Nexts()[i] == all[i].next[..heights[i]]
    {
      hide NodesOk, HeightsOk, Link;
      forall i | 0 <= i < |all| ensures heights[i] <= |all[i].next| {
        assert |Nexts()[i]| == heights[i];
      }
    }

    ghost function Keys(): seq<int>
      reads this
    {
      KeysOf(all)
    }

    constructor ()
      ensures Valid() && fresh(all) && Keys() == []
    {
      var node := new Node(0, MAX_HEIGHT);
      head := node;
      maxHeight := 1;
      all, heights := [node], [MAX_HEIGHT];
      new;
      assert node.next[..MAX_HEIGHT] == node.next && Nexts() == [node.next];
    }

    /** Descend from the top level; `p` is the position of the node found, `prev` the last node before it
        on each level. */
    method FindGreaterOrEqual(key: int) returns (x: Node?, prev: seq<Node>, ghost p: nat, ghost qs: seq<nat>)
      requires Valid()
      ensures Splits(all, key, p) && x == At(all, p)
      ensures |prev| == |qs| == MAX_HEIGHT
      ensures forall l :: 0 <= l < maxHeight ==> IsPrev(heights, p, l, qs[l]) && prev[l] == all[qs[l]]
    {
      hide LinksOk, NextAt, HeightsOk, NodesOk, IsPrev, Splits, PassedAbove, NextsOf;
      Shape(all, heights, maxHeight);
      Shaped();
      var node := head;
      var level := maxHeight - 1;
      ghost var i, hs := 0, heights;
      prev, qs := seq(MAX_HEIGHT, m => head), seq(MAX_HEIGHT, m => 0);
      NothingPassed(all, hs, key, maxHeight, prev, qs, i);
      while true
        invariant 0 <= level < maxHeight && |prev| == |qs| == MAX_HEIGHT
        invariant 0 <= i < |all| && node == all[i] && |node.next| >= hs[i] > level
        invariant forall j :: 1 <= j <= i ==> all[j].key < key
        invariant PassedAbove(all, hs, key, level, maxHeight, prev, qs, i)
        decreases level, |all| - i
      {
        ghost var j := NextAt(hs, i, level);
        Follow(i, level);
        var next := node.next[level];
        if next != null && next.key < key {
          SmallerBefore(all, j, key);
          PassOn(all, hs, key, level, maxHeight, prev, qs, i, j);
          node, i := next, j;
        } else {
          PassDown(all, hs, key, level, maxHeight, prev, qs, i);
          prev, qs := prev[level := node], qs[level := i];
          if level == 0 {
            AllOnBottom(hs, maxHeight, i);
            Arrived(all, hs, maxHeight, key, i, prev, qs);
            x, p := next, i + 1;
            return;
          }
          level := level - 1;
        }
      }
    }

    /** The last node with a smaller key; the head if there is none. */
    method FindLessThan(key: int) returns (x: Node, ghost p: nat)
      requires Valid()
      ensures Splits(all, key, p) && x == all[p - 1]
    {
      hide LinksOk, NextAt, HeightsOk, NodesOk, NextsOf;
      Shape(all, heights, maxHeight);
      Shaped();
      var node := head;
      var level := maxHeight - 1;
      ghost var i, hs := 0, heights;
      while true
        invariant 0 <= level < maxHeight
        invariant 0 <= i < |all| && node == all[i] && |node.next| >= hs[i] > level
        invariant forall j :: 1 <= j <= i ==> all[j].key < key
        decreases level, |all| - i
      {
        ghost var j := NextAt(hs, i, level);
        Follow(i, level);
        var next := node.next[level];
        if next == null || next.key >= key {
          if level == 0 {
            AllOnBottom(hs, maxHeight, i);
            FoundAt(all, hs, key, i);
            return node, i + 1;
          }
          level := level - 1;
        } else {
          SmallerBefore(all, j, key);
          node, i := next, j;
        }
      }
    }

    method FindLast() returns (x: Node)
      requires Valid()
      ensures x == all[|all| - 1]
    {
      hide LinksOk, NextAt, HeightsOk, NodesOk, NextsOf;
      Shape(all, heights, maxHeight);
      Shaped();
      var node := head;
      var level := maxHeight - 1;
      ghost var i, hs := 0, heights;
      while true
        invariant 0 <= level < maxHeight
        invariant 0 <= i < |all| && node == all[i] && |node.next| >= hs[i] > level
        decreases level, |all| - i
      {
        ghost var j := NextAt(hs, i, level);
        Follow(i, level);
        var next := node.next[level];
        if next == null {
          if level == 0 {
            AllOnBottom(hs, maxHeight, i);
            return node;
          }
          level := level - 1;
        } else {
          node, i := next, j;
        }
      }
    }

    method Contains(key: int) returns (found: bool)
      requires Valid()
      ensures found <==> key in Keys()
    {
      ghost var p: nat, qs: seq<nat>;
      var x: Node?, prev: seq<Node>;
      x, prev, p, qs := FindGreaterOrEqual(key);
      found := x != null && x.key == key;
      if found {
        assert Keys()[p - 1] == key;
      }
      forall i | 0 <= i < |Keys()| && Keys()[i] == key ensures found {
        assert all[i + 1].key == key;
        assert p <= i + 1;
      }
    }

    /** What the list is once a new node is linked on its lowest `h` levels: every old node links as before,
        but for the links that now lead to the new one. */
    ghost predicate Splicing(a: Links, x: Node, h: nat, p: nat, qs: seq<nat>)
      reads `all, `heights, x, a.all
    {
      && 1 <= p <= |a.all| == |a.hs| == |a.nx| && h <= |qs| && h <= |x.next|
      && all == (if h == 0 then a.all else a.all[..p] + [x] + a.all[p..])
      && heights == (if h == 0 then a.hs else a.hs[..p] + [h] + a.hs[p..])
      && (forall l :: 0 <= l < h ==> qs[l] < |a.nx| && l < |a.nx[qs[l]]| && x.next[l] == a.nx[qs[l]][l])
      && (forall q :: 0 <= q < |a.all| ==> Relinked(a.hs, a.nx, x, h, qs, q, Linked(a.all[q].next, a.hs[q])))
    }

    /** Where and how a new node goes in. */
    ghost predicate Place(a: Links, x: Node, h: nat, p: nat, qs: seq<nat>) {
      && LinksOk(a.all, a.hs, a.nx) && NodesOk(a.all) && a.all[0] == head && x !in a.all
      && Splits(a.all, x.key, p) && (p < |a.all| ==> a.all[p].key != x.key)
      && h <= |qs| && forall l :: 0 <= l < h ==> IsPrev(a.hs, p, l, qs[l])
    }

    /** Make the node and splice it in level by level, from the bottom. Readers do not wait for this: after each
        level the list is one in which every search finds what it should. */
    method LinkIn(key: int, height: nat, prev: seq<Node>, ghost p: nat, ghost qs: seq<nat>)
      requires Valid() && Splits(all, key, p) && 1 <= p <= |all|
      requires 1 <= height <= maxHeight && |prev| == |qs| == MAX_HEIGHT
      requires p < |all| ==> all[p].key != key
      requires forall l :: 0 <= l < height ==> IsPrev(heights, p, l, qs[l]) && prev[l] == all[qs[l]]
      modifies `all, `heights, all
      ensures Valid() && |all| == |old(all)| + 1 && all[p].key == key && fresh(all[p])
      ensures all == old(all)[..p] + [all[p]] + old(all)[p..] && heights == old(heights)[..p] + [height] + old(heights)[p..]
    {
      hide LinksOk, NextAt, NodesOk, Relinked, HeightsOk, IsPrev, Splits, Splicing, NextsOf;
      Shaped();
      HeightsShape(heights, maxHeight);
      ghost var a := Links(all, heights, Nexts());
      PrevsOnLevel(a, height, p, qs);
      LinksShape(a);
      var x := new Node(key, height);
      NotSpliced(a, x, p, qs);
      LinkUp(x, prev, a, p, qs);
      SplicedIn(a, x, height, p, qs);
    }

    method LinkUp(x: Node, prev: seq<Node>, ghost a: Links, ghost p: nat, ghost qs: seq<nat>)
      requires Valid() && Place(a, x, |x.next|, p, qs) && Splicing(a, x, 0, p, qs) && HeightsOk(a.hs, maxHeight)
      requires |x.next| <= maxHeight && |x.next| <= |prev| && |x.next| <= |qs|
      requires forall l :: 0 <= l < |x.next| ==> qs[l] < |a.all| && prev[l] == a.all[qs[l]]
      modifies `all, `heights, x, a.all
      ensures Valid() && Splicing(a, x, |x.next|, p, qs) && |x.next| == |old(x.next)|
    {
      hide Valid, Place, HeightsOk, Splicing;
      var i := 0;
      while i < |x.next|
        invariant 0 <= i <= |x.next| == |old(x.next)|
        invariant Valid() && Splicing(a, x, i, p, qs)
      {
        PlaceBelow(a, x, |x.next|, i + 1, p, qs);
        LinkNext(x, i, prev[i], a, p, qs);
        i := i + 1;
      }
    }

    lemma PlaceBelow(a: Links, x: Node, h: nat, i: nat, p: nat, qs: seq<nat>)
      requires Place(a, x, h, p, qs) && i <= h
      ensures Place(a, x, i, p, qs)
    {
      hide LinksOk, NodesOk, Splits, IsPrev;
    }

    lemma NotSpliced(a: Links, x: Node, p: nat, qs: seq<nat>)
      requires a == Links(all, heights, Nexts()) && 1 <= p <= |all| == |heights| == |a.nx|
      requires forall i :: 0 <= i < |all| ==> |a.nx[i]| == heights[i] && a.nx[i] == Linked(all[i].next, heights[i])
      ensures Splicing(a, x, 0, p, qs)
    {
      NothingRelinked(a, x, qs);
    }

    lemma SplicedIn(a: Links, x: Node, h: nat, p: nat, qs: seq<nat>)
      requires Splicing(a, x, h, p, qs) && h > 0
      ensures |all| == |a.all| + 1 && p < |all| && all[p] == x && all == a.all[..p] + [x] + a.all[p..]
      ensures heights == a.hs[..p] + [h] + a.hs[p..]
    {
      hide Relinked;
    }

    /** One turn of the loop: the new node takes over the link of its predecessor, which now leads to it. The keys
        change on the bottom level; above it the list gets a shorter way to the same node. */
    method LinkNext(x: Node, i: nat, before: Node, ghost a: Links, ghost p: nat, ghost qs: seq<nat>)
      requires Valid() && Place(a, x, i + 1, p, qs) && Splicing(a, x, i, p, qs) && HeightsOk(a.hs, maxHeight)
      requires i < |x.next| <= maxHeight && qs[i] < |a.all| && before == a.all[qs[i]]
      modifies `all, `heights, x, before
      ensures Valid() && Splicing(a, x, i + 1, p, qs) && |x.next| == |old(x.next)|
      ensures Keys() == if i == 0 then KeysOf(a.all[..p] + [x] + a.all[p..]) else old(Keys())
    {
      hide LinksOk, NextAt, NodesOk, Relinked, HeightsOk, IsPrev, Splits, KeysOf, Splicing;
      PrevOnLevel(a, i, p, qs);
      SplicedLinks(a, x, i, p, qs);
      ghost var was := x.next;
      LinkLevel(x, i, before, a, qs);
      all := a.all[..p] + [x] + a.all[p..];
      heights := a.hs[..p] + [i + 1] + a.hs[p..];
      Respliced(a, x, i, p, qs, was);
      NodesInserted(a.all, x, p);
      HeightsInserted(a.hs, maxHeight, p, i + 1);
      SplicedSoFar(a, x, i + 1, p, qs);
    }

    lemma SplicedLinks(a: Links, x: Node, h: nat, p: nat, qs: seq<nat>)
      requires Splicing(a, x, h, p, qs)
      ensures 1 <= p <= |a.all| == |a.hs| == |a.nx|
      ensures h > 0 ==> all == a.all[..p] + [x] + a.all[p..]
      ensures forall l :: 0 <= l < h ==> qs[l] < |a.nx| && l < |a.nx[qs[l]]| && x.next[l] == a.nx[qs[l]][l]
      ensures forall q :: 0 <= q < |a.all| ==> Relinked(a.hs, a.nx, x, h, qs, q, Linked(a.all[q].next, a.hs[q]))
    {
      hide Relinked;
    }

    lemma Respliced(a: Links, x: Node, i: nat, p: nat, qs: seq<nat>, was: seq<Node?>)
      requires 1 <= p <= |a.all| == |a.hs| == |a.nx| && i < |qs| && i < |was|
      requires all == a.all[..p] + [x] + a.all[p..] && heights == a.hs[..p] + [i + 1] + a.hs[p..]
      requires forall l :: 0 <= l < i ==> qs[l] < |a.nx| && l < |a.nx[qs[l]]| && was[l] == a.nx[qs[l]][l]
      requires qs[i] < |a.nx| && i < |a.nx[qs[i]]| && x.next == was[i := a.nx[qs[i]][i]]
      requires forall q :: 0 <= q < |a.all| ==> Relinked(a.hs, a.nx, x, i + 1, qs, q, Linked(a.all[q].next, a.hs[q]))
      ensures Splicing(a, x, i + 1, p, qs)
    {
      hide Relinked;
    }

    /** The links of the list are those of a splice on its lowest levels. */
    lemma SplicedSoFar(a: Links, x: Node, h: nat, p: nat, qs: seq<nat>)
      requires Place(a, x, h, p, qs) && 0 < h && Splicing(a, x, h, p, qs)
      ensures LinksOk(all, heights, Nexts())
    {
      hide LinksOk, NextAt, Relinked, NodesOk, Splits, IsPrev;
      var now := seq(|a.all|, q requires 0 <= q < |a.all| reads a.all => Linked(a.all[q].next, a.hs[q]));
      var b := Links(all, heights, now[..p] + [x.next[..h]] + now[p..]);
      SpliceFacts(a, now, b, x, h, x.next[..h], p, qs);
      Spliced(a, b, x, h, p, qs);
      forall i | 0 <= i < |all| ensures Linked(all[i].next, heights[i]) == b.nx[i] {
        assert i < p ==> all[i] == a.all[i] && heights[i] == a.hs[i];
        assert i > p ==> all[i] == a.all[i - 1] && heights[i] == a.hs[i - 1];
      }
      assert Nexts() == b.nx;
    }

    method LinkLevel(x: Node, i: nat, before: Node, ghost a: Links, ghost qs: seq<nat>)
      requires NodesOk(a.all) && x !in a.all && i < |x.next| && i < |qs| && qs[i] < |a.all| == |a.hs| == |a.nx|
      requires before == a.all[qs[i]] && i < a.hs[qs[i]]
      requires forall q :: 0 <= q < |a.all| ==> Relinked(a.hs, a.nx, x, i, qs, q, Linked(a.all[q].next, a.hs[q]))
      modifies x, before
      ensures i < |a.nx[qs[i]]| && x.next == old(x.next)[i := a.nx[qs[i]][i]]
      ensures forall q :: 0 <= q < |a.all| ==> Relinked(a.hs, a.nx, x, i + 1, qs, q, Linked(a.all[q].next, a.hs[q]))
    {
      x.next := x.next[i := before.next[i]];
      before.next := before.next[i := x];
    }

    /** Insert a new key; `height` is the random choice. */
    method Insert(key: int, height: nat)
      requires Valid() && key !in Keys() && 1 <= height <= MAX_HEIGHT
      modifies this, all
      ensures Valid() && forall n :: n in all ==> n in old(all) || fresh(n)
      ensures |old(heights)| == |old(Keys())| + 1 && maxHeight == if height > old(maxHeight) then height else old(maxHeight)
      ensures exists p :: 0 <= p <= |old(Keys())| && Keys() == old(Keys())[..p] + [key] + old(Keys())[p..]
                          && heights == old(heights)[..p + 1] + [height] + old(heights)[p + 1..]
    {
      hide LinksOk, NextAt, NodesOk, HeightsOk, IsPrev, KeysOf;
      Shaped();
      ghost var p: nat, qs: seq<nat>;
      var x: Node?, prev: seq<Node>;
      x, prev, p, qs := FindGreaterOrEqual(key);
      prev, qs := HeadAbove(height, prev, p, qs);
      NotThere(all, key, p);
      if height > maxHeight {
        TallerIsOk(heights, maxHeight, height);
        maxHeight := height;
      }
      KeyCount(all);
      LinkIn(key, height, prev, p, qs);
      KeysInserted(old(all), all[p], p);
      assert heights == old(heights)[..(p - 1) + 1] + [height] + old(heights)[(p - 1) + 1..];
    }

    /** On levels that no node was on yet the head comes before everything. */
    method HeadAbove(height: nat, below: seq<Node>, ghost p: nat, ghost ps: seq<nat>) returns (prev: seq<Node>, ghost qs: seq<nat>)
      requires Valid() && 1 <= p <= |all| && height <= MAX_HEIGHT && |below| == |ps| == MAX_HEIGHT
      requires forall l :: 0 <= l < maxHeight ==> IsPrev(heights, p, l, ps[l]) && below[l] == all[ps[l]]
      ensures |prev| == |qs| == MAX_HEIGHT
      ensures forall l :: 0 <= l < height ==> IsPrev(heights, p, l, qs[l]) && prev[l] == all[qs[l]]
    {
      hide LinksOk, NodesOk, HeightsOk, NextAt;
      prev, qs := below, ps;
      Shape(all, heights, maxHeight);
      Shaped();
      var i := maxHeight;
      while i < height
        invariant maxHeight <= i && |prev| == |qs| == MAX_HEIGHT
        invariant forall l :: 0 <= l < i && l < MAX_HEIGHT ==> IsPrev(heights, p, l, qs[l]) && prev[l] == all[qs[l]]
      {
        HeadIsPrev(heights, maxHeight, p, i);
        prev, qs := prev[i := head], qs[i := 0];
        i := i + 1;
      }
    }
  }

  lemma NotThere(all: seq<Node>, key: int, p: nat)
    requires key !in KeysOf(all) && 1 <= p
    ensures p < |all| ==> all[p].key != key
  {
    if p < |all| {
      assert KeysOf(all)[p - 1] == all[p].key;
    }
  }

  lemma KeysInserted(all: seq<Node>, x: Node, p: nat)
    requires 1 <= p <= |all|
    ensures |KeysOf(all)| == |all| - 1
    ensures KeysOf(all[..p] + [x] + all[p..]) == KeysOf(all)[..p - 1] + [x.key] + KeysOf(all)[p - 1..]
  {
    hide KeysOf;
    var grown := all[..p] + [x] + all[p..];
    KeysAre(all);
    KeysAre(grown);
    var keys := KeysOf(all)[..p - 1] + [x.key] + KeysOf(all)[p - 1..];
    forall i | 0 <= i < |all| ensures KeysOf(grown)[i] == keys[i] {
      assert i < p - 1 ==> keys[i] == KeysOf(all)[i];
      assert i > p - 1 ==> keys[i] == KeysOf(all)[i - 1];
    }
  }

  lemma KeysAre(all: seq<Node>)
    requires |all| > 0
    ensures |KeysOf(all)| == |all| - 1 && forall i :: 0 <= i < |all| - 1 ==> KeysOf(all)[i] == all[i + 1].key
  {
  }

  lemma PrevsOnLevel(a: Links, h: nat, p: nat, qs: seq<nat>)
    requires LinksOk(a.all, a.hs, a.nx) && h <= |qs| && NodesOk(a.all)
    requires forall l :: 0 <= l < h ==> IsPrev(a.hs, p, l, qs[l])
    ensures |a.all| == |a.hs| == |a.nx| > 0
    ensures forall l :: 0 <= l < h ==> qs[l] < |a.all| && l < |a.nx[qs[l]]|
  {
    hide NextAt;
  }

  lemma HeightsInserted(hs: seq<nat>, top: nat, p: nat, h: nat)
    requires HeightsOk(hs, top) && 1 <= p <= |hs| && 1 <= h <= top
    ensures HeightsOk(hs[..p] + [h] + hs[p..], top)
  {
  }

  /** A greater height for searches to start from only adds levels that no node is on. */
  lemma TallerIsOk(hs: seq<nat>, top: nat, height: nat)
    requires HeightsOk(hs, top) && top <= height <= MAX_HEIGHT
    ensures HeightsOk(hs, height)
  {
  }

  lemma HeightsShape(hs: seq<nat>, top: nat)
    requires HeightsOk(hs, top)
    ensures top <= MAX_HEIGHT
  {
  }

  lemma NothingRelinked(a: Links, x: Node, qs: seq<nat>)
    requires |a.all| == |a.hs| == |a.nx| && forall i :: 0 <= i < |a.all| ==> |a.nx[i]| == a.hs[i]
    ensures forall q :: 0 <= q < |a.all| ==> Relinked(a.hs, a.nx, x, 0, qs, q, a.nx[q])
  {
  }

  lemma PrevOnLevel(a: Links, i: nat, p: nat, qs: seq<nat>)
    requires i < |qs| && IsPrev(a.hs, p, i, qs[i])
    ensures qs[i] < |a.hs| && i < a.hs[qs[i]]
  {
    hide NextAt;
  }

  lemma SpliceFacts(a: Links, now: seq<seq<Node?>>, b: Links, x: Node, h: nat, xnext: seq<Node?>, p: nat, qs: seq<nat>)
    requires LinksOk(a.all, a.hs, a.nx) && |now| == |a.all| && 1 <= p <= |a.all| && |xnext| == h <= |qs|
    requires b.all == a.all[..p] + [x] + a.all[p..] && b.hs == a.hs[..p] + [h] + a.hs[p..]
    requires b.nx == now[..p] + [xnext] + now[p..]
    requires forall l :: 0 <= l < h ==> IsPrev(a.hs, p, l, qs[l]) && qs[l] < |a.nx| && l < |a.nx[qs[l]]| && xnext[l] == a.nx[qs[l]][l]
    requires forall q :: 0 <= q < |a.all| ==> Relinked(a.hs, a.nx, x, h, qs, q, now[q])
    ensures IsSplice(a, b, x, h, p, qs)
  {
    hide LinksOk, NextAt, Relinked;
    forall q | 0 <= q < |a.all| ensures Carried(a, b, x, h, p, qs, q) {
      assert b.nx[Moved(q, p)] == now[q];
    }
  }

  lemma LinksShape(a: Links)
    requires LinksOk(a.all, a.hs, a.nx)
    ensures |a.all| == |a.hs| == |a.nx| && forall i :: 0 <= i < |a.all| ==> |a.nx[i]| == a.hs[i]
  {
  }

  lemma NodesInserted(all: seq<Node>, x: Node, p: nat)
    requires NodesOk(all) && Splits(all, x.key, p) && x !in all && (p < |all| ==> all[p].key != x.key)
    ensures NodesOk(all[..p] + [x] + all[p..])
  {
  }

  lemma HeadIsPrev(hs: seq<nat>, top: nat, p: nat, l: nat)
    requires HeightsOk(hs, top) && top <= l < MAX_HEIGHT && 1 <= p <= |hs|
    ensures IsPrev(hs, p, l, 0)
  {
  }

  lemma Shape(all: seq<Node>, hs: seq<nat>, top: nat)
    requires NodesOk(all) && HeightsOk(hs, top)
    ensures |all| > 0 && |hs| > 0 && hs[0] == MAX_HEIGHT && 1 <= top <= MAX_HEIGHT
  {
  }

  /** Position `q`, not after `i`, is on level `l`, and the next one on that level does not have a smaller key. */
  ghost predicate Passed(all: seq<Node>, hs: seq<nat>, key: int, l: nat, q: nat, i: nat) {
    && q <= i < |all| == |hs| && hs[q] > l
    && (NextAt(hs, q, l) < |all| ==> all[NextAt(hs, q, l)].key >= key)
  }

  lemma FollowLink(all: seq<Node>, hs: seq<nat>, nx: seq<seq<Node?>>, i: nat, l: nat)
    requires LinksOk(all, hs, nx) && i < |all| && l < hs[i]
    ensures |nx[i]| == hs[i] && nx[i][l] == At(all, NextAt(hs, i, l))
  {
    assert Link(all, hs, nx, i, l);
  }

  lemma SmallerBefore(all: seq<Node>, j: nat, key: int)
    requires NodesOk(all) && 1 <= j < |all| && all[j].key < key
    ensures forall m :: 1 <= m <= j ==> all[m].key < key
  {
  }

  lemma AllOnBottom(hs: seq<nat>, top: nat, i: nat)
    requires HeightsOk(hs, top) && i < |hs|
    ensures NextAt(hs, i, 0) == i + 1
  {
  }

  lemma FoundAt(all: seq<Node>, hs: seq<nat>, key: int, i: nat)
    requires NodesOk(all) && i < |all| && (forall j :: 1 <= j <= i ==> all[j].key < key)
    requires i + 1 < |all| ==> all[i + 1].key >= key
    ensures Splits(all, key, i + 1)
  {
  }

  /** The predecessors on all levels above `level` have been found, and the search is at node `i`. */
  ghost predicate PassedAbove(all: seq<Node>, hs: seq<nat>, key: int, level: int, top: nat, prev: seq<Node>, qs: seq<nat>, i: nat) {
    && top <= |qs| == |prev|
    && forall l :: 0 <= l < top && level < l ==> Passed(all, hs, key, l, qs[l], i) && prev[l] == all[qs[l]]
  }

  lemma NothingPassed(all: seq<Node>, hs: seq<nat>, key: int, top: nat, prev: seq<Node>, qs: seq<nat>, i: nat)
    requires top <= |qs| == |prev|
    ensures PassedAbove(all, hs, key, top - 1, top, prev, qs, i)
  {
  }

  lemma PassOn(all: seq<Node>, hs: seq<nat>, key: int, level: int, top: nat, prev: seq<Node>, qs: seq<nat>, i: nat, j: nat)
    requires PassedAbove(all, hs, key, level, top, prev, qs, i) && i <= j < |all| && all[j].key < key && NodesOk(all)
    ensures PassedAbove(all, hs, key, level, top, prev, qs, j)
  {
    hide NextAt;
  }

  lemma PassDown(all: seq<Node>, hs: seq<nat>, key: int, level: nat, top: nat, prev: seq<Node>, qs: seq<nat>, i: nat)
    requires PassedAbove(all, hs, key, level, top, prev, qs, i) && level < top && i < |all| == |hs| && hs[i] > level
    requires var j := NextAt(hs, i, level); i < j <= |all| && (j < |all| ==> all[j].key >= key)
    ensures PassedAbove(all, hs, key, level - 1, top, prev[level := all[i]], qs[level := i], i)
  {
    hide NextAt;
  }

  /** On the bottom level the search is over. */
  lemma Arrived(all: seq<Node>, hs: seq<nat>, top: nat, key: int, i: nat, prev: seq<Node>, qs: seq<nat>)
    requires NodesOk(all) && HeightsOk(hs, top) && i < |all| == |hs|
    requires (forall j :: 1 <= j <= i ==> all[j].key < key) && (i + 1 < |all| ==> all[i + 1].key >= key)
    requires PassedAbove(all, hs, key, -1, top, prev, qs, i)
    ensures top <= |qs| == |prev| && Splits(all, key, i + 1) && NextAt(hs, i, 0) == i + 1
    ensures forall l :: 0 <= l < top ==> IsPrev(hs, i + 1, l, qs[l]) && qs[l] < |all| && prev[l] == all[qs[l]]
  {
    hide NextAt;
    AllOnBottom(hs, top, i);
    FoundAt(all, hs, key, i);
    forall l | 0 <= l < top ensures IsPrev(hs, i + 1, l, qs[l]) {
      PassedIsPrev(all, hs, key, l, qs[l], i, i + 1);
    }
  }

  lemma PassedIsPrev(all: seq<Node>, hs: seq<nat>, key: int, l: nat, q: nat, i: nat, p: nat)
    requires Passed(all, hs, key, l, q, i) && Splits(all, key, p) && p == i + 1
    ensures IsPrev(hs, p, l, q)
  {
    hide NextAt;
  }

  /** The heights with one more, at position `p`. */
  lemma {:induction false} NextAtInserted(hs: seq<nat>, h: nat, p: nat, i: nat, l: nat)
    requires 1 <= p <= |hs| && i < |hs|
    ensures var grown := hs[..p] + [h] + hs[p..];
            var j := NextAt(hs, i, l);
            NextAt(grown, if i < p then i else i + 1, l)
            == if i < p <= j then (if h > l then p else j + 1) else if j < p then j else j + 1
  {
    hide NextAt;
    var grown, j := hs[..p] + [h] + hs[p..], NextAt(hs, i, l);
    var i' := if i < p then i else i + 1;
    var t := if i < p <= j then (if h > l then p else j + 1) else if j < p then j else j + 1;
    forall m | i' < m < t ensures grown[m] <= l {
      assert m < p ==> grown[m] == hs[m];
      assert m > p ==> grown[m] == hs[m - 1];
    }
    NextIs(grown, i', l, t);
  }

  lemma NextIs(hs: seq<nat>, i: nat, l: nat, j: nat)
    requires i < j <= |hs| && (forall m :: i < m < j ==> hs[m] <= l) && (j < |hs| ==> hs[j] > l)
    ensures NextAt(hs, i, l) == j
  {
    hide NextAt;
  }

  lemma NextAfterInserted(hs: seq<nat>, h: nat, p: nat, q: nat, l: nat)
    requires IsPrev(hs, p, l, q) && 1 <= p
    ensures NextAt(hs[..p] + [h] + hs[p..], p, l) == NextAt(hs, q, l) + 1
  {
    var grown, j := hs[..p] + [h] + hs[p..], NextAt(hs, q, l);
    var j' := NextAt(grown, p, l);
    forall m | p < m <= j ensures grown[m] <= l {
      assert grown[m] == hs[m - 1];
    }
    assert j + 1 < |grown| ==> grown[j + 1] == hs[j];
  }

  lemma PrevUnique(hs: seq<nat>, p: nat, l: nat, q: nat, r: nat)
    requires IsPrev(hs, p, l, q) && IsPrev(hs, p, l, r)
    ensures q == r
  {
  }

  ghost predicate Relinked(hs: seq<nat>, nx: seq<seq<Node?>>, x: Node, height: nat, qs: seq<nat>, q: nat, now: seq<Node?>) {
    && q < |hs| == |nx| && |nx[q]| == hs[q] == |now| && height <= |qs|
    && forall l :: 0 <= l < hs[q] ==> now[l] == if l < height && qs[l] == q then x else nx[q][l]
  }

  /** A list of nodes with their heights and links. */
  datatype Links = Links(all: seq<Node>, hs: seq<nat>, nx: seq<seq<Node?>>)

  function Moved(q: nat, p: nat): nat {
    if q < p then q else q + 1
  }

  /** A node keeps its links but those that now lead to `x`. */
  ghost predicate Carried(a: Links, b: Links, x: Node, h: nat, p: nat, qs: seq<nat>, q: nat) {
    Moved(q, p) < |b.nx| && Relinked(a.hs, a.nx, x, h, qs, q, b.nx[Moved(q, p)])
  }

  /** `b` is `a` with `x` spliced in at position `p`, after the last nodes before it on its levels. */
  ghost predicate IsSplice(a: Links, b: Links, x: Node, h: nat, p: nat, qs: seq<nat>) {
    && LinksOk(a.all, a.hs, a.nx) && 1 <= p <= |a.all| && h <= |qs|
    && b.all == a.all[..p] + [x] + a.all[p..] && b.hs == a.hs[..p] + [h] + a.hs[p..]
    && |b.nx| == |b.all| && |b.nx[p]| == h
    && (forall l :: 0 <= l < h ==> IsPrev(a.hs, p, l, qs[l]) && |a.nx[qs[l]]| > l && b.nx[p][l] == a.nx[qs[l]][l])
    && (forall q :: 0 <= q < |a.all| ==> Carried(a, b, x, h, p, qs, q))
  }

  /** After the splice every link still leads to the next node on its level. */
  lemma Spliced(a: Links, b: Links, x: Node, h: nat, p: nat, qs: seq<nat>)
    requires IsSplice(a, b, x, h, p, qs)
    ensures LinksOk(b.all, b.hs, b.nx)
  {
    hide NextAt;
    forall i | 0 <= i < |b.all|
      ensures |b.nx[i]| == b.hs[i] && forall l :: 0 <= l < b.hs[i] ==> Link(b.all, b.hs, b.nx, i, l)
    {
      if i == p {
        NewNodeLinks(a, b, x, h, p, qs);
      } else {
        OldNodeLinks(a, b, x, h, p, qs, if i < p then i else i - 1);
      }
    }
  }

  lemma NewNodeLinks(a: Links, b: Links, x: Node, h: nat, p: nat, qs: seq<nat>)
    requires IsSplice(a, b, x, h, p, qs)
    ensures |b.nx[p]| == b.hs[p] && forall l :: 0 <= l < b.hs[p] ==> Link(b.all, b.hs, b.nx, p, l)
  {
    hide NextAt;
    forall l | 0 <= l < h ensures Link(b.all, b.hs, b.nx, p, l) {
      assert IsPrev(a.hs, p, l, qs[l]);
      FollowLink(a.all, a.hs, a.nx, qs[l], l);
      NextAfterInserted(a.hs, h, p, qs[l], l);
      Shifted(a.all, x, p, NextAt(a.hs, qs[l], l));
    }
  }

  lemma Shifted(all: seq<Node>, x: Node, p: nat, j: nat)
    requires p <= |all|
    ensures At(all[..p] + [x] + all[p..], if j < p then j else j + 1) == At(all, j)
  {
  }

  lemma OldNodeLinks(a: Links, b: Links, x: Node, h: nat, p: nat, qs: seq<nat>, q: nat)
    requires IsSplice(a, b, x, h, p, qs) && q < |a.all|
    ensures var i := Moved(q, p);
            |b.nx[i]| == b.hs[i] && forall l :: 0 <= l < b.hs[i] ==> Link(b.all, b.hs, b.nx, i, l)
  {
    hide NextAt;
    var i := Moved(q, p);
    assert Carried(a, b, x, h, p, qs, q);
    assert b.hs[i] == a.hs[q];
    forall l | 0 <= l < b.hs[i] ensures Link(b.all, b.hs, b.nx, i, l) {
      var j := NextAt(a.hs, q, l);
      NextAtInserted(a.hs, h, p, q, l);
      FollowLink(a.all, a.hs, a.nx, q, l);
      Shifted(a.all, x, p, j);
      if q < p <= j && l < h {
        PrevUnique(a.hs, p, l, q, qs[l]);
      }
    }
  }

  /** The positions that following the links of level `l` visits after `i`. */
  ghost function Walk(hs: seq<nat>, i: nat, l: nat): seq<nat>
    requires i < |hs|
    decreases |hs| - i
  {
    var j := NextAt(hs, i, l);
    if j == |hs| then [] else [j] + Walk(hs, j, l)
  }

  /** A level holds exactly the nodes that are tall enough, in order. */
  lemma {:induction false} WalkIs(hs: seq<nat>, i: nat, l: nat)
    requires i < |hs|
    ensures forall q :: q in Walk(hs, i, l) <==> i < q < |hs| && hs[q] > l
    ensures forall a, b :: 0 <= a < b < |Walk(hs, i, l)| ==> Walk(hs, i, l)[a] < Walk(hs, i, l)[b]
    decreases |hs| - i
  {
    var j := NextAt(hs, i, l);
    if j < |hs| {
      WalkIs(hs, j, l);
      var rest := Walk(hs, j, l);
      forall b | 0 <= b < |rest| ensures j < rest[b] {
        assert rest[b] in rest;
      }
    }
  }

  ghost predicate Rises(all: seq<Node>, i: nat, j: nat) {
    1 <= i < |all| && 1 <= j < |all| && all[i].key < all[j].key
  }

  /** Each level is a strictly sorted part of the one below it. */
  lemma LevelsNest(all: seq<Node>, hs: seq<nat>, l: nat)
    requires NodesOk(all) && |hs| == |all|
    ensures forall q :: q in Walk(hs, 0, l + 1) ==> q in Walk(hs, 0, l)
    ensures forall a, b :: 0 <= a < b < |Walk(hs, 0, l)| ==> Rises(all, Walk(hs, 0, l)[a], Walk(hs, 0, l)[b])
  {
    hide Walk, NextAt;
    WalkIs(hs, 0, l);
    WalkIs(hs, 0, l + 1);
    var w := Walk(hs, 0, l);
    forall a, b | 0 <= a < b < |w| ensures Rises(all, w[a], w[b]) {
      assert w[a] in w && w[b] in w;
    }
  }

  /** An iterator over the list: a cursor over its keys in order. */
  class Iterator {
    const list: SkipList
    var node: Node?

    ghost predicate Valid()
      reads this, list, list.all
    {
      list.Valid() && (node != null ==> node in list.all && node != list.head)
    }

    /** The place of the node among the keys; the number of keys when there is none. */
    ghost function Pos(): nat
      reads this, list
      requires node != null ==> node in list.all
    {
      if node == null || |list.all| == 0 then |list.Keys()|
      else
        var i :| 0 <= i < |list.all| && list.all[i] == node;
        if i == 0 then 0 else i - 1
    }

    constructor (list: SkipList)
      requires list.Valid()
      ensures this.list == list && Valid() && node == null
    {
      this.list := list;
      node := null;
    }

    method Seek(target: int)
      requires Valid()
      modifies this
      ensures Valid()
      ensures node != null ==> node.key >= target
      ensures forall i :: 0 <= i < |list.Keys()| ==> list.Keys()[i] < target || (node != null && node.key <= list.Keys()[i])
    {
      hide LinksOk, HeightsOk, NextAt, IsPrev;
      ghost var p: nat, qs: seq<nat>;
      var prev: seq<Node>;
      node, prev, p, qs := list.FindGreaterOrEqual(target);
      SplitKeys(list.all, target, p);
    }

    method SeekToFirst()
      requires Valid()
      modifies this
      ensures Valid() && Pos() == 0
    {
      hide HeightsOk, NextAt, LinksOk;
      FirstLinks(list.all, list.heights, list.Nexts(), list.maxHeight, 0);
      node := list.head.next[0];
    }

    method SeekToLast()
      requires Valid()
      modifies this
      ensures Valid() && Pos() == if |list.Keys()| == 0 then 0 else |list.Keys()| - 1
    {
      hide LinksOk, HeightsOk;
      var last := list.FindLast();
      node := last;
      if node == list.head {
        node := null;
      }
    }

    method Next()
      requires Valid() && node != null
      modifies this
      ensures Valid() && Pos() == old(Pos()) + 1
    {
      hide HeightsOk, NextAt, LinksOk;
      ghost var i :| 0 <= i < |list.all| && list.all[i] == node;
      FirstLinks(list.all, list.heights, list.Nexts(), list.maxHeight, i);
      node := node.next[0];
    }

    method Prev()
      requires Valid() && node != null
      modifies this
      ensures Valid() && Pos() == if old(Pos()) == 0 then |list.Keys()| else old(Pos()) - 1
    {
      hide LinksOk, HeightsOk, NextAt;
      ghost var i :| 0 <= i < |list.all| && list.all[i] == node;
      ghost var p: nat;
      var x: Node;
      x, p := list.FindLessThan(node.key);
      SplitsAt(list.all, i, p);
      node := x;
      if node == list.head {
        node := null;
      }
    }
  }

  lemma KeyCount(all: seq<Node>)
    requires |all| > 0
    ensures |KeysOf(all)| == |all| - 1
  {
  }

  /** On the bottom level the next node is the next in order. */
  lemma FirstLinks(all: seq<Node>, hs: seq<nat>, nx: seq<seq<Node?>>, top: nat, i: nat)
    requires LinksOk(all, hs, nx) && HeightsOk(hs, top) && i < |all|
    ensures |nx[i]| > 0 && nx[i][0] == At(all, i + 1)
  {
    hide NextAt;
    FollowLink(all, hs, nx, i, 0);
    AllOnBottom(hs, top, i);
  }

  lemma SplitsAt(all: seq<Node>, i: nat, p: nat)
    requires NodesOk(all) && 1 <= i < |all| && Splits(all, all[i].key, p)
    ensures p == i
  {
    if p < |all| {
      KeyOrder(all, p, i);
    }
  }

  lemma KeyOrder(all: seq<Node>, i: nat, j: nat)
    requires NodesOk(all) && 1 <= i < |all| && 1 <= j < |all|
    ensures all[i].key < all[j].key <==> i < j
  {
  }

  lemma SplitKeys(all: seq<Node>, target: int, p: nat)
    requires NodesOk(all) && Splits(all, target, p)
    ensures forall i :: 0 <= i < |KeysOf(all)| ==> KeysOf(all)[i] < target || (p < |all| && all[p].key <= KeysOf(all)[i])
  {
    hide KeysOf;
    KeysAre(all);
    forall i | 0 <= i < |KeysOf(all)| ensures KeysOf(all)[i] < target || (p < |all| && all[p].key <= KeysOf(all)[i]) {
      assert KeysOf(all)[i] == all[i + 1].key;
      assert p <= i + 1 ==> p < |all| && all[p].key <= all[i + 1].key;
    }
  }
}
