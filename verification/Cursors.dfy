/** The contract every iterator promises: a cursor is at one entry of a sorted source, or nowhere.
    A position is an index into the source; its length stands for "not valid". */
module Cursors {
  import opened Format

  function SeekPos(items: seq<Entry>, target: IKey): (p: nat)
    ensures p <= |items|
    ensures forall i :: 0 <= i < p ==> Less(items[i].key, target)
    ensures p < |items| ==> LessEq(target, items[p].key)
  {
    if items == [] || LessEq(target, items[0].key) then 0 else 1 + SeekPos(items[1..], target)
  }

  /** The last position, or no position in an empty source. */
  function LastPos(n: nat): (r: nat)
    ensures n > 0 ==> r < n && r + 1 == n
    ensures n == 0 ==> r == n
  {
    if n == 0 then 0 else n - 1
  }

  /** The position that the next one is after; there is none before the first. */
  function PrevPos(n: nat, p: nat): (r: nat)
    ensures p > 0 ==> r + 1 == p
    ensures p == 0 ==> r == n
  {
    if p == 0 then n else p - 1
  }

  /** In a sorted source everything from the seek position on is at or past the target. */
  lemma SeekSplits(items: seq<Entry>, target: IKey)
    requires Sorted(items)
    ensures forall i :: SeekPos(items, target) <= i < |items| ==> LessEq(target, items[i].key)
  {
    var p := SeekPos(items, target);
    forall i | p < i < |items| ensures LessEq(target, items[i].key) {
      assert Less(items[p].key, items[i].key);
    }
  }

  /** In a sorted source the order of keys is the order of positions. */
  lemma SortedOrder(items: seq<Entry>, a: nat, b: nat)
    requires Sorted(items) && a < |items| && b < |items|
    ensures Less(items[a].key, items[b].key) <==> a < b
    ensures LessEq(items[a].key, items[b].key) <==> a <= b
  {
  }

  /** An iterator over a sorted list of entries, obeying the contract; the sources that other iterators combine. */
  class EntryCursor {
    var items: seq<Entry>
    var pos: nat

    ghost predicate Valid()
      reads this
    {
      pos <= |items|
    }

    constructor (items: seq<Entry>)
      ensures this.items == items && Valid() && pos == |items|
    {
      this.items := items;
      pos := |items|;
    }

    method SeekToFirst()
      modifies `pos
      ensures Valid() && pos == 0
    {
      pos := 0;
    }

    method SeekToLast()
      modifies `pos
      ensures Valid() && pos == LastPos(|items|)
    {
      pos := LastPos(|items|);
    }

    method Seek(target: IKey)
      modifies `pos
      ensures Valid() && pos == SeekPos(items, target)
    {
      pos := SeekPos(items, target);
    }

    method Next()
      requires Valid() && pos < |items|
      modifies `pos
      ensures Valid() && pos == old(pos) + 1
    {
      pos := pos + 1;
    }

    method Prev()
      requires Valid() && pos < |items|
      modifies `pos
      ensures Valid() && pos == PrevPos(|items|, old(pos))
    {
      pos := PrevPos(|items|, pos);
    }

    /** An entry joins the list while the cursor rests; the cursor stays at its entry, or past the end. */
    method Grow(e: Entry, p: nat)
      requires Valid() && p <= |items|
      modifies this
      ensures items == Inserted(old(items), p, e) && Valid()
      ensures pos == MovedTo(|old(items)|, p, old(pos))
    {
      items := items[..p] + [e] + items[p..];
      if pos >= p {
        pos := pos + 1;
      }
    }
  }

  function Inserted(items: seq<Entry>, p: nat, e: Entry): (r: seq<Entry>)
    requires p <= |items|
    ensures |r| == |items| + 1 && r[p] == e
  {
    items[..p] + [e] + items[p..]
  }

  lemma InsertedAt(items: seq<Entry>, p: nat, e: Entry, i: nat)
    requires p <= |items| && i < |items|
    ensures Inserted(items, p, e)[MovedTo(|items|, p, i)] == items[i]
  {
  }

  /** An entry put in where a seek for its key would land leaves the list sorted. */
  lemma InsertedSorted(items: seq<Entry>, e: Entry)
    requires Sorted(items) && forall x :: x in items ==> Tag(x.key) != Tag(e.key)
    ensures var r := Inserted(items, SeekPos(items, e.key), e);
            Sorted(r) && Contents(r) == Contents(items) + {e}
  {
    hide Sorted, Inserted;
    var p := SeekPos(items, e.key);
    SeekSplits(items, e.key);
    forall i | 0 <= i < |items| ensures i < p ==> Less(items[i].key, e.key)
                                ensures i >= p ==> Less(e.key, items[i].key)
    {
      assert items[i] in items;
    }
    SortedAround(items, p, e);
    InsertedContents(items, p, e);
  }

  lemma SortedAround(items: seq<Entry>, p: nat, e: Entry)
    requires Sorted(items) && p <= |items|
    requires forall i :: 0 <= i < p ==> Less(items[i].key, e.key)
    requires forall i :: p <= i < |items| ==> Less(e.key, items[i].key)
    ensures Sorted(Inserted(items, p, e))
  {
    hide Less;
    var r := Inserted(items, p, e);
    forall i, j | 0 <= i < j < |r| ensures Less(r[i].key, r[j].key) {
      assert i != p ==> r[i] == items[MovedFrom(p, i)];
      assert j != p ==> r[j] == items[MovedFrom(p, j)];
    }
  }

  lemma InsertedContents(items: seq<Entry>, p: nat, e: Entry)
    requires p <= |items|
    ensures Contents(Inserted(items, p, e)) == Contents(items) + {e}
  {
    assert items == items[..p] + items[p..];
  }

  /** Where an entry of the longer list was. */
  function MovedFrom(p: nat, j: nat): nat
    requires j != p
  {
    if j < p then j else j - 1
  }

  /** Where a position of a list of length `n` is after an insertion at `p`; the end stays the end. */
  function MovedTo(n: nat, p: nat, pos: nat): nat
    requires p <= n && pos <= n
  {
    if pos < p then pos else pos + 1
  }
}
