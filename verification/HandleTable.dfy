/** The hash table of the cache: chained buckets that double as the table grows. */
module HandleTable {
  import opened Format

  /** An entry of the cache, named by a number that is never used again. */
  datatype Handle = Handle(id: nat, key: int, hash: nat)

  datatype Tag = Tag(key: int, hash: nat)

  function TagOf(h: Handle): Tag {
    Tag(h.key, h.hash)
  }

  predicate PowerOfTwo(n: nat) {
    n == 1 || (n > 1 && n % 2 == 0 && PowerOfTwo(n / 2))
  }

  /** No tag twice in a chain. */
  ghost predicate Distinct(chain: seq<Handle>) {
    forall i, j :: 0 <= i < j < |chain| ==> TagOf(chain[i]) != TagOf(chain[j])
  }

  /** The bucket of a hash: `hash & (length - 1)`, the length being a power of two. */
  function Bucket(hash: nat, length: nat): (b: nat)
    requires length > 0
    ensures b < length
  {
    hash % length
  }

  /** Hashes share a bucket if and only if they differ by a multiple of the length. */
  lemma BucketIs(hash: nat, length: nat, b: nat, q: nat)
    requires length > 0 && b < length && hash == q * length + b
    ensures Bucket(hash, length) == b
  {
    var r := Bucket(hash, length);
    assert hash == hash / length * length + r;
    OneQuotient(q, b, hash / length, r, length);
  }

  lemma OneQuotient(q: nat, b: nat, p: nat, r: nat, length: nat)
    requires b < length && r < length && q * length + b == p * length + r
    ensures b == r
  {
    assert q < p ==> (q + 1) * length <= p * length;
    assert p < q ==> (p + 1) * length <= q * length;
  }

  ghost predicate ChainOk(chain: seq<Handle>, bucket: nat, length: nat, contents: map<Tag, Handle>)
    requires length > 0
  {
    && Distinct(chain)
    && forall i :: 0 <= i < |chain| ==> Bucket(chain[i].hash, length) == bucket && Has(contents, chain[i])
  }

  ghost predicate Has(contents: map<Tag, Handle>, h: Handle) {
    TagOf(h) in contents && contents[TagOf(h)] == h
  }

  /** The buckets hold exactly the handles of the map, each in the bucket of its hash. */
  ghost predicate Represents(list: seq<seq<Handle>>, contents: map<Tag, Handle>) {
    && |list| > 0
    && (forall b :: 0 <= b < |list| ==> ChainOk(list[b], b, |list|, contents))
    && (forall t :: t in contents ==> TagOf(contents[t]) == t && contents[t] in list[Bucket(t.hash, |list|)])
  }

  class HandleTable {
    var elems: nat
    var list: seq<seq<Handle>>
    ghost var contents: map<Tag, Handle>

    ghost predicate Valid()
      reads this
    {
      Shape() && elems <= |list|
    }

    /** Valid but for its length: a table may have one entry too many until it is resized. */
    ghost predicate Shape()
      reads this
    {
      PowerOfTwo(|list|) && Represents(list, contents) && elems == |contents|
    }

    constructor ()
      ensures Valid() && contents == map[]
    {
      elems, list, contents := 0, [[], [], [], []], map[];
      new;
      assert PowerOfTwo(4) by { assert PowerOfTwo(2); }
    }

    /** The place of a tag in its chain, or the end of the chain. */
    method FindPointer(key: int, hash: nat) returns (b: nat, p: nat)
      requires Valid()
      ensures b == Bucket(hash, |list|) < |list| && p <= |list[b]|
      ensures p < |list[b]| ==> TagOf(list[b][p]) == Tag(key, hash)
      ensures p == |list[b]| <==> Tag(key, hash) !in contents
      ensures p < |list[b]| ==> contents[Tag(key, hash)] == list[b][p]
    {
      b, p := Bucket(hash, |list|), 0;
      assert ChainOk(list[b], b, |list|, contents);
      while p < |list[b]| && (list[b][p].hash != hash || list[b][p].key != key)
        invariant p <= |list[b]| && forall i :: 0 <= i < p ==> TagOf(list[b][i]) != Tag(key, hash)
      {
        p := p + 1;
      }
      assert p < |list[b]| ==> Has(contents, list[b][p]);
    }

    method Lookup(key: int, hash: nat) returns (r: Option<Handle>)
      requires Valid()
      ensures r == if Tag(key, hash) in contents then Some(contents[Tag(key, hash)]) else None
    {
      var b, p := FindPointer(key, hash);
      r := if p < |list[b]| then Some(list[b][p]) else None;
    }

    /** Put a handle in, in the place of the one with its tag if there is one. */
    method Insert(h: Handle) returns (replaced: Option<Handle>)
      requires Valid()
      modifies this
      ensures Valid() && contents == old(contents)[TagOf(h) := h]
      ensures replaced == if TagOf(h) in old(contents) then Some(old(contents)[TagOf(h)]) else None
    {
      hide PowerOfTwo;
      var b, p := FindPointer(h.key, h.hash);
      ghost var was, m := list, contents;
      var chain := list[b];
      if p < |chain| {
        replaced := Some(chain[p]);
        list := list[b := chain[p := h]];
      } else {
        replaced := None;
        list := list[b := chain + [h]];
        elems := elems + 1;
      }
      contents := contents[TagOf(h) := h];
      PutIn(was, m, b, p, h);
      if replaced.None? && elems > |list| {
        Resize();
      }
    }

    method Remove(key: int, hash: nat) returns (removed: Option<Handle>)
      requires Valid()
      modifies this
      ensures Valid() && contents == old(contents) - {Tag(key, hash)}
      ensures removed == if Tag(key, hash) in old(contents) then Some(old(contents)[Tag(key, hash)]) else None
    {
      hide PowerOfTwo;
      var b, p := FindPointer(key, hash);
      var chain := list[b];
      removed := None;
      if p < |chain| {
        TakeOut(list, contents, b, p);
        removed := Some(chain[p]);
        list := list[b := chain[..p] + chain[p + 1..]];
        elems := elems - 1;
        contents := contents - {Tag(key, hash)};
      } else {
        assert contents - {Tag(key, hash)} == contents;
      }
    }

    /** Move every handle to a table that is large enough. */
    method Resize()
      requires Shape()
      modifies this
      ensures Valid() && contents == old(contents) && elems == old(elems)
      ensures |list| >= 4 && (|list| > 4 ==> |list| < 2 * elems)
    {
      var newLength := 4;
      assert PowerOfTwo(4) by { assert PowerOfTwo(2); }
      while newLength < elems
        invariant newLength >= 4 && PowerOfTwo(newLength) && (newLength > 4 ==> newLength < 2 * elems)
        decreases elems - newLength
      {
        newLength := newLength * 2;
        assert newLength / 2 * 2 == newLength;
      }
      var newList := MoveAll(newLength);
      list := newList;
    }

    /** Relink every chain into the buckets of a new table. */
    method MoveAll(newLength: nat) returns (newList: seq<seq<Handle>>)
      requires Represents(list, contents) && newLength > 0
      ensures |newList| == newLength && Represents(newList, contents)
    {
      hide Moved, Represents;
      newList := seq(newLength, i => []);
      StartMove(list, newList, contents);
      for i := 0 to |list|
        invariant |newList| == newLength && Moved(list, newList, contents, i, 0)
      {
        for j := 0 to |list[i]|
          invariant |newList| == newLength && Moved(list, newList, contents, i, j)
        {
          var h := list[i][j];
          var b := Bucket(h.hash, newLength);
          MoveOne(list, newList, contents, i, j);
          newList := newList[b := [h] + newList[b]];
        }
        NextBucket(list, newList, contents, i);
      }
      AllMoved(list, newList, contents);
    }
  }

  lemma PutIn(list: seq<seq<Handle>>, m: map<Tag, Handle>, b: nat, p: nat, h: Handle)
    requires Represents(list, m) && b == Bucket(h.hash, |list|) && p <= |list[b]|
    requires p < |list[b]| ==> TagOf(list[b][p]) == TagOf(h)
    requires p == |list[b]| <==> TagOf(h) !in m
    ensures Represents(list[b := if p < |list[b]| then list[b][p := h] else list[b] + [h]], m[TagOf(h) := h])
    ensures |m[TagOf(h) := h]| == |m| + if p < |list[b]| then 0 else 1
  {
    hide Bucket, ChainOk;
    var chain, m' := list[b], m[TagOf(h) := h];
    var chain' := if p < |chain| then chain[p := h] else chain + [h];
    var list' := list[b := chain'];
    PutInChain(chain, b, |list|, m, p, h);
    forall c | 0 <= c < |list| ensures ChainOk(list'[c], c, |list|, m') {
      if c != b {
        UntouchedChain(list[c], c, |list|, m, h);
      }
    }
    forall t | t in m' ensures TagOf(m'[t]) == t && m'[t] in list'[Bucket(t.hash, |list|)] {
      if t == TagOf(h) {
        assert chain'[p] == h;
      } else {
        StillIn(list, m, b, chain', p, h, t);
      }
    }
  }

  lemma UntouchedChain(chain: seq<Handle>, c: nat, n: nat, m: map<Tag, Handle>, h: Handle)
    requires n > 0 && ChainOk(chain, c, n, m) && c != Bucket(h.hash, n)
    ensures ChainOk(chain, c, n, m[TagOf(h) := h])
  {
    hide Bucket;
  }

  lemma PutInChain(chain: seq<Handle>, b: nat, n: nat, m: map<Tag, Handle>, p: nat, h: Handle)
    requires n > 0 && ChainOk(chain, b, n, m) && b == Bucket(h.hash, n) && p <= |chain|
    requires p < |chain| ==> TagOf(chain[p]) == TagOf(h)
    requires p == |chain| <==> TagOf(h) !in m
    ensures ChainOk(if p < |chain| then chain[p := h] else chain + [h], b, n, m[TagOf(h) := h])
  {
    hide Bucket;
    forall i | 0 <= i < |chain| && TagOf(chain[i]) == TagOf(h) ensures i == p {
      assert Has(m, chain[i]);
    }
  }

  lemma StillIn(list: seq<seq<Handle>>, m: map<Tag, Handle>, b: nat, chain': seq<Handle>, p: nat, h: Handle, t: Tag)
    requires Represents(list, m) && b < |list| && p <= |list[b]| && t in m && t != TagOf(h)
    requires p < |list[b]| ==> TagOf(list[b][p]) == TagOf(h)
    requires chain' == if p < |list[b]| then list[b][p := h] else list[b] + [h]
    ensures TagOf(m[t]) == t && m[t] in list[b := chain'][Bucket(t.hash, |list|)]
  {
    hide Bucket, ChainOk;
    assert m[t] in list[Bucket(t.hash, |list|)];
    var i :| 0 <= i < |list[Bucket(t.hash, |list|)]| && list[Bucket(t.hash, |list|)][i] == m[t];
    assert list[b := chain'][Bucket(t.hash, |list|)][i] == m[t];
  }

  lemma TakeOut(list: seq<seq<Handle>>, m: map<Tag, Handle>, b: nat, p: nat)
    requires Represents(list, m) && b < |list| && p < |list[b]|
    ensures var t := TagOf(list[b][p]);
            && Represents(list[b := list[b][..p] + list[b][p + 1..]], m - {t})
            && t in m && |m - {t}| == |m| - 1
  {
    var chain, tag := list[b], TagOf(list[b][p]);
    var m', list' := m - {tag}, list[b := list[b][..p] + list[b][p + 1..]];
    assert ChainOk(chain, b, |list|, m) && Has(m, chain[p]);
    assert m == m'[tag := m[tag]];
    forall c | 0 <= c < |list| ensures ChainOk(list'[c], c, |list|, m') {
      assert ChainOk(list[c], c, |list|, m);
      if c == b {
        ChainWithout(chain, b, |list|, m, p);
      } else {
        OtherChain(chain, b, list[c], c, |list|, m, p);
      }
    }
    forall t | t in m' ensures TagOf(m'[t]) == t && m'[t] in list'[Bucket(t.hash, |list|)] {
      StillThere(list, m, b, p, t);
    }
  }

  lemma ChainWithout(chain: seq<Handle>, b: nat, length: nat, m: map<Tag, Handle>, p: nat)
    requires length > 0 && ChainOk(chain, b, length, m) && p < |chain|
    ensures ChainOk(chain[..p] + chain[p + 1..], b, length, m - {TagOf(chain[p])})
  {
    var less, m' := chain[..p] + chain[p + 1..], m - {TagOf(chain[p])};
    forall i | 0 <= i < |less| ensures Bucket(less[i].hash, length) == b && Has(m', less[i]) {
      assert less[i] == chain[if i < p then i else i + 1];
    }
    forall i, j | 0 <= i < j < |less| ensures TagOf(less[i]) != TagOf(less[j]) {
      assert less[i] == chain[if i < p then i else i + 1] && less[j] == chain[if j < p then j else j + 1];
    }
  }

  lemma OtherChain(chain: seq<Handle>, b: nat, other: seq<Handle>, c: nat, length: nat, m: map<Tag, Handle>, p: nat)
    requires length > 0 && ChainOk(chain, b, length, m) && ChainOk(other, c, length, m) && p < |chain| && b != c
    ensures ChainOk(other, c, length, m - {TagOf(chain[p])})
  {
    var m' := m - {TagOf(chain[p])};
    forall i | 0 <= i < |other| ensures Has(m', other[i]) {
      assert Bucket(other[i].hash, length) == c && Bucket(chain[p].hash, length) == b;
    }
  }

  lemma StillThere(list: seq<seq<Handle>>, m: map<Tag, Handle>, b: nat, p: nat, t: Tag)
    requires Represents(list, m) && b < |list| && p < |list[b]| && t in m && t != TagOf(list[b][p])
    ensures TagOf(m[t]) == t && m[t] in list[b := list[b][..p] + list[b][p + 1..]][Bucket(t.hash, |list|)]
  {
    var c := Bucket(t.hash, |list|);
    assert m[t] in list[c];
    var k :| 0 <= k < |list[c]| && list[c][k] == m[t];
    if c == b {
      var less := list[b][..p] + list[b][p + 1..];
      assert less[if k > p then k - 1 else k] == m[t];
    }
  }

  // ---------------------------------------------------------------------------------------------
  // Moving to a larger table

  /** `h` is among what was moved: the chains before `i`, and the first `j` of chain `i`. */
  ghost predicate Done(list: seq<seq<Handle>>, h: Handle, i: nat, j: nat) {
    exists a, c :: Before(list, a, c, i, j) && list[a][c] == h
  }

  ghost predicate Before(list: seq<seq<Handle>>, a: int, c: int, i: nat, j: nat) {
    0 <= a < |list| && 0 <= c < |list[a]| && (a < i || (a == i && c < j))
  }

  ghost predicate Moved(list: seq<seq<Handle>>, newList: seq<seq<Handle>>, contents: map<Tag, Handle>, i: nat, j: nat) {
    && |newList| > 0
    && (forall b :: 0 <= b < |newList| ==> ChainOk(newList[b], b, |newList|, contents))
    && (forall b, k :: 0 <= b < |newList| && 0 <= k < |newList[b]| ==> Done(list, newList[b][k], i, j))
    && (forall a, c :: Before(list, a, c, i, j) ==> list[a][c] in newList[Bucket(list[a][c].hash, |newList|)])
  }

  lemma StartMove(list: seq<seq<Handle>>, newList: seq<seq<Handle>>, contents: map<Tag, Handle>)
    requires |newList| > 0 && forall b :: 0 <= b < |newList| ==> newList[b] == []
    ensures Moved(list, newList, contents, 0, 0)
  {
  }

  /** A handle that has its turn is not in the new table yet. */
  lemma NotYet(list: seq<seq<Handle>>, newList: seq<seq<Handle>>, contents: map<Tag, Handle>, i: nat, j: nat, b: nat, k: nat)
    requires Represents(list, contents) && Moved(list, newList, contents, i, j) && i < |list| && j < |list[i]|
    requires b < |newList| && k < |newList[b]|
    ensures TagOf(newList[b][k]) != TagOf(list[i][j])
  {
    assert Done(list, newList[b][k], i, j);
    var a, c :| Before(list, a, c, i, j) && list[a][c] == newList[b][k];
    assert ChainOk(list[a], a, |list|, contents) && ChainOk(list[i], i, |list|, contents);
    assert a == i ==> TagOf(list[i][c]) != TagOf(list[i][j]);
  }

  lemma MoveOne(list: seq<seq<Handle>>, newList: seq<seq<Handle>>, contents: map<Tag, Handle>, i: nat, j: nat)
    requires Represents(list, contents) && Moved(list, newList, contents, i, j) && i < |list| && j < |list[i]|
    ensures var h := list[i][j];
            var b := Bucket(h.hash, |newList|);
            Moved(list, newList[b := [h] + newList[b]], contents, i, j + 1)
  {
    var h := list[i][j];
    var b := Bucket(h.hash, |newList|);
    var list' := newList[b := [h] + newList[b]];
    forall c | 0 <= c < |newList| ensures ChainOk(list'[c], c, |newList|, contents) {
      PrependOk(list, newList, contents, i, j, c);
    }
    forall c, k | 0 <= c < |list'| && 0 <= k < |list'[c]| ensures Done(list, list'[c][k], i, j + 1) {
      hide ChainOk, Done;
      DoneNext(list, newList, contents, i, j, c, k);
    }
    forall a, c | Before(list, a, c, i, j + 1) ensures list[a][c] in list'[Bucket(list[a][c].hash, |newList|)] {
      if a == i && c == j {
        assert list'[b][0] == h;
      } else {
        assert Before(list, a, c, i, j);
      }
    }
  }

  lemma PrependOk(list: seq<seq<Handle>>, newList: seq<seq<Handle>>, contents: map<Tag, Handle>, i: nat, j: nat, c: nat)
    requires Represents(list, contents) && Moved(list, newList, contents, i, j) && i < |list| && j < |list[i]| && c < |newList|
    ensures var h := list[i][j];
            ChainOk(if c == Bucket(h.hash, |newList|) then [h] + newList[c] else newList[c], c, |newList|, contents)
  {
    var h := list[i][j];
    assert ChainOk(newList[c], c, |newList|, contents);
    assert ChainOk(list[i], i, |list|, contents);
    assert Has(contents, h);
    forall k | 0 <= k < |newList[c]| ensures TagOf(newList[c][k]) != TagOf(h) {
      NotYet(list, newList, contents, i, j, c, k);
    }
    var chain := [h] + newList[c];
    forall k | 0 < k < |chain| ensures chain[k] == newList[c][k - 1] {
    }
  }

  lemma DoneNext(list: seq<seq<Handle>>, newList: seq<seq<Handle>>, contents: map<Tag, Handle>, i: nat, j: nat, c: nat, k: nat)
    requires Moved(list, newList, contents, i, j) && i < |list| && j < |list[i]| && c < |newList|
    requires var h := list[i][j]; k < |newList[c]| + if c == Bucket(h.hash, |newList|) then 1 else 0
    ensures var h := list[i][j];
            Done(list, (if c == Bucket(h.hash, |newList|) then [h] + newList[c] else newList[c])[k], i, j + 1)
  {
    var h := list[i][j];
    var own := c == Bucket(h.hash, |newList|);
    if own && k == 0 {
      assert Before(list, i, j, i, j + 1);
    } else {
      var k' := if own then k - 1 else k;
      assert Done(list, newList[c][k'], i, j);
      var a, d :| Before(list, a, d, i, j) && list[a][d] == newList[c][k'];
      assert Before(list, a, d, i, j + 1);
    }
  }

  lemma NextBucket(list: seq<seq<Handle>>, newList: seq<seq<Handle>>, contents: map<Tag, Handle>, i: nat)
    requires i < |list| && Moved(list, newList, contents, i, |list[i]|)
    ensures Moved(list, newList, contents, i + 1, 0)
  {
    forall b, k | 0 <= b < |newList| && 0 <= k < |newList[b]| ensures Done(list, newList[b][k], i + 1, 0) {
      assert Done(list, newList[b][k], i, |list[i]|);
      var a, c :| Before(list, a, c, i, |list[i]|) && list[a][c] == newList[b][k];
      assert Before(list, a, c, i + 1, 0);
    }
    forall a, c | Before(list, a, c, i + 1, 0) ensures list[a][c] in newList[Bucket(list[a][c].hash, |newList|)] {
      assert Before(list, a, c, i, |list[i]|);
    }
  }

  lemma AllMoved(list: seq<seq<Handle>>, newList: seq<seq<Handle>>, contents: map<Tag, Handle>)
    requires Represents(list, contents) && Moved(list, newList, contents, |list|, 0)
    ensures Represents(newList, contents)
  {
    forall t | t in contents ensures contents[t] in newList[Bucket(t.hash, |newList|)] {
      var a := Bucket(t.hash, |list|);
      assert contents[t] in list[a];
      var c :| 0 <= c < |list[a]| && list[a][c] == contents[t];
      assert Before(list, a, c, |list|, 0);
    }
  }
}
