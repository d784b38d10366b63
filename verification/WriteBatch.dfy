/** The encoding of write batches: a header that is patched in place and a list of operations. */
module WriteBatch {
  import opened Format
  import opened Coding

  datatype BatchOp = BatchPut(key: Bytes, value: Bytes) | BatchDelete(key: Bytes)

  const HEADER := 12
  const TYPE_DELETION: Byte := 0
  const TYPE_VALUE: Byte := 1

  predicate OpFits(op: BatchOp) {
    |op.key| < WORD && (op.BatchPut? ==> |op.value| < WORD)
  }

  function OpBytes(op: BatchOp): Bytes {
    match op
    case BatchPut(key, value) => [TYPE_VALUE] + Prefixed(key) + Prefixed(value)
    case BatchDelete(key) => [TYPE_DELETION] + Prefixed(key)
  }

  function OpsBytes(ops: seq<BatchOp>): Bytes {
    if ops == [] then [] else OpBytes(ops[0]) + OpsBytes(ops[1..])
  }

  /** The operation at the start of `s` and the bytes it takes. */
  function ReadOp(s: Bytes): (r: Option<(BatchOp, nat)>)
    requires s != []
    ensures r.Some? ==> 0 < r.value.1 <= |s|
  {
    var tag, rest := s[0], s[1..];
    if tag == TYPE_VALUE then
      var key := ReadPrefixed(rest);
      if key.None? then None else
      var value := ReadPrefixed(rest[key.value.1..]);
      if value.None? then None else Some((BatchPut(key.value.0, value.value.0), 1 + key.value.1 + value.value.1))
    else if tag == TYPE_DELETION then
      var key := ReadPrefixed(rest);
      if key.None? then None else Some((BatchDelete(key.value.0), 1 + key.value.1))
    else None
  }

  /** The operations delivered before the end or the first malformed one, and whether all were well formed. */
  function ReadOps(s: Bytes): (seq<BatchOp>, bool) {
    if s == [] then ([], true)
    else
      var op := ReadOp(s);
      if op.None? then ([], false)
      else
        var rest := ReadOps(s[op.value.1..]);
        ([op.value.0] + rest.0, rest.1)
  }

  lemma OpRoundTrip(op: BatchOp, rest: Bytes)
    requires OpFits(op)
    ensures ReadOp(OpBytes(op) + rest) == Some((op, |OpBytes(op)|))
  {
    hide Prefixed, ReadPrefixed;
    var s := OpBytes(op) + rest;
    match op
    case BatchPut(key, value) =>
      var tail := Prefixed(value) + rest;
      assert s[1..] == Prefixed(key) + tail;
      PrefixedRoundTrip(key, tail);
      assert s[1..][|Prefixed(key)|..] == tail;
      PrefixedRoundTrip(value, rest);
    case BatchDelete(key) =>
      assert s[1..] == Prefixed(key) + rest;
      PrefixedRoundTrip(key, rest);
  }

  lemma {:induction false} OpsRoundTrip(ops: seq<BatchOp>)
    requires forall i :: 0 <= i < |ops| ==> OpFits(ops[i])
    ensures ReadOps(OpsBytes(ops)) == (ops, true)
  {
    hide OpBytes, ReadOp;
    if ops != [] {
      var first, tail := OpBytes(ops[0]), OpsBytes(ops[1..]);
      OpRoundTrip(ops[0], tail);
      OpNotEmpty(ops[0]);
      assert (first + tail)[|first|..] == tail;
      OpsRoundTrip(ops[1..]);
      assert ops == [ops[0]] + ops[1..];
    }
  }

  lemma OpNotEmpty(op: BatchOp)
    ensures |OpBytes(op)| > 0
  {
  }

  lemma Regroup(a: Bytes, b: Bytes, c: Bytes)
    ensures a + (b + c) == (a + b) + c
  {
  }

  lemma {:induction false} OpsBytesAppend(a: seq<BatchOp>, b: seq<BatchOp>)
    ensures OpsBytes(a + b) == OpsBytes(a) + OpsBytes(b)
  {
    hide OpBytes;
    if a == [] {
      assert a + b == b;
    } else {
      OpsBytesAppend(a[1..], b);
      assert (a + b)[1..] == a[1..] + b && (a + b)[0] == a[0];
      Regroup(OpBytes(a[0]), OpsBytes(a[1..]), OpsBytes(b));
    }
  }

  class WriteBatch {
    var rep: Bytes
    ghost var ops: seq<BatchOp>

    /** A header of twelve bytes, whose last four count the operations that follow. */
    ghost predicate Valid()
      reads this
    {
      && |rep| >= HEADER && |ops| < WORD
      && rep[8..HEADER] == Fixed(|ops|, 4) && rep[HEADER..] == OpsBytes(ops)
      && forall i :: 0 <= i < |ops| ==> OpFits(ops[i])
    }

    constructor ()
      ensures Valid() && ops == [] && rep[..8] == Fixed(0, 8)
    {
      rep := seq(HEADER, i => 0);
      ops := [];
      new;
      assert Fixed(0, 4) == [0, 0, 0, 0] by { assert Fixed(0, 2) == [0, 0]; }
      assert Fixed(0, 8) == [0, 0, 0, 0, 0, 0, 0, 0] by { assert Fixed(0, 6) == [0, 0, 0, 0, 0, 0]; }
    }

    method Count() returns (n: nat)
      requires Valid()
      ensures n == |ops|
    {
      n := DecodeFixed32(rep[8..HEADER]);
      Fixed32RoundTrip(|ops|);
    }

    method SetCount(n: nat)
      requires |rep| >= HEADER
      modifies `rep
      ensures rep == old(rep)[..8] + Fixed(n, 4) + old(rep)[HEADER..]
    {
      rep := rep[..8] + Fixed(n, 4) + rep[HEADER..];
    }

    method Sequence() returns (n: nat)
      requires |rep| >= HEADER
      ensures n == DecodeFixed(rep[..8])
    {
      n := DecodeFixed(rep[..8]);
    }

    method SetSequence(n: DoubleWord)
      requires Valid()
      modifies `rep
      ensures Valid() && DecodeFixed(rep[..8]) == n
    {
      hide Fixed, DecodeFixed, OpsBytes;
      Fixed64RoundTrip(n);
      ghost var was := rep;
      rep := Fixed(n, 8) + rep[8..];
      assert rep[..8] == Fixed(n, 8) && rep[8..HEADER] == was[8..HEADER] && rep[HEADER..] == was[HEADER..];
    }

    /** Take over the bytes of a record; they need not be a batch. */
    method SetContents(contents: Bytes)
      modifies `rep
      ensures rep == contents
    {
      rep := contents;
    }

    method Add(op: BatchOp)
      requires Valid() && OpFits(op) && |ops| + 1 < WORD
      modifies this
      ensures Valid() && ops == old(ops) + [op] && rep[..8] == old(rep)[..8]
    {
      hide Fixed, OpBytes;
      ghost var was := rep;
      var n := Count();
      SetCount(n + 1);
      rep := rep + OpBytes(op);
      OpsBytesAppend(ops, [op]);
      OneOp(op);
      ops := ops + [op];
      Patched(was, n + 1, OpBytes(op), rep);
    }

    method Append(source: WriteBatch)
      requires Valid() && source.Valid() && |ops| + |source.ops| < WORD
      modifies this
      ensures Valid() && ops == old(ops) + old(source.ops) && rep[..8] == old(rep)[..8]
    {
      hide Fixed, OpBytes;
      ghost var was, more := rep, source.ops;
      var a := Count();
      var b := source.Count();
      var tail := source.rep[HEADER..];
      SetCount(a + b);
      rep := rep + tail;
      OpsBytesAppend(ops, more);
      ops := ops + more;
      Patched(was, a + b, tail, rep);
    }

    /** Deliver the operations in order; the batch is sound if all are well formed and the count is right. */
    method Iterate() returns (handled: seq<BatchOp>, ok: bool)
      ensures |rep| < HEADER ==> handled == [] && !ok
      ensures |rep| >= HEADER ==> handled == ReadOps(rep[HEADER..]).0
      ensures |rep| >= HEADER ==> (ok <==> ReadOps(rep[HEADER..]).1 && |handled| == DecodeFixed32(rep[8..HEADER]))
      ensures Valid() ==> handled == ops && ok
    {
      hide Fixed, DecodeFixed32, OpsBytes, ReadOp, ReadOps;
      handled, ok := [], false;
      if |rep| < HEADER {
        return;
      }
      if Valid() {
        OpsRoundTrip(ops);
        Fixed32RoundTrip(|ops|);
      }
      var input := rep[HEADER..];
      ghost var whole := ReadOps(input);
      assert whole.0 == [] + whole.0;
      while input != []
        invariant whole == (handled + ReadOps(input).0, ReadOps(input).1)
        decreases |input|
      {
        var op := ReadOp(input);
        ReadOnce(input, handled);
        if op.None? {
          return;
        }
        input := input[op.value.1..];
        handled := handled + [op.value.0];
      }
      NothingLeft(handled);
      ok := |handled| == DecodeFixed32(rep[8..HEADER]);
    }
  }

  lemma ReadOnce(s: Bytes, handled: seq<BatchOp>)
    requires s != []
    ensures ReadOp(s).None? ==> (handled + ReadOps(s).0, ReadOps(s).1) == (handled, false)
    ensures ReadOp(s).Some? ==> (handled + ReadOps(s).0, ReadOps(s).1)
                                == (handled + [ReadOp(s).value.0] + ReadOps(s[ReadOp(s).value.1..]).0, ReadOps(s[ReadOp(s).value.1..]).1)
  {
    hide ReadOp;
    var op := ReadOp(s);
    if op.None? {
      assert handled + [] == handled;
    } else {
      var rest := ReadOps(s[op.value.1..]).0;
      assert handled + ([op.value.0] + rest) == handled + [op.value.0] + rest;
    }
  }

  lemma NothingLeft(handled: seq<BatchOp>)
    ensures (handled + ReadOps([]).0, ReadOps([]).1) == (handled, true)
  {
    assert handled + [] == handled;
  }

  lemma OneOp(op: BatchOp)
    ensures OpsBytes([op]) == OpBytes(op)
  {
    hide OpBytes;
    assert [op][1..] == [];
    assert OpBytes(op) + [] == OpBytes(op);
  }

  lemma Patched(was: Bytes, n: nat, tail: Bytes, rep: Bytes)
    requires |was| >= HEADER && rep == was[..8] + Fixed(n, 4) + was[HEADER..] + tail
    ensures rep[..8] == was[..8] && rep[8..HEADER] == Fixed(n, 4) && rep[HEADER..] == was[HEADER..] + tail
  {
    hide Fixed;
  }

  // ---------------------------------------------------------------------------------------------
  // Bytes that are no batch

  /** The operations of a batch are followed by something that is none: they are delivered, and the batch is not
      sound. */
  lemma {:induction false} JunkAfterOps(ops: seq<BatchOp>, junk: Bytes)
    requires (forall i :: 0 <= i < |ops| ==> OpFits(ops[i])) && junk != [] && ReadOp(junk).None?
    ensures ReadOps(OpsBytes(ops) + junk) == (ops, false)
  {
    hide OpBytes, ReadOp;
    if ops == [] {
      assert OpsBytes(ops) + junk == junk;
    } else {
      var first, tail := OpBytes(ops[0]), OpsBytes(ops[1..]) + junk;
      OpRoundTrip(ops[0], tail);
      OpNotEmpty(ops[0]);
      Regroup(first, OpsBytes(ops[1..]), junk);
      assert (first + tail)[|first|..] == tail;
      JunkAfterOps(ops[1..], junk);
      assert ops == [ops[0]] + ops[1..];
    }
  }

  /** Only two kinds of operation are known. */
  lemma UnknownKindIsJunk(s: Bytes)
    requires s != [] && s[0] > 1
    ensures ReadOp(s).None?
  {
  }

  lemma OpReadFits(s: Bytes)
    requires s != [] && ReadOp(s).Some?
    ensures OpFits(ReadOp(s).value.0) && (ReadOp(s).value.0.BatchPut? <==> s[0] == 1)
  {
    hide ReadVarint;
  }

  /** Whatever bytes are accepted, the operations read from them are ones that a batch can hold, and a batch of them
      reads the same. */
  lemma {:induction false} OpsReadFit(s: Bytes)
    ensures var ops := ReadOps(s).0; (forall i :: 0 <= i < |ops| ==> OpFits(ops[i])) && ReadOps(OpsBytes(ops)) == (ops, true)
    decreases |s|
  {
    hide ReadOp, OpFits, OpsBytes;
    if s != [] && ReadOp(s).Some? {
      OpReadFits(s);
      OpsReadFit(s[ReadOp(s).value.1..]);
    }
    OpsRoundTrip(ReadOps(s).0);
  }

  /** A put and a deletion of one key, byte for byte. */
  lemma KnownOps()
    ensures OpsBytes([BatchPut([0x6b], [0x76, 0x77]), BatchDelete([0x6b])]) == [1, 1, 0x6b, 2, 0x76, 0x77, 0, 1, 0x6b]
  {
    var ops := [BatchPut([0x6b], [0x76, 0x77]), BatchDelete([0x6b])];
    assert ops[1..] == [BatchDelete([0x6b])] && ops[1..][1..] == [];
    OneOp(BatchDelete([0x6b]));
  }
}
