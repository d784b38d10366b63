/** The writer queue: the front writer commits for a prefix of the queue at once. */
module GroupCommit {
  import opened Format
  import opened History

  /** `batch` is `None` for the null batch that only forces a memtable switch. */
  datatype Writer = Writer(id: nat, batch: Option<seq<Op>>, sync: bool, bytes: nat)

  const MAX_GROUP := 0x10_0000
  const SMALL := 0x2_0000

  ghost function OpsOf(ws: seq<Writer>): seq<Op> {
    if ws == [] then [] else
      var n := |ws| - 1;
      OpsOf(ws[..n]) + if ws[n].batch.Some? then ws[n].batch.value else []
  }

  ghost function BytesOf(ws: seq<Writer>): nat {
    if ws == [] then 0 else
      var n := |ws| - 1;
      BytesOf(ws[..n]) + if ws[n].batch.Some? then ws[n].bytes else 0
  }

  /** The byte limit for a group led by a writer of this size: a small leader does not wait for a large group. */
  ghost function Limit(first: Writer): nat {
    if first.bytes <= SMALL then first.bytes + SMALL else MAX_GROUP
  }

  /** A writer that may not join: it needs a sync the leader does not do, or it would make the group too big. */
  ghost predicate Refused(ws: seq<Writer>, i: nat)
    requires 0 < i < |ws|
  {
    || (ws[i].sync && !ws[0].sync)
    || (ws[i].batch.Some? && BytesOf(ws[..i + 1]) > Limit(ws[0]))
  }

  /** The longest prefix of the queue with no refused writer. */
  ghost predicate IsGroup(ws: seq<Writer>, n: nat) {
    && 0 < n <= |ws|
    && (forall i :: 0 < i < n ==> !Refused(ws, i))
    && (n < |ws| ==> Refused(ws, n))
  }

  /** The queue as the mutex protects it.  `arrivals` lists every writer that ever joined, in order. */
  class WriteQueue {
    var writers: seq<Writer>
    var tmpBatch: seq<Op>
    var usesTmp: bool
    var lastSequence: nat
    var inFlight: Option<nat>
    var logged: seq<Op>
    ghost var arrivals: seq<Writer>
    ghost var done: nat

    ghost predicate Valid()
      reads this
    {
      && done <= |arrivals| && writers == arrivals[done..]
      && logged == OpsOf(arrivals[..done])
      && lastSequence == |logged|
      && (!usesTmp ==> tmpBatch == []) && (inFlight.None? ==> !usesTmp)
      && (inFlight.Some? ==> 0 < inFlight.value <= |writers| && writers[0].batch.Some?
                             && Record() == OpsOf(writers[..inFlight.value]))
    }

    /** The batch the front writer logs: its own, or the scratch batch if others joined it. */
    function Record(): seq<Op>
      reads this
    {
      if usesTmp then tmpBatch else if writers != [] && writers[0].batch.Some? then writers[0].batch.value else []
    }

    constructor ()
      ensures Valid() && arrivals == [] && writers == [] && lastSequence == 0
    {
      writers, tmpBatch, usesTmp, lastSequence, inFlight, logged := [], [], false, 0, None, [];
      arrivals, done := [], 0;
    }

    /** A writer joins at the back, at any time. */
    method Join(w: Writer)
      requires Valid()
      modifies this
      ensures Valid() && arrivals == old(arrivals) + [w] && done == old(done)
      ensures logged == old(logged) && inFlight == old(inFlight) && writers == old(writers) + [w]
    {
      assert (arrivals + [w])[done..] == writers + [w];
      assert (arrivals + [w])[..done] == arrivals[..done];
      if inFlight.Some? {
        assert (writers + [w])[..inFlight.value] == writers[..inFlight.value];
      }
      writers := writers + [w];
      arrivals := arrivals + [w];
    }

    /** The front writer gathers its group and keeps the record to log. */
    method BuildBatchGroup() returns (n: nat)
      requires Valid() && inFlight.None? && writers != [] && writers[0].batch.Some?
      modifies this
      ensures Valid() && arrivals == old(arrivals) && done == old(done) && logged == old(logged) && writers == old(writers)
      ensures IsGroup(writers, n) && inFlight == Some(n) && Record() == OpsOf(writers[..n])
    {
      hide OpsOf, Refused;
      var joined;
      n, tmpBatch, joined := GatherGroup(writers);
      usesTmp, inFlight := joined, Some(n);
    }

    /** The record that was built is logged and in the memtable: publish it and release exactly its writers. */
    method FinishGroup() returns (released: seq<Writer>)
      requires Valid() && inFlight.Some?
      modifies this
      ensures Valid() && arrivals == old(arrivals) && inFlight.None?
      ensures done == old(done) + old(inFlight).value && released == old(writers)[..old(inFlight).value]
      ensures logged == old(logged) + old(Record()) == old(logged) + OpsOf(released)
    {
      hide OpsOf;
      var n := inFlight.value;
      released := writers[..n];
      OpsOfConcat(arrivals[..done], released);
      assert arrivals[..done] + released == arrivals[..done + n];
      assert writers[n..] == arrivals[done + n..];
      logged := logged + Record();
      lastSequence := lastSequence + |Record()|;
      tmpBatch, usesTmp := [], false;
      writers := writers[n..];
      done := done + n;
      inFlight := None;
    }

    /** A null batch at the front commits nothing and releases only itself. */
    method FinishNull()
      requires Valid() && inFlight.None? && writers != [] && writers[0].batch.None?
      modifies this
      ensures Valid() && arrivals == old(arrivals) && done == old(done) + 1 && logged == old(logged) && inFlight.None?
    {
      OpsOfConcat(arrivals[..done], writers[..1]);
      assert arrivals[..done] + writers[..1] == arrivals[..done + 1];
      assert writers[..1][..0] == [];
      assert OpsOf(writers[..1]) == [];
      writers := writers[1..];
      done := done + 1;
    }
  }

  lemma LeaderAlone(ws: seq<Writer>)
    requires ws != [] && ws[0].batch.Some?
    ensures OpsOf(ws[..1]) == ws[0].batch.value && BytesOf(ws[..1]) == ws[0].bytes
  {
    assert ws[..1][..0] == [];
    assert OpsOf([]) == [] && BytesOf([]) == 0;
  }

  /** `BuildBatchGroup` on the queue as it stands: the scratch batch is filled only when a second batch joins. */
  method GatherGroup(ws: seq<Writer>) returns (n: nat, tmp: seq<Op>, usesTmp: bool)
    requires ws != [] && ws[0].batch.Some?
    ensures IsGroup(ws, n)
    ensures (if usesTmp then tmp else ws[0].batch.value) == OpsOf(ws[..n]) && (!usesTmp ==> tmp == [])
  {
    hide Refused;
    var first := ws[0];
    LeaderAlone(ws);
    var size := first.bytes;
    var maxSize := if size <= SMALL then size + SMALL else MAX_GROUP;
    tmp, usesTmp, n := [], false, 1;
    while n < |ws|
      invariant 0 < n <= |ws| && forall i :: 0 < i < n ==> !Refused(ws, i)
      invariant size == BytesOf(ws[..n]) && maxSize == Limit(first)
      invariant (if usesTmp then tmp else first.batch.value) == OpsOf(ws[..n]) && (!usesTmp ==> tmp == [])
    {
      var w := ws[n];
      OneMore(ws, n);
      if w.sync && !first.sync {
        break;
      }
      if w.batch.Some? {
        size := size + w.bytes;
        if size > maxSize {
          break;
        }
        if !usesTmp {
          usesTmp := true;
          tmp := tmp + first.batch.value;
        }
        tmp := tmp + w.batch.value;
      }
      n := n + 1;
    }
  }

  /** Nobody in a group asked for a sync that its leader does not do, and a group of several batches stays within
      the limit: a megabyte, or 128 KB more than a small leader. */
  lemma {:induction false} GroupIsFair(ws: seq<Writer>, n: nat)
    requires 0 < n <= |ws| && ws[0].batch.Some? && forall i :: 0 < i < n ==> !Refused(ws, i)
    ensures forall i :: 0 <= i < n && ws[i].sync ==> ws[0].sync
    ensures BytesOf(ws[..n]) == ws[0].bytes || BytesOf(ws[..n]) <= if ws[0].bytes <= 0x2_0000 then ws[0].bytes + 0x2_0000 else 0x10_0000
    ensures BytesOf(ws[..n]) >= ws[0].bytes
  {
    if n == 1 {
      LeaderAlone(ws);
    } else {
      GroupIsFair(ws, n - 1);
      OneMore(ws, n - 1);
      assert !Refused(ws, n - 1);
    }
  }

  lemma OneMore(ws: seq<Writer>, n: nat)
    requires 0 < n < |ws|
    ensures OpsOf(ws[..n + 1]) == OpsOf(ws[..n]) + if ws[n].batch.Some? then ws[n].batch.value else []
    ensures BytesOf(ws[..n + 1]) == BytesOf(ws[..n]) + if ws[n].batch.Some? then ws[n].bytes else 0
    ensures Refused(ws, n) <==> (ws[n].sync && !ws[0].sync) || (ws[n].batch.Some? && BytesOf(ws[..n + 1]) > Limit(ws[0]))
  {
    assert ws[..n + 1][..n] == ws[..n];
  }

  lemma {:induction false} OpsOfConcat(a: seq<Writer>, b: seq<Writer>)
    ensures OpsOf(a + b) == OpsOf(a) + OpsOf(b)
  {
    if b == [] {
      assert a + b == a;
    } else {
      var n := |b| - 1;
      OpsOfConcat(a, b[..n]);
      assert (a + b)[..|a| + n] == a + b[..n];
      assert (a + b)[|a| + n] == b[n];
    }
  }

  /** The sequence number before a writer's first operation: what all earlier arrivals wrote. */
  ghost function StartOf(arrivals: seq<Writer>, i: nat): nat
    requires i <= |arrivals|
  {
    |OpsOf(arrivals[..i])|
  }

  lemma StartsAscend(arrivals: seq<Writer>, i: nat, j: nat)
    requires i <= j <= |arrivals|
    ensures StartOf(arrivals, i) <= StartOf(arrivals, j)
    ensures OpsOf(arrivals[..i]) <= OpsOf(arrivals[..j])
  {
    OpsOfConcat(arrivals[..i], arrivals[i..j]);
    assert arrivals[..i] + arrivals[i..j] == arrivals[..j];
  }

  /** First come, first served, without gaps: once `done` writers have been released, writer `i` owns the
      contiguous interval right after its predecessor's, and its own operations are what was logged there. */
  lemma WriterOwnsInterval(arrivals: seq<Writer>, done: nat, i: nat)
    requires i < done <= |arrivals|
    ensures StartOf(arrivals, i) <= StartOf(arrivals, i + 1) <= |OpsOf(arrivals[..done])|
    ensures OpsOf(arrivals[..done])[StartOf(arrivals, i)..StartOf(arrivals, i + 1)] ==
              if arrivals[i].batch.Some? then arrivals[i].batch.value else []
  {
    StartsAscend(arrivals, i, i + 1);
    StartsAscend(arrivals, i + 1, done);
    assert arrivals[..i + 1][..i] == arrivals[..i];
    var own := if arrivals[i].batch.Some? then arrivals[i].batch.value else [];
    var all, upTo := OpsOf(arrivals[..done]), OpsOf(arrivals[..i + 1]);
    assert upTo == OpsOf(arrivals[..i]) + own;
    assert all[..|upTo|] == upTo;
    assert all[|upTo| - |own|..|upTo|] == upTo[|upTo| - |own|..];
  }

  /** Every value the sequence counter takes is a batch boundary, so a snapshot sees all of a batch or none. */
  lemma NoTornBatch(arrivals: seq<Writer>, done: nat, i: nat)
    requires done <= |arrivals| && i < |arrivals|
    ensures var lastSequence := |OpsOf(arrivals[..done])|;
            StartOf(arrivals, i + 1) <= lastSequence || lastSequence <= StartOf(arrivals, i)
  {
    if i < done {
      StartsAscend(arrivals, i + 1, done);
    } else {
      StartsAscend(arrivals, done, i);
    }
  }
}
