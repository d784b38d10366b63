/** The record that an installed edit leaves in the manifest, and when it can be read again. */
module ManifestRecords {
  import opened Format
  import opened Coding
  import opened Files
  import opened Manifest
  import Codec = VersionEdit

  /** A file as a field of a record: a table without entries has no keys to write. */
  function FileField(level: nat, f: File, bytes: IKey -> Bytes): Codec.Field {
    Codec.NewFile(level, f.number, f.size, if f.entries == [] then [] else bytes(Smallest(f)),
                  if f.entries == [] then [] else bytes(Largest(f)))
  }

  /** `r` is the edit as `LogAndApply` hands it to the encoder; `bytes` encodes internal keys. */
  ghost predicate Encodes(r: Codec.Edit, e: Edit, bytes: IKey -> Bytes) {
    && Codec.WellFormed(r)
    && (r.comparator.Some? <==> e.comparator.Some?)
    && r.logNumber == e.logNumber && r.prevLogNumber == e.prevLogNumber
    && r.nextFileNumber == e.nextFile && r.lastSequence == e.lastSequence
    && (forall i :: 0 <= i < |r.deleted| ==> (r.deleted[i].level, r.deleted[i].number) in e.deleted)
    && (forall p :: p in e.deleted ==> Codec.Pair(p.0, p.1) in r.deleted)
    && |r.newFiles| == |e.added|
    && (forall i :: 0 <= i < |e.added| ==> r.newFiles[i] == FileField(e.added[i].0, e.added[i].1, bytes))
    && (forall i :: 0 <= i < |r.pointers| ==> Codec.Accepted(r.pointers[i]))
    && (forall i :: 0 <= i < |Codec.FieldsOf(r)| ==> Codec.Fits(Codec.FieldsOf(r)[i]))
  }

  /** The record of an edit reads back as that edit if and only if every table it adds has entries;
      otherwise the reader refuses it, and with it the manifest. */
  lemma RecordReadable(r: Codec.Edit, e: Edit, bytes: IKey -> Bytes)
    requires Encodes(r, e, bytes) && EditOk(e) && forall k :: bytes(k) != []
    ensures var back := Codec.ReadFields(Codec.FieldsBytes(Codec.FieldsOf(r)));
            && (back.Some? <==> forall i :: 0 <= i < |e.added| ==> e.added[i].1.entries != [])
            && (back.Some? ==> Codec.FillAll(Codec.EMPTY, back.value) == r)
  {
    hide Codec.ReadFields, Codec.FieldsBytes, Codec.FillAll, Codec.Fits;
    Codec.EditBack(r);
    AcceptedParts(r);
    forall i | 0 <= i < |r.deleted| ensures r.deleted[i].level < NUM_LEVELS {
      assert (r.deleted[i].level, r.deleted[i].number) in e.deleted;
    }
    forall i | 0 <= i < |e.added| ensures Codec.Accepted(r.newFiles[i]) <==> e.added[i].1.entries != [] {
      assert e.added[i] in e.added;
    }
  }

  predicate Readable(r: Codec.Edit) {
    Codec.ReadFields(Codec.FieldsBytes(Codec.FieldsOf(r))).Some?
  }

  /** The records of a manifest, one for each edit. */
  ghost predicate EncodesAll(rs: seq<Codec.Edit>, es: seq<Edit>, bytes: IKey -> Bytes) {
    |rs| == |es| && forall i :: 0 <= i < |es| ==> Encodes(rs[i], es[i], bytes)
  }

  /** Opening reads the records one after the other and gives up at the first it cannot read. */
  predicate Opens(rs: seq<Codec.Edit>) {
    forall i :: 0 <= i < |rs| ==> Readable(rs[i])
  }

  /** Every table that is added has entries, and so keys. */
  ghost predicate Keyed(e: Edit) {
    forall i :: 0 <= i < |e.added| ==> e.added[i].1.entries != []
  }

  ghost predicate AllKeyed(es: seq<Edit>) {
    forall i :: 0 <= i < |es| ==> Keyed(es[i])
  }

  /** A manifest can be opened if and only if every table in it has entries. */
  lemma ManifestOpens(rs: seq<Codec.Edit>, es: seq<Edit>, bytes: IKey -> Bytes)
    requires EncodesAll(rs, es, bytes) && (forall k :: bytes(k) != []) && forall i :: 0 <= i < |es| ==> EditOk(es[i])
    ensures Opens(rs) <==> AllKeyed(es)
  {
    hide Encodes, Readable, Keyed, EditOk;
    forall i | 0 <= i < |es| ensures Readable(rs[i]) <==> Keyed(es[i]) {
      OneRecordOpens(rs[i], es[i], bytes);
    }
  }

  lemma OneRecordOpens(r: Codec.Edit, e: Edit, bytes: IKey -> Bytes)
    requires Encodes(r, e, bytes) && EditOk(e) && forall k :: bytes(k) != []
    ensures Readable(r) <==> Keyed(e)
  {
    hide Encodes, EditOk, Codec.ReadFields, Codec.FieldsBytes, Codec.FieldsOf, Codec.FillAll;
    RecordReadable(r, e, bytes);
  }

  ghost predicate AllAccepted(fs: seq<Codec.Field>) {
    forall i :: 0 <= i < |fs| ==> Codec.Accepted(fs[i])
  }

  /** A record is accepted part by part; the scalar fields always are. */
  lemma AcceptedParts(r: Codec.Edit)
    ensures AllAccepted(Codec.FieldsOf(r)) <==>
              && AllAccepted(r.pointers) && AllAccepted(r.newFiles)
              && (forall i :: 0 <= i < |r.deleted| ==> r.deleted[i].level < NUM_LEVELS)
  {
    hide AllAccepted, Codec.Accepted, Codec.Scalars, Codec.Deletions;
    var a, b, c, d := Codec.Scalars(r), r.pointers, Codec.Deletions(r.deleted), r.newFiles;
    AllOf(a + b + c, d);
    AllOf(a + b, c);
    AllOf(a, b);
    ScalarsAccepted(r);
    DeletionsAccepted(r.deleted);
  }

  lemma ScalarsAccepted(r: Codec.Edit)
    ensures AllAccepted(Codec.Scalars(r))
  {
    var a, b, c := Codec.ComparatorField(r), Codec.LogField(r), Codec.PrevLogField(r);
    var d, e := Codec.NextFileField(r), Codec.SequenceField(r);
    AllOf(a + b + c + d, e);
    AllOf(a + b + c, d);
    AllOf(a + b, c);
    AllOf(a, b);
  }

  lemma DeletionsAccepted(deleted: seq<Codec.Pair>)
    ensures AllAccepted(Codec.Deletions(deleted)) <==>
              forall i :: 0 <= i < |deleted| ==> deleted[i].level < NUM_LEVELS
  {
    forall i | 0 <= i < |deleted| ensures Codec.Accepted(Codec.Deletions(deleted)[i]) <==> deleted[i].level < NUM_LEVELS {
    }
  }

  lemma AllOf(a: seq<Codec.Field>, b: seq<Codec.Field>)
    ensures AllAccepted(a + b) <==> AllAccepted(a) && AllAccepted(b)
  {
    hide Codec.Accepted;
    forall i | 0 <= i < |a| ensures a[i] == (a + b)[i] {
    }
    forall i | 0 <= i < |b| ensures b[i] == (a + b)[|a| + i] {
    }
  }
}
