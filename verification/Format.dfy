/** Internal keys and entries: what every memtable, table file and cursor is made of.

    Only the order of user keys matters to the store.  A run touches finitely many
    keys, and any finite set of keys under any total comparator embeds in the
    integers in an order-preserving way, so a user key is modelled as an `int`. */
module Format {
  type UserKey = int
  type Value = seq<char>

  const NUM_LEVELS := 7
  const MAX_MEM_COMPACT_LEVEL := 2
  const MAX_SEQUENCE := 0xFF_FFFF_FFFF_FFFF

  datatype Option<+T> = None | Some(value: T)

  datatype Kind = Deletion | Put

  datatype IKey = IKey(user: UserKey, seqno: nat, kind: Kind)

  datatype Entry = Entry(key: IKey, value: Value)

  /** The 64-bit trailer of an internal key: `sequence << 8 | type`. */
  function Tag(k: IKey): nat {
    k.seqno * 256 + if k.kind.Put? then 1 else 0
  }

  /** User keys ascend; for one user key, trailers descend, so newer entries come first. */
  predicate Less(a: IKey, b: IKey) {
    a.user < b.user || (a.user == b.user && Tag(a) > Tag(b))
  }

  predicate LessEq(a: IKey, b: IKey) {
    !Less(b, a)
  }

  /** The internal key a read of `k` at sequence `s` seeks to. */
  function LookupKey(k: UserKey, s: nat): IKey {
    IKey(k, s, Put)
  }

  predicate Sorted(es: seq<Entry>) {
    forall i, j :: 0 <= i < j < |es| ==> Less(es[i].key, es[j].key)
  }

  ghost function Contents(es: seq<Entry>): set<Entry> {
    set e | e in es
  }

  /** What a client sees of an entry: a deletion is an absence. */
  function Live(e: Entry): Option<Value> {
    if e.key.kind.Put? then Some(e.value) else None
  }
}
