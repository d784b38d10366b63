/** The write-ahead log: records cut into checksummed fragments that never cross a block. */
module LogFormat {
  import opened Coding
  import opened Crc32c

  const BLOCK_SIZE := 32768
  const HEADER_SIZE := 7

  const ZERO_TYPE: Byte := 0
  const FULL_TYPE: Byte := 1
  const FIRST_TYPE: Byte := 2
  const MIDDLE_TYPE: Byte := 3
  const LAST_TYPE: Byte := 4

  function FragmentType(begin: bool, end: bool): Byte {
    if begin && end then FULL_TYPE else if begin then FIRST_TYPE else if end then LAST_TYPE else MIDDLE_TYPE
  }

  /** Zeroes that fill the block after `offset` when it has no room for a header. */
  function Gap(offset: nat): nat
    requires offset <= BLOCK_SIZE
  {
    if BLOCK_SIZE - offset < HEADER_SIZE then BLOCK_SIZE - offset else 0
  }

  /** Where in its block the next fragment starts. */
  function Start(offset: nat): (s: nat)
    requires offset <= BLOCK_SIZE
    ensures s + HEADER_SIZE <= BLOCK_SIZE
  {
    if BLOCK_SIZE - offset < HEADER_SIZE then 0 else offset
  }

  function Zeroes(n: nat): (z: Bytes)
    ensures |z| == n
  {
    seq(n, i => 0)
  }

  /** A header (masked checksum, length, type) and the payload. */
  function Fragment(kind: Byte, payload: Bytes): (b: Bytes)
    requires |payload| < 65536
    ensures |b| == HEADER_SIZE + |payload|
  {
    Fixed(Mask(Checksum([kind] + payload)), 4) + [|payload| % 256, |payload| / 256, kind] + payload
  }

  /** How much payload the fragment after `offset` takes. */
  function Taken(offset: nat, data: Bytes): (n: nat)
    requires offset <= BLOCK_SIZE
    ensures n <= |data| && Start(offset) + HEADER_SIZE + n <= BLOCK_SIZE
    ensures n < |data| ==> Start(offset) + HEADER_SIZE + n == BLOCK_SIZE
  {
    var avail := BLOCK_SIZE - Start(offset) - HEADER_SIZE;
    if |data| < avail then |data| else avail
  }

  /** The bytes a record (or what is left of one) adds to a log that ends at `offset` of its block.
      A block may have room for a header only; the fragment then carries nothing. */
  function Encoded(offset: nat, data: Bytes, begin: bool): (b: Bytes)
    requires offset <= BLOCK_SIZE
    ensures |b| >= Gap(offset) + HEADER_SIZE
    decreases |data|, if Start(offset) + HEADER_SIZE == BLOCK_SIZE then 1 else 0
  {
    var n := Taken(offset, data);
    Zeroes(Gap(offset)) + Fragment(FragmentType(begin, n == |data|), data[..n])
    + if n == |data| then [] else Encoded(BLOCK_SIZE, data[n..], false)
  }

  /** A full block and an empty one take the same bytes. */
  lemma OffsetWraps(data: Bytes, begin: bool)
    ensures Encoded(BLOCK_SIZE, data, begin) == Encoded(0, data, begin)
  {
    assert Zeroes(Gap(BLOCK_SIZE)) == Zeroes(Gap(0));
    assert Taken(BLOCK_SIZE, data) == Taken(0, data);
  }

  /** A log of these records. */
  function Log(records: seq<Bytes>): Bytes {
    if records == [] then []
    else
      var before := Log(records[..|records| - 1]);
      before + Encoded(|before| % BLOCK_SIZE, records[|records| - 1], true)
  }

  lemma SameOffset(a: nat, b: nat, n: nat)
    requires a % BLOCK_SIZE == b % BLOCK_SIZE
    ensures (a + n) % BLOCK_SIZE == (b + n) % BLOCK_SIZE
  {
  }

  class Writer {
    var file: Bytes
    var blockOffset: nat

    ghost predicate Valid()
      reads this
    {
      blockOffset <= BLOCK_SIZE && blockOffset % BLOCK_SIZE == |file| % BLOCK_SIZE
    }

    /** A writer that appends to a file that may already have contents. */
    constructor (file: Bytes)
      ensures Valid() && this.file == file
    {
      this.file := file;
      blockOffset := |file| % BLOCK_SIZE;
    }

    method AddRecord(slice: Bytes)
      requires Valid()
      modifies this
      ensures Valid() && file == old(file) + Encoded(|old(file)| % BLOCK_SIZE, slice, true)
    {
      hide Fragment, Encoded, Zeroes;
      OffsetWraps(slice, true);
      var ptr, begin, more := 0, true, true;
      ghost var goal := file + Encoded(blockOffset, slice, true);
      assert slice[0..] == slice;
      while more
        invariant Valid() && 0 <= ptr <= |slice|
        invariant goal == file + if more then Encoded(blockOffset, slice[ptr..], begin) else []
        decreases more, |slice| - ptr, if Start(blockOffset) + HEADER_SIZE == BLOCK_SIZE then 1 else 0
      {
        ghost var rest := slice[ptr..];
        ghost var n0 := Taken(blockOffset, rest);
        EncodedStep(file, blockOffset, rest, begin);
        SwitchBlock();
        var avail := BLOCK_SIZE - blockOffset - HEADER_SIZE;
        var left := |slice| - ptr;
        var n := if left < avail then left else avail;
        assert n == n0 && slice[ptr..ptr + n] == rest[..n] && slice[ptr + n..] == rest[n..];
        var end := left == n;
        EmitPhysicalRecord(FragmentType(begin, end), slice[ptr..ptr + n]);
        ptr := ptr + n;
        begin := false;
        more := ptr < |slice|;
      }
    }

    /** Fill a trailer too short for a header. */
    method SwitchBlock()
      requires Valid()
      modifies this
      ensures Valid() && blockOffset == Start(old(blockOffset)) && file == old(file) + Zeroes(Gap(old(blockOffset)))
    {
      var leftover := BLOCK_SIZE - blockOffset;
      if leftover < HEADER_SIZE {
        if leftover > 0 {
          file := file + Zeroes(leftover);
          SameOffset(blockOffset, |old(file)|, leftover);
        }
        blockOffset := 0;
      }
    }

    method EmitPhysicalRecord(kind: Byte, payload: Bytes)
      requires Valid() && blockOffset + HEADER_SIZE + |payload| <= BLOCK_SIZE
      modifies this
      ensures Valid() && file == old(file) + Fragment(kind, payload)
      ensures blockOffset == old(blockOffset) + HEADER_SIZE + |payload|
    {
      hide Step, Fold, Mask, Fixed, Extend;
      var typeCrc := Checksum([kind]);
      var crc := Extend(typeCrc, payload);
      ExtendSplits(0, [kind], payload);
      var header := Fixed(Mask(crc), 4) + [|payload| % 256, |payload| / 256, kind];
      file := file + header;
      file := file + payload;
      assert file == old(file) + Fragment(kind, payload);
      SameOffset(blockOffset, |old(file)|, HEADER_SIZE + |payload|);
      blockOffset := blockOffset + HEADER_SIZE + |payload|;
    }
  }

  lemma EncodedStep(file: Bytes, offset: nat, data: Bytes, begin: bool)
    requires offset <= BLOCK_SIZE
    ensures var n := Taken(offset, data);
            file + Encoded(offset, data, begin)
            == file + Zeroes(Gap(offset)) + Fragment(FragmentType(begin, n == |data|), data[..n])
               + if n == |data| then [] else Encoded(BLOCK_SIZE, data[n..], false)
  {
    hide Fragment;
  }
}
