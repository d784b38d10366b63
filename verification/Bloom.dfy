/** The Bloom filter: what was put in is always found, and no bit is set but for a key that was. */
module Bloom {
  import opened Coding
  import opened ByteBits

  // ---------------------------------------------------------------------------------------------
  // Bits of a byte

  predicate HasBit(b: nat, i: nat) {
    if i == 0 then b % 2 == 1 else HasBit(b / 2, i - 1)
  }

  /** Bit `i` set in a number of `n` bits. */
  function WithBit(b: nat, i: nat, n: nat): (r: nat)
    requires i < n && b < Power(2, n)
    ensures r < Power(2, n)
    decreases n
  {
    assert Power(2, n) == 2 * Power(2, n - 1);
    if i == 0 then b - b % 2 + 1 else 2 * WithBit(b / 2, i - 1, n - 1) + b % 2
  }

  lemma {:induction false} BitIsSet(b: nat, i: nat, n: nat)
    requires i < n && b < Power(2, n)
    ensures HasBit(WithBit(b, i, n), i)
  {
    assert Power(2, n) == 2 * Power(2, n - 1);
    if i > 0 {
      BitIsSet(b / 2, i - 1, n - 1);
    }
  }

  lemma {:induction false} OtherBits(b: nat, i: nat, n: nat, j: nat)
    requires i < n && b < Power(2, n) && j != i
    ensures HasBit(WithBit(b, i, n), j) <==> HasBit(b, j)
  {
    assert Power(2, n) == 2 * Power(2, n - 1);
    if i > 0 && j > 0 {
      OtherBits(b / 2, i - 1, n - 1, j - 1);
    }
  }

  // ---------------------------------------------------------------------------------------------
  // The hash

  const M: bv32 := 0xc6a4a793
  const SEED: bv32 := 0xbc9f1d34

  function Hash(data: Bytes): Word {
    HashBlocks(Start(|data|), data) as int
  }

  function Start(length: nat): bv32 {
    SEED ^ (((length % WORD) as bv32) * M)
  }

  /** Four bytes at a time. */
  function HashBlocks(h: bv32, data: Bytes): bv32
    decreases |data|
  {
    if |data| < 4 then HashTail(h, data)
    else HashBlocks(Mix(h, Bits(data[0]) | (Bits(data[1]) << 8) | (Bits(data[2]) << 16) | (Bits(data[3]) << 24)), data[4..])
  }

  function Mix(h: bv32, w: bv32): bv32 {
    var g := (h + w) * M;
    g ^ (g >> 16)
  }

  function HashTail(h: bv32, data: Bytes): bv32
    requires |data| < 4
  {
    if data == [] then h
    else MixTail(h, Bits(data[0]), if |data| >= 2 then Bits(data[1]) else 0, if |data| == 3 then Bits(data[2]) else 0)
  }

  function MixTail(h: bv32, a: bv32, b: bv32, c: bv32): bv32 {
    var g := (h + (c << 16) + (b << 8) + a) * M;
    g ^ (g >> 24)
  }

  /** The hash at known points: no bytes, one, three, and a block of four. */
  lemma HashValues()
    ensures Hash([]) == 0xbc9f_1d34 && Hash([0x62]) == 0xef13_45c4
    ensures Hash([0xe2, 0x99, 0xa5]) == 0x323c_078f && Hash([0xe1, 0x80, 0xb9, 0x32]) == 0xed21_633a
  {
    hide Start, HashBlocks, HashTail;
    NoBytes();
    OneByte();
    ThreeBytes();
    FourBytes();
  }

  lemma NoBytes()
    ensures Hash([]) == 0xbc9f_1d34
  {
    BackAndForth(0);
    var r: bv32 := 0xbc9f1d34;
    assert r as int == 0xbc9f_1d34;
  }

  lemma OneByte()
    ensures Hash([0x62]) == 0xef13_45c4
  {
    BackAndForth(1);
    BitsAre(0x62, 6, 2);
    var r: bv32 := 0xef1345c4;
    assert r as int == 0xef13_45c4;
    assert MixTail(SEED ^ M, 0x62, 0, 0) == r;
  }

  lemma ThreeBytes()
    ensures Hash([0xe2, 0x99, 0xa5]) == 0x323c_078f
  {
    BackAndForth(3);
    BitsAre(0xe2, 14, 2);
    BitsAre(0x99, 9, 9);
    BitsAre(0xa5, 10, 5);
    var r: bv32 := 0x323c078f;
    assert r as int == 0x323c_078f;
    assert MixTail(SEED ^ (3 * M), 0xe2, 0x99, 0xa5) == r;
  }

  lemma FourBytes()
    ensures Hash([0xe1, 0x80, 0xb9, 0x32]) == 0xed21_633a
  {
    BackAndForth(4);
    BitsAre(0xe1, 14, 1);
    BitsAre(0x80, 8, 0);
    BitsAre(0xb9, 11, 9);
    BitsAre(0x32, 3, 2);
    var r: bv32 := 0xed21633a;
    assert r as int == 0xed21_633a;
    assert Mix(SEED ^ (4 * M), 0x32b980e1) == r;
  }

  // ---------------------------------------------------------------------------------------------
  // The filter

  function Rotated(h: Word): Word {
    h / 0x20000 + h % 0x20000 * 0x8000
  }

  /** The `j`-th bit that a key with hash `h` touches in a filter of `bits` bits. */
  function Probe(h: Word, j: nat, bits: nat): (p: nat)
    requires bits > 0
    ensures p < bits
  {
    HashAt(h, j) % bits
  }

  /** Double hashing: `j` steps of the rotated hash, in 32 bits. */
  function HashAt(h: Word, j: nat): Word {
    if j == 0 then h else (HashAt(h, j - 1) + Rotated(h)) % WORD
  }

  /** Rotating by 17 exchanges the two ends of a hash. */
  lemma RotatedIs(h: Word)
    ensures Rotated(h) % 0x8000 == h / 0x20000 && Rotated(h) / 0x8000 == h % 0x20000
  {
    var high, low := h / 0x20000, h % 0x20000;
    assert Rotated(h) == high + low * 0x8000 && high < 0x8000;
  }

  /** Each probe is so many rotated hashes past the first. */
  lemma {:induction false} ProbesAre(h: Word, j: nat)
    ensures HashAt(h, j) == (h + j * Rotated(h)) % WORD
  {
    hide Rotated;
    if j > 0 {
      ProbesAre(h, j - 1);
      var d: nat := Rotated(h);
      OneMore(j, d);
      Wraps(h + (j - 1) * d, d);
    }
  }

  lemma OneMore(j: nat, d: nat)
    requires j > 0
    ensures j * d == (j - 1) * d + d
  {
  }

  lemma Wraps(a: nat, d: nat)
    ensures (a % WORD + d) % WORD == (a + d) % WORD
  {
  }

  predicate BitSet(bytes: Bytes, p: nat)
    requires p < 8 * |bytes|
  {
    HasBit(bytes[p / 8], p % 8)
  }

  function SetBit(bytes: Bytes, p: nat): (r: Bytes)
    requires p < 8 * |bytes|
    ensures |r| == |bytes| && BitSet(r, p)
  {
    assert Power(2, 8) == 256 by { assert Power(2, 4) == 16; }
    BitIsSet(bytes[p / 8], p % 8, 8);
    bytes[p / 8 := WithBit(bytes[p / 8], p % 8, 8)]
  }

  /** Setting a bit changes no other. */
  lemma SetBitIs(bytes: Bytes, p: nat, q: nat)
    requires p < 8 * |bytes| && q < 8 * |bytes|
    ensures BitSet(SetBit(bytes, p), q) <==> q == p || BitSet(bytes, q)
  {
    hide HasBit, WithBit;
    if p != q && p / 8 == q / 8 {
      assert Power(2, 8) == 256 by { assert Power(2, 4) == 16; }
      OtherBits(bytes[p / 8], p % 8, 8, q % 8);
    }
  }

  lemma NoBits(n: nat, p: nat)
    requires p < 8 * n
    ensures !BitSet(seq(n, i => 0), p)
  {
    NoBit(p % 8);
  }

  lemma {:induction false} NoBit(i: nat)
    ensures !HasBit(0, i)
  {
    if i > 0 {
      NoBit(i - 1);
    }
  }

  ghost predicate HasProbes(bytes: Bytes, h: Word, n: nat)
    requires |bytes| > 0
  {
    forall j :: 0 <= j < n ==> BitSet(bytes, Probe(h, j, 8 * |bytes|))
  }

  /** One of the first `n` probes of a hash. */
  ghost predicate Probed(h: Word, n: nat, bits: nat, p: nat)
    requires bits > 0
  {
    exists j :: 0 <= j < n && p == Probe(h, j, bits)
  }

  /** Some key touches this bit with one of its `k` probes. */
  ghost predicate Touched(keys: seq<Bytes>, k: nat, bits: nat, p: nat)
    requires bits > 0
  {
    exists i :: 0 <= i < |keys| && Probed(Hash(keys[i]), k, bits, p)
  }

  /** Every bit that the key would set is set. */
  ghost predicate MayMatch(key: Bytes, filter: Bytes) {
    && |filter| >= 2
    && (filter[|filter| - 1] <= 30 ==> HasProbes(filter[..|filter| - 1], Hash(key), filter[|filter| - 1]))
  }

  /** How many bytes of bits a filter of `n` keys has. */
  function FilterBytes(n: nat, bitsPerKey: nat): (bytes: nat)
    ensures 8 * bytes >= 64 && 8 * bytes >= n * bitsPerKey && (8 * bytes < 72 || 8 * bytes < n * bitsPerKey + 8)
  {
    if n * bitsPerKey < 64 then 8 else (n * bitsPerKey + 7) / 8
  }

  /** The filter of some keys: bits enough for them, set exactly where one of them touches, and the number of
      probes. */
  ghost predicate IsFilter(keys: seq<Bytes>, bitsPerKey: nat, k: nat, filter: Bytes) {
    var bytes := FilterBytes(|keys|, bitsPerKey);
    && |filter| == bytes + 1 && filter[bytes] == k
    && forall p :: 0 <= p < 8 * bytes ==> (BitSet(filter[..bytes], p) <==> Touched(keys, k, 8 * bytes, p))
  }

  method CreateFilter(keys: seq<Bytes>, bitsPerKey: nat, k: nat) returns (filter: Bytes)
    requires 1 <= k <= 30
    ensures IsFilter(keys, bitsPerKey, k, filter)
  {
    hide Hash, BitSet, Probe, Probed;
    var bits := |keys| * bitsPerKey;
    if bits < 64 {
      bits := 64;
    }
    var bytes := (bits + 7) / 8;
    var bloom: Bytes := seq(bytes, i => 0);
    forall p | 0 <= p < 8 * bytes ensures !BitSet(bloom, p) {
      NoBits(bytes, p);
    }
    for i := 0 to |keys|
      invariant |bloom| == bytes
      invariant forall p :: 0 <= p < 8 * bytes ==> (BitSet(bloom, p) <==> Touched(keys[..i], k, 8 * bytes, p))
    {
      ghost var was := bloom;
      bloom := AddHash(bloom, Hash(keys[i]), k);
      forall p | 0 <= p < 8 * bytes ensures BitSet(bloom, p) <==> Touched(keys[..i + 1], k, 8 * bytes, p) {
        OneMoreKey(keys, i, k, 8 * bytes, p);
        assert BitSet(bloom, p) <==> BitSet(was, p) || Probed(Hash(keys[i]), k, 8 * bytes, p);
      }
    }
    assert keys[..|keys|] == keys;
    filter := bloom + [k];
    assert filter[..bytes] == bloom;
  }

  lemma OneMoreKey(keys: seq<Bytes>, i: nat, k: nat, bits: nat, p: nat)
    requires i < |keys| && bits > 0
    ensures Touched(keys[..i + 1], k, bits, p) <==> Touched(keys[..i], k, bits, p) || Probed(Hash(keys[i]), k, bits, p)
  {
    hide Hash, Probed;
    var before, now := keys[..i], keys[..i + 1];
    assert now[i] == keys[i];
    if Touched(before, k, bits, p) {
      var m :| 0 <= m < |before| && Probed(Hash(before[m]), k, bits, p);
      assert now[m] == before[m];
    }
    if Touched(now, k, bits, p) {
      var m :| 0 <= m < |now| && Probed(Hash(now[m]), k, bits, p);
      assert m < i ==> before[m] == now[m];
    }
  }

  /** The inner loop: set the bits of one key. */
  method AddHash(filter: Bytes, hash: Word, k: nat) returns (bloom: Bytes)
    requires |filter| > 0
    ensures |bloom| == |filter|
    ensures forall p :: 0 <= p < 8 * |filter| ==> (BitSet(bloom, p) <==> BitSet(filter, p) || Probed(hash, k, 8 * |filter|, p))
  {
    hide BitSet, Rotated;
    bloom := filter;
    var h := hash;
    var delta := Rotated(hash);
    for j := 0 to k
      invariant |bloom| == |filter| && h == HashAt(hash, j)
      invariant forall p :: 0 <= p < 8 * |filter| ==> (BitSet(bloom, p) <==> BitSet(filter, p) || Probed(hash, j, 8 * |filter|, p))
    {
      var bitpos := h % (8 * |bloom|);
      ghost var was := bloom;
      bloom := SetBit(bloom, bitpos);
      forall p | 0 <= p < 8 * |was| ensures BitSet(bloom, p) <==> BitSet(filter, p) || Probed(hash, j + 1, 8 * |was|, p) {
        SetBitIs(was, bitpos, p);
        OneMoreProbe(hash, j, 8 * |was|, p);
      }
      h := (h + delta) % WORD;
    }
  }

  lemma OneMoreProbe(h: Word, j: nat, bits: nat, p: nat)
    requires bits > 0
    ensures Probed(h, j + 1, bits, p) <==> Probed(h, j, bits, p) || p == Probe(h, j, bits)
  {
    hide Probe;
  }

  /** What the filter of some keys says of any key: it may match if and only if each of its probes is one of
      theirs. */
  lemma FilterExact(keys: seq<Bytes>, bitsPerKey: nat, k: nat, filter: Bytes, key: Bytes)
    requires 1 <= k <= 30 && IsFilter(keys, bitsPerKey, k, filter)
    ensures var bits := 8 * FilterBytes(|keys|, bitsPerKey);
            MayMatch(key, filter) <==> forall j :: 0 <= j < k ==> Touched(keys, k, bits, Probe(Hash(key), j, bits))
  {
    hide Hash, BitSet, Touched, FilterBytes;
    var bytes := FilterBytes(|keys|, bitsPerKey);
    assert filter[..|filter| - 1] == filter[..bytes];
    forall j | 0 <= j < k
      ensures BitSet(filter[..bytes], Probe(Hash(key), j, 8 * bytes)) <==> Touched(keys, k, 8 * bytes, Probe(Hash(key), j, 8 * bytes))
    {
    }
  }

  /** No false negatives: the filter of some keys matches each of them. */
  lemma NoFalseNegatives(keys: seq<Bytes>, bitsPerKey: nat, k: nat, filter: Bytes, i: nat)
    requires 1 <= k <= 30 && IsFilter(keys, bitsPerKey, k, filter) && i < |keys|
    ensures MayMatch(keys[i], filter)
  {
    hide Hash, MayMatch, Probe, IsFilter;
    FilterExact(keys, bitsPerKey, k, filter, keys[i]);
    var bits := 8 * FilterBytes(|keys|, bitsPerKey);
    forall j | 0 <= j < k ensures Touched(keys, k, bits, Probe(Hash(keys[i]), j, bits)) {
      assert Probed(Hash(keys[i]), k, bits, Probe(Hash(keys[i]), j, bits));
    }
  }

  method KeyMayMatch(key: Bytes, filter: Bytes) returns (may: bool)
    ensures may == MayMatch(key, filter)
  {
    hide Hash, BitSet, Rotated;
    var len := |filter|;
    if len < 2 {
      return false;
    }
    var bits := (len - 1) * 8;
    var k := filter[len - 1];
    if k > 30 {
      return true;
    }
    var bloom := filter[..len - 1];
    var h := Hash(key);
    var delta := Rotated(h);
    for j := 0 to k
      invariant h == HashAt(Hash(key), j)
      invariant HasProbes(bloom, Hash(key), j)
    {
      if !BitSet(bloom, h % bits) {
        assert !BitSet(bloom, Probe(Hash(key), j, bits));
        return false;
      }
      h := (h + delta) % WORD;
    }
    may := true;
  }
}
