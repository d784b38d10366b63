/** Little-endian and variable-length integers, and length-prefixed strings. */
module Coding {
  import opened Format

  type Byte = x: int | 0 <= x < 256
  type Bytes = seq<Byte>

  const WORD := 0x1_0000_0000
  const DOUBLE_WORD := 0x1_0000_0000_0000_0000

  type Word = x: int | 0 <= x < WORD
  type DoubleWord = x: int | 0 <= x < DOUBLE_WORD

  // ---------------------------------------------------------------------------------------------
  // Fixed-length integers

  function Fixed(v: nat, n: nat): (b: Bytes)
    ensures |b| == n
  {
    if n == 0 then [] else [v % 256] + Fixed(v / 256, n - 1)
  }

  function DecodeFixed(b: Bytes): (v: nat)
    ensures v < Power(256, |b|)
  {
    if b == [] then 0 else b[0] + 256 * DecodeFixed(b[1..])
  }

  function Power(base: nat, n: nat): (p: nat)
    ensures base > 0 ==> p > 0
  {
    if n == 0 then 1 else base * Power(base, n - 1)
  }

  lemma {:induction false} FixedRoundTrip(v: nat, n: nat)
    requires v < Power(256, n)
    ensures DecodeFixed(Fixed(v, n)) == v
  {
    if n > 0 {
      assert Power(256, n) == 256 * Power(256, n - 1);
      FixedRoundTrip(v / 256, n - 1);
      assert Fixed(v, n)[1..] == Fixed(v / 256, n - 1);
    }
  }

  /** Byte `i` of a fixed-length integer is its digit number `i` in base 256. */
  lemma {:induction false} FixedDigits(v: nat, n: nat, i: nat)
    requires i < n
    ensures Fixed(v, n)[i] == v / Power(256, i) % 256
  {
    if i > 0 {
      FixedDigits(v / 256, n - 1, i - 1);
      DivTwice(v, Power(256, i - 1));
    }
  }

  lemma DivTwice(v: nat, p: nat)
    requires p > 0
    ensures v / 256 / p == v / (256 * p)
  {
    var q := v / 256 / p;
    var r, s := v / 256 - q * p, v % 256;
    assert v == 256 * (q * p + r) + s == q * (256 * p) + (256 * r + s);
    assert 0 <= 256 * r + s < 256 * p;
    OneQuotient(v, 256 * p, q, 256 * r + s);
  }

  lemma OneQuotient(v: nat, d: nat, q: nat, r: nat)
    requires v == q * d + r && r < d
    ensures v / d == q
  {
    var q', r' := v / d, v % d;
    assert v == q' * d + r';
    assert q < q' ==> (q + 1) * d <= q' * d;
    assert q' < q ==> (q' + 1) * d <= q * d;
  }

  function DecodeFixed32(b: Bytes): Word
    requires |b| == 4
  {
    assert Power(256, 4) == WORD by { assert Power(256, 2) == 65536; }
    DecodeFixed(b)
  }

  lemma Fixed32RoundTrip(v: Word)
    ensures DecodeFixed32(Fixed(v, 4)) == v
  {
    assert Power(256, 4) == WORD by { assert Power(256, 2) == 65536; }
    FixedRoundTrip(v, 4);
  }

  lemma Fixed64RoundTrip(v: DoubleWord)
    ensures DecodeFixed(Fixed(v, 8)) == v
  {
    assert Power(256, 8) == DOUBLE_WORD by {
      assert Power(256, 2) == 65536;
      assert Power(256, 4) == WORD;
      assert Power(256, 6) == 65536 * WORD;
    }
    FixedRoundTrip(v, 8);
  }

  // ---------------------------------------------------------------------------------------------
  // Variable-length integers

  /** Seven bits a byte, least significant first; the top bit says that more follow. */
  function Varint(v: nat): (b: Bytes)
    ensures |b| > 0
  {
    if v < 128 then [v] else [v % 128 + 128] + Varint(v / 128)
  }

  /** The unrolled encoder. */
  method EncodeVarint32(v: Word) returns (dst: Bytes)
    ensures dst == Varint(v) && |dst| <= 5
  {
    if v < 128 {
      dst := [v];
    } else if v < 16384 {
      dst := [v % 128 + 128, v / 128];
    } else if v < 2097152 {
      dst := [v % 128 + 128, v / 128 % 128 + 128, v / 16384];
    } else if v < 268435456 {
      dst := [v % 128 + 128, v / 128 % 128 + 128, v / 16384 % 128 + 128, v / 2097152];
    } else {
      dst := [v % 128 + 128, v / 128 % 128 + 128, v / 16384 % 128 + 128, v / 2097152 % 128 + 128, v / 268435456];
    }
    Unrolled(v);
  }

  lemma Unrolled(v: Word)
    ensures v >= 128 ==> Varint(v) == [v % 128 + 128] + Varint(v / 128)
    ensures v >= 16384 ==> Varint(v / 128) == [v / 128 % 128 + 128] + Varint(v / 16384)
    ensures v >= 2097152 ==> Varint(v / 16384) == [v / 16384 % 128 + 128] + Varint(v / 2097152)
    ensures v >= 268435456 ==> Varint(v / 2097152) == [v / 2097152 % 128 + 128] + Varint(v / 268435456)
    ensures v / 268435456 < 128
    ensures v < 16384 ==> Varint(v / 128) == [v / 128]
    ensures v < 2097152 ==> Varint(v / 16384) == [v / 16384]
    ensures v < 268435456 ==> Varint(v / 2097152) == [v / 2097152]
    ensures Varint(v / 268435456) == [v / 268435456]
  {
    assert v / 128 / 128 == v / 16384;
    assert v / 16384 / 128 == v / 2097152;
    assert v / 2097152 / 128 == v / 268435456;
  }

  method EncodeVarint64(value: DoubleWord) returns (dst: Bytes)
    ensures dst == Varint(value)
  {
    var v: nat := value;
    dst := [];
    while v >= 128
      invariant dst + Varint(v) == Varint(value)
    {
      assert dst + Varint(v) == dst + [v % 128 + 128] + Varint(v / 128);
      dst := dst + [v % 128 + 128];
      v := v / 128;
    }
    dst := dst + [v];
  }

  /** The value and the length of the varint at the start of `s`, if it ends within `most` bytes. */
  function ReadVarint(s: Bytes, most: nat): (r: Option<(nat, nat)>)
    ensures r.Some? ==> 0 < r.value.1 <= |s|
    decreases most
  {
    if most == 0 || s == [] then None
    else if s[0] < 128 then Some((s[0], 1))
    else
      var rest := ReadVarint(s[1..], most - 1);
      if rest.None? then None else Some((s[0] - 128 + 128 * rest.value.0, rest.value.1 + 1))
  }

  lemma {:induction false} VarintRoundTrip(v: nat, rest: Bytes, most: nat)
    requires |Varint(v)| <= most
    ensures ReadVarint(Varint(v) + rest, most) == Some((v, |Varint(v)|))
  {
    if v >= 128 {
      VarintRoundTrip(v / 128, rest, most - 1);
      assert (Varint(v) + rest)[1..] == Varint(v / 128) + rest;
    }
  }

  /** The number that seven bits of each byte make, the first byte the least significant. */
  ghost function SevenBits(b: Bytes): nat {
    if b == [] then 0 else b[0] % 128 + 128 * SevenBits(b[1..])
  }

  /** On any bytes: a varint is read if and only if one ends within the limit, and it is all bytes up to the first
      without the top bit. */
  lemma {:induction false} ReadVarintExact(s: Bytes, most: nat)
    ensures var r := ReadVarint(s, most);
            && (r.Some? ==> r.value.1 <= most && s[r.value.1 - 1] < 128 && r.value.0 == SevenBits(s[..r.value.1])
                            && forall i :: 0 <= i < r.value.1 - 1 ==> s[i] >= 128)
            && (r.None? ==> forall i :: 0 <= i < |s| && i < most ==> s[i] >= 128)
    decreases most
  {
    if most > 0 && s != [] && s[0] >= 128 {
      ReadVarintExact(s[1..], most - 1);
      var rest := ReadVarint(s[1..], most - 1);
      if rest.Some? {
        var n := rest.value.1 + 1;
        assert s[..n][1..] == s[1..][..n - 1];
        assert forall i :: 0 < i < n ==> s[i] == s[1..][i - 1];
      } else {
        assert forall i :: 0 < i < |s| ==> s[i] == s[1..][i - 1];
      }
    } else if most > 0 && s != [] {
      assert s[..1][1..] == [];
    }
  }

  /** No encoding is shorter: a varint has as many bytes as its value has digits in base 128. */
  lemma {:induction false} VarintShortest(v: nat)
    ensures v < Power(128, |Varint(v)|) && (|Varint(v)| > 1 ==> v >= Power(128, |Varint(v)| - 1))
  {
    if v >= 128 {
      VarintShortest(v / 128);
      var n := |Varint(v / 128)|;
      assert Power(128, n + 1) == 128 * Power(128, n);
      if n == 1 {
        assert Power(128, 1) == 128;
      } else {
        assert Power(128, n) == 128 * Power(128, n - 1);
      }
    } else {
      assert Power(128, 1) == 128;
    }
  }

  lemma {:induction false} VarintLength(v: nat, n: nat)
    requires v < Power(128, n) && n > 0
    ensures |Varint(v)| <= n
  {
    if v >= 128 {
      assert n > 1 by { assert Power(128, 1) == 128; }
      VarintLength(v / 128, n - 1);
    }
  }

  /** What fits in a machine word of either width. */
  function Cut(v: nat, wide: bool): nat {
    if wide then v % DOUBLE_WORD else v % WORD
  }

  lemma CutAdds(a: nat, b: nat, wide: bool)
    ensures Cut(Cut(a, wide) + b, wide) == Cut(a + b, wide)
  {
  }

  function MostBytes(wide: bool): nat {
    if wide then 10 else 5
  }

  /** The decoding loop of both widths; shifted bits beyond the width are lost. */
  method DecodeVarint(s: Bytes, wide: bool) returns (r: Option<(nat, nat)>)
    ensures var spec := ReadVarint(s, MostBytes(wide));
            r == if spec.None? then None else Some((Cut(spec.value.0, wide), spec.value.1))
  {
    hide Cut, Continue;
    var most := MostBytes(wide);
    var result: nat, scale: nat, i: nat := 0, 1, 0;
    ghost var full: nat := 0;
    assert s[0..] == s;
    ContinueEnds(ReadVarint(s, most));
    assert Cut(0, wide) == 0 by { CutZero(wide); }
    while i < most && i < |s|
      invariant i <= most && i <= |s| && result == Cut(full, wide)
      invariant ReadVarint(s, most) == Continue(full, scale, i, ReadVarint(s[i..], most - i))
    {
      var part: nat := s[i] % 128 * scale;
      ContinueStep(s, most, full, scale, i, part);
      CutAdds(full, part, wide);
      result := Cut(result + part, wide);
      if s[i] < 128 {
        return Some((result, i + 1));
      }
      full := full + part;
      scale := scale * 128;
      i := i + 1;
    }
    ContinueNone(full, scale, i);
    r := None;
  }

  /** The whole reading, from what the first `i` bytes gave and the reading of the rest. */
  ghost function Continue(full: nat, scale: nat, i: nat, rest: Option<(nat, nat)>): Option<(nat, nat)> {
    if rest.None? then None else Some((full + scale * rest.value.0, i + rest.value.1))
  }

  lemma CutZero(wide: bool)
    ensures Cut(0, wide) == 0
  {
  }

  lemma ContinueEnds(r: Option<(nat, nat)>)
    ensures Continue(0, 1, 0, r) == r
  {
  }

  lemma ContinueNone(full: nat, scale: nat, i: nat)
    ensures Continue(full, scale, i, None) == None
  {
  }

  lemma ContinueStep(s: Bytes, most: nat, full: nat, scale: nat, i: nat, part: nat)
    requires i < most && i < |s| && part == s[i] % 128 * scale
    ensures Continue(full, scale, i, ReadVarint(s[i..], most - i)) ==
            if s[i] < 128 then Some((full + part, i + 1))
            else Continue(full + part, scale * 128, i + 1, ReadVarint(s[i + 1..], most - i - 1))
  {
    assert s[i..][1..] == s[i + 1..];
    var rest := ReadVarint(s[i + 1..], most - i - 1);
    if s[i] >= 128 && rest.Some? {
      Regroup(scale, s[i] - 128, rest.value.0);
    }
  }

  lemma Regroup(scale: nat, low: nat, high: nat)
    ensures scale * (low + 128 * high) == low * scale + (scale * 128) * high
  {
  }

  lemma Varint32RoundTrip(v: Word, rest: Bytes)
    ensures ReadVarint(Varint(v) + rest, 5) == Some((v, |Varint(v)|)) && Cut(v, false) == v
  {
    hide Varint, ReadVarint;
    assert Power(128, 5) > WORD by {
      assert Power(128, 2) == 16384;
      assert Power(128, 4) == 268435456;
    }
    VarintLength(v, 5);
    VarintRoundTrip(v, rest, 5);
  }

  lemma Varint64RoundTrip(v: DoubleWord, rest: Bytes)
    ensures ReadVarint(Varint(v) + rest, 10) == Some((v, |Varint(v)|)) && Cut(v, true) == v
  {
    assert Power(128, 10) > DOUBLE_WORD by {
      assert Power(128, 2) == 16384;
      assert Power(128, 4) == 268435456;
      assert Power(128, 6) == 268435456 * 16384;
      assert Power(128, 8) == 268435456 * 268435456;
    }
    VarintLength(v, 10);
    VarintRoundTrip(v, rest, 10);
  }

  // ---------------------------------------------------------------------------------------------
  // Length-prefixed strings

  function Prefixed(b: Bytes): Bytes {
    Varint(|b|) + b
  }

  /** The string at the start of `s` and the bytes it takes there. */
  function ReadPrefixed(s: Bytes): (r: Option<(Bytes, nat)>)
    ensures r.Some? ==> 0 < r.value.1 <= |s|
  {
    var len := ReadVarint(s, 5);
    if len.None? then None
    else
      var n, from := Cut(len.value.0, false), len.value.1;
      if |s| - from < n then None else Some((s[from..from + n], from + n))
  }

  lemma PrefixedRoundTrip(b: Bytes, rest: Bytes)
    requires |b| < WORD
    ensures ReadPrefixed(Prefixed(b) + rest) == Some((b, |Prefixed(b)|))
  {
    Varint32RoundTrip(|b|, b + rest);
    var s, from := Prefixed(b) + rest, |Varint(|b|)|;
    assert s == Varint(|b|) + (b + rest);
    assert s[from..from + |b|] == b;
  }

  /** On any bytes: a string is read if and only if its length can be read and so many bytes follow. */
  lemma ReadPrefixedExact(s: Bytes)
    ensures var r, len := ReadPrefixed(s), ReadVarint(s, 5);
            && (r.None? <==> len.None? || |s| - len.value.1 < len.value.0 % WORD)
            && (r.Some? ==> |r.value.0| == len.value.0 % WORD && r.value.1 == len.value.1 + |r.value.0|
                            && s[len.value.1..r.value.1] == r.value.0)
  {
    hide ReadVarint;
  }
}
