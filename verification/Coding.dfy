/** Bytes, fixed-width little-endian words, varints and the checksum mask. */
module Coding {
  type Byte = b: int | 0 <= b < 256
  type Bytes = seq<Byte>
  type Word = w: int | 0 <= w < 0x1_0000_0000

  function Fixed32(w: Word): (r: Bytes)
    ensures |r| == 4
  {
    var w1 := w / 256;
    var w2 := w1 / 256;
    [w % 256, w1 % 256, w2 % 256, w2 / 256]
  }

  function DecodeFixed32(bs: Bytes): Word
    requires |bs| >= 4
  {
    bs[0] as int + bs[1] as int * 256 + bs[2] as int * 65536 + bs[3] as int * 16777216
  }

  lemma Fixed32RoundTrip(w: Word, rest: Bytes)
    ensures DecodeFixed32(Fixed32(w) + rest) == w
  {
    var f := Fixed32(w) + rest;
    var w1 := w / 256;
    var w2 := w1 / 256;
    assert f[0] == w % 256 && f[1] == w1 % 256 && f[2] == w2 % 256 && f[3] == w2 / 256;
  }

  function Fixed64(v: nat): (r: Bytes)
    requires v < 0x1_0000_0000_0000_0000
    ensures |r| == 8
  {
    Fixed32(v % 0x1_0000_0000) + Fixed32(v / 0x1_0000_0000)
  }

  function DecodeFixed64(bs: Bytes): nat
    requires |bs| >= 8
  {
    DecodeFixed32(bs) + DecodeFixed32(bs[4..]) * 0x1_0000_0000
  }

  lemma Fixed64RoundTrip(v: nat)
    requires v < 0x1_0000_0000_0000_0000
    ensures DecodeFixed64(Fixed64(v)) == v
  {
    hide Fixed32, DecodeFixed32;
    var low, high := v % 0x1_0000_0000, v / 0x1_0000_0000;
    assert Fixed64(v)[4..] == Fixed32(high) + [];
    Fixed32RoundTrip(low, Fixed32(high));
    Fixed32RoundTrip(high, []);
  }

  const MASK_DELTA: Word := 0xa282ead8

  /** Rotate right by 15 bits and add a constant, modulo 2^32. */
  function Mask(crc: Word): Word {
    (crc / 0x8000 + crc % 0x8000 * 0x2_0000 + MASK_DELTA) % 0x1_0000_0000
  }

  function Unmask(masked: Word): Word {
    var rot := (masked - MASK_DELTA) % 0x1_0000_0000;
    rot / 0x2_0000 + rot % 0x2_0000 * 0x8000
  }

  lemma UnmaskInverts(crc: Word)
    ensures Unmask(Mask(crc)) == crc
  {
    var rot := crc / 0x8000 + crc % 0x8000 * 0x2_0000;
    assert crc / 0x8000 < 0x2_0000;
    assert (Mask(crc) - MASK_DELTA) % 0x1_0000_0000 == rot;
    assert rot / 0x2_0000 == crc % 0x8000 && rot % 0x2_0000 == crc / 0x8000;
  }

  /** 2 to the power n. */
  function Power(n: nat): (r: nat)
    ensures r >= 1
  {
    if n == 0 then 1 else 2 * Power(n - 1)
  }

  // ----- varints -----

  lemma TailPrefix(a: Bytes, b: Bytes, bs: Bytes)
    requires a + b <= bs
    ensures a <= bs && b <= bs[|a|..]
  {
  }

  /** Seven bits a byte, low ones first; the high bit says that more follow. */
  function Varint(v: nat): (r: Bytes)
    ensures |r| >= 1
  {
    if v < 128 then [v] else [v % 128 + 128] + Varint(v / 128)
  }

  lemma {:induction false} VarintLength(v: nat, k: nat)
    requires v < Shift(k + 1)
    ensures |Varint(v)| <= k + 1
  {
    if v >= 128 {
      VarintLength(v / 128, k - 1);
    }
  }

  /** 2 to the power 7k. */
  function Shift(k: nat): (r: nat)
    ensures r >= 1
  {
    if k == 0 then 1 else 128 * Shift(k - 1)
  }

  lemma VarintStep(v: nat)
    ensures Varint(v) == if v < 128 then [v] else [v % 128 + 128] + Varint(v / 128)
  {
  }

  /** The unrolled encoder writes the varint. */
  method EncodeVarint32(v: Word) returns (r: Bytes)
    ensures r == Varint(v) && |r| <= 5
  {
    hide Varint;
    var v1 := v / 128;
    var v2 := v1 / 128;
    var v3 := v2 / 128;
    var v4 := v3 / 128;
    VarintStep(v);
    VarintStep(v1);
    VarintStep(v2);
    VarintStep(v3);
    VarintStep(v4);
    if v < 0x80 {
      r := [v];
    } else if v < 0x4000 {
      r := [v % 128 + 128, v1];
    } else if v < 0x20_0000 {
      r := [v % 128 + 128, v1 % 128 + 128, v2];
    } else if v < 0x1000_0000 {
      r := [v % 128 + 128, v1 % 128 + 128, v2 % 128 + 128, v3];
    } else {
      r := [v % 128 + 128, v1 % 128 + 128, v2 % 128 + 128, v3 % 128 + 128, v4];
    }
  }

  /** What a word keeps of a number. */
  function Wrap(x: nat, wordSize: nat): (r: nat)
    requires wordSize > 0
    ensures r < wordSize && r <= x
    ensures x < wordSize ==> r == x
  {
    x % wordSize
  }

  /** The first byte without its high bit set is the last of the `n`. */
  ghost predicate EndsVarint(bs: Bytes, n: nat) {
    0 < n <= |bs| && bs[n - 1] < 128 && forall i :: 0 <= i < n - 1 ==> bs[i] >= 128
  }

  /** The number that the low seven bits of the first `n` bytes write. */
  ghost function Encoded(bs: Bytes, n: nat): nat
    requires n <= |bs|
  {
    if n == 0 then 0 else Encoded(bs, n - 1) + bs[n - 1] % 128 * Shift(n - 1)
  }

  lemma EndsOnce(bs: Bytes, m: nat, n: nat)
    requires EndsVarint(bs, m) && EndsVarint(bs, n)
    ensures m == n
  {
  }

  lemma {:induction false} EncodedFromFront(bs: Bytes, n: nat)
    requires 0 < n <= |bs|
    ensures Encoded(bs, n) == bs[0] % 128 + 128 * Encoded(bs[1..], n - 1)
  {
    if n == 1 {
      assert Encoded(bs, 0) == 0 && Shift(0) == 1;
    } else {
      EncodedFromFront(bs, n - 1);
      var d := bs[n - 1] % 128;
      assert bs[1..][n - 2] == bs[n - 1] && Shift(n - 1) == 128 * Shift(n - 2);
      assert d * (128 * Shift(n - 2)) == 128 * (d * Shift(n - 2));
    }
  }

  lemma LastDigit(bs: Bytes)
    requires bs != [] && bs[0] < 128
    ensures EndsVarint(bs, 1) && Encoded(bs, 1) == bs[0]
  {
    assert Encoded(bs, 0) == 0 && Shift(0) == 1;
  }

  lemma OneMoreDigit(bs: Bytes, n: nat)
    requires bs != [] && bs[0] >= 128 && EndsVarint(bs[1..], n)
    ensures EndsVarint(bs, n + 1) && Encoded(bs, n + 1) == bs[0] - 128 + 128 * Encoded(bs[1..], n)
  {
    EncodedFromFront(bs, n + 1);
    assert forall i :: 0 < i < |bs| ==> bs[i] == bs[1..][i - 1];
  }

  /** A varint is read as the number it was written for. */
  lemma {:induction false} VarintTerminates(v: nat, bs: Bytes)
    requires Varint(v) <= bs
    ensures EndsVarint(bs, |Varint(v)|) && Encoded(bs, |Varint(v)|) == v
    decreases v
  {
    hide Varint, Encoded, EndsVarint;
    FirstDigit(v, bs);
    if bs[0] < 128 {
      LastDigit(bs);
    } else {
      VarintSmaller(v, bs);
      VarintTerminates(v / 128, bs[1..]);
      OneMoreDigit(bs, |Varint(v / 128)|);
    }
  }

  lemma VarintSmaller(v: nat, bs: Bytes)
    requires Varint(v) <= bs && bs[0] >= 128
    ensures v / 128 < v
  {
    assert Varint(v)[0] == bs[0];
  }

  lemma WrapAdds(x: nat, y: nat, wordSize: nat)
    requires wordSize > 0
    ensures Wrap(Wrap(x, wordSize) + y, wordSize) == Wrap(x + y, wordSize)
  {
    var q := x / wordSize;
    assert x == wordSize * q + x % wordSize;
    ModAdd(x % wordSize + y, q, wordSize);
  }

  lemma ModAdd(x: nat, q: nat, m: nat)
    requires m > 0
    ensures (x + m * q) % m == x % m
  {
    var k := x / m;
    assert x == m * k + x % m;
    assert x + m * q == m * (k + q) + x % m;
    SameRemainder(x + m * q, k + q, x % m, m);
  }

  lemma SameRemainder(x: nat, k: nat, r: nat, m: nat)
    requires x == m * k + r && r < m
    ensures x % m == r && x / m == k
  {
    var j := x / m;
    assert x == m * j + x % m;
    assert j >= k + 1 ==> m * j >= m * (k + 1);
    assert k >= j + 1 ==> m * k >= m * (j + 1);
  }

  /** Reads a varint at `p`, without passing `limit`: of up to so many digits, and bits beyond
      the word size fall off. */
  method GetVarint(bs: Bytes, p: nat, limit: nat, topShift: nat, wordSize: nat)
    returns (ok: bool, value: nat, next: nat)
    requires p <= limit <= |bs| && wordSize > 0
    ensures ok ==> p < next <= limit && EndsVarint(bs[p..limit], next - p) && 7 * (next - p) <= topShift + 7
    ensures ok ==> value == Wrap(Encoded(bs[p..limit], next - p), wordSize)
    ensures value < wordSize
    ensures !ok ==> forall n: nat :: 7 * n <= topShift + 7 ==> !EndsVarint(bs[p..limit], n)
  {
    hide Shift, Wrap;
    ghost var window := bs[p..limit];
    value, next, ok := 0, p, false;
    var shift: nat, scale: nat := 0, 1;
    NoDigits(window, wordSize);
    while shift <= topShift && next < limit
      invariant p <= next <= limit && shift == 7 * (next - p) && scale == Shift(next - p)
      invariant forall i :: 0 <= i < next - p ==> window[i] >= 128
      invariant value == Wrap(Encoded(window, next - p), wordSize)
    {
      var byte := bs[next];
      assert window[next - p] == byte;
      next := next + 1;
      WrapAdds(Encoded(window, next - 1 - p), byte % 128 * scale, wordSize);
      if byte >= 128 {
        value := Wrap(value + byte % 128 * scale, wordSize);
      } else {
        value := Wrap(value + byte % 128 * scale, wordSize);
        return true, value, next;
      }
      ShiftStep(next - 1 - p);
      shift, scale := shift + 7, scale * 128;
    }
  }

  lemma NoDigits(bs: Bytes, wordSize: nat)
    requires wordSize > 0
    ensures Encoded(bs, 0) == 0 == Wrap(0, wordSize) && Shift(0) == 1
  {
  }

  lemma ShiftStep(k: nat)
    ensures Shift(k + 1) == 128 * Shift(k)
  {
  }

  /** A varint of at most five bytes, whatever they are; of the fifth, four bits are kept. */
  ghost predicate Parses32(bs: Bytes, value: Word, n: nat) {
    n <= 5 && EndsVarint(bs, n) && value == Encoded(bs, n) % 0x1_0000_0000
  }

  method GetVarint32(bs: Bytes, p: nat, limit: nat) returns (ok: bool, value: Word, next: nat)
    requires p <= limit <= |bs|
    ensures ok ==> p < next <= limit && Parses32(bs[p..limit], value, next - p)
    ensures !ok ==> forall v: Word, n: nat :: !Parses32(bs[p..limit], v, n)
  {
    hide Encoded, EndsVarint;
    ok, value, next := GetVarint(bs, p, limit, 28, 0x1_0000_0000);
  }

  lemma Parses32Once(bs: Bytes, v: Word, n: nat, v': Word, n': nat)
    requires Parses32(bs, v, n) && Parses32(bs, v', n')
    ensures v == v' && n == n'
  {
    EndsOnce(bs, n, n');
  }

  /** What was encoded is what parses. */
  lemma Parses32Varint(bs: Bytes, v: Word)
    requires Varint(v) <= bs
    ensures Parses32(bs, v, |Varint(v)|)
  {
    hide Varint;
    AtMostFive(v);
    VarintTerminates(v, bs);
  }

  method GetVarint64(bs: Bytes, p: nat, limit: nat, ghost v: nat) returns (ok: bool, value: nat, next: nat)
    requires p <= limit <= |bs| && v < 0x1_0000_0000_0000_0000
    ensures ok ==> p < next <= limit && next - p <= 10 && EndsVarint(bs[p..limit], next - p)
    ensures value < 0x1_0000_0000_0000_0000
    ensures ok ==> value == Encoded(bs[p..limit], next - p) % 0x1_0000_0000_0000_0000
    ensures !ok ==> forall n: nat :: n <= 10 ==> !EndsVarint(bs[p..limit], n)
    ensures Varint(v) <= bs[p..limit] ==> ok && value == v && next == p + |Varint(v)|
  {
    hide Varint, EndsVarint, Encoded;
    AtMostTen(v);
    ok, value, next := GetVarint(bs, p, limit, 63, 0x1_0000_0000_0000_0000);
    if Varint(v) <= bs[p..limit] {
      VarintTerminates(v, bs[p..limit]);
      if ok {
        EndsOnce(bs[p..limit], |Varint(v)|, next - p);
      }
    }
  }

  lemma AtMostTen(v: nat)
    requires v < 0x1_0000_0000_0000_0000
    ensures |Varint(v)| <= 10
  {
    hide Varint;
    assert Shift(5) == 0x8_0000_0000 by {
      assert Shift(2) == 0x4000;
    }
    assert Shift(10) == 0x8_0000_0000 * 0x8_0000_0000 by {
      assert Shift(7) == 0x2_0000_0000_0000;
    }
    VarintLength(v, 9);
  }

  lemma FirstDigit(rest: nat, bs: Bytes)
    requires Varint(rest) <= bs
    ensures bs[0] < 128 ==> rest == bs[0] && |Varint(rest)| == 1
    ensures bs[0] >= 128 ==> Varint(rest / 128) <= bs[1..] && bs[0] == rest % 128 + 128 && |Varint(rest)| == 1 + |Varint(rest / 128)|
  {
    assert Varint(rest)[0] == bs[0];
  }

  lemma AtMostFive(v: Word)
    ensures |Varint(v)| <= 5
  {
    assert Shift(1) == 128 && Shift(2) == 0x4000 && Shift(3) == 0x20_0000 && Shift(4) == 0x1000_0000 && Shift(5) == 0x8_0000_0000;
    VarintLength(v, 4);
  }

  // ----- bits -----

  predicate Bit(b: nat, i: nat) {
    if i == 0 then b % 2 == 1 else Bit(b / 2, i - 1)
  }

  lemma Halved(x: nat, y: nat, p: nat)
    requires x < 2 * p
    ensures (x + y * (2 * p)) / 2 == x / 2 + y * p && (x + y * (2 * p)) % 2 == x % 2 && x / 2 < p
  {
    assert y * (2 * p) == 2 * (y * p);
  }

  /** A number of `k` bits under another. */
  lemma {:induction false} BitsJoined(x: nat, y: nat, k: nat, i: nat)
    requires x < Power(k)
    ensures Bit(x + y * Power(k), i) <==> if i < k then Bit(x, i) else Bit(y, i - k)
    decreases k
  {
    if k > 0 {
      Halved(x, y, Power(k - 1));
      if i > 0 {
        BitsJoined(x / 2, y, k - 1, i - 1);
      }
    }
  }

  lemma Split(w: nat, p: nat)
    requires p > 0
    ensures w == w % p + w / p * p && w % p < p
  {
  }

  lemma Factor(c: nat, a: nat, b: nat)
    ensures a * (c * b) == c * (a * b)
  {
  }

  lemma {:induction false} PowerAdds(m: nat, n: nat)
    ensures Power(m + n) == Power(m) * Power(n)
  {
    if n > 0 {
      PowerAdds(m, n - 1);
      Factor(2, Power(m), Power(n - 1));
    }
  }

  lemma Cancel(a: nat, b: nat, p: nat)
    ensures a * p < b * p ==> a < b
  {
    if a >= b {
      assert a * p == b * p + (a - b) * p;
    }
  }

  lemma High(w: nat, p: nat, q: nat)
    requires p > 0 && w < p * q
    ensures w / p < q
  {
    Split(w, p);
    Cancel(w / p, q, p);
  }

  /** What is below `p` goes above the rest. */
  function Turned(w: nat, p: nat, q: nat): nat
    requires p > 0
  {
    var low: nat := w % p;
    w / p + low * q
  }

  lemma Halves(w: nat, p: nat, q: nat)
    requires p > 0 && w < p * q
    ensures w == w % p + w / p * p && 0 <= w % p < p && 0 <= w / p < q
  {
    Split(w, p);
    High(w, p, q);
  }

  /** Bit by bit, that is a rotation. */
  lemma Rotation(w: nat, n: nat, p: nat, q: nat, i: nat)
    requires n <= 32 && i < 32 && p == Power(n) && q == Power(32 - n) && w < Power(32)
    ensures Bit(Turned(w, p, q), i) <==> Bit(w, (i + n) % 32)
  {
    hide Bit, Power;
    PowerAdds(n, 32 - n);
    Halves(w, p, q);
    var low, high := w % p, w / p;
    BitsJoined(high, low, 32 - n, i);
    BitsJoined(low, high, n, (i + n) % 32);
  }

  lemma SmallPowers()
    ensures Power(2) == 4 && Power(5) == 32
  {
  }

  lemma Powers()
    ensures Power(15) == 0x8000 && Power(17) == 0x2_0000 && Power(32) == 0x1_0000_0000
  {
    hide Power;
    SmallPowers();
    PowerAdds(5, 5);
    PowerAdds(10, 5);
    PowerAdds(15, 2);
    PowerAdds(15, 17);
  }

  lemma MaskAdds(crc: Word)
    ensures (Mask(crc) - 0xa282ead8) % 0x1_0000_0000 == Turned(crc, 0x8000, 0x2_0000)
  {
  }

  /** Without the constant, each bit of the checksum has moved down 15 places. */
  lemma MaskRotates(crc: Word, i: nat)
    requires i < 32
    ensures Bit((Mask(crc) - 0xa282ead8) % 0x1_0000_0000, i) <==> Bit(crc, (i + 15) % 32)
  {
    hide Bit, Power, Mask, Turned;
    Powers();
    MaskAdds(crc);
    Rotation(crc, 15, 0x8000, 0x2_0000, i);
  }
}
