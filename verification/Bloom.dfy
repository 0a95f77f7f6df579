/** Bloom filters: a filter built from some keys matches every one of them. */
module Bloom {
  import opened Coding

  /** BloomHash */
  type Hash = Bytes -> Word

  const MAX_PROBES: nat := 30

  /** Rotate right by 17 bits. */
  function Delta(h: Word): Word {
    h / 0x2_0000 + h % 0x2_0000 * 0x8000
  }

  /** Each bit of the word moves down 17 places, the lowest ones to the top. */
  lemma DeltaRotates(h: Word, i: nat)
    requires i < 32
    ensures Bit(Delta(h), i) <==> Bit(h, (i + 17) % 32)
  {
    hide Bit;
    Powers();
    Rotation(h, 17, 0x2_0000, 0x8000, i);
  }

  /** The hash value at probe `j`. */
  function Probe(h: Word, j: nat): Word {
    if j == 0 then h else (Probe(h, j - 1) + Delta(h)) % 0x1_0000_0000
  }

  /** `b | (1 << i)` */
  function SetBit(b: nat, i: nat): (r: nat)
    ensures b <= r
  {
    if i == 0 then b - b % 2 + 1 else SetBit(b / 2, i - 1) * 2 + b % 2
  }

  lemma {:induction false} SetsOneBit(b: nat, i: nat, j: nat)
    ensures Bit(SetBit(b, i), j) <==> j == i || Bit(b, j)
  {
    if i > 0 && j > 0 {
      SetsOneBit(b / 2, i - 1, j - 1);
    }
  }

  lemma {:induction false} FitsWidth(b: nat, i: nat, width: nat)
    requires i < width && b < Power(width)
    ensures SetBit(b, i) < Power(width)
  {
    var p, s := Power(width - 1), SetBit(b, i);
    assert Power(width) == 2 * p;
    assert s == if i == 0 then b - b % 2 + 1 else SetBit(b / 2, i - 1) * 2 + b % 2;
    hide Power, SetBit;
    assert b / 2 < p;
    if i > 0 {
      FitsWidth(b / 2, i - 1, width - 1);
    }
  }

  lemma StaysByte(b: Byte, i: nat)
    requires i < 8
    ensures SetBit(b, i) < 256
  {
    assert Power(1) == 2 && Power(2) == 4 && Power(3) == 8 && Power(4) == 16 && Power(5) == 32 && Power(6) == 64 && Power(7) == 128 && Power(8) == 256;
    FitsWidth(b, i, 8);
  }

  predicate BitAt(bits: Bytes, pos: nat)
    requires pos < 8 * |bits|
  {
    Bit(bits[pos / 8], pos % 8)
  }

  /** Setting a bit sets that bit and no other. */
  method SetBitAt(bits: Bytes, pos: nat) returns (r: Bytes)
    requires pos < 8 * |bits|
    ensures |r| == |bits| && forall q :: 0 <= q < 8 * |bits| ==> (BitAt(r, q) <==> q == pos || BitAt(bits, q))
  {
    StaysByte(bits[pos / 8], pos % 8);
    r := bits[pos / 8 := SetBit(bits[pos / 8], pos % 8)];
    forall q | 0 <= q < 8 * |bits| ensures BitAt(r, q) <==> q == pos || BitAt(bits, q) {
      SetsOneBit(bits[pos / 8], pos % 8, q % 8);
      SamePosition(pos, q);
    }
  }

  lemma SamePosition(p: nat, q: nat)
    ensures p / 8 == q / 8 && p % 8 == q % 8 <==> p == q
  {
  }

  // ----- filters -----

  /** Some key among the first `n` probes bit `pos` with one of its first `k` hash values. */
  ghost predicate Probed(hash: Hash, keys: seq<Bytes>, n: nat, k: nat, bits: nat, pos: nat)
    requires n <= |keys| && bits > 0
  {
    exists i :: 0 <= i < n && ProbedBy(hash(keys[i]), k, bits, pos)
  }

  ghost predicate ProbedBy(h: Word, k: nat, bits: nat, pos: nat)
    requires bits > 0
  {
    exists j: nat :: j < k && Probe(h, j) % bits == pos
  }

  /** A bit array and a probe count, with exactly the bits set that the keys probe. */
  ghost predicate FilterOf(hash: Hash, keys: seq<Bytes>, filter: Bytes) {
    |filter| >= 9 && filter[|filter| - 1] <= MAX_PROBES
    && var bits, bitmap, k := 8 * (|filter| - 1), filter[..|filter| - 1], filter[|filter| - 1];
       forall pos :: 0 <= pos < bits ==> (BitAt(bitmap, pos) <==> Probed(hash, keys, |keys|, k, bits, pos))
  }

  /** CreateFilter: `dst` is what precedes the new filter. */
  method CreateFilter(hash: Hash, bitsPerKey: nat, k: Byte, keys: seq<Bytes>, dst: Bytes) returns (r: Bytes)
    requires 1 <= k <= MAX_PROBES
    ensures dst <= r && FilterOf(hash, keys, r[|dst|..]) && r[|r| - 1] == k
    ensures
      var bytes := |r| - |dst| - 1;
      8 * bytes >= |keys| * bitsPerKey && (bytes > 8 ==> 8 * (bytes - 1) < |keys| * bitsPerKey)
  {
    hide Bit, Probe;
    var bits := |keys| * bitsPerKey;
    if bits < 64 {
      bits := 64;
    }
    var bytes := (bits + 7) / 8;
    bits := bytes * 8;
    var bitmap: Bytes := seq(bytes, _ => 0);
    forall pos | 0 <= pos < bits ensures !BitAt(bitmap, pos) {
      NoBits(pos % 8);
    }
    for i := 0 to |keys|
      invariant |bitmap| == bytes
      invariant forall pos :: 0 <= pos < bits ==> (BitAt(bitmap, pos) <==> Probed(hash, keys, i, k, bits, pos))
    {
      bitmap := AddKey(bitmap, hash(keys[i]), k);
      forall pos | 0 <= pos < bits ensures BitAt(bitmap, pos) <==> Probed(hash, keys, i + 1, k, bits, pos) {
        OneMoreKey(hash, keys, i, k, bits, pos);
      }
    }
    r := dst + bitmap + [k];
    assert r[|dst|..] == bitmap + [k];
    assert r[|dst|..][..bytes] == bitmap;
  }

  lemma NoBits(i: nat)
    ensures !Bit(0, i)
  {
  }

  lemma OneMoreKey(hash: Hash, keys: seq<Bytes>, i: nat, k: nat, bits: nat, pos: nat)
    requires i < |keys| && bits > 0
    ensures Probed(hash, keys, i + 1, k, bits, pos) <==> Probed(hash, keys, i, k, bits, pos) || ProbedBy(hash(keys[i]), k, bits, pos)
  {
  }

  lemma NoProbes(hash: Word, bits: nat)
    requires bits > 0
    ensures forall pos :: 0 <= pos < bits ==> !ProbedBy(hash, 0, bits, pos)
  {
  }

  lemma OneMoreProbe(hash: Word, j: nat, bits: nat, pos: nat)
    requires pos < bits
    ensures ProbedBy(hash, j + 1, bits, pos) <==> ProbedBy(hash, j, bits, pos) || Probe(hash, j) % bits == pos
  {
  }

  /** The inner loop: double hashing gives the probes. */
  method AddKey(bitmap: Bytes, hash: Word, k: nat) returns (r: Bytes)
    requires bitmap != []
    ensures |r| == |bitmap|
    ensures forall pos :: 0 <= pos < 8 * |bitmap| ==> (BitAt(r, pos) <==> BitAt(bitmap, pos) || ProbedBy(hash, k, 8 * |bitmap|, pos))
  {
    hide Bit, ProbedBy;
    NoProbes(hash, 8 * |bitmap|);
    var bits := 8 * |bitmap|;
    var h, delta := hash, Delta(hash);
    r := bitmap;
    for j := 0 to k
      invariant |r| == |bitmap| && h == Probe(hash, j)
      invariant forall pos :: 0 <= pos < bits ==> (BitAt(r, pos) <==> BitAt(bitmap, pos) || ProbedBy(hash, j, bits, pos))
    {
      ghost var was := r;
      r := SetBitAt(r, h % bits);
      forall pos | 0 <= pos < bits ensures BitAt(r, pos) <==> BitAt(bitmap, pos) || ProbedBy(hash, j + 1, bits, pos) {
        OneMoreProbe(hash, j, bits, pos);
      }
      h := (h + delta) % 0x1_0000_0000;
    }
  }

  /** The first `k` probes of a hash value all find their bit. */
  ghost predicate AllHit(bitmap: Bytes, h: Word, k: nat)
    requires bitmap != []
  {
    forall j: nat :: j < k ==> Hits(bitmap, h, j)
  }

  predicate Hits(bitmap: Bytes, h: Word, j: nat)
    requires bitmap != []
  {
    BitAt(bitmap, Probe(h, j) % (8 * |bitmap|))
  }

  /** Whether a filter lets a key through. */
  ghost predicate Passes(hash: Hash, key: Bytes, filter: Bytes) {
    |filter| >= 2
    && (filter[|filter| - 1] > MAX_PROBES || AllHit(filter[..|filter| - 1], hash(key), filter[|filter| - 1]))
  }

  method KeyMayMatch(hash: Hash, key: Bytes, filter: Bytes) returns (r: bool)
    ensures r <==> Passes(hash, key, filter)
  {
    hide BitAt, Delta;
    var len := |filter|;
    if len < 2 {
      return false;
    }
    var bitmap := filter[..len - 1];
    var bits := (len - 1) * 8;
    var k: nat := filter[len - 1];
    if k > MAX_PROBES {
      return true;
    }
    var h, delta := hash(key), Delta(hash(key));
    for j := 0 to k
      invariant h == Probe(hash(key), j) && AllHit(bitmap, hash(key), j)
    {
      assert Hits(bitmap, hash(key), j) <==> BitAt(bitmap, h % bits);
      if !BitAt(bitmap, h % bits) {
        return false;
      }
      h := (h + delta) % 0x1_0000_0000;
    }
    return true;
  }

  /** No false negatives. */
  lemma KeysPass(hash: Hash, keys: seq<Bytes>, filter: Bytes, key: Bytes)
    requires FilterOf(hash, keys, filter) && key in keys
    ensures Passes(hash, key, filter)
  {
    var bitmap, k, bits := filter[..|filter| - 1], filter[|filter| - 1], 8 * (|filter| - 1);
    var i :| 0 <= i < |keys| && keys[i] == key;
    forall j: nat | j < k ensures Hits(bitmap, hash(key), j) {
      assert ProbedBy(hash(keys[i]), k, bits, Probe(hash(key), j) % bits);
    }
  }
}
