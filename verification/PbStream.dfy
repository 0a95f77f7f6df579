/** The decoder's input stream: a window of a buffer, varints, substreams. */
module PbStream {
  import opened Coding

  const TWO_32 := 0x1_0000_0000

  // ----- the 32-bit reader -----

  /** `a | b` */
  function Or(a: nat, b: nat): nat {
    if a == 0 && b == 0 then 0 else (if a % 2 == 1 || b % 2 == 1 then 1 else 0) + 2 * Or(a / 2, b / 2)
  }

  lemma {:induction false} OrBound(a: nat, b: nat, k: nat)
    requires a < Power(k) && b < Power(k)
    ensures Or(a, b) < Power(k)
  {
    if k > 0 {
      OrBound(a / 2, b / 2, k - 1);
    }
  }

  lemma {:induction false} OrZero(a: nat)
    ensures Or(a, 0) == a && Or(0, a) == a
  {
    if a > 0 {
      OrZero(a / 2);
    }
  }

  /** Or-ing bits above those there are adds them. */
  lemma {:induction false} OrAdds(a: nat, d: nat, k: nat)
    requires a < Power(k)
    ensures Or(a, d * Power(k)) == a + d * Power(k)
  {
    if k == 0 {
      OrZero(d);
    } else {
      var p := d * Power(k - 1);
      assert d * Power(k) == 2 * p;
      OrAdds(a / 2, d, k - 1);
    }
  }

  lemma Power32()
    ensures Power(7) == 0x80 && Power(14) == 0x4000 && Power(21) == 0x20_0000 && Power(28) == 0x1000_0000 && Power(32) == 0x1_0000_0000
  {
    PowerAdds(7, 7);
    PowerAdds(14, 7);
    PowerAdds(21, 7);
    PowerAdds(28, 4);
    assert Power(4) == 16;
    assert Power(7) == 8 * Power(4);
  }

  function Or32(a: Word, b: Word): Word {
    Power32();
    OrBound(a, b, 32);
    Or(a, b)
  }

  /** Seven more, in eight bits. */
  function Plus7(b: Byte): Byte {
    if b + 7 < 256 then b + 7 else b + 7 - 256
  }

  /** Where the digit of byte `j` goes, in an eight-bit counter. */
  function BitPos(j: nat): Byte {
    if j == 0 then 0 else Plus7(BitPos(j - 1))
  }

  lemma NextBitPos(j: nat)
    ensures BitPos(j + 1) == Plus7(BitPos(j)) && BitPos(0) == 0
  {
  }

  lemma {:induction false} BitPosLow(j: nat)
    requires j <= 37
    ensures BitPos(j) == if j == 37 then 3 else 7 * j
  {
    if j > 0 {
      BitPosLow(j - 1);
    }
  }

  /** The value the first `n` bytes leave in the word. */
  function Taken(bs: Bytes, n: nat): Word
    requires n <= |bs|
  {
    if n == 0 then 0
    else if BitPos(n - 1) >= 32 then Taken(bs, n - 1)
    else Or32(Taken(bs, n - 1), Wrap(bs[n - 1] % 128 * Power(BitPos(n - 1)), 0x1_0000_0000))
  }

  /** A digit beyond the word is a zero, or repeats the sign. */
  predicate Extends(bs: Bytes, j: nat)
    requires j < |bs|
  {
    BitPos(j) >= 32 ==>
      bs[j] % 128 == 0 || (Taken(bs, j) >= 0x8000_0000 && bs[j] == if BitPos(j) < 63 then 0xFF else 0x01)
  }

  ghost predicate Accepts(bs: Bytes, n: nat) {
    && EndsVarint(bs, n)
    && (forall j :: 1 <= j < n ==> Extends(bs, j))
    && (BitPos(n) == 35 ==> bs[n - 1] < 16)
  }

  lemma ExtendsIs(bs: Bytes, j: nat)
    requires j < |bs|
    ensures Extends(bs, j) <==> (BitPos(j) >= 32 ==>
      bs[j] % 128 == 0 || (Taken(bs, j) >= 0x8000_0000 && bs[j] == if BitPos(j) < 63 then 0xFF else 0x01))
  {
  }

  lemma TakenStep(bs: Bytes, n: nat)
    requires n < |bs|
    ensures Taken(bs, n + 1) == if BitPos(n) >= 32 then Taken(bs, n) else Or32(Taken(bs, n), Wrap(bs[n] % 128 * Power(BitPos(n)), 0x1_0000_0000))
  {
  }

  lemma FirstTaken(bs: Bytes)
    requires bs != []
    ensures Taken(bs, 1) == bs[0] % 128 && (bs[0] < 128 ==> Accepts(bs, 1))
  {
    hide Or, Power, Wrap, Extends;
    var d := bs[0] % 128;
    TakenStep(bs, 0);
    NextBitPos(0);
    OrZero(d);
    assert d * Power(0) == d by { PowerZero(); }
  }

  lemma PowerZero()
    ensures Power(0) == 1
  {
  }

  lemma NothingAccepted(bs: Bytes)
    requires bs == []
    ensures forall n: nat :: !Accepts(bs, n)
  {
  }

  // ----- what is accepted, against the number that is written -----

  lemma DigitTimes(d: nat, scale: nat)
    requires d < 128
    ensures 0 <= d * scale <= 127 * scale
  {
  }

  lemma EncodedStep(bs: Bytes, n: nat)
    requires n < |bs|
    ensures Encoded(bs, n + 1) == Encoded(bs, n) + bs[n] % 128 * Shift(n)
    ensures Encoded(bs, n) <= Encoded(bs, n + 1)
  {
    DigitTimes(bs[n] % 128, Shift(n));
  }

  lemma {:induction false} EncodedBound(bs: Bytes, n: nat)
    requires n <= |bs|
    ensures Encoded(bs, n) < Shift(n)
  {
    if n > 0 {
      EncodedBound(bs, n - 1);
      DigitTimes(bs[n - 1] % 128, Shift(n - 1));
    }
  }

  lemma {:induction false} ShiftIsPower(k: nat)
    ensures Shift(k) == Power(7 * k)
  {
    if k > 0 {
      ShiftIsPower(k - 1);
      PowerAdds(7 * (k - 1), 7);
      Power32();
    }
  }

  lemma {:induction false} ShiftsAdd(m: nat, n: nat)
    ensures Shift(m + n) == Shift(m) * Shift(n)
  {
    if n > 0 {
      ShiftsAdd(m, n - 1);
      Factor(128, Shift(m), Shift(n - 1));
    }
  }

  lemma Shifts()
    ensures Shift(1) == 128 && Shift(2) == 0x4000 && Shift(3) == 0x20_0000 && Shift(4) == 0x1000_0000 && Shift(5) == 0x8_0000_0000
  {
  }

  lemma FifthDigit(e: nat, d: nat)
    requires e < 0x1000_0000
    ensures
      var low := Wrap(d * 0x1000_0000, 0x1_0000_0000);
      low == d % 16 * 0x1000_0000 && (e + d * 0x1000_0000) % 0x1_0000_0000 == e + low
  {
    var low := d % 16 * 0x1000_0000;
    assert d * 0x1000_0000 == low + 0x1_0000_0000 * (d / 16);
    ModAdd(low, d / 16, 0x1_0000_0000);
    ModAdd(e + low, d / 16, 0x1_0000_0000);
  }

  /** A digit of the word itself. */
  lemma LowDigit(bs: Bytes, i: nat)
    requires i < |bs| && i <= 4 && Taken(bs, i) == Encoded(bs, i)
    ensures Taken(bs, i + 1) == Encoded(bs, i + 1) % 0x1_0000_0000 && (i < 4 ==> Encoded(bs, i + 1) < 0x1_0000_0000)
  {
    hide Power, Or, Taken, Encoded, BitPos, Shift, Wrap;
    var d, e := bs[i] % 128, Encoded(bs, i);
    EncodedBound(bs, i);
    EncodedBound(bs, i + 1);
    EncodedStep(bs, i);
    TakenStep(bs, i);
    BitPosLow(i);
    ShiftIsPower(i);
    Shifts();
    Power32();
    if i == 4 {
      FifthDigit(e, d);
      OrAdds(e, d % 16, 28);
    } else {
      OrAdds(e, d, 7 * i);
    }
  }

  lemma Multiple(d: nat, scale: nat)
    requires scale >= 1
    ensures d * (0x8_0000_0000 * scale) == 0x1_0000_0000 * (8 * (d * scale)) && (d > 0 ==> d * scale >= 1)
  {
  }

  /** A digit beyond the word is a multiple of it. */
  lemma HighDigit(bs: Bytes, i: nat)
    requires 5 <= i < |bs|
    ensures Encoded(bs, i + 1) % 0x1_0000_0000 == Encoded(bs, i) % 0x1_0000_0000
    ensures bs[i] % 128 > 0 ==> Encoded(bs, i + 1) >= 0x1_0000_0000
  {
    hide Shift, Encoded;
    var d := bs[i] % 128;
    Shifts();
    ShiftsAdd(5, i - 5);
    EncodedStep(bs, i);
    Multiple(d, Shift(i - 5));
    ModAdd(Encoded(bs, i), 8 * (d * Shift(i - 5)), 0x1_0000_0000);
  }

  lemma NothingTaken(bs: Bytes)
    ensures Taken(bs, 0) == 0 == Encoded(bs, 0)
  {
  }

  /** Until the counter wraps, the word keeps the low bits of the number. */
  lemma {:induction false} TakenIsLow(bs: Bytes, n: nat)
    requires n <= |bs| && n <= 37
    ensures Taken(bs, n) == Encoded(bs, n) % 0x1_0000_0000 && (n <= 4 ==> Encoded(bs, n) < 0x1_0000_0000)
  {
    hide Taken, Encoded, BitPos;
    if n == 0 {
      NothingTaken(bs);
    } else {
      TakenIsLow(bs, n - 1);
      if n <= 5 {
        LowDigit(bs, n - 1);
      } else {
        HighDigit(bs, n - 1);
        BitPosLow(n - 1);
        TakenStep(bs, n - 1);
      }
    }
  }

  lemma {:induction false} EncodedGrows(bs: Bytes, m: nat, n: nat)
    requires m <= n <= |bs|
    ensures Encoded(bs, m) <= Encoded(bs, n)
  {
    hide Encoded;
    if m < n {
      EncodedGrows(bs, m, n - 1);
      EncodedStep(bs, n - 1);
    }
  }

  lemma SmallHasZeros(bs: Bytes, n: nat, i: nat)
    requires i < n <= |bs| && Encoded(bs, n) < 0x1_0000_0000
    ensures (i >= 5 ==> bs[i] % 128 == 0) && (i == 4 ==> bs[i] % 128 < 16)
  {
    hide Encoded, Shift;
    EncodedGrows(bs, i + 1, n);
    if i >= 5 {
      HighDigit(bs, i);
    } else if i == 4 {
      Shifts();
      EncodedStep(bs, 4);
    }
  }

  /** Zeros change nothing, wherever they are put. */
  lemma {:induction false} PaddedIsTaken(bs: Bytes, n: nat)
    requires n <= |bs| && forall i :: 5 <= i < n ==> bs[i] % 128 == 0
    ensures Taken(bs, n) == Encoded(bs, n) % 0x1_0000_0000
  {
    hide Taken, Encoded, BitPos, Or, Power;
    if n <= 5 {
      TakenIsLow(bs, n);
    } else {
      PaddedIsTaken(bs, n - 1);
      OrZero(Taken(bs, n - 1));
      TakenStep(bs, n - 1);
      EncodedStep(bs, n - 1);
    }
  }

  /** Any number below 2^32 is read as itself, however far it is padded. */
  lemma SmallIsTaken(bs: Bytes, n: nat)
    requires EndsVarint(bs, n) && Encoded(bs, n) < 0x1_0000_0000
    ensures Accepts(bs, n) && Taken(bs, n) == Encoded(bs, n)
  {
    hide Encoded, Taken;
    forall i | 0 <= i < n ensures (i >= 5 ==> bs[i] % 128 == 0) && (i == 4 ==> bs[i] % 128 < 16) {
      SmallHasZeros(bs, n, i);
    }
    PaddedIsTaken(bs, n);
    forall j | 1 <= j <= 5 ensures BitPos(j) == 7 * j {
      BitPosLow(j);
    }
  }

  /** A number that was encoded is read, and nothing shorter or longer. */
  lemma VarintAccepted(bs: Bytes, v: nat)
    requires Varint(v) <= bs && v < 0x1_0000_0000
    ensures Accepts(bs, |Varint(v)|) && Taken(bs, |Varint(v)|) == v
    ensures forall n: nat :: Accepts(bs, n) ==> n == |Varint(v)|
  {
    hide Varint, Encoded, Taken, Extends;
    VarintTerminates(v, bs);
    SmallIsTaken(bs, |Varint(v)|);
    forall n: nat | Accepts(bs, n) ensures n == |Varint(v)| {
      EndsOnce(bs, |Varint(v)|, n);
    }
  }

  /** A string is read as the number it writes exactly if that is below 2^32; until the counter
      wraps, any other is read modulo 2^32. */
  lemma WhatIsRead(bs: Bytes, n: nat)
    requires Accepts(bs, n)
    ensures Taken(bs, n) == Encoded(bs, n) <==> Encoded(bs, n) < 0x1_0000_0000
    ensures n <= 37 ==> Taken(bs, n) == Encoded(bs, n) % 0x1_0000_0000
  {
    if Encoded(bs, n) < 0x1_0000_0000 {
      SmallIsTaken(bs, n);
    }
    if n <= 37 {
      TakenIsLow(bs, n);
    }
  }

  /** The accepted strings, until the counter wraps: up to four bytes, five if the number fits,
      and more if all that follow are zeros or a sign extended to 64 bits. The fifth of more
      bytes is not looked at. */
  lemma WhatIsAccepted(bs: Bytes, n: nat)
    requires n <= 37
    ensures Accepts(bs, n) <==>
      && EndsVarint(bs, n)
      && (n == 5 ==> bs[4] < 16)
      && forall j :: 5 <= j < n ==>
           bs[j] % 128 == 0 || (Encoded(bs, 5) % 0x1_0000_0000 >= 0x8000_0000 && bs[j] == if j < 9 then 0xFF else 0x01)
  {
    hide Encoded, Taken;
    if EndsVarint(bs, n) {
      BitPosLow(n);
      forall j | 1 <= j < n
        ensures Extends(bs, j) <==> (j >= 5 ==>
          bs[j] % 128 == 0 || (Encoded(bs, 5) % 0x1_0000_0000 >= 0x8000_0000 && bs[j] == if j < 9 then 0xFF else 0x01))
      {
        BitPosLow(j);
        ExtendsIs(bs, j);
        if j >= 5 {
          TakenIsLow(bs, j);
          LowStays(bs, j);
        }
      }
    }
  }

  lemma {:induction false} LowStays(bs: Bytes, n: nat)
    requires 5 <= n <= |bs|
    ensures Encoded(bs, n) % 0x1_0000_0000 == Encoded(bs, 5) % 0x1_0000_0000
  {
    hide Encoded;
    if n > 5 {
      LowStays(bs, n - 1);
      HighDigit(bs, n - 1);
    }
  }

  function SixBytes(): Bytes {
    [0x80, 0x80, 0x80, 0x80, 0xF0, 0x00]
  }

  lemma SixDigits()
    ensures
      var bs := SixBytes();
      && |bs| == 6 && EndsVarint(bs, 6) && bs[5] == 0
      && (forall i :: 0 <= i < 4 ==> bs[i] % 128 == 0) && bs[4] % 128 == 0x70 && bs[5] % 128 == 0
  {
  }

  /** Six bytes that write 7 * 2^32, and are read as 0. */
  lemma LargeIsReadAsZero()
    ensures |SixBytes()| == 6 && Accepts(SixBytes(), 6) && Taken(SixBytes(), 6) == 0 && Encoded(SixBytes(), 6) == 7 * 0x1_0000_0000
  {
    hide Encoded, Taken, Shift, SixBytes, Accepts, EndsVarint;
    SixDigits();
    var bs := SixBytes();
    Shifts();
    NothingEncoded(bs, 4);
    EncodedStep(bs, 4);
    EncodedStep(bs, 5);
    WhatIsAccepted(bs, 6);
    TakenIsLow(bs, 6);
  }

  lemma {:induction false} NothingEncoded(bs: Bytes, n: nat)
    requires n <= |bs| && forall i :: 0 <= i < n ==> bs[i] % 128 == 0
    ensures Encoded(bs, n) == 0
  {
    if n > 0 {
      NothingEncoded(bs, n - 1);
    }
  }

  /** Where the counter has wrapped, a digit lands in the word again: 2^259 is read as 8. */
  lemma CounterWraps()
    ensures
      var bs: Bytes := seq(37, _ => 0x80) + [0x01];
      Accepts(bs, 38) && Taken(bs, 38) == 8 && Encoded(bs, 38) == Shift(37)
  {
    hide Encoded, Taken, Or, Shift, BitPos;
    var bs: Bytes := seq(37, _ => 0x80) + [0x01];
    NothingEncoded(bs, 37);
    PaddedIsTaken(bs, 37);
    TakenStep(bs, 37);
    OrZero(8);
    assert Power(3) == 8;
    EncodedStep(bs, 37);
    BitPosLow(37);
    BitPosLow(5);
  }

  class IStream {
    const bytes: Bytes
    /** Where the window ends. */
    ghost const end: nat
    var pos: nat
    var left: nat

    constructor (bytes: Bytes, pos: nat, left: nat)
      requires pos + left <= |bytes|
      ensures Valid() && this.bytes == bytes && this.pos == pos && this.left == left && end == pos + left
    {
      this.bytes, this.pos, this.left, end := bytes, pos, left, pos + left;
    }

    ghost predicate Valid()
      reads this
    {
      pos + left <= end <= |bytes|
    }

    /** The bytes that are still to be read. */
    ghost function Content(): (c: Bytes)
      requires Valid()
      reads this
      ensures |c| == left
    {
      bytes[pos..pos + left]
    }

    method ReadByte() returns (ok: bool, byte: Byte)
      requires Valid()
      modifies this
      ensures Valid() && (ok <==> old(left) > 0)
      ensures if ok then byte == old(Content())[0] && Content() == old(Content())[1..] && pos + left == old(pos + left) else unchanged(this)
    {
      ok, byte := left > 0, 0;
      if ok {
        byte := bytes[pos];
        pos, left := pos + 1, left - 1;
      }
    }

    method Read(n: nat) returns (ok: bool, bs: Bytes)
      requires Valid()
      modifies this
      ensures Valid() && (ok <==> n <= old(left)) && left <= old(left) && (ok ==> |bs| == n && bs + Content() == old(Content()) && pos + left == old(pos + left))
    {
      ok, bs := n <= left, [];
      if ok {
        bs := bytes[pos..pos + n];
        pos, left := pos + n, left - n;
      }
    }

    /** Reads 64 bits, from at most ten digits; bits beyond the word fall off. */
    method DecodeVarint(ghost v: nat) returns (ok: bool, value: nat)
      requires Valid()
      modifies this
      ensures Valid() && left <= old(left) && value < 0x1_0000_0000_0000_0000 && (ok ==> left < old(left) && pos + left == old(pos + left))
      ensures ok ==>
        var n := old(left) - left;
        && EndsVarint(old(Content()), n) && n <= 10 && value == Encoded(old(Content()), n) % 0x1_0000_0000_0000_0000
        && Content() == old(Content())[n..]
      ensures !ok ==> forall n: nat :: n <= 10 ==> !EndsVarint(old(Content()), n)
      ensures Varint(v) <= old(Content()) && v < 0x1_0000_0000_0000_0000 ==>
                ok && value == v && Content() == old(Content())[|Varint(v)|..]
    {
      hide Varint, EndsVarint, Encoded;
      var next;
      ok, value, next := GetVarint64(bytes, pos, pos + left, if v < 0x1_0000_0000_0000_0000 then v else 0);
      if ok {
        Window(bytes, pos, pos + left, next - pos);
        pos, left := next, pos + left - next;
      }
    }

    /** Reads 32 bits: exactly the byte strings it accepts, and the value it gives them. */
    method DecodeVarint32(ghost v: nat) returns (ok: bool, value: Word)
      requires Valid()
      modifies this
      ensures Valid() && left <= old(left) && (ok ==> left < old(left) && pos + left == old(pos + left))
      ensures ok ==>
        var n := old(left) - left;
        Accepts(old(Content()), n) && value == Taken(old(Content()), n) && Content() == old(Content())[n..]
      ensures !ok ==> forall n: nat :: !Accepts(old(Content()), n)
      ensures Varint(v) <= old(Content()) && v < 0x1_0000_0000 ==>
                ok && value == v && Content() == old(Content())[|Varint(v)|..]
    {
      hide Varint, Taken, Accepts, EndsVarint, BitPos;
      ghost var content := Content();
      if Varint(v) <= content && v < 0x1_0000_0000 {
        VarintAccepted(content, v);
      }
      var byte;
      ok, byte := ReadByte();
      value := byte;
      if ok {
        FirstTaken(content);
        if byte >= 128 {
          ok, value := MoreDigits(byte - 128, content);
        }
      } else {
        NothingAccepted(content);
      }
    }

    /** The digits after the first. */
    method MoreDigits(first: Byte, ghost content: Bytes) returns (ok: bool, value: Word)
      requires Valid() && first < 128 && content != [] && content[0] == first + 128 && Content() == content[1..]
      requires Taken(content, 1) == first
      modifies this
      ensures Valid() && left <= old(left) && (ok ==> left < old(left) && pos + left == old(pos + left))
      ensures ok ==>
        var n := |content| - left;
        Accepts(content, n) && value == Taken(content, n) && Content() == content[n..]
      ensures !ok ==> forall n: nat :: !Accepts(content, n)
    {
      hide Taken, Extends, BitPos, Power, Wrap, Or32;
      value := first;
      var bitpos: Byte := 7;
      ghost var k := 1;
      NextBitPos(0);
      while true
        invariant Valid() && left <= old(left) && pos + left == old(pos + left) && 1 <= k == |content| - left
        invariant Content() == content[k..] && forall i :: 0 <= i < k ==> content[i] >= 128
        invariant forall j :: 1 <= j < k ==> Extends(content, j)
        invariant value == Taken(content, k) && bitpos == BitPos(k)
        decreases left
      {
        var byte;
        ok, byte := ReadByte();
        if !ok {
          return;
        }
        assert byte == content[k];
        ExtendsIs(content, k);
        TakenStep(content, k);
        if bitpos >= 32 {
          var signExtension := if bitpos < 63 then 0xFF else 0x01;
          if byte % 128 != 0 && (value < 0x8000_0000 || byte != signExtension) {
            return false, value;
          }
        } else {
          value := Or32(value, Wrap(byte % 128 * Power(bitpos), 0x1_0000_0000));
        }
        NextBitPos(k);
        bitpos, k := Plus7(bitpos), k + 1;
        if byte < 128 {
          ok := bitpos != 35 || byte < 16;
          return;
        }
      }
    }
  }

  lemma Window(bytes: Bytes, p: nat, end: nat, k: nat)
    requires p + k <= end <= |bytes|
    ensures bytes[p + k..end] == bytes[p..end][k..]
  {
  }
}
