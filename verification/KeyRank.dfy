/** Byte strings and internal keys as places on a line: the orders that the comparators define
    embed in the reals, so a rank stands for a comparator without loss. */
module KeyRank {
  import opened Coding
  import opened Separators

  /** 257 to the power -n */
  function Width(n: nat): (w: real)
    ensures 0.0 < w <= 1.0
  {
    if n == 0 then 1.0 else Width(n - 1) / 257.0
  }

  /** Each byte is a digit above zero; where the string ends, the digits are zero. */
  function ByteRank(s: Bytes): (r: real)
    ensures 0.0 <= r < 1.0
  {
    if s == [] then 0.0 else ((s[0] as int + 1) as real + ByteRank(s[1..])) / 257.0
  }

  lemma {:induction false} RoomAbove(s: Bytes)
    ensures ByteRank(s) <= 1.0 - Width(|s|)
  {
    if s != [] {
      RoomAbove(s[1..]);
    }
  }

  /** Strings in order are apart by a gap that the length of the first one tells. */
  lemma {:induction false} GapAfter(a: Bytes, b: Bytes)
    requires BytesLess(a, b)
    ensures ByteRank(a) + Width(|a| + 1) <= ByteRank(b)
  {
    if a != [] {
      if a[0] == b[0] {
        GapAfter(a[1..], b[1..]);
      } else {
        RoomAbove(a[1..]);
      }
    }
  }

  /** The bytewise comparator. */
  lemma ByteRankOrders(a: Bytes, b: Bytes)
    ensures ByteRank(a) < ByteRank(b) <==> BytesLess(a, b)
    ensures ByteRank(a) == ByteRank(b) <==> a == b
  {
    BytesTotal(a, b);
    if BytesLess(a, b) {
      GapAfter(a, b);
    }
    if BytesLess(b, a) {
      GapAfter(b, a);
    }
  }

  /** Tags from the largest down, within the gap after the user key. */
  function Within(tag: nat): (r: real)
    ensures tag < 0x1_0000_0000_0000_0000 ==> 0.0 <= r < 1.0
  {
    (0xFFFF_FFFF_FFFF_FFFF - tag) as real / 18446744073709551616.0
  }

  lemma WithinFalls(a: nat, b: nat)
    requires a > b
    ensures Within(a) < Within(b)
  {
  }

  function Share(w: real, r: real): real {
    w * r
  }

  lemma InGap(w: real, r: real)
    requires w > 0.0 && 0.0 <= r < 1.0
    ensures 0.0 <= Share(w, r) < w
  {
  }

  lemma InGapOrder(w: real, r: real, q: real)
    requires w > 0.0 && r < q
    ensures Share(w, r) < Share(w, q)
  {
  }

  /** How far behind its user key's place a key is. */
  function Behind(w: real, tag: nat): (r: real)
    requires w > 0.0
    ensures tag < 0x1_0000_0000_0000_0000 ==> 0.0 <= r < w
  {
    if tag < 0x1_0000_0000_0000_0000 then
      InGap(w, Within(tag));
      Share(w, Within(tag))
    else 0.0
  }

  lemma BehindFalls(w: real, t: nat, s: nat)
    requires w > 0.0 && s < t < 0x1_0000_0000_0000_0000
    ensures Behind(w, t) < Behind(w, s)
  {
    hide Within, Share;
    WithinFalls(t, s);
    InGapOrder(w, Within(t), Within(s));
  }

  function Place(user: Bytes, tag: nat): real {
    ByteRank(user) + Behind(Width(|user| + 1), tag)
  }

  function KeyRankOf(k: Key): real {
    Place(UserKey(k), Tag(k))
  }

  lemma PlaceGrows(u: Bytes, t: nat, v: Bytes, s: nat)
    requires BytesLess(u, v) || (u == v && t > s)
    requires t < 0x1_0000_0000_0000_0000 && s < 0x1_0000_0000_0000_0000
    ensures Place(u, t) < Place(v, s)
  {
    hide Behind, BytesLess;
    if BytesLess(u, v) {
      GapAfter(u, v);
    } else {
      BehindFalls(Width(|u| + 1), t, s);
    }
  }

  lemma TagFits(k: Key)
    ensures Tag(k) < 0x1_0000_0000_0000_0000
  {
  }

  /** The internal key comparator. */
  lemma KeyRankOrders(a: Key, b: Key)
    ensures KeyRankOf(a) < KeyRankOf(b) <==> KeyLess(a, b)
  {
    hide Place, BytesLess, UserKey, Tag;
    KeyTotal(a, b);
    TagFits(a);
    TagFits(b);
    if KeyLess(a, b) {
      PlaceGrows(UserKey(a), Tag(a), UserKey(b), Tag(b));
    } else if KeyLess(b, a) {
      PlaceGrows(UserKey(b), Tag(b), UserKey(a), Tag(a));
    }
  }
}
