/** Encoded internal keys, their order, and the short keys put between table blocks. */
module Separators {
  import opened Coding

  // ----- byte strings -----

  predicate BytesLess(a: Bytes, b: Bytes) {
    b != [] && (a == [] || a[0] < b[0] || (a[0] == b[0] && BytesLess(a[1..], b[1..])))
  }

  lemma {:induction false} BytesTotal(a: Bytes, b: Bytes)
    ensures BytesLess(a, b) || a == b || BytesLess(b, a)
    ensures !(BytesLess(a, b) && BytesLess(b, a)) && (a == b ==> !BytesLess(a, b))
  {
    if a != [] && b != [] && a[0] == b[0] {
      BytesTotal(a[1..], b[1..]);
      assert a == [a[0]] + a[1..] && b == [b[0]] + b[1..];
    }
  }

  lemma {:induction false} BytesTransitive(a: Bytes, b: Bytes, c: Bytes)
    requires BytesLess(a, b) && BytesLess(b, c)
    ensures BytesLess(a, c)
  {
    if a != [] && a[0] == b[0] == c[0] {
      BytesTransitive(a[1..], b[1..], c[1..]);
    }
  }

  /** The first difference decides. */
  lemma {:induction false} DiffersAt(a: Bytes, b: Bytes, i: nat)
    requires i < |a| && i < |b| && a[..i] == b[..i] && a[i] < b[i]
    ensures BytesLess(a, b)
  {
    if i > 0 {
      assert a[0] == a[..i][0] == b[0];
      assert a[1..][..i - 1] == a[..i][1..] && b[1..][..i - 1] == b[..i][1..];
      DiffersAt(a[1..], b[1..], i - 1);
    }
  }

  /** Up to the first difference every byte string in between repeats the common prefix. */
  lemma {:induction false} NoShorterBetween(a: Bytes, b: Bytes, i: nat, s: Bytes)
    requires i < |a| && i < |b| && a[..i] == b[..i] && !BytesLess(s, a) && BytesLess(s, b)
    ensures |s| > i
  {
    if i > 0 {
      assert a[0] == a[..i][0] == b[0] == s[0];
      assert a[1..][..i - 1] == a[..i][1..] && b[1..][..i - 1] == b[..i][1..];
      NoShorterBetween(a[1..], b[1..], i - 1, s[1..]);
    }
  }

  /** The length of the common prefix. */
  function Common(a: Bytes, b: Bytes): nat {
    if a == [] || b == [] || a[0] != b[0] then 0 else 1 + Common(a[1..], b[1..])
  }

  /** The first difference leaves room for a byte in between. */
  predicate CanShorten(start: Bytes, limit: Bytes) {
    var i := Common(start, limit);
    i < |start| && i < |limit| && start[i] as int + 1 < limit[i]
  }

  /** Strictly between, and no byte string from `start` up to `limit` is shorter; unchanged
      when the first difference leaves no room. */
  method FindShortestSeparator(start: Bytes, limit: Bytes) returns (sep: Bytes)
    ensures CanShorten(start, limit) ==> BytesLess(start, sep) && BytesLess(sep, limit) && |sep| <= |start|
    ensures CanShorten(start, limit) ==> forall s :: !BytesLess(s, start) && BytesLess(s, limit) ==> |sep| <= |s|
    ensures !CanShorten(start, limit) ==> sep == start
  {
    sep := start;
    var minLength := if |start| < |limit| then |start| else |limit|;
    var diff := 0;
    while diff < minLength && start[diff] == limit[diff]
      invariant diff <= minLength && start[..diff] == limit[..diff]
      invariant Common(start, limit) == diff + Common(start[diff..], limit[diff..])
    {
      assert start[diff..][1..] == start[diff + 1..] && limit[diff..][1..] == limit[diff + 1..];
      diff := diff + 1;
    }
    if diff < minLength {
      var byte := start[diff];
      if byte < 0xff && byte + 1 < limit[diff] {
        sep := start[..diff] + [byte + 1];
        assert sep[..diff] == start[..diff];
        DiffersAt(start, sep, diff);
        DiffersAt(sep, limit, diff);
        forall s | !BytesLess(s, start) && BytesLess(s, limit) ensures |sep| <= |s| {
          NoShorterBetween(start, limit, diff, s);
        }
      }
    }
  }

  lemma {:induction false} NoShorterAfter(key: Bytes, i: nat, s: Bytes)
    requires i <= |key| && (forall k :: 0 <= k < i ==> key[k] == 0xff) && !BytesLess(s, key)
    ensures |s| >= if i < |key| then i + 1 else i
  {
    if i > 0 {
      assert s[0] == 0xff;
      NoShorterAfter(key[1..], i - 1, s[1..]);
    }
  }

  /** The key itself or after it, and no byte string at or after the key is shorter; it is
      unchanged only if every byte is the largest. */
  method FindShortSuccessor(key: Bytes) returns (r: Bytes)
    ensures (forall s :: !BytesLess(s, key) ==> |r| <= |s|) && |r| <= |key|
    ensures if forall k :: 0 <= k < |key| ==> key[k] == 0xff then r == key else BytesLess(key, r)
  {
    r := key;
    for i := 0 to |key|
      invariant r == key && forall k :: 0 <= k < i ==> key[k] == 0xff
    {
      var byte := key[i];
      if byte != 0xff {
        r := key[..i] + [byte + 1];
        assert r[..i] == key[..i];
        DiffersAt(key, r, i);
        forall s | !BytesLess(s, key) ensures |r| <= |s| {
          NoShorterAfter(key, i, s);
        }
        return;
      }
    }
    forall s | !BytesLess(s, key) ensures |r| <= |s| {
      NoShorterAfter(key, |key|, s);
    }
  }

  // ----- internal keys -----

  /** A user key followed by an eight-byte tag: sequence number and type. */
  type Key = k: Bytes | |k| >= 8 witness [0, 0, 0, 0, 0, 0, 0, 0]

  function UserKey(k: Key): Bytes {
    k[..|k| - 8]
  }

  function Tag(k: Key): nat {
    DecodeFixed64(k[|k| - 8..])
  }

  function MakeKey(user: Bytes, tag: nat): (k: Key)
    requires tag < 0x1_0000_0000_0000_0000
    ensures UserKey(k) == user && Tag(k) == tag
  {
    Fixed64RoundTrip(tag);
    assert (user + Fixed64(tag))[|user|..] == Fixed64(tag);
    user + Fixed64(tag)
  }

  /** Increasing user key, then decreasing tag. */
  predicate KeyLess(a: Key, b: Key) {
    BytesLess(UserKey(a), UserKey(b)) || (UserKey(a) == UserKey(b) && Tag(a) > Tag(b))
  }

  /** kMaxSequenceNumber with kValueTypeForSeek */
  const FIRST_TAG: nat := 0xFF_FFFF_FFFF_FFFF * 256 + 1

  /** An internal key between two others, its user key apart from the second one's whenever
      it is not the first key itself. */
  ghost predicate Separates(start: Key, sep: Key, limit: Key) {
    sep == start
    || (BytesLess(UserKey(start), UserKey(sep)) && BytesLess(UserKey(sep), UserKey(limit))
        && KeyLess(start, sep) && KeyLess(sep, limit))
  }

  method FindShortestKeySeparator(start: Key, limit: Key) returns (sep: Key)
    ensures Separates(start, sep, limit) && |sep| <= |start|
  {
    sep := start;
    var tmp := FindShortestSeparator(UserKey(start), UserKey(limit));
    if |tmp| < |UserKey(start)| && BytesLess(UserKey(start), tmp) {
      sep := MakeKey(tmp, FIRST_TAG);
    }
  }

  method FindShortKeySuccessor(key: Key) returns (r: Key)
    ensures |r| <= |key| && (r == key || KeyLess(key, r))
  {
    r := key;
    var tmp := FindShortSuccessor(UserKey(key));
    if |tmp| < |UserKey(key)| && BytesLess(UserKey(key), tmp) {
      r := MakeKey(tmp, FIRST_TAG);
    }
  }

  lemma KeyTotal(a: Key, b: Key)
    ensures KeyLess(a, b) || KeyLess(b, a) || (UserKey(a) == UserKey(b) && Tag(a) == Tag(b))
    ensures !(KeyLess(a, b) && KeyLess(b, a))
  {
    BytesTotal(UserKey(a), UserKey(b));
  }

  /** A seek key at or before a separator cannot be looking for the user key that the next
      block starts with, unless it is at or before the last key as well. */
  lemma NoKeyInGap(last: Key, sep: Key, next: Key, k: Key)
    requires Separates(last, sep, next) && KeyLess(last, next)
    requires !KeyLess(sep, k) && KeyLess(last, k)
    ensures UserKey(k) != UserKey(next) && KeyLess(k, next)
  {
    KeyTotal(last, k);
    if sep != last {
      BytesTotal(UserKey(sep), UserKey(k));
      BytesTotal(UserKey(sep), UserKey(next));
      if BytesLess(UserKey(k), UserKey(sep)) {
        BytesTransitive(UserKey(k), UserKey(sep), UserKey(next));
      }
      BytesTotal(UserKey(k), UserKey(next));
    }
  }
}
