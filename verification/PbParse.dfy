/** A message's bytes as the decoder takes them apart, whoever wrote them: tags and what follows
    each, down to the end or a zero tag. */
module PbParse {
  import opened Coding
  import opened PbMessage
  import opened PbStream

  // ----- how far a value reaches -----

  /** A string behind its length. */
  ghost predicate Delimited(bs: Bytes, n: nat) {
    exists k: nat :: PrefixAt(bs, k, n)
  }

  ghost predicate PrefixAt(bs: Bytes, k: nat, n: nat) {
    Accepts(bs, k) && k + Taken(bs, k) == n <= |bs|
  }

  /** The first `n` bytes are a value of this kind. */
  ghost predicate Span(kind: Kind, bs: Bytes, n: nat) {
    match kind
    case Boolean => Accepts(bs, n)
    case Signed(_) => EndsVarint(bs, n) && n <= 10
    case Unsigned(_) => EndsVarint(bs, n) && n <= 10
    case ZigZag(_) => EndsVarint(bs, n) && n <= 10
    case Word32 => n == 4 <= |bs|
    case Word64 => n == 8 <= |bs|
    case _ => Delimited(bs, n)
  }

  /** ... or a value of a field that the message does not have, told by its wire type alone. */
  ghost predicate UnknownSpan(wire: nat, bs: Bytes, n: nat) {
    && (wire == 0 || wire == 1 || wire == 2 || wire == 5)
    && (wire == 0 ==> EndsVarint(bs, n))
    && (wire == 1 ==> n == 8 <= |bs|)
    && (wire == 2 ==> Delimited(bs, n))
    && (wire == 5 ==> n == 4 <= |bs|)
  }

  function LastDigits(bs: Bytes): nat {
    if bs == [] then 0 else (if bs[0] < 128 then 1 else 0) + LastDigits(bs[1..])
  }

  /** How many values a packed string holds. */
  function PackedCount(kind: Kind, bs: Bytes): nat {
    match kind
    case Word32 => |bs| / 4
    case Word64 => |bs| / 8
    case _ => LastDigits(bs)
  }

  predicate PackedWire(field: Field, wire: nat) {
    wire == 2 && Packed(field)
  }

  /** What a field of the message takes, and how many values that is. */
  ghost predicate FieldSpan(field: Field, wire: nat, bs: Bytes, n: nat, entries: nat) {
    if PackedWire(field, wire) then exists k: nat :: PrefixAt(bs, k, n) && entries == PackedCount(field.kind, bs[k..n])
    else Span(field.kind, bs, n) && entries == 1
  }

  lemma NoDigits()
    ensures LastDigits([]) == 0
  {
  }

  lemma {:induction false} OneDigitLess(bs: Bytes, n: nat)
    requires EndsVarint(bs, n)
    ensures LastDigits(bs) == 1 + LastDigits(bs[n..])
    decreases n
  {
    if n == 1 {
    } else {
      OneDigitLess(bs[1..], n - 1);
      assert bs[1..][n - 1..] == bs[n..];
    }
  }

  /** A value off the front of a packed string. */
  lemma OneLess(kind: Kind, bs: Bytes, n: nat)
    requires Packable(kind) && Span(kind, bs, n)
    ensures n <= |bs| && PackedCount(kind, bs) == 1 + PackedCount(kind, bs[n..])
  {
    hide LastDigits, Extends, Taken;
    if !kind.Word32? && !kind.Word64? {
      OneDigitLess(bs, n);
    }
  }

  lemma NoneLeft(kind: Kind)
    ensures PackedCount(kind, []) == 0
  {
  }

  // ----- the parse -----

  /** One tag, and the number of values behind it. */
  datatype Part = Part(tag: nat, wire: nat, entries: nat)

  predicate Known(fields: seq<Field>, tag: nat) {
    exists k :: 0 <= k < |fields| && fields[k].tag == tag
  }

  ghost predicate BodySpan(fields: seq<Field>, part: Part, bs: Bytes, n: nat) {
    && (forall k :: 0 <= k < |fields| && fields[k].tag == part.tag ==> FieldSpan(fields[k], part.wire, bs, n, part.entries))
    && (!Known(fields, part.tag) ==> UnknownSpan(part.wire, bs, n) && part.entries == 0)
  }

  /** A tag of `k` bytes, which is not zero, and `n` bytes behind it. */
  ghost predicate PartAt(fields: seq<Field>, bs: Bytes, part: Part, k: nat, n: nat) {
    && Accepts(bs, k) && k + n <= |bs| && part.wire < 8 && 0 < Taken(bs, k) == 8 * part.tag + part.wire
    && BodySpan(fields, part, bs[k..], n)
  }

  ghost predicate EndAt(bs: Bytes) {
    bs == [] || exists k: nat :: Accepts(bs, k) && Taken(bs, k) == 0
  }

  /** The first `m` bytes are these parts. */
  ghost predicate ParsesTo(fields: seq<Field>, bs: Bytes, parts: seq<Part>, m: nat)
    decreases |parts|
  {
    m <= |bs| &&
    if parts == [] then m == 0
    else exists m0: nat, k: nat, n: nat :: LastPart(fields, bs, parts, m, m0, k, n)
  }

  ghost predicate LastPart(fields: seq<Field>, bs: Bytes, parts: seq<Part>, m: nat, m0: nat, k: nat, n: nat)
    requires parts != []
    decreases |parts|, 0
  {
    && m == m0 + k + n <= |bs| && ParsesTo(fields, bs, parts[..|parts| - 1], m0)
    && PartAt(fields, bs[m0..], parts[|parts| - 1], k, n)
  }

  /** The parts of a whole message. */
  ghost predicate Parses(fields: seq<Field>, bs: Bytes, parts: seq<Part>) {
    exists m: nat :: ParsesTo(fields, bs, parts, m) && m <= |bs| && EndAt(bs[m..])
  }

  lemma AcceptsOnce(bs: Bytes, k: nat, l: nat)
    requires Accepts(bs, k) && Accepts(bs, l)
    ensures k == l
  {
    hide Extends, Taken;
    EndsOnce(bs, k, l);
  }

  lemma PrefixOnce(bs: Bytes, k: nat, n: nat, k': nat, n': nat)
    requires PrefixAt(bs, k, n) && PrefixAt(bs, k', n')
    ensures k == k' && n == n'
  {
    hide Accepts, Taken;
    AcceptsOnce(bs, k, k');
  }

  lemma DelimitedOnce(bs: Bytes, n: nat, n': nat)
    requires Delimited(bs, n) && Delimited(bs, n')
    ensures n == n'
  {
    var k: nat :| PrefixAt(bs, k, n);
    var k': nat :| PrefixAt(bs, k', n');
    PrefixOnce(bs, k, n, k', n');
  }

  lemma SpanOnce(kind: Kind, bs: Bytes, n: nat, n': nat)
    requires Span(kind, bs, n) && Span(kind, bs, n')
    ensures n == n'
  {
    hide Delimited, Accepts, EndsVarint;
    match kind
    case Boolean => AcceptsOnce(bs, n, n');
    case Signed(_) => EndsOnce(bs, n, n');
    case Unsigned(_) => EndsOnce(bs, n, n');
    case ZigZag(_) => EndsOnce(bs, n, n');
    case Word32 =>
    case Word64 =>
    case _ => DelimitedOnce(bs, n, n');
  }

  lemma FieldSpanOnce(field: Field, wire: nat, bs: Bytes, n: nat, e: nat, n': nat, e': nat)
    requires FieldSpan(field, wire, bs, n, e) && FieldSpan(field, wire, bs, n', e')
    ensures n == n' && e == e'
  {
    hide Span, Accepts, Taken, PackedCount;
    if PackedWire(field, wire) {
      var k: nat :| PrefixAt(bs, k, n) && e == PackedCount(field.kind, bs[k..n]);
      var k': nat :| PrefixAt(bs, k', n') && e' == PackedCount(field.kind, bs[k'..n']);
      PrefixOnce(bs, k, n, k', n');
    } else {
      SpanOnce(field.kind, bs, n, n');
    }
  }

  lemma UnknownOnce(wire: nat, bs: Bytes, n: nat, n': nat)
    requires UnknownSpan(wire, bs, n) && UnknownSpan(wire, bs, n')
    ensures n == n'
  {
    hide Delimited, EndsVarint;
    if wire == 0 {
      EndsOnce(bs, n, n');
    } else if wire == 2 {
      DelimitedOnce(bs, n, n');
    }
  }

  lemma PartOnce(fields: seq<Field>, bs: Bytes, p: Part, k: nat, n: nat, p': Part, k': nat, n': nat)
    requires PartAt(fields, bs, p, k, n) && PartAt(fields, bs, p', k', n')
    ensures p == p' && k == k' && n == n'
  {
    hide Accepts, Taken, FieldSpan, UnknownSpan;
    AcceptsOnce(bs, k, k');
    assert p.tag == p'.tag && p.wire == p'.wire;
    if i :| 0 <= i < |fields| && fields[i].tag == p.tag {
      FieldSpanOnce(fields[i], p.wire, bs[k..], n, p.entries, n', p'.entries);
    } else {
      UnknownOnce(p.wire, bs[k..], n, n');
    }
  }

  lemma NothingBehindEnd(fields: seq<Field>, bs: Bytes, p: Part, k: nat, n: nat)
    requires PartAt(fields, bs, p, k, n)
    ensures !EndAt(bs)
  {
    hide Taken, Extends, BodySpan;
    if l: nat :| Accepts(bs, l) && Taken(bs, l) == 0 {
      AcceptsOnce(bs, k, l);
    }
  }

  /** Two parses of the same bytes go the same way as long as both go on. */
  lemma {:induction false} SameParts(fields: seq<Field>, bs: Bytes, p: seq<Part>, m: nat, q: seq<Part>, n: nat)
    requires ParsesTo(fields, bs, p, m) && ParsesTo(fields, bs, q, n) && |p| <= |q|
    ensures p == q[..|p|] && m <= n && (|p| == |q| ==> m == n)
    ensures |p| < |q| ==> m <= |bs| && !EndAt(bs[m..])
    decreases |p| + |q|
  {
    hide PartAt, EndAt;
    if |p| < |q| {
      var m0: nat, k: nat, l: nat :| LastPart(fields, bs, q, n, m0, k, l);
      SameParts(fields, bs, p, m, q[..|q| - 1], m0);
      assert q[..|q| - 1][..|p|] == q[..|p|];
      NothingBehindEnd(fields, bs[m0..], q[|q| - 1], k, l);
    } else if p != [] {
      var m0: nat, k: nat, l: nat :| LastPart(fields, bs, p, m, m0, k, l);
      var m1: nat, k': nat, l': nat :| LastPart(fields, bs, q, n, m1, k', l');
      SameParts(fields, bs, p[..|p| - 1], m0, q[..|q| - 1], m1);
      PartOnce(fields, bs[m0..], p[|p| - 1], k, l, q[|q| - 1], k', l');
      assert p == p[..|p| - 1] + [p[|p| - 1]] && q == q[..|q| - 1] + [q[|q| - 1]];
      assert q[..|q| - 1][..|p| - 1] == q[..|q| - 1] && q[..|p|] == q;
    }
  }

  /** Bytes have one parse at most. */
  lemma ParseIsUnique(fields: seq<Field>, bs: Bytes, p: seq<Part>, q: seq<Part>)
    requires Parses(fields, bs, p) && Parses(fields, bs, q)
    ensures p == q
  {
    hide ParsesTo, EndAt;
    var m: nat :| ParsesTo(fields, bs, p, m) && m <= |bs| && EndAt(bs[m..]);
    var n: nat :| ParsesTo(fields, bs, q, n) && n <= |bs| && EndAt(bs[n..]);
    if |p| <= |q| {
      SameParts(fields, bs, p, m, q, n);
      assert q[..|q|] == q;
    } else {
      SameParts(fields, bs, q, n, p, m);
    }
  }

  lemma NothingParsed(fields: seq<Field>, bs: Bytes)
    ensures ParsesTo(fields, bs, [], 0)
  {
  }

  lemma OneMorePart(fields: seq<Field>, bs: Bytes, parts: seq<Part>, m: nat, part: Part, k: nat, n: nat)
    requires ParsesTo(fields, bs, parts, m) && m <= |bs| && PartAt(fields, bs[m..], part, k, n)
    ensures ParsesTo(fields, bs, parts + [part], m + k + n)
  {
    hide BodySpan, Accepts, Taken;
    var more := parts + [part];
    assert more[..|more| - 1] == parts && more[|more| - 1] == part;
    assert LastPart(fields, bs, more, m + k + n, m, k, n);
  }

  // ----- required fields -----

  /** How many required fields come before field `k`. */
  ghost function RequiredBefore(fields: seq<Field>, k: nat): nat {
    |set i | 0 <= i < k && i < |fields| && fields[i].rule.Required?|
  }

  /** Each of the first 64 required fields was there. */
  ghost predicate HasRequired(fields: seq<Field>, parts: seq<Part>) {
    forall k :: 0 <= k < |fields| && fields[k].rule.Required? && RequiredBefore(fields, k) < 64 ==>
      exists i :: 0 <= i < |parts| && parts[i].tag == fields[k].tag
  }

  /** What the decoder demands of a message, besides its values. */
  ghost predicate Sound(fields: seq<Field>, bs: Bytes) {
    exists parts :: Parses(fields, bs, parts) && HasRequired(fields, parts) && FixedComplete(fields, parts)
  }

  /** A message that lacks a required field, or values of an array, is not sound. */
  lemma LackingIsUnsound(fields: seq<Field>, bs: Bytes, parts: seq<Part>)
    requires Parses(fields, bs, parts) && (!HasRequired(fields, parts) || !FixedComplete(fields, parts))
    ensures !Sound(fields, bs)
  {
    hide Parses, HasRequired, FixedComplete;
    if q :| Parses(fields, bs, q) && HasRequired(fields, q) && FixedComplete(fields, q) {
      ParseIsUnique(fields, bs, parts, q);
    }
  }

  // ----- fixed-count arrays -----

  ghost predicate OfFixed(fields: seq<Field>, k: nat, part: Part) {
    k < |fields| && fields[k].rule.Fixed? && fields[k].tag == part.tag
  }

  ghost predicate Met(fields: seq<Field>, part: Part) {
    exists k: nat :: OfFixed(fields, k, part)
  }

  /** Field `k` is the fixed-count array met last. */
  ghost predicate LastMet(fields: seq<Field>, parts: seq<Part>, k: nat)
    decreases |parts|
  {
    parts != [] &&
    var part := parts[|parts| - 1];
    if Met(fields, part) then OfFixed(fields, k, part) else LastMet(fields, parts[..|parts| - 1], k)
  }

  /** The values of field `k` since another fixed-count array was met. */
  ghost function Run(fields: seq<Field>, parts: seq<Part>, k: nat): nat
    decreases |parts|
  {
    if parts == [] then 0
    else
      var part, before := parts[|parts| - 1], Run(fields, parts[..|parts| - 1], k);
      if OfFixed(fields, k, part) then before + part.entries else if Met(fields, part) then 0 else before
  }

  /** Another fixed-count array comes after field `k`. */
  ghost predicate Leaves(fields: seq<Field>, before: seq<Part>, part: Part, k: nat) {
    LastMet(fields, before, k) && Met(fields, part) && !OfFixed(fields, k, part)
  }

  ghost predicate Full(fields: seq<Field>, parts: seq<Part>, k: nat) {
    k < |fields| && fields[k].rule.Fixed? && Run(fields, parts, k) == fields[k].rule.count
  }

  /** A fixed-count array is complete whenever another one comes ... */
  ghost predicate LeftComplete(fields: seq<Field>, parts: seq<Part>) {
    forall i, k: nat :: 0 <= i < |parts| && Leaves(fields, parts[..i], parts[i], k) ==> Full(fields, parts[..i], k)
  }

  /** ... and at the end. */
  ghost predicate FixedComplete(fields: seq<Field>, parts: seq<Part>) {
    LeftComplete(fields, parts) && forall k: nat :: LastMet(fields, parts, k) ==> Full(fields, parts, k)
  }

  /** What the decoder knows of the arrays: the one met last and how many values it has. */
  ghost predicate Counted(fields: seq<Field>, parts: seq<Part>, fixed: int, size: nat) {
    && LeftComplete(fields, parts) && -1 <= fixed < |fields|
    && (forall k: nat :: LastMet(fields, parts, k) <==> k == fixed)
    && (fixed >= 0 ==> fields[fixed].rule.Fixed? && Run(fields, parts, fixed) == size)
  }

  lemma {:induction false} RunIsZero(fields: seq<Field>, parts: seq<Part>, k: nat)
    requires !LastMet(fields, parts, k)
    ensures Run(fields, parts, k) == 0
    decreases |parts|
  {
    if parts != [] && !Met(fields, parts[|parts| - 1]) {
      RunIsZero(fields, parts[..|parts| - 1], k);
    }
  }

  /** What a field does to the array met last. */
  predicate CountsOn(fields: seq<Field>, at: nat, entries: nat, fixed: int, size: nat, fixed': int, size': nat)
    requires at < |fields| && -1 <= fixed < |fields| && (fixed >= 0 ==> fields[fixed].rule.Fixed?)
  {
    if !fields[at].rule.Fixed? then fixed' == fixed && size' == size
    else
      && fixed' == at && (fixed != at && fixed >= 0 ==> size == fields[fixed].rule.count)
      && size' == if fixed == at then size + entries else entries
  }

  lemma NothingCounted(fields: seq<Field>)
    ensures Counted(fields, [], -1, 0)
  {
  }

  lemma AtMostOne(fields: seq<Field>, at: nat, part: Part)
    requires at < |fields| && part.tag == fields[at].tag && forall i, j :: 0 <= i < j < |fields| ==> fields[i].tag != fields[j].tag
    ensures forall k: nat :: OfFixed(fields, k, part) <==> k == at && fields[at].rule.Fixed?
    ensures Met(fields, part) <==> fields[at].rule.Fixed?
  {
    if fields[at].rule.Fixed? {
      assert OfFixed(fields, at, part);
    }
  }

  lemma CountedNext(fields: seq<Field>, parts: seq<Part>, fixed: int, size: nat, at: nat, part: Part, fixed': int, size': nat)
    requires Counted(fields, parts, fixed, size) && at < |fields| && part.tag == fields[at].tag
    requires forall i, j :: 0 <= i < j < |fields| ==> fields[i].tag != fields[j].tag
    requires CountsOn(fields, at, part.entries, fixed, size, fixed', size')
    ensures Counted(fields, parts + [part], fixed', size')
  {
    hide LastMet, Run, Met, OfFixed;
    AtMostOne(fields, at, part);
    LastOne(fields, parts, part);
    if fields[at].rule.Fixed? && fixed != at {
      RunIsZero(fields, parts, at);
    }
    LeftBehind(fields, parts, part);
  }

  lemma LastOne(fields: seq<Field>, parts: seq<Part>, part: Part)
    ensures
      forall k: nat :: LastMet(fields, parts + [part], k) <==> if Met(fields, part) then OfFixed(fields, k, part) else LastMet(fields, parts, k)
    ensures
      forall k: nat :: Run(fields, parts + [part], k) ==
        if OfFixed(fields, k, part) then Run(fields, parts, k) + part.entries else if Met(fields, part) then 0 else Run(fields, parts, k)
  {
    assert (parts + [part])[..|parts|] == parts;
  }

  lemma LeftBehind(fields: seq<Field>, parts: seq<Part>, part: Part)
    requires LeftComplete(fields, parts) && forall k: nat :: Leaves(fields, parts, part, k) ==> Full(fields, parts, k)
    ensures LeftComplete(fields, parts + [part])
  {
    hide Leaves, Full;
    var more := parts + [part];
    forall i, k: nat | 0 <= i < |more| && Leaves(fields, more[..i], more[i], k) ensures Full(fields, more[..i], k) {
      if i == |parts| {
        assert more[..i] == parts && more[i] == part;
      } else {
        assert more[..i] == parts[..i] && more[i] == parts[i];
      }
    }
  }

  lemma CountedUnknown(fields: seq<Field>, parts: seq<Part>, fixed: int, size: nat, part: Part)
    requires Counted(fields, parts, fixed, size) && !Known(fields, part.tag)
    ensures Counted(fields, parts + [part], fixed, size)
  {
    hide LastMet, Run;
    assert !Met(fields, part);
    LastOne(fields, parts, part);
    LeftBehind(fields, parts, part);
  }

  lemma CountedEnds(fields: seq<Field>, parts: seq<Part>, fixed: int, size: nat)
    requires Counted(fields, parts, fixed, size)
    ensures FixedComplete(fields, parts) <==> (fixed >= 0 ==> size == fields[fixed].rule.count)
  {
    hide Run, LastMet;
    if fixed >= 0 {
      assert LastMet(fields, parts, fixed);
    }
  }

  /** A field the message does not have. */
  ghost predicate UnknownAt(fields: seq<Field>, bs: Bytes, k: nat, n: nat) {
    && Accepts(bs, k) && k + n <= |bs| && Taken(bs, k) > 0
    && !Known(fields, Taken(bs, k) / 8) && UnknownSpan(Taken(bs, k) % 8, bs[k..], n)
  }
}
