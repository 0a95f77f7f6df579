/** The filter block: one Bloom filter for every 2 KB of table file. */
module FilterBlock {
  import opened Coding
  import opened BlockBuilder
  import Bloom

  /** kFilterBaseLg and kFilterBase */
  const BASE_LG: Byte := 11
  const BASE: nat := 2048

  /** What one filter must be: nothing for no keys, otherwise a Bloom filter of them. */
  ghost predicate GoodFilter(hash: Bloom.Hash, keys: seq<Bytes>, filter: Bytes) {
    if keys == [] then filter == [] else Bloom.FilterOf(hash, keys, filter)
  }

  /** Filter `i` lies between its offset and the next one, or the end. */
  ghost predicate FilterAt(hash: Bloom.Hash, groups: seq<seq<Bytes>>, offsets: seq<nat>, result: Bytes, i: nat)
    requires i < |groups| == |offsets|
  {
    var limit := if i + 1 < |offsets| then offsets[i + 1] else |result|;
    && offsets[i] <= limit <= |result|
    && GoodFilter(hash, groups[i], result[offsets[i]..limit])
  }

  class Builder {
    const hash: Bloom.Hash
    const bitsPerKey: nat
    const probes: Byte
    /** Flattened keys, and where each starts. */
    var keys: Bytes
    var start: seq<nat>
    var result: Bytes
    var filterOffsets: seq<nat>
    ghost var pending: seq<Bytes>
    ghost var groups: seq<seq<Bytes>>

    ghost predicate Valid()
      reads this
    {
      && 1 <= probes <= Bloom.MAX_PROBES
      && Flattens(keys, start, pending)
      && |groups| == |filterOffsets|
      && (forall i :: 0 <= i < |groups| ==> FilterAt(hash, groups, filterOffsets, result, i))
    }

    constructor (hash: Bloom.Hash, bitsPerKey: nat, probes: Byte)
      requires 1 <= probes <= Bloom.MAX_PROBES
      ensures Valid() && this.hash == hash && this.bitsPerKey == bitsPerKey && groups == [] && pending == [] && Load() == 0
    {
      this.hash, this.bitsPerKey, this.probes := hash, bitsPerKey, probes;
      keys, start, result, filterOffsets, pending, groups := [], [], [], [], [], [];
    }

    /** No less than the filter block will take up, but for its nine last bytes. */
    ghost function Load(): nat
      reads this
    {
      |result| + 4 * |filterOffsets| + |start| * (bitsPerKey + 16)
    }

    /** Keys added from now on go to the filter of the 2 KB that `blockOffset` falls in. */
    method StartBlock(blockOffset: nat)
      requires Valid() && blockOffset / BASE >= |groups|
      modifies this
      ensures Valid() && |groups| == blockOffset / BASE && |old(groups)| <= |groups|
      ensures |groups| == |old(groups)| ==> groups == old(groups) && pending == old(pending)
      ensures |groups| > |old(groups)| ==>
        pending == [] && groups == old(groups) + [old(pending)] + seq(|groups| - |old(groups)| - 1, _ => [])
      ensures Load() <= old(Load()) + 4 * (|groups| - |old(groups)|)
    {
      hide Load, Flattens, FilterAt;
      var filterIndex := blockOffset / BASE;
      while filterIndex > |filterOffsets|
        invariant Valid() && |old(groups)| <= |groups| <= filterIndex
        invariant |groups| == |old(groups)| ==> groups == old(groups) && pending == old(pending)
        invariant |groups| > |old(groups)| ==>
          pending == [] && groups == old(groups) + [old(pending)] + seq(|groups| - |old(groups)| - 1, _ => [])
        invariant Load() <= old(Load()) + 4 * (|groups| - |old(groups)|)
        decreases filterIndex - |filterOffsets|
      {
        GenerateFilter();
      }
    }

    method AddKey(key: Bytes)
      requires Valid()
      modifies this
      ensures Valid() && groups == old(groups) && pending == old(pending) + [key]
      ensures Load() == old(Load()) + bitsPerKey + 16
    {
      OneMore(|start|, bitsPerKey + 16);
      start := start + [|keys|];
      keys := keys + key;
      pending := pending + [key];
    }

    method GenerateFilter()
      requires Valid()
      modifies this
      ensures Valid() && groups == old(groups) + [old(pending)] && pending == [] && Load() <= old(Load()) + 4
    {
      var numKeys := |start|;
      if numKeys == 0 {
        OneMoreFilter(hash, groups, filterOffsets, result, [], pending);
        assert result + [] == result;
        filterOffsets := filterOffsets + [|result|];
        groups := groups + [pending];
        return;
      }
      var ends := start + [|keys|];
      var tmpKeys: seq<Bytes> := [];
      for i := 0 to numKeys
        invariant tmpKeys == pending[..i]
      {
        assert KeyAt(keys, start, i, pending[i]);
        tmpKeys := tmpKeys + [keys[ends[i]..ends[i + 1]]];
      }
      assert tmpKeys == pending;
      ghost var before := result;
      filterOffsets := filterOffsets + [|result|];
      result := Bloom.CreateFilter(hash, bitsPerKey, probes, tmpKeys, result);
      ghost var filter := result[|before|..];
      assert result == before + filter;
      groups := groups + [pending];
      OneMoreFilter(hash, old(groups), old(filterOffsets), before, filter, pending);
      Absorbed(numKeys, bitsPerKey, |filter| - 1);
      keys, start, pending := [], [], [];
    }

    /** Filters, their offsets, where the offsets start, and the encoding parameter. */
    method Finish() returns (contents: Bytes, ghost all: seq<seq<Bytes>>)
      requires Valid()
      modifies this
      ensures all == old(groups) + (if old(pending) == [] then [] else [old(pending)])
      ensures |contents| < LIMIT ==> EncodesFilters(hash, all, contents)
      ensures |contents| <= old(Load()) + 9
    {
      hide FilterAt, Fixed32, Flattens;
      assert start == [] <==> pending == [] by { SameCount(keys, start, pending); }
      if start != [] {
        GenerateFilter();
      }
      all := groups;
      var arrayOffset := |result|;
      contents := PutOffsets(result, filterOffsets);
      contents := contents + Fixed32(arrayOffset % LIMIT);
      contents := contents + [BASE_LG];
      if |contents| < LIMIT {
        OffsetsFit(hash, groups, filterOffsets, result);
        assert contents == result + Array(filterOffsets, |filterOffsets|) + (Fixed32(|result|) + [BASE_LG]);
        assert EncodesFiltersWith(hash, all, filterOffsets, result, contents);
      }
    }
  }

  lemma OneMore(n: nat, x: nat)
    ensures (n + 1) * x == n * x + x
  {
  }

  lemma Absorbed(n: nat, bitsPerKey: nat, bytes: nat)
    requires n >= 1 && (bytes > 8 ==> 8 * (bytes - 1) < n * bitsPerKey)
    ensures bytes + 1 <= n * (bitsPerKey + 16)
  {
    assert n * (bitsPerKey + 16) == n * bitsPerKey + n * 16;
    assert n * bitsPerKey >= 0;
  }

  lemma SameCount(keys: Bytes, start: seq<nat>, pending: seq<Bytes>)
    requires Flattens(keys, start, pending)
    ensures |start| == |pending|
  {
  }

  method PutOffsets(result: Bytes, offsets: seq<nat>) returns (contents: Bytes)
    ensures |contents| == |result| + 4 * |offsets|
    ensures AllWords(offsets) ==> contents == result + Array(offsets, |offsets|)
  {
    hide Fixed32;
    contents := result;
    for n := 0 to |offsets|
      invariant |contents| == |result| + 4 * n
      invariant AllWords(offsets) ==> contents == result + Array(offsets, n)
    {
      contents := contents + Fixed32(offsets[n] % LIMIT);
    }
  }

  lemma OffsetsFit(hash: Bloom.Hash, groups: seq<seq<Bytes>>, offsets: seq<nat>, result: Bytes)
    requires |groups| == |offsets| && |result| < LIMIT
    requires forall i :: 0 <= i < |groups| ==> FilterAt(hash, groups, offsets, result, i)
    ensures AllWords(offsets)
  {
    forall k | 0 <= k < |offsets| ensures offsets[k] < LIMIT {
      assert FilterAt(hash, groups, offsets, result, k);
    }
  }

  /** The bytes of a finished filter block. */
  ghost predicate EncodesFilters(hash: Bloom.Hash, groups: seq<seq<Bytes>>, contents: Bytes) {
    exists offsets, result :: EncodesFiltersWith(hash, groups, offsets, result, contents)
  }

  ghost predicate EncodesFiltersWith(hash: Bloom.Hash, groups: seq<seq<Bytes>>, offsets: seq<nat>, result: Bytes, contents: Bytes) {
    && |groups| == |offsets| && AllWords(offsets) && |contents| < LIMIT
    && (forall i :: 0 <= i < |groups| ==> FilterAt(hash, groups, offsets, result, i))
    && |result| < LIMIT && contents == result + Array(offsets, |offsets|) + (Fixed32(|result|) + [BASE_LG])
  }

  lemma OneMoreFilter(hash: Bloom.Hash, groups: seq<seq<Bytes>>, offsets: seq<nat>, result: Bytes, filter: Bytes, keys: seq<Bytes>)
    requires |groups| == |offsets| && GoodFilter(hash, keys, filter)
    requires forall i :: 0 <= i < |groups| ==> FilterAt(hash, groups, offsets, result, i)
    ensures forall i :: 0 <= i <= |groups| ==> FilterAt(hash, groups + [keys], offsets + [|result|], result + filter, i)
  {
    hide GoodFilter;
    forall i | 0 <= i <= |groups| ensures FilterAt(hash, groups + [keys], offsets + [|result|], result + filter, i) {
      if i < |groups| {
        assert FilterAt(hash, groups, offsets, result, i);
        var limit := if i + 1 < |offsets| then offsets[i + 1] else |result|;
        assert (result + filter)[offsets[i]..limit] == result[offsets[i]..limit];
      } else {
        assert (result + filter)[|result|..|result + filter|] == filter;
      }
    }
  }

  /** `start[i]` is where key `i` begins; it ends where the next one begins. */
  ghost predicate Flattens(keys: Bytes, start: seq<nat>, pending: seq<Bytes>) {
    |start| == |pending|
    && (pending == [] ==> keys == [])
    && forall i :: 0 <= i < |start| ==> KeyAt(keys, start, i, pending[i])
  }

  ghost predicate KeyAt(keys: Bytes, start: seq<nat>, i: nat, key: Bytes)
    requires i < |start|
  {
    var limit := if i + 1 < |start| then start[i + 1] else |keys|;
    start[i] <= limit <= |keys| && keys[start[i]..limit] == key
  }

  // ----- reading -----

  lemma FoundFilters(hash: Bloom.Hash, groups: seq<seq<Bytes>>, offsets: seq<nat>, result: Bytes, contents: Bytes)
    requires EncodesFiltersWith(hash, groups, offsets, result, contents)
    ensures |contents| == |result| + 4 * |groups| + 5 && contents[|contents| - 1] == BASE_LG
    ensures DecodeFixed32(contents[|contents| - 5..]) == |result|
    ensures contents[..|result|] == result
  {
    hide Fixed32, DecodeFixed32, FilterAt;
    assert contents[|contents| - 5..] == Fixed32(|result|) + [BASE_LG];
    Fixed32RoundTrip(|result|, [BASE_LG]);
  }

  /** Offset `i` as the reader finds it; after the last one comes the end of the filters. */
  lemma FoundOffset(hash: Bloom.Hash, groups: seq<seq<Bytes>>, offsets: seq<nat>, result: Bytes, contents: Bytes, i: nat)
    requires EncodesFiltersWith(hash, groups, offsets, result, contents) && i <= |groups|
    ensures |result| + 4 * i + 4 <= |contents|
    ensures DecodeFixed32(contents[|result| + 4 * i..]) == if i < |groups| then offsets[i] else |result|
  {
    hide Fixed32, DecodeFixed32, FilterAt;
    var tail := contents[|result| + 4 * i..];
    if i < |groups| {
      ArrayAt(offsets, |offsets|, i);
      assert Array(offsets, |offsets|)[4 * i..] + (Fixed32(|result|) + [BASE_LG]) == tail;
      assert tail == Fixed32(offsets[i]) + tail[4..];
      Fixed32RoundTrip(offsets[i], tail[4..]);
    } else {
      assert tail == Fixed32(|result|) + [BASE_LG];
      Fixed32RoundTrip(|result|, [BASE_LG]);
    }
  }

  class Reader {
    const hash: Bloom.Hash
    const data: Bytes
    const baseLg: nat
    /** Where the offset array starts, and how many filters there are. */
    const offset: nat
    const num: nat

    ghost predicate Valid() {
      num > 0 ==> offset + 4 * num + 4 <= |data|
    }

    constructor (hash: Bloom.Hash, contents: Bytes, ghost groups: seq<seq<Bytes>>)
      ensures Valid() && this.hash == hash && data == contents
      ensures EncodesFilters(hash, groups, contents) ==> Reads(groups)
    {
      this.hash, data := hash, contents;
      var n := |contents|;
      var usable, last := false, 0;
      if n >= 5 {
        last := DecodeFixed32(contents[n - 5..]);
        usable := last <= n - 5;
      }
      baseLg := if n >= 5 then contents[n - 1] else 0;
      offset := last;
      num := if usable then (n - 5 - last) / 4 else 0;
      new;
      if EncodesFilters(hash, groups, contents) {
        var offsets, result :| EncodesFiltersWith(hash, groups, offsets, result, contents);
        FoundFilters(hash, groups, offsets, result, contents);
      }
    }

    /** The reader found its way into the filters of `groups`. */
    ghost predicate Reads(groups: seq<seq<Bytes>>) {
      && EncodesFilters(hash, groups, data) && num == |groups| && baseLg == BASE_LG
      && exists offsets, result :: EncodesFiltersWith(hash, groups, offsets, result, data) && offset == |result|
    }

    /** False only for a key that is not among those of the 2 KB at `blockOffset`. */
    method KeyMayMatch(blockOffset: nat, key: Bytes, ghost groups: seq<seq<Bytes>>) returns (r: bool)
      requires Valid()
      ensures Reads(groups) && blockOffset / BASE < |groups| && key in groups[blockOffset / BASE] ==> r
      ensures Reads(groups) && blockOffset / BASE < |groups| && groups[blockOffset / BASE] == [] ==> !r
      ensures Reads(groups) && blockOffset / BASE >= |groups| ==> r
    {
      hide DecodeFixed32;
      var index := blockOffset / Power(baseLg);
      ghost var good := Reads(groups);
      assert Power(11) == BASE by { PowerOfBase(); }
      if index < num {
        var start := DecodeFixed32(data[offset + 4 * index..]);
        var limit := DecodeFixed32(data[offset + 4 * index + 4..]);
        if good {
          var offsets, result :| EncodesFiltersWith(hash, groups, offsets, result, data) && offset == |result|;
          FindsFilter(hash, groups, offsets, result, data, index, start, limit);
        }
        if start <= limit && limit <= offset {
          var filter := data[start..limit];
          r := Bloom.KeyMayMatch(hash, key, filter);
          if good && key in groups[index] {
            Bloom.KeysPass(hash, groups[index], filter, key);
          }
          return;
        } else if start == limit {
          return false;
        }
      }
      return true;
    }
  }

  lemma PowerOfBase()
    ensures Power(11) == BASE
  {
    assert Power(8) == 256 by {
      assert Power(4) == 16;
    }
  }

  lemma SameSlice(contents: Bytes, result: Bytes, start: nat, limit: nat)
    requires result <= contents && start <= limit <= |result|
    ensures contents[start..limit] == result[start..limit]
  {
    assert forall i :: 0 <= i < |result| ==> contents[i] == result[i];
  }

  lemma FilterThere(hash: Bloom.Hash, groups: seq<seq<Bytes>>, offsets: seq<nat>, result: Bytes, contents: Bytes, i: nat)
    requires EncodesFiltersWith(hash, groups, offsets, result, contents) && i < |groups|
    ensures |groups| == |offsets| && FilterAt(hash, groups, offsets, result, i)
  {
  }

  lemma FindsFilter(hash: Bloom.Hash, groups: seq<seq<Bytes>>, offsets: seq<nat>, result: Bytes, contents: Bytes, i: nat, start: nat, limit: nat)
    requires EncodesFiltersWith(hash, groups, offsets, result, contents) && i < |groups|
    requires |result| + 4 * i + 8 <= |contents|
    requires start == DecodeFixed32(contents[|result| + 4 * i..]) && limit == DecodeFixed32(contents[|result| + 4 * i + 4..])
    ensures start <= limit <= |result| <= |contents| && GoodFilter(hash, groups[i], contents[start..limit])
  {
    hide EncodesFiltersWith, GoodFilter, DecodeFixed32;
    FoundFilters(hash, groups, offsets, result, contents);
    FoundOffset(hash, groups, offsets, result, contents, i);
    FoundOffset(hash, groups, offsets, result, contents, i + 1);
    FilterThere(hash, groups, offsets, result, contents, i);
    SameSlice(contents, result, start, limit);
  }
}
