/** The histogram checks of the test utilities
  * (support/tests/util/omm_histogram.cpp): the usage counts a bake reports
  * for its micromap array and for its index buffer must agree with the
  * counts recomputed from the descriptors and the indices.
  *
  * A gtest ASSERT that fails records the failure and leaves the enclosing
  * function; an EXPECT that fails records it and carries on. Each validator
  * returns whether any failure was recorded. */
module Histogram {
  import opened Bytes
  import opened OmmTypes
  import opened MathUtil
  import Parse

  /** The key of the counting map: (subdivision level, format). */
  datatype Key = Key(level: nat, format: nat)

  function DescKey(d: MicromapDesc): Key
  {
    Key(d.subdivisionLevel, d.format)
  }

  function UsageKey(u: UsageCount): Key
  {
    Key(u.subdivisionLevel, u.format)
  }

  /** The counting map of a multiset of keys: each key present, with its
    * multiplicity. */
  function Tally(ms: multiset<Key>): (m: map<Key, nat>)
    ensures forall k :: k in m <==> ms[k] > 0
    ensures forall k :: k in m ==> m[k] == ms[k]
  {
    map k | k in ms :: ms[k]
  }

  /** Counting one more key: insert it with 1, or increment its entry. */
  lemma TallyAdd(ms: multiset<Key>, k: Key)
    ensures Tally(ms + multiset{k}) == Tally(ms)[k := if k in Tally(ms) then Tally(ms)[k] + 1 else 1]
  {
    var a, b := Tally(ms + multiset{k}), Tally(ms)[k := if k in Tally(ms) then Tally(ms)[k] + 1 else 1];
    assert forall j :: j in a <==> j in b;
    assert forall j :: j in a ==> a[j] == b[j];
  }

  /** The keys of a run of micromap descriptors, in order. */
  function DescKeys(descs: seq<MicromapDesc>): (ks: seq<Key>)
    ensures |ks| == |descs|
    ensures forall i :: 0 <= i < |descs| ==> ks[i] == DescKey(descs[i])
  {
    if |descs| == 0 then [] else DescKeys(descs[..|descs| - 1]) + [DescKey(descs[|descs| - 1])]
  }

  // ---- The usage-count check shared by both validators ----

  /** Some usage entry before j with a non-zero count names key k: that
    * entry has erased k from the map. */
  predicate ErasedBefore(usage: seq<UsageCount>, j: nat, k: Key)
    requires j <= |usage|
  {
    exists i :: 0 <= i < j && usage[i].count > 0 && UsageKey(usage[i]) == k
  }

  /** What is left of the counting map once the entries before j were
    * consumed. */
  function Remaining(counts: map<Key, nat>, usage: seq<UsageCount>, j: nat): (m: map<Key, nat>)
    requires j <= |usage|
    ensures forall k :: k in m <==> k in counts && !ErasedBefore(usage, j, k)
    ensures forall k :: k in m ==> m[k] == counts[k]
  {
    map k | k in counts && !ErasedBefore(usage, j, k) :: counts[k]
  }

  /** Entry j passes: a zero count must find its key absent from what is
    * left of the map; a non-zero count must find it present with exactly
    * that count. */
  predicate EntryPasses(counts: map<Key, nat>, usage: seq<UsageCount>, j: nat)
    requires j < |usage|
  {
    var k := UsageKey(usage[j]);
    var present := k in counts && !ErasedBefore(usage, j, k);
    if usage[j].count == 0 then !present else present && counts[k] == usage[j].count
  }

  predicate EntriesPass(counts: map<Key, nat>, usage: seq<UsageCount>, n: nat)
    requires n <= |usage|
  {
    forall j :: 0 <= j < n ==> EntryPasses(counts, usage, j)
  }

  lemma EntriesPassStep(counts: map<Key, nat>, usage: seq<UsageCount>, n: nat)
    requires n < |usage|
    ensures EntriesPass(counts, usage, n + 1) <==> EntriesPass(counts, usage, n) && EntryPasses(counts, usage, n)
  {
  }

  /** The whole check: every entry passes and every counted key is
    * consumed by some non-zero entry. */
  predicate Consistent(counts: map<Key, nat>, usage: seq<UsageCount>)
  {
    EntriesPass(counts, usage, |usage|) && forall k :: k in counts ==> ErasedBefore(usage, |usage|, k)
  }

  lemma RemainingStep(counts: map<Key, nat>, usage: seq<UsageCount>, j: nat)
    requires j < |usage|
    ensures usage[j].count == 0 ==> Remaining(counts, usage, j + 1) == Remaining(counts, usage, j)
    ensures usage[j].count > 0 ==>
      Remaining(counts, usage, j + 1) == Remaining(counts, usage, j) - {UsageKey(usage[j])}
  {
    var a, b := Remaining(counts, usage, j + 1), Remaining(counts, usage, j);
    forall k
      ensures ErasedBefore(usage, j + 1, k) <==>
        ErasedBefore(usage, j, k) || (usage[j].count > 0 && UsageKey(usage[j]) == k)
    {
      if ErasedBefore(usage, j + 1, k) && !(usage[j].count > 0 && UsageKey(usage[j]) == k) {
        var i :| 0 <= i < j + 1 && usage[i].count > 0 && UsageKey(usage[i]) == k;
        assert i < j;
      }
    }
    if usage[j].count == 0 {
      assert forall k :: k in a <==> k in b;
    } else {
      var c := b - {UsageKey(usage[j])};
      assert forall k :: k in a <==> k in c;
    }
  }

  /** A map with a key is not of size 0. */
  lemma NonEmptyMap(m: map<Key, nat>, k: Key)
    requires k in m
    ensures |m| != 0
  {
    assert k in m.Keys;
    assert |m.Keys| == |m|;
  }

  /** A map of non-zero size has a key. */
  lemma SomeKey(m: map<Key, nat>) returns (k: Key)
    requires |m| != 0
    ensures k in m
  {
    assert |m.Keys| == |m|;
    k :| k in m.Keys;
  }

  /** The second loop of both validators: consume the usage entries against
    * the counting map, then require the map to be empty. */
  method CheckUsage(histogram: map<Key, nat>, usage: seq<UsageCount>, usageCount: nat) returns (failed: bool)
    requires usageCount <= |usage|
    ensures failed <==> !Consistent(histogram, usage[..usageCount])
  {
    ghost var hist := usage[..usageCount];
    var m := histogram;
    failed := false;
    for i := 0 to usageCount
      invariant m == Remaining(histogram, hist, i)
      invariant failed <==> !EntriesPass(histogram, hist, i)
    {
      var entry := usage[i];
      assert entry == hist[i];
      var key := UsageKey(entry);
      RemainingStep(histogram, hist, i);
      EntriesPassStep(histogram, hist, i);
      if entry.count == 0 {
        if key in m {
          assert !EntriesPass(histogram, hist, |hist|) by { assert !EntryPasses(histogram, hist, i); }
          return true;
        }
        continue;
      }
      if key !in m {
        assert !EntriesPass(histogram, hist, |hist|) by { assert !EntryPasses(histogram, hist, i); }
        return true;
      }
      if m[key] != entry.count {
        failed := true;
      }
      m := m - {key};
    }
    if |m| != 0 {
      var k := SomeKey(m);
      assert !ErasedBefore(hist, |hist|, k);
      failed := true;
    } else {
      forall k | k in histogram
        ensures ErasedBefore(hist, |hist|, k)
      {
        if !ErasedBefore(hist, |hist|, k) {
          NonEmptyMap(m, k);
        }
      }
    }
  }

  // ---- What a passing usage list says ----

  /** The multiset a usage list describes: each entry's key, `count` times. */
  function Described(usage: seq<UsageCount>): multiset<Key>
  {
    if |usage| == 0 then multiset{}
    else Described(usage[..|usage| - 1]) + multiset{}[UsageKey(usage[|usage| - 1]) := usage[|usage| - 1].count]
  }

  /** The sum of the counts of a usage list. */
  function TotalCount(usage: seq<UsageCount>): nat
  {
    if |usage| == 0 then 0 else TotalCount(usage[..|usage| - 1]) + usage[|usage| - 1].count
  }

  /** The described multiset holds as many keys as the counts add up to. */
  lemma {:induction false} DescribedSize(usage: seq<UsageCount>)
    ensures |Described(usage)| == TotalCount(usage)
  {
    if |usage| > 0 {
      var n := |usage| - 1;
      DescribedSize(usage[..n]);
      SingleKeySize(UsageKey(usage[n]), usage[n].count);
    }
  }

  lemma {:induction false} SingleKeySize(k: Key, c: nat)
    ensures |multiset{}[k := c]| == c
  {
    if c > 0 {
      SingleKeySize(k, c - 1);
      assert multiset{}[k := c] == multiset{}[k := c - 1] + multiset{k};
    }
  }

  /** No two entries with a non-zero count share a key. */
  predicate NonZeroKeysDistinct(usage: seq<UsageCount>)
  {
    forall i, j :: 0 <= i < j < |usage| && usage[i].count > 0 && usage[j].count > 0 ==>
      UsageKey(usage[i]) != UsageKey(usage[j])
  }

  /** A zero entry names a key that has no count, unless an earlier
    * non-zero entry already named it. */
  predicate ZeroEntriesAbsent(ms: multiset<Key>, usage: seq<UsageCount>)
  {
    forall j :: 0 <= j < |usage| && usage[j].count == 0 ==>
      ms[UsageKey(usage[j])] == 0 || ErasedBefore(usage, j, UsageKey(usage[j]))
  }

  lemma ErasedBeforePrefix(usage: seq<UsageCount>, n: nat, j: nat, k: Key)
    requires j <= n <= |usage|
    ensures ErasedBefore(usage[..n], j, k) <==> ErasedBefore(usage, j, k)
  {
    if ErasedBefore(usage, j, k) {
      var i :| 0 <= i < j && usage[i].count > 0 && UsageKey(usage[i]) == k;
      assert usage[..n][i] == usage[i];
    }
  }

  /** With distinct non-zero keys, the multiplicity of k in the described
    * multiset is the count of the entry naming k, or 0 if none does. */
  lemma {:induction false} DescribedAt(usage: seq<UsageCount>, k: Key)
    requires NonZeroKeysDistinct(usage)
    ensures forall i :: 0 <= i < |usage| && usage[i].count > 0 && UsageKey(usage[i]) == k ==>
      Described(usage)[k] == usage[i].count
    ensures !ErasedBefore(usage, |usage|, k) ==> Described(usage)[k] == 0
  {
    if |usage| > 0 {
      var n := |usage| - 1;
      var init, last := usage[..n], usage[n];
      assert NonZeroKeysDistinct(init) by {
        forall i, j | 0 <= i < j < |init| && init[i].count > 0 && init[j].count > 0
          ensures UsageKey(init[i]) != UsageKey(init[j])
        {
          assert init[i] == usage[i] && init[j] == usage[j];
        }
      }
      DescribedAt(init, k);
      ErasedBeforePrefix(usage, n, n, k);
      assert Described(usage)[k] == Described(init)[k] + (if UsageKey(last) == k then last.count else 0);
      forall i | 0 <= i < |usage| && usage[i].count > 0 && UsageKey(usage[i]) == k
        ensures Described(usage)[k] == usage[i].count
      {
        if i < n {
          assert init[i] == usage[i];
          assert !(last.count > 0 && UsageKey(last) == k);
        } else {
          assert !ErasedBefore(usage, n, k);
        }
      }
      if !ErasedBefore(usage, |usage|, k) {
        assert !(last.count > 0 && UsageKey(last) == k);
        assert !ErasedBefore(usage, n, k);
      }
    }
  }

  /** A usage list passes the check against the counts of ms exactly when its
    * non-zero entries name distinct keys, describe ms, and its zero entries
    * name only keys ms lacks or that were already consumed. */
  lemma ConsistentIffDescribes(ms: multiset<Key>, usage: seq<UsageCount>)
    ensures Consistent(Tally(ms), usage) <==>
      NonZeroKeysDistinct(usage) && Described(usage) == ms && ZeroEntriesAbsent(ms, usage)
  {
    var counts := Tally(ms);
    if Consistent(counts, usage) {
      forall i, j | 0 <= i < j < |usage| && usage[i].count > 0 && usage[j].count > 0
        ensures UsageKey(usage[i]) != UsageKey(usage[j])
      {
        assert EntryPasses(counts, usage, j);
      }
      forall k
        ensures Described(usage)[k] == ms[k]
      {
        DescribedAt(usage, k);
        if ErasedBefore(usage, |usage|, k) {
          var i :| 0 <= i < |usage| && usage[i].count > 0 && UsageKey(usage[i]) == k;
          assert EntryPasses(counts, usage, i);
        }
      }
      assert Described(usage) == ms;
      forall j | 0 <= j < |usage| && usage[j].count == 0
        ensures ms[UsageKey(usage[j])] == 0 || ErasedBefore(usage, j, UsageKey(usage[j]))
      {
        assert EntryPasses(counts, usage, j);
      }
    }
    if NonZeroKeysDistinct(usage) && Described(usage) == ms && ZeroEntriesAbsent(ms, usage) {
      forall j | 0 <= j < |usage|
        ensures EntryPasses(counts, usage, j)
      {
        var k := UsageKey(usage[j]);
        DescribedAt(usage, k);
      }
      forall k | k in counts
        ensures ErasedBefore(usage, |usage|, k)
      {
        DescribedAt(usage, k);
      }
    }
  }

  // ---- The two validators ----

  /** ValidateArrayHistogram: with a non-empty index buffer, the array
    * histogram must match the descriptors counted by (level, format). */
  method ValidateArrayHistogram(res: BakeResultDesc) returns (failed: bool)
    requires res.descArrayCount <= |res.descArray|
    requires res.descArrayHistogramCount <= |res.descArrayHistogram|
    ensures res.indexCount == 0 ==> !failed
    ensures res.indexCount != 0 ==> (failed <==> !ArrayHistogramOk(res))
  {
    if res.indexCount == 0 {
      return false;
    }
    var histogram: map<Key, nat> := map[];
    for idx := 0 to res.descArrayCount
      invariant histogram == Tally(multiset(DescKeys(res.descArray[..idx])))
    {
      var key := DescKey(res.descArray[idx]);
      assert res.descArray[..idx + 1][..idx] == res.descArray[..idx];
      TallyAdd(multiset(DescKeys(res.descArray[..idx])), key);
      if key !in histogram {
        histogram := histogram[key := 1];
      } else {
        histogram := histogram[key := histogram[key] + 1];
      }
    }
    failed := CheckUsage(histogram, res.descArrayHistogram, res.descArrayHistogramCount);
  }

  /** The index buffer holds indexCount entries of its format. */
  predicate IndexBufferCovers(res: BakeResultDesc)
  {
    res.indexCount * Parse.IndexEntryBytes(res.indexFormat) <= |res.indexBuffer|
  }

  lemma EntryReadable(res: BakeResultDesc, j: nat)
    requires IndexBufferCovers(res) && j < res.indexCount
    ensures Parse.IndexReadable(res, j)
  {
    MulLe(j + 1, res.indexCount, Parse.IndexEntryBytes(res.indexFormat));
  }

  /** Every non-special index among the first n refers to a descriptor. */
  predicate IndicesInRange(res: BakeResultDesc, n: nat)
    requires IndexBufferCovers(res) && n <= res.indexCount
  {
    forall j :: 0 <= j < n ==>
      (EntryReadable(res, j);
       Parse.GetOmmIndexForTriangleIndex(res, j) < res.descArrayCount)
  }

  /** The keys of the descriptors the first n indices refer to, special
    * (negative) indices skipped. */
  function UsedKeys(res: BakeResultDesc, n: nat): seq<Key>
    requires IndexBufferCovers(res) && n <= res.indexCount && res.descArrayCount <= |res.descArray|
    requires IndicesInRange(res, n)
  {
    if n == 0 then []
    else
      EntryReadable(res, n - 1);
      var idx := Parse.GetOmmIndexForTriangleIndex(res, n - 1);
      UsedKeys(res, n - 1) + (if idx < 0 then [] else [DescKey(res.descArray[idx])])
  }

  /** ValidateIndexHistogram: with a non-empty index buffer, every
    * non-special index must refer to a descriptor, and the index histogram
    * must match the referenced descriptors counted by (level, format). */
  method ValidateIndexHistogram(res: BakeResultDesc) returns (failed: bool)
    requires IndexBufferCovers(res) && res.descArrayCount <= |res.descArray|
    requires res.indexHistogramCount <= |res.indexHistogram|
    ensures res.indexCount == 0 ==> !failed
    ensures res.indexCount != 0 ==> (failed <==> !IndexHistogramOk(res))
  {
    if res.indexCount == 0 {
      return false;
    }
    var histogram: map<Key, nat> := map[];
    for ommIndex := 0 to res.indexCount
      invariant IndicesInRange(res, ommIndex)
      invariant histogram == Tally(multiset(UsedKeys(res, ommIndex)))
    {
      EntryReadable(res, ommIndex);
      var idx := Parse.GetOmmIndexForTriangleIndex(res, ommIndex);
      if idx < 0 {
        continue;
      }
      if idx >= res.descArrayCount {
        return true;
      }
      var key := DescKey(res.descArray[idx]);
      TallyAdd(multiset(UsedKeys(res, ommIndex)), key);
      if key !in histogram {
        histogram := histogram[key := 1];
      } else {
        histogram := histogram[key := histogram[key] + 1];
      }
    }
    failed := CheckUsage(histogram, res.indexHistogram, res.indexHistogramCount);
  }

  /** What the array check accepts. */
  predicate ArrayHistogramOk(res: BakeResultDesc)
    requires res.descArrayCount <= |res.descArray| && res.descArrayHistogramCount <= |res.descArrayHistogram|
  {
    Consistent(Tally(multiset(DescKeys(res.descArray[..res.descArrayCount]))),
               res.descArrayHistogram[..res.descArrayHistogramCount])
  }

  /** What the index check accepts. */
  predicate IndexHistogramOk(res: BakeResultDesc)
    requires IndexBufferCovers(res) && res.descArrayCount <= |res.descArray|
    requires res.indexHistogramCount <= |res.indexHistogram|
  {
    IndicesInRange(res, res.indexCount) &&
    Consistent(Tally(multiset(UsedKeys(res, res.indexCount))), res.indexHistogram[..res.indexHistogramCount])
  }

  /** An accepted array histogram counts every descriptor exactly once. */
  lemma ArrayHistogramTotal(res: BakeResultDesc)
    requires res.descArrayCount <= |res.descArray| && res.descArrayHistogramCount <= |res.descArrayHistogram|
    requires ArrayHistogramOk(res)
    ensures TotalCount(res.descArrayHistogram[..res.descArrayHistogramCount]) == res.descArrayCount
  {
    var hist := res.descArrayHistogram[..res.descArrayHistogramCount];
    ConsistentIffDescribes(multiset(DescKeys(res.descArray[..res.descArrayCount])), hist);
    DescribedSize(hist);
  }

  /** An accepted index histogram counts every non-special index exactly once. */
  lemma IndexHistogramTotal(res: BakeResultDesc)
    requires IndexBufferCovers(res) && res.descArrayCount <= |res.descArray|
    requires res.indexHistogramCount <= |res.indexHistogram|
    requires IndexHistogramOk(res)
    ensures TotalCount(res.indexHistogram[..res.indexHistogramCount]) == |UsedKeys(res, res.indexCount)|
  {
    var hist := res.indexHistogram[..res.indexHistogramCount];
    ConsistentIffDescribes(multiset(UsedKeys(res, res.indexCount)), hist);
    DescribedSize(hist);
  }

  /** ValidateHistograms: a null descriptor fails at once; otherwise both
    * checks run, and a failure in either is recorded. A descriptor that
    * passes has histograms whose counts add up to the number of
    * descriptors and to the number of non-special indices. */
  method ValidateHistograms(res: Option<BakeResultDesc>) returns (failed: bool)
    requires res.Some? ==> res.value.descArrayCount <= |res.value.descArray|
    requires res.Some? ==> res.value.descArrayHistogramCount <= |res.value.descArrayHistogram|
    requires res.Some? ==> IndexBufferCovers(res.value) && res.value.indexHistogramCount <= |res.value.indexHistogram|
    ensures res.None? ==> failed
    ensures res.Some? && res.value.indexCount == 0 ==> !failed
    ensures res.Some? && res.value.indexCount != 0 ==>
      (failed <==> !ArrayHistogramOk(res.value) || !IndexHistogramOk(res.value))
    ensures res.Some? && res.value.indexCount != 0 && !failed ==>
      TotalCount(res.value.descArrayHistogram[..res.value.descArrayHistogramCount]) == res.value.descArrayCount &&
      TotalCount(res.value.indexHistogram[..res.value.indexHistogramCount]) == |UsedKeys(res.value, res.value.indexCount)|
  {
    if res.None? {
      return true;
    }
    var arrayFailed := ValidateArrayHistogram(res.value);
    var indexFailed := ValidateIndexHistogram(res.value);
    failed := arrayFailed || indexFailed;
    if res.value.indexCount != 0 && !failed {
      ArrayHistogramTotal(res.value);
      IndexHistogramTotal(res.value);
    }
  }
}
