/**
 * Thumbnails: the down-sampling factor of `createImageThumbnail`, the choice
 * between the image and the video path, the cache key, and the byte-sized
 * LRU cache with a 24 MiB budget that `serveThumb` consults.
 *
 * Decoding, scaling and JPEG compression are not modelled: a `Codec`
 * supplies what they produce.
 */
module Thumbs {
  import opened Wrappers
  import opened Text
  import opened Media

  const THUMB_TARGET: nat := 240
  const CACHE_BUDGET: nat := 24 * 1024 * 1024

  /**
   * What the platform decoders report: the bounds of an image, the JPEG of an
   * image decoded with a sample factor and scaled, and the JPEG of a video's
   * frame at one second (`None` when anything on that path fails).
   */
  datatype Codec = Codec(
    bounds: Uri -> (int, int),
    decodeSampled: (Uri, nat) -> Option<seq<bv8>>,
    videoFrame: Uri -> Option<seq<bv8>>)

  predicate IsPowerOfTwo(n: nat) {
    n == 1 || (n > 1 && n % 2 == 0 && IsPowerOfTwo(n / 2))
  }

  /** The sample factor the doubling loop reaches from `sample`. */
  function SampleFrom(longSide: int, target: nat, sample: nat): (r: nat)
    requires sample >= 1
    decreases longSide - sample
  {
    if longSide / sample > target * 4 then SampleFrom(longSide, target, sample * 2) else sample
  }

  /** `var sample = 1; while (longSide / sample > target * 4) sample *= 2`. */
  function SampleFactor(longSide: int, target: nat): nat {
    SampleFrom(longSide, target, 1)
  }

  /**
   * The factor is the smallest power of two that brings the long side down to
   * at most four times the target: the factor itself does, half of it does not.
   */
  lemma {:induction false} SampleFromProperties(longSide: int, target: nat, sample: nat)
    requires sample >= 1 && IsPowerOfTwo(sample)
    requires sample == 1 || longSide / (sample / 2) > target * 4
    ensures var r := SampleFrom(longSide, target, sample);
            r >= sample && IsPowerOfTwo(r) && longSide / r <= target * 4
            && (r == 1 || longSide / (r / 2) > target * 4)
    decreases longSide - sample
  {
    if longSide / sample > target * 4 {
      QuotientAtLeastOne(longSide, sample);
      Doubling(sample);
      SampleFromProperties(longSide, target, sample * 2);
    }
  }

  /** Doubling a power of two gives a power of two, and halves back. */
  lemma Doubling(s: nat)
    requires IsPowerOfTwo(s)
    ensures IsPowerOfTwo(s * 2) && (s * 2) / 2 == s
  {
    assert (s * 2) % 2 == 0;
  }

  /** The doubling loop of `createImageThumbnail`. */
  method SampleSize(longSide: int, target: nat) returns (sample: nat)
    ensures sample == SampleFactor(longSide, target)
    ensures IsPowerOfTwo(sample) && longSide / sample <= target * 4
    ensures sample == 1 || longSide / (sample / 2) > target * 4
  {
    sample := 1;
    while longSide / sample > target * 4
      invariant sample >= 1
      invariant SampleFrom(longSide, target, sample) == SampleFactor(longSide, target)
      decreases longSide - sample
    {
      QuotientAtLeastOne(longSide, sample);
      sample := sample * 2;
    }
    SampleFromProperties(longSide, target, 1);
  }

  /** A positive quotient means the dividend is at least the divisor. */
  lemma QuotientAtLeastOne(a: int, b: nat)
    requires b >= 1 && a / b >= 1
    ensures a >= b
  {
  }

  /** Below four times the target no sampling happens; at 4000 pixels the factor for 240 is 8. */
  lemma SampleFactorExamples()
    ensures SampleFactor(960, THUMB_TARGET) == 1
    ensures SampleFactor(4000, THUMB_TARGET) == 8
  {
    assert SampleFrom(4000, 240, 8) == 8;
    assert SampleFrom(4000, 240, 4) == 8;
    assert SampleFrom(4000, 240, 2) == 8;
  }

  function Max(a: int, b: int): int {
    if a >= b then a else b
  }

  /**
   * The thumbnail of an item: the video path for `video/` types, otherwise an
   * image decoded with the sample factor, and nothing when the bounds are empty.
   */
  function Thumbnail(codec: Codec, item: SelectedItem): (r: Option<seq<bv8>>)
    ensures !StartsWith(item.mime, "video/") && (codec.bounds(item.uri).0 <= 0 || codec.bounds(item.uri).1 <= 0) ==> r == None
    ensures StartsWith(item.mime, "video/") ==> r == codec.videoFrame(item.uri)
  {
    if StartsWith(item.mime, "video/") then codec.videoFrame(item.uri)
    else
      var (w, h) := codec.bounds(item.uri);
      if w <= 0 || h <= 0 then None
      else codec.decodeSampled(item.uri, SampleFactor(Max(w, h), THUMB_TARGET))
  }

  /** An image thumbnail is decoded with a factor that brings the long side to at most 960 pixels. */
  lemma ImageThumbnailSampling(codec: Codec, item: SelectedItem)
    requires !StartsWith(item.mime, "video/")
    requires codec.bounds(item.uri).0 > 0 && codec.bounds(item.uri).1 > 0
    ensures var (w, h) := codec.bounds(item.uri);
            var s := SampleFactor(Max(w, h), THUMB_TARGET);
            Thumbnail(codec, item) == codec.decodeSampled(item.uri, s) && IsPowerOfTwo(s) && Max(w, h) / s <= 960
  {
    var (w, h) := codec.bounds(item.uri);
    SampleFromProperties(Max(w, h), THUMB_TARGET, 1);
  }

  /** The cache key of item `id`: `id:<id>@240`. */
  function ThumbKey(id: nat): string {
    "id:" + NatToString(id) + "@240"
  }

  /** Different items have different keys. */
  lemma ThumbKeyInjective(i: nat, j: nat)
    requires ThumbKey(i) == ThumbKey(j)
    ensures i == j
  {
    var a, b := NatToString(i), NatToString(j);
    var ka, kb := ThumbKey(i), ThumbKey(j);
    assert ka == "id:" + (a + "@240");
    assert kb == "id:" + (b + "@240");
    assert ka[3..] == a + "@240" && kb[3..] == b + "@240";
    assert |a| == |b|;
    assert a == (a + "@240")[..|a|];
    assert b == (b + "@240")[..|b|];
    NatToStringInjective(i, j);
  }

  /** Total bytes held: `sizeOf` is the length of each value. */
  function TotalSize(entries: seq<(string, seq<bv8>)>): nat {
    if entries == [] then 0 else |entries[0].1| + TotalSize(entries[1..])
  }

  predicate DistinctKeys(entries: seq<(string, seq<bv8>)>) {
    forall i, j :: 0 <= i < j < |entries| ==> entries[i].0 != entries[j].0
  }

  /** The value stored under `key`, if any. */
  function Lookup(entries: seq<(string, seq<bv8>)>, key: string): (r: Option<seq<bv8>>)
    ensures r.Some? <==> exists i :: 0 <= i < |entries| && entries[i].0 == key
    ensures r.Some? ==> exists i :: 0 <= i < |entries| && entries[i] == (key, r.value)
  {
    if entries == [] then None
    else if entries[0].0 == key then Some(entries[0].1)
    else
      var r := Lookup(entries[1..], key);
      assert forall i :: 1 <= i < |entries| ==> entries[i] == entries[1..][i - 1];
      r
  }

  /** The entries without `key`, in the same order. */
  function Remove(entries: seq<(string, seq<bv8>)>, key: string): (r: seq<(string, seq<bv8>)>)
    ensures forall e :: e in r <==> e in entries && e.0 != key
    ensures DistinctKeys(entries) ==> DistinctKeys(r)
  {
    if entries == [] then []
    else if entries[0].0 == key then Remove(entries[1..], key)
    else
      var rest := Remove(entries[1..], key);
      assert forall e :: e in rest ==> e in entries[1..];
      [entries[0]] + rest
  }

  /** `trimToSize`: drop the least recently used entries until the total fits. */
  function TrimTo(entries: seq<(string, seq<bv8>)>, maxSize: nat): (r: seq<(string, seq<bv8>)>)
    ensures TotalSize(r) <= maxSize
    ensures |r| <= |entries| && r == entries[|entries| - |r|..]
  {
    if TotalSize(entries) <= maxSize then entries else TrimTo(entries[1..], maxSize)
  }

  /** Trimming only drops entries. */
  lemma TrimToWithin(entries: seq<(string, seq<bv8>)>, maxSize: nat)
    ensures forall e :: e in TrimTo(entries, maxSize) ==> e in entries
  {
    var r := TrimTo(entries, maxSize);
    forall e | e in r
      ensures e in entries
    {
      var k :| 0 <= k < |r| && r[k] == e;
      assert r[k] == entries[|entries| - |r| + k];
    }
  }

  /** The newest entry survives trimming exactly when it fits the budget on its own. */
  lemma {:induction false} TrimKeepsNewest(entries: seq<(string, seq<bv8>)>, key: string, value: seq<bv8>, maxSize: nat)
    ensures var r := TrimTo(entries + [(key, value)], maxSize);
            (|value| <= maxSize ==> r != [] && r[|r| - 1] == (key, value))
            && (|value| > maxSize ==> r == [])
    decreases |entries|
  {
    var all := entries + [(key, value)];
    if entries == [] {
      assert all == [(key, value)];
      assert TotalSize(all) == |value|;
      if |value| > maxSize {
        assert all[1..] == [];
      }
    } else {
      assert all[1..] == entries[1..] + [(key, value)];
      TrimKeepsNewest(entries[1..], key, value, maxSize);
      if |value| > maxSize {
        TotalSizeLast(entries, key, value);
      }
    }
  }

  /** The last entry's bytes count towards the total. */
  lemma {:induction false} TotalSizeLast(entries: seq<(string, seq<bv8>)>, key: string, value: seq<bv8>)
    ensures TotalSize(entries + [(key, value)]) >= |value|
  {
    if entries != [] {
      assert (entries + [(key, value)])[1..] == entries[1..] + [(key, value)];
      TotalSizeLast(entries[1..], key, value);
    }
  }

  /**
   * `android.util.LruCache<String, ByteArray>` with `sizeOf` = byte length.
   * The entries are kept in access order, least recently used first.
   */
  class LruCache {
    var entries: seq<(string, seq<bv8>)>
    var size: nat
    const maxSize: nat

    ghost predicate Valid()
      reads this
    {
      DistinctKeys(entries) && size == TotalSize(entries) && size <= maxSize
    }

    constructor (maxSize: nat)
      ensures Valid() && this.maxSize == maxSize && entries == []
    {
      this.maxSize := maxSize;
      entries := [];
      size := 0;
    }

    /** `get`: a hit returns the stored value and makes it the most recently used. */
    method Get(key: string) returns (r: Option<seq<bv8>>)
      requires Valid()
      modifies this
      ensures Valid()
      ensures r == Lookup(old(entries), key)
      ensures r.None? ==> entries == old(entries)
      ensures r.Some? ==> entries == Remove(old(entries), key) + [(key, r.value)]
    {
      r := Lookup(entries, key);
      if r.Some? {
        var i :| 0 <= i < |entries| && entries[i] == (key, r.value);
        var rest := Remove(entries, key);
        RemoveSize(entries, i);
        TotalSizeAppend(rest, [(key, r.value)]);
        AppendFreshKey(rest, key, r.value);
        entries := rest + [(key, r.value)];
      }
    }

    /** `put`: replace any previous value, append as most recent, then trim to the budget. */
    method Put(key: string, value: seq<bv8>)
      requires Valid()
      modifies this
      ensures Valid()
      ensures entries == TrimTo(Remove(old(entries), key) + [(key, value)], maxSize)
    {
      var previous := Lookup(entries, key);
      PutSize(entries, key, value);
      entries := Remove(entries, key) + [(key, value)];
      size := size + |value| - (if previous.Some? then |previous.value| else 0);
      ghost var untrimmed := entries;
      while size > maxSize
        invariant size == TotalSize(entries) && DistinctKeys(entries)
        invariant TrimTo(entries, maxSize) == TrimTo(untrimmed, maxSize)
        decreases |entries|
      {
        TrimStep(entries, maxSize);
        size := size - |entries[0].1|;
        entries := entries[1..];
      }
    }

    /** `evictAll`. */
    method EvictAll()
      requires Valid()
      modifies this
      ensures Valid() && entries == []
    {
      entries := [];
      size := 0;
    }
  }

  lemma {:induction false} TotalSizeAppend(a: seq<(string, seq<bv8>)>, b: seq<(string, seq<bv8>)>)
    ensures TotalSize(a + b) == TotalSize(a) + TotalSize(b)
  {
    if a == [] {
      assert a + b == b;
    } else {
      assert (a + b)[1..] == a[1..] + b;
      TotalSizeAppend(a[1..], b);
    }
  }

  /** Appending an entry under a key no other entry has keeps the keys distinct. */
  lemma AppendFreshKey(rest: seq<(string, seq<bv8>)>, key: string, value: seq<bv8>)
    requires DistinctKeys(rest) && forall e :: e in rest ==> e.0 != key
    ensures DistinctKeys(rest + [(key, value)])
  {
    var all := rest + [(key, value)];
    forall i, j | 0 <= i < j < |all| ensures all[i].0 != all[j].0 {
      assert all[i] == rest[i];
      if j == |rest| {
        assert rest[i] in rest;
      }
    }
  }

  /** Replacing the value under `key` swaps the old value's bytes for the new one's. */
  lemma PutSize(entries: seq<(string, seq<bv8>)>, key: string, value: seq<bv8>)
    requires DistinctKeys(entries)
    ensures var previous := Lookup(entries, key);
            var r := Remove(entries, key) + [(key, value)];
            DistinctKeys(r)
            && TotalSize(r) == TotalSize(entries) + |value| - (if previous.Some? then |previous.value| else 0)
  {
    var previous := Lookup(entries, key);
    var rest := Remove(entries, key);
    if previous.Some? {
      var i :| 0 <= i < |entries| && entries[i] == (key, previous.value);
      RemoveSize(entries, i);
    } else {
      RemoveAbsent(entries, key);
    }
    TotalSizeAppend(rest, [(key, value)]);
    AppendFreshKey(rest, key, value);
  }

  /** One round of `trimToSize`: the eldest entry goes and its bytes leave the total. */
  lemma TrimStep(entries: seq<(string, seq<bv8>)>, maxSize: nat)
    requires DistinctKeys(entries) && TotalSize(entries) > maxSize
    ensures entries != [] && TrimTo(entries[1..], maxSize) == TrimTo(entries, maxSize)
    ensures DistinctKeys(entries[1..]) && TotalSize(entries[1..]) == TotalSize(entries) - |entries[0].1|
  {
    assert forall i :: 0 <= i < |entries[1..]| ==> entries[1..][i] == entries[i + 1];
  }

  /** Removing a key that is present at `i` takes its bytes off the total. */
  lemma {:induction false} RemoveSize(entries: seq<(string, seq<bv8>)>, i: nat)
    requires DistinctKeys(entries) && i < |entries|
    ensures TotalSize(Remove(entries, entries[i].0)) == TotalSize(entries) - |entries[i].1|
  {
    if i == 0 {
      RemoveAbsent(entries[1..], entries[0].0);
    } else {
      RemoveSize(entries[1..], i - 1);
    }
  }

  lemma {:induction false} RemoveAbsent(entries: seq<(string, seq<bv8>)>, key: string)
    requires forall i :: 0 <= i < |entries| ==> entries[i].0 != key
    ensures Remove(entries, key) == entries
  {
    if entries != [] {
      RemoveAbsent(entries[1..], key);
    }
  }
}
