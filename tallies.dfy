/** The analytics endpoints that walk the whole listing: the per-extension and
    per-uploader counts (count_by_type, uploads_by_user), the byte sums (storage_by_date,
    total_storage) and the dashboard, which does all three in one pass. The byte sums are
    the integers accumulated before the division into gigabytes. */
module Tallies {
  import opened Text
  import opened Calendar
  import opened Records

  // ---------------------------------------------------------------- counting maps

  /** counts[k] += 1 on a defaultdict(int). */
  function Increment(m: map<string, nat>, k: string): map<string, nat> {
    m[k := (if k in m then m[k] else 0) + 1]
  }

  /** The counts of a sequence of labels, accumulated front to back. */
  function Tally(xs: seq<string>): (r: map<string, nat>)
    ensures forall k :: k in r ==> 1 <= r[k] <= |xs|
  {
    if xs == [] then map[] else Increment(Tally(xs[..|xs| - 1]), xs[|xs| - 1])
  }

  lemma TallySnoc(xs: seq<string>, x: string)
    ensures Tally(xs + [x]) == Increment(Tally(xs), x)
  {
    assert (xs + [x])[..|xs|] == xs;
  }

  /** Every label that occurs is a key, and its count is the number of its occurrences. */
  lemma {:induction false} TallyCounts(xs: seq<string>)
    ensures forall k :: k in Tally(xs) <==> k in xs
    ensures forall k :: k in Tally(xs) ==> Tally(xs)[k] == multiset(xs)[k]
  {
    if xs != [] {
      var init, last := xs[..|xs| - 1], xs[|xs| - 1];
      assert xs == init + [last];
      TallyCounts(init);
      assert multiset(xs) == multiset(init) + multiset{last};
    }
  }

  /** The sum of all values of a counting map. */
  ghost function MapSum(m: map<string, nat>): nat
    decreases m.Keys
  {
    if m.Keys == {} then 0
    else
      var k :| k in m.Keys;
      m[k] + MapSum(m - {k})
  }

  /** The sum does not depend on which key is taken out first. */
  lemma {:induction false} MapSumRemove(m: map<string, nat>, k: string)
    requires k in m
    ensures MapSum(m) == m[k] + MapSum(m - {k})
    decreases m.Keys
  {
    var j :| j in m.Keys && MapSum(m) == m[j] + MapSum(m - {j});
    if j != k {
      MapSumRemove(m - {j}, k);
      MapSumRemove(m - {k}, j);
      assert (m - {j}) - {k} == (m - {k}) - {j};
    }
  }

  lemma MapSumIncrement(m: map<string, nat>, k: string)
    ensures MapSum(Increment(m, k)) == MapSum(m) + 1
  {
    var r := Increment(m, k);
    MapSumRemove(r, k);
    if k in m {
      MapSumRemove(m, k);
      assert r - {k} == m - {k};
    } else {
      assert r - {k} == m;
    }
  }

  /** Every label is counted once: the counts add up to the number of labels. */
  lemma {:induction false} TallyTotal(xs: seq<string>)
    ensures MapSum(Tally(xs)) == |xs|
  {
    if xs != [] {
      TallyTotal(xs[..|xs| - 1]);
      MapSumIncrement(Tally(xs[..|xs| - 1]), xs[|xs| - 1]);
    }
  }

  // ---------------------------------------------------------------- extension buckets

  /** key.split('.')[-1]: the text after the last point, or all of key without one. */
  function LastSegment(key: string): (e: string)
    ensures '.' !in e
    ensures '.' !in key ==> e == key
  {
    if key == [] then []
    else if key[|key| - 1] == '.' then []
    else
      var init := key[..|key| - 1];
      assert key == init + [key[|key| - 1]];
      LastSegment(init) + [key[|key| - 1]]
  }

  /** The bucket count_by_type files a key under. */
  function Extension(key: string): string {
    if '.' in key then LastSegment(key) else "no_ext"
  }

  /** The last segment of some text, a point and a point-free w, is w. */
  lemma {:induction false} LastSegmentOf(pre: string, w: string)
    requires '.' !in w
    ensures LastSegment(pre + "." + w) == w
  {
    var key := pre + "." + w;
    if w != [] {
      var init := w[..|w| - 1];
      assert key[..|key| - 1] == pre + "." + init;
      assert key[|key| - 1] == w[|w| - 1];
      LastSegmentOf(pre, init);
      assert w == init + [w[|w| - 1]];
    }
  }

  /** A key with a point ends in that point and its bucket. */
  lemma {:induction false} EndsWithLastSegment(key: string)
    requires '.' in key
    ensures EndsWith(key, "." + LastSegment(key))
  {
    var n := |key|;
    if key[n - 1] != '.' {
      var init := key[..n - 1];
      assert key == init + [key[n - 1]];
      assert '.' in init;
      EndsWithLastSegment(init);
      var e := LastSegment(init);
      assert init[|init| - |"." + e|..] == "." + e;
      assert key[n - |"." + e| - 1..] == ("." + e) + [key[n - 1]];
    }
  }

  /** The query's extension filter, key.endswith('.' + ext), and the bucket agree for
      every extension the patterns can capture (non-empty, without a point): a key ends in
      .ext exactly when it has a point and ext is its bucket. */
  lemma ExtensionMatchesSuffix(key: string, ext: string)
    requires |ext| >= 1 && '.' !in ext
    ensures EndsWith(key, "." + ext) <==> '.' in key && Extension(key) == ext
  {
    if EndsWith(key, "." + ext) {
      var pre := key[..|key| - |ext| - 1];
      assert key == pre + "." + ext;
      assert key[|pre|] == '.';
      LastSegmentOf(pre, ext);
    }
    if '.' in key && Extension(key) == ext {
      EndsWithLastSegment(key);
    }
  }

  /** A key ending in ".no_ext" shares its bucket with every key without a point. */
  lemma NoExtBucketShared(stem: string, other: string)
    requires '.' !in other
    ensures Extension(stem + ".no_ext") == Extension(other) == "no_ext"
  {
    assert (stem + ".no_ext")[|stem|] == '.';
    assert '.' !in "no_ext";
    assert stem + "." + "no_ext" == stem + ".no_ext";
    LastSegmentOf(stem, "no_ext");
  }

  /** The bucket of every listed object, in listing order. */
  function Extensions(objects: seq<StoredObject>): (r: seq<string>)
    ensures |r| == |objects|
    ensures forall i :: 0 <= i < |objects| ==> r[i] == Extension(objects[i].key)
  {
    seq(|objects|, i requires 0 <= i < |objects| => Extension(objects[i].key))
  }

  /** The uploader metadata of every listed object, as stored (not lower-cased). */
  function Uploaders(objects: seq<StoredObject>): (r: seq<string>)
    ensures |r| == |objects|
    ensures forall i :: 0 <= i < |objects| ==> r[i] == RawUploader(objects[i])
  {
    seq(|objects|, i requires 0 <= i < |objects| => RawUploader(objects[i]))
  }

  /** One more object of the listing adds one bucket, one uploader and its size. */
  lemma ListingStep(objects: seq<StoredObject>, i: nat)
    requires i < |objects|
    ensures Extensions(objects[..i + 1]) == Extensions(objects[..i]) + [Extension(objects[i].key)]
    ensures Uploaders(objects[..i + 1]) == Uploaders(objects[..i]) + [RawUploader(objects[i])]
    ensures TotalBytes(objects[..i + 1]) == TotalBytes(objects[..i]) + objects[i].size
  {
    assert objects[..i + 1][..i] == objects[..i];
  }

  /** count_by_type: the number of objects in each extension bucket. */
  method CountByType(objects: seq<StoredObject>) returns (counts: map<string, nat>)
    ensures counts == Tally(Extensions(objects))
  {
    counts := map[];
    for i := 0 to |objects|
      invariant counts == Tally(Extensions(objects[..i]))
    {
      var ext := Extension(objects[i].key);
      counts := Increment(counts, ext);
      ListingStep(objects, i);
      TallySnoc(Extensions(objects[..i]), ext);
    }
    assert objects[..|objects|] == objects;
  }

  /** uploads_by_user: the number of objects per uploader metadata value. */
  method UploadsByUser(objects: seq<StoredObject>) returns (userCounts: map<string, nat>)
    ensures userCounts == Tally(Uploaders(objects))
  {
    userCounts := map[];
    for i := 0 to |objects|
      invariant userCounts == Tally(Uploaders(objects[..i]))
    {
      var uploader := RawUploader(objects[i]);
      userCounts := Increment(userCounts, uploader);
      ListingStep(objects, i);
      TallySnoc(Uploaders(objects[..i]), uploader);
    }
    assert objects[..|objects|] == objects;
  }

  /** Every object lands in exactly one extension bucket. */
  lemma ExtensionCountsTotal(objects: seq<StoredObject>)
    ensures MapSum(Tally(Extensions(objects))) == |objects|
  {
    TallyTotal(Extensions(objects));
  }

  /** Every object is counted for exactly one uploader. */
  lemma UploaderCountsTotal(objects: seq<StoredObject>)
    ensures MapSum(Tally(Uploaders(objects))) == |objects|
  {
    TallyTotal(Uploaders(objects));
  }

  // ---------------------------------------------------------------- byte sums

  /** The sum of the sizes of the objects that satisfy p; a selective sum never exceeds
      the total. */
  function SumSizes(objects: seq<StoredObject>, p: StoredObject -> bool): (r: nat)
    ensures r <= TotalBytes(objects)
  {
    if objects == [] then 0
    else
      var last := objects[|objects| - 1];
      SumSizes(objects[..|objects| - 1], p) + (if p(last) then last.size else 0)
  }

  /** sum(obj['Size'] for obj in contents): total_storage's byte count, which no single
      object's size exceeds. */
  function TotalBytes(objects: seq<StoredObject>): (r: nat)
    ensures forall i :: 0 <= i < |objects| ==> objects[i].size <= r
  {
    if objects == [] then 0
    else
      var init := objects[..|objects| - 1];
      assert forall i :: 0 <= i < |init| ==> init[i] == objects[i];
      TotalBytes(init) + objects[|objects| - 1].size
  }

  /** obj['LastModified'].date().isoformat() == date_str */
  function IsoDateIs(dateStr: string): StoredObject -> bool {
    (o: StoredObject) => IsoFormat(o.modified) == dateStr
  }

  function ModifiedOn(d: Date): StoredObject -> bool {
    (o: StoredObject) => o.modified == d
  }

  /** storage_by_date: the bytes of the objects last modified on the given date. */
  method StorageByDate(objects: seq<StoredObject>, dateStr: string) returns (totalBytes: nat)
    ensures totalBytes == SumSizes(objects, IsoDateIs(dateStr))
  {
    totalBytes := 0;
    for i := 0 to |objects|
      invariant totalBytes == SumSizes(objects[..i], IsoDateIs(dateStr))
    {
      if IsoFormat(objects[i].modified) == dateStr {
        totalBytes := totalBytes + objects[i].size;
      }
      assert objects[..i + 1][..i] == objects[..i];
    }
    assert objects[..|objects|] == objects;
  }

  /** dashboard: the extension buckets, the uploader counts and the total bytes, from one
      pass over the listing (which the page also shows as it is). */
  method Dashboard(objects: seq<StoredObject>)
    returns (counts: map<string, nat>, userCounts: map<string, nat>, totalBytes: nat)
    ensures counts == Tally(Extensions(objects))
    ensures userCounts == Tally(Uploaders(objects))
    ensures totalBytes == TotalBytes(objects)
  {
    counts, userCounts, totalBytes := map[], map[], 0;
    for i := 0 to |objects|
      invariant counts == Tally(Extensions(objects[..i]))
      invariant userCounts == Tally(Uploaders(objects[..i]))
      invariant totalBytes == TotalBytes(objects[..i])
    {
      var obj := objects[i];
      var ext := Extension(obj.key);
      counts := Increment(counts, ext);
      totalBytes := totalBytes + obj.size;
      var uploader := RawUploader(obj);
      userCounts := Increment(userCounts, uploader);
      ListingStep(objects, i);
      TallySnoc(Extensions(objects[..i]), ext);
      TallySnoc(Uploaders(objects[..i]), uploader);
    }
    assert objects[..|objects|] == objects;
  }

  /** total_storage counts every byte once: the bytes of the objects a condition selects
      and of those it does not add up to the total. */
  lemma {:induction false} SumSizesPartition(objects: seq<StoredObject>, p: StoredObject -> bool)
    ensures SumSizes(objects, p) + SumSizes(objects, (o: StoredObject) => !p(o)) == TotalBytes(objects)
  {
    if objects != [] {
      SumSizesPartition(objects[..|objects| - 1], p);
    }
  }

  /** Byte sums under conditions that agree on every object are equal. */
  lemma {:induction false} SumSizesAgree(objects: seq<StoredObject>, p: StoredObject -> bool, r: StoredObject -> bool)
    requires forall o :: o in objects ==> p(o) == r(o)
    ensures SumSizes(objects, p) == SumSizes(objects, r)
  {
    if objects != [] {
      var init := objects[..|objects| - 1];
      assert forall o :: o in init ==> o in objects;
      assert objects[|objects| - 1] in objects;
      SumSizesAgree(init, p, r);
    }
  }

  /** Asking for the isoformat of a date adds up exactly the objects of that day. */
  lemma StorageOnDate(objects: seq<StoredObject>, d: Date)
    ensures SumSizes(objects, IsoDateIs(IsoFormat(d))) == SumSizes(objects, ModifiedOn(d))
  {
    forall o: StoredObject
      ensures IsoDateIs(IsoFormat(d))(o) == ModifiedOn(d)(o)
    {
      if IsoFormat(o.modified) == IsoFormat(d) {
        IsoFormatInjective(o.modified, d);
      }
    }
    SumSizesAgree(objects, IsoDateIs(IsoFormat(d)), ModifiedOn(d));
  }

  /** A date string that is not ten characters long ("2024-1-5") matches no object. */
  lemma MisshapenDateSelectsNothing(objects: seq<StoredObject>, dateStr: string)
    requires |dateStr| != 10
    ensures SumSizes(objects, IsoDateIs(dateStr)) == 0
  {
    forall o: StoredObject
      ensures !IsoDateIs(dateStr)(o)
    {
      IsoFields(o.modified);
    }
    NothingSelected(objects, IsoDateIs(dateStr));
  }

  lemma {:induction false} NothingSelected(objects: seq<StoredObject>, p: StoredObject -> bool)
    requires forall o :: !p(o)
    ensures SumSizes(objects, p) == 0
  {
    if objects != [] {
      NothingSelected(objects[..|objects| - 1], p);
    }
  }
}
