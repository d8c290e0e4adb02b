/** The file metadata the analytics work on. A StoredObject is one entry of the bucket
    listing together with what head_object reports for it; a FileRecord is one element of
    the snapshot query_box builds before it answers (app.py:214-223). */
module Records {
  import opened Wrappers
  import opened Text
  import opened Calendar

  /** Key, Size and the UTC calendar date of LastModified from list_objects_v2, and the
      'uploader' user metadata from head_object (None when the object has none). */
  datatype StoredObject = StoredObject(key: string, size: nat, modified: Date, uploaderMeta: Option<string>)

  /** One entry of query_box's file_infos. */
  datatype FileRecord = FileRecord(key: string, size: nat, modified: Date, uploader: string)

  /** head['Metadata'].get('uploader', 'unknown'): the metadata value as stored. */
  function RawUploader(o: StoredObject): (u: string)
    ensures o.uploaderMeta.None? ==> u == "unknown"
    ensures o.uploaderMeta.Some? ==> u == o.uploaderMeta.value
  {
    o.uploaderMeta.GetOr("unknown")
  }

  /** The snapshot entry for one object: the uploader is lower-cased. */
  function ToRecord(o: StoredObject): FileRecord {
    FileRecord(o.key, o.size, o.modified, Lower(RawUploader(o)))
  }

  /** The snapshot as a whole: one record per listed object, in listing order. */
  function Snapshot(objects: seq<StoredObject>): (r: seq<FileRecord>)
    ensures |r| == |objects|
    ensures forall i :: 0 <= i < |objects| ==>
      r[i].key == objects[i].key && r[i].size == objects[i].size && r[i].modified == objects[i].modified
    ensures forall i :: 0 <= i < |r| ==> IsLowerText(r[i].uploader)
  {
    seq(|objects|, i requires 0 <= i < |objects| => ToRecord(objects[i]))
  }

  /** The file_infos.append loop of query_box. */
  method BuildSnapshot(objects: seq<StoredObject>) returns (infos: seq<FileRecord>)
    ensures infos == Snapshot(objects)
    ensures |infos| == |objects|
    ensures forall i :: 0 <= i < |objects| ==>
      infos[i].key == objects[i].key && infos[i].size == objects[i].size &&
      infos[i].modified == objects[i].modified && IsLowerText(infos[i].uploader) &&
      infos[i].uploader == Lower(RawUploader(objects[i]))
  {
    infos := [];
    for i := 0 to |objects|
      invariant infos == Snapshot(objects[..i])
    {
      var uploader := Lower(objects[i].uploaderMeta.GetOr("unknown"));
      infos := infos + [FileRecord(objects[i].key, objects[i].size, objects[i].modified, uploader)];
    }
    assert objects[..|objects|] == objects;
  }

  /** Elements of s satisfying p, in order (a list comprehension with a condition). */
  function Filter(s: seq<FileRecord>, p: FileRecord -> bool): (r: seq<FileRecord>)
    ensures |r| <= |s|
  {
    if s == [] then [] else (if p(s[0]) then [s[0]] else []) + Filter(s[1..], p)
  }

  /** The filtered sequence holds exactly the elements of s that satisfy p. */
  lemma {:induction false} FilterMembers(s: seq<FileRecord>, p: FileRecord -> bool)
    ensures forall x :: x in Filter(s, p) <==> x in s && p(x)
  {
    if s != [] {
      FilterMembers(s[1..], p);
      assert s == [s[0]] + s[1..];
    }
  }

  /** Filtering a concatenation filters each part and keeps them in order. */
  lemma {:induction false} FilterConcat(a: seq<FileRecord>, b: seq<FileRecord>, p: FileRecord -> bool)
    ensures Filter(a + b, p) == Filter(a, p) + Filter(b, p)
  {
    if a == [] {
      assert a + b == b;
    } else {
      var ab := a + b;
      assert ab[0] == a[0] && ab[1..] == a[1..] + b;
      FilterConcat(a[1..], b, p);
      var h := if p(a[0]) then [a[0]] else [];
      assert Filter(ab, p) == h + Filter(a[1..] + b, p);
    }
  }

  /** sum(1 for f in s if p(f)). */
  function CountWhere(s: seq<FileRecord>, p: FileRecord -> bool): (n: nat)
    ensures n <= |s|
  {
    |Filter(s, p)|
  }

  /** Counting with a weaker condition never counts fewer records. */
  lemma {:induction false} CountWhereMonotone(s: seq<FileRecord>, p: FileRecord -> bool, r: FileRecord -> bool)
    requires forall f :: f in s && p(f) ==> r(f)
    ensures CountWhere(s, p) <= CountWhere(s, r)
  {
    if s != [] {
      assert forall f :: f in s[1..] ==> f in s;
      CountWhereMonotone(s[1..], p, r);
    }
  }
}
