/** sorted(records, key=size, reverse=True)[:n], the ranking behind the three top-N
    intents (app.py:261, 269-270, 285-286). Python's sort is stable, and reverse=True keeps
    that stability: records of equal size stay in snapshot order. The model is an insertion
    sort; SortBySizeIsStableSort shows it is the one and only sequence that is ordered by
    non-increasing size and keeps every run of equal sizes in its original order. */
module Ranking {
  import opened Records

  predicate SortedBySizeDesc(s: seq<FileRecord>) {
    forall i, j :: 0 <= i < j < |s| ==> s[i].size >= s[j].size
  }

  /** The records of s whose size is v, in the order of s. */
  function WithSize(s: seq<FileRecord>, v: nat): (r: seq<FileRecord>)
    ensures |r| <= |s|
  {
    if s == [] then [] else (if s[0].size == v then [s[0]] else []) + WithSize(s[1..], v)
  }

  lemma {:induction false} WithSizeMember(s: seq<FileRecord>, v: nat, x: FileRecord)
    ensures x in WithSize(s, v) <==> x in s && x.size == v
  {
    if s != [] {
      WithSizeMember(s[1..], v, x);
      assert s == [s[0]] + s[1..];
    }
  }

  lemma {:induction false} WithSizeConcat(a: seq<FileRecord>, b: seq<FileRecord>, v: nat)
    ensures WithSize(a + b, v) == WithSize(a, v) + WithSize(b, v)
  {
    if a == [] {
      assert a + b == b;
    } else {
      var ab := a + b;
      assert ab[0] == a[0] && ab[1..] == a[1..] + b;
      WithSizeConcat(a[1..], b, v);
      var h := if a[0].size == v then [a[0]] else [];
      assert WithSize(ab, v) == h + WithSize(a[1..] + b, v);
      assert WithSize(a, v) == h + WithSize(a[1..], v);
    }
  }

  /** Filtering keeps the snapshot order: the records of size v that pass the filter
      come in the same order as they do among all the records of size v. */
  lemma {:induction false} FilterWithSize(s: seq<FileRecord>, p: FileRecord -> bool, v: nat)
    ensures WithSize(Filter(s, p), v) == Filter(WithSize(s, v), p)
  {
    if s != [] {
      FilterWithSize(s[1..], p, v);
      var hp := if p(s[0]) then [s[0]] else [];
      var hv := if s[0].size == v then [s[0]] else [];
      WithSizeConcat(hp, Filter(s[1..], p), v);
      FilterConcat(hv, WithSize(s[1..], v), p);
      assert WithSize(hp, v) == Filter(hv, p) by {
        if p(s[0]) { assert hp[1..] == []; }
        if s[0].size == v { assert hv[1..] == []; }
      }
    }
  }

  /** Places x in front of the first record that is not larger than it. */
  function Insert(x: FileRecord, l: seq<FileRecord>): (r: seq<FileRecord>)
    ensures |r| == |l| + 1
  {
    if l == [] || l[0].size <= x.size then [x] + l
    else [l[0]] + Insert(x, l[1..])
  }

  /** Inserting adds x and keeps every record of l. */
  lemma {:induction false} InsertMultiset(x: FileRecord, l: seq<FileRecord>)
    ensures multiset(Insert(x, l)) == multiset(l) + multiset{x}
  {
    if l != [] && l[0].size > x.size {
      InsertMultiset(x, l[1..]);
      assert l == [l[0]] + l[1..];
    }
  }

  /** The stable descending sort by size. */
  function SortBySize(s: seq<FileRecord>): (r: seq<FileRecord>)
    ensures |r| == |s|
  {
    if s == [] then [] else Insert(s[0], SortBySize(s[1..]))
  }

  /** The sort is a permutation. */
  lemma {:induction false} SortBySizeMultiset(s: seq<FileRecord>)
    ensures multiset(SortBySize(s)) == multiset(s)
  {
    if s != [] {
      SortBySizeMultiset(s[1..]);
      InsertMultiset(s[0], SortBySize(s[1..]));
      assert s == [s[0]] + s[1..];
    }
  }

  /** A record no smaller than the head of a sorted sequence can go in front of it. */
  lemma ConsSorted(h: FileRecord, tail: seq<FileRecord>)
    requires SortedBySizeDesc(tail)
    requires tail != [] ==> tail[0].size <= h.size
    ensures SortedBySizeDesc([h] + tail)
  {
    var r := [h] + tail;
    forall i, j | 0 <= i < j < |r| ensures r[i].size >= r[j].size {
      if i == 0 {
        assert r[j] == tail[j - 1];
        assert tail[0].size >= tail[j - 1].size;
      } else {
        assert r[i] == tail[i - 1] && r[j] == tail[j - 1];
      }
    }
  }

  lemma {:induction false} InsertHead(x: FileRecord, l: seq<FileRecord>)
    ensures Insert(x, l)[0] == x || (l != [] && Insert(x, l)[0] == l[0])
  {
  }

  lemma {:induction false} InsertSorted(x: FileRecord, l: seq<FileRecord>)
    requires SortedBySizeDesc(l)
    ensures SortedBySizeDesc(Insert(x, l))
  {
    if l == [] || l[0].size <= x.size {
      ConsSorted(x, l);
    } else {
      var l' := l[1..];
      assert SortedBySizeDesc(l');
      InsertSorted(x, l');
      InsertHead(x, l');
      if l' != [] {
        assert l'[0] == l[1];
      }
      ConsSorted(l[0], Insert(x, l'));
    }
  }

  /** Inserting x adds it in front of every record of its own size. */
  lemma {:induction false} InsertWithSize(x: FileRecord, l: seq<FileRecord>, v: nat)
    ensures WithSize(Insert(x, l), v) == (if x.size == v then [x] else []) + WithSize(l, v)
  {
    var hx := if x.size == v then [x] else [];
    assert WithSize([x], v) == hx by { assert [x][1..] == []; }
    if l == [] || l[0].size <= x.size {
      assert Insert(x, l) == [x] + l;
      WithSizeConcat([x], l, v);
    } else {
      var rest := l[1..];
      var h0 := if l[0].size == v then [l[0]] else [];
      assert WithSize([l[0]], v) == h0 by { assert [l[0]][1..] == []; }
      assert Insert(x, l) == [l[0]] + Insert(x, rest);
      assert l == [l[0]] + rest;
      InsertWithSize(x, rest, v);
      WithSizeConcat([l[0]], Insert(x, rest), v);
      WithSizeConcat([l[0]], rest, v);
      InsertWithSizeStep(h0, hx, WithSize(rest, v));
    }
  }

  /** At most one of two singleton-or-empty pieces is non-empty, so their order is moot. */
  lemma InsertWithSizeStep(h0: seq<FileRecord>, hx: seq<FileRecord>, w: seq<FileRecord>)
    requires h0 == [] || hx == []
    ensures h0 + (hx + w) == hx + (h0 + w)
  {
    if h0 == [] { assert h0 + (hx + w) == hx + w; assert h0 + w == w; }
    else { assert hx + (h0 + w) == h0 + w; assert hx + w == w; }
  }

  lemma {:induction false} SortBySizeSorted(s: seq<FileRecord>)
    ensures SortedBySizeDesc(SortBySize(s))
  {
    if s != [] {
      SortBySizeSorted(s[1..]);
      InsertSorted(s[0], SortBySize(s[1..]));
    }
  }

  /** Stability: the records of each size come out in snapshot order. */
  lemma {:induction false} SortBySizeStable(s: seq<FileRecord>, v: nat)
    ensures WithSize(SortBySize(s), v) == WithSize(s, v)
  {
    if s != [] {
      SortBySizeStable(s[1..], v);
      InsertWithSize(s[0], SortBySize(s[1..]), v);
    }
  }

  lemma SortedBelowHead(t: seq<FileRecord>, x: FileRecord)
    requires SortedBySizeDesc(t) && x in t
    ensures x.size <= t[0].size
  {
    var k :| 0 <= k < |t| && t[k] == x;
    if k > 0 {
      assert t[0].size >= t[k].size;
    }
  }

  /** The head of a sorted sequence is the largest record; if another sorted sequence has
      the same records of every size, its head has the same size. */
  lemma SameHeadSize(t: seq<FileRecord>, u: seq<FileRecord>)
    requires SortedBySizeDesc(t) && SortedBySizeDesc(u) && t != []
    requires forall v :: WithSize(t, v) == WithSize(u, v)
    ensures u != [] && u[0].size <= t[0].size
  {
    var a := t[0].size;
    WithSizeMember(t, a, t[0]);
    assert WithSize(u, a) == WithSize(t, a);
    WithSizeMember(u, a, t[0]);
    assert u != [];
    var b := u[0].size;
    WithSizeMember(u, b, u[0]);
    assert WithSize(t, b) == WithSize(u, b);
    WithSizeMember(t, b, u[0]);
    SortedBelowHead(t, u[0]);
  }

  /** Two sequences ordered by non-increasing size that agree on the records of every
      size, in order, are the same sequence. */
  lemma {:induction false} SortedUnique(t: seq<FileRecord>, u: seq<FileRecord>)
    requires SortedBySizeDesc(t) && SortedBySizeDesc(u)
    requires forall v :: WithSize(t, v) == WithSize(u, v)
    ensures t == u
    decreases |t| + |u|
  {
    if t == [] {
      if u != [] {
        SameHeadSize(u, t);
      }
    } else {
      SameHeadSize(t, u);
      SameHeadSize(u, t);
      var a := t[0].size;
      assert u[0].size == a;
      var wt, wu := WithSize(t, a), WithSize(u, a);
      assert wt == [t[0]] + WithSize(t[1..], a);
      assert wu == [u[0]] + WithSize(u[1..], a);
      assert wt == wu;
      assert t[0] == wt[0] == wu[0] == u[0];
      assert WithSize(t[1..], a) == wt[1..] == wu[1..] == WithSize(u[1..], a);
      forall v ensures WithSize(t[1..], v) == WithSize(u[1..], v) {
        if v != a {
          assert WithSize(t, v) == WithSize(t[1..], v);
          assert WithSize(u, v) == WithSize(u[1..], v);
          assert WithSize(t, v) == WithSize(u, v);
        }
      }
      SortedUnique(t[1..], u[1..]);
      assert t == [t[0]] + t[1..] && u == [u[0]] + u[1..];
    }
  }

  /** SortBySize(s) is ordered by size and keeps the records of every size in order. */
  lemma SortBySizeSpec(s: seq<FileRecord>)
    ensures SortedBySizeDesc(SortBySize(s))
    ensures forall v :: WithSize(SortBySize(s), v) == WithSize(s, v)
  {
    SortBySizeSorted(s);
    forall v ensures WithSize(SortBySize(s), v) == WithSize(s, v) {
      SortBySizeStable(s, v);
    }
  }

  /** Any sequence with those two properties is SortBySize(s). */
  lemma SortBySizeUnique(s: seq<FileRecord>, t: seq<FileRecord>)
    requires SortedBySizeDesc(t) && forall v :: WithSize(t, v) == WithSize(s, v)
    ensures t == SortBySize(s)
  {
    var r := SortBySize(s);
    SortBySizeSpec(s);
    forall v ensures WithSize(t, v) == WithSize(r, v) {
      assert WithSize(t, v) == WithSize(s, v);
    }
    SortedUnique(t, r);
  }

  /** The ranking is exactly Python's stable sort by size, descending: a sequence is
      SortBySize(s) if and only if it is ordered by non-increasing size and holds the
      records of every size in the order s has them. */
  lemma SortBySizeIsStableSort(s: seq<FileRecord>, t: seq<FileRecord>)
    ensures t == SortBySize(s) ==>
      SortedBySizeDesc(t) && forall v :: WithSize(t, v) == WithSize(s, v)
    ensures (SortedBySizeDesc(t) && forall v :: WithSize(t, v) == WithSize(s, v)) ==>
      t == SortBySize(s)
  {
    if SortedBySizeDesc(t) && forall v :: WithSize(t, v) == WithSize(s, v) {
      SortBySizeUnique(s, t);
    }
    var r := SortBySize(s);
    if t == r {
      SortBySizeSpec(s);
      forall v ensures WithSize(t, v) == WithSize(s, v) {
        assert WithSize(r, v) == WithSize(s, v);
      }
    }
  }

  /** sorted(s, key=size, reverse=True)[:n]. */
  function TopN(s: seq<FileRecord>, n: nat): (r: seq<FileRecord>)
    ensures |r| == if n < |s| then n else |s|
  {
    var sorted := SortBySize(s);
    if n < |sorted| then sorted[..n] else sorted
  }

  /** The top-n list is ordered by non-increasing size. */
  lemma TopNSorted(s: seq<FileRecord>, n: nat)
    ensures SortedBySizeDesc(TopN(s, n))
  {
    SortBySizeSorted(s);
  }

  /** The top-n list is drawn from s; it is all of s when n covers it, and empty for n = 0. */
  lemma TopNFromSnapshot(s: seq<FileRecord>, n: nat)
    ensures multiset(TopN(s, n)) <= multiset(s)
    ensures n >= |s| ==> multiset(TopN(s, n)) == multiset(s)
    ensures n == 0 ==> TopN(s, n) == []
  {
    var sorted := SortBySize(s);
    SortBySizeMultiset(s);
    var r := TopN(s, n);
    assert sorted == r + sorted[|r|..];
  }

  /** In a sorted sequence, whatever lies in the part after a cut is no larger than what
      lies before it. */
  lemma SortedCut(t: seq<FileRecord>, k: nat, x: FileRecord, y: FileRecord)
    requires SortedBySizeDesc(t) && k <= |t|
    requires x in t[..k] && y in t[k..]
    ensures y.size <= x.size
  {
    var i :| 0 <= i < k && t[..k][i] == x;
    var j :| 0 <= j < |t| - k && t[k..][j] == y;
    assert t[i] == x && t[k + j] == y;
  }

  /** Every record of s that is left out is no larger than any record kept. */
  lemma TopNSelectsLargest(s: seq<FileRecord>, n: nat, x: FileRecord, y: FileRecord)
    requires x in TopN(s, n)
    requires y in multiset(s) - multiset(TopN(s, n))
    ensures y.size <= x.size
  {
    var sorted := SortBySize(s);
    SortBySizeSorted(s);
    SortBySizeMultiset(s);
    var k := |TopN(s, n)|;
    assert TopN(s, n) == sorted[..k];
    assert sorted == sorted[..k] + sorted[k..];
    assert multiset(s) == multiset(sorted[..k]) + multiset(sorted[k..]);
    assert y in multiset(sorted[k..]);
    SortedCut(sorted, k, x, y);
  }

  /** Ties among the kept records are broken by snapshot order: the records of each size
      in the top-n list are the first ones of that size in s. */
  lemma TopNStable(s: seq<FileRecord>, n: nat, v: nat)
    ensures var w := WithSize(TopN(s, n), v);
      |w| <= |WithSize(s, v)| && w == WithSize(s, v)[..|w|]
  {
    var sorted := SortBySize(s);
    var r := TopN(s, n);
    assert sorted == r + sorted[|r|..];
    WithSizeConcat(r, sorted[|r|..], v);
    SortBySizeStable(s, v);
  }

  /** The filtered top-n replies break ties by snapshot order too: the records of size v
      they keep are the first records of size v in the snapshot that pass the filter. */
  lemma TopNOfFilterStable(s: seq<FileRecord>, p: FileRecord -> bool, n: nat, v: nat)
    ensures var w := WithSize(TopN(Filter(s, p), n), v);
      var all := Filter(WithSize(s, v), p);
      |w| <= |all| && w == all[..|w|]
  {
    TopNStable(Filter(s, p), n, v);
    FilterWithSize(s, p, v);
  }
}
