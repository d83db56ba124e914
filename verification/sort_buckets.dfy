/**
 The partitions of rsort4 in sort.c: where the keys of each bucket go, and why a bucket always
 has room for the key in hand when keys are moved around in cycles.
 */
module SortBuckets {
  import opened SortKey
  import opened SortOrder

  /** How many keys of s there are of each bucket. */
  function Counts(keys: seq<seq<int>>, s: seq<nat>, b: nat): (cnt: seq<nat>)
    ensures |cnt| == 257 && forall c | 0 <= c <= 256 :: cnt[c] == CountOf(keys, s, b, c)
  {
    seq(257, c requires 0 <= c < 257 => CountOf(keys, s, b, c))
  }

  function SumTo(cnt: seq<nat>, c: nat): nat
    requires c <= |cnt|
  {
    if c == 0 then 0 else SumTo(cnt, c - 1) + cnt[c - 1]
  }

  lemma {:induction false} SumChange(cnt: seq<nat>, d: nat, x: nat, c: nat)
    requires d < |cnt| && c <= |cnt|
    ensures SumTo(cnt[d := x], c) + (if d < c then cnt[d] else 0) == SumTo(cnt, c) + (if d < c then x else 0)
  {
    if c > 0 {
      SumChange(cnt, d, x, c - 1);
    }
  }

  lemma {:induction false} SumGrows(cnt: seq<nat>, c: nat, d: nat)
    requires c < d <= |cnt|
    ensures SumTo(cnt, c) + cnt[c] <= SumTo(cnt, d)
  {
    if c < d - 1 {
      SumGrows(cnt, c, d - 1);
    }
  }

  lemma BucketRange(keys: seq<seq<int>>, x: nat, b: nat)
    requires GoodKeys(keys)
    ensures 0 <= Bucket(keys, x, b) <= 256
  {
  }

  lemma {:induction false} CountsSum(keys: seq<seq<int>>, s: seq<nat>, b: nat)
    requires GoodKeys(keys)
    ensures SumTo(Counts(keys, s, b), 257) == |s|
  {
    if s == [] {
      NoCounts(Counts(keys, s, b), 257);
    } else {
      var n := |s| - 1;
      CountsSum(keys, s[..n], b);
      BucketRange(keys, s[n], b);
      var cnt, d := Counts(keys, s[..n], b), Bucket(keys, s[n], b);
      assert Counts(keys, s, b) == cnt[d := cnt[d] + 1];
      SumChange(cnt, d, cnt[d] + 1, 257);
    }
  }

  lemma {:induction false} NoCounts(cnt: seq<nat>, c: nat)
    requires c <= |cnt| && forall d | 0 <= d < c :: cnt[d] == 0
    ensures SumTo(cnt, c) == 0
  {
    if c > 0 {
      NoCounts(cnt, c - 1);
    }
  }

  // ---- Where the buckets go -----------------------------------------------------------------------------

  /** The keys without a byte b go first, then the others by that byte. */
  function First(cnt: seq<nat>, lo: nat, c: nat): nat
    requires |cnt| == 257 && c <= 256
  {
    if c == 256 then lo else lo + cnt[256] + SumTo(cnt, c)
  }

  function Last(cnt: seq<nat>, lo: nat, c: nat): nat
    requires |cnt| == 257 && c <= 256
  {
    First(cnt, lo, c) + cnt[c]
  }

  /** The regions lie in lo..lo + n, where n is the sum of the counts, and do not overlap. */
  lemma RegionsApart(cnt: seq<nat>, lo: nat, c: nat, d: nat)
    requires |cnt| == 257 && c <= 256 && d <= 256
    ensures lo <= First(cnt, lo, c) && Last(cnt, lo, c) <= lo + SumTo(cnt, 257)
    ensures c == 256 && d < 256 ==> Last(cnt, lo, c) <= First(cnt, lo, d)
    ensures c < d < 256 ==> Last(cnt, lo, c) <= First(cnt, lo, d)
  {
    if c < 256 {
      SumGrows(cnt, c, 256);
    }
    if c < d {
      SumGrows(cnt, c, d);
    }
  }

  /** Every place is in some region. */
  lemma {:induction false} RegionAt(cnt: seq<nat>, lo: nat, i: nat, m: nat) returns (c: nat)
    requires |cnt| == 257 && m <= 256 && lo <= i < lo + cnt[256] + SumTo(cnt, m)
    ensures c <= 256 && First(cnt, lo, c) <= i < Last(cnt, lo, c)
  {
    if i < lo + cnt[256] {
      c := 256;
    } else if i < lo + cnt[256] + SumTo(cnt, m - 1) {
      c := RegionAt(cnt, lo, i, m - 1);
    } else {
      c := m - 1;
    }
  }

  // ---- Filling the regions --------------------------------------------------------------------------------

  /** part[c] keys of bucket c from the start of its region on are in place, and count[c] are missing. */
  predicate Filled(keys: seq<seq<int>>, v: seq<nat>, cnt: seq<nat>, count: seq<int>, part: seq<nat>, lo: nat, b: nat) {
    && |cnt| == |count| == |part| == 257 && lo + SumTo(cnt, 257) <= |v|
    && (forall c | 0 <= c <= 256 && cnt[c] == 0 :: count[c] == 0)
    && (forall c | 0 <= c <= 256 && cnt[c] > 0 :: count[c] >= 0 && part[c] + count[c] == Last(cnt, lo, c)
                                                  && First(cnt, lo, c) <= part[c])
    && (forall c | 0 <= c <= 256 && cnt[c] > 0 :: InBucket(keys, v, b, c, First(cnt, lo, c), part[c]))
  }

  predicate InBucket(keys: seq<seq<int>>, v: seq<nat>, b: nat, c: nat, p: nat, q: nat) {
    forall i | p <= i < q && i < |v| :: Bucket(keys, v[i], b) == c
  }

  /** The keys of the range with x in place of the one at h: the counts are theirs. */
  predicate Counted(keys: seq<seq<int>>, v: seq<nat>, cnt: seq<nat>, lo: nat, b: nat, h: nat, x: nat) {
    && |cnt| == 257 && lo + SumTo(cnt, 257) <= |v| && lo <= h < lo + SumTo(cnt, 257)
    && forall c | 0 <= c <= 256 :: CountOf(keys, v[h := x][lo..lo + SumTo(cnt, 257)], b, c) == cnt[c]
  }

  /** A region full of its own keys and another key of its bucket: more keys than the region is long. */
  lemma FullCount(keys: seq<seq<int>>, v: seq<nat>, cnt: seq<nat>, lo: nat, b: nat, h: nat, x: nat, d: nat)
    requires |cnt| == 257 && lo + SumTo(cnt, 257) <= |v| && lo <= h < lo + SumTo(cnt, 257) && d <= 256
             && Bucket(keys, x, b) == d
    requires !(First(cnt, lo, d) <= h < Last(cnt, lo, d))
             && InBucket(keys, v, b, d, First(cnt, lo, d), Last(cnt, lo, d))
    ensures CountOf(keys, v[h := x][lo..lo + SumTo(cnt, 257)], b, d) > cnt[d]
  {
    RegionsApart(cnt, lo, d, d);
    var n := SumTo(cnt, 257);
    var s := v[h := x][lo..lo + n];
    var p, q := First(cnt, lo, d) - lo, Last(cnt, lo, d) - lo;
    forall i | p <= i < q ensures Bucket(keys, s[i], b) == d {
      assert s[i] == v[lo + i];
    }
    CountBeyond(keys, s, b, d, p, q, h - lo);
  }

  lemma NeverFull(keys: seq<seq<int>>, v: seq<nat>, cnt: seq<nat>, lo: nat, b: nat, h: nat, x: nat, d: nat)
    requires Counted(keys, v, cnt, lo, b, h, x) && d <= 256 && Bucket(keys, x, b) == d
    requires !(First(cnt, lo, d) <= h < Last(cnt, lo, d))
    ensures !InBucket(keys, v, b, d, First(cnt, lo, d), Last(cnt, lo, d))
  {
    if InBucket(keys, v, b, d, First(cnt, lo, d), Last(cnt, lo, d)) {
      FullCount(keys, v, cnt, lo, b, h, x, d);
    }
  }

  /** There is a place left for the key in hand, which came from the next place of region c. */
  lemma HasRoom(keys: seq<seq<int>>, v: seq<nat>, cnt: seq<nat>, count: seq<int>, part: seq<nat>, lo: nat, b: nat,
                c: nat, x: nat)
    requires GoodKeys(keys) && Filled(keys, v, cnt, count, part, lo, b) && c <= 256 && cnt[c] > 0 && count[c] > 0
    requires Counted(keys, v, cnt, lo, b, part[c], x)
    ensures var d := Bucket(keys, x, b); 0 <= d <= 256 && cnt[d] > 0 && count[d] > 0 && part[d] < |v|
    ensures var d := Bucket(keys, x, b); d != c ==> part[d] != part[c]
  {
    BucketRange(keys, x, b);
    var d := Bucket(keys, x, b);
    RegionsApart(cnt, lo, c, d);
    RegionsApart(cnt, lo, d, c);
    var s := v[part[c] := x][lo..lo + SumTo(cnt, 257)];
    CountOne(keys, s, b, d, part[c] - lo);
    if d != c {
      NeverFull(keys, v, cnt, lo, b, part[c], x, d);
    }
  }

  lemma FillOne(keys: seq<seq<int>>, v: seq<nat>, cnt: seq<nat>, count: seq<int>, part: seq<nat>, lo: nat, b: nat,
                d: nat, x: nat)
    requires Filled(keys, v, cnt, count, part, lo, b) && d <= 256 && cnt[d] > 0 && count[d] > 0
             && Bucket(keys, x, b) == d && part[d] < |v|
    ensures Filled(keys, v[part[d] := x], cnt, count[d := count[d] - 1], part[d := part[d] + 1], lo, b)
  {
    var v', part' := v[part[d] := x], part[d := part[d] + 1];
    forall c | 0 <= c <= 256 && cnt[c] > 0 ensures InBucket(keys, v', b, c, First(cnt, lo, c), part'[c]) {
      RegionsApart(cnt, lo, c, d);
      RegionsApart(cnt, lo, d, c);
      assert InBucket(keys, v, b, c, First(cnt, lo, c), part[c]);
    }
  }

  /** A key of another bucket in the last region has no room in its own. */
  lemma Misplaced(keys: seq<seq<int>>, v: seq<nat>, cnt: seq<nat>, lo: nat, b: nat, i: nat, d: nat)
    requires |cnt| == 257 && lo <= i < Last(cnt, lo, 256) && i < |v| && d < 256 && Bucket(keys, v[i], b) == d
             && Counted(keys, v, cnt, lo, b, i, v[i])
    ensures !InBucket(keys, v, b, d, First(cnt, lo, d), Last(cnt, lo, d))
  {
    hide Counted, InBucket;
    RegionsApart(cnt, lo, 256, d);
    RegionsApart(cnt, lo, d, 256);
    NeverFull(keys, v, cnt, lo, b, i, v[i], d);
  }

  lemma NoRegion(cnt: seq<nat>, lo: nat, c: nat)
    requires |cnt| == 257 && c < 256 && cnt[c] == 0
    ensures First(cnt, lo, c) == Last(cnt, lo, c)
  {
  }

  lemma CountedHere(keys: seq<seq<int>>, v: seq<nat>, cnt: seq<nat>, lo: nat, b: nat)
    requires |cnt| == 257 && lo + SumTo(cnt, 257) <= |v| && cnt == Counts(keys, v[lo..lo + SumTo(cnt, 257)], b)
    ensures forall i | lo <= i < lo + SumTo(cnt, 257) :: Counted(keys, v, cnt, lo, b, i, v[i])
  {
    forall i | lo <= i < lo + SumTo(cnt, 257) ensures Counted(keys, v, cnt, lo, b, i, v[i]) {
      assert v[i := v[i]] == v;
    }
  }

  /** All regions but that of the keys without a byte b are full: so is that one. */
  lemma RestIsFilled(keys: seq<seq<int>>, v: seq<nat>, cnt: seq<nat>, count: seq<int>, part: seq<nat>, lo: nat, b: nat)
    requires GoodKeys(keys) && Filled(keys, v, cnt, count, part, lo, b)
             && cnt == Counts(keys, v[lo..lo + SumTo(cnt, 257)], b)
    requires forall c | 0 <= c < 256 :: count[c] == 0
    ensures forall c | 0 <= c <= 256 :: InBucket(keys, v, b, c, First(cnt, lo, c), Last(cnt, lo, c))
  {
    hide SumTo, Bucket, GoodKeys, CountOf;
    forall c | 0 <= c < 256 ensures InBucket(keys, v, b, c, First(cnt, lo, c), Last(cnt, lo, c)) {
      if cnt[c] > 0 {
        assert InBucket(keys, v, b, c, First(cnt, lo, c), part[c]);
      } else {
        NoRegion(cnt, lo, c);
      }
    }
    CountedHere(keys, v, cnt, lo, b);
    forall i | lo <= i < Last(cnt, lo, 256) && i < |v| ensures Bucket(keys, v[i], b) == 256 {
      var d := Bucket(keys, v[i], b);
      BucketRange(keys, v[i], b);
      if d < 256 {
        RegionsApart(cnt, lo, 256, d);
        assert v[i := v[i]] == v;
        Misplaced(keys, v, cnt, lo, b, i, d);
      }
    }
  }
}
