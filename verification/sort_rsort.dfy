/**
 rsort4 of sort.c: count the keys by their byte b, move each to its region in cycles, and sort
 the regions by the next byte.
 */
module SortRsort {
  import opened SortKey
  import opened SortOrder
  import opened SortBuckets
  import opened SortRadix

  /** The nonempty buckets below c with their counts, in order: clist. */
  function Listed(cnt: seq<nat>, c: nat): seq<(nat, nat)>
    requires c <= |cnt|
  {
    if c == 0 then [] else Listed(cnt, c - 1) + (if cnt[c - 1] > 0 then [(cnt[c - 1], c - 1)] else [])
  }

  lemma {:induction false} ListedEmpty(cnt: seq<nat>, c: nat, d: nat)
    requires d <= c <= |cnt| && forall e | d <= e < c :: cnt[e] == 0
    ensures Listed(cnt, c) == Listed(cnt, d)
    decreases c
  {
    if d < c {
      ListedEmpty(cnt, c - 1, d);
    }
  }

  lemma {:induction false} SumEmpty(cnt: seq<nat>, c: nat, d: nat)
    requires d <= c <= |cnt| && forall e | d <= e < c :: cnt[e] == 0
    ensures SumTo(cnt, c) == SumTo(cnt, d)
    decreases c
  {
    if d < c {
      SumEmpty(cnt, c - 1, d);
    }
  }

  lemma CountsSnoc(keys: seq<seq<int>>, s: seq<nat>, x: nat, b: nat)
    requires GoodKeys(keys)
    ensures 0 <= Bucket(keys, x, b) <= 256
    ensures var cnt := Counts(keys, s, b);
            Counts(keys, s + [x], b) == cnt[Bucket(keys, x, b) := cnt[Bucket(keys, x, b)] + 1]
  {
    BucketRange(keys, x, b);
    assert (s + [x])[..|s|] == s;
  }

  /** The hole moves from h to u when the key of u is taken in hand and x is put there. */
  lemma HoleSwaps(v: seq<nat>, h: nat, u: nat, x: nat, lo: nat, hi: nat)
    requires lo <= h < hi <= |v| && lo <= u < hi && h != u
    ensures v[u := x][h := v[u]][lo..hi] == Swapped(v[h := x][lo..hi], u - lo, h - lo)
  {
    var s, t := v[u := x][h := v[u]][lo..hi], v[h := x][lo..hi];
    forall k | 0 <= k < hi - lo ensures s[k] == Swapped(t, u - lo, h - lo)[k] {
    }
  }

  lemma HoleMoves(v: seq<nat>, h: nat, u: nat, x: nat, lo: nat, hi: nat)
    requires lo <= h < hi <= |v| && lo <= u < hi && h != u
    ensures multiset(v[u := x][h := v[u]][lo..hi]) == multiset(v[h := x][lo..hi])
  {
    hide Swapped;
    HoleSwaps(v, h, u, x, lo, hi);
  }

  lemma CountedIs(keys: seq<seq<int>>, v: seq<nat>, cnt: seq<nat>, lo: nat, b: nat, h: nat, x: nat, s0: seq<nat>)
    requires cnt == Counts(keys, s0, b) && |s0| == SumTo(cnt, 257) && lo + |s0| <= |v| && lo <= h < lo + |s0|
    requires multiset(v[h := x][lo..lo + |s0|]) == multiset(s0)
    ensures Counted(keys, v, cnt, lo, b, h, x)
  {
    forall c | 0 <= c <= 256 ensures CountOf(keys, v[h := x][lo..lo + |s0|], b, c) == cnt[c] {
      CountPermutes(keys, v[h := x][lo..lo + |s0|], s0, b, c);
    }
  }

  class Sorter {
    const count: array<nat>   // the static array of rsort4

    constructor ()
      ensures Clean() && fresh(count)
    {
      count := new nat[257](_ => 0);
    }

    ghost predicate Clean()
      reads count
    {
      count.Length == 257 && forall c | 0 <= c <= 256 :: count[c] == 0
    }

    /** Pass 1: count the bytes, and find the lowest and the highest one. */
    method CountBytes(keys: seq<seq<int>>, a: array<nat>, lo: nat, hi: nat, b: nat) returns (lowc: nat, highc: nat)
      requires Clean() && a != count && lo <= hi <= a.Length && GoodKeys(keys)
      modifies count
      ensures count[..] == Counts(keys, a[lo..hi], b)
      ensures lowc <= 256 && highc <= 255 && forall c | 0 <= c <= 255 && count[c] > 0 :: lowc <= c <= highc
    {
      hide GoodKeys, CountOf;
      lowc, highc := 256, 0;
      NoneCounted(keys, a[lo..lo], b);
      assert count[..] == Counts(keys, a[lo..lo], b);
      for t := lo to hi
        invariant count.Length == 257 && count[..] == Counts(keys, a[lo..t], b)
        invariant lowc <= 256 && highc <= 255 && forall c | 0 <= c <= 255 && count[c] > 0 :: lowc <= c <= highc
      {
        CountsSnoc(keys, a[lo..t], a[t], b);
        assert a[lo..t + 1] == a[lo..t] + [a[t]];
        var c := Bucket(keys, a[t], b);
        count[c] := count[c] + 1;
        if c != 256 && count[c] == 1 {
          lowc := if c < lowc then c else lowc;
          highc := if c > highc then c else highc;
        }
      }
    }

    /** Pass 2: where each region starts, and the list of the nonempty ones. */
    method Partition(lo: nat, lowc: nat, highc: nat) returns (part: array<nat>, clist: seq<(nat, nat)>)
      requires count.Length == 257 && lowc <= 256 && highc <= 255
      requires forall c | 0 <= c <= 255 && count[c] > 0 :: lowc <= c <= highc
      ensures fresh(part) && part.Length == 257 && clist == Listed(count[..], 256)
      ensures forall c | 0 <= c <= 256 && count[c] > 0 :: part[c] == First(count[..], lo, c)
    {
      ghost var cnt := count[..];
      part := new nat[257];
      var t := lo;
      part[256] := t;
      t := t + count[256];
      clist := [];
      ListedEmpty(cnt, lowc, 0);
      SumEmpty(cnt, lowc, 0);
      var c := lowc;
      while c <= highc
        invariant lowc <= c <= 256 && (lowc <= highc ==> c <= highc + 1) && (lowc > highc ==> c == lowc)
                  && count[..] == cnt && part.Length == 257 && fresh(part)
        invariant clist == Listed(cnt, c) && t == First(cnt, lo, c)
                  + (if c == 256 then cnt[256] + SumTo(cnt, 256) else 0)
        invariant forall d | (0 <= d < c || d == 256) && cnt[d] > 0 :: part[d] == First(cnt, lo, d)
      {
        var n := count[c];
        if n > 0 {
          clist := clist + [(n, c)];
          part[c] := t;
          t := t + n;
        }
        c := c + 1;
      }
      ListedEmpty(cnt, 256, c);
    }

    /** Key t1 goes to the next place of region n; the key that was there is returned. */
    method Put(a: array<nat>, part: array<nat>, n: nat, t1: nat) returns (u1: nat)
      requires a != count && a != part && count != part && n < count.Length && n < part.Length && count[n] > 0
               && part[n] < a.Length
      modifies a, count, part
      ensures a[..] == old(a[..])[old(part[n]) := t1] && u1 == old(a[part[n]])
      ensures count[..] == old(count[..])[n := old(count[n]) - 1] && part[..] == old(part[..])[n := old(part[n]) + 1]
    {
      var u := part[n];
      part[n] := u + 1;
      count[n] := count[n] - 1;
      u1 := a[u];
      a[u] := t1;
    }

    /** The key in hand is put down, and the one that was there is taken up unless the cycle is closed. */
    method ChaseStep(keys: seq<seq<int>>, a: array<nat>, lo: nat, b: nat, c: nat, t1: nat, part: array<nat>,
                     ghost h: nat, ghost cnt: seq<nat>,
                     ghost s0: seq<nat>)
      returns (closed: bool, u1: nat)
      requires GoodKeys(keys) && a != count && a != part && count != part
      requires Cycle(keys, a[..], cnt, count[..], part[..], lo, b, c, h, t1, s0)
      modifies a, count, part
      ensures Stepped(keys, a[..], cnt, count[..], part[..], lo, b, c, h, u1, s0, if closed then c else c + 1)
      ensures SumTo(count[..], 257) < SumTo(old(count[..]), 257) && Lowered(old(count[..]), count[..])
      ensures closed ==> count[c] < old(count[c])
      ensures SameOutside(old(a[..]), a[..], lo, lo + |s0|)
    {
      hide GoodKeys, Cycle, Stepped, SumTo, Bucket;
      ghost var v0, count0, part0 := a[..], count[..], part[..];
      CycleStep(keys, v0, cnt, count0, part0, lo, b, c, h, t1, s0);
      var n := Bucket(keys, t1, b);
      u1 := Put(a, part, n, t1);
      closed := n == c;
      SteppedSame(keys, a[..], cnt, count[..], part[..], lo, b, c, h, u1, s0, n);
    }

    /** One cycle of pass 3: the next key of region c goes where it belongs, the one that is there is taken
        in hand, and so on until a key of bucket c comes up. */
    method Chase(keys: seq<seq<int>>, a: array<nat>, lo: nat, b: nat, c: nat, part: array<nat>, ghost cnt: seq<nat>,
                 ghost s0: seq<nat>)
      requires GoodKeys(keys) && a != count && a != part && count != part && count.Length == 257 && part.Length == 257
               && |cnt| == 257 && c < 256 && count[c] > 0 && cnt[c] > 0
      requires cnt == Counts(keys, s0, b) && |s0| == SumTo(cnt, 257) && lo + |s0| <= a.Length
      requires Filled(keys, a[..], cnt, count[..], part[..], lo, b) && multiset(a[lo..lo + |s0|]) == multiset(s0)
      modifies a, count, part
      ensures Filled(keys, a[..], cnt, count[..], part[..], lo, b) && multiset(a[lo..lo + |s0|]) == multiset(s0)
      ensures count[c] < old(count[c]) && SumTo(count[..], 257) < SumTo(old(count[..]), 257)
      ensures forall d | 0 <= d <= 256 :: count[d] <= old(count[d])
      ensures a[..lo] == old(a[..lo]) && a[lo + |s0|..] == old(a[lo + |s0|..])
    {
      hide GoodKeys, Cycle, Filled, SumTo, Bucket, Counts, SameOutside, Lowered;
      ghost var h, v0, hi, count0 := part[c], a[..], lo + |s0|, count[..];
      NextIsInside(keys, a[..], cnt, count[..], part[..], lo, b, c);
      var t1 := a[part[c]];
      CycleStarts(keys, a[..], cnt, count[..], part[..], lo, b, c, s0);
      assert a[..][lo..hi] == a[lo..hi];
      NothingLowered(v0, count0, lo, hi);
      while true
        invariant Cycle(keys, a[..], cnt, count[..], part[..], lo, b, c, h, t1, s0)
        invariant SameOutside(v0, a[..], lo, hi) && Lowered(count0, count[..])
                  && SumTo(count[..], 257) <= SumTo(count0, 257)
        decreases SumTo(count[..], 257)
      {
        ghost var v1, count1 := a[..], count[..];
        var closed, u1 := ChaseStep(keys, a, lo, b, c, t1, part, h, cnt, s0);
        LoweredTwice(v0, v1, a[..], count0, count1, count[..], lo, hi, c);
        if closed {
          break;
        }
        t1 := u1;
      }
      assert a[..][lo..hi] == a[lo..hi];
      LoweredIs(v0, a[..], count0, count[..], lo, hi);
      assert a[..][..lo] == a[..lo] && a[..][hi..] == a[hi..];
      assert v0[..lo] == old(a[..lo]) && v0[hi..] == old(a[hi..]);
    }

    /** Pass 3: every key is moved to the region of its bucket. */
    method Permute(keys: seq<seq<int>>, a: array<nat>, lo: nat, b: nat, part: array<nat>, clist: seq<(nat, nat)>,
                   ghost cnt: seq<nat>, ghost s0: seq<nat>)
      requires GoodKeys(keys) && a != count && a != part && count != part && count.Length == 257 && part.Length == 257
      requires cnt == Counts(keys, s0, b) && |s0| == SumTo(cnt, 257) && lo + |s0| <= a.Length
               && clist == Listed(cnt, 256)
      requires Filled(keys, a[..], cnt, count[..], part[..], lo, b) && a[lo..lo + |s0|] == s0
      modifies a, count, part
      ensures Grouped(keys, a[..], cnt, lo, b) && Rearranged(old(a[..]), a[..], lo, lo + |s0|)
      ensures forall c | 0 <= c < 256 :: count[c] == 0
    {
      hide GoodKeys, Filled, CountOf, SumTo, Counts, InBucket, Grouped;
      ghost var v0, hi, m: nat := a[..], lo + |s0|, 0;
      assert a[..lo] == v0[..lo] && a[hi..] == v0[hi..];
      var k := 0;
      while k < |clist|
        invariant k <= |clist| && m <= 256 && |Listed(cnt, m)| == k
                  && Filled(keys, a[..], cnt, count[..], part[..], lo, b)
        invariant multiset(a[lo..hi]) == multiset(s0) && a[..lo] == v0[..lo] && a[hi..] == v0[hi..]
        invariant forall d | 0 <= d < m :: count[d] == 0
      {
        ghost var c0 := NextListed(cnt, m);
        EmptyStays(keys, a[..], cnt, count[..], part[..], lo, b);
        var c := clist[k].1;
        while count[c] != 0
          invariant Filled(keys, a[..], cnt, count[..], part[..], lo, b)
          invariant multiset(a[lo..hi]) == multiset(s0) && a[..lo] == v0[..lo] && a[hi..] == v0[hi..]
          invariant forall d | 0 <= d < c :: count[d] == 0
          decreases count[c]
        {
          Chase(keys, a, lo, b, c, part, cnt, s0);
        }
        m := c + 1;
        k := k + 1;
      }
      NothingListed(cnt, m);
      EmptyStays(keys, a[..], cnt, count[..], part[..], lo, b);
      AllFilled(keys, a[..], cnt, count[..], part[..], lo, b, s0);
      assert a[..][lo..hi] == a[lo..hi] && v0[lo..hi] == s0;
      assert a[..][..lo] == a[..lo] && a[..][hi..] == a[hi..];
    }

    /** rsort4: all keys of the range have the same first b bytes. */
    method Rsort4(keys: seq<seq<int>>, a: array<nat>, lo: nat, n: nat, b: nat)
      requires Clean() && GoodKeys(keys) && a != count && lo + n <= a.Length && Refers(keys, a[lo..lo + n])
               && Shares(keys, a[lo..lo + n], b)
      modifies a, count
      ensures Clean() && SortedRange(keys, old(a[..]), a[..], lo, n)
      decreases MaxLen(keys) - b, 1
    {
      hide GoodKeys, Refers, Shares, Sorted, Grouped, SumTo, Counts, CountOf;
      ghost var s0, v0 := a[lo..lo + n], a[..];
      var lowc, highc := CountBytes(keys, a, lo, lo + n, b);
      ghost var cnt := count[..];
      CountsSum(keys, s0, b);
      var part, clist := Partition(lo, lowc, highc);
      var none := count[256];
      StartFilled(keys, a[..], cnt, part[..], lo, b);
      Permute(keys, a, lo, b, part, clist, cnt, s0);
      count[256] := 0;
      SortRegions(keys, a, lo, b, clist, none, cnt, v0, s0);
    }

    /** Pass 4: sort every region by the next byte. */
    method SortRegions(keys: seq<seq<int>>, a: array<nat>, lo: nat, b: nat, clist: seq<(nat, nat)>, none: nat,
                       ghost cnt: seq<nat>, ghost v0: seq<nat>, ghost s0: seq<nat>)
      requires Clean() && GoodKeys(keys) && a != count && |cnt| == 257 && clist == Listed(cnt, 256) && none == cnt[256]
      requires Refers(keys, s0) && Shares(keys, s0, b) && |s0| == SumTo(cnt, 257) && lo + |s0| <= |v0|
               && v0[lo..lo + |s0|] == s0
      requires Grouped(keys, a[..], cnt, lo, b) && Rearranged(v0, a[..], lo, lo + |s0|)
      modifies a, count
      ensures Clean() && SortedRange(keys, v0, a[..], lo, |s0|)
      decreases MaxLen(keys) - b, 0
    {
      hide GoodKeys, Refers, Shares, Sorted, Grouped, SortedBelow, SumTo, SortedIn, SortedRange, Rearranged;
      ghost var m: nat := 0;
      var t, k := lo + none, 0;
      NoneBelow(keys, a[..], cnt, lo, b);
      while k < |clist|
        invariant k <= |clist| && m <= 256 && |Listed(cnt, m)| == k && t == lo + cnt[256] + SumTo(cnt, m) && Clean()
        invariant Grouped(keys, a[..], cnt, lo, b) && SortedBelow(keys, a[..], cnt, lo, m)
                  && Rearranged(v0, a[..], lo, lo + |s0|)
      {
        ghost var c := NextListed(cnt, m);
        var n := clist[k].0;
        SortRegion(keys, a, lo, b, t, n, c, m, cnt, v0, s0);
        SumStep(cnt, c);
        t := t + n;
        m := c + 1;
        k := k + 1;
      }
      NothingListed(cnt, m);
      AllSorted(keys, a[..], v0, s0, cnt, lo, b, m);
    }

    /** One region: radix sort, insertion, or nothing to do. */
    method SortRegion(keys: seq<seq<int>>, a: array<nat>, lo: nat, b: nat, t: nat, n: nat, ghost c: nat, ghost m: nat,
                      ghost cnt: seq<nat>, ghost v0: seq<nat>, ghost s0: seq<nat>)
      requires Clean() && GoodKeys(keys) && a != count && |cnt| == 257 && m <= c < 256 && n == cnt[c] > 0
               && t == First(cnt, lo, c)
      requires forall d | m <= d < c :: cnt[d] == 0
      requires Refers(keys, s0) && Shares(keys, s0, b) && |s0| == SumTo(cnt, 257) && lo + |s0| <= |v0|
               && v0[lo..lo + |s0|] == s0
      requires Grouped(keys, a[..], cnt, lo, b) && SortedBelow(keys, a[..], cnt, lo, m)
               && Rearranged(v0, a[..], lo, lo + |s0|)
      modifies a, count
      ensures Clean() && Grouped(keys, a[..], cnt, lo, b) && SortedBelow(keys, a[..], cnt, lo, c + 1)
              && Rearranged(v0, a[..], lo, lo + |s0|)
      decreases MaxLen(keys) - b, 0, 0
    {
      hide GoodKeys, Refers, Shares, Sorted, Grouped, SortedBelow, SumTo, SortedIn, Rearranged;
      ghost var v := a[..];
      RegionReady(keys, v, v0, s0, cnt, lo, b, c);
      assert a[t..t + n] == v[t..t + n];
      if n > THRESHOLD {
        Rsort4(keys, a, t, n, b + 1);
      } else if n > 1 {
        Bsort4(keys, a, t, n, b + 1);
        RangeSorted(keys, v, a[..], a[..t], a[t..t + n], a[t + n..], t, n);
      } else {
        OneIsSorted(keys, v, t, n);
      }
      RegionDone(keys, v, a[..], v0, cnt, lo, b, m, c, |s0|);
    }
  }

  lemma EmptyStays(keys: seq<seq<int>>, v: seq<nat>, cnt: seq<nat>, count: seq<int>, part: seq<nat>, lo: nat, b: nat)
    requires Filled(keys, v, cnt, count, part, lo, b)
    ensures |cnt| == |count| == 257 && forall c | 0 <= c <= 256 && cnt[c] == 0 :: count[c] == 0
  {
  }

  lemma AllFilled(keys: seq<seq<int>>, v: seq<nat>, cnt: seq<nat>, count: seq<int>, part: seq<nat>, lo: nat, b: nat,
                  s0: seq<nat>)
    requires GoodKeys(keys) && Filled(keys, v, cnt, count, part, lo, b) && cnt == Counts(keys, s0, b)
             && |s0| == SumTo(cnt, 257)
    requires lo + |s0| <= |v| && multiset(v[lo..lo + |s0|]) == multiset(s0) && forall c | 0 <= c < 256 :: count[c] == 0
    ensures Grouped(keys, v, cnt, lo, b)
  {
    forall c | 0 <= c <= 256 ensures CountOf(keys, v[lo..lo + |s0|], b, c) == cnt[c] {
      CountPermutes(keys, v[lo..lo + |s0|], s0, b, c);
    }
    assert Counts(keys, v[lo..lo + |s0|], b) == cnt;
    RestIsFilled(keys, v, cnt, count, part, lo, b);
  }

  /** In a cycle of region c, with key x in hand and a hole at h. */
  ghost predicate Cycle(keys: seq<seq<int>>, v: seq<nat>, cnt: seq<nat>, count: seq<int>, part: seq<nat>, lo: nat,
                        b: nat, c: nat, h: nat, x: nat, s0: seq<nat>) {
    && Filled(keys, v, cnt, count, part, lo, b) && c < 256 && cnt[c] > 0 && part[c] == h && count[c] > 0
    && cnt == Counts(keys, s0, b) && |s0| == SumTo(cnt, 257) && lo <= h < lo + |s0| <= |v|
    && multiset(v[h := x][lo..lo + |s0|]) == multiset(s0)
  }

  /** The keys outside the range are the same. */
  predicate SameOutside(v: seq<nat>, w: seq<nat>, lo: nat, hi: nat) {
    lo <= hi <= |v| == |w| && v[..lo] == w[..lo] && v[hi..] == w[hi..]
  }

  /** No counter has grown. */
  predicate Lowered(count: seq<int>, count': seq<int>) {
    |count| == |count'| == 257 && forall d | 0 <= d <= 256 :: count'[d] <= count[d]
  }

  lemma NothingLowered(v: seq<nat>, count: seq<int>, lo: nat, hi: nat)
    requires lo <= hi <= |v| && |count| == 257
    ensures SameOutside(v, v, lo, hi) && Lowered(count, count)
  {
  }

  lemma LoweredTwice(v: seq<nat>, v1: seq<nat>, v2: seq<nat>, k: seq<int>, k1: seq<int>, k2: seq<int>, lo: nat,
                     hi: nat, c: nat)
    requires SameOutside(v, v1, lo, hi) && SameOutside(v1, v2, lo, hi) && Lowered(k, k1) && Lowered(k1, k2) && c <= 256
    ensures SameOutside(v, v2, lo, hi) && Lowered(k, k2) && (k2[c] < k1[c] ==> k2[c] < k[c])
  {
  }

  lemma LoweredIs(v: seq<nat>, w: seq<nat>, k: seq<int>, k': seq<int>, lo: nat, hi: nat)
    requires SameOutside(v, w, lo, hi) && Lowered(k, k')
    ensures w[..lo] == v[..lo] && w[hi..] == v[hi..] && forall d | 0 <= d <= 256 :: k'[d] <= k[d]
  {
  }

  lemma CycleStarts(keys: seq<seq<int>>, v: seq<nat>, cnt: seq<nat>, count: seq<int>, part: seq<nat>, lo: nat, b: nat,
                    c: nat, s0: seq<nat>)
    requires Filled(keys, v, cnt, count, part, lo, b) && c < 256 && cnt[c] > 0 && count[c] > 0
    requires cnt == Counts(keys, s0, b) && |s0| == SumTo(cnt, 257) && multiset(v[lo..lo + |s0|]) == multiset(s0)
    ensures part[c] < |v| && Cycle(keys, v, cnt, count, part, lo, b, c, part[c], v[part[c]], s0)
  {
    NextIsInside(keys, v, cnt, count, part, lo, b, c);
    assert v[part[c] := v[part[c]]] == v;
  }

  /** After a key of bucket d was put down: the cycle has come back to its region c, or goes on with the key x. */
  ghost predicate Stepped(keys: seq<seq<int>>, v: seq<nat>, cnt: seq<nat>, count: seq<int>, part: seq<nat>, lo: nat,
                          b: nat, c: nat, h: nat, x: nat,
                          s0: seq<nat>, d: int) {
    if d == c then lo + |s0| <= |v| && Filled(keys, v, cnt, count, part, lo, b)
                   && multiset(v[lo..lo + |s0|]) == multiset(s0)
    else Cycle(keys, v, cnt, count, part, lo, b, c, h, x, s0)
  }

  lemma SteppedSame(keys: seq<seq<int>>, v: seq<nat>, cnt: seq<nat>, count: seq<int>, part: seq<nat>, lo: nat, b: nat,
                    c: nat, h: nat, x: nat,
                    s0: seq<nat>, d: int)
    requires Stepped(keys, v, cnt, count, part, lo, b, c, h, x, s0, d)
    ensures Stepped(keys, v, cnt, count, part, lo, b, c, h, x, s0, if d == c then c else c + 1)
  {
  }

  /** The key in hand goes to the next place of its region; that closes the cycle or gives the next key. */
  lemma CycleStep(keys: seq<seq<int>>, v: seq<nat>, cnt: seq<nat>, count: seq<int>, part: seq<nat>, lo: nat, b: nat,
                  c: nat, h: nat, x: nat, s0: seq<nat>)
    requires GoodKeys(keys) && Cycle(keys, v, cnt, count, part, lo, b, c, h, x, s0)
    ensures |count| == |part| == 257 && 0 <= Bucket(keys, x, b) <= 256
    ensures var d := Bucket(keys, x, b); count[d] > 0 && lo <= part[d] < lo + |s0| <= |v|
    ensures var d := Bucket(keys, x, b);
            Stepped(keys, v[part[d] := x], cnt, count[d := count[d] - 1], part[d := part[d] + 1], lo, b, c, h,
                    v[part[d]], s0, d)
    ensures forall d | 0 <= d <= 256 :: count[d] >= 0
    ensures var d := Bucket(keys, x, b); SumTo(count[d := count[d] - 1], 257) == SumTo(count, 257) - 1
  {
    hide GoodKeys, Filled, Counted, CountOf, SumTo, Bucket, Counts;
    CountsNat(keys, v, cnt, count, part, lo, b);
    CountedIs(keys, v, cnt, lo, b, h, x, s0);
    HasRoom(keys, v, cnt, count, part, lo, b, c, x);
    var d := Bucket(keys, x, b);
    NextIsInside(keys, v, cnt, count, part, lo, b, d);
    FillOne(keys, v, cnt, count, part, lo, b, d, x);
    SumChange(count, d, count[d] - 1, 257);
    if d != c {
      HoleMoves(v, h, part[d], x, lo, lo + |s0|);
    }
  }

  lemma CountsNat(keys: seq<seq<int>>, v: seq<nat>, cnt: seq<nat>, count: seq<int>, part: seq<nat>, lo: nat, b: nat)
    requires Filled(keys, v, cnt, count, part, lo, b)
    ensures |count| == |part| == 257 && forall d | 0 <= d <= 256 :: count[d] >= 0
  {
  }

  /** What rsort4 and bsort4 do to a range of the array. */
  ghost predicate SortedRange(keys: seq<seq<int>>, v: seq<nat>, w: seq<nat>, lo: nat, n: nat) {
    |v| == |w| && lo + n <= |v| && Rearranged(v, w, lo, lo + n) && Sorted(keys, w[lo..lo + n])
  }

  /** The next free place of a region that is not full. */
  lemma NextIsInside(keys: seq<seq<int>>, v: seq<nat>, cnt: seq<nat>, count: seq<int>, part: seq<nat>, lo: nat,
                     b: nat, c: nat)
    requires Filled(keys, v, cnt, count, part, lo, b) && c <= 256 && cnt[c] > 0 && count[c] > 0
    ensures lo <= part[c] < lo + SumTo(cnt, 257) <= |v|
  {
    RegionsApart(cnt, lo, c, c);
  }

  lemma NoneCounted(keys: seq<seq<int>>, s: seq<nat>, b: nat)
    requires s == []
    ensures forall c | 0 <= c <= 256 :: CountOf(keys, s, b, c) == 0
  {
  }

  // ---- The list of the nonempty buckets ---------------------------------------------------------------------

  lemma {:induction false} ListedGrows(cnt: seq<nat>, m: nat, c: nat)
    requires m <= c <= |cnt|
    ensures |Listed(cnt, m)| <= |Listed(cnt, c)| && Listed(cnt, c)[..|Listed(cnt, m)|] == Listed(cnt, m)
    decreases c
  {
    if m < c {
      ListedGrows(cnt, m, c - 1);
    }
  }

  /** The entry after those below m: the next nonempty bucket. */
  lemma {:induction false} NextListed(cnt: seq<nat>, m: nat) returns (c: nat)
    requires |cnt| == 257 && m <= 256 && |Listed(cnt, m)| < |Listed(cnt, 256)|
    ensures m <= c < 256 && cnt[c] > 0 && Listed(cnt, 256)[|Listed(cnt, m)|] == (cnt[c], c)
    ensures Listed(cnt, c) == Listed(cnt, m) && SumTo(cnt, c) == SumTo(cnt, m) && forall d | m <= d < c :: cnt[d] == 0
    decreases 256 - m
  {
    if cnt[m] > 0 {
      c := m;
      ListedGrows(cnt, m + 1, 256);
      assert Listed(cnt, 256)[..|Listed(cnt, m + 1)|][|Listed(cnt, m)|] == (cnt[m], m);
    } else {
      c := NextListed(cnt, m + 1);
    }
  }

  lemma {:induction false} NothingListed(cnt: seq<nat>, m: nat)
    requires |cnt| == 257 && m <= 256 && |Listed(cnt, m)| == |Listed(cnt, 256)|
    ensures forall d | m <= d < 256 :: cnt[d] == 0
    decreases 256 - m
  {
    if m < 256 {
      ListedGrows(cnt, m + 1, 256);
      NothingListed(cnt, m + 1);
    }
  }

  // ---- The regions together ---------------------------------------------------------------------------------

  ghost predicate Grouped(keys: seq<seq<int>>, v: seq<nat>, cnt: seq<nat>, lo: nat, b: nat) {
    |cnt| == 257 && lo + SumTo(cnt, 257) <= |v|
    && forall c | 0 <= c <= 256 :: InBucket(keys, v, b, c, First(cnt, lo, c), Last(cnt, lo, c))
  }

  /** The regions of the buckets below m are sorted. */
  ghost predicate SortedBelow(keys: seq<seq<int>>, v: seq<nat>, cnt: seq<nat>, lo: nat, m: nat) {
    |cnt| == 257 && lo + SumTo(cnt, 257) <= |v|
    && forall c | 0 <= c < m && c < 256 :: SortedIn(keys, v, First(cnt, lo, c), Last(cnt, lo, c))
  }

  predicate SortedIn(keys: seq<seq<int>>, v: seq<nat>, p: nat, q: nat) {
    forall i, j | p <= i < j < q && j < |v| :: Le(keys, v[i], v[j])
  }

  /** w is v with the keys of p..q rearranged. */
  ghost predicate Rearranged(v: seq<nat>, w: seq<nat>, p: nat, q: nat) {
    p <= q <= |v| == |w| && w[..p] == v[..p] && w[q..] == v[q..] && multiset(w[p..q]) == multiset(v[p..q])
  }

  lemma RearrangedKeepsBucket(keys: seq<seq<int>>, v: seq<nat>, w: seq<nat>, b: nat, c: nat, p: nat, q: nat,
                              p': nat, q': nat)
    requires Rearranged(v, w, p, q) && InBucket(keys, v, b, c, p', q') && ((p' == p && q' == q) || q' <= p || q <= p')
    ensures InBucket(keys, w, b, c, p', q')
  {
    forall i | p' <= i < q' && i < |w| ensures Bucket(keys, w[i], b) == c {
      if p' == p && q' == q {
        assert w[p..q][i - p] in multiset(v[p..q]);
        var k :| 0 <= k < q - p && v[p..q][k] == w[i];
        assert v[p + k] == w[i];
      } else if q' <= p {
        assert w[..p][i] == v[..p][i];
      } else {
        assert w[q..][i - q] == v[q..][i - q];
      }
    }
  }

  lemma RearrangedKeepsSorted(keys: seq<seq<int>>, v: seq<nat>, w: seq<nat>, p: nat, q: nat, p': nat, q': nat)
    requires Rearranged(v, w, p, q) && SortedIn(keys, v, p', q') && (q' <= p || q <= p')
    ensures SortedIn(keys, w, p', q')
  {
    forall i | p' <= i < q' && i < |w| ensures w[i] == v[i] {
      if q' <= p {
        assert w[..p][i] == v[..p][i];
      } else {
        assert w[q..][i - q] == v[q..][i - q];
      }
    }
  }

  lemma RearrangedWithin(v: seq<nat>, w: seq<nat>, p: nat, q: nat, lo: nat, hi: nat)
    requires Rearranged(v, w, p, q) && lo <= p && q <= hi <= |v|
    ensures Rearranged(v, w, lo, hi)
  {
    assert v[lo..hi] == v[..p][lo..] + v[p..q] + v[q..][..hi - q];
    assert w[lo..hi] == w[..p][lo..] + w[p..q] + w[q..][..hi - q];
    assert w[..lo] == w[..p][..lo] && v[..lo] == v[..p][..lo];
    assert w[hi..] == w[q..][hi - q..] && v[hi..] == v[q..][hi - q..];
  }

  /** One more region is sorted. */
  lemma RegionSorted(keys: seq<seq<int>>, v: seq<nat>, w: seq<nat>, cnt: seq<nat>, lo: nat, b: nat, m: nat, c: nat)
    requires Grouped(keys, v, cnt, lo, b) && SortedBelow(keys, v, cnt, lo, m) && m <= c < 256
    requires forall d | m <= d < c :: cnt[d] == 0
    requires Rearranged(v, w, First(cnt, lo, c), Last(cnt, lo, c))
             && SortedIn(keys, w, First(cnt, lo, c), Last(cnt, lo, c))
    ensures Grouped(keys, w, cnt, lo, b) && SortedBelow(keys, w, cnt, lo, c + 1)
            && Rearranged(v, w, lo, lo + SumTo(cnt, 257))
  {
    var p, q := First(cnt, lo, c), Last(cnt, lo, c);
    forall d | 0 <= d <= 256 ensures InBucket(keys, w, b, d, First(cnt, lo, d), Last(cnt, lo, d)) {
      RegionsApart(cnt, lo, c, d);
      RegionsApart(cnt, lo, d, c);
      RearrangedKeepsBucket(keys, v, w, b, d, p, q, First(cnt, lo, d), Last(cnt, lo, d));
    }
    forall d | 0 <= d < c + 1 ensures SortedIn(keys, w, First(cnt, lo, d), Last(cnt, lo, d)) {
      if d < m {
        RegionsApart(cnt, lo, d, c);
        RearrangedKeepsSorted(keys, v, w, p, q, First(cnt, lo, d), Last(cnt, lo, d));
      }
    }
    RegionsApart(cnt, lo, c, c);
    RearrangedWithin(v, w, p, q, lo, lo + SumTo(cnt, 257));
  }

  /** Keys in the same bucket share one byte more. */
  lemma RegionShares(keys: seq<seq<int>>, v: seq<nat>, s0: seq<nat>, cnt: seq<nat>, lo: nat, b: nat, c: nat)
    requires Grouped(keys, v, cnt, lo, b) && c < 256 && Refers(keys, s0) && Shares(keys, s0, b)
    requires multiset(v[lo..lo + SumTo(cnt, 257)]) == multiset(s0)
    ensures Last(cnt, lo, c) <= |v| && Refers(keys, v[First(cnt, lo, c)..Last(cnt, lo, c)])
    ensures Shares(keys, v[First(cnt, lo, c)..Last(cnt, lo, c)], b + 1)
    ensures cnt[c] > 0 ==> |keys[v[First(cnt, lo, c)]]| > b
  {
    hide Shares, SumTo;
    RegionsApart(cnt, lo, c, c);
    var p, q, hi := First(cnt, lo, c), Last(cnt, lo, c), lo + SumTo(cnt, 257);
    assert InBucket(keys, v, b, c, p, q);
    forall i | p <= i < q ensures v[i] in s0 && v[i] < |keys| && |keys[v[i]]| > b && keys[v[i]][b] == c {
      InRange(keys, v[lo..hi], s0, i - lo);
      assert Bucket(keys, v[i], b) == c;
    }
    forall x | x in v[p..q] ensures x in s0 && x < |keys| && |keys[x]| > b && keys[x][b] == c {
      var i :| 0 <= i < q - p && v[p..q][i] == x;
      assert x == v[p + i];
    }
    SharesOneMore(keys, s0, v[p..q], b, c);
  }

  lemma SharesOneMore(keys: seq<seq<int>>, s: seq<nat>, t: seq<nat>, b: nat, c: nat)
    requires Shares(keys, s, b) && forall x | x in t :: x in s && x < |keys| && |keys[x]| > b && keys[x][b] == c
    ensures Shares(keys, t, b + 1)
  {
    forall x, y | x in t && y in t ensures keys[x][..b + 1] == keys[y][..b + 1] {
      assert keys[x][..b + 1] == keys[x][..b] + [c] && keys[y][..b + 1] == keys[y][..b] + [c];
    }
  }

  /** Two keys at places i < j of the grouped array. */
  lemma GroupedPair(keys: seq<seq<int>>, v: seq<nat>, s0: seq<nat>, cnt: seq<nat>, lo: nat, b: nat, i: nat, j: nat)
    requires GoodKeys(keys) && Grouped(keys, v, cnt, lo, b) && SortedBelow(keys, v, cnt, lo, 256) && Refers(keys, s0)
             && Shares(keys, s0, b)
    requires multiset(v[lo..lo + SumTo(cnt, 257)]) == multiset(s0) && lo <= i < j < lo + SumTo(cnt, 257)
    ensures Le(keys, v[i], v[j])
  {
    hide First, Last, SumTo, Listed, Refers, Shares, GoodKeys;
    SumStep(cnt, 256);
    var hi := lo + SumTo(cnt, 257);
    InRange(keys, v[lo..hi], s0, i - lo);
    InRange(keys, v[lo..hi], s0, j - lo);
    var c := RegionAt(cnt, lo, i, 256);
    var d := RegionAt(cnt, lo, j, 256);
    RegionsApart(cnt, lo, c, d);
    RegionsApart(cnt, lo, d, c);
    assert InBucket(keys, v, b, c, First(cnt, lo, c), Last(cnt, lo, c));
    assert InBucket(keys, v, b, d, First(cnt, lo, d), Last(cnt, lo, d));
    if c == d && c < 256 {
      assert SortedIn(keys, v, First(cnt, lo, c), Last(cnt, lo, c));
    } else {
      BucketsInOrder(keys, s0, b, v[i], v[j]);
    }
  }

  /** Keys of different buckets are in the order of the buckets, those that have ended first. */
  lemma BucketsInOrder(keys: seq<seq<int>>, s: seq<nat>, b: nat, x: nat, y: nat)
    requires GoodKeys(keys) && Shares(keys, s, b) && x in s && y in s && x < |keys| && y < |keys|
    requires var c, d := Bucket(keys, x, b), Bucket(keys, y, b); c == 256 || (d != 256 && c < d)
    ensures Le(keys, x, y)
  {
    KcmpFrom(keys[x], keys[y], b);
  }

  lemma GroupedIsSorted(keys: seq<seq<int>>, v: seq<nat>, s0: seq<nat>, cnt: seq<nat>, lo: nat, b: nat)
    requires GoodKeys(keys) && Grouped(keys, v, cnt, lo, b) && SortedBelow(keys, v, cnt, lo, 256) && Refers(keys, s0)
             && Shares(keys, s0, b)
    requires multiset(v[lo..lo + SumTo(cnt, 257)]) == multiset(s0)
    ensures Sorted(keys, v[lo..lo + SumTo(cnt, 257)])
  {
    hide GoodKeys, SortedBelow, Refers, Shares, Le, InBucket, First, Last;
    var s := v[lo..lo + SumTo(cnt, 257)];
    forall i, j | 0 <= i < j < |s| ensures Le(keys, s[i], s[j]) {
      GroupedPair(keys, v, s0, cnt, lo, b, lo + i, lo + j);
    }
  }

  // ---- The recursion ----------------------------------------------------------------------------------------

  function MaxLen(keys: seq<seq<int>>): (n: nat)
    ensures forall x | 0 <= x < |keys| :: |keys[x]| <= n
  {
    if keys == [] then 0
    else
      var m := MaxLen(keys[..|keys| - 1]);
      assert forall x | 0 <= x < |keys| - 1 :: keys[x] == keys[..|keys| - 1][x];
      if |keys[|keys| - 1]| > m then |keys[|keys| - 1]| else m
  }

  lemma StartFilled(keys: seq<seq<int>>, v: seq<nat>, cnt: seq<nat>, part: seq<nat>, lo: nat, b: nat)
    requires |cnt| == |part| == 257 && lo + SumTo(cnt, 257) <= |v|
    requires forall c | 0 <= c <= 256 && cnt[c] > 0 :: part[c] == First(cnt, lo, c)
    ensures Filled(keys, v, cnt, cnt, part, lo, b)
  {
  }

  lemma NoneBelow(keys: seq<seq<int>>, v: seq<nat>, cnt: seq<nat>, lo: nat, b: nat)
    requires Grouped(keys, v, cnt, lo, b)
    ensures SortedBelow(keys, v, cnt, lo, 0) && SumTo(cnt, 0) == 0
  {
  }

  lemma SumStep(cnt: seq<nat>, c: nat)
    requires c < |cnt|
    ensures SumTo(cnt, c + 1) == SumTo(cnt, c) + cnt[c]
  {
  }

  lemma RearrangedTwice(u: seq<nat>, v: seq<nat>, w: seq<nat>, p: nat, q: nat)
    requires Rearranged(u, v, p, q) && Rearranged(v, w, p, q)
    ensures Rearranged(u, w, p, q)
  {
  }

  lemma RearrangedRange(v: seq<nat>, w: seq<nat>, p: nat, q: nat)
    requires Rearranged(v, w, p, q)
    ensures p <= q <= |v| == |w| && multiset(w[p..q]) == multiset(v[p..q])
  {
  }

  /** Region c can be sorted by the next byte. */
  lemma RegionReady(keys: seq<seq<int>>, v: seq<nat>, v0: seq<nat>, s0: seq<nat>, cnt: seq<nat>, lo: nat,
                    b: nat, c: nat)
    requires |cnt| == 257 && c < 256 && cnt[c] > 0 && Refers(keys, s0) && Shares(keys, s0, b) && |s0| == SumTo(cnt, 257)
    requires lo + |s0| <= |v0| && v0[lo..lo + |s0|] == s0 && Grouped(keys, v, cnt, lo, b)
             && Rearranged(v0, v, lo, lo + |s0|)
    ensures var t := First(cnt, lo, c);
            t + cnt[c] <= |v| && Refers(keys, v[t..t + cnt[c]]) && Shares(keys, v[t..t + cnt[c]], b + 1)
            && b < MaxLen(keys)
  {
    RearrangedRange(v0, v, lo, lo + |s0|);
    RegionShares(keys, v, s0, cnt, lo, b, c);
    var t := First(cnt, lo, c);
    assert v[t..t + cnt[c]][0] == v[t];
  }

  lemma RangeSorted(keys: seq<seq<int>>, v: seq<nat>, w: seq<nat>, x: seq<nat>, y: seq<nat>, z: seq<nat>,
                    t: nat, n: nat)
    requires t + n <= |v| && w == x + y + z && |x| == t && |y| == n && x == v[..t] && z == v[t + n..]
             && multiset(y) == multiset(v[t..t + n]) && Sorted(keys, y)
    ensures SortedRange(keys, v, w, t, n)
  {
    assert w[..t] == x && w[t..t + n] == y && w[t + n..] == z;
  }

  lemma OneIsSorted(keys: seq<seq<int>>, v: seq<nat>, t: nat, n: nat)
    requires t + n <= |v| && n <= 1
    ensures SortedRange(keys, v, v, t, n)
  {
  }

  lemma RegionDone(keys: seq<seq<int>>, v: seq<nat>, w: seq<nat>, v0: seq<nat>, cnt: seq<nat>, lo: nat, b: nat, m: nat,
                   c: nat, n: nat)
    requires Grouped(keys, v, cnt, lo, b) && SortedBelow(keys, v, cnt, lo, m) && m <= c < 256
             && forall d | m <= d < c :: cnt[d] == 0
    requires SortedRange(keys, v, w, First(cnt, lo, c), cnt[c]) && n == SumTo(cnt, 257) && Rearranged(v0, v, lo, lo + n)
    ensures Grouped(keys, w, cnt, lo, b) && SortedBelow(keys, w, cnt, lo, c + 1) && Rearranged(v0, w, lo, lo + n)
  {
    var p, q := First(cnt, lo, c), Last(cnt, lo, c);
    SortedSlice(keys, w, p, q);
    RegionSorted(keys, v, w, cnt, lo, b, m, c);
    RearrangedTwice(v0, v, w, lo, lo + n);
  }

  lemma SortedSlice(keys: seq<seq<int>>, w: seq<nat>, p: nat, q: nat)
    requires p <= q <= |w|
    ensures Sorted(keys, w[p..q]) ==> SortedIn(keys, w, p, q)
  {
    if Sorted(keys, w[p..q]) {
      forall i, j | p <= i < j < q ensures Le(keys, w[i], w[j]) {
        assert w[p..q][i - p] == w[i] && w[p..q][j - p] == w[j];
      }
    }
  }

  lemma AllSorted(keys: seq<seq<int>>, v: seq<nat>, v0: seq<nat>, s0: seq<nat>, cnt: seq<nat>, lo: nat, b: nat, m: nat)
    requires GoodKeys(keys) && Grouped(keys, v, cnt, lo, b) && SortedBelow(keys, v, cnt, lo, m) && m <= 256
             && forall d | m <= d < 256 :: cnt[d] == 0
    requires Refers(keys, s0) && Shares(keys, s0, b) && |s0| == SumTo(cnt, 257)
    requires lo + |s0| <= |v0| && v0[lo..lo + |s0|] == s0 && Rearranged(v0, v, lo, lo + |s0|)
    ensures SortedRange(keys, v0, v, lo, |s0|)
  {
    RearrangedRange(v0, v, lo, lo + |s0|);
    assert SortedBelow(keys, v, cnt, lo, 256);
    GroupedIsSorted(keys, v, s0, cnt, lo, b);
  }

  /** sort4: the lines are rearranged in the order of their keys. */
  method Sort4(srt: Sorter, keys: seq<seq<int>>, a: array<nat>, n: nat)
    requires srt.Clean() && GoodKeys(keys) && a != srt.count && n <= a.Length && Refers(keys, a[..n])
    modifies a, srt.count
    ensures srt.Clean() && Sorted(keys, a[..n]) && multiset(a[..n]) == multiset(old(a[..n])) && a[n..] == old(a[n..])
  {
    hide GoodKeys, Refers, Sorted;
    assert a[0..n] == a[..n];
    if n > THRESHOLD {
      srt.Rsort4(keys, a, 0, n, 0);
      assert a[..][0..n] == a[..n] && old(a[..])[0..n] == old(a[..n]) && a[..][n..] == a[n..]
             && old(a[..])[n..] == old(a[n..]);
    } else {
      Bsort4(keys, a, 0, n, 0);
      assert a[0..n] == a[..n] && a[0 + n..] == a[n..];
    }
  }
}
