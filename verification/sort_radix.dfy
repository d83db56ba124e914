/**
 sort4, rsort4 and bsort4 of sort.c: a radix sort in place that falls back to insertion.
 A line is the number of its key; the array that is sorted holds lines.
 */
module SortRadix {
  import opened SortNumber
  import opened SortKey
  import opened SortOrder

  const THRESHOLD: nat := 14

  /** All these keys have the same first b bytes. */
  predicate Shares(keys: seq<seq<int>>, s: seq<nat>, b: nat) {
    forall x, y | x in s && y in s && x < |keys| && y < |keys| ::
        |keys[x]| >= b && |keys[y]| >= b && keys[x][..b] == keys[y][..b]
  }

  /** The test of bsort4, on what is left of the keys after b bytes. */
  predicate Greater(keys: seq<seq<int>>, x: nat, y: nat, b: nat)
    requires x < |keys| && y < |keys|
  {
    var n := (if |keys[x]| < |keys[y]| then |keys[x]| else |keys[y]|) - b;
    n > 0 && (if keys[x][b] != keys[y][b] then keys[x][b] - keys[y][b] > 0 else Kcmp(keys[x][b..], keys[y][b..]) > 0)
  }

  lemma GreaterIs(keys: seq<seq<int>>, s: seq<nat>, x: nat, y: nat, b: nat)
    requires Shares(keys, s, b) && x in s && y in s && x < |keys| && y < |keys|
    ensures Greater(keys, x, y, b) == !Le(keys, x, y)
    ensures Greater(keys, x, y, b) ==> Le(keys, y, x)
  {
    KcmpFrom(keys[x], keys[y], b);
    KcmpFlips(keys[x], keys[y]);
  }

  lemma LeTransitive(keys: seq<seq<int>>, x: nat, y: nat, z: nat)
    requires GoodKeys(keys) && Le(keys, x, y) && Le(keys, y, z)
    ensures Le(keys, x, z)
  {
    KcmpTransitive(keys[x], keys[y], keys[z]);
  }

  /** s is sorted but for place p, which may be too big for its place by those before it only. */
  predicate SortedBut(keys: seq<seq<int>>, s: seq<nat>, p: nat)
    requires p < |s|
  {
    && (forall x, y | 0 <= x < y < |s| && x != p && y != p :: Le(keys, s[x], s[y]))
    && (forall y | p < y < |s| :: Le(keys, s[p], s[y]))
  }

  lemma SortedButFirst(keys: seq<seq<int>>, s: seq<nat>, p: nat)
    requires GoodKeys(keys) && p < |s| && SortedBut(keys, s, p) && (p > 0 ==> Le(keys, s[p - 1], s[p]))
    ensures Sorted(keys, s)
  {
    forall x, y | 0 <= x < y < |s| ensures Le(keys, s[x], s[y]) {
      if y == p && x < p - 1 {
        LeTransitive(keys, s[x], s[p - 1], s[p]);
      }
    }
  }

  function Swapped(s: seq<nat>, i: nat, j: nat): (r: seq<nat>)
    requires i < |s| && j < |s|
    ensures multiset(r) == multiset(s) && |r| == |s|
  {
    s[i := s[j]][j := s[i]]
  }

  lemma SwapDown(keys: seq<seq<int>>, s: seq<nat>, p: nat)
    requires 0 < p < |s| && SortedBut(keys, s, p) && Le(keys, s[p], s[p - 1])
    ensures SortedBut(keys, Swapped(s, p, p - 1), p - 1)
  {
    var r := Swapped(s, p, p - 1);
    forall x, y | 0 <= x < y < |r| && x != p - 1 && y != p - 1 ensures Le(keys, r[x], r[y]) {
      var x', y' := if x == p then p - 1 else x, if y == p then p - 1 else y;
      assert r[x] == s[x'] && r[y] == s[y'];
    }
  }

  /** bsort4: each key in turn moves down past the greater ones. */
  method Bsort4(keys: seq<seq<int>>, a: array<nat>, lo: nat, n: nat, b: nat)
    requires GoodKeys(keys) && lo + n <= a.Length && Refers(keys, a[lo..lo + n]) && Shares(keys, a[lo..lo + n], b)
    modifies a
    ensures Sorted(keys, a[lo..lo + n]) && multiset(a[lo..lo + n]) == multiset(old(a[lo..lo + n]))
    ensures a[..lo] == old(a[..lo]) && a[lo + n..] == old(a[lo + n..])
  {
    hide Kcmp, GoodKeys, Shares, Refers;
    var l := lo + n;
    var j := lo;
    while j + 1 < l
      invariant lo <= j && (n > 0 ==> j < l) && (n == 0 ==> j == lo)
      invariant multiset(a[lo..l]) == multiset(old(a[lo..l]))
      invariant n > 0 ==> Sorted(keys, a[lo..j + 1])
      invariant a[..lo] == old(a[..lo]) && a[l..] == old(a[l..])
    {
      j := j + 1;
      Insert(keys, a, lo, j, l, b, old(a[lo..l]));
    }
    if n > 0 {
      assert a[lo..j + 1] == a[lo..l];
    }
  }

  /** The key at j moves down among the sorted ones from lo on. */
  method Insert(keys: seq<seq<int>>, a: array<nat>, lo: nat, j: nat, l: nat, b: nat, ghost s: seq<nat>)
    requires GoodKeys(keys) && lo < j < l <= a.Length && Refers(keys, s) && Sorted(keys, a[lo..j])
    requires multiset(a[lo..l]) == multiset(s) && Shares(keys, s, b)
    modifies a
    ensures Sorted(keys, a[lo..j + 1]) && multiset(a[lo..l]) == multiset(s)
    ensures a[..lo] == old(a[..lo]) && a[l..] == old(a[l..])
  {
    hide Placed, Greater, SwappedAll, Sorted, GoodKeys, Refers, Shares, Le;
    var i := j - 1;
    ghost var v0 := a[..];
    PlacedFirst(keys, v0, lo, j, l, s);
    GreaterAt(keys, v0, v0, lo, j, j, l, b, s);
    while Greater(keys, a[i], a[i + 1], b)
      invariant lo <= i < j && |a[..]| == a.Length && Placed(keys, a[..], v0, lo, i + 1, j, l, s)
      invariant a[i] < |keys| && a[i + 1] < |keys| && Greater(keys, a[i], a[i + 1], b) == !Le(keys, a[i], a[i + 1])
      decreases i
    {
      PlacedLower(keys, a[..], v0, lo, i + 1, j, l, b, s);
      SwapAt(a, i);
      if i <= lo {
        PlacedLast(keys, a[..], v0, lo, i, j, l, s);
        Parts(a, a[..], v0, lo, j, l);
        return;
      }
      i := i - 1;
      GreaterAt(keys, a[..], v0, lo, i + 1, j, l, b, s);
    }
    PlacedLast(keys, a[..], v0, lo, i + 1, j, l, s);
    Parts(a, a[..], v0, lo, j, l);
  }

  method SwapAt(a: array<nat>, i: nat)
    requires i + 1 < a.Length
    modifies a
    ensures a[..] == SwappedAll(old(a[..]), i)
  {
    ghost var v := a[..];
    a[i + 1], a[i] := a[i], a[i + 1];
    SwappedIs(a[..], v, i);
  }

  /** In the array v, made from v0, the keys from lo to j are sorted but for place p. */
  predicate Placed(keys: seq<seq<int>>, v: seq<nat>, v0: seq<nat>, lo: nat, p: nat, j: nat, l: nat, s: seq<nat>) {
    && |v| == |v0| && lo <= p <= j < l <= |v| && multiset(v[lo..l]) == multiset(s)
    && SortedBut(keys, v[lo..j + 1], p - lo)
    && v[..lo] == v0[..lo] && v[l..] == v0[l..]
  }

  function SwappedAll(v: seq<nat>, i: nat): seq<nat>
    requires i + 1 < |v|
  {
    v[i + 1 := v[i]][i := v[i + 1]]
  }

  lemma SwappedIs(w: seq<nat>, v: seq<nat>, i: nat)
    requires i + 1 < |v| == |w| && w[i] == v[i + 1] && w[i + 1] == v[i]
             && forall k | 0 <= k < |v| && k != i && k != i + 1 :: w[k] == v[k]
    ensures w == SwappedAll(v, i)
  {
  }

  lemma PlacedFirst(keys: seq<seq<int>>, v: seq<nat>, lo: nat, j: nat, l: nat, s: seq<nat>)
    requires lo < j < l <= |v| && Sorted(keys, v[lo..j]) && multiset(v[lo..l]) == multiset(s)
    ensures Placed(keys, v, v, lo, j, j, l, s)
  {
    assert v[lo..j + 1] == v[lo..j] + [v[j]];
  }

  lemma GreaterAt(keys: seq<seq<int>>, v: seq<nat>, v0: seq<nat>, lo: nat, p: nat, j: nat, l: nat, b: nat, s: seq<nat>)
    requires Placed(keys, v, v0, lo, p, j, l, s) && lo < p && Refers(keys, s) && Shares(keys, s, b)
    ensures v[p - 1] < |keys| && v[p] < |keys| && Greater(keys, v[p - 1], v[p], b) == !Le(keys, v[p - 1], v[p])
    ensures Greater(keys, v[p - 1], v[p], b) ==> Le(keys, v[p], v[p - 1])
  {
    hide SortedBut, Greater, Shares, Le;
    assert v[lo..l][p - 1 - lo] == v[p - 1] && v[lo..l][p - lo] == v[p];
    InRange(keys, v[lo..l], s, p - 1 - lo);
    InRange(keys, v[lo..l], s, p - lo);
    GreaterIs(keys, s, v[p - 1], v[p], b);
  }

  lemma PlacedLower(keys: seq<seq<int>>, v: seq<nat>, v0: seq<nat>, lo: nat, p: nat, j: nat, l: nat, b: nat,
                    s: seq<nat>)
    requires Placed(keys, v, v0, lo, p, j, l, s) && lo < p && Refers(keys, s) && Shares(keys, s, b)
    requires v[p - 1] < |keys| && v[p] < |keys| && Greater(keys, v[p - 1], v[p], b)
    ensures Placed(keys, SwappedAll(v, p - 1), v0, lo, p - 1, j, l, s)
  {
    hide SortedBut, Greater, Shares, Le, Swapped, SwappedAll;
    GreaterAt(keys, v, v0, lo, p, j, l, b, s);
    assert v[lo..j + 1][p - lo] == v[p] && v[lo..j + 1][p - lo - 1] == v[p - 1];
    SwapDown(keys, v[lo..j + 1], p - lo);
    SwapParts(v, p - 1, lo, j + 1);
    SwapParts(v, p - 1, lo, l);
  }

  lemma SwapParts(v: seq<nat>, i: nat, lo: nat, hi: nat)
    requires lo <= i && i + 1 < hi <= |v|
    ensures SwappedAll(v, i)[lo..hi] == Swapped(v[lo..hi], i + 1 - lo, i - lo)
    ensures SwappedAll(v, i)[..lo] == v[..lo] && SwappedAll(v, i)[hi..] == v[hi..] && |SwappedAll(v, i)| == |v|
  {
  }

  lemma PlacedLast(keys: seq<seq<int>>, v: seq<nat>, v0: seq<nat>, lo: nat, p: nat, j: nat, l: nat, s: seq<nat>)
    requires GoodKeys(keys) && Placed(keys, v, v0, lo, p, j, l, s) && (lo < p ==> Le(keys, v[p - 1], v[p]))
    ensures Sorted(keys, v[lo..j + 1]) && |v| == |v0| && multiset(v[lo..l]) == multiset(s) && v[..lo] == v0[..lo]
            && v[l..] == v0[l..]
  {
    hide SortedBut, Sorted, Le, GoodKeys;
    SortedButFirst(keys, v[lo..j + 1], p - lo);
  }

  lemma Parts(a: array<nat>, v: seq<nat>, v0: seq<nat>, lo: nat, j: nat, l: nat)
    requires v == a[..] && lo <= j < l <= a.Length == |v0|
    ensures a[lo..j + 1] == v[lo..j + 1] && a[lo..l] == v[lo..l] && a[..lo] == v[..lo] && a[l..] == v[l..]
  {
  }

  lemma InRange(keys: seq<seq<int>>, t: seq<nat>, s: seq<nat>, i: nat)
    requires i < |t| && multiset(t) == multiset(s) && Refers(keys, s)
    ensures t[i] in s && t[i] < |keys|
  {
    assert t[i] in multiset(t);
  }
}
