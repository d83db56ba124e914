/**
 The order of kcmp on keys none of which is a proper prefix of another, and counting the
 keys by one of their bytes.
 */
module SortOrder {
  import opened SortNumber
  import opened SortKey

  /** Keys are bytes, and neither of two is a proper prefix of the other. */
  predicate GoodKeys(keys: seq<seq<int>>) {
    && (forall x, y | 0 <= x < |keys| && 0 <= y < |keys| :: Unmixed(keys[x], keys[y]))
    && forall x, k | 0 <= x < |keys| && 0 <= k < |keys[x]| :: 0 <= keys[x][k] <= 255
  }

  predicate Refers(keys: seq<seq<int>>, s: seq<nat>) {
    forall i | 0 <= i < |s| :: s[i] < |keys|
  }

  predicate Le(keys: seq<seq<int>>, x: nat, y: nat) {
    x < |keys| && y < |keys| && Kcmp(keys[x], keys[y]) <= 0
  }

  predicate Sorted(keys: seq<seq<int>>, s: seq<nat>) {
    forall i, j | 0 <= i < j < |s| :: Le(keys, s[i], s[j])
  }

  lemma UnmixedTail(a: seq<int>, b: seq<int>)
    requires Unmixed(a, b) && a != [] && b != [] && a[0] == b[0]
    ensures Unmixed(a[1..], b[1..])
  {
    assert a == [a[0]] + a[1..] && b == [b[0]] + b[1..];
    assert IsPrefix(a[1..], b[1..]) ==> IsPrefix(a, b);
    assert IsPrefix(b[1..], a[1..]) ==> IsPrefix(b, a);
  }

  lemma EmptyUnmixed(a: seq<int>, b: seq<int>)
    requires Unmixed(a, b) && (a == [] || b == [])
    ensures a == b == []
  {
    assert IsPrefix([], a) && IsPrefix([], b);
  }

  lemma {:induction false} KcmpTransitive(a: seq<int>, b: seq<int>, c: seq<int>)
    requires Unmixed(a, b) && Unmixed(b, c) && Unmixed(a, c) && Kcmp(a, b) <= 0 && Kcmp(b, c) <= 0
    ensures Kcmp(a, c) <= 0
  {
    if a != [] && b != [] && c != [] && a[0] == b[0] == c[0] {
      UnmixedTail(a, b);
      UnmixedTail(b, c);
      UnmixedTail(a, c);
      KcmpTransitive(a[1..], b[1..], c[1..]);
    } else if a == [] || b == [] {
      EmptyUnmixed(a, b);
    }
  }

  lemma {:induction false} KcmpFlips(a: seq<int>, b: seq<int>)
    ensures Kcmp(b, a) == -Kcmp(a, b)
  {
    if a != [] && b != [] && a[0] == b[0] {
      KcmpFlips(a[1..], b[1..]);
    }
  }

  /** Keys with the same first b bytes compare by the rest. */
  lemma {:induction false} KcmpFrom(a: seq<int>, b: seq<int>, n: nat)
    requires n <= |a| && n <= |b| && a[..n] == b[..n]
    ensures Kcmp(a, b) == Kcmp(a[n..], b[n..])
  {
    if n > 0 {
      assert a[..n][0] == a[0] && b[..n][0] == b[0];
      assert a[1..][..n - 1] == a[..n][1..] && b[1..][..n - 1] == b[..n][1..];
      KcmpFrom(a[1..], b[1..], n - 1);
      assert a[1..][n - 1..] == a[n..] && b[1..][n - 1..] == b[n..];
    } else {
      assert a[0..] == a && b[0..] == b;
    }
  }

  // ---- Counting by a byte -----------------------------------------------------------------------------------

  /** The bucket of a key: its byte b, or 256 when it has none. */
  function Bucket(keys: seq<seq<int>>, x: nat, b: nat): int {
    if x < |keys| && b < |keys[x]| then keys[x][b] else 256
  }

  function CountOf(keys: seq<seq<int>>, s: seq<nat>, b: nat, c: int): nat {
    if s == [] then 0 else CountOf(keys, s[..|s| - 1], b, c) + (if Bucket(keys, s[|s| - 1], b) == c then 1 else 0)
  }

  lemma {:induction false} CountSplit(keys: seq<seq<int>>, s: seq<nat>, t: seq<nat>, b: nat, c: int)
    ensures CountOf(keys, s + t, b, c) == CountOf(keys, s, b, c) + CountOf(keys, t, b, c)
  {
    if t == [] {
      assert s + t == s;
    } else {
      var n := |t| - 1;
      assert (s + t)[..|s + t| - 1] == s + t[..n] && (s + t)[|s + t| - 1] == t[n];
      CountSplit(keys, s, t[..n], b, c);
    }
  }

  lemma {:induction false} CountAll(keys: seq<seq<int>>, s: seq<nat>, b: nat, c: int)
    requires forall i | 0 <= i < |s| :: Bucket(keys, s[i], b) == c
    ensures CountOf(keys, s, b, c) == |s|
  {
    if s != [] {
      CountAll(keys, s[..|s| - 1], b, c);
    }
  }

  lemma {:induction false} CountOne(keys: seq<seq<int>>, s: seq<nat>, b: nat, c: int, h: nat)
    requires h < |s| && Bucket(keys, s[h], b) == c
    ensures CountOf(keys, s, b, c) >= 1
  {
    if h < |s| - 1 {
      CountOne(keys, s[..|s| - 1], b, c, h);
    }
  }

  /** A run p..q of keys of bucket c and one more elsewhere are that many keys of the bucket. */
  lemma CountBeyond(keys: seq<seq<int>>, s: seq<nat>, b: nat, c: int, p: nat, q: nat, h: nat)
    requires p <= q <= |s| && h < |s| && !(p <= h < q) && Bucket(keys, s[h], b) == c
    requires forall i | p <= i < q :: Bucket(keys, s[i], b) == c
    ensures CountOf(keys, s, b, c) >= q - p + 1
  {
    hide CountOf;
    var x, y, z := s[..p], s[p..q], s[q..];
    assert s == x + (y + z);
    CountSplit(keys, x, y + z, b, c);
    CountSplit(keys, y, z, b, c);
    CountAll(keys, y, b, c);
    if h < p {
      CountOne(keys, x, b, c, h);
    } else {
      CountOne(keys, z, b, c, h - q);
    }
  }

  lemma CountWithout(keys: seq<seq<int>>, t: seq<nat>, j: nat, b: nat, c: int)
    requires j < |t|
    ensures CountOf(keys, t, b, c) == CountOf(keys, t[..j] + t[j + 1..], b, c)
            + (if Bucket(keys, t[j], b) == c then 1 else 0)
  {
    var u := t[..j] + [t[j]];
    assert u[..j] == t[..j];
    assert t == u + t[j + 1..];
    CountSplit(keys, u, t[j + 1..], b, c);
    CountSplit(keys, t[..j], t[j + 1..], b, c);
  }

  lemma MultisetWithout(t: seq<nat>, j: nat)
    requires j < |t|
    ensures multiset(t) == multiset(t[..j] + t[j + 1..]) + multiset{t[j]}
  {
    assert t == t[..j] + [t[j]] + t[j + 1..];
  }

  lemma NotEmpty(t: seq<nat>)
    ensures t != [] ==> multiset(t) != multiset{}
  {
    if t != [] {
      assert t[0] in multiset(t);
    }
  }

  lemma {:induction false} CountPermutes(keys: seq<seq<int>>, s: seq<nat>, t: seq<nat>, b: nat, c: int)
    requires multiset(s) == multiset(t)
    ensures CountOf(keys, s, b, c) == CountOf(keys, t, b, c)
  {
    hide Bucket;
    if s == [] {
      NotEmpty(t);
    } else {
      var n := |s| - 1;
      assert s[..n] + s[n + 1..] == s[..n];
      MultisetWithout(s, n);
      assert s[n] in multiset(t);
      var j :| 0 <= j < |t| && t[j] == s[n];
      MultisetWithout(t, j);
      CountWithout(keys, s, n, b, c);
      CountWithout(keys, t, j, b, c);
      var rest := t[..j] + t[j + 1..];
      assert multiset(rest) == multiset(t) - multiset{t[j]} == multiset(s) - multiset{s[n]} == multiset(s[..n]);
      CountPermutes(keys, s[..n], rest, b, c);
    }
  }
}
