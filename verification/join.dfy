/**
 The merge join of join.c: two files read line by line, one of them rewound to the
 start of a group of equal keys. A file is the sequence of its lines' keys; a key is
 an integer, its place in the order of runecmp.
 */
module Join {

  /** A printed row: line i of file 1 with line j of file 2, or one line alone. */
  datatype Row = Both(i: nat, j: nat) | Only1(i: nat) | Only2(j: nat)

  predicate Sorted(f: seq<int>) {
    forall i, j | 0 <= i < j < |f| :: f[i] <= f[j]
  }

  // ---- The nested-loop join -----------------------------------------------------------------------

  /** Line i of file 1, whose key is k, with the first j lines of file 2. */
  function Matches(k: int, i: nat, f2: seq<int>, j: nat): (r: seq<(nat, nat)>)
    requires j <= |f2|
  {
    if j == 0 then [] else Matches(k, i, f2, j - 1) + (if f2[j - 1] == k then [(i, j - 1)] else [])
  }

  /** The nested-loop join of the first n lines of file 1 with file 2. */
  function Nested(f1: seq<int>, f2: seq<int>, n: nat): (r: seq<(nat, nat)>)
    requires n <= |f1|
  {
    if n == 0 then [] else Nested(f1, f2, n - 1) + Matches(f1[n - 1], n - 1, f2, |f2|)
  }

  /** The lines among the first n of f whose key does not occur in g. */
  function Unmatched(f: seq<int>, g: seq<int>, n: nat): seq<nat>
    requires n <= |f|
  {
    if n == 0 then [] else Unmatched(f, g, n - 1) + (if f[n - 1] in g then [] else [n - 1])
  }

  function Pairs(out: seq<Row>): seq<(nat, nat)> {
    if out == [] then []
    else Pairs(out[..|out| - 1]) + (match out[|out| - 1] case Both(i, j) => [(i, j)] case _ => [])
  }

  function Lefts(out: seq<Row>): seq<nat> {
    if out == [] then []
    else Lefts(out[..|out| - 1]) + (match out[|out| - 1] case Only1(i) => [i] case _ => [])
  }

  function Rights(out: seq<Row>): seq<nat> {
    if out == [] then []
    else Rights(out[..|out| - 1]) + (match out[|out| - 1] case Only2(j) => [j] case _ => [])
  }

  lemma Printed(out: seq<Row>, r: Row)
    ensures Pairs(out + [r]) == Pairs(out) + (match r case Both(i, j) => [(i, j)] case _ => [])
    ensures Lefts(out + [r]) == Lefts(out) + (match r case Only1(i) => [i] case _ => [])
    ensures Rights(out + [r]) == Rights(out) + (match r case Only2(j) => [j] case _ => [])
  {
    assert (out + [r])[..|out|] == out;
  }

  /** Only pairs have been printed since out0. */
  predicate Paired(out0: seq<Row>, out: seq<Row>) {
    Lefts(out) == Lefts(out0) && Rights(out) == Rights(out0)
  }

  lemma PrintedPair(out0: seq<Row>, out: seq<Row>, i: nat, j: nat)
    requires Paired(out0, out)
    ensures Pairs(out + [Both(i, j)]) == Pairs(out) + [(i, j)] && Paired(out0, out + [Both(i, j)])
  {
    Printed(out, Both(i, j));
  }

  lemma {:induction false} NoMatches(k: int, i: nat, f2: seq<int>, j: nat)
    requires j <= |f2| && k !in f2[..j]
    ensures Matches(k, i, f2, j) == []
  {
    if j > 0 {
      assert f2[j - 1] in f2[..j];
      assert f2[..j][..j - 1] == f2[..j - 1];
      assert forall x | x in f2[..j - 1] :: x in f2[..j];
      NoMatches(k, i, f2, j - 1);
    }
  }

  /** No line of f2 outside lo..hi has the key. */
  lemma {:induction false} MatchesIn(k: int, i: nat, f2: seq<int>, lo: nat, hi: nat, j: nat)
    requires lo <= hi <= j <= |f2|
    requires forall x | 0 <= x < lo || hi <= x < j :: f2[x] != k
    ensures Matches(k, i, f2, j) == Matches(k, i, f2, hi) && Matches(k, i, f2, lo) == []
  {
    if j > hi {
      MatchesIn(k, i, f2, lo, hi, j - 1);
    } else {
      NoMatches(k, i, f2, lo);
    }
  }

  /** Separated: everything read from the two files is below everything still to be read. */
  predicate Split(f1: seq<int>, f2: seq<int>, i: nat, j: nat) {
    && i <= |f1| && j <= |f2|
    && (0 < i && j < |f2| ==> f1[i - 1] < f2[j])
    && (i < |f1| && 0 < j ==> f2[j - 1] < f1[i])
  }

  /** The current line of f is below the one of g, or g is used up: it has no match in g. */
  lemma Below(f: seq<int>, g: seq<int>, i: nat, j: nat)
    requires Sorted(f) && Sorted(g) && Split(f, g, i, j) && i < |f| && (j < |g| ==> f[i] < g[j])
    ensures f[i] !in g && Split(f, g, i + 1, j)
  {
    forall y | 0 <= y < |g| ensures g[y] != f[i] {
      if y < j {
        assert g[y] <= g[j - 1];
      } else {
        assert g[j] <= g[y];
      }
    }
  }

  lemma {:induction false} RestUnmatched(f1: seq<int>, f2: seq<int>, i: nat)
    requires Sorted(f1) && Sorted(f2) && Split(f1, f2, i, |f2|)
    ensures Nested(f1, f2, |f1|) == Nested(f1, f2, i)
    decreases |f1| - i
  {
    hide Matches, Sorted;
    if i < |f1| {
      Below(f1, f2, i, |f2|);
      RestUnmatched(f1, f2, i + 1);
      assert f2[..|f2|] == f2;
      NoMatches(f1[i], i, f2, |f2|);
    }
  }

  /** What has been printed when the first i and j lines have been dealt with. */
  ghost predicate Done(f1: seq<int>, f2: seq<int>, a1: bool, a2: bool, i: nat, j: nat, out: seq<Row>)
    requires i <= |f1| && j <= |f2|
  {
    && Pairs(out) == Nested(f1, f2, i)
    && Lefts(out) == (if a1 then Unmatched(f1, f2, i) else [])
    && Rights(out) == (if a2 then Unmatched(f2, f1, j) else [])
  }

  lemma DoneAtStart(f1: seq<int>, f2: seq<int>, a1: bool, a2: bool)
    ensures Done(f1, f2, a1, a2, 0, 0, [])
  {}

  /** Line j of file 2 is passed over. */
  lemma SkipRight(f1: seq<int>, f2: seq<int>, a1: bool, a2: bool, i: nat, j: nat, out: seq<Row>)
    requires Sorted(f1) && Sorted(f2) && Split(f1, f2, i, j) && j < |f2| && (i < |f1| ==> f2[j] < f1[i])
    requires Done(f1, f2, a1, a2, i, j, out)
    ensures Split(f1, f2, i, j + 1) && Done(f1, f2, a1, a2, i, j + 1, if a2 then out + [Only2(j)] else out)
  {
    Below(f2, f1, j, i);
    Printed(out, Only2(j));
  }

  /** Line i of file 1 is passed over. */
  lemma SkipLeft(f1: seq<int>, f2: seq<int>, a1: bool, a2: bool, i: nat, j: nat, out: seq<Row>)
    requires Sorted(f1) && Sorted(f2) && Split(f1, f2, i, j) && i < |f1| && (j < |f2| ==> f1[i] < f2[j])
    requires Done(f1, f2, a1, a2, i, j, out)
    ensures Split(f1, f2, i + 1, j) && Done(f1, f2, a1, a2, i + 1, j, if a1 then out + [Only1(i)] else out)
  {
    Below(f1, f2, i, j);
    Printed(out, Only1(i));
    NoMatches(f1[i], i, f2, |f2|);
  }

  // ---- The order of the rows -----------------------------------------------------------------------------

  /** The row names lines of the files, and their key is k. */
  predicate HasKey(f1: seq<int>, f2: seq<int>, r: Row, k: int) {
    match r
    case Both(i, j) => i < |f1| && j < |f2| && f1[i] == k && f2[j] == k
    case Only1(i) => i < |f1| && f1[i] == k
    case Only2(j) => j < |f2| && f2[j] == k
  }

  ghost predicate Named(f1: seq<int>, f2: seq<int>, r: Row) {
    exists k :: HasKey(f1, f2, r, k)
  }

  /** The keys of the rows never decrease. */
  ghost predicate InKeyOrder(f1: seq<int>, f2: seq<int>, out: seq<Row>) {
    && (forall x | 0 <= x < |out| :: Named(f1, f2, out[x]))
    && forall x, y, k, l | 0 <= x < y < |out| && HasKey(f1, f2, out[x], k) && HasKey(f1, f2, out[y], l) :: k <= l
  }

  /** And they have come to k at most. */
  ghost predicate OrderedTo(f1: seq<int>, f2: seq<int>, out: seq<Row>, k: int) {
    InKeyOrder(f1, f2, out) && forall x, l | 0 <= x < |out| && HasKey(f1, f2, out[x], l) :: l <= k
  }

  lemma NothingInOrder(f1: seq<int>, f2: seq<int>)
    ensures OrderedHere(f1, f2, 0, 0, [])
  {
  }

  lemma NextRow(f1: seq<int>, f2: seq<int>, out: seq<Row>, r: Row, k: int)
    requires OrderedTo(f1, f2, out, k) && HasKey(f1, f2, r, k)
    ensures OrderedTo(f1, f2, out + [r], k)
  {
    var more := out + [r];
    forall x | 0 <= x < |more| ensures Named(f1, f2, more[x]) {
      if x < |out| {
        assert more[x] == out[x];
      } else {
        assert HasKey(f1, f2, more[x], k);
      }
    }
    forall x, l | 0 <= x < |more| && HasKey(f1, f2, more[x], l) ensures l <= k && (x == |out| ==> l == k) {
      if x < |out| {
        assert more[x] == out[x];
      }
    }
    forall x, y, m, l | 0 <= x < y < |more| && HasKey(f1, f2, more[x], m) && HasKey(f1, f2, more[y], l) ensures m <= l {
      assert more[x] == out[x];
      if y < |out| {
        assert more[y] == out[y];
      }
    }
  }

  /** The rows have come to no key above those of the current lines. */
  ghost predicate OrderedHere(f1: seq<int>, f2: seq<int>, i: nat, j: nat, out: seq<Row>) {
    && InKeyOrder(f1, f2, out)
    && (i < |f1| ==> OrderedTo(f1, f2, out, f1[i])) && (j < |f2| ==> OrderedTo(f1, f2, out, f2[j]))
  }

  /** What comes to k has not come beyond the lines at or above k. */
  lemma OrderedOn(f1: seq<int>, f2: seq<int>, i: nat, j: nat, out: seq<Row>, k: int)
    requires OrderedTo(f1, f2, out, k) && (i < |f1| ==> k <= f1[i]) && (j < |f2| ==> k <= f2[j])
    ensures OrderedHere(f1, f2, i, j, out)
  {
  }

  /** A line of file 1 that is not above the current one of file 2 is passed over. */
  lemma LeftInOrder(f1: seq<int>, f2: seq<int>, a1: bool, i: nat, j: nat, out: seq<Row>)
    requires Sorted(f1) && OrderedHere(f1, f2, i, j, out) && i < |f1| && (j < |f2| ==> f1[i] <= f2[j])
    ensures OrderedHere(f1, f2, i + 1, j, if a1 then out + [Only1(i)] else out)
  {
    NextRow(f1, f2, out, Only1(i), f1[i]);
    OrderedOn(f1, f2, i + 1, j, if a1 then out + [Only1(i)] else out, f1[i]);
  }

  lemma RightInOrder(f1: seq<int>, f2: seq<int>, a2: bool, i: nat, j: nat, out: seq<Row>)
    requires Sorted(f2) && OrderedHere(f1, f2, i, j, out) && j < |f2| && (i < |f1| ==> f2[j] <= f1[i])
    ensures OrderedHere(f1, f2, i, j + 1, if a2 then out + [Only2(j)] else out)
  {
    NextRow(f1, f2, out, Only2(j), f2[j]);
    OrderedOn(f1, f2, i, j + 1, if a2 then out + [Only2(j)] else out, f2[j]);
  }

  /** A group that both files have has been printed. */
  lemma GroupInOrder(f1: seq<int>, f2: seq<int>, k: int, i0: nat, i: nat, j0: nat, j: nat, out: seq<Row>)
    requires OrderedTo(f1, f2, out, k) && Group(f1, k, i0, i) && Group(f2, k, j0, j)
    ensures OrderedHere(f1, f2, i, j, out)
  {
    OrderedOn(f1, f2, i, j, out, k);
  }

  // ---- Groups of equal keys -----------------------------------------------------------------------------

  /** lo..hi are the lines of the sorted file f with key k. */
  predicate Group(f: seq<int>, k: int, lo: nat, hi: nat) {
    && lo < hi <= |f|
    && f[lo] == k && f[hi - 1] == k
    && (0 < lo ==> f[lo - 1] < k) && (hi < |f| ==> k < f[hi])
  }

  lemma MatchesMore(k: int, i: nat, f2: seq<int>, j: nat)
    requires j < |f2| && f2[j] == k
    ensures Matches(k, i, f2, j + 1) == Matches(k, i, f2, j) + [(i, j)]
  {}

  lemma MatchedNone(k: int, i: nat, f2: seq<int>, lo: nat)
    requires Sorted(f2) && lo <= |f2| && (0 < lo ==> f2[lo - 1] < k)
    ensures Matches(k, i, f2, lo) == []
  {
    forall x | 0 <= x < lo ensures f2[x] != k {
      assert f2[x] <= f2[lo - 1];
    }
    MatchesIn(k, i, f2, lo, lo, lo);
  }

  /** Line i of file 1 against the whole group lo..hi of file 2. */
  lemma MatchedLine(f1: seq<int>, f2: seq<int>, i: nat, lo: nat, hi: nat)
    requires Sorted(f2) && i < |f1| && Group(f2, f1[i], lo, hi)
    ensures Matches(f1[i], i, f2, lo) == []
    ensures Nested(f1, f2, i + 1) == Nested(f1, f2, i) + Matches(f1[i], i, f2, hi)
  {
    hide Matches;
    Run(f2, lo, hi);
    forall x | 0 <= x < lo || hi <= x < |f2| ensures f2[x] != f1[i] {
      if x < lo {
        assert f2[x] <= f2[lo - 1];
      } else {
        assert f2[hi] <= f2[x];
      }
    }
    MatchesIn(f1[i], i, f2, lo, hi, |f2|);
  }

  /** All lines of a group have its key. */
  lemma Run(f: seq<int>, lo: nat, hi: nat)
    requires Sorted(f) && lo < hi <= |f| && f[lo] == f[hi - 1]
    ensures forall x | lo <= x < hi :: f[x] == f[lo]
  {
    forall x | lo <= x < hi ensures f[x] == f[lo] {
      assert lo < x ==> f[lo] <= f[x];
      assert x < hi - 1 ==> f[x] <= f[hi - 1];
    }
  }

  /** No line of a group that has a match is unmatched. */
  lemma {:induction false} GroupMatched(f: seq<int>, g: seq<int>, k: int, lo: nat, hi: nat)
    requires Sorted(f) && lo < hi <= |f| && k in g && f[lo] == k && f[hi - 1] == k
    ensures Unmatched(f, g, hi) == Unmatched(f, g, lo)
    decreases hi
  {
    if lo < hi - 1 {
      Run(f, lo, hi);
      GroupMatched(f, g, k, lo, hi - 1);
    }
  }

  // ---- seek2 ------------------------------------------------------------------------------------------

  /** The current lines: i is |f1| when n1 is 0, and j is |f2| when n2 is 0. */
  method Seek2(f1: seq<int>, f2: seq<int>, a1: bool, a2: bool) returns (out: seq<Row>)
    requires Sorted(f1) && Sorted(f2)
    ensures Pairs(out) == Nested(f1, f2, |f1|)
    ensures Lefts(out) == (if a1 then Unmatched(f1, f2, |f1|) else [])
    ensures Rights(out) == (if a2 then Unmatched(f2, f1, |f2|) else [])
    ensures InKeyOrder(f1, f2, out) && IsJoin(f1, f2, a1, a2, out)
  {
    hide Pairs, Nested, Lefts, Rights, Unmatched, InKeyOrder, OrderedTo, IsJoin;
    NothingInOrder(f1, f2);
    out := [];
    DoneAtStart(f1, f2, a1, a2);
    var i, j := 0, 0;
    var bot2 := 0;
    while (i < |f1| && j < |f2|) || ((a1 || a2) && (i < |f1| || j < |f2|))
      invariant Split(f1, f2, i, j) && bot2 == j && Done(f1, f2, a1, a2, i, j, out) && OrderedHere(f1, f2, i, j, out)
      decreases |f1| - i + |f2| - j
    {
      if (i < |f1| && j < |f2| && f1[i] > f2[j]) || i == |f1| {
        SkipRight(f1, f2, a1, a2, i, j, out);
        RightInOrder(f1, f2, a2, i, j, out);
        if a2 {
          out := out + [Only2(j)];
        }
        bot2 := j + 1;
        j := j + 1;
      } else if (i < |f1| && j < |f2| && f1[i] < f2[j]) || j == |f2| {
        SkipLeft(f1, f2, a1, a2, i, j, out);
        LeftInOrder(f1, f2, a1, i, j, out);
        if a1 {
          out := out + [Only1(i)];
        }
        i := i + 1;
      } else {
        ghost var i0, out0 := i, out;
        var top2;
        j, top2, out := First2(f1, f2, i, j, out);
        i, out := Again2(f1, f2, i, bot2, top2, out);
        GroupDone(f1, f2, a1, a2, i0, i, bot2, top2, out0, out);
        GroupInOrder(f1, f2, f1[i0], i0, i, bot2, top2, out);
        bot2 := top2;
        j := top2;
      }
    }
    if j == |f2| {
      RestUnmatched(f1, f2, i);
    }
    ListsAreJoin(f1, f2, a1, a2, out);
  }

  /** The first line of the group of file 1, against the lines of file 2 as they come. */
  method First2(f1: seq<int>, f2: seq<int>, i: nat, j0: nat, out0: seq<Row>) returns (j: nat, top2: nat, out: seq<Row>)
    requires Sorted(f2) && i < |f1| && j0 < |f2| && f1[i] == f2[j0] && (0 < j0 ==> f2[j0 - 1] < f1[i])
    requires Pairs(out0) == Nested(f1, f2, i) && OrderedTo(f1, f2, out0, f1[i])
    ensures j == top2 > j0 && Group(f2, f1[i], j0, top2)
    ensures Pairs(out) == Nested(f1, f2, i + 1) && Paired(out0, out) && OrderedTo(f1, f2, out, f1[i])
  {
    hide InKeyOrder, OrderedTo;
    j, top2, out := j0, 0, out0;
    MatchedNone(f1[i], i, f2, j0);
    while j < |f2| && f1[i] == f2[j]
      invariant j0 <= j <= |f2| && (j > j0 ==> top2 == j && f2[j - 1] == f1[i])
      invariant Pairs(out) == Nested(f1, f2, i) + Matches(f1[i], i, f2, j)
      invariant Paired(out0, out) && OrderedTo(f1, f2, out, f1[i])
    {
      PrintedPair(out0, out, i, j);
      NextRow(f1, f2, out, Both(i, j), f1[i]);
      out := out + [Both(i, j)];
      top2 := j + 1;
      j := j + 1;
    }
    MatchedLine(f1, f2, i, j0, top2);
  }

  /** What is at j of file 2 says which of the three cases line i of file 1 is in. */
  lemma Place(f1: seq<int>, f2: seq<int>, k: int, i: nat, bot2: nat, top2: nat, j: nat)
    requires Sorted(f1) && Sorted(f2) && Group(f2, k, bot2, top2) && 0 < i <= |f1| && f1[i - 1] == k
             && bot2 <= j <= top2
    requires j > bot2 ==> i < |f1| && f1[i] == k
    ensures i < |f1| && j < |f2| && f1[i] == f2[j] ==> f1[i] == k && j < top2
    ensures (i < |f1| && j < |f2| && f1[i] < f2[j]) || j == |f2| ==> j == top2
    ensures (i == |f1| && j < |f2|) || (i < |f1| && j < |f2| && f1[i] > f2[j]) ==> j == bot2 && (i < |f1| ==> k < f1[i])
  {
    assert i < |f1| ==> f1[i - 1] <= f1[i];
    Run(f2, bot2, top2);
    assert j < top2 ==> f2[j] == k;
  }

  /** Lines i0..i of file 1 have all their pairs, line i those with the group's lines below j. */
  predicate Reading(f1: seq<int>, f2: seq<int>, k: int, i: nat, bot2: nat, j: nat, pairs: seq<(nat, nat)>)
    requires i <= |f1| && j <= |f2|
  {
    && (j > bot2 ==> i < |f1| && f1[i] == k)
    && pairs == (if j > bot2 then Nested(f1, f2, i) + Matches(k, i, f2, j) else Nested(f1, f2, i))
  }

  lemma Hit(f1: seq<int>, f2: seq<int>, k: int, i: nat, bot2: nat, top2: nat, j: nat, pairs: seq<(nat, nat)>)
    requires Sorted(f2) && Group(f2, k, bot2, top2) && bot2 <= j < top2 && i < |f1| && f1[i] == k
    requires Reading(f1, f2, k, i, bot2, j, pairs)
    ensures Reading(f1, f2, k, i, bot2, j + 1, pairs + [(i, j)])
  {
    hide Nested, Sorted, Matches;
    Run(f2, bot2, top2);
    MatchedLine(f1, f2, i, bot2, top2);
    MatchesMore(k, i, f2, j);
    Appended(Nested(f1, f2, i), Matches(k, i, f2, j), (i, j));
  }

  lemma Appended<T>(a: seq<T>, b: seq<T>, x: T)
    ensures a + b + [x] == a + (b + [x]) && (b == [] ==> a + [x] == a + (b + [x]))
  {
  }

  lemma NextLine(f1: seq<int>, f2: seq<int>, k: int, i: nat, bot2: nat, top2: nat, pairs: seq<(nat, nat)>)
    requires Sorted(f2) && Group(f2, k, bot2, top2) && bot2 < top2 && i <= |f1|
    requires Reading(f1, f2, k, i, bot2, top2, pairs)
    ensures i < |f1| && f1[i] == k && Reading(f1, f2, k, i + 1, bot2, bot2, pairs)
  {
    MatchedLine(f1, f2, i, bot2, top2);
  }

  /** File 2 is rewound to bot2 for every further line of file 1 with the same key. */
  method Again2(f1: seq<int>, f2: seq<int>, i0: nat, bot2: nat, top2: nat, out0: seq<Row>)
    returns (i: nat, out: seq<Row>)
    requires Sorted(f1) && Sorted(f2) && i0 < |f1| && (0 < i0 ==> f1[i0 - 1] < f1[i0])
    requires bot2 < top2 && Group(f2, f1[i0], bot2, top2)
    requires Pairs(out0) == Nested(f1, f2, i0 + 1) && OrderedTo(f1, f2, out0, f1[i0])
    ensures i > i0 && Group(f1, f1[i0], i0, i)
    ensures Pairs(out) == Nested(f1, f2, i) && Paired(out0, out) && OrderedTo(f1, f2, out, f1[i0])
  {
    hide Pairs, Nested, Matches, Lefts, Rights, InKeyOrder, OrderedTo;
    ghost var k := f1[i0];
    var j := bot2;
    i, out := i0 + 1, out0;
    while true
      invariant i0 < i <= |f1| && bot2 <= j <= top2
      invariant f1[i - 1] == k
      invariant Reading(f1, f2, k, i, bot2, j, Pairs(out))
      invariant Paired(out0, out) && OrderedTo(f1, f2, out, k)
      decreases |f1| - i, top2 - j
    {
      Place(f1, f2, k, i, bot2, top2, j);
      if i < |f1| && j < |f2| && f1[i] == f2[j] {
        Hit(f1, f2, k, i, bot2, top2, j, Pairs(out));
        PrintedPair(out0, out, i, j);
        NextRow(f1, f2, out, Both(i, j), k);
        out := out + [Both(i, j)];
        j := j + 1;
      } else if (i < |f1| && j < |f2| && f1[i] < f2[j]) || j == |f2| {
        NextLine(f1, f2, k, i, bot2, top2, Pairs(out));
        j := bot2;
        i := i + 1;
      } else {
        break;
      }
    }
  }

  /** A group that both files have is dealt with. */
  lemma GroupDone(f1: seq<int>, f2: seq<int>, a1: bool, a2: bool, i0: nat, i: nat, j0: nat, j: nat, out0: seq<Row>,
                  out: seq<Row>)
    requires Sorted(f1) && Sorted(f2) && i0 < i <= |f1| && j0 < j <= |f2| && f1[i0] == f2[j0]
    requires Group(f1, f1[i0], i0, i) && Group(f2, f1[i0], j0, j)
    requires Done(f1, f2, a1, a2, i0, j0, out0)
    requires Pairs(out) == Nested(f1, f2, i) && Paired(out0, out)
    ensures Split(f1, f2, i, j) && Done(f1, f2, a1, a2, i, j, out)
  {
    GroupMatched(f1, f2, f1[i0], i0, i);
    GroupMatched(f2, f1, f1[i0], j0, j);
  }

  // ---- seek1 ------------------------------------------------------------------------------------------

  function Turn(r: Row): Row {
    match r
    case Both(i, j) => Both(j, i)
    case Only1(i) => Only2(i)
    case Only2(j) => Only1(j)
  }

  /** The rows with the two files exchanged. */
  function Mirror(out: seq<Row>): (r: seq<Row>)
    ensures |r| == |out|
  {
    if out == [] then [] else Mirror(out[..|out| - 1]) + [Turn(out[|out| - 1])]
  }

  lemma Mirrored(out: seq<Row>, r: Row)
    ensures Mirror(out + [r]) == Mirror(out) + [Turn(r)]
  {
    assert (out + [r])[..|out|] == out;
  }

  lemma {:induction false} MirrorRows(out: seq<Row>)
    ensures Lefts(Mirror(out)) == Rights(out) && Rights(Mirror(out)) == Lefts(out)
    ensures forall i, j :: multiset(Pairs(Mirror(out)))[(j, i)] == multiset(Pairs(out))[(i, j)]
  {
    if out != [] {
      var n := |out| - 1;
      MirrorRows(out[..n]);
      Printed(Mirror(out[..n]), Turn(out[n]));
    }
  }

  lemma Shown(out0: seq<Row>, out: seq<Row>, i: nat, j: nat)
    requires Paired(Mirror(out0), Mirror(out))
    ensures Pairs(Mirror(out + [Both(i, j)])) == Pairs(Mirror(out)) + [(j, i)]
    ensures Paired(Mirror(out0), Mirror(out + [Both(i, j)]))
  {
    Mirrored(out, Both(i, j));
    PrintedPair(Mirror(out0), Mirror(out), j, i);
  }

  /** The first loop of a group in seek1: the line of file 1 and the key left in its buffer. */
  datatype Scan = Scan(i: nat, key: int, out: seq<Row>)

  /** Its body: print, and read the next line of file 1, which leaves the buffer alone at the end. */
  function ScanBody(f1: seq<int>, j: nat, s: Scan): Scan {
    var row := if s.i < |f1| then Both(s.i, j) else Only2(j);
    if s.i + 1 < |f1| then Scan(s.i + 1, f1[s.i + 1], s.out + [row]) else Scan(|f1|, s.key, s.out + [row])
  }

  function Scanned(f1: seq<int>, j: nat, s: Scan, n: nat): Scan {
    if n == 0 then s else ScanBody(f1, j, Scanned(f1, j, s, n - 1))
  }

  /** Once file 1 has ended with the key of line j of file 2, the loop never ends: it prints that line for ever. */
  lemma {:induction false} ScanForever(f1: seq<int>, f2: seq<int>, j: nat, s: Scan, n: nat)
    requires j < |f2| && s.i == |f1| && s.key == f2[j]
    ensures Scanned(f1, j, s, n) == Scan(|f1|, f2[j], s.out + seq(n, _ => Only2(j)))
  {
    if n == 0 {
      assert s.out + seq(0, _ => Only2(j)) == s.out;
    } else {
      ScanForever(f1, f2, j, s, n - 1);
      assert s.out + seq(n - 1, _ => Only2(j)) + [Only2(j)] == s.out + seq(n, _ => Only2(j));
    }
  }

  /** The guard of the loop, which does not test whether file 1 has ended, holds after n times round. */
  predicate Goes(f1: seq<int>, f2: seq<int>, j: nat, s: Scan, n: nat)
    requires j < |f2|
  {
    Scanned(f1, j, s, n).key == f2[j]
  }

  /** After n times round: line i0 + n, or the last line's key left in the buffer. */
  lemma {:induction false} ScannedIs(f1: seq<int>, j: nat, s: Scan, n: nat)
    requires s.i < |f1| && s.key == f1[s.i]
    ensures var t := Scanned(f1, j, s, n);
            t.i == (if s.i + n < |f1| then s.i + n else |f1|)
            && t.key == f1[if s.i + n < |f1| then s.i + n else |f1| - 1]
  {
    if n > 0 {
      ScannedIs(f1, j, s, n - 1);
    }
  }

  /** Entered at a line of file 1 with the key of line j, the loop never ends exactly when file 1 ends with that key. */
  lemma EndlessWhen(f1: seq<int>, f2: seq<int>, j: nat, s: Scan)
    requires Sorted(f1) && j < |f2| && s.i < |f1| && s.key == f1[s.i] == f2[j]
    ensures (forall n: nat :: Goes(f1, f2, j, s, n)) <==> f1[|f1| - 1] == f2[j]
  {
    if f1[|f1| - 1] == f2[j] {
      forall n: nat ensures Goes(f1, f2, j, s, n) {
        ScannedIs(f1, j, s, n);
        var l := if s.i + n < |f1| then s.i + n else |f1| - 1;
        assert s.i < l ==> f1[s.i] <= f1[l];
        assert l < |f1| - 1 ==> f1[l] <= f1[|f1| - 1];
      }
    } else {
      var n: nat := |f1| - 1 - s.i;
      ScannedIs(f1, j, s, n);
      assert !Goes(f1, f2, j, s, n);
    }
  }

  /**
   * The first line of the group of file 2, against the lines of file 1 as they come. The loop is followed for
   * n times round: to its end, or, when stuck, to the end of file 1, where it goes on as ScanForever says.
   */
  method First1(f1: seq<int>, f2: seq<int>, i0: nat, j: nat, out0: seq<Row>)
    returns (top1: nat, out: seq<Row>, stuck: bool, ghost n: nat)
    requires Sorted(f1) && j < |f2| && i0 < |f1| && f2[j] == f1[i0] && (0 < i0 ==> f1[i0 - 1] < f2[j])
    requires Pairs(Mirror(out0)) == Nested(f2, f1, j) && OrderedTo(f1, f2, out0, f2[j])
    ensures i0 < top1 && Group(f1, f2[j], i0, top1) && (stuck <==> top1 == |f1|)
    ensures Pairs(Mirror(out)) == Nested(f2, f1, j + 1)
    ensures Paired(Mirror(out0), Mirror(out)) && OrderedTo(f1, f2, out, f2[j])
    ensures out == Scanned(f1, j, Scan(i0, f1[i0], out0), n).out
            && forall m: nat | m < n :: Goes(f1, f2, j, Scan(i0, f1[i0], out0), m)
    ensures !stuck ==> !Goes(f1, f2, j, Scan(i0, f1[i0], out0), n)
    ensures stuck ==> Scanned(f1, j, Scan(i0, f1[i0], out0), n) == Scan(|f1|, f2[j], out)
    ensures stuck <==> forall m: nat :: Goes(f1, f2, j, Scan(i0, f1[i0], out0), m)
  {
    hide Pairs, Nested, Matches, Lefts, Rights, Mirror, ScanBody, InKeyOrder, OrderedTo;
    ghost var start := Scan(i0, f1[i0], out0);
    var s := Scan(i0, f1[i0], out0);
    top1, n := 0, 0;
    MatchedNone(f2[j], j, f1, i0);
    while s.i < |f1| && s.key == f2[j]
      invariant i0 <= s.i <= |f1| && (s.i > i0 ==> top1 == s.i && f1[s.i - 1] == f2[j])
      invariant s.key == if s.i < |f1| then f1[s.i] else f2[j]
      invariant Pairs(Mirror(s.out)) == Nested(f2, f1, j) + Matches(f2[j], j, f1, s.i)
      invariant Paired(Mirror(out0), Mirror(s.out)) && OrderedTo(f1, f2, s.out, f2[j])
      invariant s == Scanned(f1, j, start, n) && forall m: nat | m < n :: Goes(f1, f2, j, start, m)
      decreases |f1| - s.i
    {
      Shown(out0, s.out, s.i, j);
      NextRow(f1, f2, s.out, Both(s.i, j), f2[j]);
      MatchesMore(f2[j], j, f1, s.i);
      top1 := s.i + 1;
      BodyIs(f1, j, s);
      s := ScanBody(f1, j, s);
      n := n + 1;
    }
    out := s.out;
    stuck := s.key == f2[j];
    MatchedLine(f2, f1, j, i0, top1);
    EndlessWhen(f1, f2, j, start);
    LastOfGroup(f1, f2[j], top1);
  }

  lemma BodyIs(f1: seq<int>, j: nat, s: Scan)
    requires s.i < |f1|
    ensures ScanBody(f1, j, s) == if s.i + 1 < |f1| then Scan(s.i + 1, f1[s.i + 1], s.out + [Both(s.i, j)])
            else Scan(|f1|, s.key, s.out + [Both(s.i, j)])
  {
  }

  /** A group that ends before the file does not have the file's last key. */
  lemma LastOfGroup(f1: seq<int>, k: int, top: nat)
    requires Sorted(f1) && 0 < top <= |f1| && f1[top - 1] == k && (top < |f1| ==> f1[top] != k)
    ensures f1[|f1| - 1] == k <==> top == |f1|
  {
    if top < |f1| {
      assert f1[top - 1] <= f1[top];
      assert top < |f1| - 1 ==> f1[top] <= f1[|f1| - 1];
    }
  }

  /** File 1 is rewound to bot1 for every further line of file 2 with the same key. */
  method Again1(f1: seq<int>, f2: seq<int>, j0: nat, bot1: nat, top1: nat, out0: seq<Row>)
    returns (j: nat, out: seq<Row>)
    requires Sorted(f1) && Sorted(f2) && j0 < |f2| && (0 < j0 ==> f2[j0 - 1] < f2[j0])
    requires bot1 < top1 && Group(f1, f2[j0], bot1, top1)
    requires Pairs(Mirror(out0)) == Nested(f2, f1, j0 + 1) && OrderedTo(f1, f2, out0, f2[j0])
    ensures j > j0 && Group(f2, f2[j0], j0, j)
    ensures Pairs(Mirror(out)) == Nested(f2, f1, j)
    ensures Paired(Mirror(out0), Mirror(out)) && OrderedTo(f1, f2, out, f2[j0])
  {
    hide Pairs, Nested, Matches, Lefts, Rights, Mirror, InKeyOrder, OrderedTo;
    ghost var k := f2[j0];
    var i := bot1;
    j, out := j0 + 1, out0;
    while true
      invariant j0 < j <= |f2| && bot1 <= i <= top1
      invariant f2[j - 1] == k
      invariant Reading(f2, f1, k, j, bot1, i, Pairs(Mirror(out)))
      invariant Paired(Mirror(out0), Mirror(out)) && OrderedTo(f1, f2, out, k)
      decreases |f2| - j, top1 - i
    {
      Place(f2, f1, k, j, bot1, top1, i);
      if i < |f1| && j < |f2| && f1[i] == f2[j] {
        Hit(f2, f1, k, j, bot1, top1, i, Pairs(Mirror(out)));
        Shown(out0, out, i, j);
        NextRow(f1, f2, out, Both(i, j), k);
        out := out + [Both(i, j)];
        i := i + 1;
      } else if (i < |f1| && j < |f2| && f1[i] > f2[j]) || i == |f1| {
        NextLine(f2, f1, k, j, bot1, top1, Pairs(Mirror(out)));
        i := bot1;
        j := j + 1;
      } else {
        break;
      }
    }
  }

  /**
   * seek1. Where it does not end, stuck is set: the first loop of a group, entered in the state s at line j of
   * file 2, goes round for ever. That happens exactly when the last key of file 1 occurs in file 2.
   */
  method Seek1(f1: seq<int>, f2: seq<int>, a1: bool, a2: bool)
    returns (out: seq<Row>, stuck: bool, ghost j: nat, ghost s: Scan)
    requires Sorted(f1) && Sorted(f2)
    ensures stuck <==> f1 != [] && f1[|f1| - 1] in f2
    ensures stuck ==> j < |f2| && Pairs(Mirror(s.out)) == Nested(f2, f1, j) && InKeyOrder(f1, f2, s.out)
                      && forall n: nat :: Goes(f1, f2, j, s, n)
    ensures !stuck ==> Pairs(Mirror(out)) == Nested(f2, f1, |f2|)
                       && multiset(Pairs(out)) == multiset(Nested(f1, f2, |f1|))
    ensures !stuck ==> Lefts(out) == if a1 then Unmatched(f1, f2, |f1|) else []
    ensures !stuck ==> Rights(out) == if a2 then Unmatched(f2, f1, |f2|) else []
    ensures !stuck ==> InKeyOrder(f1, f2, out) && IsJoin(f1, f2, a1, a2, out)
  {
    hide Pairs, Nested, Lefts, Rights, Mirror, Unmatched, Goes, InKeyOrder, OrderedTo, IsJoin;
    NothingInOrder(f1, f2);
    out, stuck := [], false;
    DoneAtStart(f2, f1, a2, a1);
    var i, n2 := 0, 0;
    var bot1 := 0;
    j, s := 0, Scan(0, 0, []);
    while (i < |f1| && n2 < |f2|) || ((a1 || a2) && (i < |f1| || n2 < |f2|))
      invariant Split(f2, f1, n2, i) && bot1 == i && Done(f2, f1, a2, a1, n2, i, Mirror(out))
      invariant OrderedHere(f1, f2, i, n2, out) && (i == |f1| && i > 0 ==> f1[i - 1] !in f2)
      decreases |f1| - i + |f2| - n2
    {
      if (i < |f1| && n2 < |f2| && f1[i] > f2[n2]) || i == |f1| {
        SkipLeft(f2, f1, a2, a1, n2, i, Mirror(out));
        RightInOrder(f1, f2, a2, i, n2, out);
        Mirrored(out, Only2(n2));
        if a2 {
          out := out + [Only2(n2)];
        }
        n2 := n2 + 1;
      } else if (i < |f1| && n2 < |f2| && f1[i] < f2[n2]) || n2 == |f2| {
        SkipRight(f2, f1, a2, a1, n2, i, Mirror(out));
        LeftInOrder(f1, f2, a1, i, n2, out);
        Below(f1, f2, i, n2);
        Mirrored(out, Only1(i));
        if a1 {
          out := out + [Only1(i)];
        }
        bot1 := i + 1;
        i := i + 1;
      } else {
        ghost var j0, out0, n := n2, out, 0;
        var top1;
        j, s := n2, Scan(i, f1[i], out);
        top1, out, stuck, n := First1(f1, f2, i, n2, out);
        if stuck {
          return;
        }
        n2, out := Again1(f1, f2, n2, bot1, top1, out);
        GroupDone(f2, f1, a2, a1, j0, n2, bot1, top1, Mirror(out0), Mirror(out));
        GroupInOrder(f1, f2, f2[j0], bot1, top1, j0, n2, out);
        bot1 := top1;
        i := top1;
      }
    }
    if i == |f1| {
      RestUnmatched(f2, f1, n2);
    } else {
      LastIsAbove(f1, f2, i);
    }
    MirrorRows(out);
    OrdersAgree(f1, f2, out);
    ListsAreJoin(f1, f2, a1, a2, out);
  }

  lemma LastIsAbove(f1: seq<int>, f2: seq<int>, i: nat)
    requires Sorted(f1) && Sorted(f2) && i < |f1| && Split(f2, f1, |f2|, i)
    ensures f1[|f1| - 1] !in f2
  {
    forall y | 0 <= y < |f2| ensures f2[y] < f1[|f1| - 1] {
      assert y < |f2| - 1 ==> f2[y] <= f2[|f2| - 1];
      assert i < |f1| - 1 ==> f1[i] <= f1[|f1| - 1];
    }
  }

  // ---- Both orders print the same pairs ------------------------------------------------------------------

  lemma OnePair(k: int, i: nat, key: int, j: nat, x: nat, y: nat)
    ensures var last: seq<(nat, nat)> := if key == k then [(i, j)] else [];
            multiset(last)[(x, y)] == if key == k && x == i && y == j then 1 else 0
  {
  }

  lemma CountBoth<T>(a: seq<T>, b: seq<T>, x: T)
    ensures multiset(a + b)[x] == multiset(a)[x] + multiset(b)[x]
  {
  }

  lemma {:induction false} MatchCount(k: int, i: nat, f2: seq<int>, n: nat, x: nat, y: nat)
    requires n <= |f2|
    ensures multiset(Matches(k, i, f2, n))[(x, y)] == if x == i && y < n && f2[y] == k then 1 else 0
  {
    hide Matches;
    if n > 0 {
      MatchCount(k, i, f2, n - 1, x, y);
      var last: seq<(nat, nat)> := if f2[n - 1] == k then [(i, n - 1)] else [];
      LastMatch(k, i, f2, n);
      CountBoth(Matches(k, i, f2, n - 1), last, (x, y));
      OnePair(k, i, f2[n - 1], n - 1, x, y);
    } else {
      NoMatches(k, i, f2, 0);
    }
  }

  lemma LastMatch(k: int, i: nat, f2: seq<int>, n: nat)
    requires 0 < n <= |f2|
    ensures Matches(k, i, f2, n) == Matches(k, i, f2, n - 1) + if f2[n - 1] == k then [(i, n - 1)] else []
  {
  }

  /** Each pair of lines with equal keys is in the nested-loop join exactly once. */
  lemma {:induction false} NestedCount(f1: seq<int>, f2: seq<int>, n: nat, x: nat, y: nat)
    requires n <= |f1|
    ensures multiset(Nested(f1, f2, n))[(x, y)] == if x < n && y < |f2| && f1[x] == f2[y] then 1 else 0
  {
    hide Matches;
    if n > 0 {
      NestedCount(f1, f2, n - 1, x, y);
      MatchCount(f1[n - 1], n - 1, f2, |f2|, x, y);
    }
  }

  // ---- What is printed -------------------------------------------------------------------------------------

  /** A pair of lines is printed if their keys are equal, and a line alone if its key is not in the other file and the
      unmatched lines of its file are asked for. */
  predicate Belongs(f1: seq<int>, f2: seq<int>, a1: bool, a2: bool, r: Row) {
    match r
    case Both(i, j) => i < |f1| && j < |f2| && f1[i] == f2[j]
    case Only1(i) => a1 && i < |f1| && f1[i] !in f2
    case Only2(j) => a2 && j < |f2| && f2[j] !in f1
  }

  /** Each row that belongs there is printed once, and no other. */
  ghost predicate IsJoin(f1: seq<int>, f2: seq<int>, a1: bool, a2: bool, out: seq<Row>) {
    forall r :: multiset(out)[r] == if Belongs(f1, f2, a1, a2, r) then 1 else 0
  }

  /** How often the row is in the list of its kind. */
  function Times(out: seq<Row>, r: Row): nat {
    match r
    case Both(i, j) => multiset(Pairs(out))[(i, j)]
    case Only1(i) => multiset(Lefts(out))[i]
    case Only2(j) => multiset(Rights(out))[j]
  }

  lemma {:induction false} TimesPrinted(out: seq<Row>, r: Row)
    ensures multiset(out)[r] == Times(out, r)
  {
    hide Pairs, Lefts, Rights;
    if out == [] {
      NoRows();
    } else {
      var n := |out| - 1;
      TimesPrinted(out[..n], r);
      assert out == out[..n] + [out[n]];
      CountBoth(out[..n], [out[n]], r);
      TimesSnoc(out[..n], out[n], r);
    }
  }

  lemma NoRows()
    ensures Pairs([]) == [] && Lefts([]) == [] && Rights([]) == []
  {
  }

  lemma TimesSnoc(out: seq<Row>, x: Row, r: Row)
    ensures Times(out + [x], r) == Times(out, r) + if x == r then 1 else 0
  {
    hide Pairs, Lefts, Rights;
    Printed(out, x);
  }

  lemma {:induction false} UnmatchedCount(f: seq<int>, g: seq<int>, n: nat, x: nat)
    requires n <= |f|
    ensures multiset(Unmatched(f, g, n))[x] == if x < n && f[x] !in g then 1 else 0
  {
    hide Unmatched;
    UnmatchedSnoc(f, g, n);
    if n > 0 {
      UnmatchedCount(f, g, n - 1, x);
      var last: seq<nat> := if f[n - 1] in g then [] else [n - 1];
      CountBoth(Unmatched(f, g, n - 1), last, x);
      OneLine(n - 1, f[n - 1] in g, x);
    }
  }

  lemma UnmatchedSnoc(f: seq<int>, g: seq<int>, n: nat)
    requires n <= |f|
    ensures Unmatched(f, g, n) == if n == 0 then [] else
              Unmatched(f, g, n - 1) + if f[n - 1] in g then [] else [n - 1]
  {
  }

  lemma OneLine(i: nat, skip: bool, x: nat)
    ensures var last: seq<nat> := if skip then [] else [i]; multiset(last)[x] == if x == i && !skip then 1 else 0
  {
  }

  lemma ListsAreJoin(f1: seq<int>, f2: seq<int>, a1: bool, a2: bool, out: seq<Row>)
    requires multiset(Pairs(out)) == multiset(Nested(f1, f2, |f1|))
    requires Lefts(out) == (if a1 then Unmatched(f1, f2, |f1|) else [])
    requires Rights(out) == (if a2 then Unmatched(f2, f1, |f2|) else [])
    ensures IsJoin(f1, f2, a1, a2, out)
  {
    hide Pairs, Lefts, Rights, Nested, Unmatched;
    forall r ensures multiset(out)[r] == if Belongs(f1, f2, a1, a2, r) then 1 else 0 {
      TimesPrinted(out, r);
      match r
      case Both(i, j) => NestedCount(f1, f2, |f1|, i, j);
      case Only1(i) => UnmatchedCount(f1, f2, |f1|, i);
      case Only2(j) => UnmatchedCount(f2, f1, |f2|, j);
    }
  }

  /** What seek1 prints in file-2 order is, as a multiset, the nested-loop join. */
  lemma OrdersAgree(f1: seq<int>, f2: seq<int>, out: seq<Row>)
    requires Pairs(Mirror(out)) == Nested(f2, f1, |f2|)
    ensures multiset(Pairs(out)) == multiset(Nested(f1, f2, |f1|))
  {
    hide Nested, Pairs, Mirror;
    forall p: (nat, nat) ensures multiset(Pairs(out))[p] == multiset(Nested(f1, f2, |f1|))[p] {
      PairAgrees(f1, f2, out, p.0, p.1);
    }
  }

  lemma PairAgrees(f1: seq<int>, f2: seq<int>, out: seq<Row>, x: nat, y: nat)
    requires Pairs(Mirror(out)) == Nested(f2, f1, |f2|)
    ensures multiset(Pairs(out))[(x, y)] == multiset(Nested(f1, f2, |f1|))[(x, y)]
  {
    hide Nested, Pairs, Mirror;
    MirrorRows(out);
    NestedCount(f1, f2, |f1|, x, y);
    NestedCount(f2, f1, |f2|, y, x);
    assert multiset(Pairs(Mirror(out)))[(y, x)] == multiset(Pairs(out))[(x, y)];
  }

  /** A one-line file whose key occurs in file 2 is enough to make seek1 run for ever. */
  lemma StuckExample()
    ensures var f1, f2 := [7], [7];
      Sorted(f1) && Sorted(f2) && forall n: nat :: n > 0 ==> Scanned(f1, 0, Scan(0, 7, []), n).key == f2[0]
  {
    forall n: nat {:trigger Scanned([7], 0, Scan(0, 7, []), n)} | n > 0
      ensures Scanned([7], 0, Scan(0, 7, []), n).key == 7
    {
      StuckStep(n - 1);
    }
  }

  lemma {:induction false} StuckStep(n: nat)
    ensures Scanned([7], 0, Scan(0, 7, []), n + 1) == Scan(1, 7, [Both(0, 0)] + seq(n, _ => Only2(0)))
  {
    if n == 0 {
      assert Scanned([7], 0, Scan(0, 7, []), 0) == Scan(0, 7, []);
      assert [Both(0, 0)] + seq(0, _ => Only2(0)) == [Both(0, 0)];
    } else {
      StuckStep(n - 1);
      assert [Both(0, 0)] + seq(n - 1, _ => Only2(0)) + [Only2(0)] == [Both(0, 0)] + seq(n, _ => Only2(0));
    }
  }
}
