/**
 Signed numbers in base 100, as dc keeps them (cmd/dc.c): digits 0..99, the least significant first, and
 perhaps a top digit -1.
 */
module DcNumber {

  function Weight(k: nat): (w: int)
    ensures w > 0
  {
    if k == 0 then 1 else 100 * Weight(k - 1)
  }

  function Value(s: seq<int>): int {
    if s == [] then 0 else Value(s[..|s| - 1]) + s[|s| - 1] * Weight(|s| - 1)
  }

  predicate Digits(s: seq<int>) {
    forall i | 0 <= i < |s| :: 0 <= s[i] < 100
  }

  predicate Negative(s: seq<int>) {
    s != [] && s[|s| - 1] == -1
  }

  predicate Num(s: seq<int>) {
    s == [] || (Digits(s[..|s| - 1]) && -1 <= s[|s| - 1] < 100)
  }

  /** No top digit could be left out. */
  predicate Canonical(s: seq<int>) {
    s == [] || (s[|s| - 1] != 0 && !(s[|s| - 1] == -1 && |s| >= 2 && s[|s| - 2] == 99))
  }

  // ---- Values ---------------------------------------------------------------------------------------

  lemma ValueSnoc(s: seq<int>, d: int)
    ensures Value(s + [d]) == Value(s) + d * Weight(|s|)
  {
    assert (s + [d])[..|s|] == s;
  }

  /** The value of the first k digits; past the end there are zeros. */
  function Low(s: seq<int>, k: nat): int {
    Value(if k < |s| then s[..k] else s)
  }

  function Digit(s: seq<int>, k: nat): int {
    if k < |s| then s[k] else 0
  }

  lemma LowStep(s: seq<int>, k: nat)
    ensures Low(s, k + 1) == Low(s, k) + Digit(s, k) * Weight(k)
  {
    if k < |s| {
      assert s[..k + 1][..k] == s[..k];
      assert s[..|s|] == s;
    }
  }

  lemma {:induction false} ValueUpdate(s: seq<int>, k: nat, d: int)
    requires k < |s|
    ensures Value(s[k := d]) == Value(s) + (d - s[k]) * Weight(k)
    decreases |s|
  {
    var n := |s| - 1;
    if k == n {
      assert s[k := d][..n] == s[..n];
    } else {
      assert s[k := d][..n] == s[..n][k := d];
      ValueUpdate(s[..n], k, d);
    }
  }

  lemma {:induction false} ValueBounds(s: seq<int>)
    requires Digits(s)
    ensures 0 <= Value(s) < Weight(|s|)
  {
    if s != [] {
      var n := |s| - 1;
      ValueBounds(s[..n]);
      TopBounds(s[n], Weight(n));
    }
  }

  lemma TopBounds(d: int, w: int)
    requires 0 <= d < 100 && w >= 0
    ensures 0 <= d * w <= 99 * w
  {
  }

  lemma {:induction false} WeightSum(a: nat, b: nat)
    ensures Weight(a) * Weight(b) == Weight(a + b)
  {
    if a > 0 {
      WeightSum(a - 1, b);
      Associate(Weight(a - 1), Weight(b));
    }
  }

  lemma Associate(x: int, y: int)
    ensures 100 * x * y == 100 * (x * y)
  {
  }

  lemma {:induction false} WeightMonotone(a: nat, b: nat)
    requires a <= b
    ensures Weight(a) <= Weight(b)
    decreases b - a
  {
    if a < b {
      WeightMonotone(a, b - 1);
    }
  }

  // ---- Canonical numbers ------------------------------------------------------------------------------

  /** Equally many digits and the same value: the same digits. */
  lemma {:induction false} DigitsUnique(s: seq<int>, t: seq<int>)
    requires Digits(s) && Digits(t) && |s| == |t| && Value(s) == Value(t)
    ensures s == t
  {
    if s != [] {
      var n := |s| - 1;
      ValueBounds(s[..n]);
      ValueBounds(t[..n]);
      SameQuotient(s[n], Value(s[..n]), t[n], Value(t[..n]), Weight(n));
      DigitsUnique(s[..n], t[..n]);
      assert s == s[..n] + [s[n]] && t == t[..n] + [t[n]];
    }
  }

  lemma Multiple(k: int, w: int)
    requires k >= 1 && w >= 0
    ensures k * w >= w
  {
  }

  lemma Difference(d: int, e: int, w: int)
    ensures (d - e) * w == d * w - e * w
  {
  }

  lemma SameQuotient(d: int, r: int, e: int, u: int, w: int)
    requires 0 <= r < w && 0 <= u < w && r + d * w == u + e * w
    ensures d == e && r == u
  {
    Difference(d, e, w);
    Difference(e, d, w);
    if d > e {
      Multiple(d - e, w);
    } else if e > d {
      Multiple(e - d, w);
    }
  }

  /** The value of a canonical number lies between two powers of 100 that its length tells. */
  lemma Magnitude(s: seq<int>)
    requires Num(s) && Canonical(s) && s != []
    ensures s[|s| - 1] > 0 ==> Weight(|s| - 1) <= Value(s) < Weight(|s|)
    ensures Negative(s) ==> -Weight(|s| - 1) <= Value(s) < if |s| == 1 then 0 else -Weight(|s| - 2)
  {
    hide Value, Weight, Digits;
    var n := |s| - 1;
    ValueSnoc(s[..n], s[n]);
    assert s[..n] + [s[n]] == s;
    if s[n] > 0 {
      PositiveTop(s[..n], s[n]);
    } else if n > 0 {
      BottomDigit(s[..n]);
      Below99(s[..n]);
      ValueBounds(s[..n]);
    } else {
      EmptyValue();
      assert s[..n] == [];
      WeightZero();
    }
  }

  lemma WeightZero()
    ensures Weight(0) == 1
  {
  }

  lemma BottomDigit(s: seq<int>)
    requires s != [] && Digits(s)
    ensures 0 <= s[|s| - 1] < 100
  {
  }

  lemma PositiveTop(s: seq<int>, d: int)
    requires Digits(s) && 0 < d < 100
    ensures Weight(|s|) <= Value(s) + d * Weight(|s|) < Weight(|s| + 1)
  {
    hide Value, Weight;
    ValueBounds(s);
    TopBounds(d, Weight(|s|));
    Multiple(d, Weight(|s|));
    WeightStep(|s|);
  }

  lemma Below99(s: seq<int>)
    requires s != [] && Digits(s) && s[|s| - 1] < 99
    ensures Value(s) - Weight(|s|) < -Weight(|s| - 1)
  {
    hide Value, Weight;
    var m := |s| - 1;
    ValueSnoc(s[..m], s[m]);
    assert s[..m] + [s[m]] == s;
    ValueBounds(s[..m]);
    TopBounds(98 - s[m], Weight(m));
    Difference(98, s[m], Weight(m));
    WeightStep(m);
  }

  lemma SameLength(s: seq<int>, t: seq<int>)
    requires Num(s) && Num(t) && Canonical(s) && Canonical(t) && Value(s) == Value(t)
    ensures |s| <= |t| && Negative(s) == Negative(t)
  {
    hide Value, Num;
    assert Value([]) == 0 by { EmptyValue(); }
    if s != [] {
      Magnitude(s);
      CanonicalSign(s);
    }
    if t != [] {
      Magnitude(t);
      CanonicalSign(t);
    }
    if s != [] && t != [] && |s| > |t| {
      if Negative(s) {
        WeightMonotone(|t| - 1, |s| - 2);
      } else {
        WeightMonotone(|t|, |s| - 1);
      }
    }
  }

  lemma EmptyValue()
    ensures Value([]) == 0
  {
  }

  lemma CanonicalSign(s: seq<int>)
    requires Num(s) && Canonical(s) && s != []
    ensures s[|s| - 1] > 0 || Negative(s)
  {
  }

  /** A value has one canonical number. */
  lemma CanonicalUnique(s: seq<int>, t: seq<int>)
    requires Num(s) && Num(t) && Canonical(s) && Canonical(t) && Value(s) == Value(t)
    ensures s == t
  {
    SameLength(s, t);
    SameLength(t, s);
    if s != [] {
      var n := |s| - 1;
      if Negative(s) {
        DigitsUnique(s[..n], t[..n]);
        assert s == s[..n] + [-1] && t == t[..n] + [-1];
      } else {
        DigitsUnique(s, t);
      }
    }
  }

  // ---- The other sign -----------------------------------------------------------------------------------

  /** What is borrowed from digit k when everything is taken from zero. */
  function Borrow(s: seq<int>, k: nat): (c: int)
    requires k <= |s|
    ensures c == 0 || c == 1
  {
    if k == 0 || 100 - s[k - 1] - Borrow(s, k - 1) >= 100 then 0 else 1
  }

  function NegDigit(s: seq<int>, k: nat): int
    requires k < |s|
  {
    var ct := 100 - s[k] - Borrow(s, k);
    if ct >= 100 then ct - 100 else ct
  }

  function Complement(s: seq<int>): (r: seq<int>)
    ensures |r| == |s|
  {
    seq(|s|, k requires 0 <= k < |s| => NegDigit(s, k))
  }

  /** What chsign leaves. */
  function Negate(s: seq<int>): seq<int> {
    var r, n := Complement(s), |s| - 1;
    if Borrow(s, |s|) != 0 then (if r[n] == 99 then r[..n] else r) + [-1]
    else if s != [] && r[n] == 0 then r[..n]
    else r
  }

  lemma {:induction false} ComplementValue(s: seq<int>, k: nat)
    requires k <= |s|
    ensures Value(Complement(s)[..k]) - Borrow(s, k) * Weight(k) == -Value(s[..k])
  {
    if k > 0 {
      var j := k - 1;
      ComplementValue(s, j);
      assert Complement(s)[..k][..j] == Complement(s)[..j] && s[..k][..j] == s[..j];
      assert NegDigit(s, j) == 100 * Borrow(s, k) - s[j] - Borrow(s, j);
      BorrowStep(s[j], Borrow(s, j), Borrow(s, k), Weight(j));
    }
  }

  lemma BorrowStep(d: int, b: int, c: int, w: int)
    ensures (100 * c - d - b) * w - c * (100 * w) == -d * w - b * w
  {
  }

  lemma ComplementDigits(s: seq<int>)
    requires Num(s)
    ensures Digits(Complement(s)) && (Negative(s) ==> Borrow(s, |s|) == 0)
  {
    forall k | 0 <= k < |s| ensures 0 <= NegDigit(s, k) < 100 {
      assert k < |s| - 1 ==> s[..|s| - 1][k] == s[k];
    }
  }

  /** A top digit -1 over a 99 can take its place. */
  lemma TopMinus(r: seq<int>, n: nat)
    requires |r| == n + 1 && Digits(r)
    ensures var x := if r[n] == 99 then r[..n] else r; Num(x + [-1]) && Value(x + [-1]) == Value(r) - Weight(n + 1)
  {
    hide Value, Weight;
    ValueSnoc(r[..n], r[n]);
    assert r[..n] + [r[n]] == r;
    ValueSnoc(r, -1);
    ValueSnoc(r[..n], -1);
    WeightStep(n);
    assert (r + [-1])[..n + 1] == r && (r[..n] + [-1])[..n] == r[..n];
  }

  lemma DropZero(r: seq<int>, n: nat)
    requires |r| == n + 1 && Digits(r) && r[n] == 0
    ensures Num(r[..n]) && Value(r[..n]) == Value(r)
  {
    DigitsAreNum(r[..n]);
  }

  /** chsign negates. */
  lemma NegateIsExact(s: seq<int>)
    requires Num(s)
    ensures Num(Negate(s)) && Value(Negate(s)) == -Value(s)
  {
    hide Value, Weight, Digits, Num, Complement, Borrow;
    var r, n := Complement(s), |s| - 1;
    ComplementValue(s, |s|);
    ComplementDigits(s);
    assert r[..|s|] == r && s[..|s|] == s;
    if Borrow(s, |s|) != 0 {
      BorrowNonempty(s);
      TopMinus(r, n);
    } else if s != [] && r[n] == 0 {
      DropZero(r, n);
    } else {
      DigitsAreNum(r);
    }
  }

  lemma BorrowNonempty(s: seq<int>)
    requires Borrow(s, |s|) != 0
    ensures s != [] && Borrow(s, |s|) == 1
  {
  }

  lemma WeightStep(n: nat)
    ensures Weight(n + 1) == 100 * Weight(n)
  {
  }

  lemma DigitsAreNum(s: seq<int>)
    requires Digits(s)
    ensures Num(s) && !Negative(s)
  {
  }

  /** A digit of the complement with what it borrows. */
  lemma ComplementAt(s: seq<int>, k: nat)
    requires k < |s|
    ensures Complement(s)[k] == (if 100 - s[k] - Borrow(s, k) >= 100 then -s[k] - Borrow(s, k)
                                 else 100 - s[k] - Borrow(s, k))
    ensures Borrow(s, k + 1) == if 100 - s[k] - Borrow(s, k) >= 100 then 0 else 1
  {
    assert Complement(s)[k] == NegDigit(s, k);
  }

  /** The digit under the top one, and the top one, when there is no sign. */
  lemma ComplementTop(s: seq<int>)
    requires s != [] && Digits(s) && s[|s| - 1] != 0
    ensures var r, n := Complement(s), |s| - 1;
            && Borrow(s, |s|) == 1 && r[n] == 100 - s[n] - Borrow(s, n)
            && (Borrow(s, n) == 0 && n > 0 ==> r[n - 1] == 0)
  {
    hide Borrow, Complement;
    var n := |s| - 1;
    ComplementAt(s, n);
    if n > 0 {
      ComplementAt(s, n - 1);
    }
  }

  /** The same of a number with the top digit -1. */
  lemma ComplementMinus(s: seq<int>)
    requires s != [] && Num(s) && Negative(s) && Canonical(s)
    ensures var r, n := Complement(s), |s| - 1;
            && Borrow(s, |s|) == 0 && r[n] == 1 - Borrow(s, n) && (n > 0 && Borrow(s, n) == 1 ==> r[n - 1] > 0)
            && (n == 0 ==> r[n] == 1)
  {
    hide Borrow, Complement;
    var n := |s| - 1;
    ComplementAt(s, n);
    if n > 0 {
      ComplementAt(s, n - 1);
      assert 0 <= s[..n][n - 1];
    } else {
      BorrowNone(s);
    }
  }

  lemma BorrowNone(s: seq<int>)
    ensures Borrow(s, 0) == 0
  {
  }

  lemma NegateCanonical(s: seq<int>)
    requires Num(s) && Canonical(s)
    ensures Canonical(Negate(s))
  {
    hide Weight, Value, Complement, Borrow, Num;
    if s == [] {
      NegateNone();
    } else if Negative(s) {
      ComplementMinus(s);
    } else {
      NumUnsigned(s);
      ComplementTop(s);
    }
  }

  lemma NegateNone()
    ensures Negate([]) == []
  {
  }

  lemma NumUnsigned(s: seq<int>)
    requires Num(s) && s != [] && !Negative(s)
    ensures Digits(s)
  {
    assert s == s[..|s| - 1] + [s[|s| - 1]];
  }

  /** Twice chsign gives a canonical number back, digit for digit. */
  lemma NegateTwice(s: seq<int>)
    requires Num(s) && Canonical(s)
    ensures Negate(Negate(s)) == s
  {
    NegateIsExact(s);
    NegateCanonical(s);
    NegateIsExact(Negate(s));
    NegateCanonical(Negate(s));
    CanonicalUnique(Negate(Negate(s)), s);
  }

  // ---- Sums -------------------------------------------------------------------------------------------

  function Max(a: nat, b: nat): nat {
    if a > b then a else b
  }

  lemma LowAll(s: seq<int>, k: nat)
    requires |s| <= k
    ensures Low(s, k) == Value(s)
  {
  }

  /** One digit of a sum and its carry. */
  lemma SumStep(x: seq<int>, y: seq<int>, r: seq<int>, carry: int, n: int, next: int)
    requires Value(r) + carry * Weight(|r|) == Low(x, |r|) + Low(y, |r|)
    requires n + 100 * next == Digit(x, |r|) + Digit(y, |r|) + carry
    ensures Value(r + [n]) + next * Weight(|r| + 1) == Low(x, |r| + 1) + Low(y, |r| + 1)
  {
    hide Value, Weight, Low, Digit;
    LowStep(x, |r|);
    LowStep(y, |r|);
    ValueSnoc(r, n);
    WeightStep(|r|);
    SumDigits(n, next, Digit(x, |r|), Digit(y, |r|), carry, Weight(|r|));
  }

  lemma SumDigits(n: int, next: int, a: int, b: int, carry: int, w: int)
    requires n + 100 * next == a + b + carry
    ensures n * w + next * (100 * w) == a * w + b * w + carry * w
  {
    assert n * w + next * (100 * w) == (n + 100 * next) * w;
  }

  /** Zeros above the last other digit say nothing. */
  lemma {:induction false} DropZeros(s: seq<int>, n: nat)
    requires n <= |s| && forall i | n <= i < |s| :: s[i] == 0
    ensures Value(s[..n]) == Value(s)
    decreases |s|
  {
    if n < |s| {
      var m := |s| - 1;
      DropZeros(s[..m], n);
      assert s[..m][..n] == s[..n];
    } else {
      assert s[..n] == s;
    }
  }

  /** A top digit -1 over nines can take the place of the lowest of them. */
  lemma {:induction false} DropNines(s: seq<int>, n: nat)
    requires n < |s| && Negative(s) && forall i | n <= i < |s| - 1 :: s[i] == 99
    ensures Value(s[..n] + [-1]) == Value(s)
    decreases |s|
  {
    var m := |s| - 1;
    if n < m {
      var t := s[..m - 1] + [-1];
      assert t[..n] == s[..n];
      assert forall i | n <= i < |t| - 1 :: t[i] == s[i];
      DropNines(t, n);
      DropNine(s);
    } else {
      assert s[..n] + [-1] == s;
    }
  }

  lemma DropNine(s: seq<int>)
    requires |s| >= 2 && Negative(s) && s[|s| - 2] == 99
    ensures Value(s[..|s| - 2] + [-1]) == Value(s)
  {
    hide Value, Weight;
    var m := |s| - 2;
    assert s[..m + 1] + [-1] == s && s[..m] + [99] == s[..m + 1];
    ValueSnoc(s[..m + 1], -1);
    ValueSnoc(s[..m], 99);
    ValueSnoc(s[..m], -1);
    WeightStep(m);
  }

  /** What add leaves of its digits and last carry: no zeros on top, and nines under a -1 taken off but for one. */
  predicate Stripped(s: seq<int>, r: seq<int>) {
    && |r| <= |s|
    && (Negative(s) ==> |r| >= 2 && r == s[..|r| - 1] + [-1] && (|r| == 2 || s[|r| - 2] != 99)
                        && forall i | |r| - 1 <= i < |s| - 1 :: s[i] == 99)
    && (!Negative(s) ==> r == s[..|r|] && (r == [] || r[|r| - 1] != 0) && forall i | |r| <= i < |s| :: s[i] == 0)
  }

  lemma StrippedIsExact(s: seq<int>, r: seq<int>)
    requires Num(s) && Stripped(s, r)
    ensures Num(r) && Value(r) == Value(s)
    ensures Canonical(r) <==> Value(s) != -1
    ensures Value(s) == -1 ==> r == [99, -1]
  {
    hide Value, Stripped, Num, Canonical;
    StrippedNum(s, r);
    StrippedValue(s, r);
    MinusOne(r);
    StrippedCanonical(s, r);
  }

  lemma StrippedValue(s: seq<int>, r: seq<int>)
    requires Stripped(s, r)
    ensures Value(r) == Value(s)
  {
    hide Value;
    if Negative(s) {
      DropNines(s, |r| - 1);
    } else {
      DropZeros(s, |r|);
    }
  }

  lemma StrippedNum(s: seq<int>, r: seq<int>)
    requires Num(s) && Stripped(s, r)
    ensures Num(r)
  {
    if r != [] {
      NumDigit(s, |r| - 1);
      assert r[..|r| - 1] == s[..|s| - 1][..|r| - 1];
    }
  }

  lemma NumDigit(s: seq<int>, k: nat)
    requires Num(s) && k < |s|
    ensures -1 <= s[k] < 100
  {
    assert k < |s| - 1 ==> s[..|s| - 1][k] == s[k];
  }

  /** Only the top digit of the whole number is -1. */
  lemma PrefixSign(s: seq<int>, n: nat)
    requires Num(s) && n <= |s| && Negative(s[..n])
    ensures s[..n] == s
  {
    if n < |s| {
      NumBelow(s, n - 1);
    }
  }

  lemma NumBelow(s: seq<int>, k: nat)
    requires Num(s) && k < |s| - 1
    ensures 0 <= s[k]
  {
    assert s[..|s| - 1][k] == s[k];
  }

  lemma StrippedCanonical(s: seq<int>, r: seq<int>)
    requires Num(s) && Stripped(s, r)
    ensures Canonical(r) <==> r != [99, -1]
    ensures r != [-1]
  {
    if Negative(s) {
      assert r[|r| - 1] == -1 && r[|r| - 2] == s[|r| - 2];
      if |r| == 2 && r[0] == 99 {
        assert r == [99, -1];
      }
    } else if r != [] && Negative(r) {
      PrefixSign(s, |r|);
    }
  }

  lemma MinusOne(r: seq<int>)
    requires Num(r)
    ensures Value([99, -1]) == -1
    ensures Value(r) == -1 && Canonical(r) ==> r == [-1]
  {
    assert [99, -1][..1] == [99] && [99][..0] == [] && [-1][..0] == [];
    assert Value([99]) == 99 && Value([-1]) == -1;
    assert Weight(1) == 100;
    if Value(r) == -1 && Canonical(r) {
      CanonicalUnique(r, [-1]);
    }
  }

  // ---- Products ---------------------------------------------------------------------------------------

  /** The digit written at k, and past what is there. */
  function Put(s: seq<int>, k: nat, d: int): seq<int>
    requires k <= |s|
  {
    if k < |s| then s[k := d] else s + [d]
  }

  lemma PutValue(s: seq<int>, k: nat, d: int)
    requires k <= |s|
    ensures Value(Put(s, k, d)) == Value(s) + (d - Digit(s, k)) * Weight(k)
  {
    if k < |s| {
      ValueUpdate(s, k, d);
    } else {
      ValueSnoc(s, d);
    }
  }

  /** One digit of a row: x[i] * cq is added at digit j + i of r. */
  lemma ProductStep(x: seq<int>, i: nat, j: nat, r: seq<int>, cq: int, carry: int, v: int, mt: int)
    requires i < |x| && j + i <= |r| && mt == x[i] * cq + carry + Digit(r, j + i)
    requires Value(r) + carry * Weight(j + i) == v + cq * Value(x[..i]) * Weight(j)
    ensures Value(Put(r, j + i, mt % 100)) + (mt / 100) * Weight(j + i + 1) == v + cq * Value(x[..i + 1]) * Weight(j)
  {
    hide Value, Weight, Put, Digit;
    PutValue(r, j + i, mt % 100);
    ValueSnoc(x[..i], x[i]);
    assert x[..i] + [x[i]] == x[..i + 1];
    WeightSum(i, j);
    WeightStep(j + i);
    ProductDigits(mt % 100, mt / 100, Digit(r, j + i), x[i], cq, carry, Weight(i), Weight(j), Value(x[..i]));
  }

  lemma ProductDigits(n: int, next: int, d: int, a: int, cq: int, carry: int, wi: int, wj: int, u: int)
    requires n + 100 * next == a * cq + carry + d
    ensures (n - d) * (wi * wj) + next * (100 * (wi * wj)) == cq * (u + a * wi) * wj - cq * u * wj + carry * (wi * wj)
  {
    var w := wi * wj;
    ByWeight(n, next, d, a * cq + carry, w);
    calc {
      cq * (u + a * wi) * wj;
      cq * u * wj + cq * (a * wi) * wj;
      { assert cq * (a * wi) * wj == a * cq * w; }
      cq * u * wj + a * cq * w;
    }
    assert (a * cq + carry) * w == a * cq * w + carry * w;
  }

  lemma ByWeight(n: int, next: int, d: int, m: int, w: int)
    requires n + 100 * next == m + d
    ensures (n - d) * w + next * (100 * w) == m * w
  {
    assert (n - d) * w + next * (100 * w) == (n - d + 100 * next) * w;
  }

  /** Two digits, a carry and a digit that is there. */
  lemma ProductBounds(a: int, cq: int, carry: int, d: int)
    requires 0 <= a < 100 && 0 <= cq < 100 && 0 <= carry < 100 && 0 <= d < 100
    ensures 0 <= a * cq + carry + d < 10000
    ensures 0 <= (a * cq + carry + d) / 100 < 100
  {
    assert 0 <= a * cq <= 99 * cq;
  }

  /** One row: the product so far, and digit j of y. */
  lemma RowStep(x: seq<int>, y: seq<int>, j: nat, v: int, r: int)
    requires j < |y| && v == Value(x) * Value(y[..j]) && r == v + y[j] * Value(x) * Weight(j)
    ensures r == Value(x) * Value(y[..j + 1])
  {
    hide Value, Weight;
    ValueSnoc(y[..j], y[j]);
    assert y[..j] + [y[j]] == y[..j + 1];
    Expand(Value(x), Value(y[..j]), y[j], Weight(j));
  }

  lemma Expand(x: int, u: int, d: int, w: int)
    ensures x * (u + d * w) == x * u + d * x * w
  {
  }

  /** A product of canonical numbers without sign has no zero on top. */
  lemma ProductTop(x: seq<int>, y: seq<int>, r: seq<int>)
    requires Digits(x) && Digits(y) && Digits(r) && x != [] && y != [] && Canonical(x) && Canonical(y)
    requires Value(r) == Value(x) * Value(y) && |r| == |x| + |y| - 1
    ensures r[|r| - 1] != 0
  {
    hide Value, Weight, Num;
    DigitsAreNum(x);
    DigitsAreNum(y);
    Magnitude(x);
    Magnitude(y);
    WeightSum(|x| - 1, |y| - 1);
    ProductAtLeast(Value(x), Value(y), Weight(|x| - 1), Weight(|y| - 1));
    if r[|r| - 1] == 0 {
      DropZero(r, |r| - 1);
      ValueBounds(r[..|r| - 1]);
    }
  }

  lemma ProductAtLeast(x: int, y: int, u: int, w: int)
    requires 0 < u <= x && 0 < w <= y
    ensures u * w <= x * y
  {
    assert u * w <= x * w && x * w <= x * y;
  }

  // ---- Powers of ten ------------------------------------------------------------------------------------

  function Pow10(n: nat): int {
    if n == 0 then 1 else 10 * Pow10(n - 1)
  }

  lemma {:induction false} HundredsAreTens(k: nat)
    ensures Weight(k) == Pow10(2 * k)
  {
    if k > 0 {
      HundredsAreTens(k - 1);
      assert Pow10(2 * k) == 10 * Pow10(2 * k - 1) && Pow10(2 * k - 1) == 10 * Pow10(2 * k - 2);
    }
  }

  function Zeros(k: nat): (z: seq<int>)
    ensures |z| == k && forall i | 0 <= i < k :: z[i] == 0
  {
    seq(k, _ => 0)
  }

  /** Zeros below a number are a factor. */
  lemma {:induction false} ShiftValue(k: nat, s: seq<int>)
    ensures Value(Zeros(k) + s) == Value(s) * Weight(k)
  {
    if s == [] {
      DropZeros(Zeros(k), 0);
      assert Zeros(k)[..0] == [] && Zeros(k) + s == Zeros(k);
    } else {
      var n := |s| - 1;
      ShiftValue(k, s[..n]);
      assert (Zeros(k) + s)[..k + n] == Zeros(k) + s[..n];
      WeightSum(n, k);
      Factor(Value(s[..n]), s[n], Weight(n), Weight(k));
    }
  }

  lemma Factor(u: int, d: int, wn: int, wk: int)
    ensures (u + d * wn) * wk == u * wk + d * (wn * wk)
  {
  }
}
