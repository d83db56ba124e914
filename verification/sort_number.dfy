/**
 Numbers and the keys of sort -n and sort -g (sort.c): what a key means and why the bytewise order
 of keys is the order of the numbers. A byte is an int.
 */
module SortNumber {

  // ---- Powers of ten --------------------------------------------------------------------------------

  function Pow10(e: int): real
    decreases if e < 0 then -e else e
  {
    if e == 0 then 1.0 else if e > 0 then 10.0 * Pow10(e - 1) else Pow10(e + 1) / 10.0
  }

  lemma {:induction false} PowPositive(e: int)
    ensures Pow10(e) > 0.0
    decreases if e < 0 then -e else e
  {
    if e > 0 {
      PowPositive(e - 1);
    } else if e < 0 {
      PowPositive(e + 1);
    }
  }

  lemma PowStep(e: int)
    ensures Pow10(e + 1) == 10.0 * Pow10(e)
  {
  }

  lemma TenTimes(x: real, y: real)
    ensures x * (10.0 * y) == 10.0 * (x * y)
  {
  }

  lemma PowZero()
    ensures Pow10(0) == 1.0
  {
  }

  lemma {:induction false} PowAdd(a: int, b: int)
    ensures Pow10(a + b) == Pow10(a) * Pow10(b)
    decreases if b < 0 then -b else b
  {
    hide Pow10;
    if b > 0 {
      PowAdd(a, b - 1);
      PowStep(a + b - 1);
      PowStep(b - 1);
      TenTimes(Pow10(a), Pow10(b - 1));
    } else if b < 0 {
      PowAdd(a, b + 1);
      PowStep(a + b);
      PowStep(b);
      TenTimes(Pow10(a), Pow10(b));
    } else {
      PowZero();
    }
  }

  lemma {:induction false} PowGrows(a: int, b: int)
    requires a <= b
    ensures Pow10(a) <= Pow10(b)
    decreases b - a
  {
    if a < b {
      PowGrows(a, b - 1);
      PowPositive(b - 1);
      PowStep(b - 1);
    }
  }

  // ---- Digits ---------------------------------------------------------------------------------------

  predicate Digits(ds: seq<int>) {
    forall i | 0 <= i < |ds| :: 0 <= ds[i] <= 9
  }

  function Natural(ds: seq<int>): int {
    if ds == [] then 0 else 10 * Natural(ds[..|ds| - 1]) + ds[|ds| - 1]
  }

  /** 0.ds */
  function Fraction(ds: seq<int>): real {
    if ds == [] then 0.0 else (ds[0] as real + Fraction(ds[1..])) / 10.0
  }

  lemma NaturalSnoc(ds: seq<int>, d: int)
    ensures Natural(ds + [d]) == 10 * Natural(ds) + d
  {
    assert (ds + [d])[..|ds|] == ds;
  }

  lemma {:induction false} FractionSnoc(ds: seq<int>, d: int)
    ensures Fraction(ds + [d]) == Fraction(ds) + d as real * Pow10(-|ds| - 1)
  {
    if ds == [] {
      assert Fraction([d]) == d as real / 10.0;
      assert Pow10(-1) == 1.0 / 10.0;
    } else {
      assert (ds + [d])[1..] == ds[1..] + [d];
      FractionSnoc(ds[1..], d);
      PowStep(-|ds| - 1);
    }
  }

  lemma {:induction false} FractionIsNatural(ds: seq<int>)
    ensures Fraction(ds) == Natural(ds) as real * Pow10(-|ds|)
  {
    if ds != [] {
      var n := |ds| - 1;
      assert ds == ds[..n] + [ds[n]];
      FractionIsNatural(ds[..n]);
      FractionSnoc(ds[..n], ds[n]);
      PowStep(-n - 1);
      assert Natural(ds) as real == 10.0 * (Natural(ds[..n]) as real) + ds[n] as real;
    }
  }

  lemma {:induction false} FractionBounds(ds: seq<int>)
    requires Digits(ds)
    ensures 0.0 <= Fraction(ds) < 1.0
  {
    if ds != [] {
      FractionBounds(ds[1..]);
    }
  }

  /** No zero at the end. */
  predicate Trimmed(ds: seq<int>) {
    Digits(ds) && (ds != [] ==> ds[|ds| - 1] != 0)
  }

  lemma {:induction false} TrimmedIsPositive(ds: seq<int>)
    requires Trimmed(ds) && ds != []
    ensures Fraction(ds) > 0.0
  {
    FractionBounds(ds[1..]);
    if |ds| > 1 {
      assert ds[1..][|ds| - 2] == ds[|ds| - 1];
      TrimmedIsPositive(ds[1..]);
    }
  }

  function Sign(x: real): int {
    if x < 0.0 then -1 else if x > 0.0 then 1 else 0
  }

  function SignOf(x: int): int {
    if x < 0 then -1 else if x > 0 then 1 else 0
  }

  /** The digits of two fractions compared from the left; a fraction that ends is less. */
  function DigitOrder(a: seq<int>, b: seq<int>): int {
    if a == [] && b == [] then 0
    else if a == [] then -1
    else if b == [] then 1
    else if a[0] != b[0] then SignOf(a[0] - b[0])
    else DigitOrder(a[1..], b[1..])
  }

  lemma {:induction false} DigitOrderIsOrder(a: seq<int>, b: seq<int>)
    requires Trimmed(a) && Trimmed(b)
    ensures DigitOrder(a, b) == Sign(Fraction(a) - Fraction(b))
  {
    if a == [] && b == [] {
    } else if a == [] {
      TrimmedIsPositive(b);
    } else if b == [] {
      TrimmedIsPositive(a);
    } else {
      FractionBounds(a[1..]);
      FractionBounds(b[1..]);
      assert |a| > 1 ==> a[1..][|a| - 2] == a[|a| - 1];
      assert |b| > 1 ==> b[1..][|b| - 2] == b[|b| - 1];
      DigitOrderIsOrder(a[1..], b[1..]);
      assert Fraction(a) - Fraction(b) == (a[0] as real - b[0] as real + (Fraction(a[1..]) - Fraction(b[1..]))) / 10.0;
    }
  }

  // ---- Numbers ----------------------------------------------------------------------------------------

  /** 0, or a sign and 0.ds times 10 to the power point. */
  datatype Number = Nil | Number(neg: bool, point: int, ds: seq<int>)

  /** The first digit is not zero, nor is the last. */
  predicate Normal(n: Number) {
    n.Number? ==> Trimmed(n.ds) && n.ds != [] && n.ds[0] != 0
  }

  function Value(n: Number): real {
    if n.Nil? then 0.0 else (if n.neg then -1.0 else 1.0) * (Fraction(n.ds) * Pow10(n.point))
  }

  function Magnitude(n: Number): real
    requires n.Number?
  {
    Fraction(n.ds) * Pow10(n.point)
  }

  lemma FirstDigitCounts(ds: seq<int>)
    requires Digits(ds) && ds != [] && ds[0] != 0
    ensures 0.1 <= Fraction(ds) < 1.0
  {
    FractionBounds(ds);
    FractionBounds(ds[1..]);
  }

  lemma MagnitudePositive(n: Number)
    requires Normal(n) && n.Number?
    ensures Pow10(n.point - 1) <= Magnitude(n) < Pow10(n.point) && Magnitude(n) > 0.0
  {
    hide Pow10, Fraction;
    FirstDigitCounts(n.ds);
    PowPositive(n.point);
    PowPositive(n.point - 1);
    PowStep(n.point - 1);
    var f, p, q := Fraction(n.ds), Pow10(n.point), Pow10(n.point - 1);
    Between(f, p, q, Magnitude(n));
  }

  lemma Between(f: real, p: real, q: real, m: real)
    requires 0.1 <= f < 1.0 && p > 0.0 && p == 10.0 * q && m == f * p
    ensures q <= m < p
  {
    assert (f - 0.1) * p >= 0.0;
    assert (f - 0.1) * p == m - 0.1 * p;
    assert (1.0 - f) * p > 0.0;
    assert (1.0 - f) * p == p - m;
  }

  /** Magnitudes are ordered by the place of the point, then by the digits. */
  lemma MagnitudeOrder(a: Number, b: Number)
    requires Normal(a) && Normal(b) && a.Number? && b.Number?
    ensures Sign(Magnitude(a) - Magnitude(b)) == if a.point != b.point then SignOf(a.point - b.point)
            else DigitOrder(a.ds, b.ds)
  {
    hide Pow10, Fraction, DigitOrder;
    MagnitudePositive(a);
    MagnitudePositive(b);
    if a.point < b.point {
      PowGrows(a.point, b.point - 1);
    } else if b.point < a.point {
      PowGrows(b.point, a.point - 1);
    } else {
      DigitOrderIsOrder(a.ds, b.ds);
      PowPositive(a.point);
      Scale(Fraction(a.ds), Fraction(b.ds), Pow10(a.point));
    }
  }

  lemma Scale(x: real, y: real, p: real)
    requires p > 0.0
    ensures Sign(x * p - y * p) == Sign(x - y)
  {
    assert x * p - y * p == (x - y) * p;
  }
}
