/**
 The numeric keys of sort.c: what dokey_gn writes for a number, and how kcmp orders keys.
 */
module SortKey {
  import opened SortNumber

  /** kcmp: the sign of memcmp on as many bytes as both keys have. */
  function Kcmp(a: seq<int>, b: seq<int>): int {
    if a == [] || b == [] then 0
    else if a[0] != b[0] then SignOf(a[0] - b[0])
    else Kcmp(a[1..], b[1..])
  }

  const BIAS := 0x4040

  /** A byte as it is, or inverted with ~. */
  function Byte(c: int, rflag: bool): int {
    if rflag then 255 - c else c
  }

  function DigitBytes(ds: seq<int>, rflag: bool): (r: seq<int>)
    ensures |r| == |ds|
  {
    seq(|ds|, i requires 0 <= i < |ds| => Byte(0x30 + ds[i], rflag))
  }

  /** The place of the point fits the two bytes it has in the key. */
  predicate Representable(n: Number) {
    n.Number? ==> 0 <= BIAS + n.point <= 0xFFFF
  }

  /** The place of the point, as much of it as the two bytes hold. */
  function Place(n: Number): (p: int)
    requires n.Number?
    ensures 0 <= p <= 0xFFFF
  {
    (BIAS + n.point) % 0x10000
  }

  /** The key of a number; r is the field's -r flag. */
  function KeyOf(n: Number, r: bool): seq<int> {
    if n.Nil? then [0x20, 0]
    else
      var rflag := r != n.neg;
      var dp := if rflag then 0xFFFF - Place(n) else Place(n);
      [if rflag then 0x10 else 0x30, dp / 256, dp % 256] + DigitBytes(n.ds, rflag) + [Byte(0, rflag)]
  }

  lemma KcmpCons(x: int, a: seq<int>, y: int, b: seq<int>)
    ensures Kcmp([x] + a, [y] + b) == if x != y then SignOf(x - y) else Kcmp(a, b)
  {
    assert ([x] + a)[1..] == a && ([y] + b)[1..] == b;
  }

  lemma KcmpPoint(p: int, a: seq<int>, q: int, b: seq<int>)
    requires 0 <= p <= 0xFFFF && 0 <= q <= 0xFFFF
    ensures Kcmp([p / 256, p % 256] + a, [q / 256, q % 256] + b) == if p != q then SignOf(p - q) else Kcmp(a, b)
  {
    assert [p / 256, p % 256] + a == [p / 256] + ([p % 256] + a);
    assert [q / 256, q % 256] + b == [q / 256] + ([q % 256] + b);
    KcmpCons(p / 256, [p % 256] + a, q / 256, [q % 256] + b);
    KcmpCons(p % 256, a, q % 256, b);
  }

  /** The digits and their end byte are ordered as the digits, backwards when they are inverted. */
  lemma {:induction false} KcmpDigits(a: seq<int>, b: seq<int>, rflag: bool)
    requires Digits(a) && Digits(b)
    ensures Kcmp(DigitBytes(a, rflag) + [Byte(0, rflag)], DigitBytes(b, rflag) + [Byte(0, rflag)])
         == if rflag then -DigitOrder(a, b) else DigitOrder(a, b)
  {
    var e := [Byte(0, rflag)];
    var x, y := DigitBytes(a, rflag) + e, DigitBytes(b, rflag) + e;
    if a == [] || b == [] {
      assert a == [] ==> x == e;
      assert b == [] ==> y == e;
      if a == [] && b == [] {
        assert e[1..] == [];
      }
    } else {
      assert x == [Byte(0x30 + a[0], rflag)] + (DigitBytes(a[1..], rflag) + e);
      assert y == [Byte(0x30 + b[0], rflag)] + (DigitBytes(b[1..], rflag) + e);
      KcmpCons(Byte(0x30 + a[0], rflag), DigitBytes(a[1..], rflag) + e, Byte(0x30 + b[0], rflag),
               DigitBytes(b[1..], rflag) + e);
      KcmpDigits(a[1..], b[1..], rflag);
    }
  }

  /** The order of the keys of two numbers with the same sign. */
  function PlaceOrder(m: Number, n: Number): int
    requires m.Number? && n.Number?
  {
    if Place(m) != Place(n) then SignOf(Place(m) - Place(n)) else DigitOrder(m.ds, n.ds)
  }

  /** If the point of m is before that of n, what two bytes hold of them says so; or the digits happen to. */
  predicate Alike(m: Number, n: Number)
    requires m.Number? && n.Number?
  {
    m.point < n.point ==> Place(m) < Place(n) || (Place(m) == Place(n) && DigitOrder(m.ds, n.ds) < 0)
  }

  /** The places of the two points have not been wrapped round into another order. */
  predicate WrapAlike(m: Number, n: Number) {
    m.Number? && n.Number? && m.neg == n.neg ==> Alike(m, n) && Alike(n, m)
  }

  /** As long as the places fit their bytes they are in order. */
  lemma RepresentableWrapAlike(m: Number, n: Number)
    requires Representable(m) && Representable(n)
    ensures WrapAlike(m, n)
  {
    hide DigitOrder;
  }

  lemma {:induction false} DigitOrderFlips(a: seq<int>, b: seq<int>)
    ensures DigitOrder(b, a) == -DigitOrder(a, b)
    decreases |a|
  {
    if a != [] && b != [] {
      DigitOrderFlips(a[1..], b[1..]);
    }
  }

  lemma PlacesInOrder(m: Number, n: Number)
    requires m.Number? && n.Number? && m.neg == n.neg && Normal(m) && Normal(n)
    ensures PlaceOrder(m, n) == Sign(Magnitude(m) - Magnitude(n)) <==> WrapAlike(m, n)
  {
    hide Magnitude, DigitOrder, Place;
    MagnitudeOrder(m, n);
    DigitOrderFlips(m.ds, n.ds);
    DigitOrderIs(m.ds, n.ds);
    SamePlace(m, n);
  }

  lemma DigitOrderIs(a: seq<int>, b: seq<int>)
    ensures -1 <= DigitOrder(a, b) <= 1
  {
  }

  lemma SamePlace(m: Number, n: Number)
    requires m.Number? && n.Number?
    ensures m.point == n.point ==> Place(m) == Place(n)
  {
  }

  /** Numbers whose points are 0x10000 places apart have the same key if they have the same digits. */
  lemma PlaceIsLost(n: Number, r: bool)
    requires n.Number?
    ensures KeyOf(n.(point := n.point + 0x10000), r) == KeyOf(n, r)
  {
    assert Place(n.(point := n.point + 0x10000)) == Place(n);
  }

  lemma KcmpNumbers(m: Number, n: Number, r: bool)
    requires m.Number? && n.Number? && m.neg == n.neg && Normal(m) && Normal(n)
    ensures Kcmp(KeyOf(m, r), KeyOf(n, r)) == if r != m.neg then -PlaceOrder(m, n) else PlaceOrder(m, n)
  {
    hide Magnitude, Kcmp, DigitOrder, Place;
    var rflag := r != m.neg;
    var p := if rflag then 0xFFFF - Place(m) else Place(m);
    var q := if rflag then 0xFFFF - Place(n) else Place(n);
    var x, y := DigitBytes(m.ds, rflag) + [Byte(0, rflag)], DigitBytes(n.ds, rflag) + [Byte(0, rflag)];
    var c := if rflag then 0x10 else 0x30;
    assert KeyOf(m, r) == [c] + ([p / 256, p % 256] + x);
    assert KeyOf(n, r) == [c] + ([q / 256, q % 256] + y);
    KcmpCons(c, [p / 256, p % 256] + x, c, [q / 256, q % 256] + y);
    KcmpPoint(p, x, q, y);
    KcmpDigits(m.ds, n.ds, rflag);
  }

  function HeadOf(n: Number, r: bool): int {
    if n.Nil? then 0x20 else if r != n.neg then 0x10 else 0x30
  }

  lemma KcmpHeads(m: Number, n: Number, r: bool)
    ensures HeadOf(m, r) != HeadOf(n, r) ==> Kcmp(KeyOf(m, r), KeyOf(n, r)) == SignOf(HeadOf(m, r) - HeadOf(n, r))
    ensures m.Nil? && n.Nil? ==> Kcmp(KeyOf(m, r), KeyOf(n, r)) == 0
  {
    if m.Nil? && n.Nil? {
      KcmpSelf(KeyOf(m, r));
    } else {
      assert KeyOf(m, r)[0] == HeadOf(m, r) && KeyOf(n, r)[0] == HeadOf(n, r);
    }
  }

  lemma {:induction false} KcmpSelf(a: seq<int>)
    ensures Kcmp(a, a) == 0
  {
    if a != [] {
      KcmpSelf(a[1..]);
    }
  }

  lemma ValueSign(n: Number)
    requires Normal(n)
    ensures if n.Nil? then Value(n) == 0.0 else if n.neg then Value(n) == -Magnitude(n) < 0.0
            else Value(n) == Magnitude(n) > 0.0
  {
    if n.Number? {
      MagnitudePositive(n);
    }
  }

  /** What kcmp should say of the keys of two numbers: their order, backwards under -r. */
  function NumberOrder(x: real, y: real, r: bool): int {
    if r then Sign(y - x) else Sign(x - y)
  }

  /** The keys of two numbers are ordered as the numbers exactly if their places are. */
  lemma KeysAreOrdered(m: Number, n: Number, r: bool)
    requires Normal(m) && Normal(n)
    ensures Kcmp(KeyOf(m, r), KeyOf(n, r)) == NumberOrder(Value(m), Value(n), r) <==> WrapAlike(m, n)
  {
    hide Magnitude, Value, KeyOf, Normal, PlaceOrder, Alike;
    ValueSign(m);
    ValueSign(n);
    KcmpHeads(m, n, r);
    if m.Number? && n.Number? && m.neg == n.neg {
      KcmpNumbers(m, n, r);
      PlacesInOrder(m, n);
    }
  }

  // ---- Keys do not run into each other ---------------------------------------------------------------

  predicate IsPrefix(a: seq<int>, b: seq<int>) {
    |a| <= |b| && b[..|a|] == a
  }

  /** The first byte of s that is e is its last. */
  predicate EndsAt(s: seq<int>, e: int) {
    s != [] && s[|s| - 1] == e && forall i | 0 <= i < |s| - 1 :: s[i] != e
  }

  lemma EndedIsNoPrefix(a: seq<int>, b: seq<int>, e: int)
    requires EndsAt(a, e) && EndsAt(b, e) && IsPrefix(a, b)
    ensures a == b
  {
    assert b[..|a|][|a| - 1] == b[|a| - 1];
  }

  lemma EndedIsWhole(p: seq<int>, q: seq<int>, x: seq<int>, y: seq<int>, e: int)
    requires |p| == |q| && EndsAt(x, e) && EndsAt(y, e) && IsPrefix(p + x, q + y)
    ensures p + x == q + y
  {
    var a, b := p + x, q + y;
    assert a[..|p|] == p && b[..|p|] == q && a[..|p|] == b[..|a|][..|p|];
    assert a[|p|..] == x && b[|p|..] == y && y[..|x|] == b[..|a|][|p|..];
    EndedIsNoPrefix(x, y, e);
  }

  /** No key of a number is a proper prefix of another one. */
  lemma KeysArePrefixFree(m: Number, n: Number, r: bool)
    requires Normal(m) && Normal(n) && IsPrefix(KeyOf(m, r), KeyOf(n, r))
    ensures KeyOf(m, r) == KeyOf(n, r)
  {
    hide KeyOf, EndsAt, DigitBytes, Byte, Normal;
    var a, b := KeyOf(m, r), KeyOf(n, r);
    KeyHead(m, r);
    KeyHead(n, r);
    assert a[0] == b[..|a|][0];
    if m.Number? {
      var rflag := r != m.neg;
      KeyParts(m, r);
      KeyParts(n, r);
      var x, y := DigitBytes(m.ds, rflag) + [Byte(0, rflag)], DigitBytes(n.ds, rflag) + [Byte(0, rflag)];
      EndedIsWhole(a[..3], b[..3], x, y, Byte(0, rflag));
    }
  }

  lemma KeyHead(n: Number, r: bool)
    ensures KeyOf(n, r) != [] && KeyOf(n, r)[0] == HeadOf(n, r) && (n.Nil? ==> KeyOf(n, r) == [0x20, 0])
  {
  }

  /** The key of a number is its first three bytes and the digits, which end at the end byte. */
  lemma KeyParts(n: Number, r: bool)
    requires n.Number? && Normal(n)
    ensures var body := DigitBytes(n.ds, r != n.neg) + [Byte(0, r != n.neg)];
            |KeyOf(n, r)| >= 3 && KeyOf(n, r) == KeyOf(n, r)[..3] + body && EndsAt(body, Byte(0, r != n.neg))
  {
    hide Place;
  }

  /** Neither is a proper prefix of the other. */
  predicate Unmixed(a: seq<int>, b: seq<int>) {
    (IsPrefix(a, b) || IsPrefix(b, a)) ==> a == b
  }

  /** Keys written one after the other compare field by field. */
  lemma {:induction false} FieldsInOrder(a: seq<int>, x: seq<int>, b: seq<int>, y: seq<int>)
    requires Unmixed(a, b)
    ensures Kcmp(a + x, b + y) == (if a == b then Kcmp(x, y) else Kcmp(a, b))
    ensures a != b ==> Kcmp(a, b) != 0
  {
    if a == [] || b == [] {
      assert IsPrefix(a, b) || IsPrefix(b, a);
      assert a + x == x && b + y == y;
    } else {
      assert a + x == [a[0]] + (a[1..] + x) && b + y == [b[0]] + (b[1..] + y);
      KcmpCons(a[0], a[1..] + x, b[0], b[1..] + y);
      if a[0] == b[0] {
        assert a == [a[0]] + a[1..] && b == [b[0]] + b[1..];
        assert IsPrefix(a[1..], b[1..]) ==> IsPrefix(a, b);
        assert IsPrefix(b[1..], a[1..]) ==> IsPrefix(b, a);
        FieldsInOrder(a[1..], x, b[1..], y);
      }
    }
  }
}
