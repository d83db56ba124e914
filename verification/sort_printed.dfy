/**
 Numbers as people write them: blanks, a sign, digits, a point and an exponent, character by character. What
 dokey_gn reads in such a text is the number that was written, whatever stands behind it.
 */
module SortPrinted {
  import opened SortNumber
  import opened SortKey
  import opened SortDokey

  const FIGURES: string := "0123456789"

  /** The parts of a written number; e and what is behind it may be missing. */
  datatype Form = Form(lead: string, sign: string, gap: string, ip: seq<int>, point: bool, fp: seq<int>,
                       e: string, esign: string, es: seq<int>)

  predicate Blank(s: string) {
    forall k | 0 <= k < |s| :: s[k] == ' ' || s[k] == '\t'
  }

  predicate WellFormed(f: Form) {
    && Blank(f.lead) && Blank(f.gap) && (f.sign == "" || f.sign == "+" || f.sign == "-")
    && (f.sign == "" ==> f.gap == "")
    && Digits(f.ip) && Digits(f.fp) && Digits(f.es) && (!f.point ==> f.fp == [])
    && (f.e == "" || f.e == "e" || f.e == "E") && (f.esign == "" || f.esign == "+" || f.esign == "-")
    && (f.e == "" ==> f.esign == "" && f.es == [])
  }

  function Figures(ds: seq<int>): (s: string)
    requires Digits(ds)
    ensures |s| == |ds|
  {
    seq(|ds|, k requires 0 <= k < |ds| => FIGURES[ds[k]])
  }

  function Point(f: Form): string {
    if f.point then "." else ""
  }

  function Printed(f: Form): string
    requires WellFormed(f)
  {
    f.lead + (f.sign + (f.gap + (Figures(f.ip) + FromPoint(f))))
  }

  function FromPoint(f: Form): string
    requires WellFormed(f)
  {
    Point(f) + (Figures(f.fp) + (f.e + (f.esign + Figures(f.es))))
  }

  /** Character c right behind the text would belong to the number. */
  predicate Continues(f: Form, c: char, g: bool) {
    || c in FIGURES
    || ((c == ' ' || c == '\t') && f.ip == [] && !f.point && f.e == "")
    || ((c == '+' || c == '-') && (if f.e == "" then f.sign == "" && f.ip == [] && !f.point
                                   else f.esign == "" && f.es == []))
    || (c == '.' && !f.point && f.e == "")
    || ((c == 'e' || c == 'E') && g && f.e == "")
  }

  /** The number that is written. */
  function Written(f: Form): Numeral {
    Numeral(f.sign == "-", f.ip, f.fp, if f.esign == "-" then -Natural(f.es) else Natural(f.es))
  }

  function Text(s: string): (t: seq<int>)
    ensures |t| == |s| && forall k | 0 <= k < |s| :: t[k] == s[k] as int
  {
    seq(|s|, k requires 0 <= k < |s| => s[k] as int)
  }

  // ---- Where the parts are ----------------------------------------------------------------------------

  /** s stands in t at position i. */
  predicate Here(t: seq<int>, i: nat, s: string) {
    i + |s| <= |t| && forall k | 0 <= k < |s| :: t[i + k] == s[k] as int
  }

  lemma Parts(t: seq<int>, i: nat, a: string, b: string)
    requires Here(t, i, a + b)
    ensures Here(t, i, a) && Here(t, i + |a|, b)
  {
    forall k | 0 <= k < |a| ensures t[i + k] == a[k] as int {
      assert (a + b)[k] == a[k];
    }
    forall k | 0 <= k < |b| ensures t[i + |a| + k] == b[k] as int {
      assert (a + b)[|a| + k] == b[k];
    }
  }

  lemma Figure(d: int)
    requires 0 <= d <= 9
    ensures FIGURES[d] as int == '0' as int + d
  {
    if d == 0 {} else if d == 1 {} else if d == 2 {} else if d == 3 {} else if d == 4 {}
    else if d == 5 {} else if d == 6 {} else if d == 7 {} else if d == 8 {} else {}
  }

  /** The characters of the table are the digits. */
  lemma IsFigure(c: char)
    ensures c in FIGURES <==> IsDigit(c as int)
  {
    if IsDigit(c as int) {
      var d := c as int - '0' as int;
      Figure(d);
      assert FIGURES[d] == c;
    }
    if c in FIGURES {
      var d :| 0 <= d < |FIGURES| && FIGURES[d] == c;
      Figure(d);
    }
  }

  lemma {:induction false} BlankRun(t: seq<int>, i: nat, j: nat)
    requires i <= j <= |t| && (forall k | i <= k < j :: IsBlank(t[k])) && (j < |t| ==> !IsBlank(t[j]))
    ensures BlankEnd(t, i) == j
    decreases j - i
  {
    if i < j {
      BlankRun(t, i + 1, j);
    }
  }

  lemma {:induction false} DigitRun(t: seq<int>, i: nat, j: nat)
    requires i <= j <= |t| && (forall k | i <= k < j :: IsDigit(t[k])) && (j < |t| ==> !IsDigit(t[j]))
    ensures DigitEnd(t, i) == j
    decreases j - i
  {
    if i < j {
      DigitRun(t, i + 1, j);
    }
  }

  lemma BlanksAre(t: seq<int>, i: nat, s: string)
    requires Here(t, i, s) && Blank(s) && (i + |s| < |t| ==> !IsBlank(t[i + |s|]))
    ensures BlankEnd(t, i) == i + |s|
  {
    forall k | i <= k < i + |s| ensures IsBlank(t[k]) {
      assert t[i + (k - i)] == s[k - i] as int;
    }
    BlankRun(t, i, i + |s|);
  }

  lemma FiguresAre(t: seq<int>, i: nat, ds: seq<int>)
    requires Digits(ds) && Here(t, i, Figures(ds)) && (i + |ds| < |t| ==> !IsDigit(t[i + |ds|]))
    ensures DigitEnd(t, i) == i + |ds| && DigitsOf(t[i..i + |ds|]) == ds
  {
    forall k | i <= k < i + |ds| ensures t[k] == '0' as int + ds[k - i] && IsDigit(t[k]) {
      assert t[i + (k - i)] == Figures(ds)[k - i] as int;
      Figure(ds[k - i]);
    }
    DigitRun(t, i, i + |ds|);
  }

  // ---- The parts of a text -----------------------------------------------------------------------------

  /** Where the digits, the point, the digits behind it, the exponent, its sign, its digits and the rest begin. */
  datatype Places = Places(sign: nat, gap: nat, ip: nat, point: nat, fp: nat, e: nat, esign: nat, es: nat, rest: nat)

  function PlacesOf(f: Form): Places {
    var gap := |f.lead| + |f.sign|;
    var ip := gap + |f.gap|;
    var point := ip + |f.ip|;
    var fp := point + |Point(f)|;
    var e := fp + |f.fp|;
    var esign := e + |f.e|;
    var es := esign + |f.esign|;
    Places(|f.lead|, gap, ip, point, fp, e, esign, es, es + |f.es|)
  }

  /** t is the written number with tail behind it. */
  ghost predicate Laid(f: Form, tail: string, t: seq<int>)
    requires WellFormed(f)
  {
    var q := PlacesOf(f);
    && |t| == q.rest + |tail|
    && Here(t, 0, f.lead) && Here(t, q.sign, f.sign) && Here(t, q.gap, f.gap) && Here(t, q.ip, Figures(f.ip))
    && Here(t, q.point, Point(f)) && Here(t, q.fp, Figures(f.fp)) && Here(t, q.e, f.e) && Here(t, q.esign, f.esign)
    && Here(t, q.es, Figures(f.es)) && Here(t, q.rest, tail)
  }

  lemma PrintedIsLaid(f: Form, tail: string)
    requires WellFormed(f)
    ensures Laid(f, tail, Text(Printed(f) + tail))
  {
    hide Here, Figures, Point, FromPoint, Printed;
    var t, q := Text(Printed(f) + tail), PlacesOf(f);
    WholeText(Printed(f) + tail);
    Parts(t, 0, Printed(f), tail);
    FrontIsLaid(f, t);
    BackIsLaid(f, t, q.point);
  }

  lemma FrontIsLaid(f: Form, t: seq<int>)
    requires WellFormed(f) && Here(t, 0, Printed(f))
    ensures var q := PlacesOf(f);
            && Here(t, 0, f.lead) && Here(t, q.sign, f.sign) && Here(t, q.gap, f.gap) && Here(t, q.ip, Figures(f.ip))
            && Here(t, q.point, FromPoint(f)) && |Printed(f)| == q.point + |FromPoint(f)|
  {
    hide Here, Figures, Point, FromPoint;
    var q := PlacesOf(f);
    var b := Figures(f.ip) + FromPoint(f);
    Parts(t, 0, f.lead, f.sign + (f.gap + b));
    Parts(t, q.sign, f.sign, f.gap + b);
    Parts(t, q.gap, f.gap, b);
    Parts(t, q.ip, Figures(f.ip), FromPoint(f));
  }

  lemma BackIsLaid(f: Form, t: seq<int>, i: nat)
    requires WellFormed(f) && Here(t, i, FromPoint(f)) && i == PlacesOf(f).point
    ensures var q := PlacesOf(f);
            && Here(t, q.point, Point(f)) && Here(t, q.fp, Figures(f.fp)) && Here(t, q.e, f.e)
            && Here(t, q.esign, f.esign) && Here(t, q.es, Figures(f.es)) && q.point + |FromPoint(f)| == q.rest
  {
    hide Here, Figures, Point;
    var q := PlacesOf(f);
    var h := f.esign + Figures(f.es);
    Parts(t, q.point, Point(f), Figures(f.fp) + (f.e + h));
    Parts(t, q.fp, Figures(f.fp), f.e + h);
    Parts(t, q.e, f.e, h);
    Parts(t, q.esign, f.esign, Figures(f.es));
  }

  lemma WholeText(s: string)
    ensures Here(Text(s), 0, s)
  {
  }

  /** The character behind the digits of the exponent, and that behind the digits of the number. */
  lemma BehindExponent(f: Form, tail: string, t: seq<int>, g: bool)
    requires WellFormed(f) && Laid(f, tail, t) && (tail != "" ==> !Continues(f, tail[0], g))
    ensures var x := PlacesOf(f).rest; x < |t| ==> t[x] == tail[0] as int && !IsDigit(t[x])
  {
    if tail != "" {
      IsFigure(tail[0]);
    }
  }

  /** An exponent: its letter, a sign and digits, and something else behind them. */
  lemma SignedExponent(t: seq<int>, k: nat, e: string, sign: string, es: seq<int>)
    requires (e == "e" || e == "E") && (sign == "" || sign == "+" || sign == "-") && Digits(es) && Here(t, k, e)
    requires Here(t, k + 1, sign) && Here(t, k + 1 + |sign|, Figures(es))
    requires var x := k + 1 + |sign| + |es|;
             x < |t| ==> !IsDigit(t[x]) && (sign == "" && es == [] ==> !IsSign(t[x]))
    ensures ParseExp(t, k, true) == if sign == "-" then -Natural(es) else Natural(es)
  {
    hide Figures, FIGURES, Natural, DigitsOf, Here, DigitEnd, IsDigit, Digits;
    FirstHere(t, k, e);
    FirstHere(t, k + 1, sign);
    if sign == "" && es != [] {
      FirstFigure(t, k + 1, es);
      FigureNoSign(t[k + 1]);
    }
    FiguresAre(t, k + 1 + |sign|, es);
  }

  lemma FigureNoSign(c: int)
    requires IsDigit(c)
    ensures !IsSign(c)
  {
  }

  lemma FirstHere(t: seq<int>, i: nat, s: string)
    requires Here(t, i, s)
    ensures i + |s| <= |t| && (s != "" ==> t[i] == s[0] as int)
  {
    assert s != "" ==> t[i + 0] == s[0] as int;
  }

  lemma ExponentIs(f: Form, tail: string, t: seq<int>, g: bool)
    requires WellFormed(f) && Laid(f, tail, t) && (tail != "" ==> !Continues(f, tail[0], g)) && (f.e != "" ==> g)
    ensures ParseExp(t, PlacesOf(f).e, g) == if f.esign == "-" then -Natural(f.es) else Natural(f.es)
    ensures var x := PlacesOf(f).e;
            x < |t| ==> !IsDigit(t[x]) && (t[x] == '.' as int ==> f.point)
                        && (f.e != "" ==> !IsBlank(t[x]) && !IsSign(t[x]))
  {
    hide Figures, DigitEnd, DigitsOf;
    var q := PlacesOf(f);
    BehindExponent(f, tail, t, g);
    if f.e != "" {
      FirstHere(t, q.e, f.e);
      SignedExponent(t, q.e, f.e, f.esign, f.es);
    }
  }

  lemma FirstFigure(t: seq<int>, i: nat, ds: seq<int>)
    requires Digits(ds) && ds != [] && Here(t, i, Figures(ds))
    ensures i < |t| && IsDigit(t[i])
  {
    assert t[i + 0] == Figures(ds)[0] as int;
    Figure(ds[0]);
  }

  /** Digits, perhaps with a point and digits, before an exponent or something else. */
  lemma PointedDigits(t: seq<int>, i: nat, ip: seq<int>, point: bool, fp: seq<int>, neg: bool, g: bool)
    requires Digits(ip) && Digits(fp) && (!point ==> fp == []) && Here(t, i, Figures(ip))
    requires point ==> Here(t, i + |ip|, ".") && Here(t, i + |ip| + 1, Figures(fp))
    requires var k := i + |ip| + (if point then 1 else 0) + |fp|;
             k <= |t| && (k < |t| ==> !IsDigit(t[k]) && (t[k] == '.' as int ==> point))
    ensures var k := i + |ip| + (if point then 1 else 0) + |fp|;
            k <= |t| && ParseUnsigned(t, i, neg, g) == Numeral(neg, ip, fp, ParseExp(t, k, g))
  {
    hide Figures, DigitsOf, ParseExp;
    if point {
      FirstHere(t, i + |ip|, ".");
      FiguresAre(t, i + |ip| + 1, fp);
    }
    FiguresAre(t, i, ip);
  }

  lemma UnsignedIs(f: Form, tail: string, t: seq<int>, g: bool, neg: bool)
    requires WellFormed(f) && Laid(f, tail, t) && (tail != "" ==> !Continues(f, tail[0], g)) && (f.e != "" ==> g)
    ensures ParseUnsigned(t, PlacesOf(f).ip, neg, g) == Written(f).(neg := neg)
  {
    hide Figures, ParseExp, ParseUnsigned, Continues;
    var q := PlacesOf(f);
    ExponentIs(f, tail, t, g);
    PointedDigits(t, q.ip, f.ip, f.point, f.fp, neg, g);
  }

  /** The digits begin with no blank, and with no sign if there is none. */
  lemma DigitsBegin(f: Form, tail: string, t: seq<int>, g: bool)
    requires WellFormed(f) && Laid(f, tail, t) && (tail != "" ==> !Continues(f, tail[0], g)) && (f.e != "" ==> g)
    ensures var x := PlacesOf(f).ip; x < |t| ==> !IsBlank(t[x]) && (IsSign(t[x]) ==> f.sign != "")
  {
    hide Figures, ParseExp;
    var q := PlacesOf(f);
    if f.ip != [] {
      FirstFigure(t, q.ip, f.ip);
    } else if f.point {
      FirstHere(t, q.point, Point(f));
    } else if f.e != "" {
      ExponentIs(f, tail, t, g);
    } else {
      BehindExponent(f, tail, t, g);
    }
  }

  /** What is written is read: the same number, whatever the text goes on with that does not belong to it. */
  lemma PrintedIsParsed(f: Form, tail: string, g: bool)
    requires WellFormed(f) && (tail != "" ==> !Continues(f, tail[0], g)) && (f.e != "" ==> g)
    ensures Parse(Text(Printed(f) + tail), g) == Written(f)
  {
    hide Printed, Laid, ParseUnsigned, Figures, WellFormed;
    var t, q := Text(Printed(f) + tail), PlacesOf(f);
    PrintedIsLaid(f, tail);
    UnsignedIs(f, tail, t, g, f.sign == "-");
    DigitsBegin(f, tail, t, g);
    BlanksInFront(f, tail, t);
  }

  lemma BlanksInFront(f: Form, tail: string, t: seq<int>)
    requires WellFormed(f) && Laid(f, tail, t)
    requires var x := PlacesOf(f).ip; x < |t| ==> !IsBlank(t[x]) && (IsSign(t[x]) ==> f.sign != "")
    ensures var b := BlankEnd(t, 0);
            && b == PlacesOf(f).sign
            && (b < |t| && IsSign(t[b]) <==> f.sign != "")
            && (f.sign != "" ==> (t[b] == '-' as int <==> f.sign == "-") && BlankEnd(t, b + 1) == PlacesOf(f).ip)
            && (f.sign == "" ==> b == PlacesOf(f).ip)
  {
    hide Figures;
    var q := PlacesOf(f);
    if f.sign != "" {
      FirstHere(t, q.sign, f.sign);
      BlanksAre(t, q.gap, f.gap);
    }
    BlanksAre(t, 0, f.lead);
  }

  /** The keys of two written numbers compare as the numbers that were written, backwards under -r, exactly if the
      places of their points have not been wrapped round into another order. */
  lemma PrintedInOrder(f: Form, a: string, h: Form, b: string, g: bool, r: bool)
    requires WellFormed(f) && (a != "" ==> !Continues(f, a[0], g)) && (f.e != "" ==> g)
    requires WellFormed(h) && (b != "" ==> !Continues(h, b[0], g)) && (h.e != "" ==> g)
    ensures var m, n := Normalized(Written(f)), Normalized(Written(h));
            && m == Normalized(Parse(Text(Printed(f) + a), g)) && n == Normalized(Parse(Text(Printed(h) + b), g))
            && (Kcmp(KeyOf(m, r), KeyOf(n, r)) ==
                  NumberOrder(NumeralValue(Written(f)), NumeralValue(Written(h)), r) <==>
                WrapAlike(m, n))
  {
    hide Parse, Normalized, KeyOf, NumeralValue, Kcmp, WrapAlike, NumberOrder, Printed, Written, WellFormed, Continues;
    PrintedIsParsed(f, a, g);
    PrintedIsParsed(h, b, g);
    NumericKeysEmbedOrder(Text(Printed(f) + a), Text(Printed(h) + b), g, r);
  }

  // ---- Every text is written so -----------------------------------------------------------------------------

  lemma {:induction false} TakeBlanks(t: string) returns (a: string, b: string)
    ensures t == a + b && Blank(a) && (b != "" ==> b[0] != ' ' && b[0] != '\t')
  {
    if t != "" && (t[0] == ' ' || t[0] == '\t') {
      a, b := TakeBlanks(t[1..]);
      a := [t[0]] + a;
    } else {
      a, b := "", t;
    }
  }

  lemma TakeSign(t: string) returns (a: string, b: string)
    ensures t == a + b && (a == "" || a == "+" || a == "-") && (a == "" && b != "" ==> b[0] != '+' && b[0] != '-')
  {
    if t != "" && (t[0] == '+' || t[0] == '-') {
      a, b := [t[0]], t[1..];
    } else {
      a, b := "", t;
    }
  }

  lemma {:induction false} TakeFigures(t: string) returns (ds: seq<int>, b: string)
    ensures Digits(ds) && t == Figures(ds) + b && (b != "" ==> b[0] !in FIGURES)
  {
    if t != "" && t[0] in FIGURES {
      var d :| 0 <= d < |FIGURES| && FIGURES[d] == t[0];
      ds, b := TakeFigures(t[1..]);
      assert Figures([d] + ds) == [t[0]] + Figures(ds);
      ds := [d] + ds;
    } else {
      ds, b := [], t;
    }
  }

  /** Digits with or without a point. */
  lemma TakeDigits(t: string) returns (ip: seq<int>, point: bool, fp: seq<int>, b: string)
    ensures Digits(ip) && Digits(fp) && (!point ==> fp == [])
    ensures t == Figures(ip) + ((if point then "." else "") + (Figures(fp) + b))
    ensures b != "" ==> b[0] !in FIGURES && (b[0] == '.' ==> point)
    ensures ip == [] && !point ==> b == t
  {
    hide FIGURES;
    ip, b := TakeFigures(t);
    point, fp := false, [];
    if b != "" && b[0] == '.' {
      ghost var rest := b[1..];
      assert b == "." + rest;
      point := true;
      fp, b := TakeFigures(rest);
    } else {
      assert Figures([]) == "";
    }
  }

  lemma TakeExponent(t: string, g: bool) returns (e: string, sign: string, es: seq<int>, b: string)
    ensures (e == "" || e == "e" || e == "E") && (sign == "" || sign == "+" || sign == "-") && Digits(es)
    ensures t == e + (sign + (Figures(es) + b)) && (e == "" ==> sign == "" && es == [] && b == t) && (e != "" ==> g)
    ensures e == "" && b != "" ==> !(g && (b[0] == 'e' || b[0] == 'E'))
    ensures e != "" && b != "" ==> b[0] !in FIGURES && (sign == "" && es == [] ==> b[0] != '+' && b[0] != '-')
  {
    hide FIGURES;
    e, sign, es, b := "", "", [], t;
    if g && t != "" && (t[0] == 'e' || t[0] == 'E') {
      e := [t[0]];
      sign, b := TakeSign(t[1..]);
      ghost var rest := b;
      es, b := TakeFigures(rest);
      assert t == e + t[1..];
    } else {
      assert Figures([]) == "";
    }
  }

  lemma BlankEmpty()
    ensures Blank("")
  {
  }

  /** There is no other text: whatever a line has, it is a written number and something that does not belong to it. */
  lemma EveryTextIsPrinted(t: string, g: bool) returns (f: Form, tail: string)
    ensures WellFormed(f) && t == Printed(f) + tail && (tail != "" ==> !Continues(f, tail[0], g)) && (f.e != "" ==> g)
  {
    hide FIGURES, Figures, Printed, Continues, Blank, Digits;
    var lead, b := TakeBlanks(t);
    BlankEmpty();
    var sign, c := TakeSign(b);
    var gap, d := "", c;
    if sign != "" {
      gap, d := TakeBlanks(c);
    }
    var ip, point, fp, h := TakeDigits(d);
    var e, esign, es;
    e, esign, es, tail := TakeExponent(h, g);
    f := Form(lead, sign, gap, ip, point, fp, e, esign, es);
    PrintedWith(f, tail);
    if tail != "" {
      Stops(f, tail[0], g);
    }
  }

  lemma Stops(f: Form, c: char, g: bool)
    requires c !in FIGURES && (f.e == "" ==> !(g && (c == 'e' || c == 'E')) && (c == '.' ==> f.point))
    requires f.e != "" && f.esign == "" && f.es == [] ==> c != '+' && c != '-'
    requires f.ip == [] && !f.point && f.e == "" ==>
               c != ' ' && c != '\t' && (f.sign == "" ==> c != '+' && c != '-')
    ensures !Continues(f, c, g)
  {
  }

  lemma PrintedWith(f: Form, tail: string)
    requires WellFormed(f)
    ensures Printed(f) + tail ==
            f.lead + (f.sign + (f.gap + (Figures(f.ip) + (Point(f) + (Figures(f.fp) +
              (f.e + (f.esign + (Figures(f.es) + tail))))))))
  {
    hide Figures, Point;
    var es := Figures(f.es);
    var h := f.esign + es;
    var fp := Figures(f.fp) + (f.e + h);
    var ip := Figures(f.ip) + FromPoint(f);
    Regroup(f.esign, es, tail);
    Regroup(f.e, h, tail);
    Regroup(Figures(f.fp), f.e + h, tail);
    Regroup(Point(f), fp, tail);
    Regroup(Figures(f.ip), FromPoint(f), tail);
    Regroup(f.gap, ip, tail);
    Regroup(f.sign, f.gap + ip, tail);
    Regroup(f.lead, f.sign + (f.gap + ip), tail);
  }

  lemma Regroup(a: string, b: string, c: string)
    ensures (a + b) + c == a + (b + c)
  {
  }
}
