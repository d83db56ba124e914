/**
 dokey_gn of sort.c: the automaton that reads a number and writes its key. What a
 line means as a number is defined apart from it, by recursive descent.
 */
module SortDokey {
  import opened SortNumber
  import opened SortKey

  // ---- What a line means ------------------------------------------------------------------------------

  predicate IsBlank(c: int) { c == ' ' as int || c == '\t' as int }
  predicate IsDigit(c: int) { '0' as int <= c <= '9' as int }
  predicate IsSign(c: int) { c == '+' as int || c == '-' as int }

  function BlankEnd(t: seq<int>, i: nat): (j: nat)
    requires i <= |t|
    ensures i <= j <= |t| && (j < |t| ==> !IsBlank(t[j]))
    decreases |t| - i
  {
    if i < |t| && IsBlank(t[i]) then BlankEnd(t, i + 1) else i
  }

  function DigitEnd(t: seq<int>, i: nat): (j: nat)
    requires i <= |t|
    ensures i <= j <= |t| && (j < |t| ==> !IsDigit(t[j]))
    ensures AllDigits(t[i..j])
    decreases |t| - i
  {
    if i < |t| && IsDigit(t[i]) then DigitEnd(t, i + 1) else i
  }

  predicate AllDigits(s: seq<int>) {
    forall k | 0 <= k < |s| :: IsDigit(s[k])
  }

  function DigitsOf(s: seq<int>): (ds: seq<int>)
    requires AllDigits(s)
    ensures |ds| == |s| && Digits(ds)
  {
    seq(|s|, k requires 0 <= k < |s| => s[k] - '0' as int)
  }

  /** A number as it is written: digits before and after the point, and the exponent. */
  datatype Numeral = Numeral(neg: bool, ip: seq<int>, fp: seq<int>, exp: int)

  function NumeralValue(n: Numeral): real {
    (if n.neg then -1.0 else 1.0) * (Natural(n.ip + n.fp) as real * Pow10(n.exp - |n.fp|))
  }

  /** The exponent at position k: e or E, a sign, digits; 0 if there is none or -g is off. */
  function ParseExp(t: seq<int>, k: nat, g: bool): int
    requires k <= |t|
  {
    if g && k < |t| && (t[k] == 'e' as int || t[k] == 'E' as int) then
      var signed := k + 1 < |t| && IsSign(t[k + 1]);
      var x := if signed then k + 2 else k + 1;
      var v := Natural(DigitsOf(t[x..DigitEnd(t, x)]));
      if signed && t[k + 1] == '-' as int then -v else v
    else 0
  }

  /** Digits, a point and digits, and an exponent, from position i on. */
  function ParseUnsigned(t: seq<int>, i: nat, neg: bool, g: bool): Numeral
    requires i <= |t|
  {
    var j := DigitEnd(t, i);
    var dot := j < |t| && t[j] == '.' as int;
    var k := if dot then DigitEnd(t, j + 1) else j;
    Numeral(neg, DigitsOf(t[i..j]), if dot then DigitsOf(t[j + 1..k]) else [], ParseExp(t, k, g))
  }

  /** Blanks, a sign, blanks, and an unsigned number. */
  function Parse(t: seq<int>, g: bool): Numeral {
    var b := BlankEnd(t, 0);
    if b < |t| && IsSign(t[b]) then ParseUnsigned(t, BlankEnd(t, b + 1), t[b] == '-' as int, g)
    else ParseUnsigned(t, b, false, g)
  }

  // ---- Leading and trailing zeros -----------------------------------------------------------------------

  function TrimStart(ds: seq<int>): seq<int> {
    if ds == [] then [] else if ds[0] == 0 then TrimStart(ds[1..]) else ds
  }

  function TrailingZeros(ds: seq<int>): (n: nat)
    ensures n <= |ds|
  {
    if ds == [] || ds[|ds| - 1] != 0 then 0 else 1 + TrailingZeros(ds[..|ds| - 1])
  }

  function TrimEnd(ds: seq<int>): seq<int> {
    ds[..|ds| - TrailingZeros(ds)]
  }

  lemma {:induction false} TrimStartSnoc(ds: seq<int>, d: int)
    ensures TrimStart(ds + [d]) == if TrimStart(ds) == [] then (if d == 0 then [] else [d]) else TrimStart(ds) + [d]
  {
    if ds == [] {
      assert [] + [d] == [d] && [d][1..] == [];
    } else {
      assert (ds + [d])[1..] == ds[1..] + [d];
      if ds[0] == 0 {
        TrimStartSnoc(ds[1..], d);
      }
    }
  }

  lemma TrailingZerosSnoc(ds: seq<int>, d: int)
    ensures TrailingZeros(ds + [d]) == if d == 0 then 1 + TrailingZeros(ds) else 0
  {
    assert (ds + [d])[..|ds|] == ds;
  }

  lemma {:induction false} TrimStartNatural(ds: seq<int>)
    requires Digits(ds)
    ensures Natural(TrimStart(ds)) == Natural(ds) && Digits(TrimStart(ds)) && |TrimStart(ds)| <= |ds|
    ensures TrimStart(ds) != [] ==> TrimStart(ds)[0] != 0
  {
    if ds != [] && ds[0] == 0 {
      TrimStartNatural(ds[1..]);
      LeadingZero(ds);
    }
  }

  lemma {:induction false} LeadingZero(ds: seq<int>)
    requires ds != [] && ds[0] == 0
    ensures Natural(ds) == Natural(ds[1..])
  {
    var n := |ds| - 1;
    if n > 0 {
      LeadingZero(ds[..n]);
      assert ds[..n][1..] == ds[1..][..n - 1];
    } else {
      assert ds[..0] == [] && ds[1..] == [];
    }
  }

  lemma {:induction false} TrimEndFraction(ds: seq<int>)
    requires Digits(ds)
    ensures Fraction(TrimEnd(ds)) == Fraction(ds) && Trimmed(TrimEnd(ds))
    ensures ds != [] && ds[0] != 0 ==> TrimEnd(ds) != [] && TrimEnd(ds)[0] == ds[0]
  {
    if ds != [] && ds[|ds| - 1] == 0 {
      var n := |ds| - 1;
      TrimEndFraction(ds[..n]);
      FractionSnoc(ds[..n], 0);
      assert ds == ds[..n] + [0];
      assert TrimEnd(ds) == TrimEnd(ds[..n]);
    } else {
      assert TrimEnd(ds) == ds;
    }
  }

  /** The number that a numeral stands for, without superfluous zeros. */
  function Normalized(n: Numeral): Number {
    var ds := TrimStart(n.ip + n.fp);
    if ds == [] then Nil else Number(n.neg, |ds| - |n.fp| + n.exp, TrimEnd(ds))
  }

  lemma NormalizedIsEqual(n: Numeral)
    requires Digits(n.ip) && Digits(n.fp)
    ensures Normal(Normalized(n)) && Value(Normalized(n)) == NumeralValue(n)
  {
    hide Pow10, Fraction, Natural, TrimStart, TrimEnd;
    var all, ds := n.ip + n.fp, TrimStart(n.ip + n.fp);
    TrimStartNatural(all);
    if ds != [] {
      TrimEndFraction(ds);
      FractionIsNatural(ds);
      var p := |ds| - |n.fp| + n.exp;
      PowAdd(-|ds|, p);
      Regroup(if n.neg then -1.0 else 1.0, Natural(ds) as real, Pow10(-|ds|), Pow10(p), Fraction(ds),
              Pow10(n.exp - |n.fp|));
    } else {
      NaturalOfNone();
    }
  }

  lemma NaturalOfNone()
    ensures Natural([]) == 0
  {
  }

  lemma Regroup(s: real, a: real, p: real, q: real, f: real, r: real)
    requires f == a * p && r == p * q
    ensures s * (f * q) == s * (a * r)
  {
    assert f * q == a * r;
  }

  // ---- The automaton ------------------------------------------------------------------------------------

  datatype State = Start | Sign | Zero | Digit | Point | Fract | Zerofract | Exp | Expsign | Expdigit

  /** The locals of dokey_gn: dp without its bias, and the digits that are in the key so far. */
  datatype Scan = Scan(state: State, rflag: bool, digs: seq<int>, dp: int, nzero: nat, exp: int, expneg: bool)

  datatype Next = Stop | Go(scan: Scan)

  predicate IsZero(s: State) {
    s == Start || s == Sign || s == Zero || s == Zerofract || s == Point
  }

  predicate IsExp(s: State) {
    s == Exp || s == Expsign || s == Expdigit
  }

  /** The two switches on the state for a digit. */
  function StepDigit(s: Scan, d: int): Scan {
    if IsExp(s.state) then s.(exp := s.exp * 10 + d, state := Expdigit)
    else if s.state == Zerofract || s.state == Point then
      if d == 0 then s.(dp := s.dp - 1, state := Zerofract) else s.(digs := s.digs + [d], nzero := 0, state := Fract)
    else if s.state == Fract then s.(digs := s.digs + [d], nzero := if d == 0 then s.nzero + 1 else 0)
    else if s.state == Digit then s.(digs := s.digs + [d], nzero := if d == 0 then s.nzero + 1 else 0, dp := s.dp + 1)
    else if d == 0 then s.(state := Zero)
    else s.(digs := s.digs + [d], nzero := 0, dp := s.dp + 1, state := Digit)
  }

  /** One character; Stop leaves the loop. */
  function Step(s: Scan, c: int, g: bool): Next {
    if IsBlank(c) then (if s.state == Start || s.state == Sign then Go(s) else Stop)
    else if IsSign(c) then
      if s.state == Start then Go(s.(state := Sign, rflag := if c == '-' as int then !s.rflag else s.rflag))
      else if s.state == Exp then Go(s.(state := Expsign, expneg := c == '-' as int))
      else Stop
    else if IsDigit(c) then Go(StepDigit(s, c - '0' as int))
    else if c == '.' as int then
      if s.state == Start || s.state == Sign then Go(s.(state := Point))
      else if s.state == Zero then Go(s.(state := Zerofract))
      else if s.state == Digit then Go(s.(state := Fract))
      else Stop
    else if g && (c == 'e' as int || c == 'E' as int) then
      if s.state == Digit || s.state == Fract then Go(s.(state := Exp)) else Stop
    else Stop
  }

  function Run(s: Scan, t: seq<int>, i: nat, g: bool): Scan
    requires i <= |t|
    decreases |t| - i
  {
    if i == |t| then s
    else match Step(s, t[i], g)
      case Stop => s
      case Go(s') => Run(s', t, i + 1, g)
  }

  function ExpOf(s: Scan): int {
    if !IsExp(s.state) then 0 else if s.expneg then -s.exp else s.exp
  }

  /** The place of the point that goes into the key. */
  function PointOf(s: Scan): int {
    s.dp + ExpOf(s)
  }

  // ---- The automaton follows the grammar ------------------------------------------------------------------

  predicate Counted(s: Scan, all: seq<int>, fraction: nat) {
    && s.digs == TrimStart(all) && s.dp == |s.digs| - fraction && s.nzero == TrailingZeros(s.digs)
    && s.exp == 0 && !s.expneg
  }

  /** The digits ip before the point have been read. */
  predicate IntRead(s: Scan, ip: seq<int>) {
    && Counted(s, ip, 0)
    && if ip == [] then s.state == Start || s.state == Sign else if s.digs == [] then s.state == Zero
       else s.state == Digit
  }

  /** The point and the digits fp have been read, too. */
  predicate FractRead(s: Scan, ip: seq<int>, fp: seq<int>) {
    && Counted(s, ip + fp, |fp|)
    && if s.digs != [] then s.state == Fract else if ip == [] && fp == [] then s.state == Point
       else s.state == Zerofract
  }

  lemma EmptyStart()
    ensures TrimStart([]) == []
  {
  }

  lemma NoTrailingZeros()
    ensures TrailingZeros([]) == 0
  {
  }

  lemma IntStep(s: Scan, ip: seq<int>, d: int)
    requires IntRead(s, ip)
    ensures IntRead(StepDigit(s, d), ip + [d]) && StepDigit(s, d).rflag == s.rflag
  {
    hide TrimStart, TrailingZeros;
    TrimStartSnoc(ip, d);
    TrailingZerosSnoc(s.digs, d);
    EmptyStart();
    NoTrailingZeros();
  }

  lemma FractStep(s: Scan, ip: seq<int>, fp: seq<int>, d: int)
    requires FractRead(s, ip, fp)
    ensures FractRead(StepDigit(s, d), ip, fp + [d]) && StepDigit(s, d).rflag == s.rflag
  {
    hide TrimStart, TrailingZeros;
    assert ip + (fp + [d]) == (ip + fp) + [d];
    TrimStartSnoc(ip + fp, d);
    TrailingZerosSnoc(s.digs, d);
  }

  lemma MoreDigits(t: seq<int>, i: nat, j: nat)
    requires i < j <= |t| && AllDigits(t[i..j])
    ensures AllDigits(t[i + 1..j]) && DigitsOf(t[i..j]) == [t[i] - '0' as int] + DigitsOf(t[i + 1..j])
  {
    var u, v := t[i..j], t[i + 1..j];
    assert u == [t[i]] + v;
    forall k | 0 <= k < |v| ensures IsDigit(v[k]) {
      assert u[k + 1] == v[k];
    }
  }

  lemma {:induction false} RunInt(s: Scan, t: seq<int>, i: nat, g: bool, ip: seq<int>) returns (s': Scan)
    requires i <= |t| && IntRead(s, ip)
    ensures Run(s, t, i, g) == Run(s', t, DigitEnd(t, i), g) && s'.rflag == s.rflag
    ensures IntRead(s', ip + DigitsOf(t[i..DigitEnd(t, i)])) && (DigitEnd(t, i) == i ==> s' == s)
    decreases |t| - i
  {
    var j := DigitEnd(t, i);
    if i < j {
      var d := t[i] - '0' as int;
      IntStep(s, ip, d);
      s' := RunInt(StepDigit(s, d), t, i + 1, g, ip + [d]);
      MoreDigits(t, i, j);
      assert ip + [d] + DigitsOf(t[i + 1..j]) == ip + DigitsOf(t[i..j]);
    } else {
      s' := s;
      assert ip + DigitsOf(t[i..i]) == ip;
    }
  }

  lemma {:induction false} RunFract(s: Scan, t: seq<int>, i: nat, g: bool, ip: seq<int>, fp: seq<int>)
    returns (s': Scan)
    requires i <= |t| && FractRead(s, ip, fp)
    ensures Run(s, t, i, g) == Run(s', t, DigitEnd(t, i), g) && s'.rflag == s.rflag
    ensures FractRead(s', ip, fp + DigitsOf(t[i..DigitEnd(t, i)]))
    decreases |t| - i
  {
    hide FractRead;
    var j := DigitEnd(t, i);
    if i < j {
      var d := t[i] - '0' as int;
      FractStep(s, ip, fp, d);
      s' := RunFract(StepDigit(s, d), t, i + 1, g, ip, fp + [d]);
      MoreDigits(t, i, j);
      assert fp + [d] + DigitsOf(t[i + 1..j]) == fp + DigitsOf(t[i..j]);
    } else {
      s' := s;
      assert fp + DigitsOf(t[i..i]) == fp;
    }
  }

  lemma RunGo(s: Scan, t: seq<int>, i: nat, g: bool, s': Scan)
    requires i < |t| && Step(s, t[i], g) == Go(s')
    ensures Run(s, t, i, g) == Run(s', t, i + 1, g)
  {
  }

  lemma RunStop(s: Scan, t: seq<int>, i: nat, g: bool)
    requires i <= |t| && (i < |t| ==> Step(s, t[i], g) == Stop)
    ensures Run(s, t, i, g) == s
  {
  }

  /** In the exponent, es has been read. */
  lemma {:induction false} RunExp(s: Scan, t: seq<int>, i: nat, g: bool, es: seq<int>)
    requires i <= |t| && IsExp(s.state) && s.exp == Natural(es)
    requires i < |t| && IsSign(t[i]) ==> s.state != Exp
    ensures IsExp(Run(s, t, i, g).state)
    ensures Run(s, t, i, g) == s.(state := Run(s, t, i, g).state, exp := Natural(es + DigitsOf(t[i..DigitEnd(t, i)])))
    decreases |t| - i
  {
    hide Natural, DigitsOf, Run;
    var j := DigitEnd(t, i);
    if i < j {
      var d := t[i] - '0' as int;
      NaturalSnoc(es, d);
      RunGo(s, t, i, g, StepDigit(s, d));
      RunExp(StepDigit(s, d), t, i + 1, g, es + [d]);
      MoreDigits(t, i, j);
      assert es + [d] + DigitsOf(t[i + 1..j]) == es + DigitsOf(t[i..j]);
    } else {
      RunStop(s, t, i, g);
      assert es + DigitsOf(t[i..i]) == es;
    }
  }

  lemma RunExponent(s: Scan, t: seq<int>, k: nat, g: bool)
    requires k <= |t| && (s.state == Digit || s.state == Fract) && s.exp == 0 && !s.expneg
    requires k < |t| ==> !IsDigit(t[k]) && (t[k] == '.' as int ==> s.state == Fract)
    ensures var s' := Run(s, t, k, g);
            !IsZero(s'.state) && ExpOf(s') == ParseExp(t, k, g)
              && s' == s.(state := s'.state, exp := s'.exp, expneg := s'.expneg)
  {
    hide Natural, DigitsOf, Run, DigitEnd;
    NaturalOfNone();
    if g && k < |t| && (t[k] == 'e' as int || t[k] == 'E' as int) {
      var s1 := s.(state := Exp);
      RunGo(s, t, k, g, s1);
      if k + 1 < |t| && IsSign(t[k + 1]) {
        var s2 := s1.(state := Expsign, expneg := t[k + 1] == '-' as int);
        RunGo(s1, t, k + 1, g, s2);
        RunExp(s2, t, k + 2, g, []);
        assert [] + DigitsOf(t[k + 2..DigitEnd(t, k + 2)]) == DigitsOf(t[k + 2..DigitEnd(t, k + 2)]);
      } else {
        RunExp(s1, t, k + 1, g, []);
        assert [] + DigitsOf(t[k + 1..DigitEnd(t, k + 1)]) == DigitsOf(t[k + 1..DigitEnd(t, k + 1)]);
      }
    } else {
      RunStop(s, t, k, g);
    }
  }

  /** What the automaton has found at the end of its run. */
  function Found(s: Scan, r: bool): Number {
    if IsZero(s.state) then Nil else Number(s.rflag != r, PointOf(s), s.digs[..|s.digs| - TrailingZeros(s.digs)])
  }

  /** From the digits of the integer part on, at position k: the exponent and the end. */
  lemma FoundExponent(s: Scan, t: seq<int>, k: nat, g: bool, r: bool, ip: seq<int>, fp: seq<int>)
    requires k <= |t| && Counted(s, ip + fp, |fp|) && (s.digs != [] ==> s.state == Digit || s.state == Fract)
    requires s.digs == [] ==> IsZero(s.state)
    requires k < |t| ==>
               !IsDigit(t[k]) && (t[k] == '.' as int ==> s.state == Point || s.state == Zerofract || s.state == Fract)
    requires k < |t| && IsBlank(t[k]) ==> s.state != Start && s.state != Sign
    requires k < |t| && IsSign(t[k]) ==> s.state != Start
    ensures Run(s, t, k, g).nzero == TrailingZeros(Run(s, t, k, g).digs)
    ensures Found(Run(s, t, k, g), r) == Normalized(Numeral(s.rflag != r, ip, fp, ParseExp(t, k, g)))
  {
    hide Run, ParseExp, TrimStart, TrailingZeros;
    if s.digs == [] {
      RunStop(s, t, k, g);
      NoTrailingZeros();
    } else {
      RunExponent(s, t, k, g);
    }
  }

  /** From the first digit, or the point, on. */
  lemma FoundUnsigned(s: Scan, t: seq<int>, i: nat, g: bool, r: bool)
    requires i <= |t| && IntRead(s, [])
    requires i < |t| ==> !IsBlank(t[i]) && (IsSign(t[i]) ==> s.state != Start)
    ensures Run(s, t, i, g).nzero == TrailingZeros(Run(s, t, i, g).digs)
    ensures Found(Run(s, t, i, g), r) == Normalized(ParseUnsigned(t, i, s.rflag != r, g))
  {
    hide Run, ParseExp, TrimStart, TrailingZeros, DigitEnd, DigitsOf, Normalized, Found, IntRead, Step;
    var j := DigitEnd(t, i);
    var s1 := RunInt(s, t, i, g, []);
    var ip := DigitsOf(t[i..j]);
    assert [] + ip == ip;
    if j < |t| && t[j] == '.' as int {
      var s2 := PointStep(s1, ip, g);
      RunGo(s1, t, j, g, s2);
      var k := DigitEnd(t, j + 1);
      var s3 := RunFract(s2, t, j + 1, g, ip, []);
      var fp := DigitsOf(t[j + 1..k]);
      assert [] + fp == fp;
      FoundExponent(s3, t, k, g, r, ip, fp);
    } else {
      assert ip + [] == ip;
      EmptyStart();
      FoundExponent(s1, t, j, g, r, ip, []);
    }
  }

  lemma PointStep(s: Scan, ip: seq<int>, g: bool) returns (s': Scan)
    requires IntRead(s, ip)
    ensures Step(s, '.' as int, g) == Go(s') && FractRead(s', ip, []) && s'.rflag == s.rflag
  {
    hide TrimStart, TrailingZeros;
    assert ip + [] == ip;
    s' := s.(state := if s.state == Start || s.state == Sign then Point else if s.state == Zero then Zerofract
             else Fract);
    EmptyStart();
  }

  lemma {:induction false} RunBlanks(s: Scan, t: seq<int>, i: nat, g: bool)
    requires i <= |t| && (s.state == Start || s.state == Sign)
    ensures Run(s, t, i, g) == Run(s, t, BlankEnd(t, i), g)
    decreases |t| - i
  {
    if i < |t| && IsBlank(t[i]) {
      RunBlanks(s, t, i + 1, g);
    }
  }

  function Initial(r: bool): Scan {
    Scan(Start, r, [], 0, 0, 0, false)
  }

  /** The automaton finds the number that the line means. */
  lemma FoundIsParsed(t: seq<int>, g: bool, r: bool)
    ensures Run(Initial(r), t, 0, g).nzero == TrailingZeros(Run(Initial(r), t, 0, g).digs)
    ensures Found(Run(Initial(r), t, 0, g), r) == Normalized(Parse(t, g))
  {
    hide Run, ParseUnsigned, Normalized, Found, BlankEnd;
    var s := Initial(r);
    var b := BlankEnd(t, 0);
    RunBlanks(s, t, 0, g);
    EmptyStart();
    if b < |t| && IsSign(t[b]) {
      var s' := s.(state := Sign, rflag := if t[b] == '-' as int then !r else r);
      RunGo(s, t, b, g, s');
      RunBlanks(s', t, b + 1, g);
      FoundUnsigned(s', t, BlankEnd(t, b + 1), g, r);
    } else {
      FoundUnsigned(s, t, b, g, r);
    }
  }

  lemma StepKeeps(s: Scan, c: int, g: bool)
    requires s.state == Start ==> s.digs == []
    requires Step(s, c, g).Go?
    ensures var s' := Step(s, c, g).scan;
            && (s'.digs == s.digs || (IsDigit(c) && s'.digs == s.digs + [c - '0' as int]))
            && (s'.state == Start ==> s'.digs == []) && (s'.rflag == s.rflag || s'.digs == [])
  {
  }

  lemma DigitBytesSnoc(ds: seq<int>, d: int, rflag: bool)
    ensures DigitBytes(ds + [d], rflag) == DigitBytes(ds, rflag) + [Byte(0x30 + d, rflag)]
  {
  }

  /** dokey_gn: the key of the field's number is appended to the key; r and g are the field's flags. */
  method DokeyGn(key: array<int>, klen: nat, t: seq<int>, r: bool, g: bool) returns (len: nat)
    requires klen + |t| + 4 <= key.Length
    modifies key
    ensures klen <= len <= klen + |t| + 4 && key[..len] == old(key[..klen]) + KeyOf(Normalized(Parse(t, g)), r)
  {
    hide Run, Parse, Normalized, Step, TrailingZeros;
    var cl := klen + 3;
    var s := Initial(r);
    var i := 0;
    while i < |t|
      invariant i <= |t| && Run(s, t, i, g) == Run(Initial(r), t, 0, g)
      invariant cl == klen + 3 + |s.digs| <= klen + 3 + i && (s.state == Start ==> s.digs == [])
      invariant key[klen + 3..cl] == DigitBytes(s.digs, s.rflag) && key[..klen] == old(key[..klen])
    {
      match Step(s, t[i], g) {
        case Stop =>
          RunStop(s, t, i, g);
          break;
        case Go(s') =>
          StepKeeps(s, t[i], g);
          RunGo(s, t, i, g, s');
          if |s'.digs| > |s.digs| {
            DigitBytesSnoc(s.digs, t[i] - '0' as int, s'.rflag);
            key[cl] := Byte(t[i], s'.rflag);
            cl := cl + 1;
          }
          s := s';
      }
      i := i + 1;
    }
    if i == |t| {
      RunStop(s, t, i, g);
    }
    FoundIsParsed(t, g, r);
    NonzeroIs(s, r);
    len := Finish(key, klen, cl, s, r);
  }

  /** The end of dokey_gn: the end byte, the sign and the place of the point. */
  method Finish(key: array<int>, klen: nat, cl0: nat, s: Scan, r: bool) returns (len: nat)
    requires cl0 == klen + 3 + |s.digs| < key.Length && s.nzero == TrailingZeros(s.digs)
    requires key[klen + 3..cl0] == DigitBytes(s.digs, s.rflag)
    modifies key
    ensures klen <= len <= klen + |s.digs| + 4 && key[..len] == old(key[..klen]) + KeyOf(Found(s, r), r)
  {
    hide Found, TrailingZeros, KeyOf, DigitBytes, Ended;
    NonzeroIs(s, r);
    FoundKey(s, r);
    ghost var pre := key[..klen];
    if IsZero(s.state) {
      key[klen], key[klen + 1] := 0x20, 0;
      assert key[..klen + 2] == pre + [0x20, 0];
      return klen + 2;
    }
    ghost var ds := s.digs[..|s.digs| - s.nzero];
    DigitBytesTake(s.digs, |s.digs| - s.nzero, s.rflag);
    var rflag, dp, cl := s.rflag, BIAS + PointOf(s), cl0 - s.nzero;
    ghost var body := DigitBytes(ds, rflag);
    assert key[klen + 3..cl] == key[klen + 3..cl0][..|ds|];
    EndNumber(key, klen, cl, dp, rflag, pre, body);
    len := cl + 1;
  }

  /** The bytes of the digits with the sign and the place of the point in front, and the end byte. */
  function Ended(dp0: int, rflag: bool, body: seq<int>): seq<int> {
    var dp := if rflag then 0xFFFF - dp0 % 0x10000 else dp0 % 0x10000;
    [if rflag then 0x10 else 0x30, dp / 256, dp % 256] + body + [Byte(0, rflag)]
  }

  lemma FoundKey(s: Scan, r: bool)
    requires s.nzero == TrailingZeros(s.digs)
    ensures KeyOf(Found(s, r), r) == if IsZero(s.state) then [0x20, 0] else
              Ended(BIAS + PointOf(s), s.rflag, DigitBytes(s.digs[..|s.digs| - s.nzero], s.rflag))
  {
    hide DigitBytes, TrailingZeros;
    NonzeroIs(s, r);
  }

  /** The end byte, and the sign and the place of the point in front. */
  method EndNumber(key: array<int>, klen: nat, cl: nat, dp0: int, rflag: bool, ghost pre: seq<int>,
                   ghost body: seq<int>)
    requires klen + 3 <= cl < key.Length && key[..klen] == pre && key[klen + 3..cl] == body
    modifies key
    ensures key[..cl + 1] == pre + Ended(dp0, rflag, body)
  {
    key[cl] := Byte(0, rflag);
    var c, dp := 0x30, dp0;
    if rflag {
      c, dp := 0x10, -dp - 1;
    }
    key[klen] := c;
    key[klen + 1], key[klen + 2] := dp / 256 % 256, dp % 256;
    TwoBytes(dp0);
    Glue(key[..], klen, cl, pre, [c, dp / 256 % 256, dp % 256], body, Byte(0, rflag));
    assert key[..][..cl + 1] == key[..cl + 1];
  }

  /** The two low bytes of a number and of its complement. */
  lemma TwoBytes(dp: int)
    ensures dp / 256 % 256 == dp % 0x10000 / 256 && dp % 256 == dp % 0x10000 % 256
    ensures var p := 0xFFFF - dp % 0x10000; (-dp - 1) / 256 % 256 == p / 256 && (-dp - 1) % 256 == p % 256
  {
    var h, p := dp / 0x10000, dp % 0x10000;
    assert dp == 0x10000 * h + p;
    assert dp / 256 == 256 * h + p / 256;
    var q := 0xFFFF - p;
    assert -dp - 1 == 0x10000 * (-h - 1) + q;
    assert (-dp - 1) / 256 == 256 * (-h - 1) + q / 256;
  }

  lemma Glue(k: seq<int>, klen: nat, cl: nat, pre: seq<int>, head: seq<int>, body: seq<int>, e: int)
    requires klen + 3 <= cl < |k| && k[..klen] == pre && |head| == 3 && k[klen] == head[0] && k[klen + 1] == head[1]
             && k[klen + 2] == head[2]
    requires k[klen + 3..cl] == body && k[cl] == e
    ensures k[..cl + 1] == pre + (head + body + [e])
  {
    assert k[klen..klen + 3] == head;
    assert k[..cl + 1] == k[..klen] + (k[klen..klen + 3] + k[klen + 3..cl] + [k[cl]]);
  }

  lemma DigitBytesTake(ds: seq<int>, n: nat, rflag: bool)
    requires n <= |ds|
    ensures DigitBytes(ds[..n], rflag) == DigitBytes(ds, rflag)[..n]
  {
  }

  lemma NonzeroIs(s: Scan, r: bool)
    requires s.nzero == TrailingZeros(s.digs)
    ensures s.nzero <= |s.digs|
    ensures Found(s, r) == if IsZero(s.state) then Nil
            else Number(s.rflag != r, PointOf(s), s.digs[..|s.digs| - s.nzero])
  {
  }

  lemma ParsedDigits(t: seq<int>, g: bool)
    ensures Digits(Parse(t, g).ip) && Digits(Parse(t, g).fp)
  {
  }

  /** What the promise comes to: the keys that dokey_gn writes for two fields are ordered as the numbers in
      them, backwards under -r, exactly if their places are; and neither is a proper prefix of the other. */
  lemma NumericKeysEmbedOrder(t: seq<int>, u: seq<int>, g: bool, r: bool)
    ensures var m, n := Normalized(Parse(t, g)), Normalized(Parse(u, g));
            && Unmixed(KeyOf(m, r), KeyOf(n, r))
            && (Kcmp(KeyOf(m, r), KeyOf(n, r)) ==
                  NumberOrder(NumeralValue(Parse(t, g)), NumeralValue(Parse(u, g)), r) <==>
                WrapAlike(m, n))
            && (Representable(m) && Representable(n) ==> WrapAlike(m, n))
  {
    hide Parse, Normalized, KeyOf, NumeralValue, Value, Kcmp, Normal, Representable, WrapAlike, NumberOrder;
    var m, n := Parse(t, g), Parse(u, g);
    ParsedDigits(t, g);
    ParsedDigits(u, g);
    NormalizedIsEqual(m);
    NormalizedIsEqual(n);
    KeysAreOrdered(Normalized(m), Normalized(n), r);
    if Representable(Normalized(m)) && Representable(Normalized(n)) {
      RepresentableWrapAlike(Normalized(m), Normalized(n));
    }
    if IsPrefix(KeyOf(Normalized(m), r), KeyOf(Normalized(n), r)) {
      KeysArePrefixFree(Normalized(m), Normalized(n), r);
    }
    if IsPrefix(KeyOf(Normalized(n), r), KeyOf(Normalized(m), r)) {
      KeysArePrefixFree(Normalized(n), Normalized(m), r);
    }
  }
}
