/**
 Exact clipping of Bresenham lines (clipline.c). The pixels of a line are defined
 without reference to the code, as the integer points nearest to the real line; the
 clipped segment lights exactly those of them that lie in the rectangle.
 */
module ClipLine {

  // ---- What a line lights -------------------------------------------------------------------------

  function Abs(x: int): int {
    if x < 0 then -x else x
  }

  /** A line through a and b given by its major coordinates am, bm and minor coordinates an, bn. */
  datatype Ends = Ends(am: int, an: int, bm: int, bn: int)
  {
    predicate Shallow() {
      am != bm && Abs(bn - an) <= Abs(bm - am)
    }

    /** 2*|dm| times the distance of (m, n) above the real line. */
    function Error(m: int, n: int): int {
      var s := if bm > am then 1 else -1;
      2 * Abs(bm - am) * (n - an) - 2 * (m - am) * (bn - an) * s
    }

    predicate Rising() {
      if bm > am then bn >= an else bn <= an
    }

    /** n is the integer nearest to the real line at m; a tie goes the way the line goes as m grows. */
    predicate On(m: int, n: int) {
      var d, e := Abs(bm - am), Error(m, n);
      if Rising() then -d < e <= d else -d <= e < d
    }

    /** The half-open range of major coordinates: from a, included, to b, excluded. */
    predicate Covers(m: int) {
      if bm > am then am <= m < bm else bm < m <= am
    }
  }

  /** The line from (x0, y0) to (x1, y1), the steeper direction taken as major. */
  function EndsOf(x0: int, y0: int, x1: int, y1: int): Ends {
    if Steep(x0, y0, x1, y1) then Ends(y0, x0, y1, x1) else Ends(x0, y0, x1, y1)
  }

  predicate Steep(x0: int, y0: int, x1: int, y1: int) {
    Abs(y1 - y0) > Abs(x1 - x0)
  }

  /** The half-open line from (x0, y0) to (x1, y1) lights pixel (px, py). */
  predicate Lit(x0: int, y0: int, x1: int, y1: int, px: int, py: int) {
    var e := EndsOf(x0, y0, x1, y1);
    if Steep(x0, y0, x1, y1) then e.Covers(py) && e.On(py, px) else e.Covers(px) && e.On(px, py)
  }

  /** n is y rounded to an integer, halves up or down. */
  predicate Rounded(y: real, n: int, up: bool) {
    if up then y - 0.5 < n as real <= y + 0.5 else y - 0.5 <= n as real < y + 0.5
  }

  /** The real line through (am, an) and (bm, bn) at m. */
  function LineAt(am: int, an: int, bm: int, bn: int, m: int): real
    requires am != bm
  {
    an as real + (m - am) as real * (bn - an) as real / (bm - am) as real
  }

  /** In the reals: the minor coordinate is that of the line, rounded; halves go up where the line rises with the major
      coordinate, and down where it falls. */
  lemma OnIsRounded(e: Ends, m: int, n: int)
    requires e.Shallow()
    ensures e.On(m, n) <==> Rounded(LineAt(e.am, e.an, e.bm, e.bn, m), n, e.Rising())
  {
    var d, y := Abs(e.bm - e.am) as real, LineAt(e.am, e.an, e.bm, e.bn, m);
    var f := n as real - y;
    ErrorIsReal(e, m, n);
    assert 2.0 * d * f == e.Error(m, n) as real;
    Halves(d, f, e.Error(m, n) as real);
  }

  lemma Halves(d: real, f: real, e: real)
    requires d > 0.0 && 2.0 * d * f == e
    ensures (e <= d <==> f <= 0.5) && (e < d <==> f < 0.5) && (-d <= e <==> -0.5 <= f) && (-d < e <==> -0.5 < f)
  {
    SameSign(2.0 * d, f - 0.5);
    SameSign(2.0 * d, f + 0.5);
    assert 2.0 * d * (f - 0.5) == e - d && 2.0 * d * (f + 0.5) == e + d;
  }

  lemma SameSign(p: real, x: real)
    requires p > 0.0
    ensures (x > 0.0 <==> p * x > 0.0) && (x < 0.0 <==> p * x < 0.0)
  {
    if x > 0.0 {
      assert p * x > 0.0;
    } else if x < 0.0 {
      assert p * -x > 0.0;
    }
  }

  lemma ErrorIsReal(e: Ends, m: int, n: int)
    requires e.am != e.bm
    ensures 2.0 * Abs(e.bm - e.am) as real * (n as real - LineAt(e.am, e.an, e.bm, e.bn, m)) == e.Error(m, n) as real
  {
    var q := (m - e.am) as real * (e.bn - e.an) as real;
    var d := (e.bm - e.am) as real;
    assert q / d * d == q;
    assert ((m - e.am) * (e.bn - e.an)) as real == q;
  }

  /** A pixel is lit if it is on the half-open range of the steeper direction, and the line, rounded, goes through
      it. */
  lemma LitIsRounded(x0: int, y0: int, x1: int, y1: int, px: int, py: int)
    requires x0 != x1 || y0 != y1
    ensures Lit(x0, y0, x1, y1, px, py) <==>
              if Abs(y1 - y0) > Abs(x1 - x0) then
                && (y0 <= py < y1 || y1 < py <= y0)
                && Rounded(LineAt(y0, x0, y1, x1, py), px, if y0 < y1 then x0 <= x1 else x1 <= x0)
              else
                && (x0 <= px < x1 || x1 < px <= x0)
                && Rounded(LineAt(x0, y0, x1, y1, px), py, if x0 < x1 then y0 <= y1 else y1 <= y0)
  {
    hide Rounded, LineAt;
    var e := EndsOf(x0, y0, x1, y1);
    if Steep(x0, y0, x1, y1) {
      OnIsRounded(e, py, px);
    } else {
      OnIsRounded(e, px, py);
    }
  }

  // ---- The arithmetic ---------------------------------------------------------------------------------

  /** Division as C does it on the operands that reach it, which are not negative. */
  function LFloor(x: int, y: int): int {
    if y == 0 then x
    else
      var x, y := if y < 0 then -x else x, if y < 0 then -y else y;
      if x < 0 then -((-x + y - 1) / y) else x / y
  }

  function LCeil(x: int, y: int): int {
    if y == 0 then x
    else
      var x, y := if y < 0 then -x else x, if y < 0 then -y else y;
      if x < 0 then -(-x / y) else (x + y - 1) / y
  }

  lemma LFloorSpec(x: int, y: int)
    requires y > 0
    ensures y * LFloor(x, y) <= x < y * LFloor(x, y) + y
  {
    if x < 0 {
      var q := (-x + y - 1) / y;
      assert y * q <= -x + y - 1 < y * q + y;
      assert y * -q == -(y * q);
    }
  }

  lemma LCeilSpec(x: int, y: int)
    requires y > 0
    ensures y * LCeil(x, y) - y < x <= y * LCeil(x, y)
  {
    if x < 0 {
      var q := -x / y;
      assert y * q <= -x < y * q + y;
      assert y * -q == -(y * q);
    }
  }

  datatype Line = Line(x0: int, y0: int, xmajor: bool, slopeneg: bool, dminor: int, dmajor: int)
  {
    predicate Valid() {
      dmajor > 0 && 0 <= dminor <= dmajor
    }
  }

  /** The minor coordinate before the sign of the slope is put back. */
  function Up(l: Line, x: int): int {
    LFloor(2 * (x - l.x0) * l.dminor + l.dmajor, 2 * l.dmajor) + l.y0
  }

  function Gminor(x: int, l: Line): int {
    if l.slopeneg then -Up(l, x) else Up(l, x)
  }

  lemma UpSpec(l: Line, x: int)
    requires l.Valid()
    ensures var q := Up(l, x) - l.y0;
            2 * l.dmajor * q <= 2 * (x - l.x0) * l.dminor + l.dmajor < 2 * l.dmajor * q + 2 * l.dmajor
  {
    LFloorSpec(2 * (x - l.x0) * l.dminor + l.dmajor, 2 * l.dmajor);
  }

  /** The quotient is the only number between the bounds. */
  lemma UpUnique(l: Line, x: int, n: int)
    requires l.Valid()
    requires 2 * l.dmajor * (n - l.y0) <= 2 * (x - l.x0) * l.dminor + l.dmajor < 2 * l.dmajor * (n - l.y0)
             + 2 * l.dmajor
    ensures Up(l, x) == n
  {
    UpSpec(l, x);
    MulOrder(2 * l.dmajor, Up(l, x) - l.y0, n - l.y0);
    MulOrder(2 * l.dmajor, n - l.y0, Up(l, x) - l.y0);
  }

  lemma MulOrder(d: int, p: int, q: int)
    requires d > 0 && d * p < d * q + d
    ensures p <= q
  {
    assert d * (p - q) == d * p - d * q;
    if p > q {
      MulAtLeast(d, p - q);
    }
  }

  lemma MulSucc(d: int, q: int)
    ensures d * q == d * (q - 1) + d
  {
  }

  lemma MulAtLeast(d: int, k: int)
    requires d >= 0 && k >= 1
    ensures d * k >= d
  {
    assert d * k == d * (k - 1) + d;
    MulNonneg(d, k - 1);
  }

  lemma MulNonneg(a: int, b: int)
    requires a >= 0 && b >= 0
    ensures a * b >= 0
  {
  }

  /** The line never steps back and never skips a minor coordinate. */
  lemma UpMonotone(l: Line, x: int, y: int)
    requires l.Valid() && x <= y
    ensures Up(l, x) <= Up(l, y)
  {
    UpSpec(l, x);
    UpSpec(l, y);
    MulNonneg(y - x, l.dminor);
    assert 2 * (y - l.x0) * l.dminor - 2 * (x - l.x0) * l.dminor == 2 * ((y - x) * l.dminor);
    MulOrder(2 * l.dmajor, Up(l, x) - l.y0, Up(l, y) - l.y0);
  }

  lemma UpStep(l: Line, x: int)
    requires l.Valid()
    ensures Up(l, x) <= Up(l, x + 1) <= Up(l, x) + 1
  {
    hide Up, LFloor;
    UpMonotone(l, x, x + 1);
    UpSpec(l, x);
    UpSpec(l, x + 1);
    OneStep(x + 1 - l.x0, l.dminor);
    var p, q := Up(l, x + 1) - l.y0, Up(l, x) - l.y0 + 1;
    assert 2 * l.dmajor * q == 2 * l.dmajor * (q - 1) + 2 * l.dmajor by {
      MulSucc(2 * l.dmajor, q);
    }
    MulOrder(2 * l.dmajor, p, q);
  }

  /** The step of _gmajor's loop must come to an end: this is how far the line is above y - 1/2 at x. */
  ghost function Above(l: Line, x: int, y: int): int {
    2 * (x - l.x0) * l.dminor + l.dmajor - 2 * l.dmajor * (y - l.y0)
  }

  /** The inverse: the least x with minor coordinate y. */
  method Gmajor(y: int, l: Line) returns (x: int)
    requires l.Valid() && l.dminor > 0
    ensures Gminor(x, l) == y && Gminor(x - 1, l) != y
  {
    hide Up, LFloor, LCeil, Above;
    var v := if l.slopeneg then -y else y;
    x := LCeil(2 * (v - l.y0) * l.dmajor - l.dminor, 2 * l.dminor) + l.x0;
    CeilIsOnLine(l, v, x);
    if l.dminor != 0 {
      while Gminor(x - 1, l) == y
        invariant Gminor(x, l) == y
        decreases Above(l, x, v)
      {
        StepBack(l, x, v);
        x := x - 1;
      }
    }
  }

  lemma StepBack(l: Line, x: int, v: int)
    requires l.Valid() && l.dminor > 0 && Up(l, x - 1) == v
    ensures 0 <= Above(l, x - 1, v) < Above(l, x, v)
  {
    UpSpec(l, x - 1);
    OneStep(x - l.x0, l.dminor);
  }

  lemma OneStep(k: int, d: int)
    ensures 2 * k * d == 2 * (k - 1) * d + 2 * d
  {
  }

  lemma CeilIsOnLine(l: Line, v: int, x: int)
    requires l.Valid() && l.dminor > 0 && x == LCeil(2 * (v - l.y0) * l.dmajor - l.dminor, 2 * l.dminor) + l.x0
    ensures Up(l, x) == v
  {
    LCeilSpec(2 * (v - l.y0) * l.dmajor - l.dminor, 2 * l.dminor);
    var k := x - l.x0;
    assert 2 * l.dminor * k == 2 * k * l.dminor;
    assert 2 * (v - l.y0) * l.dmajor == 2 * l.dmajor * (v - l.y0);
    UpUnique(l, x, v);
  }

  // ---- gsetline -------------------------------------------------------------------------------------------

  class Point {
    var x: int
    var y: int

    constructor (x: int, y: int)
      ensures this.x == x && this.y == y
    {
      this.x, this.y := x, y;
    }
  }

  class Linedesc {
    var x0: int
    var y0: int
    var xmajor: bool
    var slopeneg: bool
    var dminor: int
    var dmajor: int

    constructor () {
      x0, y0, xmajor, slopeneg, dminor, dmajor := 0, 0, true, false, 0, 1;
    }

    function View(): Line
      reads this
    {
      Line(x0, y0, xmajor, slopeneg, dminor, dmajor)
    }
  }

  /** l computes the minor coordinates of the line e. */
  ghost predicate Draws(l: Line, e: Ends) {
    l.Valid() && forall m, n :: e.On(m, n) <==> Gminor(m, l) == n
  }

  /** The description gsetline makes of the line e, whatever the order of its ends. */
  function Describe(e: Ends, xmajor: bool): Line {
    var swapped := e.bm < e.am;
    var m0, n0 := if swapped then e.bm else e.am, if swapped then e.bn else e.an;
    var dn := if swapped then e.an - e.bn else e.bn - e.an;
    if dn < 0 then Line(m0, -n0, xmajor, true, -dn, Abs(e.bm - e.am))
       else Line(m0, n0, xmajor, false, dn, Abs(e.bm - e.am))
  }

  lemma DescribeDraws(e: Ends, xmajor: bool)
    requires e.Shallow()
    ensures Draws(Describe(e, xmajor), e)
  {
    var l := Describe(e, xmajor);
    forall m, n ensures e.On(m, n) <==> Gminor(m, l) == n {
      DescribeAt(e, l, m, n);
    }
  }

  lemma DescribeAt(e: Ends, l: Line, m: int, n: int)
    requires e.Shallow() && l == Describe(e, l.xmajor)
    ensures e.On(m, n) <==> Gminor(m, l) == n
  {
    var v := if l.slopeneg then -n else n;
    ErrorIs(e, l, m, n);
    UpSpec(l, m);
    if Up(l, m) != v {
      if 2 * l.dmajor * (v - l.y0) <= 2 * (m - l.x0) * l.dminor + l.dmajor < 2 * l.dmajor * (v - l.y0) + 2 * l.dmajor {
        UpUnique(l, m, v);
      }
    }
  }

  /** The error of a point, in terms of the description. */
  lemma ErrorIs(e: Ends, l: Line, m: int, n: int)
    requires e.Shallow() && l == Describe(e, l.xmajor)
    ensures var v := if l.slopeneg then -n else n;
            var up := 2 * l.dmajor * (v - l.y0) - 2 * (m - l.x0) * l.dminor;
            e.Error(m, n) == (if l.slopeneg then -up else up) && (e.Rising() <==> !l.slopeneg)
  {
    if e.bm > e.am {
    } else {
      OtherEnd(e.am, e.an, e.bm, e.bn, m, n);
    }
  }

  /** The line seen from its other end. */
  lemma OtherEnd(am: int, an: int, bm: int, bn: int, m: int, n: int)
    ensures 2 * (am - bm) * (n - an) - 2 * (m - am) * (bn - an) * -1 ==
              2 * (am - bm) * (n - bn) + 2 * (m - bm) * (bn - an)
  {
    assert (am - bm) * (n - an) == (am - bm) * (n - bn) + (am - bm) * (bn - an);
    assert (m - am) * (bn - an) == (m - bm) * (bn - an) - (am - bm) * (bn - an);
  }

  lemma EndsOn(e: Ends, l: Line)
    requires e.Shallow() && l == Describe(e, l.xmajor)
    ensures Gminor(e.am, l) == e.an && Gminor(e.bm, l) == e.bn
  {
    assert e.Error(e.am, e.an) == 0;
    assert e.Error(e.bm, e.bn) == 0;
    DescribeAt(e, l, e.am, e.an);
    DescribeAt(e, l, e.bm, e.bn);
  }

  /** Describe a line and close it: the excluded end is moved one pixel in, and the ends may change places. */
  method GsetLine(pp0: Point, pp1: Point, l: Linedesc)
    requires pp0.x != pp1.x || pp0.y != pp1.y
    modifies pp0, pp1, l
    ensures var e, steep := old(EndsOf(pp0.x, pp0.y, pp1.x, pp1.y)), old(Steep(pp0.x, pp0.y, pp1.x, pp1.y));
            && l.View() == Describe(e, !steep) && Draws(l.View(), e)
            && var b := if e.bm > e.am then e.bm - 1 else e.bm + 1;
            && var (am, an, bm, bn) := if old(pp0.x > pp1.x) then (b, Gminor(b, l.View()), e.am, e.an)
                                       else (e.am, e.an, b, Gminor(b, l.View()));
            && pp0.x == (if steep then an else am) && pp0.y == (if steep then am else an)
            && pp1.x == (if steep then bn else bm) && pp1.y == (if steep then bm else bn)
  {
    hide Draws, Gminor;
    ghost var e := EndsOf(pp0.x, pp0.y, pp1.x, pp1.y);
    DescribeDraws(e, !Steep(pp0.x, pp0.y, pp1.x, pp1.y));
    var swapped := false;
    var p0x, p0y, p1x, p1y := pp0.x, pp0.y, pp1.x, pp1.y;
    l.xmajor := true;
    l.slopeneg := false;
    var dx, dy := p1x - p0x, p1y - p0y;
    if Abs(dy) > Abs(dx) {
      l.xmajor := false;
      p0x, p0y := p0y, p0x;
      p1x, p1y := p1y, p1x;
      dx, dy := dy, dx;
    }
    if dx < 0 {
      swapped := true;
      p0x, p1x := p1x, p0x;
      p0y, p1y := p1y, p0y;
      dx := -dx;
      dy := -dy;
    }
    if dy < 0 {
      l.slopeneg := true;
      dy := -dy;
      p0y := -p0y;
    }
    l.dminor := dy;
    l.dmajor := dx;
    l.x0 := p0x;
    l.y0 := p0y;
    p1x := if swapped then p0x + 1 else p1x - 1;
    p1y := Gminor(p1x, l.View());
    if !l.xmajor {
      p1x, p1y := p1y, p1x;
    }
    if pp0.x > pp1.x {
      pp1.x, pp1.y := pp0.x, pp0.y;
      pp0.x, pp0.y := p1x, p1y;
    } else {
      pp1.x, pp1.y := p1x, p1y;
    }
  }

  // ---- Clipping ---------------------------------------------------------------------------------------------

  datatype Rect = Rect(minx: int, miny: int, maxx: int, maxy: int)
  {
    predicate Nonempty() {
      minx < maxx && miny < maxy
    }

    predicate Has(x: int, y: int) {
      minx <= x < maxx && miny <= y < maxy
    }

    function Transposed(): Rect {
      Rect(miny, minx, maxy, maxx)
    }
  }

  /** The four bits of code(): on which sides of the rectangle a point lies. */
  datatype Code = Code(left: bool, right: bool, above: bool, below: bool)
  {
    predicate Outside() {
      left || right || above || below
    }

    predicate Common(c: Code) {
      (left && c.left) || (right && c.right) || (above && c.above) || (below && c.below)
    }

    function Bits(): nat {
      (if left then 1 else 0) + (if right then 1 else 0) + (if above then 1 else 0) + (if below then 1 else 0)
    }
  }

  function CodeOf(x: int, y: int, r: Rect): Code {
    Code(x < r.minx, x >= r.minx && x >= r.maxx, y < r.miny, y >= r.miny && y >= r.maxy)
  }

  predicate Between(x: int, a: int, b: int) {
    (a <= x <= b) || (b <= x <= a)
  }

  lemma GminorMonotone(l: Line, x: int, y: int)
    requires l.Valid() && x <= y
    ensures if l.slopeneg then Gminor(y, l) <= Gminor(x, l) else Gminor(x, l) <= Gminor(y, l)
  {
    UpMonotone(l, x, y);
  }

  lemma GminorBetween(l: Line, x: int, a: int, b: int)
    requires l.Valid() && Between(x, a, b)
    ensures Between(Gminor(x, l), Gminor(a, l), Gminor(b, l))
  {
    GminorMonotone(l, if a <= b then a else b, x);
    GminorMonotone(l, x, if a <= b then b else a);
  }

  /** The segment between the points at m0 and m1 still has every pixel of the line in the rectangle. */
  ghost predicate Keeps(l: Line, r: Rect, lo: int, hi: int, m0: int, m1: int) {
    && lo <= m0 <= hi && lo <= m1 <= hi
    && forall m | lo <= m <= hi && r.Has(m, Gminor(m, l)) :: Between(m, m0, m1)
  }

  /** Nothing is lit when both ends are on one side. */
  lemma CommonSideMisses(l: Line, r: Rect, lo: int, hi: int, m0: int, m1: int)
    requires l.Valid() && Keeps(l, r, lo, hi, m0, m1)
    requires CodeOf(m0, Gminor(m0, l), r).Common(CodeOf(m1, Gminor(m1, l), r))
    ensures forall m | lo <= m <= hi :: !r.Has(m, Gminor(m, l))
  {
    forall m | lo <= m <= hi ensures !r.Has(m, Gminor(m, l)) {
      if Between(m, m0, m1) {
        GminorBetween(l, m, m0, m1);
      }
    }
  }

  /** A segment with both ends inside is inside. */
  lemma InsideIsInside(l: Line, r: Rect, m0: int, m1: int, m: int)
    requires l.Valid() && r.Has(m0, Gminor(m0, l)) && r.Has(m1, Gminor(m1, l)) && Between(m, m0, m1)
    ensures r.Has(m, Gminor(m, l))
  {
    GminorBetween(l, m, m0, m1);
  }

  /** Moving an end towards the other over points outside the rectangle keeps all pixels and loses a bit of its
      code; a bit can appear only if the other end has it too. */
  lemma PushKeeps(l: Line, r: Rect, lo: int, hi: int, m0: int, m1: int, t: int)
    requires l.Valid() && r.Nonempty() && Keeps(l, r, lo, hi, m0, m1) && Between(t, m0, m1)
    requires forall m | Between(m, m0, t) && m != t :: !r.Has(m, Gminor(m, l))
    ensures Keeps(l, r, lo, hi, t, m1)
    ensures var c, c', c1 := CodeOf(m0, Gminor(m0, l), r), CodeOf(t, Gminor(t, l), r), CodeOf(m1, Gminor(m1, l), r);
            && (c'.left ==> c.left || c1.left) && (c'.right ==> c.right || c1.right)
            && (c'.above ==> c.above || c1.above) && (c'.below ==> c.below || c1.below)
  {
    GminorBetween(l, t, m0, m1);
  }

  lemma PushX(l: Line, r: Rect, m0: int, m1: int, t: int)
    requires l.Valid() && r.Nonempty()
    requires (m0 < r.minx == t <= m1) || (m1 <= t == r.maxx - 1 < m0)
    ensures Between(t, m0, m1) && forall m | Between(m, m0, t) && m != t :: !r.Has(m, Gminor(m, l))
  {
  }

  /** The least x with minor coordinate v separates the points before v from the rest. */
  lemma LeastSeparates(l: Line, v: int, g: int)
    requires l.Valid() && Gminor(g, l) == v && Gminor(g - 1, l) != v
    ensures forall m :: m < g <==> if l.slopeneg then Gminor(m, l) > v else Gminor(m, l) < v
    ensures Gminor(g - 1, l) == if l.slopeneg then v + 1 else v - 1
  {
    UpStep(l, g - 1);
    forall m ensures m < g <==> if l.slopeneg then Gminor(m, l) > v else Gminor(m, l) < v {
      if m < g {
        GminorMonotone(l, m, g - 1);
      } else {
        GminorMonotone(l, g, m);
      }
    }
  }

  lemma FlatLine(l: Line, x: int, y: int)
    requires l.Valid() && Gminor(x, l) != Gminor(y, l)
    ensures l.dminor > 0
  {
    assert l.dminor == 0 ==> 2 * (x - l.x0) * l.dminor == 0 && 2 * (y - l.x0) * l.dminor == 0;
  }

  /** The x for the top or bottom edge: the point of the line on that edge nearest to the outside end. */
  method EdgeX(l: Line, r: Rect, above: bool, ghost m0: int, ghost m1: int) returns (t: int)
    requires l.Valid() && r.Nonempty()
    requires if above then Gminor(m0, l) < r.miny <= Gminor(m1, l) else Gminor(m1, l) < r.maxy <= Gminor(m0, l)
    ensures Gminor(t, l) == (if above then r.miny else r.maxy - 1)
    ensures Between(t, m0, m1) && forall m | Between(m, m0, t) && m != t :: !r.Has(m, Gminor(m, l))
  {
    FlatLine(l, m0, m1);
    if above {
      if l.slopeneg {
        var g := Gmajor(r.miny - 1, l);
        LeastSeparates(l, r.miny - 1, g);
        t := g - 1;
      } else {
        t := Gmajor(r.miny, l);
        LeastSeparates(l, r.miny, t);
      }
    } else {
      if l.slopeneg {
        t := Gmajor(r.maxy - 1, l);
        LeastSeparates(l, r.maxy - 1, t);
      } else {
        var g := Gmajor(r.maxy, l);
        LeastSeparates(l, r.maxy, g);
        t := g - 1;
      }
    }
  }

  /** The bits of both codes count the pushes still needed; two ends with a common bit end the loop. */
  ghost predicate Budget(c0: Code, c1: Code, n: int) {
    0 <= n <= 4 && (c0.Common(c1) || n + c0.Bits() + c1.Bits() <= 4)
  }

  lemma BudgetStep(c: Code, c': Code, c1: Code, n: int)
    requires Budget(c, c1, n) && !c.Common(c1) && n + c.Bits() + c1.Bits() <= 4
    requires (c.left && !c'.left) || (c.right && !c'.right) || (c.above && !c'.above) || (c.below && !c'.below)
    requires (c'.left ==> c.left || c1.left) && (c'.right ==> c.right || c1.right)
    requires (c'.above ==> c.above || c1.above) && (c'.below ==> c.below || c1.below)
    ensures Budget(c', c1, n + 1)
  {
  }

  /** Push the outside end p0 to the edge named by the first bit of its code. */
  method Push(r: Rect, p0: Point, p1: Point, l: Line, c0: Code)
    requires l.Valid() && r.Nonempty() && p0 != p1
    requires p0.y == Gminor(p0.x, l) && p1.y == Gminor(p1.x, l)
    requires c0 == CodeOf(p0.x, p0.y, r) && c0.Outside() && !c0.Common(CodeOf(p1.x, p1.y, r))
    modifies p0
    ensures p0.y == Gminor(p0.x, l)
    ensures Between(p0.x, old(p0.x), p1.x)
    ensures forall m | Between(m, old(p0.x), p0.x) && m != p0.x :: !r.Has(m, Gminor(m, l))
    ensures var c := CodeOf(p0.x, p0.y, r);
            (c0.left && !c.left) || (c0.right && !c.right) || (c0.above && !c.above) || (c0.below && !c.below)
  {
    if c0.left {
      PushX(l, r, p0.x, p1.x, r.minx);
      p0.x := r.minx;
      p0.y := Gminor(p0.x, l);
    } else if c0.right {
      PushX(l, r, p0.x, p1.x, r.maxx - 1);
      p0.x := r.maxx - 1;
      p0.y := Gminor(p0.x, l);
    } else if c0.above {
      p0.y := r.miny;
      p0.x := EdgeX(l, r, true, p0.x, p1.x);
    } else {
      p0.y := r.maxy - 1;
      p0.x := EdgeX(l, r, false, p0.x, p1.x);
    }
  }

  /** Clip the closed segment p0, p1 of line l to r, all in major and minor coordinates. The guard against
      more than ten pushes never fires. */
  method ClipLoop(r: Rect, p0: Point, p1: Point, l: Line) returns (ret: bool, swapped: bool)
    requires l.Valid() && r.Nonempty() && p0 != p1
    requires p0.y == Gminor(p0.x, l) && p1.y == Gminor(p1.x, l)
    modifies p0, p1
    ensures Clipped(r, l, old(p0.x), old(p1.x), ret, p0.x, p1.x)
    ensures ret ==> p0.y == Gminor(p0.x, l) && p1.y == Gminor(p1.x, l)
    ensures ret ==> if old(p0.x <= p1.x) != swapped then p0.x <= p1.x else p1.x <= p0.x
  {
    hide Gminor, Clipped, Rect.Has;
    ghost var a, b := p0.x, p1.x;
    ghost var lo, hi := Low(a, b), High(a, b);
    ghost var rising := p0.x <= p1.x;
    var c0, c1 := CodeOf(p0.x, p0.y, r), CodeOf(p1.x, p1.y, r);
    swapped := false;
    var n := 0;
    while c0.Outside() || c1.Outside()
      invariant p0.y == Gminor(p0.x, l) && p1.y == Gminor(p1.x, l)
      invariant c0 == CodeOf(p0.x, p0.y, r) && c1 == CodeOf(p1.x, p1.y, r)
      invariant Keeps(l, r, lo, hi, p0.x, p1.x) && Budget(c0, c1, n)
      invariant if rising != swapped then p0.x <= p1.x else p1.x <= p0.x
      decreases 10 - n
    {
      if c0.Common(c1) {
        MissedIsClipped(l, r, a, b, p0.x, p1.x);
        return false, swapped;
      }
      n := n + 1;
      if n > 10 {
        return false, swapped;
      }
      if !c0.Outside() {
        var tx, ty := p0.x, p0.y;
        p0.x, p0.y := p1.x, p1.y;
        p1.x, p1.y := tx, ty;
        c0, c1 := c1, c0;
        swapped := !swapped;
      }
      ghost var m0 := p0.x;
      Push(r, p0, p1, l, c0);
      PushKeeps(l, r, lo, hi, m0, p1.x, p0.x);
      BudgetStep(c0, CodeOf(p0.x, p0.y, r), c1, n - 1);
      c0 := CodeOf(p0.x, p0.y, r);
    }
    InsideIsClipped(l, r, a, b, p0.x, p1.x);
    ret := true;
  }

  lemma MissedIsClipped(l: Line, r: Rect, a: int, b: int, m0: int, m1: int)
    requires l.Valid() && Keeps(l, r, Low(a, b), High(a, b), m0, m1)
    requires CodeOf(m0, Gminor(m0, l), r).Common(CodeOf(m1, Gminor(m1, l), r))
    ensures Clipped(r, l, a, b, false, m0, m1)
  {
    hide Gminor;
    CommonSideMisses(l, r, Low(a, b), High(a, b), m0, m1);
  }

  lemma InsideIsClipped(l: Line, r: Rect, a: int, b: int, m0: int, m1: int)
    requires l.Valid() && Keeps(l, r, Low(a, b), High(a, b), m0, m1)
    requires !CodeOf(m0, Gminor(m0, l), r).Outside() && !CodeOf(m1, Gminor(m1, l), r).Outside() && r.Nonempty()
    ensures Clipped(r, l, a, b, true, m0, m1)
  {
    hide Gminor;
    forall m | Between(m, m0, m1) ensures r.Has(m, Gminor(m, l)) {
      InsideIsInside(l, r, m0, m1, m);
    }
  }

  function Low(a: int, b: int): int {
    if a <= b then a else b
  }

  function High(a: int, b: int): int {
    if a <= b then b else a
  }

  /** The pixels of the closed segment a, b in r are exactly those of the segment m0, m1, or there are none. */
  ghost predicate Clipped(r: Rect, l: Line, a: int, b: int, ret: bool, m0: int, m1: int) {
    && (!ret ==> forall m | Low(a, b) <= m <= High(a, b) :: !r.Has(m, Gminor(m, l)))
    && (ret ==> Low(a, b) <= m0 <= High(a, b) && Low(a, b) <= m1 <= High(a, b))
    && (ret ==> forall m | Low(a, b) <= m <= High(a, b) :: r.Has(m, Gminor(m, l)) <==> Between(m, m0, m1))
  }

  /** clipline, in screen coordinates. The result is exact: a pixel is lit by the half-open line from the old p0
      to the old p1 and lies in r exactly when it is on the segment from the new p0 to the new p1, both included;
      the answer is no exactly when there is no such pixel. */
  method ClipLine(r0: Rect, p0: Point, p1: Point, l: Linedesc) returns (ret: bool)
    requires r0.Nonempty()
    modifies p0, p1, l
    ensures ret <==> exists x, y :: r0.Has(x, y) && Lit(old(p0.x), old(p0.y), old(p1.x), old(p1.y), x, y)
    ensures ret ==> forall x, y ::
              (r0.Has(x, y) && Lit(old(p0.x), old(p0.y), old(p1.x), old(p1.y), x, y)) <==>
              OnSegment(old(p0.x), old(p0.y), old(p1.x), old(p1.y), p0.x, p0.y, p1.x, p1.y, x, y)
    ensures ret ==> r0.Has(p0.x, p0.y) && Lit(old(p0.x), old(p0.y), old(p1.x), old(p1.y), p0.x, p0.y)
    ensures ret ==> r0.Has(p1.x, p1.y) && Lit(old(p0.x), old(p0.y), old(p1.x), old(p1.y), p1.x, p1.y)
    ensures ret ==> FromTheLeft(old(p0.x), old(p0.y), old(p1.x), old(p1.y), p0.x, p0.y, p1.x, p1.y)
  {
    hide Gminor, Ends.Error, Draws, Clipped, ClosedRange, Lit, Rect.Has, CodeOf, Keeps, Budget;
    if p0.x == p1.x && p0.y == p1.y {
      NothingLit(p0.x, p0.y);
      return false;
    }
    ghost var x0, y0, x1, y1 := p0.x, p0.y, p1.x, p1.y;
    ghost var e := EndsOf(x0, y0, x1, y1);
    GsetLine(p0, p1, l);
    var r := r0;
    if !l.xmajor {
      p0.x, p0.y := p0.y, p0.x;
      p1.x, p1.y := p1.y, p1.x;
      r := r.Transposed();
    }
    EndsOn(e, l.View());
    ghost var a, b := p0.x, p1.x;
    var swapped;
    ret, swapped := ClipLoop(r, p0, p1, l.View());
    ghost var m0, m1 := p0.x, p1.x;
    ClippedPixels(x0, y0, x1, y1, r0, l.View(), a, b, ret, m0, m1);
    if ret {
      DescribeAt(e, l.View(), m0, p0.y);
      DescribeAt(e, l.View(), m1, p1.y);
      ClippedBetween(r, l.View(), a, b, m0, m1);
    }
    if !l.xmajor {
      p0.x, p0.y := p0.y, p0.x;
      p1.x, p1.y := p1.y, p1.x;
    }
    if swapped {
      var tx, ty := p0.x, p0.y;
      p0.x, p0.y := p1.x, p1.y;
      p1.x, p1.y := tx, ty;
    }
  }

  /** Pixel (x, y) is on the closed segment of the line from (x0, y0) to (x1, y1) between the points (sx, sy) and (tx,
      ty). */
  predicate OnSegment(x0: int, y0: int, x1: int, y1: int, sx: int, sy: int, tx: int, ty: int, x: int, y: int) {
    var e := EndsOf(x0, y0, x1, y1);
    if Steep(x0, y0, x1, y1) then Between(y, sy, ty) && e.On(y, x) else Between(x, sx, tx) && e.On(x, y)
  }

  /** The segment from (px, py) to (qx, qy) goes the way of the line from its left-hand end, or from its first one if
      neither is to the left. */
  predicate FromTheLeft(x0: int, y0: int, x1: int, y1: int, px: int, py: int, qx: int, qy: int) {
    if !Steep(x0, y0, x1, y1) then px <= qx
    else if (x0 <= x1) == (y0 <= y1) then py <= qy
    else qy <= py
  }

  lemma ClippedBetween(r: Rect, l: Line, a: int, b: int, m0: int, m1: int)
    requires Clipped(r, l, a, b, true, m0, m1)
    ensures Low(a, b) <= m0 <= High(a, b) && Low(a, b) <= m1 <= High(a, b)
  {
  }

  lemma PixelAt(e: Ends, l: Line, r: Rect, a: int, b: int, ret: bool, m0: int, m1: int, m: int, n: int)
    requires e.Shallow() && l == Describe(e, l.xmajor) && ClosedRange(e, a, b) && Clipped(r, l, a, b, ret, m0, m1)
    ensures (r.Has(m, n) && e.Covers(m) && e.On(m, n)) <==> (ret && Between(m, m0, m1) && e.On(m, n))
  {
    DescribeAt(e, l, m, n);
  }

  /** a and b are the first and last major coordinates of the half-open range, in either order. */
  predicate ClosedRange(e: Ends, a: int, b: int) {
    var last := if e.bm > e.am then e.bm - 1 else e.bm + 1;
    (a == e.am && b == last) || (a == last && b == e.am)
  }

  lemma ClippedPixels(x0: int, y0: int, x1: int, y1: int, r0: Rect, l: Line, a: int, b: int, ret: bool,
                      m0: int, m1: int)
    requires var e, steep := EndsOf(x0, y0, x1, y1), Steep(x0, y0, x1, y1);
             && e.Shallow() && l == Describe(e, !steep) && ClosedRange(e, a, b)
             && Clipped(if steep then r0.Transposed() else r0, l, a, b, ret, m0, m1)
    ensures ret <==> exists x, y :: r0.Has(x, y) && Lit(x0, y0, x1, y1, x, y)
    ensures ret ==> forall x, y :: (r0.Has(x, y) && Lit(x0, y0, x1, y1, x, y)) <==>
              (Between(if Steep(x0, y0, x1, y1) then y else x, m0, m1)
               && if Steep(x0, y0, x1, y1) then EndsOf(x0, y0, x1, y1).On(y, x) else EndsOf(x0, y0, x1, y1).On(x, y))
  {
    var e, steep := EndsOf(x0, y0, x1, y1), Steep(x0, y0, x1, y1);
    var r := if steep then r0.Transposed() else r0;
    forall x, y
      ensures (r0.Has(x, y) && Lit(x0, y0, x1, y1, x, y)) <==>
              (ret && Between(if steep then y else x, m0, m1) && if steep then e.On(y, x) else e.On(x, y))
    {
      if steep {
        PixelAt(e, l, r, a, b, ret, m0, m1, y, x);
      } else {
        PixelAt(e, l, r, a, b, ret, m0, m1, x, y);
      }
    }
    if ret {
      var n := Gminor(m0, l);
      DescribeAt(e, l, m0, n);
      var x, y := if steep then n else m0, if steep then m0 else n;
      assert r0.Has(x, y) && Lit(x0, y0, x1, y1, x, y);
    }
  }

  lemma NothingLit(x: int, y: int)
    ensures forall px, py :: !Lit(x, y, x, y, px, py)
  {
  }
}
