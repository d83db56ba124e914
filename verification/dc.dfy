/**
 Arithmetic of dc on blocks of digits (cmd/dc.c): add, mult, chsign and add0.
 */
module Dc {
  import opened DcNumber

  /** A block of characters with a reading and a writing position; the pointers are offsets from beg. */
  class Blk {
    var beg: array<int>
    var rd: nat
    var wt: nat

    predicate Valid()
      reads this
    {
      rd <= beg.Length && wt <= beg.Length
    }

    /** What has been written. */
    ghost function Contents(): (s: seq<int>)
      requires wt <= beg.Length
      reads this`beg, this`wt, beg
      ensures |s| == wt
    {
      beg[..wt]
    }

    constructor Salloc(size: nat)
      ensures Valid() && fresh(beg) && beg.Length == size && rd == 0 && Contents() == []
    {
      beg := new int[size];
      rd, wt := 0, 0;
    }

    /** copy: as many characters, zeros behind. */
    constructor Copy(hptr: Blk, size: nat)
      requires hptr.Valid() && hptr.wt <= size
      ensures Valid() && fresh(beg) && beg.Length == size && rd == 0 && Contents() == hptr.Contents()
    {
      var b := new int[size];
      forall i | 0 <= i < size {
        b[i] := if i < hptr.wt then hptr.beg[i] else 0;
      }
      beg := b;
      rd, wt := 0, hptr.wt;
    }

    /** more: twice the room. */
    method More()
      requires Valid()
      modifies this`beg
      ensures Valid() && fresh(beg) && beg.Length > old(beg.Length) && Contents() == old(Contents())
      ensures forall i | 0 <= i < old(beg.Length) :: beg[i] == old(beg[i])
    {
      var size := beg.Length * 2;
      if size == 0 {
        size := 2;
      }
      var b := new int[size];
      forall i | 0 <= i < beg.Length {
        b[i] := beg[i];
      }
      beg := b;
    }

    /** zero: the whole room is filled with zeros. */
    method Zero()
      requires Valid()
      modifies beg
      ensures forall i | 0 <= i < beg.Length :: beg[i] == 0
    {
      forall i | 0 <= i < beg.Length {
        beg[i] := 0;
      }
    }

    method Sputc(c: int)
      requires Valid() && -128 <= c < 128
      modifies this`beg, this`wt, beg
      ensures Valid() && (beg == old(beg) || fresh(beg)) && Contents() == old(Contents()) + [c]
      ensures beg.Length >= old(beg.Length)
    {
      if wt == beg.Length {
        More();
      }
      beg[wt] := c;
      wt := wt + 1;
    }

    /** Write at the reading position, and past what is there. */
    method Salterc(c: int)
      requires Valid() && rd <= wt && -128 <= c < 128
      modifies this, beg
      ensures Valid() && (beg == old(beg) || fresh(beg)) && rd == old(rd) + 1 <= wt
      ensures Contents() == Put(old(Contents()), old(rd), c) && beg.Length >= old(beg.Length)
    {
      if rd == beg.Length {
        More();
      }
      beg[rd] := c;
      rd := rd + 1;
      if rd > wt {
        wt := rd;
      }
    }

    method Sgetc() returns (c: int)
      requires Valid() && rd <= wt
      modifies this`rd
      ensures rd <= wt && (if old(rd) == wt then c == -1 && rd == wt else c == Contents()[old(rd)] && rd == old(rd) + 1)
    {
      if rd == wt {
        return -1;
      }
      c := beg[rd];
      rd := rd + 1;
    }

    /** The next digit, 0 past the last. */
    method Next() returns (n: int)
      requires Valid() && rd <= wt
      modifies this`rd
      ensures n == Digit(Contents(), old(rd)) && rd == if old(rd) < wt then old(rd) + 1 else wt
    {
      n := 0;
      if rd != wt {
        n := Sgetc();
      }
    }

    /** The digit at the reading position, 0 past the last. */
    method Look() returns (n: int)
      requires Valid() && rd <= wt
      ensures n == Digit(Contents(), rd)
    {
      n := 0;
      if rd != wt {
        n := Slookc();
      }
    }

    method Sbackc() returns (c: int)
      requires Valid() && rd <= wt
      modifies this`rd
      ensures rd <= wt && (if old(rd) == 0 then c == -1 && rd == 0 else rd == old(rd) - 1 && c == Contents()[rd])
    {
      if rd == 0 {
        return -1;
      }
      rd := rd - 1;
      c := beg[rd];
    }

    method Slookc() returns (c: int)
      requires Valid() && rd <= wt
      ensures c == if rd == wt then -1 else Contents()[rd]
    {
      if rd == wt {
        return -1;
      }
      return beg[rd];
    }

    method Truncate()
      requires Valid() && rd <= wt
      modifies this`wt
      ensures Valid() && wt == rd && Contents() == old(Contents())[..rd]
    {
      wt := rd;
    }

    // ---- chsign ---------------------------------------------------------------------------------------

    method ComplementDigits() returns (carry: int)
      requires Valid() && Num(Contents())
      modifies this, beg
      ensures Valid() && (beg == old(beg) || fresh(beg)) && Contents() == Complement(old(Contents()))
      ensures carry == Borrow(old(Contents()), old(wt))
    {
      hide Num, Complement, Complemented, Borrow, NegDigit;
      ghost var s := Contents();
      carry := 0;
      rd := 0;
      NothingComplemented(s);
      while rd != wt
        invariant Valid() && rd <= wt == |s| && (beg == old(beg) || fresh(beg)) && carry == Borrow(s, rd)
        invariant Complemented(s, Contents(), rd)
        decreases wt - rd
      {
        var look := Slookc();
        ghost var was := Contents();
        NumDigit(s, rd);
        ComplementStep(s, was, rd);
        var ct := 100 - look - carry;
        carry := 1;
        if ct >= 100 {
          ct := ct - 100;
          carry := 0;
        }
        Salterc(ct);
      }
      assert Contents() == Complement(s) by { IsComplement(s, Contents()); }
    }

    /** chsign: the other sign, in place. */
    method Chsign()
      requires Valid() && Num(Contents())
      modifies this, beg
      ensures Valid() && (beg == old(beg) || fresh(beg)) && Contents() == Negate(old(Contents()))
      ensures Num(Contents()) && Value(Contents()) == -Value(old(Contents()))
    {
      hide Num, Value, Complement, Borrow;
      ghost var s := Contents();
      NegateIsExact(s);
      var carry := ComplementDigits();
      if carry != 0 {
        BorrowNonempty(s);
        Sputc(-1);
        rd := wt;
        rd := rd - 1;
        var ct := Sbackc();
        if ct == 99 {
          Truncate();
          Sputc(-1);
        }
      } else {
        rd := wt;
        var ct := Sbackc();
        if ct == 0 {
          Truncate();
        }
      }
    }
  }

  // ---- add ----------------------------------------------------------------------------------------------

  /** The digits of the sum and its last carry. */
  method AddDigits(a1: Blk, a2: Blk) returns (p: Blk)
    requires a1 != a2 && a1.Valid() && a2.Valid() && Num(a1.Contents()) && Num(a2.Contents())
    modifies a1`rd, a2`rd
    ensures fresh(p) && fresh(p.beg) && p.Valid() && a1.Valid() && a2.Valid()
    ensures Num(p.Contents()) && Value(p.Contents()) == Value(a1.Contents()) + Value(a2.Contents())
    ensures Negative(p.Contents()) ==> p.wt >= 2
  {
    hide Value, Weight, Low, Num, Digit, Digits, Negative, Summed;
    ghost var x, y := a1.Contents(), a2.Contents();
    var size := if a1.wt > a2.wt then a1.wt else a2.wt;
    ghost var all := size;
    p := new Blk.Salloc(size);
    a1.rd := 0;
    a2.rd := 0;
    var carry := 0;
    NothingSummed(x, y);
    while size > 0
      invariant 0 <= size <= all && a1.Valid() && a2.Valid() && p.Valid() && fresh(p) && fresh(p.beg)
      invariant a1.Contents() == x && a2.Contents() == y && p.wt == all - size
      invariant a1.rd == (if p.wt < |x| then p.wt else |x|) && a2.rd == if p.wt < |y| then p.wt else |y|
      invariant Summed(x, y, p.Contents(), carry)
    {
      size := size - 1;
      carry := AddDigit(a1, a2, p, carry);
    }
    ghost var r := p.Contents();
    SummedAll(x, y, r, carry);
    if carry != 0 {
      p.Sputc(carry);
    }
  }

  /** The digits r and the carry are the sum as far as it goes. */
  ghost predicate Summed(x: seq<int>, y: seq<int>, r: seq<int>, carry: int) {
    -1 <= carry <= 1 && Digits(r) && Value(r) + carry * Weight(|r|) == Low(x, |r|) + Low(y, |r|)
  }

  /** The next digit of the sum. */
  method AddDigit(a1: Blk, a2: Blk, p: Blk, carry0: int) returns (carry: int)
    requires a1 != a2 && p != a1 && p != a2 && p.beg != a1.beg && p.beg != a2.beg && a1.Valid() && a2.Valid()
             && p.Valid()
    requires Num(a1.Contents()) && Num(a2.Contents()) && Summed(a1.Contents(), a2.Contents(), p.Contents(), carry0)
    requires a1.rd == (if p.wt < a1.wt then p.wt else a1.wt) && a2.rd == if p.wt < a2.wt then p.wt else a2.wt
    modifies a1`rd, a2`rd, p`beg, p`wt, p.beg
    ensures p.Valid() && (p.beg == old(p.beg) || fresh(p.beg)) && p.wt == old(p.wt) + 1
    ensures a1.rd == (if p.wt < a1.wt then p.wt else a1.wt) && a2.rd == if p.wt < a2.wt then p.wt else a2.wt
    ensures Summed(a1.Contents(), a2.Contents(), p.Contents(), carry)
  {
    hide Value, Weight, Low, Num, Digit;
    ghost var x, y, r := a1.Contents(), a2.Contents(), p.Contents();
    SameDigit(x, p.wt, a1.rd);
    SameDigit(y, p.wt, a2.rd);
    var n1 := a1.Next();
    var n2 := a2.Next();
    var n;
    n, carry := Carry(n1 + n2 + carry0);
    p.Sputc(n);
    SumStep(x, y, r, carry0, n, carry);
  }

  lemma SummedAll(x: seq<int>, y: seq<int>, r: seq<int>, carry: int)
    requires Summed(x, y, r, carry) && |x| <= |r| && |y| <= |r|
    ensures -1 <= carry <= 1 && var t := if carry != 0 then r + [carry] else r;
              Num(t) && Value(t) == Value(x) + Value(y) && (Negative(t) ==> |t| >= 2)
  {
    hide Value, Weight, Low, Num, Digits, Negative;
    LowAll(x, |r|);
    LowAll(y, |r|);
    if |r| == 0 {
      SumStart(x, y);
    }
    SumEnd(r, carry, |r|);
  }

  method Carry(sum: int) returns (n: int, carry: int)
    requires -3 <= sum <= 199
    ensures n + 100 * carry == sum && 0 <= n < 100 && -1 <= carry <= 1
  {
    n := sum;
    if n >= 100 {
      carry := 1;
      n := n - 100;
    } else if n < 0 {
      carry := -1;
      n := n + 100;
    } else {
      carry := 0;
    }
  }

  lemma NothingSummed(x: seq<int>, y: seq<int>)
    ensures Summed(x, y, [], 0)
  {
    SumStart(x, y);
  }

  lemma SumStart(x: seq<int>, y: seq<int>)
    ensures Value([]) + 0 * Weight(0) == Low(x, 0) + Low(y, 0)
  {
    assert (if 0 < |x| then x[..0] else x) == [] && (if 0 < |y| then y[..0] else y) == [];
  }

  lemma SameDigit(s: seq<int>, k: nat, i: nat)
    requires Num(s) && i == if k < |s| then k else |s|
    ensures Digit(s, k) == Digit(s, i) && -1 <= Digit(s, k) < 100
  {
    if k < |s| {
      NumDigit(s, k);
    }
  }

  lemma SumEnd(r: seq<int>, carry: int, size: nat)
    requires Digits(r) && |r| == size && -1 <= carry <= 1 && (size == 0 ==> Value(r) + carry * Weight(0) == 0)
    ensures var t := if carry != 0 then r + [carry] else r;
            Num(t) && Value(t) == Value(r) + carry * Weight(size) && (Negative(t) ==> |t| >= 2)
  {
    hide Value;
    ValueSnoc(r, carry);
    assert (r + [carry])[..|r|] == r;
    if carry == 0 {
      DigitsAreNum(r);
    }
    if size == 0 {
      EmptyValue();
      assert r == [];
    }
  }

  /** Zeros on top go. */
  method StripZeros(p: Blk)
    requires p.Valid() && Num(p.Contents())
    modifies p, p.beg
    ensures p.Valid() && (p.beg == old(p.beg) || fresh(p.beg)) && p.wt <= old(p.wt)
            && p.Contents() == old(p.Contents())[..p.wt]
    ensures (p.wt == 0 || p.Contents()[p.wt - 1] != 0) && forall i | p.wt <= i < old(p.wt) :: old(p.Contents())[i] == 0
  {
    hide Num;
    p.rd := p.wt;
    if p.rd != 0 {
      ghost var s := p.Contents();
      var c := 0;
      while p.rd != 0 && c == 0
        invariant p.Valid() && p.rd <= p.wt == |s| && p.beg == old(p.beg) && p.Contents() == s
        invariant c != 0 ==> p.rd < p.wt && c == s[p.rd]
        invariant forall i | (if c == 0 then p.rd else p.rd + 1) <= i < |s| :: s[i] == 0
        decreases p.rd
      {
        c := p.Sbackc();
      }
      if c != 0 {
        NumDigit(s, p.rd);
        p.Salterc(c);
        assert s[p.rd - 1 := c] == s;
      }
      p.Truncate();
    }
  }

  /** Nines under a top -1 go, but for the lowest digit. */
  method StripNines(p: Blk)
    requires p.Valid() && (Negative(p.Contents()) ==> p.wt >= 2)
    modifies p, p.beg
    ensures p.Valid() && (p.beg == old(p.beg) || fresh(p.beg)) && p.wt <= old(p.wt)
    ensures !Negative(old(p.Contents())) ==> p.Contents() == old(p.Contents())
    ensures Negative(old(p.Contents())) ==> p.wt >= 2 && p.Contents() == old(p.Contents())[..p.wt - 1] + [-1]
    ensures Negative(old(p.Contents())) ==> p.wt == 2 || old(p.Contents())[p.wt - 2] != 99
    ensures Negative(old(p.Contents())) ==> forall i | p.wt - 1 <= i < old(p.wt) - 1 :: old(p.Contents())[i] == 99
  {
    ghost var s := p.Contents();
    p.rd := p.wt;
    var c := 0;
    if p.rd != 0 {
      c := p.Sbackc();
    }
    if c == -1 {
      c := p.Sbackc();
      while c == 99
        invariant p.Valid() && p.rd <= p.wt == |s| && p.beg == old(p.beg) && p.Contents() == s && p.rd <= |s| - 2
        invariant forall i | (if p.rd == 0 then 1 else p.rd + 1) <= i < |s| - 1 :: s[i] == 99
        invariant if p.rd == 0 then c == -1 || c == s[0] else c == s[p.rd]
        decreases p.rd, c
      {
        c := p.Sbackc();
      }
      p.rd := p.rd + 1;
      p.Salterc(-1);
      p.Truncate();
    }
  }

  /** What StripZeros and then StripNines leave. */
  lemma BothStripped(s: seq<int>, t: seq<int>, r: seq<int>)
    requires |t| <= |s| && t == s[..|t|] && (t == [] || t[|t| - 1] != 0) && forall i | |t| <= i < |s| :: s[i] == 0
    requires Negative(t) == Negative(s) && (Negative(s) ==> t == s)
    requires |r| <= |t| && (!Negative(t) ==> r == t)
    requires Negative(t) ==> |r| >= 2 && r == t[..|r| - 1] + [-1]
    requires Negative(t) ==> (|r| == 2 || t[|r| - 2] != 99) && forall i | |r| - 1 <= i < |t| - 1 :: t[i] == 99
    ensures Stripped(s, r)
  {
  }

  lemma SameSign(s: seq<int>, t: seq<int>)
    requires Num(s) && |t| <= |s| && t == s[..|t|] && forall i | |t| <= i < |s| :: s[i] == 0
    ensures Negative(t) == Negative(s) && (Negative(s) ==> t == s)
  {
    if Negative(t) {
      PrefixSign(s, |t|);
    }
  }

  /** add: the sum in a new block. It is canonical but for the sum -1, which is left in two digits. */
  method Add(a1: Blk, a2: Blk) returns (p: Blk)
    requires a1 != a2 && a1.Valid() && a2.Valid() && Num(a1.Contents()) && Num(a2.Contents())
    modifies a1`rd, a2`rd
    ensures fresh(p) && fresh(p.beg) && p.Valid() && a1.Valid() && a2.Valid()
    ensures Num(p.Contents()) && Value(p.Contents()) == Value(a1.Contents()) + Value(a2.Contents())
    ensures Canonical(p.Contents()) <==> Value(p.Contents()) != -1
    ensures Value(p.Contents()) == -1 ==> p.Contents() == [99, -1]
  {
    hide Value, Num, Canonical, Stripped, Negative;
    p := AddDigits(a1, a2);
    ghost var s := p.Contents();
    StripZeros(p);
    ghost var t := p.Contents();
    SameSign(s, t);
    StripNines(p);
    BothStripped(s, t, p.Contents());
    StrippedIsExact(s, p.Contents());
  }

  /** The first k digits of s have been complemented in c. */
  ghost predicate Complemented(s: seq<int>, c: seq<int>, k: nat) {
    |c| == |s| && forall i | 0 <= i < |s| :: c[i] == if i < k then NegDigit(s, i) else s[i]
  }

  lemma NothingComplemented(s: seq<int>)
    ensures Complemented(s, s, 0) && Borrow(s, 0) == 0
  {
  }

  lemma ComplementStep(s: seq<int>, c: seq<int>, k: nat)
    requires Complemented(s, c, k) && k < |s|
    ensures c[k] == s[k] && Complemented(s, Put(c, k, NegDigit(s, k)), k + 1)
    ensures var ct := 100 - s[k] - Borrow(s, k);
            Borrow(s, k + 1) == (if ct >= 100 then 0 else 1) && NegDigit(s, k) == if ct >= 100 then ct - 100 else ct
  {
  }

  lemma IsComplement(s: seq<int>, r: seq<int>)
    requires Complemented(s, r, |s|)
    ensures r == Complement(s)
  {
  }

  // ---- mult ---------------------------------------------------------------------------------------------

  /** One row of a product: mp times the digit cq is added to mr, offset digits up. */
  method MultRow(mp: Blk, mr: Blk, cq: int, offset: nat)
    requires mp != mr && mp.beg != mr.beg && mp.Valid() && mr.Valid() && mp.rd == 0 && mr.rd == offset && 0 <= cq < 100
    requires Digits(mp.Contents()) && Digits(mr.Contents()) && (mp.wt > 0 ==> offset <= mr.wt <= offset + mp.wt)
    modifies mp`rd, mr, mr.beg
    ensures mp.Valid() && mr.Valid() && (mr.beg == old(mr.beg) || fresh(mr.beg)) && mr.beg.Length >= old(mr.beg.Length)
    ensures mp.Contents() == old(mp.Contents()) && Digits(mr.Contents())
    ensures Value(mr.Contents()) == old(Value(mr.Contents())) + cq * Value(mp.Contents()) * Weight(offset)
    ensures mp.wt == 0 ==> mr.Contents() == old(mr.Contents())
    ensures mp.wt > 0 ==> offset + mp.wt <= mr.wt <= offset + mp.wt + 1
    ensures mp.wt > 0 && mr.wt == offset + mp.wt + 1 ==> mr.Contents()[mr.wt - 1] != 0
  {
    hide Value, Weight, Put, Digit, Digits, Row;
    ghost var x, r0 := mp.Contents(), mr.Contents();
    ghost var v := Value(r0);
    var carry := 0;
    RowStart(x, offset, r0, cq);
    while mp.rd != mp.wt
      invariant mp.Valid() && mr.Valid() && mp.rd <= mp.wt && mr.rd == offset + mp.rd && mp.Contents() == x
      invariant mr.beg != mp.beg && (mr.beg == old(mr.beg) || fresh(mr.beg)) && mr.beg.Length >= old(mr.beg.Length)
      invariant mp.wt > 0 ==> mr.wt == Max(|r0|, offset + mp.rd)
      invariant mp.rd == 0 ==> mr.Contents() == r0
      invariant Row(x, mp.rd, offset, mr.Contents(), cq, carry, v) && (mp.wt == 0 ==> carry == 0)
      decreases mp.wt - mp.rd
    {
      ghost var i, r, c := mp.rd, mr.Contents(), carry;
      var cp := mp.Sgetc();
      var mcr := mr.Look();
      var mt := cp * cq + carry + mcr;
      RowNext(x, i, offset, r, cq, c, v, mt);
      carry := mt / 100;
      mr.Salterc(mt % 100);
    }
    RowDone(x, offset, mr.Contents(), cq, carry, v);
    if carry != 0 {
      var mcr := mr.Look();
      mr.Salterc(mcr + carry);
    }
  }

  /** A row after i digits of x. */
  ghost predicate Row(x: seq<int>, i: nat, j: nat, r: seq<int>, cq: int, carry: int, v: int) {
    && i <= |x| && Digits(r) && 0 <= carry < 100
    && Value(r) + carry * Weight(j + i) == v + cq * Value(x[..i]) * Weight(j)
  }

  lemma RowStart(x: seq<int>, j: nat, r: seq<int>, cq: int)
    requires Digits(r)
    ensures Row(x, 0, j, r, cq, 0, Value(r))
  {
    assert x[..0] == [];
    ZeroRow(cq, Weight(j));
  }

  lemma ZeroRow(cq: int, w: int)
    ensures cq * 0 * w == 0
  {
  }

  lemma RowNext(x: seq<int>, i: nat, j: nat, r: seq<int>, cq: int, carry: int, v: int, mt: int)
    requires Row(x, i, j, r, cq, carry, v) && i < |x| && j + i <= |r| && Digits(x) && 0 <= cq < 100
    requires mt == x[i] * cq + carry + Digit(r, j + i)
    ensures Row(x, i + 1, j, Put(r, j + i, mt % 100), cq, mt / 100, v)
    ensures |Put(r, j + i, mt % 100)| == Max(|r|, j + i + 1)
  {
    hide Value, Weight;
    ProductStep(x, i, j, r, cq, carry, v, mt);
    ProductBounds(x[i], cq, carry, Digit(r, j + i));
  }

  /** The last carry of a row is a digit of its own. */
  lemma RowDone(x: seq<int>, j: nat, r: seq<int>, cq: int, carry: int, v: int)
    requires Row(x, |x|, j, r, cq, carry, v)
    ensures Digits(r) && 0 <= carry < 100
    ensures carry == 0 ==> Value(r) == v + cq * Value(x) * Weight(j)
    ensures carry != 0 && |r| == j + |x| ==>
              && Digit(r, |r|) == 0 && Digits(Put(r, |r|, carry)) && Put(r, |r|, carry) == r + [carry]
              && Value(r + [carry]) == v + cq * Value(x) * Weight(j)
  {
    hide Value, Weight, Digits, Digit, Put;
    assert x[..|x|] == x;
    ValueSnoc(r, carry);
    OneMore(r, carry);
  }

  lemma OneMore(r: seq<int>, carry: int)
    requires Digits(r) && 0 <= carry < 100
    ensures Digit(r, |r|) == 0 && Digits(Put(r, |r|, carry)) && Put(r, |r|, carry) == r + [carry]
  {
  }

  /** The product of two blocks without sign. */
  method MultUnsigned(mp: Blk, mq: Blk) returns (mr: Blk)
    requires mp != mq && mp.Valid() && mq.Valid() && Digits(mp.Contents()) && Digits(mq.Contents())
    modifies mp`rd, mq`rd
    ensures fresh(mr) && fresh(mr.beg) && mr.Valid() && mp.Valid() && mq.Valid()
    ensures Digits(mr.Contents()) && Value(mr.Contents()) == Value(mp.Contents()) * Value(mq.Contents())
    ensures Canonical(mp.Contents()) && Canonical(mq.Contents()) ==> Canonical(mr.Contents())
  {
    hide Value, Weight, Digits, Canonical;
    ghost var x, y := mp.Contents(), mq.Contents();
    var offset := 0;
    mr := new Blk.Salloc(mp.wt + mq.wt);
    mr.Zero();
    mq.rd := 0;
    ProductStart(x, y);
    while mq.rd != mq.wt
      invariant fresh(mr) && fresh(mr.beg) && mr.Valid() && mp.Valid() && mq.Valid()
      invariant mp.Contents() == x && mq.Contents() == y && mq.rd == offset <= mq.wt && mr.beg.Length >= |x| + |y|
      invariant Digits(mr.Contents()) && Value(mr.Contents()) == Value(x) * Value(y[..offset])
      invariant mr.wt == 0 || (offset > 0 && |x| > 0)
      invariant Rows(x, offset, mr.Contents())
      decreases mq.wt - mq.rd
    {
      ghost var v := Value(mr.Contents());
      var cq := mq.Sgetc();
      AnyDigit(y, offset);
      mp.rd := 0;
      mr.rd := 0;
      mr.rd := mr.rd + offset;
      MultRow(mp, mr, cq, offset);
      RowStep(x, y, offset, v, Value(mr.Contents()));
      offset := offset + 1;
    }
    assert y[..|y|] == y;
    ProductCanonical(x, y, mr.Contents());
  }

  /** How far the rows so far reach. */
  predicate Rows(x: seq<int>, j: nat, r: seq<int>) {
    if j == 0 || x == [] then r == []
    else |r| == j + |x| - 1 || (|r| == j + |x| && r[|r| - 1] != 0)
  }

  lemma ProductStart(x: seq<int>, y: seq<int>)
    ensures Digits([]) && Value([]) == Value(x) * Value(y[..0])
  {
    assert y[..0] == [];
  }

  lemma AnyDigit(s: seq<int>, k: nat)
    requires Digits(s) && k < |s|
    ensures 0 <= s[k] < 100
  {
  }

  lemma ProductCanonical(x: seq<int>, y: seq<int>, r: seq<int>)
    requires Digits(x) && Digits(y) && Digits(r) && Rows(x, |y|, r) && Value(r) == Value(x) * Value(y)
    ensures Canonical(x) && Canonical(y) ==> Canonical(r)
  {
    hide Value;
    if Canonical(x) && Canonical(y) && x != [] && y != [] {
      if |r| == |x| + |y| - 1 {
        ProductTop(x, y, r);
      }
      AnyDigit(r, |r| - 1);
    }
  }

  /** A block without its sign: the block itself, or a negated copy of it. */
  method Unsigned(p: Blk) returns (mp: Blk, negative: bool)
    requires p.Valid() && Num(p.Contents())
    modifies p`rd
    ensures p.Valid() && mp.Valid() && negative == Negative(p.Contents())
    ensures if negative then fresh(mp) && fresh(mp.beg) else mp == p
    ensures Digits(mp.Contents()) && Value(mp.Contents()) == if negative then -Value(p.Contents())
            else Value(p.Contents())
    ensures Canonical(p.Contents()) ==> Canonical(mp.Contents())
  {
    hide Value, Num, Digits, Negate, Canonical;
    ghost var s := p.Contents();
    mp, negative := p, false;
    p.rd := p.wt;
    if p.rd != 0 {
      var c := p.Sbackc();
      if c < 0 {
        LastDigit(s);
        mp := new Blk.Copy(p, p.wt);
        mp.Chsign();
        negative := true;
        NegativeNegated(s);
      }
    }
    if !negative {
      UnsignedDigits(s);
    }
  }

  lemma LastDigit(s: seq<int>)
    requires Num(s) && s != []
    ensures s[|s| - 1] >= -1
  {
  }

  lemma UnsignedDigits(s: seq<int>)
    requires Num(s) && (s == [] || s[|s| - 1] >= 0)
    ensures Digits(s) && !Negative(s)
  {
    assert s == [] || s == s[..|s| - 1] + [s[|s| - 1]];
  }

  lemma NegativeNegated(s: seq<int>)
    requires Num(s) && Negative(s)
    ensures Digits(Negate(s)) && (Canonical(s) ==> Canonical(Negate(s)))
  {
    ComplementDigits(s);
    if Canonical(s) {
      NegateCanonical(s);
    }
  }

  /** mult: the product in a new block. */
  method Mult(p: Blk, q: Blk) returns (mr: Blk)
    requires p != q && p.Valid() && q.Valid() && Num(p.Contents()) && Num(q.Contents())
    modifies p`rd, q`rd
    ensures fresh(mr) && fresh(mr.beg) && mr.Valid() && p.Valid() && q.Valid()
    ensures Num(mr.Contents()) && Value(mr.Contents()) == Value(p.Contents()) * Value(q.Contents())
    ensures Canonical(p.Contents()) && Canonical(q.Contents()) ==> Canonical(mr.Contents())
  {
    hide Value, Num, Digits, Negate, Canonical;
    ghost var x, y := p.Contents(), q.Contents();
    var mp, np := Unsigned(p);
    var mq, nq := Unsigned(q);
    mr := MultUnsigned(mp, mq);
    Signs(np, nq, Value(x), Value(y));
    ghost var r := mr.Contents();
    DigitsAreNum(r);
    if np != nq {
      mr.Chsign();
      CanonicalNegated(r);
    }
  }

  lemma CanonicalNegated(s: seq<int>)
    requires Num(s)
    ensures Canonical(s) ==> Canonical(Negate(s))
  {
    if Canonical(s) {
      NegateCanonical(s);
    }
  }

  lemma Signs(np: bool, nq: bool, x: int, y: int)
    ensures (if np then -x else x) * (if nq then -y else y) == if np != nq then -(x * y) else x * y
  {
  }

  // ---- add0 ---------------------------------------------------------------------------------------------

  /** A zero digit for every two of ct, then the digits of p; perhaps one decimal zero is left to do. */
  method Hundreds(p: Blk, ct: nat) returns (q: Blk, left: nat)
    requires p.Valid() && Num(p.Contents())
    modifies p`rd
    ensures fresh(q) && fresh(q.beg) && q.Valid() && p.Valid()
    ensures left == ct % 2 && q.Contents() == Zeros(ct / 2) + p.Contents()
  {
    hide Num, Digits, Negative;
    ghost var s := p.Contents();
    left := ct;
    q := new Blk.Salloc(p.wt + (ct + 1) / 2);
    while left > 1
      invariant fresh(q) && fresh(q.beg) && q.Valid() && p.Valid() && p.Contents() == s
      invariant q.Contents() == Zeros(q.wt) && left + 2 * q.wt == ct
    {
      q.Sputc(0);
      left := left - 2;
    }
    CopyDigits(p, q);
  }

  /** The digits of p are put on top of q. */
  method CopyDigits(p: Blk, q: Blk)
    requires p.Valid() && q.Valid() && Num(p.Contents()) && p != q && p.beg != q.beg
    modifies p`rd, q, q.beg
    ensures p.Valid() && q.Valid() && (q.beg == old(q.beg) || fresh(q.beg)) && p.beg == old(p.beg)
            && p.Contents() == old(p.Contents())
    ensures q.Contents() == old(q.Contents()) + p.Contents()
  {
    hide Num, Digits, Negative;
    ghost var s, z, b0, b1 := p.Contents(), q.Contents(), p.beg, q.beg;
    p.rd := 0;
    while p.rd != p.wt
      invariant p.Valid() && q.Valid() && p.beg == b0 && p.Contents() == s && p.rd <= p.wt
                && (q.beg == b1 || fresh(q.beg))
      invariant q.Contents() == z + s[..p.rd]
      decreases p.wt - p.rd
    {
      NumDigit(s, p.rd);
      var c := p.Sgetc();
      q.Sputc(c);
    }
    assert s[..|s|] == s;
  }

  /** add0: ct decimal zeros are put below p; tenptr is the block of the number ten. */
  method Add0(p: Blk, ct: nat, tenptr: Blk) returns (t: Blk)
    requires p.Valid() && Num(p.Contents()) && tenptr.Valid() && tenptr.Contents() == [10] && p != tenptr
    modifies p`rd, tenptr`rd
    ensures fresh(t) && fresh(t.beg) && t.Valid() && Num(t.Contents())
    ensures Value(t.Contents()) == Value(p.Contents()) * Pow10(ct)
  {
    hide Value, Num, Pow10, Zeros;
    var q, left := Hundreds(p, ct);
    Shifted(ct / 2, p.Contents(), left);
    if left == 1 {
      t := Mult(tenptr, q);
    } else {
      t := q;
    }
  }

  lemma Shifted(k: nat, s: seq<int>, left: nat)
    requires Num(s) && left <= 1
    ensures Num(Zeros(k) + s) && Num([10]) && Value([10]) == 10
    ensures Value(Zeros(k) + s) == Value(s) * Pow10(2 * k)
    ensures 10 * (Value(s) * Pow10(2 * k)) == Value(s) * Pow10(2 * k + 1)
  {
    hide Value, Weight, Num, Zeros, Pow10;
    ShiftValue(k, s);
    HundredsAreTens(k);
    TenBlock();
    ShiftedNum(k, s);
    TenTimes(2 * k);
    TimesTen(Value(s), Pow10(2 * k));
  }

  lemma TenBlock()
    ensures Num([10]) && Value([10]) == 10
  {
    assert [10][..0] == [];
    assert Value([10]) == 10 * Weight(0);
  }

  lemma TenTimes(n: nat)
    ensures Pow10(n + 1) == 10 * Pow10(n)
  {
  }

  lemma TimesTen(v: int, w: int)
    ensures 10 * (v * w) == v * (10 * w)
  {
  }

  lemma ShiftedNum(k: nat, s: seq<int>)
    requires Num(s)
    ensures Num(Zeros(k) + s)
  {
    if s == [] {
      assert Zeros(k) + s == Zeros(k);
    } else {
      var n := |s| - 1;
      assert (Zeros(k) + s)[..k + n] == Zeros(k) + s[..n];
    }
  }
}
