/**
 The m command of ed (cmd/ed.c: move, reverse): a block of lines is moved behind another line by three reversals.
 */
module EdMove {

  function Reversed(s: seq<int>): (r: seq<int>)
    ensures |r| == |s| && forall k | 0 <= k < |s| :: r[k] == s[|s| - 1 - k]
  {
    if s == [] then [] else Reversed(s[1..]) + [s[0]]
  }

  lemma {:induction false} ReversedTwice(s: seq<int>, t: seq<int>)
    ensures Reversed(Reversed(s) + Reversed(t)) == t + s
  {
    var r := Reversed(s) + Reversed(t);
    forall k | 0 <= k < |r| ensures Reversed(r)[k] == (t + s)[k] {
      assert Reversed(r)[k] == r[|r| - 1 - k];
    }
  }

  /** reverse: the elements from lo up to hi, in place. */
  method Reverse(a: array<int>, lo: nat, hi: nat)
    requires lo < hi <= a.Length
    modifies a
    ensures a[..] == old(a[..lo]) + Reversed(old(a[lo..hi])) + old(a[hi..])
  {
    ghost var s := a[..];
    var a1, a2 := lo, hi;
    while true
      invariant lo <= a1 <= a2 <= hi && a1 + a2 == lo + hi
      invariant forall k | 0 <= k < a.Length && (k < lo || a1 <= k < a2 || hi <= k) :: a[k] == s[k]
      invariant forall k | lo <= k < a1 :: a[k] == s[lo + hi - 1 - k]
      invariant forall k | a2 <= k < hi :: a[k] == s[lo + hi - 1 - k]
      decreases a2 - a1
    {
      a2 := a2 - 1;
      if a2 <= a1 {
        break;
      }
      var t := a[a2];
      a[a2] := a[a1];
      a[a1] := t;
      a1 := a1 + 1;
    }
    ReversedStretch(s, a[..], lo, hi);
  }

  lemma ReversedStretch(s: seq<int>, v: seq<int>, lo: nat, hi: nat)
    requires lo <= hi <= |s| == |v|
    requires forall k | 0 <= k < |s| && (k < lo || hi <= k) :: v[k] == s[k]
    requires forall k | lo <= k < hi :: v[k] == s[lo + hi - 1 - k]
    ensures v == s[..lo] + Reversed(s[lo..hi]) + s[hi..]
  {
    hide Reversed;
    var r, x := Reversed(s[lo..hi]), v[lo..hi];
    forall k | 0 <= k < hi - lo ensures x[k] == r[k] {
      assert r[k] == s[lo..hi][hi - lo - 1 - k];
    }
    assert x == r && v[..lo] == s[..lo] && v[hi..] == s[hi..];
    assert v == v[..lo] + v[lo..hi] + v[hi..];
  }

  /** The mark bit of a line number. */
  function Unmarked(t: int): int {
    t - t % 2
  }

  /** A line number with its mark set or not is unmarked to the same number. */
  lemma MarkIsCleared(line: int, mark: int)
    requires line % 2 == 0 && 0 <= mark <= 1
    ensures Unmarked(line + mark) == line
  {
  }

  function Unmark(s: seq<int>): (r: seq<int>)
    ensures |r| == |s|
  {
    seq(|s|, k requires 0 <= k < |s| => Unmarked(s[k]))
  }

  datatype Moved = Moved(lines: seq<int>, dot: int, changed: bool) | Error

  /** The lines lo up to hi go behind the line dest; they keep their order, and so do the others. */
  function MoveSpec(s: seq<int>, lo: nat, hi: nat, dest: nat): Moved
    requires lo < hi <= |s| && dest < |s|
  {
    var block := Unmark(s[lo..hi]);
    if dest < lo then Moved(s[..dest + 1] + block + s[dest + 1..lo] + s[hi..], dest + (hi - lo), dest + 1 != lo)
    else if dest >= hi then Moved(s[..lo] + s[hi..dest + 1] + block + s[dest + 1..], dest, true)
    else Error
  }

  /** Dot is the last line of the block, unmarked, and where nothing is said to be changed only marks are. */
  lemma DotIsMoved(s: seq<int>, lo: nat, hi: nat, dest: nat)
    requires lo < hi <= |s| && dest < |s| && MoveSpec(s, lo, hi, dest).Moved?
    ensures var m := MoveSpec(s, lo, hi, dest);
            && 0 <= m.dot < |m.lines| == |s| && m.lines[m.dot] == Unmarked(s[hi - 1])
            && (!m.changed ==> m.lines == Cleared(s, lo, hi))
  {
    var block := Unmark(s[lo..hi]);
    assert block[hi - lo - 1] == Unmarked(s[lo..hi][hi - lo - 1]);
    if dest < lo {
      var front := s[..dest + 1];
      assert (front + block + s[dest + 1..lo] + s[hi..])[dest + (hi - lo)] == block[hi - lo - 1];
    } else {
      var front := s[..lo] + s[hi..dest + 1];
      assert (front + block + s[dest + 1..])[dest] == block[hi - lo - 1];
    }
  }

  /** Four stretches, one after the other. */
  function Four(w: seq<int>, x: seq<int>, y: seq<int>, z: seq<int>): seq<int> {
    w + x + y + z
  }

  /** The lines with the marks of the block cleared. */
  function Cleared(s: seq<int>, lo: nat, hi: nat): (r: seq<int>)
    requires lo <= hi <= |s|
    ensures |r| == |s|
  {
    s[..lo] + Unmark(s[lo..hi]) + s[hi..]
  }

  /**
   move without copying, on the lines zero..dol: addr1..addr2 is the block, adt the line behind which it goes.
   The marks of the block are cleared even where the command then fails.
   */
  method Move(a: array<int>, addr1: nat, addr2: nat, adt: nat) returns (ok: bool, dot: int, fchange: bool)
    requires 1 <= addr1 <= addr2 < a.Length && adt < a.Length
    modifies a
    ensures var m := MoveSpec(old(a[..]), addr1, addr2 + 1, adt);
            ok == m.Moved? && (ok ==> a[..] == m.lines && dot == m.dot && fchange == m.changed)
    ensures !ok ==> a[..] == Cleared(old(a[..]), addr1, addr2 + 1)
  {
    hide Unmark, Reversed, MoveSpec, Four, Cleared;
    ok, dot, fchange := true, 0, false;
    ghost var s := a[..];
    ClearMarks(a, addr1, addr2);
    var ad1, ad2, dest := addr1, addr2 + 1, adt;
    ghost var block := Unmark(s[ad1..ad2]);
    if dest < ad1 {
      dot := dest + (ad2 - ad1);
      MovedBack(s, ad1, ad2, dest);
      dest := dest + 1;
      if dest == ad1 {
        return;
      }
      Rotate(a, dest, ad1, ad2, s[..dest], s[dest..ad1], block, s[ad2..]);
    } else if dest >= ad2 {
      dot := dest;
      MovedOn(s, ad1, ad2, dest);
      dest := dest + 1;
      Rotate(a, ad1, ad2, dest, s[..ad1], block, s[ad2..dest], s[dest..]);
    } else {
      NotMoved(s, ad1, ad2, adt);
      return false, dot, fchange;
    }
    fchange := true;
  }

  lemma MovedBack(s: seq<int>, lo: nat, hi: nat, dest: nat)
    requires dest < lo < hi <= |s|
    ensures Cleared(s, lo, hi) == Four(s[..dest + 1], s[dest + 1..lo], Unmark(s[lo..hi]), s[hi..])
    ensures MoveSpec(s, lo, hi, dest) == Moved(Four(s[..dest + 1], Unmark(s[lo..hi]), s[dest + 1..lo], s[hi..]),
                                               dest + (hi - lo), dest + 1 != lo)
    ensures dest + 1 == lo ==> MoveSpec(s, lo, hi, dest).lines == Cleared(s, lo, hi)
  {
    hide Unmark;
    assert s[..lo] == s[..dest + 1] + s[dest + 1..lo];
    if dest + 1 == lo {
      var block := Unmark(s[lo..hi]);
      assert s[dest + 1..lo] == [] && s[..lo] + block + [] == s[..lo] + block;
    }
  }

  lemma MovedOn(s: seq<int>, lo: nat, hi: nat, dest: nat)
    requires lo < hi <= dest < |s|
    ensures Cleared(s, lo, hi) == Four(s[..lo], Unmark(s[lo..hi]), s[hi..dest + 1], s[dest + 1..])
    ensures MoveSpec(s, lo, hi, dest) ==
              Moved(Four(s[..lo], s[hi..dest + 1], Unmark(s[lo..hi]), s[dest + 1..]), dest, true)
  {
    hide Unmark;
    var block := Unmark(s[lo..hi]);
    assert s[hi..] == s[hi..dest + 1] + s[dest + 1..];
    assert s[..lo] + block + (s[hi..dest + 1] + s[dest + 1..]) == s[..lo] + block + s[hi..dest + 1] + s[dest + 1..];
  }

  lemma NotMoved(s: seq<int>, lo: nat, hi: nat, dest: nat)
    requires lo <= dest < hi <= |s|
    ensures MoveSpec(s, lo, hi, dest) == Error
  {
  }

  method ClearMarks(a: array<int>, addr1: nat, addr2: nat)
    requires addr1 <= addr2 < a.Length
    modifies a
    ensures a[..] == Cleared(old(a[..]), addr1, addr2 + 1)
  {
    ghost var s := a[..];
    var ad1 := addr1;
    while ad1 <= addr2
      invariant addr1 <= ad1 <= addr2 + 1
      invariant forall k | 0 <= k < a.Length :: a[k] == if addr1 <= k < ad1 then Unmarked(s[k]) else s[k]
    {
      a[ad1] := Unmarked(a[ad1]);
      ad1 := ad1 + 1;
    }
  }

  /** Three reversals change the places of two neighbouring stretches x and y. */
  method Rotate(a: array<int>, lo: nat, mid: nat, hi: nat, ghost w: seq<int>, ghost x: seq<int>, ghost y: seq<int>,
                ghost z: seq<int>)
    requires lo < mid < hi <= a.Length && |w| == lo && |x| == mid - lo && |y| == hi - mid && a[..] == Four(w, x, y, z)
    modifies a
    ensures a[..] == Four(w, y, x, z)
  {
    hide Reversed, Four;
    Threes(w, x, y, z);
    ReverseIs(a, lo, mid, w, x, y + z);
    Threes(w, Reversed(x), y, z);
    ReverseIs(a, mid, hi, w + Reversed(x), y, z);
    Threes(w, Reversed(x), Reversed(y), z);
    ReverseIs(a, lo, hi, w, Reversed(x) + Reversed(y), z);
    ReversedTwice(x, y);
    Threes(w, y, x, z);
  }

  /** Four stretches are three: any two neighbours are one. */
  lemma Threes(w: seq<int>, x: seq<int>, y: seq<int>, z: seq<int>)
    ensures Four(w, x, y, z) == w + x + (y + z) == (w + x) + y + z == w + (x + y) + z
  {
    assert w + x + (y + z) == w + x + y + z;
    assert w + (x + y) + z == w + x + y + z;
  }

  method ReverseIs(a: array<int>, lo: nat, hi: nat, ghost u: seq<int>, ghost v: seq<int>, ghost w: seq<int>)
    requires lo < hi <= a.Length && |u| == lo && |v| == hi - lo && a[..] == u + v + w
    modifies a
    ensures a[..] == u + Reversed(v) + w
  {
    hide Reversed;
    Stretches(a[..], lo, hi, u, v, w);
    Reverse(a, lo, hi);
  }

  lemma Stretches(s: seq<int>, lo: nat, hi: nat, u: seq<int>, v: seq<int>, w: seq<int>)
    requires lo <= hi <= |s| && |u| == lo && |v| == hi - lo && s == u + v + w
    ensures s[..lo] == u && s[lo..hi] == v && s[hi..] == w
  {
  }

  lemma FourBag(w: seq<int>, x: seq<int>, y: seq<int>, z: seq<int>)
    ensures multiset(Four(w, x, y, z)) == multiset(Four(w, y, x, z))
  {
    assert multiset(w + x + y + z) == multiset(w) + multiset(x) + multiset(y) + multiset(z);
    assert multiset(w + y + x + z) == multiset(w) + multiset(y) + multiset(x) + multiset(z);
  }

  /** No line is lost and none is made. */
  lemma MoveIsPermutation(s: seq<int>, lo: nat, hi: nat, dest: nat)
    requires lo < hi <= |s| && dest < |s| && MoveSpec(s, lo, hi, dest).Moved?
    ensures multiset(MoveSpec(s, lo, hi, dest).lines) == multiset(Cleared(s, lo, hi))
  {
    hide Unmark, MoveSpec, Four, Cleared;
    var block := Unmark(s[lo..hi]);
    if dest < lo {
      MovedBack(s, lo, hi, dest);
      FourBag(s[..dest + 1], s[dest + 1..lo], block, s[hi..]);
    } else if dest >= hi {
      MovedOn(s, lo, hi, dest);
      FourBag(s[..lo], block, s[hi..dest + 1], s[dest + 1..]);
    } else {
      NotMoved(s, lo, hi, dest);
    }
  }

  /** Moved back to where it was, the block stands as before. */
  lemma MoveBack(s: seq<int>, lo: nat, hi: nat, dest: nat)
    requires 1 <= lo < hi <= |s| && hi <= dest < |s| && Unmark(s[lo..hi]) == s[lo..hi]
    ensures var m := MoveSpec(s, lo, hi, dest); var d := dest + 1 - (hi - lo);
            m.Moved? && MoveSpec(m.lines, d, dest + 1, lo - 1) == Moved(s, lo - 1 + (hi - lo), true)
  {
    hide Unmark, MoveSpec, Four;
    var w, x, y, z, d := s[..lo], s[lo..hi], s[hi..dest + 1], s[dest + 1..], dest + 1 - (hi - lo);
    MovedOn(s, lo, hi, dest);
    FourParts(w, y, x, z);
    MovedBack(Four(w, y, x, z), d, dest + 1, lo - 1);
    Whole(s, lo, hi, dest + 1);
  }

  /** The same the other way round: moved up and then down again. */
  lemma MoveOnAgain(s: seq<int>, lo: nat, hi: nat, dest: nat)
    requires dest + 1 < lo < hi <= |s| && Unmark(s[lo..hi]) == s[lo..hi]
    ensures var m := MoveSpec(s, lo, hi, dest); var d := dest + 1 + (hi - lo);
            m.Moved? && MoveSpec(m.lines, dest + 1, d, hi - 1) == Moved(s, hi - 1, true)
  {
    hide Unmark, MoveSpec, Four;
    var w, y, x, z, d := s[..dest + 1], s[dest + 1..lo], s[lo..hi], s[hi..], dest + 1 + (hi - lo);
    MovedBack(s, lo, hi, dest);
    FourParts(w, x, y, z);
    MovedOn(Four(w, x, y, z), dest + 1, d, hi - 1);
    Whole(s, dest + 1, lo, hi);
  }

  lemma FourParts(w: seq<int>, x: seq<int>, y: seq<int>, z: seq<int>)
    ensures var s, i, j, k := Four(w, x, y, z), |w|, |w| + |x|, |w| + |x| + |y|;
            |s| == k + |z| && s[..i] == w && s[i..j] == x && s[j..k] == y && s[k..] == z
  {
  }

  lemma Whole(s: seq<int>, i: nat, j: nat, k: nat)
    requires i <= j <= k <= |s|
    ensures Four(s[..i], s[i..j], s[j..k], s[k..]) == s
  {
    assert s[..i] + s[i..j] == s[..j] && s[..j] + s[j..k] == s[..k];
  }
}
