/**
 apack: overlay a row of numbers in an array so that every nonzero entry of
 every row packed so far can still be read at its row's offset.
 */
module YaccApack {
  import opened YaccPack

  /** Every nonzero entry of row, whose first entry has index lo, is found at offset off. */
  ghost predicate Holds(m: seq<int>, off: int, lo: int, row: seq<int>) {
    forall k | 0 <= k < |row| && row[k] != 0 :: 0 <= off + lo + k < |m| && m[off + lo + k] == row[k]
  }

  /** Wherever row has an entry, the cell for it at offset off is free or has the same number. */
  ghost predicate FitsAt(m: seq<int>, off: int, row: seq<int>) {
    forall k | 0 <= k < |row| && row[k] != 0 :: 0 <= off + k < |m| && (m[off + k] == 0 || m[off + k] == row[k])
  }

  /** m' is m with the entries of row written at offset off. */
  ghost predicate Overlaid(m: seq<int>, m': seq<int>, off: int, row: seq<int>) {
    |m'| == |m| && forall c | 0 <= c < |m| ::
      m'[c] == if 0 <= c - off < |row| && row[c - off] != 0 then row[c - off] else m[c]
  }

  predicate AllZero(row: seq<int>) {
    forall k | 0 <= k < |row| :: row[k] == 0
  }

  /** Nonzero cells never change. */
  ghost predicate Keeps(m: seq<int>, m': seq<int>) {
    |m| == |m'| && forall p | 0 <= p < |m| && m[p] != 0 :: m'[p] == m[p]
  }

  /** A row that fits can be read where it is written, and nothing is overwritten. */
  lemma OverlaidKeeps(m: seq<int>, m': seq<int>, off: int, row: seq<int>)
    requires FitsAt(m, off, row) && Overlaid(m, m', off, row)
    ensures Keeps(m, m') && Holds(m', off, 0, row) && forall c | 0 <= c < |m| && m'[c] != m[c] :: m'[c] in row
  {
  }

  class Overlay {
    const amem: array<int>

    constructor ()
      ensures fresh(amem) && amem.Length == ACTSIZE && forall p | 0 <= p < ACTSIZE :: amem[p] == 0
    {
      amem := new int[ACTSIZE](_ => 0);
    }

    /** Do the entries p[from..] agree with the cells from rr on, wherever both are nonzero? */
    method Compatible(p: seq<int>, from: nat, rr: nat) returns (fits: bool, over: bool)
      requires amem.Length == ACTSIZE && from <= |p| && rr < ACTSIZE
      ensures fits ==> !over && forall k | from <= k < |p| && p[k] != 0 ::
                rr + k - from < ACTSIZE && (amem[rr + k - from] == 0 || amem[rr + k - from] == p[k])
      ensures over ==> exists k :: from <= k < |p| && p[k] != 0 && rr + k - from >= ACTSIZE
      ensures !fits && !over ==> exists k :: from <= k < |p| && p[k] != 0 && rr + k - from < ACTSIZE
                                   && amem[rr + k - from] != 0 && amem[rr + k - from] != p[k]
    {
      over := false;
      for k := from to |p|
        invariant !over
        invariant forall j | from <= j < k && p[j] != 0 ::
                    rr + j - from < ACTSIZE && (amem[rr + j - from] == 0 || amem[rr + j - from] == p[j])
      {
        if p[k] != 0 {
          if rr + k - from >= ACTSIZE {
            return false, true;
          }
          if p[k] != amem[rr + k - from] && amem[rr + k - from] != 0 {
            return false, false;
          }
        }
      }
      fits := true;
    }

    /** The entries of p from index from on are written at offset off. */
    method Write(p: seq<int>, from: nat, off: int)
      requires amem.Length == ACTSIZE && from <= |p| && (forall k | 0 <= k < from :: p[k] == 0)
               && FitsAt(amem[..], off, p)
      modifies amem
      ensures Overlaid(old(amem[..]), amem[..], off, p)
    {
      ghost var m := amem[..];
      for k := from to |p|
        invariant Overlaid(m, amem[..], off, p[..k])
      {
        if p[k] != 0 {
          amem[off + k] := p[k];
        }
      }
      assert p[..|p|] == p;
    }

    /** Pack p at the first place where it fits. Its leading zeros take no room. */
    method Apack(p: seq<int>) returns (ok: bool, off: int)
      requires amem.Length == ACTSIZE
      modifies amem
      ensures Keeps(old(amem[..]), amem[..])
      ensures ok ==> Holds(amem[..], off, 0, p)
      ensures ok ==> Overlaid(old(amem[..]), amem[..], off, p) && FitsAt(old(amem[..]), off, p)
      ensures AllZero(p) ==> ok && off == 0
      ensures !AllZero(p) ==> forall o | !ok || o < off :: !FitsAt(old(amem[..]), o, p)
      ensures forall c | 0 <= c < ACTSIZE && amem[c] != old(amem[c]) :: amem[c] in p
    {
      ghost var m := amem[..];
      var pp := 0;
      off := 0;
      while pp < |p| && p[pp] == 0
        invariant pp <= |p| && off == -pp && forall k | 0 <= k < pp :: p[k] == 0
      {
        pp, off := pp + 1, off - 1;
      }
      if pp == |p| {
        return true, 0;
      }
      for rr := 0 to ACTSIZE
        invariant amem[..] == m && off == rr - pp
        invariant forall o | o < off :: !FitsAt(m, o, p)
      {
        var fits, over := Compatible(p, pp, rr);
        if over {
          NoneFurther(m, off, p);
          return false, off;
        }
        if fits {
          Write(p, pp, off);
          OverlaidKeeps(m, amem[..], off, p);
          return true, off;
        }
        off := off + 1;
      }
      ok := false;
    }

    /** What runs off the end does so from every later place. */
    lemma NoneFurther(m: seq<int>, off: int, p: seq<int>)
      requires exists k :: 0 <= k < |p| && p[k] != 0 && off + k >= |m|
      ensures forall o | o >= off :: !FitsAt(m, o, p)
    {
    }
  }
}
