/**
 The lines of ed (cmd/ed.c: init, getblock, getline, putline): a line is put into the temporary file and got
 back by the number that putline returned.
 */
module Ed {
  import opened EdStore

  /** The runes up to a NUL or a newline. */
  function LineOf(buf: seq<int>): (line: seq<int>)
    ensures |line| <= |buf| && line == buf[..|line|] && (|line| < |buf| ==> buf[|line|] == 0 || buf[|line|] == 10)
    ensures forall k | 0 <= k < |line| :: line[k] != 0 && line[k] != 10
  {
    if buf == [] || buf[0] == 0 || buf[0] == 10 then [] else [buf[0]] + LineOf(buf[1..])
  }

  /** Lines without NUL, at even numbers, all before the next number. */
  ghost predicate Line(t: nat, line: seq<int>, tline: nat) {
    t % 2 == 0 && t + |line| < tline && |line| < LBSIZE && 0 !in line
  }

  /** All lines are in blocks that have been written. */
  ghost predicate Numbered(s: Store, lines: map<nat, seq<int>>, tline: nat) {
    forall t {:trigger lines[t]} | t in lines :: Line(t, lines[t], tline) && BlockOf(t + |lines[t]|) <= s.oblock
  }

  /** The lines that are no longer where their numbers say are exactly the lost ones. */
  ghost predicate HeldBut(s: Store, lines: map<nat, seq<int>>, lost: set<nat>) {
    lost <= lines.Keys && forall t {:trigger lines[t]} | t in lines :: Holds(s, t, lines[t]) <==> t !in lost
  }

  /** The lines that are lost when a line is put at t, whatever its text is. */
  ghost function Hits(s: Store, t: nat, lines: map<nat, seq<int>>): set<nat> {
    set u | u in lines && Hit(s, t, u, lines[u])
  }

  class Editor {
    const linebuf: array<int>
    const ibuff: array<int>
    const obuff: array<int>
    var linebp: nat
    var iblock: int
    var oblock: int
    var ichanged: bool
    var nleft: int
    var tline: nat
    var fchange: bool
    var tfile: map<int, seq<int>>
    /** The lines that were put, by their numbers. */
    ghost var lines: map<nat, seq<int>>
    /** The lines that some later putline has hit. */
    ghost var lost: set<nat>
    /** Some putline began in the last block of the file but one and failed. */
    ghost var overran: bool

    ghost predicate Shape()
      reads this
    {
      && ibuff.Length == BLK && obuff.Length == BLK && linebuf.Length == LBSIZE
      && ibuff != obuff && linebuf != ibuff && linebuf != obuff
      && forall b | b in tfile :: |tfile[b]| == BLK
    }

    ghost function S(): Store
      reads this`iblock, this`oblock, this`ichanged, this`tfile, ibuff, obuff
    {
      Store(iblock, ichanged, ibuff[..], oblock, obuff[..], tfile)
    }

    constructor ()
      ensures Valid() && lines == map[] && !overran
    {
      linebuf := new int[LBSIZE];
      ibuff := new int[BLK];
      obuff := new int[BLK];
      linebp, nleft, fchange := 0, 0, false;
      iblock, oblock, ichanged := -1, -1, false;
      tline := 2;
      tfile := map[];
      lines, lost, overran := map[], {}, false;
    }

    /** In every state: just the lines that were hit are lost; none is as long as no putline fails in the last block
        but one. */
    ghost predicate Valid()
      reads this, ibuff, obuff
    {
      && Shape() && Coherent(S()) && tline >= 2 && tline % 2 == 0 && Room(S(), tline) && Overfull(S(), tline)
      && Numbered(S(), lines, tline) && HeldBut(S(), lines, lost) && (!overran ==> Settled() && lost == {})
    }

    /** The next line does not go behind the block that is being written. */
    predicate Settled()
      reads this`oblock, this`tline
    {
      BlockOf(tline) >= oblock
    }

    /** init: a new file. */
    method Init()
      requires Shape()
      modifies this
      ensures Valid() && lines == map[] && !overran && tline == 2 && iblock == oblock == -1 && !ichanged
              && tfile == map[]
    {
      tline := 2;
      iblock := -1;
      oblock := -1;
      ichanged := false;
      tfile := map[];
      lines, lost, overran := map[], {}, false;
    }

    /** getblock: a pointer into the buffer that holds the block, and in nleft the bytes that are left there. */
    method Getblock(atl: nat, write: bool) returns (ok: bool, buf: array<int>, off: nat)
      requires Shape()
      modifies this`iblock, this`oblock, this`ichanged, this`tfile, this`nleft, ibuff
      ensures Shape() && ok == Fetch(old(S()), BlockOf(atl), write).ok
              && S() == Fetch(old(S()), BlockOf(atl), write).store
      ensures off == OffsetOf(atl) - OffsetOf(atl) % 2 && (ok ==> nleft == BLKSIZE - 2 * off)
      ensures buf == if BlockOf(atl) == iblock then ibuff else obuff
    {
      var bno := atl / (BLKSIZE / 2);
      var bytes := atl * 2 % BLKSIZE / 4 * 4;
      off := bytes / 2;
      ByteOffset(atl);
      if bno >= NBLK {
        buf := if bno == iblock then ibuff else obuff;
        return false, buf, off;
      }
      nleft := BLKSIZE - bytes;
      if bno == iblock {
        ichanged := ichanged || write;
        return true, ibuff, off;
      }
      if bno == oblock {
        return true, obuff, off;
      }
      if !write {
        if ichanged {
          tfile := tfile[iblock := ibuff[..]];
        }
        ichanged := false;
        iblock := bno;
        if bno !in tfile {
          return false, ibuff, off;
        }
        CopyIn(tfile[bno]);
        return true, ibuff, off;
      }
      if oblock >= 0 {
        tfile := tfile[oblock := obuff[..]];
      }
      oblock := bno;
      return true, obuff, off;
    }

    method CopyIn(block: seq<int>)
      requires ibuff.Length == |block|
      modifies ibuff
      ensures ibuff[..] == block
    {
      forall k | 0 <= k < |block| {
        ibuff[k] := block[k];
      }
    }

    /** A rune is written through a pointer that getblock gave. */
    method Poke(buf: array<int>, k: nat, c: int, ghost b: nat)
      requires Shape() && Loaded(S(), b) && k < BLK && buf == if b == iblock then ibuff else obuff
      modifies buf
      ensures Shape() && S() == WriteCell(old(S()), b, k, c)
    {
      buf[k] := c;
    }

    /** getline: the line whose number is tl, whatever its mark bit. Its last block is left in a buffer. */
    method Getline(tl: nat) returns (ok: bool)
      requires Valid() && tl - tl % 2 in lines && tl - tl % 2 !in lost
      modifies this`iblock, this`oblock, this`ichanged, this`tfile, this`nleft, ibuff, linebuf
      ensures ok && Valid() && SameCells(old(S()), S())
      ensures var t, line := tl - tl % 2, lines[tl - tl % 2];
              linebuf[..|line| + 1] == line + [0] && Loaded(S(), BlockOf(t + |line|))
    {
      hide BlockOf, OffsetOf, Cell, Coherent, Fetch, Holds, Numbered, HeldBut, Overfull, Room;
      ghost var s0, t, line := S(), tl - tl % 2, lines[tl - tl % 2];
      HeldLine(s0, lines, lost, tline, t);
      MarkBit(tl);
      HeldBlocks(s0, t, line, 0);
      ReadKeeps(s0, BlockOf(t));
      var lp, base := 0, tl - tl % BLK;
      var buf, bp;
      ok, buf, bp := Getblock(tl, false);
      var nl := nleft;
      while true
        invariant Shape() && Coherent(S()) && SameCells(s0, S()) && lp <= |line| && base == BLK * BlockOf(t + lp)
        invariant Loaded(S(), BlockOf(t + lp)) && buf == (if BlockOf(t + lp) == iblock then ibuff else obuff)
        invariant bp == OffsetOf(t + lp) && nl == BLKSIZE - 2 * bp && ok
        invariant forall k | 0 <= k < lp :: linebuf[k] == line[k]
        decreases |line| - lp
      {
        BufferedCell(S(), t + lp);
        HeldCell(s0, S(), t, line, lp);
        StepPosition(t + lp);
        var c := buf[bp];
        linebuf[lp] := c;
        lp, bp := lp + 1, bp + 1;
        if c == 0 {
          break;
        }
        nl := nl - 2;
        if nl == 0 {
          base := base + BLK;
          BasePosition(BlockOf(t + lp));
          HeldBlocks(s0, t, line, lp);
          ReadKeeps(S(), BlockOf(t + lp));
          ok, buf, bp := Getblock(base, false);
          nl := nleft;
        }
      }
      SameLines(s0, S(), lines, lost, tline);
    }

    /** One rune is put; a newline is replaced by a NUL. */
    method PutOne(buf: array<int>, bp: nat, c: int, ghost s0: Store, ghost t: nat, ghost runes: seq<int>, ghost b: nat)
      requires Shape() && Put(s0, S(), t, runes, b) && b == BlockOf(t + |runes|) && bp == OffsetOf(t + |runes|)
      requires buf == if b == iblock then ibuff else obuff
      modifies ibuff, obuff
      ensures Shape() && Put(s0, S(), t, runes + [if c == 10 then 0 else c], b)
    {
      hide BlockOf, OffsetOf, Coherent, Put, WriteCell;
      ghost var s := S();
      PutLoaded(s0, s, t, runes, b);
      PutRune(s0, s, t, runes, b, if c == 10 then 0 else c);
      Poke(buf, bp, c, b);
      if c == 10 {
        Overwritten(s, b, bp, c);
        Poke(buf, bp, 0, b);
      }
    }

    /** The next block, if there is one. */
    method OpenNext(base: nat, ghost s0: Store, ghost t: nat, ghost runes: seq<int>, ghost b: nat)
      returns (ok: bool, buf: array<int>, bp: nat)
      requires Shape() && Put(s0, S(), t, runes, b) && base == BLK * (b + 1)
      modifies this`iblock, this`oblock, this`ichanged, this`tfile, this`nleft, ibuff
      ensures Shape() && bp == 0 && buf == if b + 1 == iblock then ibuff else obuff
      ensures ok ==> Put(s0, S(), t, runes, b + 1) && nleft == BLKSIZE
      ensures !ok ==> b == NBLK - 1 && Put(s0, S(), t, runes, b)
    {
      hide BlockOf, OffsetOf, Coherent, Put, Fetch;
      BasePosition(b + 1);
      PutBelow(s0, S(), t, runes, b);
      if b + 1 < NBLK {
        PutNext(s0, S(), t, runes, b);
      } else {
        NoFetch(S(), b + 1);
      }
      ok, buf, bp := Getblock(base, true);
    }

    /** The loop of putline: rune by rune, block by block. It gives up at the end of the file, after k runes. */
    method CopyOut(ghost line: seq<int>) returns (ok: bool, lp: nat, ghost k: nat)
      requires Valid() && line == LineOf(linebuf[..]) && |line| < LBSIZE
      modifies this`iblock, this`oblock, this`ichanged, this`tfile, this`nleft, this`linebp, ibuff, obuff
      ensures Shape() && (ok ==> lp == |line| + 1 && Put(old(S()), S(), tline, line + [0], BlockOf(tline + |line|)))
      ensures !ok && BlockOf(tline) >= NBLK ==> S() == old(S()) && k == 0
      ensures !ok && BlockOf(tline) < NBLK ==> k <= |line| && BlockOf(tline + k) == NBLK
                                               && Put(old(S()), S(), tline, line[..k], NBLK - 1)
      ensures linebp == if ok && linebuf[|line|] == 10 then |line| + 1 else old(linebp)
    {
      hide BlockOf, OffsetOf, Coherent, Fetch, Put;
      ghost var s0, t := S(), tline;
      k := 0;
      MarkBit(t);
      if BlockOf(t) < NBLK {
        PutStart(s0, t);
      } else {
        NoFetch(s0, BlockOf(t));
      }
      lp := 0;
      var base := tline - tline % BLK;
      var buf, bp;
      ok, buf, bp := Getblock(tline, true);
      if !ok {
        return;
      }
      assert line[..0] == [];
      var nl := nleft;
      while true
        invariant Shape() && ok && lp <= |line| && Put(s0, S(), t, line[..lp], BlockOf(t + lp))
        invariant buf == (if BlockOf(t + lp) == iblock then ibuff else obuff) && base == BLK * BlockOf(t + lp)
        invariant bp == OffsetOf(t + lp) && nl == BLKSIZE - 2 * bp && linebp == old(linebp)
        decreases |line| - lp
      {
        var c := linebuf[lp];
        PutOne(buf, bp, c, s0, t, line[..lp], BlockOf(t + lp));
        k, lp := lp, lp + 1;
        if c == 0 {
          assert line == line[..k];
          break;
        }
        bp := bp + 1;
        if c == 10 {
          linebp := lp;
          assert line == line[..k];
          break;
        }
        assert line[..lp] == line[..k] + [c];
        StepPosition(t + k);
        nl := nl - 2;
        if nl == 0 {
          base := base + BLK;
          ok, buf, bp := OpenNext(base, s0, t, line[..lp], BlockOf(t + k));
          if !ok {
            k := lp;
            return;
          }
          nl := nleft;
        }
      }
    }

    /**
     putline: the line in linebuf is put at tline, and linebp is left behind its newline if it has one. An earlier
     line is held afterwards exactly if it is spared; and those that are not are the ones with a cell in the block of
     tline, when that may not be written.
     */
    method Putline() returns (ok: bool, t: nat)
      requires Valid() && |LineOf(linebuf[..])| < LBSIZE
      modifies this, ibuff, obuff
      ensures Valid() && t == old(tline) && t !in old(lines) && (ok <==> BlockOf(t + |LineOf(linebuf[..])|) < NBLK)
      ensures ok ==> tline == t + (|LineOf(linebuf[..])| + 4) / 2 * 2
      ensures fchange
      ensures var n := |LineOf(linebuf[..])|; linebp == if ok && linebuf[n] == 10 then n + 1 else old(linebp)
      ensures !ok ==> tline == t && if BlockOf(t) < NBLK then Overrun(S(), t, LineOf(linebuf[..])) else S() == old(S())
      ensures lines == if ok then old(lines)[t := LineOf(linebuf[..])] else old(lines)
      ensures lost == old(lost) + Hits(old(S()), t, old(lines))
              && overran == (old(overran) || (!ok && BlockOf(t) == NBLK - 2))
      ensures forall u {:trigger lines[u]} | u in old(lines) :: Holds(S(), u, lines[u]) <==>
                Spared(old(S()), t, u, lines[u])
      ensures iblock == old(iblock) && (old(Settled()) ==> (Settled() <==> ok || BlockOf(t) != NBLK - 2))
    {
      hide BlockOf, OffsetOf, Cell, Coherent, Fetch, LineOf, Put, Holds, Room, Overrun, Overfull, Earlier, Hits, Spared,
        Numbered, HeldBut, Line, Step;
      ghost var s0, line := S(), LineOf(linebuf[..]);
      ghost var k;
      fchange := true;
      t := tline;
      var lp;
      ok, lp, k := CopyOut(line);
      lost := lost + Hits(s0, t, lines);
      if ok {
        StepIs(|line|, t);
        tline := tline + Step(lp);
        PutIsKept(s0, S(), t, line, lines, old(lost), tline);
        lines := lines[t := line];
      } else if BlockOf(t) < NBLK {
        FailedKeeps(s0, S(), t, line, k, lines, old(lost));
        overran := overran || BlockOf(t) == NBLK - 2;
      } else {
        NothingKeeps(s0, t, line, lines, old(lost));
      }
    }
  }

  /** A line that ran out of the file: it fills the rest of it. */
  ghost predicate Overrun(s: Store, t: nat, line: seq<int>) {
    && s.oblock == NBLK - 1
    && forall pos: nat {:trigger Cell(s, pos)} | t <= pos && BlockOf(pos) < NBLK ::
         pos < t + |line| && Cell(s, pos) == line[pos - t]
  }

  /** What putline adds to tline for lp runes: so many runes, rounded to an even number of them. */
  function Step(lp: nat): nat {
    (lp + 3) % 0x8000 / 2 * 2
  }

  lemma StepIs(n: nat, t: nat)
    requires n < LBSIZE && t % 2 == 0
    ensures Step(n + 1) == (n + 4) / 2 * 2 && (t + Step(n + 1)) % 2 == 0 && t + n < t + Step(n + 1)
  {
  }

  lemma IsLine(t: nat, line: seq<int>, tline: nat)
    requires t % 2 == 0 && t + |line| < tline && |line| < LBSIZE && forall k | 0 <= k < |line| :: line[k] != 0
    ensures Line(t, line, tline)
  {
  }

  lemma PutDone(s0: Store, s: Store, t: nat, line: seq<int>)
    requires Put(s0, s, t, line + [0], BlockOf(t + |line|)) && |line| < LBSIZE && Coherent(s0) && Room(s0, t)
             && Overfull(s0, t)
    ensures Coherent(s) && Holds(s, t, line) && Earlier(s0, s, t) && s.iblock == s0.iblock && BlockOf(t + |line|) < NBLK
    ensures BlockOf(t) <= BlockOf(t + |line|) <= s.oblock
    ensures var n := t + (|line| + 4) / 2 * 2;
            Room(s, n) && Overfull(s, n) && (BlockOf(t) >= s0.oblock ==> BlockOf(n) >= s.oblock)
  {
    hide OffsetOf, Cell, Holds, Earlier;
    PutHolds(s0, s, t, line, BlockOf(t + |line|));
    var n := t + (|line| + 4) / 2 * 2;
    if BlockOf(n) < s.oblock {
      forall pos: nat {:trigger Cell(s, pos)} | BlockOf(pos) == NBLK - 1 ensures Cell(s, pos) != 0 {
        assert Cell(s, pos) == Cell(s0, pos);
      }
    }
  }

  /** The line is held with the others, and what was hit is lost. */
  lemma PutIsKept(s0: Store, s: Store, t: nat, line: seq<int>, lines: map<nat, seq<int>>, lost: set<nat>, n: nat)
    requires Put(s0, s, t, line + [0], BlockOf(t + |line|)) && |line| < LBSIZE && Coherent(s0) && Room(s0, t)
             && Overfull(s0, t)
    requires t % 2 == 0 && n == t + (|line| + 4) / 2 * 2 && forall k | 0 <= k < |line| :: line[k] != 0
    requires Numbered(s0, lines, t) && HeldBut(s0, lines, lost)
    ensures Coherent(s) && s.iblock == s0.iblock && Room(s, n) && Overfull(s, n) && BlockOf(t + |line|) < NBLK
            && t !in lines
    ensures Numbered(s, lines[t := line], n) && HeldBut(s, lines[t := line], lost + Hits(s0, t, lines))
    ensures forall u {:trigger lines[u]} | u in lines :: Holds(s, u, lines[u]) <==> Spared(s0, t, u, lines[u])
    ensures BlockOf(t) >= s0.oblock ==> BlockOf(n) >= s.oblock && Hits(s0, t, lines) == {}
  {
    hide BlockOf, Coherent, Put, Holds, Room, Overfull, Earlier, Hits, Spared, Numbered, HeldBut, Line;
    PutDone(s0, s, t, line);
    KeepLines(s0, s, t, lines, lost, n);
    IsLine(t, line, n);
    LineAdded(s, t, line, lines, lost + Hits(s0, t, lines), n);
  }

  /** The temporary file is full: what was hit is lost all the same. */
  lemma FailedKeeps(s0: Store, s: Store, t: nat, line: seq<int>, k: nat, lines: map<nat, seq<int>>, lost: set<nat>)
    requires k <= |line| < LBSIZE && 0 !in line && BlockOf(t + k) == NBLK && Put(s0, s, t, line[..k], NBLK - 1)
    requires Room(s0, t) && Overfull(s0, t) && Numbered(s0, lines, t) && HeldBut(s0, lines, lost)
    ensures Coherent(s) && s.iblock == s0.iblock && Room(s, t) && Overrun(s, t, line) && Overfull(s, t) && t !in lines
    ensures BlockOf(t + |line|) >= NBLK && (BlockOf(t) >= s.oblock <==> BlockOf(t) != NBLK - 2)
    ensures Numbered(s, lines, t) && HeldBut(s, lines, lost + Hits(s0, t, lines))
            && (BlockOf(t) >= s0.oblock ==> Hits(s0, t, lines) == {})
    ensures forall u {:trigger lines[u]} | u in lines :: Holds(s, u, lines[u]) <==> Spared(s0, t, u, lines[u])
  {
    hide BlockOf, Coherent, Put, Holds, Room, Overfull, Overrun, Earlier, Hits, Spared, Numbered, HeldBut;
    PutFailed(s0, s, t, line, k);
    KeepLines(s0, s, t, lines, lost, t);
  }

  lemma NothingKeeps(s: Store, t: nat, line: seq<int>, lines: map<nat, seq<int>>, lost: set<nat>)
    requires BlockOf(t) >= NBLK && Coherent(s) && Room(s, t) && Overfull(s, t) && Numbered(s, lines, t)
             && HeldBut(s, lines, lost)
    ensures BlockOf(t + |line|) >= NBLK && t !in lines
    ensures Numbered(s, lines, t) && HeldBut(s, lines, lost + Hits(s, t, lines))
            && (BlockOf(t) >= s.oblock ==> Hits(s, t, lines) == {})
    ensures forall u {:trigger lines[u]} | u in lines :: Holds(s, u, lines[u]) <==> Spared(s, t, u, lines[u])
  {
    hide BlockOf, Coherent, Holds, Room, Overfull, Earlier, Hits, Spared, Numbered, HeldBut;
    NothingPut(s, t);
    KeepLines(s, s, t, lines, lost, t);
    BlocksInOrder(t, t + |line|);
  }

  lemma PutFailed(s0: Store, s: Store, t: nat, line: seq<int>, k: nat)
    requires k <= |line| < LBSIZE && 0 !in line && BlockOf(t + k) == NBLK && Put(s0, s, t, line[..k], NBLK - 1)
    ensures Coherent(s) && Earlier(s0, s, t) && s.iblock == s0.iblock && Room(s, t) && Overrun(s, t, line)
            && Overfull(s, t)
    ensures BlockOf(t + |line|) >= NBLK && BlockOf(t) <= s.oblock
            && (BlockOf(t) >= s.oblock <==> BlockOf(t) != NBLK - 2)
  {
    hide OffsetOf, Cell, Earlier;
    forall pos: nat {:trigger Cell(s, pos)} | t <= pos && BlockOf(pos) < NBLK
      ensures pos < t + |line| && Cell(s, pos) == line[pos - t] && Cell(s, pos) != 0
    {
      assert pos < t + k;
      assert Cell(s, pos) == line[..k][pos - t];
      assert line[pos - t] in line;
    }
  }

  /** What becomes of the earlier lines. */
  lemma KeepLines(s0: Store, s: Store, t: nat, lines: map<nat, seq<int>>, lost: set<nat>, tline: nat)
    requires Earlier(s0, s, t) && t <= tline && (BlockOf(t) <= s.oblock || s.oblock == s0.oblock) && Room(s0, t)
             && Overfull(s0, t)
    requires Numbered(s0, lines, t) && HeldBut(s0, lines, lost)
    ensures t !in lines && Numbered(s, lines, tline) && HeldBut(s, lines, lost + Hits(s0, t, lines))
    ensures forall u {:trigger lines[u]} | u in lines :: Holds(s, u, lines[u]) <==> Spared(s0, t, u, lines[u])
    ensures BlockOf(t) >= s0.oblock ==> Hits(s0, t, lines) == {}
  {
    hide Earlier, Holds, BlockOf, Overfull, Room, Spared, Cell;
    forall u {:trigger lines[u]} | u in lines
      ensures Line(u, lines[u], tline) && BlockOf(u + |lines[u]|) <= s.oblock
      ensures Holds(s, u, lines[u]) <==> Spared(s0, t, u, lines[u])
      ensures Spared(s0, t, u, lines[u]) <==> Holds(s0, u, lines[u]) && !Hit(s0, t, u, lines[u])
    {
      BlocksInOrder(u + |lines[u]|, t);
      SparedIsHeld(s0, s, t, u, lines[u]);
      SparedIsUnhit(s0, t, u, lines[u]);
    }
  }

  lemma LineAdded(s: Store, t: nat, line: seq<int>, lines: map<nat, seq<int>>, lost: set<nat>, tline: nat)
    requires Holds(s, t, line) && Line(t, line, tline) && BlockOf(t + |line|) <= s.oblock && t !in lines
    requires Numbered(s, lines, tline) && HeldBut(s, lines, lost)
    ensures Numbered(s, lines[t := line], tline) && HeldBut(s, lines[t := line], lost)
  {
    hide Holds, BlockOf;
    var more := lines[t := line];
    forall u {:trigger more[u]} | u in more
      ensures Line(u, more[u], tline) && BlockOf(u + |more[u]|) <= s.oblock && (Holds(s, u, more[u]) <==> u !in lost)
    {
      if u != t {
        assert more[u] == lines[u];
      }
    }
  }

  lemma HeldLine(s: Store, lines: map<nat, seq<int>>, lost: set<nat>, tline: nat, t: nat)
    requires Numbered(s, lines, tline) && HeldBut(s, lines, lost) && t in lines && t !in lost
    ensures Line(t, lines[t], tline) && Holds(s, t, lines[t])
    ensures SameCells(s, s)
  {
  }

  lemma SameLines(s: Store, w: Store, lines: map<nat, seq<int>>, lost: set<nat>, tline: nat)
    requires SameCells(s, w) && Numbered(s, lines, tline) && HeldBut(s, lines, lost) && Overfull(s, tline)
    ensures Numbered(w, lines, tline) && HeldBut(w, lines, lost) && Overfull(w, tline)
            && (Room(s, tline) ==> Room(w, tline))
  {
    hide Holds, BlockOf, Cell;
    forall u {:trigger lines[u]} | u in lines ensures Holds(w, u, lines[u]) <==> u !in lost {
      SameHolds(s, w, u, lines[u]);
    }
    forall pos: nat {:trigger Cell(w, pos)} | BlockOf(pos) == NBLK - 1 && s.oblock == NBLK - 1
      ensures Cell(w, pos) == Cell(s, pos)
    {
    }
  }

  lemma NothingPut(s: Store, t: nat)
    requires BlockOf(t) >= NBLK && Coherent(s)
    ensures Earlier(s, s, t)
  {
  }

  lemma MarkBit(tl: nat)
    ensures BlockOf(tl) == BlockOf(tl - tl % 2) && OffsetOf(tl) - OffsetOf(tl) % 2 == OffsetOf(tl - tl % 2)
    ensures tl - tl % BLK == BLK * BlockOf(tl)
  {
    var b, k := tl / 2048, tl % 2048;
    assert tl == 2048 * b + k;
    assert tl % 2 == k % 2;
    Position(b, k - k % 2);
  }

  lemma Position(b: nat, k: nat)
    requires k < BLK
    ensures BlockOf(BLK * b + k) == b && OffsetOf(BLK * b + k) == k
  {
  }

  lemma BasePosition(b: nat)
    ensures BlockOf(BLK * b) == b && OffsetOf(BLK * b) == 0
  {
    Position(b, 0);
  }

  lemma StepPosition(pos: nat)
    ensures if OffsetOf(pos) + 1 < BLK then BlockOf(pos + 1) == BlockOf(pos) && OffsetOf(pos + 1) == OffsetOf(pos) + 1
            else BlockOf(pos + 1) == BlockOf(pos) + 1 && OffsetOf(pos + 1) == 0
  {
    var b, k := pos / 2048, pos % 2048;
    if k + 1 < 2048 {
      Position(b, k + 1);
    } else {
      Position(b + 1, 0);
    }
  }

  lemma NoFetch(s: Store, bno: nat)
    requires bno >= NBLK
    ensures Fetch(s, bno, true) == Fetched(false, s)
  {
  }

  lemma PutLoaded(s0: Store, s: Store, t: nat, runes: seq<int>, b: nat)
    requires Put(s0, s, t, runes, b)
    ensures Loaded(s, b) && |s.ibuff| == |s.obuff| == BLK
  {
  }

  lemma PutBelow(s0: Store, s: Store, t: nat, runes: seq<int>, b: nat)
    requires Put(s0, s, t, runes, b)
    ensures b < NBLK
  {
  }

  lemma Overwritten(s: Store, b: nat, k: nat, c: int)
    requires Loaded(s, b) && |s.ibuff| == |s.obuff| == BLK && k < BLK
    ensures var w := WriteCell(s, b, k, c);
            Loaded(w, b) && |w.ibuff| == |w.obuff| == BLK && WriteCell(w, b, k, 0) == WriteCell(s, b, k, 0)
  {
  }

  lemma BufferedCell(s: Store, pos: nat)
    requires Coherent(s) && Loaded(s, BlockOf(pos))
    ensures Cell(s, pos) == if BlockOf(pos) == s.iblock then s.ibuff[OffsetOf(pos)] else s.obuff[OffsetOf(pos)]
  {
  }

  lemma HeldBlocks(s: Store, t: nat, line: seq<int>, k: nat)
    requires Holds(s, t, line) && k <= |line|
    ensures BlockOf(t + k) <= s.oblock
  {
    BlocksInOrder(t + k, t + |line|);
  }

  lemma HeldCell(s0: Store, s: Store, t: nat, line: seq<int>, k: nat)
    requires SameCells(s0, s) && Holds(s0, t, line) && k <= |line| && 0 !in line
    ensures Cell(s, t + k) == (line + [0])[k] && (Cell(s, t + k) == 0 <==> k == |line|)
  {
    hide Cell;
    HeldBlocks(s0, t, line, k);
    assert Cell(s, t + k) == Cell(s0, t + k);
    assert k < |line| ==> line[k] in line;
  }

  lemma ByteOffset(atl: nat)
    ensures atl * 2 % BLKSIZE / 4 * 4 / 2 == OffsetOf(atl) - OffsetOf(atl) % 2
    ensures atl * 2 % BLKSIZE / 4 * 4 == 2 * (OffsetOf(atl) - OffsetOf(atl) % 2)
  {
    var b, k := atl / 2048, atl % 2048;
    assert atl * 2 == 4096 * b + 2 * k;
    assert atl * 2 % 4096 == 2 * k;
    assert k == k / 2 * 2 + k % 2;
    assert 2 * k / 4 == k / 2;
  }

  // ---- A line that is lost ------------------------------------------------------------------------------

  lemma {:induction false} LineIs(buf: seq<int>, n: nat)
    requires n < |buf| && (buf[n] == 0 || buf[n] == 10) && forall k | 0 <= k < n :: buf[k] != 0 && buf[k] != 10
    ensures LineOf(buf) == buf[..n]
  {
    if n > 0 {
      LineIs(buf[1..], n - 1);
      assert buf[..n] == [buf[0]] + buf[1..][..n - 1];
    } else {
      assert buf[..n] == [];
    }
  }

  /** Empty lines up to the last block but one. */
  method FillUp(e: Editor)
    requires e.Valid() && !e.overran && e.tline == 2 && e.iblock == -1
    modifies e, e.ibuff, e.obuff, e.linebuf
    ensures e.Valid() && !e.overran && e.iblock == -1 && e.tline == BLK * (NBLK - 2) + 2
  {
    hide LineOf, Holds, Spared, Overrun, Overfull, HeldBut, Numbered;
    e.linebuf[0] := 0;
    LineIs(e.linebuf[..], 0);
    while e.tline < BLK * (NBLK - 2) + 2
      invariant e.Valid() && !e.overran && e.iblock == -1
      invariant e.tline % 4 == 2 && e.tline <= BLK * (NBLK - 2) + 2 && LineOf(e.linebuf[..]) == []
    {
      var ok, t := e.Putline();
    }
  }

  /** The line a, then a line that is too long for the rest of the file, then an empty line: a is lost. */
  method LoseLine(e: Editor) returns (t: nat)
    requires e.Valid() && !e.overran && e.tline == 2 && e.iblock == -1
    modifies e, e.ibuff, e.obuff, e.linebuf
    ensures e.Valid() && t in e.lines && e.lines[t] == [97] && t in e.lost && !Holds(e.S(), t, e.lines[t])
  {
    hide LineOf, Numbered, Cell, Coherent, Spared, Holds;
    FillUp(e);
    e.linebuf[0], e.linebuf[1] := 97, 0;
    LineIs(e.linebuf[..], 1);
    assert LineOf(e.linebuf[..]) == [97];
    var ok;
    ok, t := e.Putline();
    forall k | 0 <= k < LBSIZE {
      e.linebuf[k] := if k < LBSIZE - 1 then 120 else 0;
    }
    LineIs(e.linebuf[..], LBSIZE - 1);
    var no, t2 := e.Putline();
    assert !no && t2 == t + 4;
    assert Hit(e.S(), t2, t, e.lines[t]);
    e.linebuf[0] := 0;
    LineIs(e.linebuf[..], 0);
    var yes, t3 := e.Putline();
  }
}
