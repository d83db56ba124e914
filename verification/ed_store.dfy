/**
 The temporary file of ed with its two block buffers (cmd/ed.c: getblock, blkio), on values.
 A rune is two bytes; positions count runes.
 */
module EdStore {

  const BLK := 2048
  const BLKSIZE := 2 * BLK
  const NBLK := 8191
  const LBSIZE := 4096

  datatype Store = Store(
    iblock: int, ichanged: bool, ibuff: seq<int>,
    oblock: int, obuff: seq<int>,
    tfile: map<int, seq<int>>)

  function BlockOf(pos: nat): nat {
    pos / BLK
  }

  function OffsetOf(pos: nat): (k: nat)
    ensures k < BLK
  {
    pos % BLK
  }

  lemma NextBlock(pos: nat)
    ensures BlockOf(pos + BLK) == BlockOf(pos) + 1 && OffsetOf(pos + BLK) == OffsetOf(pos)
  {
    assert (pos + 2048) / 2048 == pos / 2048 + 1;
  }

  lemma SameBlock(p: nat, q: nat)
    requires BlockOf(p) == BlockOf(q) && OffsetOf(p) == OffsetOf(q)
    ensures p == q
  {
  }

  lemma BlocksInOrder(p: nat, q: nat)
    requires p <= q
    ensures BlockOf(p) <= BlockOf(q)
  {
  }

  /** What getblock does to the buffers; it fails past the last block and where the file has no block to read. */
  datatype Fetched = Fetched(ok: bool, store: Store)

  function Fetch(s: Store, bno: int, write: bool): Fetched {
    if bno >= NBLK then Fetched(false, s)
    else if bno == s.iblock then Fetched(true, s.(ichanged := s.ichanged || write))
    else if bno == s.oblock then Fetched(true, s)
    else if !write then
      var file := if s.ichanged then s.tfile[s.iblock := s.ibuff] else s.tfile;
      if bno in file then Fetched(true, s.(tfile := file, ichanged := false, iblock := bno, ibuff := file[bno]))
      else Fetched(false, s.(tfile := file, ichanged := false, iblock := bno))
    else
      var file := if s.oblock >= 0 then s.tfile[s.oblock := s.obuff] else s.tfile;
      Fetched(true, s.(tfile := file, oblock := bno))
  }

  /** The reading buffer holds an earlier block than the writing buffer, and every block before that one is in the
      file. */
  ghost predicate Coherent(s: Store) {
    && |s.ibuff| == |s.obuff| == BLK && -1 <= s.oblock < NBLK
    && (if s.iblock == -1 then !s.ichanged else 0 <= s.iblock < s.oblock)
    && (forall b | 0 <= b < s.oblock :: b in s.tfile && |s.tfile[b]| == BLK)
    && (s.iblock >= 0 && !s.ichanged ==> s.tfile[s.iblock] == s.ibuff)
  }

  /** The rune at a position, wherever it is kept. */
  function Cell(s: Store, pos: nat): int {
    var b, k := BlockOf(pos), OffsetOf(pos);
    if b == s.iblock then (if k < |s.ibuff| then s.ibuff[k] else 0)
    else if b == s.oblock then (if k < |s.obuff| then s.obuff[k] else 0)
    else if b in s.tfile && k < |s.tfile[b]| then s.tfile[b][k]
    else 0
  }

  predicate Loaded(s: Store, b: int) {
    b == s.iblock || b == s.oblock
  }

  // ---- Reading ----------------------------------------------------------------------------------------

  /** Reading a block that was written fails never and changes no rune. */
  lemma ReadKeeps(s: Store, bno: nat)
    requires Coherent(s) && bno <= s.oblock
    ensures var f := Fetch(s, bno, false);
            && f.ok && Coherent(f.store) && f.store.oblock == s.oblock && Loaded(f.store, bno)
            && forall pos: nat {:trigger Cell(f.store, pos)} | BlockOf(pos) <= s.oblock ::
                 Cell(f.store, pos) == Cell(s, pos)
  {
    hide BlockOf, OffsetOf;
  }

  // ---- Writing ----------------------------------------------------------------------------------------

  /** The block b may be written: it is not behind the writing buffer, or it is in the reading buffer. */
  predicate Writable(s: Store, b: int) {
    b >= s.oblock || b == s.iblock
  }

  /** A writable block is brought in without a change to any rune. */
  lemma WriteKeeps(s: Store, bno: nat)
    requires Coherent(s) && Writable(s, bno) && bno < NBLK && bno <= s.oblock + 1
    ensures var f := Fetch(s, bno, true);
            && f.ok && Coherent(f.store) && Loaded(f.store, bno) && (bno == f.store.iblock ==> f.store.ichanged)
            && f.store.oblock == (if bno > s.oblock then bno else s.oblock) && f.store.iblock == s.iblock
            && forall pos: nat {:trigger Cell(f.store, pos)} | BlockOf(pos) <= s.oblock ::
                 Cell(f.store, pos) == Cell(s, pos)
  {
    hide BlockOf, OffsetOf;
  }

  /** The runes of one block are replaced by those of the next; earlier blocks are kept. */
  ghost predicate TakenOver(s: Store, w: Store, bno: nat) {
    forall pos: nat {:trigger Cell(w, pos)} | BlockOf(pos) <= bno ::
      Cell(w, pos) == if BlockOf(pos) == bno then Cell(s, pos + BLK) else Cell(s, pos)
  }

  /** The block just before the writing buffer, not in the reading buffer: it takes over what the writing buffer
      holds. */
  lemma WriteLoses(s: Store, bno: nat)
    requires Coherent(s) && bno == s.oblock - 1 && bno != s.iblock
    ensures var f := Fetch(s, bno, true);
            f.ok && Coherent(f.store) && f.store.oblock == bno && f.store.iblock == s.iblock
            && TakenOver(s, f.store, bno)
  {
    hide BlockOf, OffsetOf;
    var w := Fetch(s, bno, true).store;
    forall pos: nat {:trigger Cell(w, pos)} | BlockOf(pos) <= bno
      ensures Cell(w, pos) == if BlockOf(pos) == bno then Cell(s, pos + BLK) else Cell(s, pos)
    {
      NextBlock(pos);
    }
    assert TakenOver(s, w, bno);
  }

  /** A rune is written through the pointer that getblock gave. */
  function WriteCell(s: Store, b: int, k: nat, c: int): Store
    requires Loaded(s, b) && k < |s.ibuff| && k < |s.obuff|
  {
    if b == s.iblock then s.(ibuff := s.ibuff[k := c]) else s.(obuff := s.obuff[k := c])
  }

  lemma WriteCellIs(s: Store, pos: nat, c: int)
    requires Coherent(s) && Loaded(s, BlockOf(pos)) && (BlockOf(pos) == s.iblock ==> s.ichanged)
    ensures var w := WriteCell(s, BlockOf(pos), OffsetOf(pos), c);
            && Coherent(w) && Cell(w, pos) == c
            && forall p: nat | p != pos :: Cell(w, p) == Cell(s, p)
  {
    hide BlockOf, OffsetOf;
    var w := WriteCell(s, BlockOf(pos), OffsetOf(pos), c);
    forall p: nat | p != pos ensures Cell(w, p) == Cell(s, p) {
      if BlockOf(p) == BlockOf(pos) && OffsetOf(p) == OffsetOf(pos) {
        SameBlock(p, pos);
      }
    }
  }

  // ---- Lines --------------------------------------------------------------------------------------------

  /** The line at t, with its terminating NUL. */
  ghost predicate Holds(s: Store, t: nat, line: seq<int>) {
    && BlockOf(t + |line|) <= s.oblock
    && (forall pos: nat {:trigger Cell(s, pos)} | t <= pos < t + |line| :: Cell(s, pos) == line[pos - t])
    && Cell(s, t + |line|) == 0
  }

  /** Nothing that was written is other than before. */
  ghost predicate SameCells(s: Store, w: Store) {
    && s.oblock == w.oblock
    && forall pos: nat {:trigger Cell(w, pos)} | BlockOf(pos) <= s.oblock :: Cell(w, pos) == Cell(s, pos)
  }

  lemma SameHolds(s: Store, w: Store, t: nat, line: seq<int>)
    requires SameCells(s, w)
    ensures Holds(w, t, line) <==> Holds(s, t, line)
  {
    hide BlockOf, Cell;
    if BlockOf(t + |line|) <= s.oblock {
      forall pos: nat {:trigger Cell(w, pos)} {:trigger Cell(s, pos)} | t <= pos <= t + |line|
        ensures Cell(w, pos) == Cell(s, pos)
      {
        BlocksInOrder(pos, t + |line|);
        assert Cell(w, pos) == Cell(s, pos);
      }
    }
  }

  // ---- A line is put ------------------------------------------------------------------------------------

  /** What is found at an earlier position once the block of T has been brought in for writing. */
  function Before(s: Store, T: nat, pos: nat): int {
    if !Writable(s, BlockOf(T)) && BlockOf(pos) == BlockOf(T) then Cell(s, pos + BLK) else Cell(s, pos)
  }

  ghost predicate Earlier(s0: Store, s: Store, T: nat) {
    forall pos: nat {:trigger Cell(s, pos)} | pos < T && BlockOf(pos) <= s0.oblock :: Cell(s, pos) == Before(s0, T, pos)
  }

  /** What is behind is as it was, unless the block of T was brought in with a loss. */
  ghost predicate Later(s0: Store, s: Store, T: nat, end: nat) {
    Writable(s0, BlockOf(T)) ==>
      forall pos: nat {:trigger Cell(s, pos)} | end <= pos && BlockOf(pos) <= s0.oblock :: Cell(s, pos) == Cell(s0, pos)
  }

  /** From s0 the runes have been put from T on; the block b is in a buffer. */
  ghost predicate Put(s0: Store, s: Store, T: nat, runes: seq<int>, b: nat) {
    && Coherent(s) && Loaded(s, b) && (b == s.iblock ==> s.ichanged) && s.iblock == s0.iblock
    && (b == s.oblock || (b == s.iblock && b == s.oblock - 1))
    && BlockOf(T) <= b && (runes != [] ==> BlockOf(T + |runes| - 1) <= b)
    && (s0.iblock != BlockOf(T) ==> s.oblock == b) && (Writable(s0, BlockOf(T)) ==> s.oblock >= s0.oblock)
    && Earlier(s0, s, T) && Later(s0, s, T, T + |runes|)
    && forall pos: nat {:trigger Cell(s, pos)} | T <= pos < T + |runes| :: Cell(s, pos) == runes[pos - T]
  }

  /** Where the next line goes: in the last block written, or next to it. */
  predicate Room(s: Store, T: nat) {
    s.oblock - 1 <= BlockOf(T) <= s.oblock + 1
  }

  lemma PutStart(s: Store, T: nat)
    requires Coherent(s) && Room(s, T) && BlockOf(T) < NBLK
    ensures Fetch(s, BlockOf(T), true).ok && Put(s, Fetch(s, BlockOf(T), true).store, T, [], BlockOf(T))
  {
    hide BlockOf, OffsetOf, Cell, Coherent;
    var b := BlockOf(T);
    var w := Fetch(s, b, true).store;
    if Writable(s, b) {
      WriteKeeps(s, b);
    } else {
      WriteLoses(s, b);
    }
    forall pos: nat {:trigger Cell(w, pos)} | pos < T && BlockOf(pos) <= s.oblock
      ensures Cell(w, pos) == Before(s, T, pos)
    {
      BlocksInOrder(pos, T);
    }
    assert Earlier(s, w, T);
  }

  lemma PutRune(s0: Store, s: Store, T: nat, runes: seq<int>, b: nat, c: int)
    requires Put(s0, s, T, runes, b) && BlockOf(T + |runes|) == b
    ensures |s.ibuff| == |s.obuff| == BLK
    ensures Put(s0, WriteCell(s, b, OffsetOf(T + |runes|), c), T, runes + [c], b)
  {
    hide BlockOf, OffsetOf, Cell;
    var w := WriteCell(s, b, OffsetOf(T + |runes|), c);
    WriteCellIs(s, T + |runes|, c);
    assert Earlier(s0, w, T);
  }

  /** The next block is brought in. */
  lemma PutNext(s0: Store, s: Store, T: nat, runes: seq<int>, b: nat)
    requires Put(s0, s, T, runes, b) && b + 1 < NBLK
    ensures Fetch(s, b + 1, true).ok && Put(s0, Fetch(s, b + 1, true).store, T, runes, b + 1)
  {
    hide BlockOf, OffsetOf, Cell, Coherent;
    var w := Fetch(s, b + 1, true).store;
    WriteKeeps(s, b + 1);
    forall pos: nat {:trigger Cell(w, pos)} | pos < T && BlockOf(pos) <= s0.oblock
      ensures Cell(w, pos) == Before(s0, T, pos)
    {
      BlocksInOrder(pos, T);
      assert Cell(w, pos) == Cell(s, pos);
    }
    assert Earlier(s0, w, T);
    forall pos: nat {:trigger Cell(w, pos)} | T <= pos < T + |runes| ensures Cell(w, pos) == runes[pos - T] {
      BlocksInOrder(pos, T + |runes| - 1);
      assert Cell(w, pos) == Cell(s, pos);
    }
  }

  lemma PutHolds(s0: Store, s: Store, T: nat, line: seq<int>, b: nat)
    requires Put(s0, s, T, line + [0], b)
    ensures Holds(s, T, line)
  {
    hide BlockOf, Cell, Coherent;
    assert BlockOf(T + |line + [0]| - 1) <= b;
    assert Cell(s, T + |line|) == (line + [0])[|line|];
  }

  // ---- What putting a line does to an earlier one --------------------------------------------------------

  /** Every rune of the earlier line, and its NUL, is found in place once the block of T has been brought in. */
  ghost predicate Spared(s: Store, T: nat, u: nat, line: seq<int>) {
    forall pos: nat {:trigger Before(s, T, pos)} | u <= pos <= u + |line| :: Before(s, T, pos) == (line + [0])[pos - u]
  }

  /** Exactly those lines are held afterwards. */
  lemma SparedIsHeld(s0: Store, s: Store, T: nat, u: nat, line: seq<int>)
    requires Earlier(s0, s, T) && u + |line| < T && BlockOf(u + |line|) <= s0.oblock && BlockOf(u + |line|) <= s.oblock
    ensures Holds(s, u, line) <==> Spared(s0, T, u, line)
  {
    hide BlockOf, Cell, Before;
    forall pos: nat {:trigger Cell(s, pos)} {:trigger Before(s0, T, pos)} | u <= pos <= u + |line|
      ensures Cell(s, pos) == Before(s0, T, pos)
    {
      BlocksInOrder(pos, u + |line|);
    }
    assert (line + [0])[|line|] == 0;
    if Holds(s, u, line) {
      forall pos: nat {:trigger Before(s0, T, pos)} | u <= pos <= u + |line|
        ensures Before(s0, T, pos) == (line + [0])[pos - u]
      {
        assert Cell(s, pos) == Before(s0, T, pos);
      }
    }
    if Spared(s0, T, u, line) {
      forall pos: nat {:trigger Cell(s, pos)} | u <= pos <= u + |line| ensures Cell(s, pos) == (line + [0])[pos - u] {
        assert Cell(s, pos) == Before(s0, T, pos);
      }
    }
  }

  /** The line reaches into a block of T that may not be written. */
  predicate Hit(s: Store, T: nat, u: nat, line: seq<int>) {
    !Writable(s, BlockOf(T)) && BlockOf(u + |line|) == BlockOf(T)
  }

  /** The writing buffer is ahead of T only with the last block of the file, and only full of runes that end no line. */
  ghost predicate Overfull(s: Store, T: nat) {
    BlockOf(T) < s.oblock ==>
      s.oblock == NBLK - 1 && forall pos: nat {:trigger Cell(s, pos)} | BlockOf(pos) == NBLK - 1 :: Cell(s, pos) != 0
  }

  /** A line is spared exactly if it was held and is not hit: no text that is put at T makes a difference. */
  lemma SparedIsUnhit(s: Store, T: nat, u: nat, line: seq<int>)
    requires Room(s, T) && Overfull(s, T) && u + |line| < T && BlockOf(u + |line|) <= s.oblock
    ensures Spared(s, T, u, line) <==> Holds(s, u, line) && !Hit(s, T, u, line)
  {
    hide BlockOf, Cell;
    BlocksInOrder(u + |line|, T);
    assert (line + [0])[|line|] == 0;
    if Hit(s, T, u, line) {
      NextBlock(u + |line|);
      assert Cell(s, u + |line| + BLK) != 0;
      assert Before(s, T, u + |line|) != (line + [0])[|line|];
    } else {
      forall pos: nat {:trigger Cell(s, pos)} {:trigger Before(s, T, pos)} | u <= pos <= u + |line|
        ensures Before(s, T, pos) == Cell(s, pos)
      {
        BlocksInOrder(pos, u + |line|);
      }
      if Spared(s, T, u, line) {
        forall pos: nat {:trigger Cell(s, pos)} | u <= pos <= u + |line| ensures Cell(s, pos) == (line + [0])[pos - u] {
          assert Before(s, T, pos) == Cell(s, pos);
        }
      }
    }
  }

  /** A line is hit exactly if any of its cells is in the block. */
  lemma HitIsAnyCell(s: Store, T: nat, u: nat, line: seq<int>)
    requires u + |line| < T
    ensures Hit(s, T, u, line) <==>
            !Writable(s, BlockOf(T)) && exists pos: nat {:trigger BlockOf(pos)} | u <= pos <= u + |line| ::
              BlockOf(pos) == BlockOf(T)
  {
    hide BlockOf;
    if pos: nat {:trigger BlockOf(pos)} :| u <= pos <= u + |line| && BlockOf(pos) == BlockOf(T) {
      BlocksInOrder(pos, u + |line|);
      BlocksInOrder(u + |line|, T);
    }
  }
}
