/**
 Block and arena sizes in lib9/pool.c: dsize2bsize and bsize2asize.
 */
module PoolSizes {
  import opened PoolTiles

  const MAXREQUEST := 0x80000000

  /** x rounded up to a multiple of q, as the code does with masks for a power of two. */
  function RoundUp(x: int, q: int): (r: int)
    requires q >= 1 && x >= 0
    ensures x <= r < x + q && r % q == 0
  {
    DivBounds(x + q - 1, q);
    (x + q - 1) / q * q
  }

  lemma DivBounds(x: int, q: int)
    requires q >= 1
    ensures x - q < x / q * q <= x && (x / q * q) % q == 0
  {
    var d := x / q;
    assert x == d * q + x % q;
    MulMod(d, q);
  }

  lemma MulMod(d: int, q: int)
    requires q >= 1
    ensures (d * q) % q == 0
  {
    var e, m := d * q / q, d * q % q;
    assert d * q == e * q + m;
    TimesApart(d, e, q, m);
  }

  lemma TimesApart(d: int, e: int, q: int, m: int)
    requires d * q == e * q + m && 0 <= m < q
    ensures m == 0
  {
    assert (d - e) * q == m;
    TimesGrow(d - e, q);
  }

  lemma TimesGrow(k: int, q: int)
    requires q >= 1
    ensures (k >= 1 ==> k * q >= q) && (k <= -1 ==> k * q <= -q)
  {
  }

  function Dsize2bsize(dsize: int, minblock: int, quantum: int): (r: int)
    requires quantum >= 1 && minblock >= 0 && dsize >= 0
    ensures dsize + BHDR + BTAIL <= r && minblock <= r
    ensures r < dsize + BHDR + BTAIL + minblock + quantum
  {
    var sz := dsize + BHDR + BTAIL;
    RoundUp(if sz < minblock then minblock else sz, quantum)
  }

  /** One more than the greatest ulong. */
  const ULONG := 0x1_0000_0000

  /** dsize2bsize in the arithmetic of ulong. */
  function UlongBsize(dsize: nat, minblock: nat, quantum: nat): int
    requires quantum >= 1
  {
    var sz := (dsize + BHDR + BTAIL) % ULONG;
    var least := if sz < minblock then minblock else sz;
    (least + quantum - 1) % ULONG / quantum * quantum
  }

  /** The sum that is rounded does not wrap round. */
  predicate FitsUlong(dsize: nat, quantum: int) {
    dsize + BHDR + BTAIL + quantum - 1 < ULONG
  }

  /** What the code computes is the size that is meant exactly if the sum fits. */
  lemma UlongIsExact(dsize: nat, minblock: nat, quantum: nat)
    requires dsize < ULONG && SaneSizes(minblock, quantum) && ULONG % quantum == 0
    ensures UlongBsize(dsize, minblock, quantum) == Dsize2bsize(dsize, minblock, quantum) <==> FitsUlong(dsize, quantum)
  {
    hide UlongBsize, Dsize2bsize, RoundUp;
    if FitsUlong(dsize, quantum) {
      NothingWraps(dsize, minblock, quantum);
    } else {
      UlongIsLess(dsize, minblock, quantum);
      RoundsUpTo(dsize, minblock, quantum);
      WholeMultiple(quantum, Dsize2bsize(dsize, minblock, quantum) / quantum);
    }
  }

  lemma NothingWraps(dsize: nat, minblock: nat, quantum: nat)
    requires SaneSizes(minblock, quantum) && FitsUlong(dsize, quantum)
    ensures UlongBsize(dsize, minblock, quantum) == Dsize2bsize(dsize, minblock, quantum)
  {
    var sz := dsize + BHDR + BTAIL;
    var sum := (if sz < minblock then minblock else sz) + quantum - 1;
    SmallMod(sz);
    SmallMod(sum);
  }

  lemma SmallMod(x: nat)
    requires x < ULONG
    ensures x % ULONG == x
  {
  }

  lemma UlongIsLess(dsize: nat, minblock: nat, quantum: nat)
    requires quantum >= 1
    ensures UlongBsize(dsize, minblock, quantum) < ULONG
  {
    var sz := (dsize + BHDR + BTAIL) % ULONG;
    DivBounds(((if sz < minblock then minblock else sz) + quantum - 1) % ULONG, quantum);
  }

  lemma RoundsUpTo(dsize: nat, minblock: nat, quantum: nat)
    requires quantum >= 1
    ensures Dsize2bsize(dsize, minblock, quantum) == Dsize2bsize(dsize, minblock, quantum) / quantum * quantum
  {
    hide RoundUp;
    var r := Dsize2bsize(dsize, minblock, quantum);
    assert r == quantum * (r / quantum) + r % quantum;
  }

  /** A multiple of the quantum that is not far below the word's end is not below it. */
  lemma WholeMultiple(quantum: nat, k: nat)
    requires quantum >= 1 && ULONG % quantum == 0 && k * quantum > ULONG - quantum
    ensures k * quantum >= ULONG
  {
    var n := ULONG / quantum;
    assert ULONG == n * quantum;
    TimesGrow(k - n + 1, quantum);
    TimesGrow(k - n, quantum);
    assert (k - n + 1) * quantum == k * quantum - ULONG + quantum;
    assert (k - n) * quantum == k * quantum - ULONG;
  }

  /** The greatest size of all wraps round to a block of no data. */
  lemma GreatestSizeWraps()
    ensures UlongBsize(ULONG - 1, 0, 32) == 32 < Dsize2bsize(ULONG - 1, 0, 32)
  {
  }

  /** What the sizes of a pool must be: a block can hold the links of a free one, and the slack of a trimmed
      block fits the 16 bits of its tail. */
  predicate SaneSizes(minblock: int, quantum: int) {
    && quantum >= 1 && minblock >= 0 && Dsize2bsize(0, minblock, quantum) >= MINBLOCKSIZE
    && BHDR + BTAIL + minblock + quantum + MINBLOCKSIZE <= 0x10000
  }

  lemma AtLeastMin(dsize: nat, minblock: int, quantum: int)
    requires SaneSizes(minblock, quantum)
    ensures Dsize2bsize(dsize, minblock, quantum) >= MINBLOCKSIZE
  {
    if Dsize2bsize(dsize, minblock, quantum) < MINBLOCKSIZE {
      Monotone(dsize, 0, minblock, quantum);
    }
  }

  /** The pool of malloc: no least block, blocks in multiples of 32 bytes. */
  lemma MallocIsSane()
    ensures SaneSizes(0, 32)
  {
  }

  function Bsize2asize(bsize: int, minarena: int, quantum: int): (r: int)
    requires quantum >= 1 && bsize >= 0
    ensures bsize + ARENA + BTAIL <= r
  {
    var sz := bsize + ARENA + BTAIL;
    var a := if sz < minarena then minarena else sz;
    DivBounds(a + quantum, quantum);
    (a + quantum) / quantum * quantum
  }

  lemma MultiplesApart(a: int, b: int, q: int)
    requires q >= 1 && a % q == 0 && b % q == 0 && a < b
    ensures a + q <= b
  {
    var d, e := a / q, b / q;
    assert a == q * d && b == q * e;
    TimesGrow(d - e, q);
    assert (d - e) * q == a - b;
  }

  /** dsize2bsize is the least multiple of the quantum that holds the data with header and tail and is no less than a
      least block. */
  lemma BlockSizeIsLeast(dsize: nat, minblock: nat, quantum: int, n: int)
    requires quantum >= 1
    ensures var r := Dsize2bsize(dsize, minblock, quantum);
            r % quantum == 0 && r >= dsize + BHDR + BTAIL && r >= minblock
    ensures n % quantum == 0 && n >= dsize + BHDR + BTAIL && n >= minblock ==>
              n >= Dsize2bsize(dsize, minblock, quantum)
  {
    hide RoundUp;
    var r := Dsize2bsize(dsize, minblock, quantum);
    if n % quantum == 0 && n >= dsize + BHDR + BTAIL && n >= minblock && n < r {
      MultiplesApart(n, r, quantum);
    }
  }

  /** bsize2asize is the least multiple of the quantum above the block with the arena's header and tail, and above a
      least arena. */
  lemma ArenaSizeIsLeast(bsize: nat, minarena: nat, quantum: int, n: int)
    requires quantum >= 1
    ensures var r := Bsize2asize(bsize, minarena, quantum);
            r % quantum == 0 && r > bsize + ARENA + BTAIL && r > minarena
    ensures n % quantum == 0 && n > bsize + ARENA + BTAIL && n > minarena ==> n >= Bsize2asize(bsize, minarena, quantum)
  {
    var sz := bsize + ARENA + BTAIL;
    var a := if sz < minarena then minarena else sz;
    var r := Bsize2asize(bsize, minarena, quantum);
    DivBounds(a + quantum, quantum);
    if n % quantum == 0 && n > a && n < r {
      MultiplesApart(n, r, quantum);
    }
  }

  /** More data never need a smaller block. */
  lemma Monotone(d: nat, e: nat, minblock: int, quantum: int)
    requires quantum >= 1 && minblock >= 0 && Dsize2bsize(d, minblock, quantum) < Dsize2bsize(e, minblock, quantum)
    ensures d < e
  {
    if e <= d {
      var x := if e + BHDR + BTAIL < minblock then minblock else e + BHDR + BTAIL;
      var y := if d + BHDR + BTAIL < minblock then minblock else d + BHDR + BTAIL;
      RoundUpMonotone(x, y, quantum);
    }
  }

  lemma RoundUpMonotone(x: int, y: int, q: int)
    requires q >= 1 && 0 <= x <= y
    ensures RoundUp(x, q) <= RoundUp(y, q)
  {
    var d, e := (x + q - 1) / q, (y + q - 1) / q;
    DivBounds(x + q - 1, q);
    DivBounds(y + q - 1, q);
    TimesGrow(d - e, q);
    assert (d - e) * q == d * q - e * q;
  }
}
