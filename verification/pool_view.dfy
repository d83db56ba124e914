/**
 What the callers of lib9/pool.c see: the map from each live block to the bytes its caller has in it.
 */
module PoolView {
  import opened PoolSizes
  import opened PoolTiles

  function UserSize(h: int, size: map<int, int>, tdata: map<int, int>): int {
    if h in size && h + size[h] in tdata then size[h] - tdata[h + size[h]] else 0
  }

  /** A block given to a caller: its tail has the slack, a 16-bit number, and the data fit. */
  ghost predicate KemptAt(h: int, size: map<int, int>, tdata: map<int, int>, minblock: int, quantum: int) {
    && h in size && h + size[h] in tdata && 0 <= tdata[h + size[h]] < 0x10000
    && UserSize(h, size, tdata) >= 0 && quantum >= 1 && minblock >= 0
    && Dsize2bsize(UserSize(h, size, tdata), minblock, quantum) <= size[h]
  }

  ghost predicate KemptOk(heads: set<int>, magic: map<int, Magic>, size: map<int, int>, tdata: map<int, int>,
                          minblock: int, quantum: int) {
    forall h {:trigger KemptAt(h, size, tdata, minblock, quantum)} | h in heads && h in magic && magic[h] == Kempt ::
      KemptAt(h, size, tdata, minblock, quantum)
  }

  function Bytes(mem: int -> int, lo: int, n: int): (s: seq<int>)
    ensures |s| == if n < 0 then 0 else n
    ensures forall i | 0 <= i < |s| :: s[i] == mem(lo + i)
  {
    seq(if n < 0 then 0 else n, i => mem(lo + i))
  }

  /** The bytes that x and y both have are the same. */
  predicate SamePrefix(x: seq<int>, y: seq<int>) {
    forall i | 0 <= i < |x| && i < |y| :: x[i] == y[i]
  }

  /** The live blocks and the bytes their callers have in them. */
  ghost function ViewOf(heads: set<int>, magic: map<int, Magic>, size: map<int, int>, tdata: map<int, int>,
                        mem: int -> int): map<int, seq<int>> {
    map h | h in heads && h in magic && magic[h] == Kempt :: Bytes(mem, h + BHDR, UserSize(h, size, tdata))
  }

  ghost predicate SameBytes(mem: int -> int, mem': int -> int, lo: int, hi: int) {
    forall x | lo <= x < hi :: mem'(x) == mem(x)
  }

  ghost predicate Outside(mem: int -> int, mem': int -> int, lo: int, hi: int) {
    forall x | x < lo || hi <= x :: mem'(x) == mem(x)
  }

  ghost function Live(heads: set<int>, magic: map<int, Magic>): set<int> {
    set h | h in heads && h in magic && magic[h] == Kempt
  }

  ghost function Arenas(heads: set<int>, magic: map<int, Magic>): set<int> {
    set h | h in heads && h in magic && magic[h] == Arena
  }

  lemma SameArenaSet(heads: set<int>, magic: map<int, Magic>, heads': set<int>, magic': map<int, Magic>)
    requires SameArenas(heads, magic, heads', magic')
    ensures Arenas(heads', magic') == Arenas(heads, magic)
  {
    forall a ensures a in Arenas(heads', magic') <==> a in Arenas(heads, magic) {
    }
  }

  /** The arena list: each arena once, by descending address. */
  ghost predicate Listed(list: seq<int>, arenas: set<int>) {
    && (forall i, j | 0 <= i < j < |list| :: list[i] > list[j])
    && forall a :: a in list <==> a in arenas
  }

  /** The blocks that stay live are the old ones without those in gone, and keep size and bytes. */
  lemma ViewShrinks(heads: set<int>, magic: map<int, Magic>, size: map<int, int>, tdata: map<int, int>, mem: int -> int,
                    heads': set<int>, magic': map<int, Magic>, size': map<int, int>, tdata': map<int, int>,
                    mem': int -> int, gone: set<int>)
    requires Live(heads', magic') == Live(heads, magic) - gone
    requires forall h | h in Live(heads', magic') :: UserSize(h, size', tdata') == UserSize(h, size, tdata)
    requires forall h | h in Live(heads', magic') :: SameBytes(mem, mem', h + BHDR, h + BHDR + UserSize(h, size, tdata))
    ensures ViewOf(heads', magic', size', tdata', mem') == ViewOf(heads, magic, size, tdata, mem) - gone
  {
    var v, v' := ViewOf(heads, magic, size, tdata, mem), ViewOf(heads', magic', size', tdata', mem');
    assert v.Keys == Live(heads, magic) && v'.Keys == Live(heads', magic');
    forall h | h in v' ensures v'[h] == v[h] {
      assert h in Live(heads', magic');
      assert SameBytes(mem, mem', h + BHDR, h + BHDR + UserSize(h, size, tdata));
    }
  }

  lemma BlockAt(heads: set<int>, magic: map<int, Magic>, size: map<int, int>, b: int)
    requires Tiled(heads, magic, size) && b in heads && b in magic && IsBlock(magic[b])
    ensures b > 0 && b in size && size[b] >= MINBLOCKSIZE && b + size[b] in heads && b + size[b] in magic
            && magic[b + size[b]] != Arena
  {
    assert HeaderOk(b, heads, magic, size);
  }

  /** A live block's bytes are outside every other block. */
  lemma BytesOutside(heads: set<int>, magic: map<int, Magic>, size: map<int, int>, tdata: map<int, int>,
                     mem: int -> int, mem': int -> int,
                     h: int, b: int, minblock: int, quantum: int)
    requires Tiled(heads, magic, size) && h in heads && b in heads && h != b && h in magic && b in magic
             && IsBlock(magic[h]) && IsBlock(magic[b])
    requires KemptAt(h, size, tdata, minblock, quantum)
    requires b in size && Outside(mem, mem', b, b + size[b])
    ensures SameBytes(mem, mem', h + BHDR, h + BHDR + UserSize(h, size, tdata))
  {
    assert HeaderOk(h, heads, magic, size) && HeaderOk(b, heads, magic, size);
    assert Apart(h, b, magic, size) && Apart(b, h, magic, size);
  }

  ghost predicate FreeIs(members: set<int>, heads: set<int>, magic: map<int, Magic>) {
    forall h :: h in members <==> h in heads && h in magic && magic[h] == Free
  }

  /** Headers other than those in s are where they were, with their magic and size. */
  ghost predicate OthersSame(heads: set<int>, magic: map<int, Magic>, size: map<int, int>,
                             heads': set<int>, magic': map<int, Magic>, size': map<int, int>, s: set<int>) {
    forall h | h !in s :: (h in heads <==> h in heads') && (h in magic <==> h in magic') && (h in size <==> h in size')
                          && (h in magic ==> magic'[h] == magic[h]) && (h in size ==> size'[h] == size[h])
  }

  /** Block b has its old size, or its end f is a free block now; nothing else has changed but b's magic. */
  ghost predicate Trimmed(heads: set<int>, magic: map<int, Magic>, size: map<int, int>,
                          heads': set<int>, magic': map<int, Magic>, size': map<int, int>, b: int) {
    && b in size && b in size' && size'[b] <= size[b] && b in heads' && b in magic'
    && var f := b + size'[b];
    if size'[b] == size[b] then heads' == heads && OthersSame(heads, magic, size, heads', magic', size', {b})
    else
      && f !in heads && heads' == heads + {f} && f in magic' && magic'[f] == Free && f in size'
      && size'[f] == size[b] - size'[b]
      && OthersSame(heads, magic, size, heads', magic', size', {b, f})
  }

  /** The old headers other than b are still there, with their magic and size. */
  ghost predicate Kept(heads: set<int>, magic: map<int, Magic>, size: map<int, int>,
                       heads': set<int>, magic': map<int, Magic>, size': map<int, int>, b: int) {
    forall h | h in heads && h != b :: h in heads' && (h in magic ==> h in magic' && magic'[h] == magic[h])
                                       && (h in size ==> h in size' && size'[h] == size[h])
  }

  lemma RetaggedKeeps(heads: set<int>, magic: map<int, Magic>, size: map<int, int>, tsize: map<int, int>,
                      tdata: map<int, int>,
                      asize: map<int, int>, magic': map<int, Magic>, b: int, minblock: int, quantum: int)
    requires Tiled(heads, magic, size) && Tagged(heads, magic, size, tsize) && ArenasOk(heads, magic, asize)
    requires KemptOk(heads, magic, size, tdata, minblock, quantum)
    requires b in heads && b in magic && IsBlock(magic[b]) && b in magic' && IsBlock(magic'[b])
             && magic' == magic[b := magic'[b]]
    requires magic'[b] == Kempt ==> KemptAt(b, size, tdata, minblock, quantum)
    ensures Tiled(heads, magic', size) && Tagged(heads, magic', size, tsize) && ArenasOk(heads, magic', asize)
    ensures KemptOk(heads, magic', size, tdata, minblock, quantum) && Arenas(heads, magic') == Arenas(heads, magic)
  {
    RetagTiles(heads, magic, size, tsize, magic', b);
    ArenasStay(heads, magic, heads, magic', asize);
    SameArenaSet(heads, magic, heads, magic');
    forall h {:trigger KemptAt(h, size, tdata, minblock, quantum)} | h in heads && h in magic' && magic'[h] == Kempt
      ensures KemptAt(h, size, tdata, minblock, quantum)
    {
      assert h != b ==> KemptAt(h, size, tdata, minblock, quantum);
    }
  }

  ghost predicate Quiet(heads: set<int>, magic: map<int, Magic>) {
    forall h | h in heads && h in magic :: magic[h] != Unkempt
  }

  /** Some free block has at least m bytes. */
  ghost predicate FitsIn(heads: set<int>, magic: map<int, Magic>, size: map<int, int>, m: int) {
    exists h :: h in heads && h in magic && magic[h] == Free && h in size && size[h] >= m
  }

  /** Block b is not live any more, and only its own bytes have changed. */
  lemma ViewWithout(heads: set<int>, magic: map<int, Magic>, size: map<int, int>, tdata: map<int, int>, mem: int -> int,
                    magic': map<int, Magic>, mem': int -> int, b: int, minblock: int, quantum: int)
    requires Tiled(heads, magic, size) && KemptOk(heads, magic, size, tdata, minblock, quantum)
    requires b in heads && b in magic && IsBlock(magic[b]) && b in size && b in magic' && magic'[b] != Kempt
             && magic' == magic[b := magic'[b]]
    requires Outside(mem, mem', b, b + size[b])
    ensures ViewOf(heads, magic', size, tdata, mem') == ViewOf(heads, magic, size, tdata, mem) - {b}
    ensures magic[b] != Kempt ==> ViewOf(heads, magic', size, tdata, mem') == ViewOf(heads, magic, size, tdata, mem)
  {
    forall h | h in Live(heads, magic') ensures SameBytes(mem, mem', h + BHDR, h + BHDR + UserSize(h, size, tdata)) {
      assert KemptAt(h, size, tdata, minblock, quantum);
      BytesOutside(heads, magic, size, tdata, mem, mem', h, b, minblock, quantum);
    }
    ViewShrinks(heads, magic, size, tdata, mem, heads, magic', size, tdata, mem', {b});
    assert b in ViewOf(heads, magic, size, tdata, mem) <==> magic[b] == Kempt;
  }
}
