/**
 Two arenas become one (lib9/pool.c: arenamerge, blockgrow): the last block of the lower arena grows over
 the lower arena's tail, what lies between the arenas, and the upper arena's header.
 */
module PoolBridge {
  import opened PoolSizes
  import opened PoolTiles
  import opened PoolView

  ghost function Lower(h: int, heads: set<int>): set<int> {
    set g | g in heads && g < h
  }

  /** Every header is in an arena: walking back from tail to tail ends at its header. */
  lemma {:induction false} InArena(h: int, heads: set<int>, magic: map<int, Magic>, size: map<int, int>,
                                   tsize: map<int, int>, asize: map<int, int>)
    returns (a: int)
    requires Tiled(heads, magic, size) && Tagged(heads, magic, size, tsize) && ArenasOk(heads, magic, asize)
             && h in heads
    ensures a in Arenas(heads, magic) && a in asize && a <= h <= a + asize[a] - BHDR
    decreases Lower(h, heads)
  {
    assert HeaderOk(h, heads, magic, size);
    if magic[h] == Arena {
      a := h;
      assert ArenaOk(a, heads, magic, asize);
    } else {
      assert TagOk(h, heads, magic, size, tsize);
      var p := h - tsize[h];
      assert HeaderOk(p, heads, magic, size);
      assert p in Lower(h, heads) && p !in Lower(p, heads);
      a := InArena(p, heads, magic, size, tsize, asize);
      assert ArenaOk(a, heads, magic, asize);
      assert Apart(p, a + asize[a] - BHDR, magic, size);
    }
  }

  /** Arenas do not overlap. */
  lemma ArenasApart(a: int, c: int, heads: set<int>, magic: map<int, Magic>, size: map<int, int>, asize: map<int, int>)
    requires Tiled(heads, magic, size) && ArenasOk(heads, magic, asize) && a in Arenas(heads, magic)
             && c in Arenas(heads, magic) && a < c
    ensures a in asize && a + asize[a] <= c
  {
    assert ArenaOk(a, heads, magic, asize) && HeaderOk(c, heads, magic, size);
    assert Apart(a + asize[a] - BHDR, c, magic, size);
  }

  /** The two arenas, with nothing between them, and the last block b of the lower one. */
  ghost predicate Adjoining(bot: int, top: int, b: int, heads: set<int>, magic: map<int, Magic>, size: map<int, int>,
                            asize: map<int, int>) {
    && bot in Arenas(heads, magic) && top in Arenas(heads, magic) && bot < top && bot in asize && top in asize
    && b in heads && b in magic && IsBlock(magic[b]) && b in size && b + size[b] == bot + asize[bot] - BHDR
    && bot < b
    && forall h | h in heads :: !(bot + asize[bot] - BHDR < h < top)
  }

  /** No header lies between arenas that are next to each other in the arena list. */
  lemma NothingBetween(list: seq<int>, i: nat, heads: set<int>, magic: map<int, Magic>, size: map<int, int>,
                       tsize: map<int, int>, asize: map<int, int>)
    requires Tiled(heads, magic, size) && Tagged(heads, magic, size, tsize) && ArenasOk(heads, magic, asize)
    requires Listed(list, Arenas(heads, magic)) && i + 1 < |list|
    ensures list[i] in Arenas(heads, magic) && list[i + 1] in Arenas(heads, magic) && list[i + 1] in asize
            && list[i] in asize
    ensures forall h | h in heads :: !(list[i + 1] + asize[list[i + 1]] - BHDR < h < list[i])
  {
    hide Tiled, Tagged, ArenasOk;
    var top, bot := list[i], list[i + 1];
    assert top in list && bot in list;
    ArenasApart(bot, top, heads, magic, size, asize);
    TopSize(top, heads, magic, asize);
    TopSize(bot, heads, magic, asize);
    forall h | h in heads ensures !(bot + asize[bot] - BHDR < h < top) {
      var a := InArena(h, heads, magic, size, tsize, asize);
      var j :| 0 <= j < |list| && list[j] == a;
      if a < bot {
        ArenasApart(a, bot, heads, magic, size, asize);
      }
      assert (j < i ==> list[j] > list[i]) && (j > i + 1 ==> list[i + 1] > list[j]);
    }
  }

  lemma TopSize(a: int, heads: set<int>, magic: map<int, Magic>, asize: map<int, int>)
    requires ArenasOk(heads, magic, asize) && a in Arenas(heads, magic)
    ensures a in asize && asize[a] >= BHDR
  {
    assert ArenaOk(a, heads, magic, asize);
  }

  /** The words that arenasetsize and blocksetsize store. */
  ghost predicate BridgeWords(heads: set<int>, size: map<int, int>, tsize: map<int, int>, asize: map<int, int>,
                              heads': set<int>, size': map<int, int>, tsize': map<int, int>, asize': map<int, int>,
                              bot: int, top: int, b: int) {
    && bot in asize && top in asize
    && heads' == heads - {bot + asize[bot] - BHDR, top}
    && size' == size[top + asize[top] - BHDR := 0][b := top + ARENA - b]
    && tsize' == tsize[top + ARENA := top + ARENA - b]
    && asize' == asize[bot := top + asize[top] - bot]
  }

  lemma BridgeFacts(heads: set<int>, magic: map<int, Magic>, size: map<int, int>, asize: map<int, int>, bot: int,
                    top: int, b: int)
    requires Tiled(heads, magic, size) && ArenasOk(heads, magic, asize)
             && Adjoining(bot, top, b, heads, magic, size, asize)
    ensures var t, t' := bot + asize[bot] - BHDR, top + asize[top] - BHDR;
            && t in heads && t in magic && magic[t] == ArenaTail && t < top && t' in heads && t' in magic
            && magic[t'] == ArenaTail
            && t' in size && size[t'] == 0 && top + ARENA <= t' && top + ARENA in heads && top + ARENA in magic
            && IsBlock(magic[top + ARENA])
            && size[b] >= MINBLOCKSIZE && b > 0 && top in magic && magic[top] == Arena && bot in magic
            && magic[bot] == Arena
  {
    assert ArenaOk(bot, heads, magic, asize) && ArenaOk(top, heads, magic, asize);
    assert HeaderOk(top, heads, magic, size) && HeaderOk(b, heads, magic, size)
           && HeaderOk(top + asize[top] - BHDR, heads, magic, size);
    var t := bot + asize[bot] - BHDR;
    assert Apart(t, top, magic, size) && Apart(top, top + asize[top] - BHDR, magic, size);
    assert HeaderOk(top + ARENA, heads, magic, size);
    ArenasApart(bot, top, heads, magic, size, asize);
  }

  lemma BridgeTiled(heads: set<int>, magic: map<int, Magic>, size: map<int, int>, tsize: map<int, int>,
                    asize: map<int, int>,
                    heads': set<int>, size': map<int, int>, tsize': map<int, int>, asize': map<int, int>, bot: int,
                    top: int, b: int)
    requires Tiled(heads, magic, size) && ArenasOk(heads, magic, asize)
             && Adjoining(bot, top, b, heads, magic, size, asize)
    requires BridgeWords(heads, size, tsize, asize, heads', size', tsize', asize', bot, top, b)
    ensures Tiled(heads', magic, size')
  {
    hide ArenasOk;
    BridgeFacts(heads, magic, size, asize, bot, top, b);
    var t := bot + asize[bot] - BHDR;
    assert HeaderOk(b, heads, magic, size) && HeaderOk(top, heads, magic, size);
    forall h {:trigger HeaderOk(h, heads', magic, size')} | h in heads' ensures HeaderOk(h, heads', magic, size') {
      assert HeaderOk(h, heads, magic, size);
      if h != b && magic[h] != ArenaTail && h + size[h] == t {
        SameEnd(heads, magic, size, h, b);
      }
    }
    forall h, g {:trigger Apart(h, g, magic, size')} | h in heads' && g in heads' ensures Apart(h, g, magic, size') {
      assert Apart(h, g, magic, size) && Apart(top, g, magic, size);
      assert HeaderOk(h, heads, magic, size) && HeaderOk(g, heads, magic, size);
    }
  }

  lemma BridgeTagged(heads: set<int>, magic: map<int, Magic>, size: map<int, int>, tsize: map<int, int>,
                     asize: map<int, int>,
                     heads': set<int>, size': map<int, int>, tsize': map<int, int>, asize': map<int, int>, bot: int,
                     top: int, b: int)
    requires Tiled(heads, magic, size) && Tagged(heads, magic, size, tsize) && ArenasOk(heads, magic, asize)
    requires Adjoining(bot, top, b, heads, magic, size, asize)
    requires BridgeWords(heads, size, tsize, asize, heads', size', tsize', asize', bot, top, b)
    ensures Tagged(heads', magic, size', tsize')
  {
    hide ArenasOk, Tiled;
    BridgeFacts(heads, magic, size, asize, bot, top, b);
    HeaderAt(heads, magic, size, top);
    forall h {:trigger TagOk(h, heads', magic, size', tsize')} | h in heads' && h in magic && magic[h] != Arena
      ensures TagOk(h, heads', magic, size', tsize')
    {
      assert TagOk(h, heads, magic, size, tsize);
    }
  }

  lemma HeaderAt(heads: set<int>, magic: map<int, Magic>, size: map<int, int>, h: int)
    requires Tiled(heads, magic, size) && h in heads
    ensures HeaderOk(h, heads, magic, size)
  {
  }

  lemma BridgeArenas(heads: set<int>, magic: map<int, Magic>, size: map<int, int>, tsize: map<int, int>,
                     asize: map<int, int>,
                     heads': set<int>, size': map<int, int>, tsize': map<int, int>, asize': map<int, int>, bot: int,
                     top: int, b: int)
    requires Tiled(heads, magic, size) && ArenasOk(heads, magic, asize)
             && Adjoining(bot, top, b, heads, magic, size, asize)
    requires BridgeWords(heads, size, tsize, asize, heads', size', tsize', asize', bot, top, b)
    ensures ArenasOk(heads', magic, asize') && Arenas(heads', magic) == Arenas(heads, magic) - {top}
  {
    hide Tiled;
    BridgeFacts(heads, magic, size, asize, bot, top, b);
    var t := bot + asize[bot] - BHDR;
    assert ArenaOk(bot, heads, magic, asize) && ArenaOk(top, heads, magic, asize);
    forall c {:trigger ArenaOk(c, heads', magic, asize')} | c in heads' && c in magic && magic[c] == Arena
      ensures ArenaOk(c, heads', magic, asize')
    {
      assert ArenaOk(c, heads, magic, asize);
    }
    forall a ensures a in Arenas(heads', magic) <==> a in Arenas(heads, magic) - {top} {
    }
  }

  /** The arena list without the upper arena. */
  lemma UnlistedIs(list: seq<int>, i: nat, arenas: set<int>)
    requires Listed(list, arenas) && i < |list|
    ensures Listed(list[..i] + list[i + 1..], arenas - {list[i]})
  {
    var l, top := list[..i] + list[i + 1..], list[i];
    forall a ensures a in l <==> a in arenas - {top} {
      if a in list && a != top {
        var j :| 0 <= j < |list| && list[j] == a;
        assert l[if j < i then j else j - 1] == a;
      }
      if a in l {
        var j :| 0 <= j < |l| && l[j] == a;
        assert list[if j < i then j else j + 1] == a;
      }
    }
  }

  /** The arena list with a new arena. */
  lemma ListedWith(list: seq<int>, i: nat, arenas: set<int>, a: int)
    requires Listed(list, arenas) && i <= |list| && a !in arenas && (forall j | 0 <= j < i :: list[j] > a)
             && (i < |list| ==> list[i] < a)
    ensures Listed(list[..i] + [a] + list[i..], arenas + {a})
  {
    var l := list[..i] + [a] + list[i..];
    assert list == list[..i] + list[i..];
    forall c ensures c in l <==> c in arenas + {a} {
      assert c in list <==> c in list[..i] || c in list[i..];
    }
    Descending(list, i, a);
  }

  lemma Descending(list: seq<int>, i: nat, a: int)
    requires (forall j, k | 0 <= j < k < |list| :: list[j] > list[k]) && i <= |list|
    requires (forall j | 0 <= j < i :: list[j] > a) && (i < |list| ==> list[i] < a)
    ensures var l := list[..i] + [a] + list[i..]; forall j, k | 0 <= j < k < |l| :: l[j] > l[k]
  {
    var l := list[..i] + [a] + list[i..];
    assert forall j | 0 <= j < |l| :: l[j] == if j < i then list[j] else if j == i then a else list[j - 1];
    forall j, k | 0 <= j < k < |l| ensures l[j] > l[k] {
      assert i < k - 1 ==> list[i] > list[k - 1];
    }
  }

  /** The callers' bytes when block b, which is not live, has grown. */
  lemma BridgeView(heads: set<int>, magic: map<int, Magic>, size: map<int, int>, tsize: map<int, int>,
                   asize: map<int, int>, tdata: map<int, int>, mem: int -> int,
                   heads': set<int>, size': map<int, int>, tsize': map<int, int>, asize': map<int, int>,
                   mem': int -> int, bot: int, top: int, b: int,
                   minblock: int, quantum: int)
    requires Tiled(heads, magic, size) && ArenasOk(heads, magic, asize)
             && Adjoining(bot, top, b, heads, magic, size, asize)
    requires BridgeWords(heads, size, tsize, asize, heads', size', tsize', asize', bot, top, b)
    requires KemptOk(heads, magic, size, tdata, minblock, quantum) && Tiled(heads', magic, size')
    requires magic[b] == Unkempt && Outside(mem, mem', b, top + ARENA)
    ensures KemptOk(heads', magic, size', tdata, minblock, quantum)
    ensures ViewOf(heads', magic, size', tdata, mem') == ViewOf(heads, magic, size, tdata, mem)
  {
    hide Tiled, ArenasOk;
    BridgeFacts(heads, magic, size, asize, bot, top, b);
    forall h {:trigger KemptAt(h, size', tdata, minblock, quantum)} | h in heads' && h in magic && magic[h] == Kempt
      ensures KemptAt(h, size', tdata, minblock, quantum)
    {
      assert KemptAt(h, size, tdata, minblock, quantum);
    }
    forall h ensures h in Live(heads', magic) <==> h in Live(heads, magic) - {} {
    }
    assert Live(heads', magic) == Live(heads, magic) - {};
    forall h | h in Live(heads', magic)
      ensures UserSize(h, size', tdata) == UserSize(h, size, tdata)
      ensures SameBytes(mem, mem', h + BHDR, h + BHDR + UserSize(h, size, tdata))
    {
      assert KemptAt(h, size', tdata, minblock, quantum);
      BytesOutside(heads', magic, size', tdata, mem, mem', h, b, minblock, quantum);
    }
    ViewShrinks(heads, magic, size, tdata, mem, heads', magic, size', tdata, mem', {});
  }

  lemma BridgeFree(members: set<int>, heads: set<int>, magic: map<int, Magic>, size: map<int, int>,
                   tsize: map<int, int>, asize: map<int, int>,
                   heads': set<int>, size': map<int, int>, tsize': map<int, int>, asize': map<int, int>, bot: int,
                   top: int, b: int)
    requires Tiled(heads, magic, size) && ArenasOk(heads, magic, asize)
             && Adjoining(bot, top, b, heads, magic, size, asize)
    requires BridgeWords(heads, size, tsize, asize, heads', size', tsize', asize', bot, top, b)
    requires FreeIs(members, heads, magic) && magic[b] == Unkempt
    ensures FreeIs(members, heads', magic) && members !! {b, bot + asize[bot] - BHDR, top}
    ensures Bridged(heads, magic, size, asize, heads', size', bot, top, b)
  {
    hide Tiled, ArenasOk;
    BridgeFacts(heads, magic, size, asize, bot, top, b);
    var t, t', btop := bot + asize[bot] - BHDR, top + asize[top] - BHDR, top + ARENA;
    BlockAt(heads, magic, size, btop);
    assert forall h | h in magic && h in heads && h !in {t, top} :: h in heads';
  }

  /** What the rest of the pool sees of it. */
  ghost predicate Bridged(heads: set<int>, magic: map<int, Magic>, size: map<int, int>, asize: map<int, int>,
                          heads': set<int>, size': map<int, int>,
                          bot: int, top: int, b: int) {
    && bot in asize
    && var t, btop := bot + asize[bot] - BHDR, top + ARENA;
    && heads' == heads - {t, top} && {b, btop} <= heads' && {b, btop, t, top} <= magic.Keys && {b, btop} <= size'.Keys
    && b in size
    && magic[t] == ArenaTail && magic[top] == Arena && IsBlock(magic[btop]) && b < btop
    && size'[b] == btop - b && size'[b] >= size[b] && OthersSame(heads, magic, size, heads', magic, size', {b, t, top})
  }

  lemma BridgeSizes(heads: set<int>, magic: map<int, Magic>, size: map<int, int>, asize: map<int, int>, bot: int,
                    top: int, b: int)
    requires Tiled(heads, magic, size) && ArenasOk(heads, magic, asize)
             && Adjoining(bot, top, b, heads, magic, size, asize)
    ensures bot in asize && top in asize && top in size && size[top] == ARENA && b in size && b in magic && b in heads
    ensures b + size[b] <= top + ARENA && size[b] >= MINBLOCKSIZE
  {
    BridgeFacts(heads, magic, size, asize, bot, top, b);
    assert HeaderOk(top, heads, magic, size);
  }

  /** A change of b's word of magic does not matter. */
  lemma AdjoiningStays(bot: int, top: int, b: int, heads: set<int>, magic: map<int, Magic>, magic': map<int, Magic>,
                       size: map<int, int>, asize: map<int, int>)
    requires Adjoining(bot, top, b, heads, magic, size, asize) && magic' == magic[b := Unkempt]
    ensures Adjoining(bot, top, b, heads, magic', size, asize)
  {
    forall a ensures a in Arenas(heads, magic') <==> a in Arenas(heads, magic) {
    }
  }

  lemma BridgedBlock(heads: set<int>, magic: map<int, Magic>, size: map<int, int>, asize: map<int, int>,
                     heads': set<int>, size': map<int, int>,
                     bot: int, top: int, b: int)
    requires Bridged(heads, magic, size, asize, heads', size', bot, top, b)
    ensures {b, top + ARENA} <= heads' && {b, top + ARENA} <= magic.Keys && {b, top + ARENA} <= size'.Keys
    ensures b + size'[b] == top + ARENA && IsBlock(magic[top + ARENA]) && b in size && size'[b] >= size[b]
  {
  }

  /** Block b is free now, with the block after it if that is free. */
  ghost predicate Rejoined(heads: set<int>, magic: map<int, Magic>, size: map<int, int>,
                           heads': set<int>, magic': map<int, Magic>, size': map<int, int>, b: int, next: int) {
    && {b, next} <= magic.Keys && {b, next} <= size.Keys && b in heads' && b in magic' && magic'[b] == Free
    && b in size' && size[next] >= 0
    && OthersSame(heads, magic, size, heads', magic', size', {b, next})
    && if magic[next] == Free then heads' == heads - {next} && size'[b] == size[b] + size[next]
       else heads' == heads && magic' == magic[b := Free] && size' == size
  }

  /** After blockgrow of a free block: nothing is in transit, and what fitted still fits. */
  lemma FreeGrown(heads0: set<int>, magic0: map<int, Magic>, size0: map<int, int>, asize0: map<int, int>,
                  heads1: set<int>, magic1: map<int, Magic>, size1: map<int, int>,
                  heads': set<int>, magic': map<int, Magic>, size': map<int, int>, bot: int, top: int, b: int, m: int)
    requires Quiet(heads0, magic0) && b in magic0 && magic0[b] == Free && magic1 == magic0[b := Unkempt]
    requires Bridged(heads0, magic1, size0, asize0, heads1, size1, bot, top, b)
    requires Rejoined(heads1, magic1, size1, heads', magic', size', b, top + ARENA)
    ensures Quiet(heads', magic') && (FitsIn(heads0, magic0, size0, m) ==> FitsIn(heads', magic', size', m))
  {
    var btop := top + ARENA;
    var t := bot + asize0[bot] - BHDR;
    forall h | h in heads' && h in magic' ensures magic'[h] != Unkempt {
      assert h !in {b, btop} ==> h in heads1 && h in magic1;
      assert h !in {b, t, top} && h in heads1 ==> h in heads0 && h in magic0;
    }
    if FitsIn(heads0, magic0, size0, m) {
      var h :| h in heads0 && h in magic0 && magic0[h] == Free && h in size0 && size0[h] >= m;
      if h == b || h == btop {
        assert size'[b] >= m;
      } else {
        assert h !in {b, t, top};
      }
    }
  }

  /** After blockgrow of a live block, which kemb has trimmed again. */
  lemma LiveGrown(heads0: set<int>, magic0: map<int, Magic>, size0: map<int, int>, asize0: map<int, int>,
                  heads1: set<int>, magic1: map<int, Magic>, size1: map<int, int>,
                  heads': set<int>, magic': map<int, Magic>, size': map<int, int>, bot: int, top: int, b: int, m: int)
    requires Quiet(heads0, magic0) && b in magic0 && magic0[b] == Kempt && magic1 == magic0[b := Unkempt]
    requires Bridged(heads0, magic1, size0, asize0, heads1, size1, bot, top, b)
    requires Trimmed(heads1, magic1, size1, heads', magic', size', b) && magic'[b] == Kempt
    ensures Quiet(heads', magic') && (FitsIn(heads0, magic0, size0, m) ==> FitsIn(heads', magic', size', m))
  {
    var t, f := bot + asize0[bot] - BHDR, b + size'[b];
    forall h | h in heads' && h in magic' ensures magic'[h] != Unkempt {
      assert h !in {b, f} ==> h in heads1 && h in magic1;
      assert h !in {b, t, top} && h in heads1 ==> h in heads0 && h in magic0;
    }
    if FitsIn(heads0, magic0, size0, m) {
      var h :| h in heads0 && h in magic0 && magic0[h] == Free && h in size0 && size0[h] >= m;
      assert h !in {b, t, top};
      assert h in heads1;
    }
  }

  /** What ends at an arena's tail is a block of the arena. */
  lemma LastIsBlock(bot: int, b: int, heads: set<int>, magic: map<int, Magic>, size: map<int, int>,
                    asize: map<int, int>)
    requires Tiled(heads, magic, size) && ArenasOk(heads, magic, asize) && bot in Arenas(heads, magic) && bot in asize
    requires b in heads && b in magic && b in size && (magic[b] == Arena || IsBlock(magic[b]))
             && b + size[b] == bot + asize[bot] - BHDR
    ensures bot < b && IsBlock(magic[b])
  {
    assert ArenaOk(bot, heads, magic, asize) && HeaderOk(b, heads, magic, size) && HeaderOk(bot, heads, magic, size);
    assert Apart(b, bot, magic, size);
  }
}
