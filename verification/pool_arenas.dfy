/**
 New arenas in lib9/pool.c: poolnewarena.
 */
module PoolArenas {
  import opened PoolBlocks
  import opened PoolBooks
  import opened PoolBridge
  import opened PoolFree
  import opened PoolSizes
  import opened PoolTiles
  import opened PoolTree
  import opened PoolView
  import opened PoolWords

  ghost predicate Fits(p: Pool, bsize: int)
    reads p
  {
    FitsIn(p.heads, p.magic, p.size, bsize)
  }

  /** The region that p->alloc returns belongs to no arena. */
  ghost predicate RegionFree(p: Pool, at: int, n: int)
    reads p
  {
    at > 0 && Unused(p.heads, p.magic, p.size, at, n)
    && forall c | c in p.heads && c in p.magic && p.magic[c] == Arena && c in p.asize ::
         c + p.asize[c] <= at || at + n <= c
  }

  /** Arena a belongs at place i of the list, which goes from the highest arena down. */
  ghost predicate PlaceOf(list: seq<int>, a: int, i: nat) {
    && i <= |list| && (forall j | 0 <= j < i :: list[j] > a) && forall j | i <= j < |list| :: list[j] < a
  }

  /** The list with arena a at place i, joined with the one above and the one below, of which there is nothing left but
      the lower one's place. */
  function WithArena(list: seq<int>, a: int, i: nat, up: bool, down: bool): seq<int>
    requires i <= |list|
  {
    list[..if up && i > 0 then i - 1 else i] + (if down && i < |list| then [] else [a]) + list[i..]
  }

  /** The header words of a new arena with one block in it. */
  method StoreArena(p: Pool, a: int, n: int)
    requires n >= ARENA + MINBLOCKSIZE + BHDR
    modifies p`magic, p`size, p`tsize, p`asize, p`heads
    ensures Opened(old(p.heads), old(p.magic), old(p.size), old(p.tsize), p.heads, p.magic, p.size, p.tsize, a, n)
            && p.asize == old(p.asize)[a := n]
  {
    p.magic := p.magic[a := Arena];
    p.size, p.tsize := p.size[a := ARENA], p.tsize[a + ARENA := ARENA];
    p.asize := p.asize[a := n];
    var t := a + n - BHDR;
    p.magic, p.size := p.magic[t := ArenaTail], p.size[t := 0];
    var b := a + p.size[a];
    p.magic := p.magic[b := Unkempt];
    p.size, p.tsize := p.size[b := t - b], p.tsize[t := t - b];
    p.heads := p.heads + {a, b, t};
  }

  /** The arena is written and, here already, entered in the arena list. */
  method OpenArena(p: Pool, a: int, n: int) returns (i: nat)
    requires p.Core() && n >= ARENA + MINBLOCKSIZE + BHDR && RegionFree(p, a, n)
    modifies p`magic, p`size, p`tsize, p`asize, p`mem, p`heads, p`arenas
    ensures p.Core() && {a, a + ARENA, a + n - BHDR} !! old(p.heads) && p.View() == old(p.View())
            && p.asize == old(p.asize)[a := n]
    ensures OthersSame(old(p.heads), old(p.magic), old(p.size), p.heads, p.magic, p.size, {a, a + ARENA, a + n - BHDR})
    ensures IsOpened(p.heads, p.magic, p.size, a, n) && i < |p.arenas| && p.arenas[i] == a
    ensures PlaceOf(old(p.arenas), a, i) && p.arenas == WithArena(old(p.arenas), a, i, false, false)
  {
    hide Tiled, Tagged, ArenasOk, Arenas, Listed, KemptOk, ViewOf, Total, Shaped, Ordered, Linked, Rings, Sized,
      Members, FreeTree.Valid, FreeIs, OthersSame, Opened, Unused;
    ghost var heads1, magic1, size1, tsize1, mem1, asize1 := p.heads, p.magic, p.size, p.tsize, p.mem, p.asize;
    p.Scribble(a, a + n);
    StoreArena(p, a, n);
    OpenTiles(heads1, magic1, size1, tsize1, p.heads, p.magic, p.size, p.tsize, a, n);
    OpenArenas(heads1, magic1, size1, tsize1, p.heads, p.magic, p.size, p.tsize, asize1, a, n);
    OpenedView(heads1, magic1, size1, tsize1, p.tdata, mem1, p.heads, p.magic, p.size, p.tsize, p.mem, a, n,
               p.minblock, p.quantum);
    OpenedFree(Members(p.free.tree), heads1, magic1, size1, tsize1, p.heads, p.magic, p.size, p.tsize, a, n);
    OpenedSet(heads1, magic1, size1, tsize1, p.heads, p.magic, p.size, p.tsize, a, n);
    p.FreeKept(heads1, magic1, size1, p.heads, p.magic, p.size, {a, a + ARENA, a + n - BHDR});
    i := List(p, a, Arenas(heads1, magic1));
  }

  /** The sorted arena list takes arena a. */
  method List(p: Pool, a: int, ghost arenas: set<int>) returns (i: nat)
    requires Listed(p.arenas, arenas) && a !in arenas
    modifies p`arenas
    ensures Listed(p.arenas, arenas + {a}) && i < |p.arenas| && p.arenas[i] == a
    ensures PlaceOf(old(p.arenas), a, i) && p.arenas == WithArena(old(p.arenas), a, i, false, false)
  {
    i := 0;
    while i < |p.arenas| && p.arenas[i] > a
      invariant i <= |p.arenas| && forall j | 0 <= j < i :: p.arenas[j] > a
    {
      i := i + 1;
    }
    assert i < |p.arenas| ==> p.arenas[i] in p.arenas;
    ListedWith(p.arenas, i, arenas, a);
    p.arenas := p.arenas[..i] + [a] + p.arenas[i..];
  }

  /** The first part of poolnewarena: an arena of one free block. */
  method AddArena(p: Pool, n: int, at: int) returns (i: nat)
    requires p.Core() && n >= ARENA + MINBLOCKSIZE + BHDR && RegionFree(p, at, n)
    modifies p`magic, p`size, p`tsize, p`asize, p`mem, p`curfree, p`cursize, p`heads, p`arenas, p.free
    ensures p.Core() && p.View() == old(p.View()) && i < |p.arenas| && p.arenas[i] == at
    ensures PlaceOf(old(p.arenas), at, i) && p.arenas == WithArena(old(p.arenas), at, i, false, false)
    ensures Added(old(p.heads), old(p.magic), old(p.size), old(p.asize), p.heads, p.magic, p.size, p.asize, at, n)
    ensures p.cursize == old(p.cursize) + n && p.curfree == old(p.curfree) + n - ARENA - BHDR
  {
    hide Tiled, Tagged, ArenasOk, Arenas, Listed, KemptOk, Total, FreeTree.Valid, FreeIs, ViewOf, OthersSame, Members;
    ghost var heads1, magic1, size1 := p.heads, p.magic, p.size;
    i := OpenArena(p, at, n);
    p.cursize := p.cursize + n;
    ghost var magic2 := p.magic;
    p.Pooladd(at + ARENA);
    OpenedOthers(heads1, magic1, size1, p.heads, magic2, p.size, p.magic, at, n);
  }

  // ---- arenamerge ---------------------------------------------------------------------------------------

  /** The words that make two arenas one: block b of the lower one reaches up to the first block of the upper one. */
  method StoreBridge(p: Pool, i: nat, b: int)
    requires i + 1 < |p.arenas| && p.arenas[i] in p.asize && p.arenas[i + 1] in p.asize && p.arenas[i] in p.size
             && p.size[p.arenas[i]] == ARENA
    modifies p`size, p`tsize, p`asize, p`heads, p`arenas
    ensures BridgeWords(old(p.heads), old(p.size), old(p.tsize), old(p.asize), p.heads, p.size, p.tsize, p.asize,
                        old(p.arenas)[i + 1], old(p.arenas)[i], b)
    ensures p.arenas == old(p.arenas)[..i] + old(p.arenas)[i + 1..]
  {
    var top, bot := p.arenas[i], p.arenas[i + 1];
    p.arenas := p.arenas[..i] + p.arenas[i + 1..];
    var btop := top + p.size[top];
    p.heads := p.heads - {bot + p.asize[bot] - BHDR, top};
    p.asize := p.asize[bot := p.asize[top] + (top - bot)];
    p.size := p.size[bot + p.asize[bot] - BHDR := 0];
    p.size, p.tsize := p.size[b := btop - b], p.tsize[btop := btop - b];
  }

  /** The bytes between block b and btop, and b's header, are overwritten. */
  method ScribbleBridge(p: Pool, b: int, bsize: int, btop: int, ghost n: nat)
    requires BHDR + n <= bsize && b + bsize <= btop
    modifies p`mem
    ensures Outside(old(p.mem), p.mem, b, btop) && Bytes(p.mem, b + BHDR, n) == old(Bytes(p.mem, b + BHDR, n))
  {
    p.Scribble(b + bsize, btop);
    p.Scribble(b, b + BHDR);
  }

  /** The first n bytes of block b's data stay. */
  method Bridge(p: Pool, i: nat, b: int, ghost n: nat)
    requires p.Core() && i + 1 < |p.arenas|
             && Adjoining(p.arenas[i + 1], p.arenas[i], b, p.heads, p.magic, p.size, p.asize) && p.magic[b] == Unkempt
    requires BHDR + n <= p.size[b]
    modifies p`size, p`tsize, p`asize, p`mem, p`heads, p`arenas
    ensures p.Core() && p.View() == old(p.View()) && p.arenas == old(p.arenas)[..i] + old(p.arenas)[i + 1..]
    ensures Bridged(old(p.heads), p.magic, old(p.size), old(p.asize), p.heads, p.size, old(p.arenas)[i + 1],
                    old(p.arenas)[i], b)
    ensures Bytes(p.mem, b + BHDR, n) == old(Bytes(p.mem, b + BHDR, n))
  {
    hide Tiled, Tagged, ArenasOk, Arenas, Listed, KemptOk, ViewOf, Total, Shaped, Ordered, Linked, Rings, Sized,
      Members, FreeTree.Valid, FreeIs, OthersSame, BridgeWords, Adjoining, Outside, Bytes;
    ghost var heads1, size1, tsize1, asize1, mem1, list1 := p.heads, p.size, p.tsize, p.asize, p.mem, p.arenas;
    ghost var top, bot := p.arenas[i], p.arenas[i + 1];
    BridgeSizes(p.heads, p.magic, p.size, p.asize, bot, top, b);
    var btop := p.arenas[i] + p.size[p.arenas[i]];
    ScribbleBridge(p, b, p.size[b], btop, n);
    StoreBridge(p, i, b);
    BridgeTiled(heads1, p.magic, size1, tsize1, asize1, p.heads, p.size, p.tsize, p.asize, bot, top, b);
    BridgeTagged(heads1, p.magic, size1, tsize1, asize1, p.heads, p.size, p.tsize, p.asize, bot, top, b);
    BridgeArenas(heads1, p.magic, size1, tsize1, asize1, p.heads, p.size, p.tsize, p.asize, bot, top, b);
    UnlistedIs(list1, i, Arenas(heads1, p.magic));
    BridgeView(heads1, p.magic, size1, tsize1, asize1, p.tdata, mem1, p.heads, p.size, p.tsize, p.asize, p.mem, bot,
               top, b, p.minblock, p.quantum);
    BridgeFree(Members(p.free.tree), heads1, p.magic, size1, tsize1, asize1, p.heads, p.size, p.tsize, p.asize,
               bot, top, b);
    p.FreeKept(heads1, p.magic, size1, p.heads, p.magic, p.size, {b, bot + asize1[bot] - BHDR, top});
  }

  /** blockgrow of a free block: it leaves the free blocks, grows, and comes back, with the block after it if that is
      free. */
  method GrowFree(p: Pool, i: nat, b: int, ghost m: int)
    requires p.Valid() && i + 1 < |p.arenas|
             && Adjoining(p.arenas[i + 1], p.arenas[i], b, p.heads, p.magic, p.size, p.asize) && p.magic[b] == Free
    modifies p`magic, p`size, p`tsize, p`tdata, p`asize, p`mem, p`arenas, p`curfree, p`heads, p.free
    ensures p.Valid() && p.View() == old(p.View()) && p.arenas == old(p.arenas)[..i] + old(p.arenas)[i + 1..]
    ensures old(Fits(p, m)) ==> Fits(p, m)
  {
    hide Pool.Core, ViewOf, OthersSame, Adjoining, Bridged, Rejoined, Outside, SameBytes;
    ghost var heads0, magic0, size0, asize0, bot, top := p.heads, p.magic, p.size, p.asize, p.arenas[i + 1],
      p.arenas[i];
    CoreBridge(p, i, b);
    var btop := p.arenas[i] + p.size[p.arenas[i]];
    p.Pooldel(b);
    AdjoiningStays(bot, top, b, p.heads, magic0, p.magic, p.size, p.asize);
    Bridge(p, i, b, 0);
    BridgedBlock(heads0, p.magic, size0, asize0, p.heads, p.size, bot, top, b);
    ghost var heads1, magic1, size1 := p.heads, p.magic, p.size;
    Rejoin(p, b, btop);
    FreeGrown(heads0, magic0, size0, asize0, heads1, magic1, size1, p.heads, p.magic, p.size, bot, top, b, m);
  }

  /** The end of blockgrow of a free block. */
  method Rejoin(p: Pool, b: int, bnxt: int)
    requires p.Core() && b in p.heads && b in p.magic && p.magic[b] == Unkempt && b in p.size && bnxt == b + p.size[b]
    requires bnxt in p.heads && bnxt in p.magic && IsBlock(p.magic[bnxt])
    modifies p`magic, p`size, p`tsize, p`tdata, p`mem, p`curfree, p`heads, p.free
    ensures p.Core() && p.View() == old(p.View())
    ensures Rejoined(old(p.heads), old(p.magic), old(p.size), p.heads, p.magic, p.size, b, bnxt)
  {
    hide Pool.Core, ViewOf, Outside, SameBytes;
    p.CoreTiled();
    BlockAt(p.heads, p.magic, p.size, bnxt);
    BlockAt(p.heads, p.magic, p.size, b);
    if p.magic[bnxt] == Free {
      p.NotInView(b);
      p.NotInView(bnxt);
      p.Blockmerge(b, bnxt);
    }
    p.Pooladd(b);
  }

  lemma CoreBridge(p: Pool, i: nat, b: int)
    requires p.Core() && i + 1 < |p.arenas|
             && Adjoining(p.arenas[i + 1], p.arenas[i], b, p.heads, p.magic, p.size, p.asize)
    ensures p.arenas[i + 1] in p.asize && p.arenas[i] in p.asize && p.arenas[i] in p.size
            && p.size[p.arenas[i]] == ARENA
    ensures b in p.size && b in p.magic && b in p.heads && b + p.size[b] <= p.arenas[i] + ARENA
            && p.size[b] >= MINBLOCKSIZE
  {
    BridgeSizes(p.heads, p.magic, p.size, p.asize, p.arenas[i + 1], p.arenas[i], b);
  }

  /** blockgrow of a live block: its bytes stay, and kemb cuts off what the caller does not need. */
  method GrowLive(p: Pool, i: nat, b: int, ghost m: int)
    requires p.Valid() && i + 1 < |p.arenas|
             && Adjoining(p.arenas[i + 1], p.arenas[i], b, p.heads, p.magic, p.size, p.asize) && p.magic[b] == Kempt
    modifies p`magic, p`size, p`tsize, p`tdata, p`asize, p`mem, p`arenas, p`curfree, p`heads, p.free
    ensures p.Valid() && p.View() == old(p.View()) && p.arenas == old(p.arenas)[..i] + old(p.arenas)[i + 1..]
    ensures old(Fits(p, m)) ==> Fits(p, m)
  {
    hide Pool.Core, ViewOf, OthersSame, Adjoining, Bridged, Outside, Bytes, UserSize, KemptAt, Trimmed,
      Dsize2bsize, RoundUp;
    ghost var heads0, magic0, size0, asize0, bot, top, view0 := p.heads, p.magic, p.size, p.asize, p.arenas[i + 1],
      p.arenas[i], p.View();
    CoreBridge(p, i, b);
    p.LiveInView(b);
    p.InView(b);
    NeedsNoMore(b, p.size, p.tdata, p.minblock, p.quantum);
    var dsize := p.size[b] - p.tdata[b + p.size[b]];
    p.Unkemp(b);
    AdjoiningStays(bot, top, b, p.heads, magic0, p.magic, p.size, p.asize);
    Bridge(p, i, b, dsize);
    BridgedBlock(heads0, p.magic, size0, asize0, p.heads, p.size, bot, top, b);
    ghost var heads1, magic1, size1 := p.heads, p.magic, p.size;
    PutBackSame(view0, b, Bytes(p.mem, b + BHDR, dsize));
    p.Kemb(b, dsize);
    LiveGrown(heads0, magic0, size0, asize0, heads1, magic1, size1, p.heads, p.magic, p.size, bot, top, b, m);
  }

  lemma NeedsNoMore(b: int, size: map<int, int>, tdata: map<int, int>, minblock: int, quantum: int)
    requires KemptAt(b, size, tdata, minblock, quantum)
    ensures b in size && b + size[b] in tdata && quantum >= 1 && minblock >= 0
    ensures var dsize := size[b] - tdata[b + size[b]];
            dsize == UserSize(b, size, tdata) >= 0 && Dsize2bsize(dsize, minblock, quantum) <= size[b]
            && dsize <= size[b] - BHDR - BTAIL
  {
  }

  lemma PutBackSame(view: map<int, seq<int>>, b: int, x: seq<int>)
    requires b in view && view[b] == x
    ensures (view - {b})[b := x] == view
  {
  }

  /** arenamerge: merge is what p->merge answers for two arenas next to each other in the list, false if there is
      none. */
  method Arenamerge(p: Pool, i: nat, merge: bool, ghost m: int) returns (merged: bool)
    requires p.Valid() && i + 1 < |p.arenas|
    modifies p`magic, p`size, p`tsize, p`tdata, p`asize, p`mem, p`arenas, p`curfree, p`heads, p.free
    ensures p.Valid() && p.View() == old(p.View()) && merged == merge && (!merge ==> unchanged(p, p.free))
    ensures p.arenas == if merge then old(p.arenas)[..i] + old(p.arenas)[i + 1..] else old(p.arenas)
    ensures old(Fits(p, m)) ==> Fits(p, m)
  {
    hide Pool.Core, Fits, Adjoining;
    if !merge {
      return false;
    }
    var bot := p.arenas[i + 1];
    BottomTail(p, i);
    var bbot := p.Previous(bot + p.asize[bot] - BHDR);
    LastBlock(p, i, bbot);
    if p.magic[bbot] == Free {
      GrowFree(p, i, bbot, m);
    } else {
      GrowLive(p, i, bbot, m);
    }
    merged := true;
  }

  lemma BottomTail(p: Pool, i: nat)
    requires p.Core() && i + 1 < |p.arenas|
    ensures p.arenas[i + 1] in p.asize
    ensures var t := p.arenas[i + 1] + p.asize[p.arenas[i + 1]] - BHDR;
            t in p.heads && t in p.magic && p.magic[t] == ArenaTail
  {
    assert p.arenas[i + 1] in p.arenas;
    assert ArenaOk(p.arenas[i + 1], p.heads, p.magic, p.asize);
  }

  lemma LastBlock(p: Pool, i: nat, b: int)
    requires p.Valid() && i + 1 < |p.arenas| && p.arenas[i + 1] in p.asize && b in p.heads && b in p.magic
             && b in p.size
    requires (p.magic[b] == Arena || IsBlock(p.magic[b]))
             && b + p.size[b] == p.arenas[i + 1] + p.asize[p.arenas[i + 1]] - BHDR
    ensures Adjoining(p.arenas[i + 1], p.arenas[i], b, p.heads, p.magic, p.size, p.asize)
            && (p.magic[b] == Free || p.magic[b] == Kempt)
  {
    var top, bot := p.arenas[i], p.arenas[i + 1];
    NothingBetween(p.arenas, i, p.heads, p.magic, p.size, p.tsize, p.asize);
    LastIsBlock(bot, b, p.heads, p.magic, p.size, p.asize);
  }

  /**
   poolnewarena: at is what p->alloc returns, up and down what p->merge answers for the new arena with the
   arenas above and below it, false if there is no p->merge. Compaction is off.
   */
  method Poolnewarena(p: Pool, n: int, at: int, up: bool, down: bool, ghost m: int)
    requires p.Valid() && n >= ARENA + MINBLOCKSIZE + BHDR && (at == NIL || RegionFree(p, at, n))
    modifies p`magic, p`size, p`tsize, p`tdata, p`asize, p`mem, p`arenas, p`curfree, p`cursize, p`heads, p.free
    ensures p.Valid() && p.View() == old(p.View())
    ensures var failed := old(p.cursize) + n > p.maxsize || at == NIL;
            if failed then unchanged(p, p.free)
            else p.cursize == old(p.cursize) + n && (old(Fits(p, m)) || m <= n - ARENA - BHDR ==> Fits(p, m))
                 && (!up && !down ==>
                       Added(old(p.heads), old(p.magic), old(p.size), old(p.asize), p.heads, p.magic, p.size,
                             p.asize, at, n)
                                      && p.curfree == old(p.curfree) + n - ARENA - BHDR)
    ensures !(old(p.cursize) + n > p.maxsize || at == NIL) ==>
              exists i :: PlaceOf(old(p.arenas), at, i) && p.arenas == WithArena(old(p.arenas), at, i, up, down)
  {
    hide Pool.Core, ViewOf, FitsIn, Added, Quiet, RegionFree;
    if p.cursize + n > p.maxsize || at == NIL {
      return;
    }
    ghost var heads1, magic1, size1, asize1 := p.heads, p.magic, p.size, p.asize;
    ghost var list := p.arenas;
    var i := AddArena(p, n, at);
    ghost var k := i;
    AddedFits(heads1, magic1, size1, asize1, p.heads, p.magic, p.size, p.asize, at, n, m);
    if i > 0 {
      var merged := Arenamerge(p, i - 1, up, m);
      if merged {
        i := i - 1;
      }
    }
    assert p.arenas == WithArena(list, at, k, up, false);
    if i + 1 < |p.arenas| {
      var merged := Arenamerge(p, i, down, m);
    }
    assert PlaceOf(list, at, k) && p.arenas == WithArena(list, at, k, up, down);
  }
}
