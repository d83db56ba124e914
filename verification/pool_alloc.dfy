/**
 poolallocl and poolfreel of lib9/pool.c.
 */
module PoolAlloc {
  import opened PoolArenas
  import opened PoolBlocks
  import opened PoolBooks
  import opened PoolFree
  import opened PoolSizes
  import opened PoolTiles
  import opened PoolTree
  import opened PoolView
  import opened PoolWords

  /** b is free and big enough, and no smaller free block is. */
  ghost predicate Best(p: Pool, b: int, bsize: int)
    reads p
  {
    b in p.FreeBlocks() && b in p.size && p.size[b] >= bsize && forall h | h in p.FreeBlocks() && h in p.size
    && p.size[h] >= bsize :: p.size[h] >= p.size[b]
  }

  /** There is no room for an arena with a block for dsize bytes. */
  ghost predicate NoArena(p: Pool, dsize: nat, at: int)
    reads p
    requires p.Sane()
  {
    p.cursize + Bsize2asize(Dsize2bsize(dsize, p.minblock, p.quantum), p.minarena, p.quantum) > p.maxsize || at == NIL
  }

  /** treelookupgt on the pool: the smallest block that is big enough. */
  method Lookup(p: Pool, bsize: nat) returns (fb: int)
    requires p.Core()
    ensures fb == NIL <==> !Fits(p, bsize)
    ensures fb != NIL ==> Best(p, fb, bsize) && fb > 0
  {
    hide Tiled, Tagged, ArenasOk, Arenas, Listed, KemptOk, Total, Shaped, Ordered, Linked, Rings, Sized,
      Members, BestFit;
    NilIsOut(p.free.tree);
    BestFitIsBest(p.free.tree, p.size, bsize, NIL);
    fb := p.free.Treelookupgt(bsize, p.size);
    if fb != NIL {
      BlockAt(p.heads, p.magic, p.size, fb);
    }
  }

  /** The search of poolallocl, with a new arena if no free block is big enough. */
  method FindBlock(p: Pool, bsize: nat, at: int, up: bool, down: bool) returns (fb: int)
    requires p.Valid() && bsize >= MINBLOCKSIZE
             && (at == NIL || RegionFree(p, at, Bsize2asize(bsize, p.minarena, p.quantum)))
    modifies p`magic, p`size, p`tsize, p`tdata, p`asize, p`mem, p`arenas, p`curfree, p`cursize, p`heads, p.free
    ensures p.Valid() && p.View() == old(p.View()) && (fb != NIL ==> Best(p, fb, bsize) && fb > 0)
    ensures fb == NIL <==> !old(Fits(p, bsize))
                           && (old(p.cursize) + Bsize2asize(bsize, p.minarena, p.quantum) > p.maxsize || at == NIL)
    ensures fb == NIL || old(Fits(p, bsize)) ==> unchanged(p, p.free)
    ensures fb != NIL && !up && !down ==>
              Undisturbed(old(p.heads), old(p.magic), old(p.size), p.heads, p.magic, p.size, fb, bsize)
    ensures !up && !down && fb != NIL && !old(Fits(p, bsize)) ==> fb == at + ARENA && fb !in old(p.heads)
    ensures !up && !down && old(p.Balanced()) ==> p.Balanced()
    ensures !up && !down && old(Coalesced(p.heads, p.magic, p.size)) ==> Coalesced(p.heads, p.magic, p.size)
  {
    hide Pool.Core, ViewOf, Books, Coalesced, RegionFree, FitsIn, Quiet;
    fb := Lookup(p, bsize);
    if fb != NIL {
      UndisturbedSame(p.heads, p.magic, p.size, fb, bsize);
      return;
    }
    fb := Grow(p, bsize, at, up, down);
  }

  /** poolallocl when no free block is big enough. */
  method Grow(p: Pool, bsize: nat, at: int, up: bool, down: bool) returns (fb: int)
    requires p.Valid() && bsize >= MINBLOCKSIZE
             && (at == NIL || RegionFree(p, at, Bsize2asize(bsize, p.minarena, p.quantum)))
    requires !Fits(p, bsize)
    modifies p`magic, p`size, p`tsize, p`tdata, p`asize, p`mem, p`arenas, p`curfree, p`cursize, p`heads, p.free
    ensures p.Valid() && p.View() == old(p.View()) && (fb != NIL ==> Best(p, fb, bsize) && fb > 0)
    ensures fb == NIL <==> old(p.cursize) + Bsize2asize(bsize, p.minarena, p.quantum) > p.maxsize || at == NIL
    ensures fb == NIL ==> unchanged(p, p.free)
    ensures fb != NIL && !up && !down ==>
              Undisturbed(old(p.heads), old(p.magic), old(p.size), p.heads, p.magic, p.size, fb, bsize)
    ensures !up && !down && fb != NIL ==> fb == at + ARENA && fb !in old(p.heads)
    ensures !up && !down && old(p.Balanced()) ==> p.Balanced()
    ensures !up && !down && old(Coalesced(p.heads, p.magic, p.size)) ==> Coalesced(p.heads, p.magic, p.size)
  {
    hide Pool.Core, Tiled, ViewOf, Books, Coalesced, RegionFree, Quiet, Added;
    ghost var heads1, magic1, size1, asize1, alloc1, free1, cur1 := p.heads, p.magic, p.size, p.asize, p.curalloc,
      p.curfree, p.cursize;
    p.CoreTiled();
    p.CoreSane();
    var n := Bsize2asize(bsize, p.minarena, p.quantum);
    Poolnewarena(p, n, at, up, down, bsize);
    fb := Lookup(p, bsize);
    if fb != NIL && !up && !down {
      p.CoreTiled();
      AddedBooks(heads1, magic1, size1, asize1, p.heads, p.magic, p.size, p.asize, alloc1, free1, cur1, at, n);
      AddedFree(heads1, magic1, size1, asize1, p.heads, p.magic, p.size, p.asize, at, n, fb, bsize);
    }
  }

  /** The end of poolallocl: a free block that is big enough becomes the caller's. */
  method Take(p: Pool, fb: int, dsize: nat)
    requires p.Valid() && fb in p.FreeBlocks() && fb in p.size
             && Dsize2bsize(dsize, p.minblock, p.quantum) <= p.size[fb]
    modifies p`magic, p`size, p`tsize, p`tdata, p`mem, p`curfree, p`curalloc, p`heads, p.free
    ensures p.Valid() && fb !in old(p.View()) && fb in p.View() && |p.View()[fb]| == dsize
            && p.View() - {fb} == old(p.View())
    ensures fb in p.size && p.Tight(fb, dsize)
            && Dsize2bsize(dsize, p.minblock, p.quantum) <= p.size[fb] < dsize + 0x10000
    ensures old(p.Balanced()) ==> p.Balanced()
    ensures old(Coalesced(p.heads, p.magic, p.size)) ==> Coalesced(p.heads, p.magic, p.size)
    ensures p.cursize == old(p.cursize) && p.curalloc == old(p.curalloc) + p.size[fb]
    ensures fb in p.heads && Kept(old(p.heads), old(p.magic), old(p.size), p.heads, p.magic, p.size, fb)
            && old(p.heads) <= p.heads
    ensures fb + p.size[fb] in old(p.heads) ==> p.size[fb] == old(p.size)[fb]
  {
    hide Pool.Core, Pool.View, Tiled, Quiet, ViewOf, Outside, Trimmed, Books, Coalesced, Kept, HeaderOk, RoundUp,
      Dsize2bsize, Bytes, Members, IsBlock, UserSize, Live, KemptAt, Arenas, Total, Pool.Roomy;
    p.CoreSane();
    p.CoreTiled();
    ghost var heads1, magic1, size1, alloc1, free1, view1 := p.heads, p.magic, p.size, p.curalloc, p.curfree, p.View();
    p.NotInView(fb);
    p.Pooldel(fb);
    p.Kemb(fb, dsize);
    p.curalloc := p.curalloc + p.size[fb];
    p.CoreTiled();
    TakenBooks(heads1, magic1, size1, p.heads, p.magic, p.size, p.asize, alloc1, free1, p.cursize, fb);
    TakenKept(heads1, magic1, size1, p.heads, p.magic, p.size, fb);
    TookBack(view1, fb, Bytes(old(p.mem), fb + BHDR, dsize));
  }

  /**
   poolallocl: at is what p->alloc returns if a new arena is asked for, up and down what p->merge answers for
   that arena and its neighbours in the arena list, false if there is no p->merge.
   */
  method Poolallocl(p: Pool, dsize: nat, at: int, up: bool, down: bool) returns (v: int)
    requires p.Valid()
             && (at == NIL
                 || RegionFree(p, at, Bsize2asize(Dsize2bsize(dsize, p.minblock, p.quantum), p.minarena, p.quantum)))
    modifies p`magic, p`size, p`tsize, p`tdata, p`asize, p`mem, p`arenas, p`curfree, p`curalloc, p`cursize,
             p`heads, p.free
    ensures p.Valid()
    ensures (v == NIL) == (dsize >= MAXREQUEST
                           || (!old(Fits(p, Dsize2bsize(dsize, p.minblock, p.quantum))) && old(NoArena(p, dsize, at))))
    ensures v == NIL ==> unchanged(p, p.free)
    ensures v != NIL ==> var b := v - BHDR;
              && b !in old(p.View()) && b in p.View() && |p.View()[b]| == dsize && p.View() - {b} == old(p.View())
              && b in p.size && p.Tight(b, dsize)
              && Dsize2bsize(dsize, p.minblock, p.quantum) <= p.size[b] < dsize + 0x10000
    ensures v != NIL && old(Fits(p, Dsize2bsize(dsize, p.minblock, p.quantum))) ==>
              old(Best(p, v - BHDR, Dsize2bsize(dsize, p.minblock, p.quantum)))
    ensures v != NIL && !up && !down ==>
              Undisturbed(old(p.heads), old(p.magic), old(p.size), p.heads, p.magic, p.size, v - BHDR,
                          Dsize2bsize(dsize, p.minblock, p.quantum))
    ensures !up && !down && old(p.Balanced()) ==> p.Balanced()
    ensures !up && !down && old(Coalesced(p.heads, p.magic, p.size)) ==> Coalesced(p.heads, p.magic, p.size)
  {
    hide Pool.Core, Books, ViewOf, Coalesced, RegionFree, FitsIn, Quiet, Undisturbed, Pool.Tight;
    p.CoreSane();
    var bsize := Dsize2bsize(dsize, p.minblock, p.quantum);
    if dsize >= MAXREQUEST {
      return NIL;
    }
    AtLeastMin(dsize, p.minblock, p.quantum);
    var fb := FindBlock(p, bsize, at, up, down);
    if fb == NIL {
      return NIL;
    }
    ghost var heads1, magic1, size1 := p.heads, p.magic, p.size;
    Take(p, fb, dsize);
    if !up && !down {
      UndisturbedTwice(old(p.heads), old(p.magic), old(p.size), heads1, magic1, size1, p.heads, p.magic,
                       p.size, fb, bsize);
    }
    v := fb + BHDR;
  }

  /** The merging part of poolfreel: block ab takes in the free blocks on its two sides. */
  method Absorb(p: Pool, ab: int) returns (m: int, ghost back: int)
    requires p.Core() && ab in p.heads && ab in p.magic && p.magic[ab] == Kempt && ab in p.size
    modifies p`magic, p`size, p`tsize, p`tdata, p`mem, p`curfree, p`heads, p.free
    ensures p.Core() && FreeNeighbours(old(p.heads), old(p.magic), old(p.size), p.heads, p.magic, p.size, back, ab, m)
    ensures p.curfree + p.size[m] == old(p.curfree) + old(p.size)[ab] && p.View() - {m} == old(p.View()) - {ab}
  {
    hide Tiled, Tagged, ArenasOk, Arenas, Listed, KemptOk, Total, ViewOf, FreeTree.Valid, FreeIs, Members, OthersSame,
      HeaderOk, FreeNeighbours;
    ghost var heads0, magic0, size0, view0 := p.heads, p.magic, p.size, p.View();
    BlockAt(p.heads, p.magic, p.size, ab);
    m := ab;
    var back1 := p.Previous(ab);
    back := back1;
    if p.magic[back1] == Free {
      p.NotInView(back1);
      p.Blockmerge(back1, ab);
      m := back1;
    }
    LeftAbsorbed(heads0, magic0, size0, p.heads, p.magic, p.size, back, ab, m);
    LessView(view0, p.View(), back, ab, m);
    ghost var heads1, magic1, size1, view1 := p.heads, p.magic, p.size, p.View();
    BlockAt(p.heads, p.magic, p.size, m);
    var fwd := m + p.size[m];
    if p.magic[fwd] == Free {
      p.NotInView(fwd);
      p.Blockmerge(m, fwd);
      LessView2(view1, p.View(), m, fwd);
    }
    RightAbsorbed(heads0, magic0, size0, heads1, magic1, size1, p.heads, p.magic, p.size, back, ab, m);
  }

  /** poolfreel: block v is given back and merged with its free neighbours. */
  method Poolfreel(p: Pool, v: int)
    requires p.Valid() && (v == NIL || v - BHDR in p.View())
    modifies p`magic, p`size, p`tsize, p`tdata, p`mem, p`curfree, p`curalloc, p`nfree, p`heads, p.free
    ensures p.Valid() && p.View() == (if v == NIL then old(p.View()) else old(p.View()) - {v - BHDR})
    ensures p.cursize == old(p.cursize) && p.nfree == (if v == NIL then old(p.nfree) else old(p.nfree) + 1)
    ensures old(p.Balanced()) ==> p.Balanced()
    ensures old(Coalesced(p.heads, p.magic, p.size)) ==> Coalesced(p.heads, p.magic, p.size)
  {
    hide Pool.Core, Pool.View, ViewOf, Books, Coalesced, KemptAt, UserSize, Bytes, Quiet;
    if v == NIL {
      return;
    }
    var ab := v - BHDR;
    p.InView(ab);
    p.nfree := p.nfree + 1;
    p.curalloc := p.curalloc - p.size[ab];
    Release(p, ab, old(p.curalloc));
  }

  /** Block ab, merged with its free neighbours, joins the free ones. */
  method Release(p: Pool, ab: int, ghost alloc0: int)
    requires p.Valid() && ab in p.View() && ab in p.size && p.curalloc == alloc0 - p.size[ab]
    modifies p`magic, p`size, p`tsize, p`tdata, p`mem, p`curfree, p`heads, p.free
    ensures p.Valid() && p.View() == old(p.View()) - {ab}
    ensures Books(old(p.heads), old(p.magic), old(p.size), p.asize, alloc0, old(p.curfree), p.cursize) ==> p.Balanced()
    ensures old(Coalesced(p.heads, p.magic, p.size)) ==> Coalesced(p.heads, p.magic, p.size)
  {
    hide Pool.Core, Pool.View, Pool.Balanced, Quiet, ViewOf, FreeNeighbours, Books, Coalesced, Tiled, Outside, Members,
      KemptAt, IsBlock, UserSize, Bytes, Live, Arenas, Total, OthersSame, BusyNext;
    p.InView(ab);
    p.CoreTiled();
    ghost var heads0, magic0, size0, free0 := p.heads, p.magic, p.size, p.curfree;
    ghost var back;
    var m;
    m, back := Absorb(p, ab);
    AbsorbedBlock(heads0, magic0, size0, p.heads, p.magic, p.size, back, ab, m);
    ghost var magic1 := p.magic;
    p.Pooladd(m);
    p.CoreTiled();
    FreedBooks(heads0, magic0, size0, p.heads, magic1, p.size, p.magic, p.asize, alloc0, free0, p.cursize, back, ab, m);
    if Books(heads0, magic0, size0, p.asize, alloc0, free0, p.cursize) {
      p.IsBalanced();
    }
  }
}
