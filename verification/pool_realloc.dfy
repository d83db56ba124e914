/**
 poolreallocl of lib9/pool.c.
 */
module PoolRealloc {
  import opened PoolAlloc
  import opened PoolArenas
  import opened PoolBlocks
  import opened PoolBooks
  import opened PoolFree
  import opened PoolGrowth
  import opened PoolSizes
  import opened PoolTiles
  import opened PoolTree
  import opened PoolView
  import opened PoolWords

  /** memmove */
  method Memmove(p: Pool, dst: int, src: int, n: nat)
    modifies p`mem
    ensures Outside(old(p.mem), p.mem, dst, dst + n) && Bytes(p.mem, dst, n) == Bytes(old(p.mem), src, n)
  {
    hide Outside, Moved, Bytes;
    MovedIs(p.mem, dst, src, n);
    MovedOutside(p.mem, dst, src, n);
    p.mem := Moved(p.mem, dst, src, n);
  }

  /** One merge of poolreallocl: block m of a growing block and a free neighbour o become block x. */
  method MergeStep(p: Pool, x: int, y: int, m: int, o: int, ghost g: Growth) returns (ghost g': Growth)
    requires p.Core() && Grown(g, p.heads, p.magic, p.size, m) && GrowthBooks(g, p.curfree, p.size, m, p.View())
    requires ((x == m && y == o) || (x == o && y == m)) && o != m && o in p.heads && o in p.magic && p.magic[o] == Free
    requires x in p.heads && x in p.size && y == x + p.size[x] && y in p.heads && y in p.magic && x in p.magic
             && y in p.size
    requires g.lo >= m + BHDR && g.hi <= m + p.size[m] - BTAIL
    modifies p`magic, p`size, p`tsize, p`tdata, p`mem, p`curfree, p`heads, p.free
    ensures p.Core() && x in p.heads && x in p.magic && x in p.size && p.size[x] == old(p.size)[x] + old(p.size)[y]
    ensures g' == g.(s := g.s + {o}) && Grown(g', p.heads, p.magic, p.size, x)
            && GrowthBooks(g', p.curfree, p.size, x, p.View())
    ensures SameBytes(old(p.mem), p.mem, g.lo, g.hi)
  {
    hide Pool.Core, ViewOf, Outside, OthersSame, Grown;
    ghost var heads1, magic1, size1, view1 := p.heads, p.magic, p.size, p.View();
    GrownBlock(g, p.heads, p.magic, p.size, m);
    p.NotInView(o);
    p.Blockmerge(x, y);
    g' := g.(s := g.s + {o});
    GrownStep(g, heads1, magic1, size1, p.heads, p.magic, p.size, x, y, m, o);
    ViewGrown(g.view - {g.a}, view1, p.View(), x, y, m, o);
  }

  /** The first four cases of poolreallocl: the block is big enough, alone or with its free neighbours. */
  method Enlarge(p: Pool, a: int, nbsize: int) returns (ok: bool, m: int, ghost g: Growth)
    requires p.Core() && a in p.View()
    modifies p`magic, p`size, p`tsize, p`tdata, p`mem, p`curfree, p`heads, p.free
    ensures p.Core() && g.Starts(old(p.heads), old(p.magic), old(p.size), old(p.curfree), old(p.View()), a)
    ensures ok <==> old(Reach(p.magic, p.size, p.tsize, a)) >= nbsize
    ensures !ok ==> unchanged(p, p.free) && NoRoomAround(p.heads, p.magic, p.size, a, nbsize)
    ensures ok ==> Grown(g, p.heads, p.magic, p.size, m) && GrowthBooks(g, p.curfree, p.size, m, p.View())
                   && m in p.size && p.size[m] >= nbsize
    ensures a in old(p.size) && (!ok || m != a ==> nbsize > old(p.size)[a])
    ensures ok ==> SameBytes(old(p.mem), p.mem, a + BHDR, a + BHDR + old(UserSize(a, p.size, p.tdata)))
  {
    hide Pool.Core, ViewOf, Outside, OthersSame, Grown, Bytes, KemptAt, Tiled, NoRoomAround, UserSize, Reach;
    p.InView(a);
    p.CoreTiled();
    BlockAt(p.heads, p.magic, p.size, a);
    var right := a + p.size[a];
    g := Growth(p.heads, p.magic, p.size, p.curfree, p.View(), a, {a}, a + BHDR,
                a + BHDR + UserSize(a, p.size, p.tdata));
    StartGrown(g);
    ReachIs(p, a);
    m, ok := a, true;
    if nbsize <= p.size[a] {
      return;
    }
    p.NextSize(right);
    if p.magic[right] == Free && p.size[a] + p.size[right] >= nbsize {
      g := MergeStep(p, a, right, a, right, g);
      return;
    }
    ok, m, g := EnlargeLeft(p, a, nbsize, right, g);
  }

  /** The left neighbour, alone or with the right one. */
  method EnlargeLeft(p: Pool, a: int, nbsize: int, right: int, ghost g0: Growth)
    returns (ok: bool, m: int, ghost g: Growth)
    requires p.Core() && g0.Starts(p.heads, p.magic, p.size, p.curfree, p.View(), a) && g0.s == {a}
             && Grown(g0, p.heads, p.magic, p.size, a)
    requires a in p.heads && a in p.magic && p.magic[a] == Kempt && a in p.size && p.size[a] < nbsize
             && right == a + p.size[a]
    requires g0.lo >= a + BHDR && g0.hi <= a + p.size[a] - BTAIL
    requires right in p.heads && right in p.magic && right in p.size && right > a
             && (p.magic[right] == Free ==> p.size[a] + p.size[right] < nbsize)
    modifies p`magic, p`size, p`tsize, p`tdata, p`mem, p`curfree, p`heads, p.free
    ensures p.Core() && g.Starts(old(p.heads), old(p.magic), old(p.size), old(p.curfree), old(p.View()), a)
    ensures ok <==> old(Reach(p.magic, p.size, p.tsize, a)) >= nbsize
    ensures !ok ==> unchanged(p, p.free) && NoRoomAround(p.heads, p.magic, p.size, a, nbsize)
    ensures ok ==> Grown(g, p.heads, p.magic, p.size, m) && GrowthBooks(g, p.curfree, p.size, m, p.View())
                   && m in p.size && p.size[m] >= nbsize
    ensures ok ==> SameBytes(old(p.mem), p.mem, g0.lo, g0.hi)
  {
    hide Pool.Core, Pool.View, ViewOf, Outside, OthersSame, Grown, Bytes, KemptAt, Tiled, NoRoomAround, UserSize, Reach;
    ReachIs(p, a);
    p.CoreTiled();
    g, ok, m := g0, true, a;
    var left := p.Previous(a);
    if p.magic[left] == Free && p.size[left] + p.size[a] >= nbsize {
      g := MergeStep(p, left, a, a, left, g);
      m := left;
      return;
    }
    if p.magic[left] == Free && p.magic[right] == Free && p.size[left] + p.size[a] + p.size[right] >= nbsize {
      g := MergeStep(p, left, a, a, left, g);
      StillFree(g, p.heads, p.magic, p.size, left, right);
      g := MergeStep(p, left, right, left, right, g);
      m := left;
      return;
    }
    ok := false;
    NoneAround(p.heads, p.magic, p.size, left, a, nbsize);
  }

  /** What block a and its free neighbours come to. */
  lemma ReachIs(p: Pool, a: int)
    requires p.Core() && a in p.heads && a in p.magic && IsBlock(p.magic[a])
    ensures a in p.size && a in p.tsize && a + p.size[a] in p.size && a - p.tsize[a] in p.size
            && a + p.size[a] in p.magic && a - p.tsize[a] in p.magic
    ensures Reach(p.magic, p.size, p.tsize, a) == p.size[a]
      + (if p.magic[a + p.size[a]] == Free then p.size[a + p.size[a]] else 0)
      + (if p.magic[a - p.tsize[a]] == Free then p.size[a - p.tsize[a]] else 0)
    ensures p.size[a + p.size[a]] >= 0 && p.size[a - p.tsize[a]] >= 0
  {
    hide ArenasOk, Arenas, Listed, KemptOk, Total, FreeTree.Valid, FreeIs;
    assert TagOk(a, p.heads, p.magic, p.size, p.tsize);
    assert HeaderOk(a, p.heads, p.magic, p.size);
    assert HeaderOk(a - p.tsize[a], p.heads, p.magic, p.size);
    assert HeaderOk(a + p.size[a], p.heads, p.magic, p.size);
  }

  /** Returnblock in poolreallocl: block a has room; the data are moved to its start if it grew to the left. */
  method ReturnBlock(p: Pool, a: int, v: int, odsize: nat, obsize: int, ndsize: nat)
    requires p.Core() && a in p.heads && a in p.magic && a in p.size && (p.magic[a] == Unkempt || p.magic[a] == Kempt)
    requires InTransit(p.heads, p.magic, a) && Dsize2bsize(ndsize, p.minblock, p.quantum) <= p.size[a]
    requires v != a + BHDR ==> a + BHDR + odsize <= a + p.size[a] - BTAIL && odsize <= ndsize
    modifies p`magic, p`size, p`tsize, p`tdata, p`mem, p`curfree, p`curalloc, p`heads, p.free
    ensures p.Valid() && a in p.View() && |p.View()[a]| == ndsize && p.View() - {a} == old(p.View()) - {a}
    ensures SamePrefix(p.View()[a], Bytes(old(p.mem), v, odsize))
    ensures Trimmed(old(p.heads), old(p.magic), old(p.size), p.heads, p.magic, p.size, a) && a in p.magic
            && p.magic[a] == Kempt
    ensures a in p.size && p.curfree + p.size[a] == old(p.curfree) + old(p.size)[a]
            && p.curalloc == old(p.curalloc) - obsize + p.size[a]
  {
    hide Pool.Core, ViewOf, Trimmed, Dsize2bsize, RoundUp, Outside, InTransit, Quiet;
    ghost var view0, heads0, magic0, size0 := p.View(), p.heads, p.magic, p.size;
    MoveData(p, a, v, odsize, ndsize);
    ghost var view1, data := p.View(), Bytes(p.mem, a + BHDR, ndsize);
    p.Kemb(a, ndsize);
    p.curalloc := p.curalloc - obsize;
    p.curalloc := p.curalloc + p.size[a];
    TransitEnds(heads0, magic0, size0, p.heads, p.magic, p.size, a);
    WithoutPut(view1, a, data);
  }

  lemma WithoutPut(view: map<int, seq<int>>, a: int, x: seq<int>)
    ensures view[a := x] - {a} == view - {a}
  {
  }

  /**
   poolreallocl: nv has the first bytes of v. at, up and down are what p->alloc and p->merge answer if a new
   arena is asked for.
   */
  method Poolreallocl(p: Pool, v: int, ndsize: nat, at: int, up: bool, down: bool) returns (nv: int)
    requires p.Valid() && (v == NIL || v - BHDR in p.View()) && FitsUlong(ndsize, p.quantum)
    requires at == NIL
             || RegionFree(p, at, Bsize2asize(Dsize2bsize(ndsize, p.minblock, p.quantum), p.minarena, p.quantum))
    modifies p`magic, p`size, p`tsize, p`tdata, p`asize, p`mem, p`arenas, p`curfree, p`curalloc, p`cursize, p`nfree,
             p`heads, p.free
    ensures p.Valid()
    ensures v != NIL && ndsize == 0 ==> nv == NIL && p.View() == old(p.View()) - {v - BHDR}
    ensures !(v != NIL && ndsize == 0) && nv == NIL ==> p.View() == old(p.View())
    ensures (nv == NIL) == ((v != NIL && ndsize == 0) || (
              (v != NIL ==> old(Reach(p.magic, p.size, p.tsize, v - BHDR)) < Dsize2bsize(ndsize, p.minblock, p.quantum))
              && (ndsize >= MAXREQUEST
                  || (!old(Fits(p, Dsize2bsize(ndsize, p.minblock, p.quantum))) && old(NoArena(p, ndsize, at))))))
    ensures v != NIL && ndsize > 0 && v - BHDR in old(p.size)
            && Dsize2bsize(ndsize, p.minblock, p.quantum) <= old(p.size)[v - BHDR] ==>
              nv == v
    ensures nv != NIL ==> nv - BHDR in p.View() && |p.View()[nv - BHDR]| == ndsize
    ensures nv != NIL && v == NIL ==> p.View() - {nv - BHDR} == old(p.View()) && nv - BHDR !in old(p.View())
    ensures nv != NIL && v != NIL ==> p.View() - {nv - BHDR} == old(p.View()) - {v - BHDR}
                                      && SamePrefix(p.View()[nv - BHDR], old(p.View())[v - BHDR])
    ensures !up && !down && old(p.Balanced()) ==> p.Balanced()
  {
    hide Pool.Core, ViewOf, Books, Coalesced, RegionFree, FitsIn, Best, Pool.Tight, Reach, Bytes, KemptAt, Undisturbed,
      Dsize2bsize, Bsize2asize, RoundUp, Quiet;
    if v == NIL {
      nv := Poolallocl(p, ndsize, at, up, down);
      return;
    }
    if ndsize == 0 {
      Poolfreel(p, v);
      return NIL;
    }
    nv := Resize(p, v, ndsize, at, up, down);
  }

  /** poolreallocl of a block to a size other than 0. */
  method Resize(p: Pool, v: int, ndsize: nat, at: int, up: bool, down: bool) returns (nv: int)
    requires p.Valid() && v != NIL && v - BHDR in p.View() && 0 < ndsize
    requires at == NIL
             || RegionFree(p, at, Bsize2asize(Dsize2bsize(ndsize, p.minblock, p.quantum), p.minarena, p.quantum))
    modifies p`magic, p`size, p`tsize, p`tdata, p`asize, p`mem, p`arenas, p`curfree, p`curalloc, p`cursize, p`nfree,
             p`heads, p.free
    ensures p.Valid() && (nv == NIL ==> p.View() == old(p.View()))
    ensures (nv == NIL) == (old(Reach(p.magic, p.size, p.tsize, v - BHDR)) < Dsize2bsize(ndsize, p.minblock, p.quantum)
                            && (ndsize >= MAXREQUEST
                                || (!old(Fits(p, Dsize2bsize(ndsize, p.minblock, p.quantum)))
                                    && old(NoArena(p, ndsize, at)))))
    ensures v - BHDR in old(p.size) && Dsize2bsize(ndsize, p.minblock, p.quantum) <= old(p.size)[v - BHDR] ==> nv == v
    ensures nv != NIL ==> nv - BHDR in p.View() && |p.View()[nv - BHDR]| == ndsize
                          && p.View() - {nv - BHDR} == old(p.View()) - {v - BHDR}
    ensures nv != NIL ==> SamePrefix(p.View()[nv - BHDR], old(p.View())[v - BHDR])
    ensures !up && !down && old(p.Balanced()) ==> p.Balanced()
  {
    hide Pool.Core, ViewOf, Books, Coalesced, RegionFree, FitsIn, Grown, Tiled, Best, Pool.Tight, NoRoomAround, Reach,
      Bytes, KemptAt, Dsize2bsize, Bsize2asize, RoundUp, Quiet, InTransit, Trimmed;
    var a := v - BHDR;
    p.InView(a);
    p.CoreSane();
    p.CoreTiled();
    var odsize, obsize := p.size[a] - p.tdata[a + p.size[a]], p.size[a];
    var nbsize := Dsize2bsize(ndsize, p.minblock, p.quantum);
    ghost var g;
    var ok, m;
    ok, m, g := Enlarge(p, a, nbsize);
    BytesKept(old(p.mem), p.mem, v, odsize);
    if nbsize > obsize {
      Monotone(odsize, ndsize, p.minblock, p.quantum);
    }
    if ok {
      nv := Stay(p, m, v, odsize, obsize, ndsize, g);
      return;
    }
    nv := AllocCopyFree(p, v, odsize, obsize, nbsize, ndsize, at, up, down);
  }

  /** The block, grown or not, is returned. */
  method Stay(p: Pool, m: int, v: int, odsize: nat, obsize: int, ndsize: nat, ghost g: Growth) returns (nv: int)
    requires p.Core() && Quiet(g.heads, g.magic) && Tiled(g.heads, g.magic, g.size)
    requires Grown(g, p.heads, p.magic, p.size, m) && GrowthBooks(g, p.curfree, p.size, m, p.View())
             && obsize == g.size[g.a]
    requires m in p.size && Dsize2bsize(ndsize, p.minblock, p.quantum) <= p.size[m]
    requires v != m + BHDR ==> odsize <= ndsize
    modifies p`magic, p`size, p`tsize, p`tdata, p`mem, p`curfree, p`curalloc, p`heads, p.free
    ensures p.Valid() && nv == m + BHDR && nv != NIL && m in p.View() && |p.View()[m]| == ndsize
            && p.View() - {m} == g.view - {g.a}
    ensures SamePrefix(p.View()[m], Bytes(old(p.mem), v, odsize))
    ensures Books(g.heads, g.magic, g.size, p.asize, old(p.curalloc), g.curfree, p.cursize) ==> p.Balanced()
  {
    hide Pool.Core, ViewOf, Books, Grown, Tiled, Bytes, Dsize2bsize, RoundUp, Quiet, InTransit, Trimmed;
    GrownBlock(g, p.heads, p.magic, p.size, m);
    GrownTransit(g, p.heads, p.magic, p.size, m);
    p.BlockAtCore(m);
    p.CoreSane();
    RoomEnough(ndsize, p.minblock, p.quantum, p.size[m]);
    ghost var heads1, magic1, size1, alloc0 := p.heads, p.magic, p.size, p.curalloc;
    ReturnBlock(p, m, v, odsize, obsize, ndsize);
    p.InView(m);
    ReturnedBooks(g, heads1, magic1, size1, p.heads, p.magic, p.size, p.asize, alloc0, p.curfree, p.cursize, m);
    nv := m + BHDR;
  }

  /** The last part of poolreallocl: a new block, which is merged with the old one if it is next to it; otherwise
      the data are moved there and the old block is given back. Only merged arenas can make the two neighbours. */
  method AllocCopyFree(p: Pool, v: int, odsize: nat, obsize: int, nbsize: int, ndsize: nat, at: int, up: bool,
                       down: bool) returns (nv: int)
    requires p.Valid() && v - BHDR in p.View() && odsize == UserSize(v - BHDR, p.size, p.tdata) <= ndsize
    requires nbsize == Dsize2bsize(ndsize, p.minblock, p.quantum)
             && NoRoomAround(p.heads, p.magic, p.size, v - BHDR, nbsize)
    requires at == NIL || RegionFree(p, at, Bsize2asize(nbsize, p.minarena, p.quantum))
    modifies p`magic, p`size, p`tsize, p`tdata, p`asize, p`mem, p`arenas, p`curfree, p`curalloc, p`cursize, p`nfree,
             p`heads, p.free
    ensures p.Valid()
    ensures nv == NIL ==> p.View() == old(p.View())
    ensures (nv == NIL) == (ndsize >= MAXREQUEST || (!old(Fits(p, nbsize)) && old(NoArena(p, ndsize, at))))
    ensures nv != NIL ==> nv - BHDR in p.View() && |p.View()[nv - BHDR]| == ndsize
                          && p.View() - {nv - BHDR} == old(p.View()) - {v - BHDR}
    ensures nv != NIL ==> SamePrefix(p.View()[nv - BHDR], old(p.View())[v - BHDR])
    ensures !up && !down && old(p.Balanced()) ==> p.Balanced()
  {
    hide Pool.Core, ViewOf, Books, Coalesced, RegionFree, FitsIn, Tiled, Best, Pool.Tight, NoRoomAround, Bytes,
      UserSize, KemptAt, Undisturbed, Dsize2bsize, Bsize2asize, RoundUp, Quiet;
    ghost var heads0, magic0, size0, view0 := p.heads, p.magic, p.size, p.View();
    var a := v - BHDR;
    p.InView(a);
    p.CoreTiled();
    nv := Poolallocl(p, ndsize, at, up, down);
    if nv == NIL {
      return;
    }
    ghost var view1 := p.View();
    var newb := nv - BHDR;
    StillLive(view0, view1, a, newb);
    nv := Settle(p, v, newb, odsize, obsize, ndsize, !up && !down, heads0, magic0, size0);
    WithoutNew(view0, view1, a, newb);
  }

  /** The new block newb is merged with the old one, or takes its data. */
  method Settle(p: Pool, v: int, newb: int, odsize: nat, obsize: int, ndsize: nat,
                ghost calm: bool, ghost heads0: set<int>, ghost magic0: map<int, Magic>, ghost size0: map<int, int>)
                  returns (nv: int)
    requires p.Valid() && v - BHDR in p.View() && newb in p.View() && v - BHDR != newb
             && odsize == |p.View()[v - BHDR]| <= ndsize == |p.View()[newb]|
    requires newb in p.size && Dsize2bsize(ndsize, p.minblock, p.quantum) <= p.size[newb]
    requires calm ==> Tiled(heads0, magic0, size0) && v - BHDR in heads0 && v - BHDR in magic0
                      && IsBlock(magic0[v - BHDR]) && v - BHDR in size0
                      && NoRoomAround(heads0, magic0, size0, v - BHDR, Dsize2bsize(ndsize, p.minblock, p.quantum))
                      && Undisturbed(heads0, magic0, size0, p.heads, p.magic, p.size, newb,
                                     Dsize2bsize(ndsize, p.minblock, p.quantum))
    modifies p`magic, p`size, p`tsize, p`tdata, p`mem, p`curfree, p`curalloc, p`nfree, p`heads, p.free
    ensures p.Valid() && nv != NIL && nv - BHDR in p.View() && |p.View()[nv - BHDR]| == ndsize
    ensures p.View() - {nv - BHDR} == old(p.View()) - {v - BHDR, newb}
            && SamePrefix(p.View()[nv - BHDR], old(p.View())[v - BHDR])
    ensures calm && old(p.Balanced()) ==> p.Balanced()
  {
    hide Pool.Core, ViewOf, Books, Tiled, NoRoomAround, Bytes, UserSize, KemptAt, Undisturbed, Dsize2bsize,
      RoundUp, Quiet;
    var a := v - BHDR;
    p.InView(a);
    p.InView(newb);
    var left := p.Previous(a);
    var right := a + p.size[a];
    if calm {
      NotAdjacent(heads0, magic0, size0, p.heads, p.magic, p.size, a, newb, left,
                  Dsize2bsize(ndsize, p.minblock, p.quantum));
    }
    if left == newb || right == newb {
      nv := MergeNew(p, a, newb, left, odsize, obsize, ndsize);
    } else {
      CopyOver(p, newb, v, odsize);
      nv := newb + BHDR;
    }
  }

  lemma WithoutNew(view0: map<int, seq<int>>, view1: map<int, seq<int>>, a: int, b: int)
    requires view1 - {b} == view0 && b !in view0
    ensures view1 - {a, b} == view0 - {a}
  {
  }

  /** The data go to the new block and the old block is given back. */
  method CopyOver(p: Pool, newb: int, v: int, odsize: nat)
    requires p.Valid() && newb in p.View() && v - BHDR in p.View() && newb != v - BHDR
    requires odsize == |p.View()[v - BHDR]| <= |p.View()[newb]|
    modifies p`magic, p`size, p`tsize, p`tdata, p`mem, p`curfree, p`curalloc, p`nfree, p`heads, p.free
    ensures p.Valid() && newb in p.View() && p.View() - {newb} == old(p.View()) - {v - BHDR, newb}
    ensures |p.View()[newb]| == |old(p.View())[newb]| && SamePrefix(p.View()[newb], old(p.View())[v - BHDR])
    ensures old(p.Balanced()) ==> p.Balanced()
  {
    hide Pool.Core, ViewOf, Books, Coalesced, Bytes, UserSize, KemptAt, Quiet, Tiled, IsBlock, Live, Arenas, Total,
      Members, Tagged, RoundUp, Dsize2bsize, SaneSizes, SamePrefix, HeaderOk, Listed;
    ghost var view0 := p.View();
    p.InView(v - BHDR);
    p.InView(newb);
    Copy(p, newb, v, odsize);
    ghost var view1 := p.View();
    p.InView(newb);
    StillThere(view0, view1, v - BHDR, newb);
    Poolfreel(p, v);
    FreedView(view0, view1, v - BHDR, newb);
  }

  lemma StillThere(view0: map<int, seq<int>>, view1: map<int, seq<int>>, a: int, b: int)
    requires view1 - {b} == view0 - {b} && a in view0 && a != b
    ensures a in view1
  {
    assert a in view0 - {b};
  }

  lemma FreedView(view0: map<int, seq<int>>, view1: map<int, seq<int>>, a: int, b: int)
    requires view1 - {b} == view0 - {b} && b in view1 && a != b
    ensures view1 - {a} - {b} == view0 - {a, b} && b in view1 - {a} && (view1 - {a})[b] == view1[b]
  {
    assert view1 - {a} - {b} == view1 - {b} - {a} && view0 - {a, b} == view0 - {b} - {a};
  }

  /** The new block is next to the old one: the two, and a free block on the other side, become one. */
  method MergeNew(p: Pool, a: int, newb: int, left: int, odsize: nat, obsize: int, ndsize: nat) returns (nv: int)
    requires p.Valid() && a in p.View() && newb in p.View() && a != newb && odsize == |p.View()[a]| <= ndsize
    requires left in p.heads && left in p.magic && left in p.size && left < a && left + p.size[left] == a
             && (p.magic[left] == Arena || IsBlock(p.magic[left]))
    requires a in p.size && newb in p.size && (left == newb || a + p.size[a] == newb)
             && Dsize2bsize(ndsize, p.minblock, p.quantum) <= p.size[newb]
    modifies p`magic, p`size, p`tsize, p`tdata, p`mem, p`curfree, p`curalloc, p`heads, p.free
    ensures p.Valid() && nv != NIL && nv - BHDR in p.View() && |p.View()[nv - BHDR]| == ndsize
    ensures p.View() - {nv - BHDR} == old(p.View()) - {a, newb} && SamePrefix(p.View()[nv - BHDR], old(p.View())[a])
  {
    hide Pool.Core, ViewOf, Bytes, UserSize, KemptAt, Dsize2bsize, RoundUp, Quiet, InTransit, OthersSame,
      Trimmed, Outside;
    p.InView(a);
    var m := JoinNew(p, a, newb, left, odsize);
    RoomEnough(ndsize, p.minblock, p.quantum, p.size[m]);
    p.BlockAtCore(m);
    ReturnBlock(p, m, a + BHDR, odsize, obsize, ndsize);
    nv := m + BHDR;
  }

  /** The merging of MergeNew; m is what has become of the blocks. */
  method JoinNew(p: Pool, a: int, newb: int, left: int, odsize: nat) returns (m: int)
    requires p.Valid() && a in p.View() && newb in p.View() && a != newb && odsize == |p.View()[a]|
    requires left in p.heads && left in p.magic && left in p.size && left < a && left + p.size[left] == a
             && (p.magic[left] == Arena || IsBlock(p.magic[left]))
    requires a in p.size && newb in p.size && (left == newb || a + p.size[a] == newb)
    modifies p`magic, p`size, p`tsize, p`tdata, p`mem, p`curfree, p`heads, p.free
    ensures p.Core() && InTransit(p.heads, p.magic, m) && m in p.heads && m in p.magic && p.magic[m] == Unkempt
            && m in p.size && p.size[m] >= old(p.size)[newb]
    ensures p.View() - {m} == old(p.View()) - {a, newb}
            && Bytes(p.mem, a + BHDR, odsize) == Bytes(old(p.mem), a + BHDR, odsize)
  {
    hide Pool.Core, Pool.View, ViewOf, Bytes, UserSize, KemptAt, Dsize2bsize, RoundUp, Quiet, InTransit, OthersSame,
      Outside, SameBytes;
    ghost var view0, joinl, joinr := p.View(), false, false;
    p.InView(a);
    p.InView(newb);
    RightOf(p, a);
    var v, right := a + BHDR, a + p.size[a];
    QuietTransit(p.heads, p.magic, a);
    NotFreeView(p, left);
    NotFreeView(p, right);
    ghost var heads0, magic0, size0 := p.heads, p.magic, p.size;
    m, joinl := JoinIf(p, left, a, a, left, newb, v, odsize);
    OtherStays(heads0, magic0, size0, p.heads, p.magic, p.size, {left, a}, right);
    ghost var view1 := p.View();
    m, joinr := JoinIf(p, m, right, m, right, newb, v, odsize);
    NewMerged(view0, view1, p.View(), a, newb, left, right, m, joinl, joinr);
  }

  /** Block a, which is growing, is x or y, and o is the other one: they are merged if o is the new block or free. */
  method JoinIf(p: Pool, x: int, y: int, a: int, o: int, newb: int, ghost lo: int, ghost n: nat)
    returns (m: int, ghost joined: bool)
    requires p.Core() && InTransit(p.heads, p.magic, a) && ((x == a && y == o) || (x == o && y == a)) && a != o
    requires x in p.heads && x in p.magic && x in p.size && y == x + p.size[x] && y in p.heads && y in p.magic
             && y in p.size
    requires a in p.magic && IsBlock(p.magic[a]) && p.magic[a] != Free && a + BHDR <= lo
             && lo + n <= a + p.size[a] - BTAIL
    requires o == newb ==> IsBlock(p.magic[o])
    modifies p`magic, p`size, p`tsize, p`tdata, p`mem, p`curfree, p`heads, p.free
    ensures joined == (o == newb || old(p.magic)[o] == Free) && m == if joined then x else a
    ensures p.Core() && InTransit(p.heads, p.magic, m) && m in p.heads && m in p.magic && IsBlock(p.magic[m])
            && p.magic[m] != Free && m in p.size
    ensures joined ==> p.magic[m] == Unkempt && p.size[m] == old(p.size)[x] + old(p.size)[y]
    ensures !joined ==> unchanged(p, p.free)
    ensures OthersSame(old(p.heads), old(p.magic), old(p.size), p.heads, p.magic, p.size, {x, y})
    ensures p.View() == (if joined then old(p.View()) - {x, y} else old(p.View()))
            && Bytes(p.mem, lo, n) == old(Bytes(p.mem, lo, n))
  {
    hide Pool.Core, ViewOf, InTransit, Outside, Bytes;
    m, joined := a, false;
    if o == newb || p.magic[o] == Free {
      assert a in {x, y} && o in {x, y};
      Join(p, x, y, a, lo, n);
      m, joined := x, true;
    }
  }

  lemma RightOf(p: Pool, a: int)
    requires p.Core() && a in p.heads && a in p.magic && IsBlock(p.magic[a]) && a in p.size
    ensures var r := a + p.size[a];
            r in p.heads && r in p.magic && r in p.size && p.magic[r] != Arena && r > a && p.size[r] >= 0
            && p.size[a] >= MINBLOCKSIZE
  {
    assert HeaderOk(a, p.heads, p.magic, p.size);
    assert HeaderOk(a + p.size[a], p.heads, p.magic, p.size);
  }

  lemma OtherStays(heads: set<int>, magic: map<int, Magic>, size: map<int, int>, heads': set<int>,
                   magic': map<int, Magic>, size': map<int, int>,
                   s: set<int>, h: int)
    requires OthersSame(heads, magic, size, heads', magic', size', s) && h !in s && h in heads && h in magic
             && h in size
    ensures h in heads' && h in magic' && magic'[h] == magic[h] && h in size' && size'[h] == size[h]
  {
  }

  lemma NotFreeView(p: Pool, h: int)
    ensures h in p.magic && p.magic[h] == Free ==> h !in p.View()
  {
  }

  lemma RoomEnough(ndsize: nat, minblock: int, quantum: int, n: int)
    requires quantum >= 1 && minblock >= 0 && Dsize2bsize(ndsize, minblock, quantum) <= n
    ensures ndsize + BHDR + BTAIL <= n
  {
  }

  /** blockmerge of a growing block a and its neighbour; the caller's bytes lo..hi stay. */
  method Join(p: Pool, x: int, y: int, ghost a: int, ghost lo: int, ghost n: nat)
    requires p.Core() && InTransit(p.heads, p.magic, a) && a in {x, y}
    requires x in p.heads && x in p.magic && IsBlock(p.magic[x]) && x in p.size && y == x + p.size[x] && y in p.heads
             && y in p.magic && IsBlock(p.magic[y]) && y in p.size
    requires p.magic[a] != Free && a + BHDR <= lo && lo + n <= a + p.size[a] - BTAIL
    modifies p`magic, p`size, p`tsize, p`tdata, p`mem, p`curfree, p`heads, p.free
    ensures p.Core() && InTransit(p.heads, p.magic, x) && x in p.heads && x in p.magic && p.magic[x] == Unkempt
    ensures x in p.size && p.size[x] == old(p.size)[x] + old(p.size)[y] && p.heads == old(p.heads) - {y}
    ensures OthersSame(old(p.heads), old(p.magic), old(p.size), p.heads, p.magic, p.size, {x, y})
    ensures p.View() == old(p.View()) - {x, y} && Bytes(p.mem, lo, n) == old(Bytes(p.mem, lo, n))
  {
    hide Pool.Core, ViewOf, OthersSame, InTransit, Outside, Bytes;
    ghost var heads0, magic0, size0 := p.heads, p.magic, p.size;
    RightOf(p, x);
    RightOf(p, y);
    ghost var mem0 := p.mem;
    p.Blockmerge(x, y);
    BytesKept(mem0, p.mem, lo, n);
    MergedTransit(heads0, magic0, size0, p.heads, p.magic, p.size, x, y, a);
  }

  lemma NewMerged(view0: map<int, seq<int>>, view1: map<int, seq<int>>, view2: map<int, seq<int>>,
                  a: int, newb: int, left: int, right: int, m: int, joinl: bool, joinr: bool)
    requires view1 == (if joinl then view0 - {left, a} else view0)
             && view2 == (if joinr then view1 - {m, right} else view1)
    requires m == (if joinl then left else a) && ((newb == left && joinl) || (newb == right && joinr))
    requires (joinl && left != newb ==> left !in view0) && (joinr && right != newb ==> right !in view0)
    ensures view2 - {m} == view0 - {a, newb}
  {
    forall h ensures h in view2 - {m} <==> h in view0 - {a, newb} {
    }
  }

  /** memmove(nv, v, odsize) from one live block to another. */
  method Copy(p: Pool, b: int, v: int, n: nat)
    requires p.Core() && b in p.View() && n <= UserSize(b, p.size, p.tdata) && v != b + BHDR
    modifies p`mem
    ensures p.Core() && p.View() - {b} == old(p.View()) - {b} && b in p.View()
    ensures SamePrefix(p.View()[b], Bytes(old(p.mem), v, n)) && |p.View()[b]| == |old(p.View())[b]|
  {
    hide Pool.Core, ViewOf, KemptAt;
    p.InView(b);
    ghost var view0, mem0 := p.View(), p.mem;
    Memmove(p, b + BHDR, v, n);
    MovedView(p, view0, mem0, b, n);
    MovedBytes(mem0, p.mem, b + BHDR, v, n, UserSize(b, p.size, p.tdata));
    p.LiveInView(b);
    p.InView(b);
  }

  /** The memmove of Returnblock. */
  method MoveData(p: Pool, a: int, v: int, odsize: nat, ndsize: nat)
    requires p.Core() && a in p.heads && a in p.magic && IsBlock(p.magic[a]) && a in p.size
    requires v != a + BHDR ==> a + BHDR + odsize <= a + p.size[a] - BTAIL && odsize <= ndsize
    modifies p`mem
    ensures p.View() - {a} == old(p.View()) - {a}
    ensures SamePrefix(Bytes(p.mem, a + BHDR, ndsize), Bytes(old(p.mem), v, odsize))
  {
    hide Pool.Core, ViewOf;
    ghost var view0, mem0 := p.View(), p.mem;
    if v != a + BHDR {
      Memmove(p, a + BHDR, v, odsize);
      MovedView(p, view0, mem0, a, odsize);
    }
    MovedBytes(mem0, p.mem, a + BHDR, v, odsize, ndsize);
  }

  /** Moving bytes within block a leaves the other live blocks as they were. */
  lemma MovedView(p: Pool, view0: map<int, seq<int>>, mem0: int -> int, a: int, n: nat)
    requires p.Core() && a in p.heads && a in p.magic && IsBlock(p.magic[a]) && a in p.size
             && view0 == ViewOf(p.heads, p.magic, p.size, p.tdata, mem0)
    requires Outside(mem0, p.mem, a + BHDR, a + BHDR + n) && n <= p.size[a] - BHDR - BTAIL
    ensures p.View() - {a} == view0 - {a}
  {
    hide Tagged, ArenasOk, Arenas, Listed, FreeTree.Valid, FreeIs, Total, Members;
    var v := p.View();
    assert v.Keys == Live(p.heads, p.magic) && view0.Keys == Live(p.heads, p.magic);
    forall h | h in v && h != a ensures v[h] == view0[h] {
      assert KemptAt(h, p.size, p.tdata, p.minblock, p.quantum);
      BytesOutside(p.heads, p.magic, p.size, p.tdata, mem0, p.mem, h, a, p.minblock, p.quantum);
    }
  }
}
