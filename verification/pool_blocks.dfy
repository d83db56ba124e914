/**
 The blocks of a pool (lib9/pool.c): the free ones, merging, trimming. What a caller sees is the map from each
 live block to the bytes the caller has in it.
 */
module PoolBlocks {
  import opened PoolBooks
  import opened PoolFree
  import opened PoolSizes
  import opened PoolTiles
  import opened PoolTree
  import opened PoolView
  import opened PoolWords

  class Pool {
    const quantum: int
    const minblock: int
    const minarena: int
    const maxsize: int
    /** What overwritten bytes hold that no one may look at. */
    const junk: int -> int
    const free: FreeTree

    var magic: map<int, Magic>   // Bhdr.magic by header address
    var size: map<int, int>      // Bhdr.size by header address
    var tsize: map<int, int>     // Btail.size by the address where the tail ends
    var tdata: map<int, int>     // Btail.datasize, likewise
    var asize: map<int, int>     // Arena.asize
    var mem: int -> int          // the bytes of memory
    var curfree: int
    var curalloc: int
    var cursize: int
    var nfree: int
    var arenas: seq<int>         // arenalist, by descending address
    ghost var heads: set<int>

    /** A pool with no arenas yet. */
    constructor (quantum: int, minblock: int, minarena: int, maxsize: int, junk: int -> int)
      requires SaneSizes(minblock, quantum)
      ensures Valid() && Balanced() && fresh(free) && View() == map[] && cursize == 0 && Coalesced(heads, magic, size)
      ensures this.quantum == quantum && this.minblock == minblock && this.minarena == minarena
              && this.maxsize == maxsize
    {
      this.quantum, this.minblock, this.minarena, this.maxsize, this.junk := quantum, minblock, minarena, maxsize, junk;
      free := new FreeTree();
      magic, size, tsize, tdata, asize, mem := map[], map[], map[], map[], map[], junk;
      curfree, curalloc, cursize, nfree, heads, arenas := 0, 0, 0, 0, {}, [];
    }

    ghost predicate Sane() {
      SaneSizes(minblock, quantum)
    }

    /** What holds between the steps of an operation. */
    ghost predicate Core()
      reads this`heads, this`magic, this`size, this`tsize, this`tdata, this`asize, this`arenas, this`curfree, free
    {
      && Sane() && Tiled(heads, magic, size) && Tagged(heads, magic, size, tsize) && ArenasOk(heads, magic, asize)
      && free.Valid(size) && FreeIs(Members(free.tree), heads, magic)
      && KemptOk(heads, magic, size, tdata, minblock, quantum) && Listed(arenas, Arenas(heads, magic))
      && curfree == Total(Members(free.tree), size)
    }

    ghost function View(): map<int, seq<int>>
      reads this`heads, this`magic, this`size, this`tdata, this`mem
    {
      ViewOf(heads, magic, size, tdata, mem)
    }

    /** A store to the bytes lo..hi that hold no caller's data: their values are not modelled. Stores of links
        and words into other free blocks and into arena headers, where no caller has a byte, are left out. */
    method Scribble(lo: int, hi: int)
      modifies this`mem
      ensures Outside(old(mem), mem, lo, hi)
    {
      var m := mem;
      mem := x => if lo <= x < hi then junk(x) else m(x);
    }

    /** pooladd: a block joins the free ones. */
    method Pooladd(b: int)
      requires Core() && b in heads && b in magic && (magic[b] == Unkempt || magic[b] == Kempt)
      modifies this`magic, this`mem, this`curfree, free
      ensures Core() && b in size && magic == old(magic)[b := Free] && curfree == old(curfree) + size[b]
      ensures Members(free.tree) == Members(old(free.tree)) + {b} && View() == old(View()) - {b}
      ensures old(magic)[b] == Unkempt ==> View() == old(View())
      ensures Outside(old(mem), mem, b, b + BHDR + 16)
    {
      hide Tiled, Tagged, ArenasOk, Arenas, Listed, KemptOk, ViewOf, Total, Shaped, Ordered, Linked, Rings,
        Sized, Members;
      BlockAt(heads, magic, size, b);
      ghost var magic0, members0 := magic, Members(free.tree);
      AddKeeps(free.tree, size[b], b);
      magic := magic[b := Free];
      free.Pooladd(b, size);
      curfree := curfree + size[b];
      Scribble(b, b + BHDR + 16);
      TotalPlus(members0, size, b);
      RetaggedKeeps(heads, magic0, size, tsize, tdata, asize, magic, b, minblock, quantum);
      ViewWithout(heads, magic0, size, tdata, old(mem), magic, mem, b, minblock, quantum);
    }

    /** pooldel: a free block is taken out. */
    method Pooldel(b: int)
      requires Core() && b in heads && b in magic && magic[b] == Free
      modifies this`magic, this`mem, this`curfree, free
      ensures Core() && b in size && magic == old(magic)[b := Unkempt] && curfree == old(curfree) - size[b]
      ensures Members(free.tree) == Members(old(free.tree)) - {b} && View() == old(View())
      ensures Outside(old(mem), mem, b, b + BHDR + 16)
    {
      hide Tiled, Tagged, ArenasOk, Arenas, Listed, KemptOk, ViewOf, Total, Shaped, Ordered, Linked, Rings,
        Sized, Members;
      BlockAt(heads, magic, size, b);
      ghost var magic0, members0 := magic, Members(free.tree);
      free.Pooldel(b, size);
      curfree := curfree - size[b];
      Scribble(b, b + BHDR + 16);
      magic := magic[b := Unkempt];
      TotalMinus(members0, size, b);
      RetaggedKeeps(heads, magic0, size, tsize, tdata, asize, magic, b, minblock, quantum);
      ViewWithout(heads, magic0, size, tdata, old(mem), magic, mem, b, minblock, quantum);
    }

    /** blockmerge: the headers, tails and links of the two blocks are overwritten, the data between them are not. */
    method Blockmerge(a: int, b: int)
      requires Core() && a in heads && a in magic && IsBlock(magic[a]) && a in size && b == a + size[a]
      requires b in magic && IsBlock(magic[b])
      modifies this`magic, this`size, this`tsize, this`tdata, this`mem, this`curfree, this`heads, free
      ensures Core() && b in old(size) && heads == old(heads) - {b} && a in size
              && size[a] == old(size)[a] + old(size)[b]
      ensures a in magic && magic[a] == Unkempt
              && OthersSame(old(heads), old(magic), old(size), heads, magic, size, {a, b})
      ensures curfree == old(curfree) - (if old(magic)[a] == Free then old(size)[a]
                                         else 0) - (if old(magic)[b] == Free then old(size)[b] else 0)
      ensures View() == old(View()) - {a, b}
      ensures Outside(old(mem), mem, a, a + size[a])
      ensures old(magic)[a] != Free ==> SameBytes(old(mem), mem, a + BHDR, b - BTAIL)
      ensures old(magic)[b] != Free ==> SameBytes(old(mem), mem, b + BHDR, a + size[a] - BTAIL)
    {
      hide Tiled, Tagged, ArenasOk, Arenas, Listed, KemptOk, ViewOf, Total, Shaped, Ordered, Linked, Rings, Sized,
        Members, FreeTree.Valid, FreeIs;
      BlockAt(heads, magic, size, a);
      BlockAt(heads, magic, size, b);
      ghost var view0 := View();
      if magic[a] == Free {
        Pooldel(a);
      }
      if magic[b] == Free {
        Pooldel(b);
      }
      JoinBlocks(a, b);
    }

    /** The bytes of the headers and tails of two adjacent blocks. */
    method ScribbleEnds(a: int, b: int)
      requires a in size && b in size && b == a + size[a] && size[a] >= MINBLOCKSIZE && size[b] >= MINBLOCKSIZE
      modifies this`mem
      ensures Outside(old(mem), mem, a, b + size[b])
      ensures SameBytes(old(mem), mem, a + BHDR, b - BTAIL) && SameBytes(old(mem), mem, b + BHDR, b + size[b] - BTAIL)
    {
      Scribble(b - BTAIL, b);
      Scribble(b + size[b] - BTAIL, b + size[b]);
      Scribble(b, b + BHDR);
      Scribble(a, a + BHDR);
    }

    /** The words that blockmerge stores. */
    method StoreMerge(a: int, b: int)
      requires a in heads && a in magic && IsBlock(magic[a]) && a in size && b == a + size[a] && b in magic
               && IsBlock(magic[b]) && b in size
      modifies this`magic, this`size, this`tsize, this`tdata, this`heads
      ensures MergeWords(old(heads), old(magic), old(size), old(tsize), old(tdata), heads, magic, size, tsize,
                         tdata, a, b)
    {
      tsize, tdata := tsize[b := POISON], tdata[b := SLACK_POISON];
      size := size[a := size[a] + size[b]];
      tsize, tdata := tsize[a + size[a] := size[a]], tdata[a + size[a] := 0xFFFF];
      size, magic := size[b := SIZE_POISON], magic[b := NotMagic];
      magic := magic[a := Unkempt];
      heads := heads - {b};
    }

    /** The stores of blockmerge, when neither block is free any more. */
    method JoinBlocks(a: int, b: int)
      requires Core() && a in heads && a in magic && IsBlock(magic[a]) && magic[a] != Free && a in size
               && b == a + size[a]
      requires b in magic && IsBlock(magic[b]) && magic[b] != Free
      modifies this`magic, this`size, this`tsize, this`tdata, this`mem, this`heads
      ensures Core() && b in old(size) && heads == old(heads) - {b} && a in size
              && size[a] == old(size)[a] + old(size)[b]
      ensures a in magic && magic[a] == Unkempt
              && OthersSame(old(heads), old(magic), old(size), heads, magic, size, {a, b})
      ensures View() == old(View()) - {a, b}
      ensures Outside(old(mem), mem, a, a + size[a])
      ensures SameBytes(old(mem), mem, a + BHDR, b - BTAIL) && SameBytes(old(mem), mem, b + BHDR, a + size[a] - BTAIL)
    {
      hide Tiled, Tagged, ArenasOk, Arenas, Listed, KemptOk, ViewOf, Total, Shaped, Ordered, Linked, Rings, Sized,
        Members, FreeTree.Valid, FreeIs, OthersSame, MergeWords;
      BlockAt(heads, magic, size, a);
      BlockAt(heads, magic, size, b);
      ghost var heads1, magic1, size1, tsize1, tdata1, mem1 := heads, magic, size, tsize, tdata, mem;
      ScribbleEnds(a, b);
      StoreMerge(a, b);
      MergedKeeps(heads1, magic1, size1, tsize1, tdata1, asize, heads, magic, size, tsize, tdata, a, b,
                  minblock, quantum);
      MergedView(heads1, magic1, size1, tsize1, tdata1, mem1, heads, magic, size, tsize, tdata, mem, a, b,
                 minblock, quantum);
      MergedFree(Members(free.tree), heads1, magic1, size1, tsize1, tdata1, heads, magic, size, tsize, tdata, a, b);
      FreeKept(heads1, magic1, size1, heads, magic, size, {a, b});
    }

    /** The words that kemb stores to cut block b after n bytes. */
    method StoreCut(b: int, n: int) returns (f: int)
      requires b in heads && b in size
      modifies this`magic, this`size, this`tsize, this`heads
      ensures f == b + n && CutWords(old(heads), old(magic), old(size), old(tsize), heads, magic, size, tsize, b, n)
    {
      var extra := size[b] - n;
      size, tsize := size[b := n], tsize[b + n := n];
      f := b + size[b];
      magic := magic[f := Unkempt];
      size, tsize := size[f := extra], tsize[f + extra := extra];
      heads := heads + {f};
    }

    /** kemb cuts block b in two. */
    method CutBlock(b: int, n: int) returns (f: int)
      requires Core() && b in heads && b in magic && magic[b] == Unkempt && b in size
      requires MINBLOCKSIZE <= n && MINBLOCKSIZE <= size[b] - n
      modifies this`magic, this`size, this`tsize, this`mem, this`heads
      ensures Core() && f == b + n && f !in old(heads) && heads == old(heads) + {f} && b in size && size[b] == n
      ensures b in magic && magic[b] == Unkempt && f in magic && magic[f] == Unkempt && f in size
              && size[f] == old(size)[b] - n
      ensures OthersSame(old(heads), old(magic), old(size), heads, magic, size, {b, f}) && View() == old(View())
      ensures Outside(old(mem), mem, b + n - BTAIL, b + old(size)[b])
    {
      hide Tiled, Tagged, ArenasOk, Arenas, Listed, KemptOk, ViewOf, Total, Shaped, Ordered, Linked, Rings, Sized,
        Members, FreeTree.Valid, FreeIs, OthersSame, CutWords;
      ghost var heads1, magic1, size1, tsize1, mem1 := heads, magic, size, tsize, mem;
      Scribble(b + n - BTAIL, b + n + BHDR);
      Scribble(b + size[b] - BTAIL, b + size[b]);
      f := StoreCut(b, n);
      CutKeeps(heads1, magic1, size1, tsize1, tdata, asize, heads, magic, size, tsize, b, n, minblock, quantum);
      CutView(heads1, magic1, size1, tsize1, tdata, mem1, heads, magic, size, tsize, mem, b, n, minblock, quantum);
      CutFree(Members(free.tree), heads1, magic1, size1, tsize1, heads, magic, size, tsize, b, n);
      FreeKept(heads1, magic1, size1, heads, magic, size, {b, f});
    }

    /** kemb gives the end of block b back to the free blocks. */
    method Trim(b: int, n: int)
      requires Core() && b in heads && b in magic && magic[b] == Unkempt && b in size
      requires MINBLOCKSIZE <= n && MINBLOCKSIZE <= size[b] - n
      modifies this`magic, this`size, this`tsize, this`mem, this`curfree, this`heads, free
      ensures Core() && b + n !in old(heads) && heads == old(heads) + {b + n} && b in size && size[b] == n
      ensures b in magic && magic[b] == Unkempt && b + n in magic && magic[b + n] == Free && b + n in size
              && size[b + n] == old(size)[b] - n
      ensures OthersSame(old(heads), old(magic), old(size), heads, magic, size, {b, b + n})
      ensures curfree == old(curfree) + size[b + n] && View() == old(View())
      ensures Outside(old(mem), mem, b + n - BTAIL, b + old(size)[b])
    {
      hide Core, ViewOf, OthersSame;
      ghost var heads1, magic1, size1 := heads, magic, size;
      var f := CutBlock(b, n);
      ghost var magic2 := magic;
      Pooladd(f);
      CutOthers(heads1, magic1, size1, heads, magic2, size, magic, b, f);
    }

    /** The words of a live block, and its slack. */
    method StoreDsize(b: int, dsize: int)
      requires b in size && dsize >= 0 && BHDR + dsize + BTAIL <= size[b]
      modifies this`magic, this`tdata, this`mem
      ensures magic == old(magic)[b := Kempt] && tdata == old(tdata)[b + size[b] := size[b] - dsize]
      ensures Outside(old(mem), mem, b, b + size[b]) && SameBytes(old(mem), mem, b + BHDR, b + BHDR + dsize)
    {
      magic := magic[b := Kempt];
      Scribble(b, b + BHDR);
      tdata := tdata[b + size[b] := size[b] - dsize];
      Scribble(b + size[b] - BTAIL, b + size[b]);
      Scribble(b + BHDR + dsize, b + size[b] - BTAIL);
    }

    lemma NeedsWords(dsize: int, n: int)
      requires Core() && dsize >= 0 && Dsize2bsize(dsize, minblock, quantum) <= n
      ensures BHDR + dsize + BTAIL <= n
    {
    }

    /** kemb's last part and blocksetdsize: the block is given to a caller who asked for dsize bytes. */
    method SetDsize(b: int, dsize: int)
      requires Core() && b in heads && b in magic && magic[b] == Unkempt && b in size
      requires dsize >= 0 && Dsize2bsize(dsize, minblock, quantum) <= size[b] && size[b] - dsize < 0x10000
      modifies this`magic, this`tdata, this`mem
      ensures Core() && magic == old(magic)[b := Kempt] && View() == old(View())[b := Bytes(old(mem), b + BHDR, dsize)]
      ensures Outside(old(mem), mem, b, b + size[b])
    {
      hide Tiled, Tagged, ArenasOk, Arenas, Listed, KemptOk, KemptAt, ViewOf, Total, Shaped, Ordered, Linked, Rings,
        Sized, Members, FreeTree.Valid, Bytes, RoundUp, Dsize2bsize, UserSize;
      ghost var magic1, tdata1, mem1 := magic, tdata, mem;
      NeedsWords(dsize, size[b]);
      StoreDsize(b, dsize);
      GivenKeeps(heads, magic1, size, tsize, tdata1, asize, magic, tdata, b, dsize, minblock, quantum);
      GivenView(heads, magic1, size, tdata1, mem1, magic, tdata, mem, b, dsize, minblock, quantum);
    }

    /** A block of n bytes is worth trimming for dsize bytes of data: what is left over does not fit the 16 bits of the
        tail, or is no less than a quarter of what is needed, a block that can be linked, and a least block. */
    predicate Roomy(n: int, dsize: int)
      requires dsize >= 0 && quantum >= 1 && minblock >= 0
    {
      var bsize := Dsize2bsize(dsize, minblock, quantum);
      n - dsize >= 0x10000 || (n - bsize >= bsize / 4 && n - bsize >= MINBLOCKSIZE && n - bsize >= minblock)
    }

    /** kemb: what is left over is too small to be worth cutting off. */
    ghost predicate Tight(b: int, dsize: int)
      reads this`size
      requires b in size && dsize >= 0 && Sane()
    {
      var bsize := Dsize2bsize(dsize, minblock, quantum);
      size[b] - bsize < bsize / 4 || size[b] - bsize < MINBLOCKSIZE || size[b] - bsize < minblock
    }

    lemma CoreTiled()
      requires Core()
      ensures Tiled(heads, magic, size)
    {
    }

    lemma CoreSane()
      requires Core()
      ensures Sane()
    {
    }

    method Unkemp(b: int)
      requires Core() && b in heads && b in magic && (magic[b] == Unkempt || magic[b] == Kempt)
      modifies this`magic
      ensures Core() && magic == old(magic)[b := Unkempt] && View() == old(View()) - {b}
    {
      hide Tiled, Tagged, ArenasOk, Arenas, Listed, KemptOk, ViewOf, Total, Shaped, Ordered, Linked, Rings, Sized,
        Members, FreeTree.Valid;
      BlockAt(heads, magic, size, b);
      ghost var magic1 := magic;
      magic := magic[b := Unkempt];
      RetaggedKeeps(heads, magic1, size, tsize, tdata, asize, magic, b, minblock, quantum);
      ViewWithout(heads, magic1, size, tdata, mem, magic, mem, b, minblock, quantum);
    }

    /** The decision of kemb: the rest of the block is cut off when the tail could not tell it or it is worth it. */
    method Shrink(b: int, dsize: int)
      requires Core() && b in heads && b in magic && (magic[b] == Unkempt || magic[b] == Kempt) && b in size
      requires dsize >= 0 && Dsize2bsize(dsize, minblock, quantum) <= size[b]
      modifies this`magic, this`size, this`tsize, this`mem, this`curfree, this`heads, free
      ensures Core() && b in heads && b in magic && magic[b] == Unkempt && b in size && size[b] <= old(size)[b]
              && View() == old(View()) - {b}
      ensures Dsize2bsize(dsize, minblock, quantum) <= size[b] < dsize + 0x10000 && Tight(b, dsize)
      ensures size[b] == if Roomy(old(size)[b], dsize) then Dsize2bsize(dsize, minblock, quantum) else old(size)[b]
      ensures curfree == old(curfree) + old(size)[b] - size[b]
      ensures Trimmed(old(heads), old(magic), old(size), heads, magic, size, b)
      ensures Outside(old(mem), mem, b + BHDR + dsize, b + old(size)[b])
    {
      hide Core, ViewOf;
      CoreSane();
      var bsize := Dsize2bsize(dsize, minblock, quantum);
      AtLeastMin(dsize, minblock, quantum);
      var extra := size[b] - bsize;
      Unkemp(b);
      if size[b] - dsize >= 0x10000 || (extra >= bsize / 4 && extra >= MINBLOCKSIZE && extra >= minblock) {
        Trim(b, bsize);
      }
    }

    /** kemb: trim block b to what dsize bytes of user data need. The code leaves the old magic word in
        place until the end; here it is UNKEMPT while the block is being trimmed. */
    method Kemb(b: int, dsize: int)
      requires Core() && b in heads && b in magic && (magic[b] == Unkempt || magic[b] == Kempt) && b in size
      requires dsize >= 0 && Dsize2bsize(dsize, minblock, quantum) <= size[b]
      modifies this`magic, this`size, this`tsize, this`tdata, this`mem, this`curfree, this`heads, free
      ensures Core() && b in heads && b in magic && magic[b] == Kempt && b in size && size[b] <= old(size)[b]
      ensures View() == old(View())[b := Bytes(old(mem), b + BHDR, dsize)]
      ensures Dsize2bsize(dsize, minblock, quantum) <= size[b] < dsize + 0x10000 && Tight(b, dsize)
      ensures size[b] == if Roomy(old(size)[b], dsize) then Dsize2bsize(dsize, minblock, quantum) else old(size)[b]
      ensures curfree == old(curfree) + old(size)[b] - size[b]
      ensures Trimmed(old(heads), old(magic), old(size), heads, magic, size, b)
      ensures Outside(old(mem), mem, b, b + old(size)[b])
    {
      hide Core, ViewOf, Outside, SameBytes, Trimmed, RoundUp, Dsize2bsize, Bytes, Roomy, Quiet, Tiled, View, Tight;
      CoreSane();
      ghost var heads0, magic0, size0, mem0 := heads, magic, size, mem;
      Shrink(b, dsize);
      ghost var magic1, mem1, n0, n := magic, mem, size0[b], size[b];
      assert Outside(mem0, mem1, b + BHDR + dsize, b + n0);
      SetDsize(b, dsize);
      KembBytes(mem0, mem1, mem, b, n0, n, dsize);
      KembOthers(heads0, magic0, size0, heads, magic1, size, magic, b);
      PutBack(old(View()), b, Bytes(mem0, b + BHDR, dsize));
    }

    /** Between operations no block is in transit. */
    ghost predicate Valid()
      reads this, free
    {
      Core() && Quiet(heads, magic)
    }

    /** The counters are right. Nothing keeps them so when arenas are merged. */
    ghost predicate Balanced()
      reads this
    {
      Books(heads, magic, size, asize, curalloc, curfree, cursize)
    }

    lemma IsBalanced()
      requires Books(heads, magic, size, asize, curalloc, curfree, cursize)
      ensures Balanced()
    {
    }

    ghost function FreeBlocks(): set<int>
      reads this`heads, this`magic
    {
      set h | h in heads && h in magic && magic[h] == Free
    }

    /** Live data are pairwise disjoint and end before their block's tail. */
    lemma LiveApart(h: int, g: int)
      requires Core() && h in View() && g in View() && h < g
      ensures h in size && h + BHDR + |View()[h]| <= h + size[h] - BTAIL && h + size[h] <= g
    {
      InView(h);
      InView(g);
      assert Apart(h, g, magic, size);
    }

    /** No byte is lost: the counters are the sums over the blocks, and with the headers they make up all arenas. */
    lemma AccountsBalance()
      requires Valid() && Balanced()
      ensures curalloc == Total(View().Keys, size) >= 0 && curfree == Total(FreeBlocks(), size) >= 0
      ensures curalloc + curfree + |Arenas(heads, magic)| * (ARENA + BHDR) == cursize ==
                Total(Arenas(heads, magic), asize)
    {
      assert View().Keys == Live(heads, magic);
      forall h ensures h in FreeBlocks() <==> h in Members(free.tree) {
        assert h in Members(free.tree) <==> h in heads && h in magic && magic[h] == Free;
      }
      assert FreeBlocks() == Members(free.tree);
      forall h | h in Live(heads, magic) + FreeBlocks() ensures SizeAt(h, size) >= 0 {
        BlockAt(heads, magic, size, h);
      }
      TotalNat(Live(heads, magic), size);
      TotalNat(FreeBlocks(), size);
    }

    /** Each arena is its header, its blocks, which the walk with B2NB meets in order, and its tail; each block is
        live or free. */
    lemma ArenaTiled(a: int)
      requires Valid() && a in Arenas(heads, magic)
      ensures a in asize && a + ARENA in heads && Tiled(heads, magic, size)
      ensures var w := Walk(a + ARENA, heads, magic, size);
              && (forall g :: g in w <==> g in heads && a < g < a + asize[a] - BHDR)
              && (forall g | g in w :: g in View() || g in FreeBlocks())
              && ARENA + SumOf(w, size) + BHDR == asize[a]
    {
      ArenaIsTiled(a, heads, magic, size, asize);
      assert ArenaOk(a, heads, magic, asize);
      forall g | g in heads && a < g < a + asize[a] - BHDR ensures g in View() || g in FreeBlocks() {
        assert HeaderOk(g, heads, magic, size);
        assert g in Live(heads, magic) || g in FreeBlocks();
      }
    }

    lemma NotInView(b: int)
      requires b in magic && magic[b] != Kempt
      ensures b !in View()
    {
    }

    /** T2HDR(B2PT(b)): the block or arena header in front of block b. */
    method Previous(b: int) returns (p: int)
      requires Core() && b in heads && b in magic && magic[b] != Arena
      ensures p in heads && p in magic && p in size && magic[p] != ArenaTail && p + size[p] == b
              && (magic[p] == Arena || IsBlock(magic[p]))
      ensures p < b && b in tsize && p == b - tsize[b]
    {
      hide ArenasOk, Listed, Arenas, KemptOk, Total, FreeTree.Valid, FreeIs;
      assert TagOk(b, heads, magic, size, tsize);
      p := b - tsize[b];
      assert HeaderOk(p, heads, magic, size);
    }

    lemma InView(b: int)
      requires Core() && b in View()
      ensures b in heads && b in magic && magic[b] == Kempt && b in size && b > 0
      ensures b + size[b] in tdata && |View()[b]| == UserSize(b, size, tdata) >= 0
              && View()[b] == Bytes(mem, b + BHDR, UserSize(b, size, tdata))
      ensures UserSize(b, size, tdata) <= size[b] - BHDR - BTAIL && KemptAt(b, size, tdata, minblock, quantum)
    {
      BlockAt(heads, magic, size, b);
      assert KemptAt(b, size, tdata, minblock, quantum);
    }

    lemma NextSize(h: int)
      requires Core() && h in heads
      ensures h in size
    {
      assert HeaderOk(h, heads, magic, size);
    }

    lemma BlockAtCore(m: int)
      requires Core() && m in heads && m in magic && IsBlock(magic[m])
      ensures m > 0
    {
      BlockAt(heads, magic, size, m);
    }

    lemma LiveInView(b: int)
      requires b in heads && b in magic && magic[b] == Kempt
      ensures b in View()
    {
    }

    /** The sizes of the free blocks have not changed. */
    lemma FreeKept(heads1: set<int>, magic1: map<int, Magic>, size1: map<int, int>,
                   heads2: set<int>, magic2: map<int, Magic>, size2: map<int, int>, s: set<int>)
      requires free.Valid(size1) && Members(free.tree) !! s
               && OthersSame(heads1, magic1, size1, heads2, magic2, size2, s)
      ensures free.Valid(size2) && Total(Members(free.tree), size2) == Total(Members(free.tree), size1)
    {
      SizedFrame(free.tree, size1, size2);
      forall h | h in Members(free.tree) ensures h in size1 {
        InItsRing(free.tree, size1, h);
      }
      TotalSame(Members(free.tree), size1, size2);
    }
  }
}
