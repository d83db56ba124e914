/**
 The header and tail words that blockmerge, kemb and poolnewarena (lib9/pool.c) store, and what they
 leave of the tiling and of the callers' bytes.
 */
module PoolWords {
  import opened PoolSizes
  import opened PoolTiles
  import opened PoolTree
  import opened PoolView

  const SLACK_POISON := 0xfa11

  const SIZE_POISON := 0xdeadfa11

  //---- blockmerge

  /** The words that blockmerge writes. */
  ghost predicate MergeWords(heads: set<int>, magic: map<int, Magic>, size: map<int, int>, tsize: map<int, int>,
                             tdata: map<int, int>,
                             heads': set<int>, magic': map<int, Magic>, size': map<int, int>, tsize': map<int, int>,
                             tdata': map<int, int>,
                             a: int, b: int) {
    && a in heads && a in magic && IsBlock(magic[a]) && a in size && b == a + size[a] && b in magic && IsBlock(magic[b])
    && b in size
    && heads' == heads - {b} && magic' == magic[b := NotMagic][a := Unkempt]
    && size' == size[a := size[a] + size[b]][b := SIZE_POISON]
    && tsize' == tsize[b := POISON][b + size[b] := size[a] + size[b]]
    && tdata' == tdata[b := SLACK_POISON][b + size[b] := 0xFFFF]
  }

  lemma MergedKeeps(heads: set<int>, magic: map<int, Magic>, size: map<int, int>, tsize: map<int, int>,
                    tdata: map<int, int>, asize: map<int, int>,
                    heads': set<int>, magic': map<int, Magic>, size': map<int, int>, tsize': map<int, int>,
                    tdata': map<int, int>,
                    a: int, b: int, minblock: int, quantum: int)
    requires Tiled(heads, magic, size) && Tagged(heads, magic, size, tsize) && ArenasOk(heads, magic, asize)
    requires KemptOk(heads, magic, size, tdata, minblock, quantum)
    requires MergeWords(heads, magic, size, tsize, tdata, heads', magic', size', tsize', tdata', a, b)
    ensures Tiled(heads', magic', size') && Tagged(heads', magic', size', tsize') && ArenasOk(heads', magic', asize)
    ensures KemptOk(heads', magic', size', tdata', minblock, quantum) && Arenas(heads', magic') == Arenas(heads, magic)
  {
    BlockAt(heads, magic, size, a);
    BlockAt(heads, magic, size, b);
    assert Merged(heads, magic, size, tsize, heads', magic', size', tsize', a);
    MergeTiles(heads, magic, size, tsize, heads', magic', size', tsize', a);
    ArenasStay(heads, magic, heads', magic', asize);
    SameArenaSet(heads, magic, heads', magic');
    forall h {:trigger KemptAt(h, size', tdata', minblock, quantum)} | h in heads' && h in magic' && magic'[h] == Kempt
      ensures KemptAt(h, size', tdata', minblock, quantum)
    {
      MergedSlack(heads, magic, size, tsize, tdata, heads', magic', size', tsize', tdata', a, b, h);
      assert KemptAt(h, size, tdata, minblock, quantum);
    }
  }

  /** The tail of another live block is not one of the two that blockmerge writes. */
  lemma MergedSlack(heads: set<int>, magic: map<int, Magic>, size: map<int, int>, tsize: map<int, int>,
                    tdata: map<int, int>,
                    heads': set<int>, magic': map<int, Magic>, size': map<int, int>, tsize': map<int, int>,
                    tdata': map<int, int>,
                    a: int, b: int, h: int)
    requires Tiled(heads, magic, size)
             && MergeWords(heads, magic, size, tsize, tdata, heads', magic', size', tsize', tdata', a, b)
    requires h in heads' && h in magic' && magic'[h] == Kempt
    ensures h in Live(heads, magic) - {a, b} && h in size && h in size' && size'[h] == size[h]
    ensures h + size[h] in tdata <==> h + size[h] in tdata'
    ensures h + size[h] in tdata ==> tdata'[h + size[h]] == tdata[h + size[h]]
  {
    BlockAt(heads, magic, size, h);
    BlockAt(heads, magic, size, a);
    if h + size[h] == b {
      SameEnd(heads, magic, size, h, a);
    }
    if h + size[h] == b + size[b] {
      SameEnd(heads, magic, size, h, b);
    }
  }

  lemma MergedView(heads: set<int>, magic: map<int, Magic>, size: map<int, int>, tsize: map<int, int>,
                   tdata: map<int, int>, mem: int -> int,
                   heads': set<int>, magic': map<int, Magic>, size': map<int, int>, tsize': map<int, int>,
                   tdata': map<int, int>, mem': int -> int,
                   a: int, b: int, minblock: int, quantum: int)
    requires Tiled(heads, magic, size) && KemptOk(heads, magic, size, tdata, minblock, quantum)
    requires MergeWords(heads, magic, size, tsize, tdata, heads', magic', size', tsize', tdata', a, b)
    requires Outside(mem, mem', a, b + size[b])
    ensures ViewOf(heads', magic', size', tdata', mem') == ViewOf(heads, magic, size, tdata, mem) - {a, b}
  {
    forall h | h in Live(heads', magic')
      ensures UserSize(h, size', tdata') == UserSize(h, size, tdata)
      ensures SameBytes(mem, mem', h + BHDR, h + BHDR + UserSize(h, size, tdata))
    {
      MergedSlack(heads, magic, size, tsize, tdata, heads', magic', size', tsize', tdata', a, b, h);
      BytesOutsideTwo(heads, magic, size, tdata, mem, mem', h, a, b, minblock, quantum);
    }
    BlockAt(heads, magic, size, a);
    assert Live(heads', magic') == Live(heads, magic) - {a, b};
    ViewShrinks(heads, magic, size, tdata, mem, heads', magic', size', tdata', mem', {a, b});
  }

  lemma BytesOutsideTwo(heads: set<int>, magic: map<int, Magic>, size: map<int, int>, tdata: map<int, int>,
                        mem: int -> int, mem': int -> int,
                        h: int, a: int, b: int, minblock: int, quantum: int)
    requires Tiled(heads, magic, size) && KemptOk(heads, magic, size, tdata, minblock, quantum)
             && h in Live(heads, magic) - {a, b}
    requires a in heads && a in magic && IsBlock(magic[a]) && a in size && b == a + size[a] && b in magic
             && IsBlock(magic[b]) && b in size
    requires Outside(mem, mem', a, b + size[b])
    ensures SameBytes(mem, mem', h + BHDR, h + BHDR + UserSize(h, size, tdata))
  {
    BlockAt(heads, magic, size, a);
    BlockAt(heads, magic, size, h);
    assert KemptAt(h, size, tdata, minblock, quantum);
    assert Apart(h, a, magic, size) && Apart(a, h, magic, size) && Apart(h, b, magic, size) && Apart(b, h, magic, size);
  }

  lemma MergedFree(members: set<int>, heads: set<int>, magic: map<int, Magic>, size: map<int, int>,
                   tsize: map<int, int>, tdata: map<int, int>,
                   heads': set<int>, magic': map<int, Magic>, size': map<int, int>, tsize': map<int, int>,
                   tdata': map<int, int>, a: int, b: int)
    requires MergeWords(heads, magic, size, tsize, tdata, heads', magic', size', tsize', tdata', a, b)
    requires FreeIs(members, heads, magic) && magic[a] != Free && magic[b] != Free && size[a] >= MINBLOCKSIZE
    ensures heads' == heads - {b} && a in size && b in size && a in size' && size'[a] == size[a] + size[b]
            && a in magic' && magic'[a] == Unkempt
    ensures FreeIs(members, heads', magic') && members !! {a, b}
            && OthersSame(heads, magic, size, heads', magic', size', {a, b})
  {
  }

  //---- kemb

  /** The words that kemb stores when it cuts a block. */
  ghost predicate CutWords(heads: set<int>, magic: map<int, Magic>, size: map<int, int>, tsize: map<int, int>,
                           heads': set<int>, magic': map<int, Magic>, size': map<int, int>, tsize': map<int, int>,
                           b: int, n: int) {
    && b in size && heads' == heads + {b + n} && magic' == magic[b + n := Unkempt]
    && size' == size[b := n][b + n := size[b] - n] && tsize' == tsize[b + n := n][b + n + (size[b] - n) := size[b] - n]
  }

  lemma CutKeeps(heads: set<int>, magic: map<int, Magic>, size: map<int, int>, tsize: map<int, int>,
                 tdata: map<int, int>, asize: map<int, int>,
                 heads': set<int>, magic': map<int, Magic>, size': map<int, int>, tsize': map<int, int>,
                 b: int, n: int, minblock: int, quantum: int)
    requires Tiled(heads, magic, size) && Tagged(heads, magic, size, tsize) && ArenasOk(heads, magic, asize)
    requires KemptOk(heads, magic, size, tdata, minblock, quantum)
    requires CutWords(heads, magic, size, tsize, heads', magic', size', tsize', b, n)
    requires b in heads && b in magic && magic[b] == Unkempt && MINBLOCKSIZE <= n && MINBLOCKSIZE <= size[b] - n
    ensures b + n !in heads && Tiled(heads', magic', size') && Tagged(heads', magic', size', tsize')
            && ArenasOk(heads', magic', asize)
    ensures KemptOk(heads', magic', size', tdata, minblock, quantum) && Arenas(heads', magic') == Arenas(heads, magic)
  {
    assert HeaderOk(b, heads, magic, size);
    assert b + n in heads ==> Apart(b, b + n, magic, size);
    assert Cut(heads, magic, size, tsize, heads', magic', size', tsize', b, n);
    CutTiles(heads, magic, size, tsize, heads', magic', size', tsize', b, n);
    ArenasStay(heads, magic, heads', magic', asize);
    SameArenaSet(heads, magic, heads', magic');
    forall h {:trigger KemptAt(h, size', tdata, minblock, quantum)} | h in heads' && h in magic' && magic'[h] == Kempt
      ensures KemptAt(h, size', tdata, minblock, quantum)
    {
      assert KemptAt(h, size, tdata, minblock, quantum);
    }
  }

  lemma CutView(heads: set<int>, magic: map<int, Magic>, size: map<int, int>, tsize: map<int, int>,
                tdata: map<int, int>, mem: int -> int,
                heads': set<int>, magic': map<int, Magic>, size': map<int, int>, tsize': map<int, int>,
                mem': int -> int,
                b: int, n: int, minblock: int, quantum: int)
    requires Tiled(heads, magic, size) && KemptOk(heads, magic, size, tdata, minblock, quantum) && b + n !in heads
    requires CutWords(heads, magic, size, tsize, heads', magic', size', tsize', b, n)
    requires b in heads && b in magic && magic[b] == Unkempt && Outside(mem, mem', b, b + size[b])
    ensures ViewOf(heads', magic', size', tdata, mem') == ViewOf(heads, magic, size, tdata, mem)
  {
    forall h | h in Live(heads', magic')
      ensures UserSize(h, size', tdata) == UserSize(h, size, tdata)
      ensures SameBytes(mem, mem', h + BHDR, h + BHDR + UserSize(h, size, tdata))
    {
      assert KemptAt(h, size, tdata, minblock, quantum);
      BytesOutside(heads, magic, size, tdata, mem, mem', h, b, minblock, quantum);
    }
    assert Live(heads', magic') == Live(heads, magic) - {};
    ViewShrinks(heads, magic, size, tdata, mem, heads', magic', size', tdata, mem', {});
  }

  lemma CutFree(members: set<int>, heads: set<int>, magic: map<int, Magic>, size: map<int, int>, tsize: map<int, int>,
                heads': set<int>, magic': map<int, Magic>, size': map<int, int>, tsize': map<int, int>, b: int, n: int)
    requires CutWords(heads, magic, size, tsize, heads', magic', size', tsize', b, n) && n > 0
    requires FreeIs(members, heads, magic) && b in magic && magic[b] == Unkempt && b + n !in heads
    ensures FreeIs(members, heads', magic') && members !! {b, b + n}
    ensures OthersSame(heads, magic, size, heads', magic', size', {b, b + n})
    ensures heads' == heads + {b + n} && b in size' && size'[b] == n && b + n in size' && size'[b + n] == size[b] - n
    ensures b in magic' && magic'[b] == Unkempt && b + n in magic' && magic'[b + n] == Unkempt
  {
  }

  lemma CutOthers(heads: set<int>, magic: map<int, Magic>, size: map<int, int>, heads': set<int>,
                  magic1: map<int, Magic>, size': map<int, int>,
                  magic2: map<int, Magic>, b: int, f: int)
    requires OthersSame(heads, magic, size, heads', magic1, size', {b, f}) && magic2 == magic1[f := Free]
    ensures OthersSame(heads, magic, size, heads', magic2, size', {b, f})
  {
  }

  lemma GivenKeeps(heads: set<int>, magic: map<int, Magic>, size: map<int, int>, tsize: map<int, int>,
                   tdata: map<int, int>, asize: map<int, int>,
                   magic': map<int, Magic>, tdata': map<int, int>, b: int, dsize: int, minblock: int, quantum: int)
    requires Tiled(heads, magic, size) && Tagged(heads, magic, size, tsize) && ArenasOk(heads, magic, asize)
    requires KemptOk(heads, magic, size, tdata, minblock, quantum) && quantum >= 1 && minblock >= 0
    requires b in heads && b in magic && magic[b] == Unkempt && b in size
    requires dsize >= 0 && Dsize2bsize(dsize, minblock, quantum) <= size[b] && size[b] - dsize < 0x10000
    requires magic' == magic[b := Kempt] && tdata' == tdata[b + size[b] := size[b] - dsize]
    ensures Tiled(heads, magic', size) && Tagged(heads, magic', size, tsize) && ArenasOk(heads, magic', asize)
    ensures KemptOk(heads, magic', size, tdata', minblock, quantum) && Arenas(heads, magic') == Arenas(heads, magic)
  {
    RetagTiles(heads, magic, size, tsize, magic', b);
    ArenasStay(heads, magic, heads, magic', asize);
    SameArenaSet(heads, magic, heads, magic');
    forall h {:trigger KemptAt(h, size, tdata', minblock, quantum)} | h in heads && h in magic' && magic'[h] == Kempt
      ensures KemptAt(h, size, tdata', minblock, quantum)
    {
      if h != b {
        assert KemptAt(h, size, tdata, minblock, quantum);
        OtherTail(heads, magic, size, h, b);
      }
    }
  }

  lemma OtherTail(heads: set<int>, magic: map<int, Magic>, size: map<int, int>, h: int, b: int)
    requires Tiled(heads, magic, size) && h in heads && b in heads && h in magic && b in magic && IsBlock(magic[h])
             && IsBlock(magic[b])
    requires h in size && b in size && h != b
    ensures h + size[h] != b + size[b]
  {
    if h + size[h] == b + size[b] {
      SameEnd(heads, magic, size, h, b);
    }
  }

  lemma LiveSize(heads: set<int>, magic: map<int, Magic>, size: map<int, int>, tdata: map<int, int>, h: int,
                 minblock: int, quantum: int)
    requires KemptOk(heads, magic, size, tdata, minblock, quantum) && h in Live(heads, magic)
    ensures h in size && h + size[h] in tdata && UserSize(h, size, tdata) >= 0
            && KemptAt(h, size, tdata, minblock, quantum)
  {
    assert KemptAt(h, size, tdata, minblock, quantum);
  }

  lemma GivenSize(size: map<int, int>, tdata: map<int, int>, b: int, dsize: int)
    requires b in size && b + size[b] in tdata && tdata[b + size[b]] == size[b] - dsize
    ensures UserSize(b, size, tdata) == dsize
  {
  }

  lemma SameSlice(mem: int -> int, mem': int -> int, lo: int, n: int)
    requires n >= 0 && SameBytes(mem, mem', lo, lo + n)
    ensures Bytes(mem', lo, n) == Bytes(mem, lo, n)
  {
  }

  /** Block b is live, with what its dsize bytes held before. */
  lemma GivenView(heads: set<int>, magic: map<int, Magic>, size: map<int, int>, tdata: map<int, int>, mem: int -> int,
                  magic': map<int, Magic>, tdata': map<int, int>, mem': int -> int, b: int, dsize: int, minblock: int,
                  quantum: int)
    requires Tiled(heads, magic, size) && KemptOk(heads, magic, size, tdata, minblock, quantum) && quantum >= 1
             && minblock >= 0
    requires b in heads && b in magic && magic[b] == Unkempt && b in size && dsize >= 0
    requires magic' == magic[b := Kempt] && tdata' == tdata[b + size[b] := size[b] - dsize]
    requires Outside(mem, mem', b, b + size[b]) && SameBytes(mem, mem', b + BHDR, b + BHDR + dsize)
    ensures ViewOf(heads, magic', size, tdata', mem') ==
              ViewOf(heads, magic, size, tdata, mem)[b := Bytes(mem, b + BHDR, dsize)]
  {
    hide Tiled, KemptOk, KemptAt, Outside, SameBytes;
    var v, v' := ViewOf(heads, magic, size, tdata, mem), ViewOf(heads, magic', size, tdata', mem');
    assert v.Keys == Live(heads, magic) && v'.Keys == Live(heads, magic') == Live(heads, magic) + {b};
    forall h | h in v' ensures v'[h] == v[b := Bytes(mem, b + BHDR, dsize)][h] {
      if h != b {
        LiveSize(heads, magic, size, tdata, h, minblock, quantum);
        OtherTail(heads, magic, size, h, b);
        BytesOutside(heads, magic, size, tdata, mem, mem', h, b, minblock, quantum);
        SameSlice(mem, mem', h + BHDR, UserSize(h, size, tdata));
      } else {
        GivenSize(size, tdata', b, dsize);
        SameSlice(mem, mem', b + BHDR, dsize);
      }
    }
  }

  lemma KembBytes(mem0: int -> int, mem1: int -> int, mem2: int -> int, b: int, n0: int, n: int, dsize: nat)
    requires Outside(mem0, mem1, b + BHDR + dsize, b + n0) && Outside(mem1, mem2, b, b + n) && n <= n0
    ensures Outside(mem0, mem2, b, b + n0) && Bytes(mem1, b + BHDR, dsize) == Bytes(mem0, b + BHDR, dsize)
  {
  }

  lemma KembOthers(heads: set<int>, magic: map<int, Magic>, size: map<int, int>,
                   heads': set<int>, magic1: map<int, Magic>, size': map<int, int>, magic2: map<int, Magic>, b: int)
    requires magic2 == magic1[b := Kempt] && Trimmed(heads, magic, size, heads', magic1, size', b)
    ensures Trimmed(heads, magic, size, heads', magic2, size', b)
  {
  }

  lemma PutBack(v: map<int, seq<int>>, b: int, x: seq<int>)
    ensures (v - {b})[b := x] == v[b := x]
  {
  }

  //---- poolnewarena

  /** A new arena with one free block in it; nothing else has changed. */
  ghost predicate Added(heads: set<int>, magic: map<int, Magic>, size: map<int, int>, asize: map<int, int>,
                        heads': set<int>, magic': map<int, Magic>, size': map<int, int>, asize': map<int, int>,
                        a: int, n: int) {
    && heads !! {a, a + ARENA, a + n - BHDR}
    && OthersSame(heads, magic, size, heads', magic', size', {a, a + ARENA, a + n - BHDR})
    && IsOpened(heads', magic'[a + ARENA := Unkempt], size', a, n) && a + ARENA in magic' && magic'[a + ARENA] == Free
    && asize' == asize[a := n] && n >= ARENA + MINBLOCKSIZE + BHDR
  }

  lemma AddedFits(heads: set<int>, magic: map<int, Magic>, size: map<int, int>, asize: map<int, int>,
                  heads': set<int>, magic': map<int, Magic>, size': map<int, int>, asize': map<int, int>, a: int,
                  n: int, m: int)
    requires Added(heads, magic, size, asize, heads', magic', size', asize', a, n) && Quiet(heads, magic)
    ensures Quiet(heads', magic') && (m <= n - ARENA - BHDR ==> FitsIn(heads', magic', size', m))
    ensures FitsIn(heads, magic, size, m) ==> FitsIn(heads', magic', size', m)
  {
    var s := {a, a + ARENA, a + n - BHDR};
    assert a in magic' && magic'[a] == Arena && a + n - BHDR in magic' && magic'[a + n - BHDR] == ArenaTail;
    forall h | h in heads' && h in magic' ensures magic'[h] != Unkempt {
      assert h !in s ==> h in heads && h in magic;
    }
    assert a + ARENA in heads' && a + ARENA in size';
    if FitsIn(heads, magic, size, m) {
      var h :| h in heads && h in magic && magic[h] == Free && h in size && size[h] >= m;
      assert h !in s;
    }
  }

  /** The region at a of n bytes is an arena with one block. */
  ghost predicate IsOpened(heads: set<int>, magic: map<int, Magic>, size: map<int, int>, a: int, n: int) {
    var b, t := a + ARENA, a + n - BHDR;
    && {a, b, t} <= heads && {a, b, t} <= magic.Keys && {a, b, t} <= size.Keys
    && magic[a] == Arena && magic[t] == ArenaTail && magic[b] == Unkempt && size[b] == n - ARENA - BHDR
  }

  lemma OpenedView(heads: set<int>, magic: map<int, Magic>, size: map<int, int>, tsize: map<int, int>,
                   tdata: map<int, int>, mem: int -> int,
                   heads': set<int>, magic': map<int, Magic>, size': map<int, int>, tsize': map<int, int>,
                   mem': int -> int,
                   a: int, n: int, minblock: int, quantum: int)
    requires Tiled(heads, magic, size) && KemptOk(heads, magic, size, tdata, minblock, quantum)
             && Unused(heads, magic, size, a, n)
    requires Opened(heads, magic, size, tsize, heads', magic', size', tsize', a, n) && n >= ARENA + MINBLOCKSIZE + BHDR
    requires heads !! {a, a + ARENA, a + n - BHDR} && Outside(mem, mem', a, a + n)
    ensures KemptOk(heads', magic', size', tdata, minblock, quantum)
    ensures ViewOf(heads', magic', size', tdata, mem') == ViewOf(heads, magic, size, tdata, mem)
  {
    forall h {:trigger KemptAt(h, size', tdata, minblock, quantum)} | h in heads' && h in magic' && magic'[h] == Kempt
      ensures KemptAt(h, size', tdata, minblock, quantum)
    {
      assert KemptAt(h, size, tdata, minblock, quantum);
    }
    forall h | h in Live(heads', magic')
      ensures UserSize(h, size', tdata) == UserSize(h, size, tdata)
      ensures SameBytes(mem, mem', h + BHDR, h + BHDR + UserSize(h, size, tdata))
    {
      assert KemptAt(h, size, tdata, minblock, quantum);
    }
    assert Live(heads', magic') == Live(heads, magic) - {};
    ViewShrinks(heads, magic, size, tdata, mem, heads', magic', size', tdata, mem', {});
  }

  lemma OpenedFree(members: set<int>, heads: set<int>, magic: map<int, Magic>, size: map<int, int>,
                   tsize: map<int, int>,
                   heads': set<int>, magic': map<int, Magic>, size': map<int, int>, tsize': map<int, int>,
                   a: int, n: int)
    requires Opened(heads, magic, size, tsize, heads', magic', size', tsize', a, n) && n >= ARENA + MINBLOCKSIZE + BHDR
    requires FreeIs(members, heads, magic) && heads !! {a, a + ARENA, a + n - BHDR}
    ensures FreeIs(members, heads', magic') && members !! {a, a + ARENA, a + n - BHDR}
    ensures OthersSame(heads, magic, size, heads', magic', size', {a, a + ARENA, a + n - BHDR})
            && IsOpened(heads', magic', size', a, n)
  {
  }

  lemma OpenedSet(heads: set<int>, magic: map<int, Magic>, size: map<int, int>, tsize: map<int, int>,
                  heads': set<int>, magic': map<int, Magic>, size': map<int, int>, tsize': map<int, int>,
                  a: int, n: int)
    requires Opened(heads, magic, size, tsize, heads', magic', size', tsize', a, n) && n >= ARENA + MINBLOCKSIZE + BHDR
    requires heads !! {a, a + ARENA, a + n - BHDR}
    ensures Arenas(heads', magic') == Arenas(heads, magic) + {a} && a !in Arenas(heads, magic)
  {
    forall c ensures c in Arenas(heads', magic') <==> c in Arenas(heads, magic) + {a} {
    }
  }

  lemma OpenedOthers(heads: set<int>, magic: map<int, Magic>, size: map<int, int>, heads': set<int>,
                     magic1: map<int, Magic>, size': map<int, int>,
                     magic2: map<int, Magic>, a: int, n: int)
    requires OthersSame(heads, magic, size, heads', magic1, size', {a, a + ARENA, a + n - BHDR})
             && magic2 == magic1[a + ARENA := Free]
    requires IsOpened(heads', magic1, size', a, n)
    ensures OthersSame(heads, magic, size, heads', magic2, size', {a, a + ARENA, a + n - BHDR})
    ensures IsOpened(heads', magic2[a + ARENA := Unkempt], size', a, n)
  {
    assert magic2[a + ARENA := Unkempt] == magic1;
  }
}
