/**
 The counters of a pool (lib9/pool.c), and free blocks side by side.
 */
module PoolBooks {
  import opened PoolTiles
  import opened PoolView
  import opened PoolWords

  /** The counters of the pool: the live bytes, the free bytes and all bytes. */
  ghost predicate Books(heads: set<int>, magic: map<int, Magic>, size: map<int, int>, asize: map<int, int>,
                        curalloc: int, curfree: int, cursize: int) {
    && curalloc == Total(Live(heads, magic), size)
    && curalloc + curfree + |Arenas(heads, magic)| * (ARENA + BHDR) == cursize
    && cursize == Total(Arenas(heads, magic), asize)
  }

  /** No two adjacent blocks are both free. */
  ghost predicate Coalesced(heads: set<int>, magic: map<int, Magic>, size: map<int, int>) {
    forall h {:trigger BusyNext(h, magic, size)} | h in heads && h in magic && magic[h] == Free ::
        BusyNext(h, magic, size)
  }

  ghost predicate BusyNext(h: int, magic: map<int, Magic>, size: map<int, int>) {
    h in size && h + size[h] in magic ==> magic[h + size[h]] != Free
  }

  lemma AddedCoalesced(heads: set<int>, magic: map<int, Magic>, size: map<int, int>, asize: map<int, int>,
                       heads': set<int>, magic': map<int, Magic>, size': map<int, int>, asize': map<int, int>,
                       a: int, n: int)
    requires Added(heads, magic, size, asize, heads', magic', size', asize', a, n) && Tiled(heads, magic, size)
             && Tiled(heads', magic', size')
    ensures Coalesced(heads, magic, size) ==> Coalesced(heads', magic', size')
  {
    assert a in magic' && magic'[a] == Arena && a + n - BHDR in magic' && magic'[a + n - BHDR] == ArenaTail;
    if Coalesced(heads, magic, size) {
      forall h {:trigger BusyNext(h, magic', size')} | h in heads' && h in magic' && magic'[h] == Free
        ensures BusyNext(h, magic', size')
      {
        if h != a + ARENA {
          assert h !in {a, a + ARENA, a + n - BHDR};
          assert BusyNext(h, magic, size);
          assert HeaderOk(h, heads, magic, size);
        }
      }
    }
  }

  lemma AddedBooks(heads: set<int>, magic: map<int, Magic>, size: map<int, int>, asize: map<int, int>,
                   heads': set<int>, magic': map<int, Magic>, size': map<int, int>, asize': map<int, int>,
                   curalloc: int, curfree: int, cursize: int, a: int, n: int)
    requires Added(heads, magic, size, asize, heads', magic', size', asize', a, n)
    ensures Books(heads, magic, size, asize, curalloc, curfree, cursize) ==>
              Books(heads', magic', size', asize', curalloc, curfree + n - ARENA - BHDR, cursize + n)
  {
    hide Total;
    var s := {a, a + ARENA, a + n - BHDR};
    assert a in magic' && magic'[a] == Arena && a + n - BHDR in magic' && magic'[a + n - BHDR] == ArenaTail;
    forall h ensures h in Live(heads', magic') <==> h in Live(heads, magic) {
      assert h !in s ==> (h in heads' <==> h in heads);
    }
    assert Live(heads', magic') == Live(heads, magic);
    TotalSame(Live(heads, magic), size, size');
    forall h ensures h in Arenas(heads', magic') <==> h in Arenas(heads, magic) + {a} {
      assert h !in s ==> (h in heads' <==> h in heads);
    }
    assert Arenas(heads', magic') == Arenas(heads, magic) + {a};
    TotalPlus(Arenas(heads, magic), asize', a);
    TotalSame(Arenas(heads, magic), asize, asize');
  }

  /** Block b comes from a free block or from a new arena, and what else there was has stayed. */
  ghost predicate Undisturbed(heads: set<int>, magic: map<int, Magic>, size: map<int, int>,
                              heads': set<int>, magic': map<int, Magic>, size': map<int, int>, b: int, bsize: int) {
    && Kept(heads, magic, size, heads', magic', size', b) && heads <= heads'
    && (b in heads ==> b in magic && magic[b] == Free && b in size && size[b] >= bsize)
    && (b in size' && b + size'[b] in heads ==> b in heads && b in size && size[b] == size'[b])
  }

  lemma UndisturbedSame(heads: set<int>, magic: map<int, Magic>, size: map<int, int>, b: int, bsize: int)
    requires b in heads ==> b in magic && magic[b] == Free && b in size && size[b] >= bsize
    requires b in size ==> b in heads
    ensures Undisturbed(heads, magic, size, heads, magic, size, b, bsize)
  {
  }

  /** The one free block that is big enough after the arena was added is the one in it. */
  lemma AddedFree(heads: set<int>, magic: map<int, Magic>, size: map<int, int>, asize: map<int, int>,
                  heads': set<int>, magic': map<int, Magic>, size': map<int, int>, asize': map<int, int>, a: int,
                  n: int, fb: int, bsize: int)
    requires Added(heads, magic, size, asize, heads', magic', size', asize', a, n) && Tiled(heads, magic, size)
             && Tiled(heads', magic', size')
    requires !FitsIn(heads, magic, size, bsize) && fb in heads' && fb in magic' && magic'[fb] == Free && fb in size'
             && size'[fb] >= bsize
    ensures fb == a + ARENA && fb !in heads && Undisturbed(heads, magic, size, heads', magic', size', fb, bsize)
    ensures Coalesced(heads, magic, size) ==> Coalesced(heads', magic', size')
  {
    var s := {a, a + ARENA, a + n - BHDR};
    assert a in magic' && magic'[a] == Arena && a + n - BHDR in magic' && magic'[a + n - BHDR] == ArenaTail;
    assert fb !in s ==> fb !in heads;
    forall h | h in heads ensures h in heads' {
      assert h !in s;
    }
    AddedCoalesced(heads, magic, size, asize, heads', magic', size', asize', a, n);
  }

  lemma UndisturbedTwice(heads: set<int>, magic: map<int, Magic>, size: map<int, int>, heads1: set<int>,
                         magic1: map<int, Magic>, size1: map<int, int>,
                         heads2: set<int>, magic2: map<int, Magic>, size2: map<int, int>, b: int, bsize: int)
    requires Undisturbed(heads, magic, size, heads1, magic1, size1, b, bsize) && b in heads1 && b in size1 && b in size2
    requires Kept(heads1, magic1, size1, heads2, magic2, size2, b) && heads1 <= heads2
    requires b + size2[b] in heads1 ==> size2[b] == size1[b]
    ensures Undisturbed(heads, magic, size, heads2, magic2, size2, b, bsize)
  {
  }

  lemma TookBack(v: map<int, seq<int>>, b: int, x: seq<int>)
    requires b !in v
    ensures v[b := x] - {b} == v
  {
  }

  lemma {:induction false} TotalUnion(a: set<int>, b: set<int>, size: map<int, int>)
    requires a !! b
    ensures Total(a + b, size) == Total(a, size) + Total(b, size)
    decreases b
  {
    if b == {} {
      assert a + b == a;
    } else {
      HasMember(b);
      var x :| x in b;
      TotalUnion(a, b - {x}, size);
      TotalMinus(b, size, x);
      TotalMinus(a + b, size, x);
      assert (a + b) - {x} == a + (b - {x});
    }
  }

  /** When only the headers in s change, so do the sums and sets: the old live ones of s leave, the new ones come. */
  lemma LiveStep(heads: set<int>, magic: map<int, Magic>, size: map<int, int>, heads': set<int>,
                 magic': map<int, Magic>, size': map<int, int>, s: set<int>)
    requires OthersSame(heads, magic, size, heads', magic', size', s) && Quiet(heads, magic)
    requires forall h | h in s && h in heads && h in magic :: magic[h] != Arena
    requires forall h | h in s && h in heads' && h in magic' :: magic'[h] != Arena && magic'[h] != Unkempt
    ensures Quiet(heads', magic') && Arenas(heads', magic') == Arenas(heads, magic)
    ensures Live(heads', magic') - s == Live(heads, magic) - s
    ensures Total(Live(heads', magic'), size') - Total(Live(heads', magic') * s, size')
         == Total(Live(heads, magic), size) - Total(Live(heads, magic) * s, size)
  {
    var l, l' := Live(heads, magic), Live(heads', magic');
    forall h | h in heads' && h in magic' ensures magic'[h] != Unkempt {
      assert h !in s ==> h in heads && h in magic;
    }
    forall h ensures (h in l' - s <==> h in l - s) && (h in Arenas(heads', magic') <==> h in Arenas(heads, magic)) {
      assert h !in s ==> (h in heads <==> h in heads') && (h in magic <==> h in magic');
    }
    assert l' - s == l - s;
    TotalSame(l - s, size, size');
    TotalUnion(l - s, l * s, size);
    TotalUnion(l' - s, l' * s, size');
    assert l - s + l * s == l && l' - s + l' * s == l';
  }

  lemma TotalOne(x: int, size: map<int, int>)
    ensures Total({x}, size) == SizeAt(x, size) && Total({}, size) == 0
  {
    TotalMinus({x}, size, x);
    assert {x} - {x} == {};
  }

  lemma TakenKept(heads: set<int>, magic: map<int, Magic>, size: map<int, int>, heads': set<int>,
                  magic': map<int, Magic>, size': map<int, int>, b: int)
    requires Trimmed(heads, magic[b := Unkempt], size, heads', magic', size', b)
    ensures Kept(heads, magic, size, heads', magic', size', b) && heads <= heads'
    ensures b + size'[b] in heads ==> size'[b] == size[b]
  {
  }

  /** What Pooldel and Kemb leave behind when they took block b from the free ones. */
  lemma TakenBooks(heads: set<int>, magic: map<int, Magic>, size: map<int, int>, heads': set<int>,
                   magic': map<int, Magic>, size': map<int, int>,
                   asize: map<int, int>, curalloc: int, curfree: int, cursize: int, b: int)
    requires Quiet(heads, magic) && b in heads && b in magic && magic[b] == Free && b in size
    requires b in heads' && b in magic' && magic'[b] == Kempt && b in size' && Tiled(heads, magic, size)
             && Tiled(heads', magic', size')
    requires Trimmed(heads, magic[b := Unkempt], size, heads', magic', size', b)
    ensures Quiet(heads', magic') && Arenas(heads', magic') == Arenas(heads, magic)
    ensures Books(heads, magic, size, asize, curalloc, curfree, cursize) ==>
              Books(heads', magic', size', asize, curalloc + size'[b], curfree - size'[b], cursize)
    ensures Coalesced(heads, magic, size) ==> Coalesced(heads', magic', size')
    ensures forall h | h in heads && h != b && h in magic :: h in heads' && h in magic' && magic'[h] == magic[h]
  {
    hide Tiled, Coalesced, Total, OthersSame;
    var f := b + size'[b];
    var s := if size'[b] == size[b] then {b} else {b, f};
    TakenOthers(heads, magic, size, heads', magic', size', b, s);
    LiveStep(heads, magic, size, heads', magic', size', s);
    TotalOne(b, size');
    TotalOne(b, size);
    if Coalesced(heads, magic, size) {
      TakenCoalesced(heads, magic, size, heads', magic', size', b);
    }
  }

  lemma TakenOthers(heads: set<int>, magic: map<int, Magic>, size: map<int, int>, heads': set<int>,
                    magic': map<int, Magic>, size': map<int, int>,
                    b: int, s: set<int>)
    requires b in heads && b in magic && magic[b] == Free && b in size && Tiled(heads, magic, size)
    requires b in heads' && b in magic' && magic'[b] == Kempt && b in size'
    requires Trimmed(heads, magic[b := Unkempt], size, heads', magic', size', b)
    requires s == if size'[b] == size[b] then {b} else {b, b + size'[b]}
    ensures OthersSame(heads, magic, size, heads', magic', size', s)
    ensures forall h | h in s && h in heads && h in magic :: magic[h] == Free
    ensures forall h | h in s && h in heads' && h in magic' :: magic'[h] == Kempt || magic'[h] == Free
    ensures Live(heads, magic) * s == {} && Live(heads', magic') * s == {b}
    ensures forall h | h in heads && h != b && h in magic :: h in heads' && h in magic' && magic'[h] == magic[h]
  {
    hide Tiled;
  }

  lemma TakenCoalesced(heads: set<int>, magic: map<int, Magic>, size: map<int, int>, heads': set<int>,
                       magic': map<int, Magic>, size': map<int, int>, b: int)
    requires b in heads && b in magic && magic[b] == Free && b in size && Tiled(heads, magic, size)
             && Coalesced(heads, magic, size)
    requires b in heads' && b in magic' && magic'[b] == Kempt && b in size' && Tiled(heads', magic', size')
    requires Trimmed(heads, magic[b := Unkempt], size, heads', magic', size', b)
    ensures Coalesced(heads', magic', size')
  {
    hide Tiled;
    assert BusyNext(b, magic, size);
    BlockAt(heads, magic, size, b);
    forall h {:trigger BusyNext(h, magic', size')} | h in heads' && h in magic' && magic'[h] == Free
      ensures BusyNext(h, magic', size')
    {
      if h != b && (size'[b] == size[b] || h != b + size'[b]) {
        assert BusyNext(h, magic, size);
        BlockAt(heads, magic, size, h);
      }
    }
  }

  /** Block ab with the header back in front of it: m is what it and its free neighbours have become. */
  ghost predicate FreeNeighbours(heads: set<int>, magic: map<int, Magic>, size: map<int, int>,
                                 heads': set<int>, magic': map<int, Magic>, size': map<int, int>, back: int,
                                 ab: int, m: int) {
    && ab in heads && back in heads && {ab, back} <= magic.Keys && {ab, back} <= size.Keys && magic[ab] == Kempt
    && back + size[back] == ab && back < ab
    && var fwd := ab + size[ab];
    && fwd in heads && fwd in magic && fwd in size && fwd > ab && magic[fwd] != Arena
    && var l, r := magic[back] == Free, magic[fwd] == Free;
    && m == (if l then back else ab) && m in heads' && m in magic' && m in size'
    && heads' == heads - (if l then {ab} else {}) - (if r then {fwd} else {})
    && size'[m] == size[ab] + (if l then size[back] else 0) + (if r then size[fwd] else 0)
    && (magic'[m] == Unkempt || magic'[m] == Kempt)
    && OthersSame(heads, magic, size, heads', magic', size',
                  {ab} + (if l then {back} else {}) + (if r then {fwd} else {}))
  }

  /** After the merge to the left, if there is one. */
  ghost predicate LeftDone(heads: set<int>, magic: map<int, Magic>, size: map<int, int>,
                           heads': set<int>, magic': map<int, Magic>, size': map<int, int>, back: int,
                           ab: int, m: int) {
    && ab in heads && back in heads && {ab, back} <= magic.Keys && {ab, back} <= size.Keys && magic[ab] == Kempt
    && back + size[back] == ab && back < ab
    && size[ab] >= MINBLOCKSIZE && ab + size[ab] in heads && ab + size[ab] in magic && ab + size[ab] in size
    && magic[ab + size[ab]] != Arena
    && var l := magic[back] == Free;
    && m == (if l then back else ab) && m in heads' && m in magic' && m in size'
    && heads' == heads - (if l then {ab} else {})
    && m + size'[m] == ab + size[ab] && (magic'[m] == Unkempt || magic'[m] == Kempt)
    && OthersSame(heads, magic, size, heads', magic', size', {ab} + (if l then {back} else {}))
  }

  lemma LeftAbsorbed(heads: set<int>, magic: map<int, Magic>, size: map<int, int>,
                     heads': set<int>, magic': map<int, Magic>, size': map<int, int>, back: int, ab: int, m: int)
    requires Tiled(heads, magic, size) && ab in heads && ab in magic && magic[ab] == Kempt && ab in size
    requires back in heads && back in magic && back in size && back + size[back] == ab && back < ab
    requires if magic[back] == Free then m == back && heads' == heads - {ab} && m in magic' && magic'[m] == Unkempt
                  && m in size' && size'[m] == size[back] + size[ab]
                  && OthersSame(heads, magic, size, heads', magic', size', {back, ab})
             else m == ab && heads' == heads && magic' == magic && size' == size
    ensures LeftDone(heads, magic, size, heads', magic', size', back, ab, m)
  {
    BlockAt(heads, magic, size, ab);
    assert HeaderOk(ab + size[ab], heads, magic, size);
    assert {ab} + {back} == {back, ab};
  }

  lemma RightAbsorbed(heads0: set<int>, magic0: map<int, Magic>, size0: map<int, int>, heads: set<int>,
                      magic: map<int, Magic>, size: map<int, int>,
                      heads': set<int>, magic': map<int, Magic>, size': map<int, int>, back: int, ab: int, m: int)
    requires LeftDone(heads0, magic0, size0, heads, magic, size, back, ab, m)
    requires var fwd := m + size[m];
             fwd in magic && if magic[fwd] == Free then fwd in size && heads' == heads - {fwd} && m in heads'
                                                        && m in magic' && magic'[m] == Unkempt
                  && m in size' && size'[m] == size[m] + size[fwd]
                  && OthersSame(heads, magic, size, heads', magic', size', {m, fwd})
             else heads' == heads && magic' == magic && size' == size
    ensures FreeNeighbours(heads0, magic0, size0, heads', magic', size', back, ab, m)
  {
  }

  lemma LessView(v: map<int, seq<int>>, v': map<int, seq<int>>, back: int, ab: int, m: int)
    requires (v' == v && m == ab) || (v' == v - {back, ab} && back !in v && m == back)
    ensures v' - {m} == v - {ab}
  {
  }

  lemma LessView2(v: map<int, seq<int>>, v': map<int, seq<int>>, m: int, fwd: int)
    requires v' == v - {m, fwd} && fwd !in v
    ensures v' - {m} == v - {m}
  {
  }

  lemma AbsorbedBlock(heads: set<int>, magic: map<int, Magic>, size: map<int, int>,
                      heads': set<int>, magic': map<int, Magic>, size': map<int, int>, back: int, ab: int, m: int)
    requires FreeNeighbours(heads, magic, size, heads', magic', size', back, ab, m)
    ensures m in heads' && m in magic' && m in size' && (magic'[m] == Unkempt || magic'[m] == Kempt)
  {
  }

  lemma FreedOthers(heads: set<int>, magic: map<int, Magic>, size: map<int, int>, heads': set<int>,
                    magic1: map<int, Magic>, size': map<int, int>,
                    magic': map<int, Magic>, back: int, ab: int, m: int) returns (s: set<int>)
    requires FreeNeighbours(heads, magic, size, heads', magic1, size', back, ab, m) && magic' == magic1[m := Free]
    ensures ab in size
    ensures OthersSame(heads, magic, size, heads', magic', size', s)
    ensures forall h | h in s && h in heads && h in magic :: magic[h] != Arena
    ensures forall h | h in s && h in heads' && h in magic' :: magic'[h] == Free
    ensures Live(heads, magic) * s == {ab} && Live(heads', magic') * s == {}
  {
    var fwd := ab + size[ab];
    s := {ab} + (if magic[back] == Free then {back} else {}) + (if magic[fwd] == Free then {fwd} else {});
  }

  /** Freed with its neighbours, the block leaves the counters right and no two free blocks side by side. */
  lemma FreedBooks(heads: set<int>, magic: map<int, Magic>, size: map<int, int>, heads': set<int>,
                   magic1: map<int, Magic>, size': map<int, int>,
                   magic': map<int, Magic>, asize: map<int, int>, curalloc: int, curfree: int, cursize: int, back: int,
                   ab: int, m: int)
    requires Quiet(heads, magic) && Tiled(heads, magic, size) && Tiled(heads', magic', size')
    requires FreeNeighbours(heads, magic, size, heads', magic1, size', back, ab, m) && magic' == magic1[m := Free]
    ensures Quiet(heads', magic')
    ensures Books(heads, magic, size, asize, curalloc, curfree, cursize) ==>
              Books(heads', magic', size', asize, curalloc - size[ab], curfree + size[ab], cursize)
    ensures Coalesced(heads, magic, size) ==> Coalesced(heads', magic', size')
  {
    hide Tiled, HeaderOk, Coalesced, Total, OthersSame, FreeNeighbours, Live, Arenas;
    var s := FreedOthers(heads, magic, size, heads', magic1, size', magic', back, ab, m);
    LiveStep(heads, magic, size, heads', magic', size', s);
    TotalOne(ab, size);
    TotalOne(ab, size');
    if Coalesced(heads, magic, size) {
      FreedCoalesced(heads, magic, size, heads', magic1, size', magic', back, ab, m);
    }
  }

  lemma FreedCoalesced(heads: set<int>, magic: map<int, Magic>, size: map<int, int>, heads': set<int>,
                       magic1: map<int, Magic>, size': map<int, int>,
                       magic': map<int, Magic>, back: int, ab: int, m: int)
    requires Tiled(heads, magic, size) && Coalesced(heads, magic, size)
    requires FreeNeighbours(heads, magic, size, heads', magic1, size', back, ab, m) && magic' == magic1[m := Free]
    ensures Coalesced(heads', magic', size')
  {
    var fwd := ab + size[ab];
    BlockAt(heads, magic, size, ab);
    forall h {:trigger BusyNext(h, magic', size')} | h in heads' && h in magic' && magic'[h] == Free
      ensures BusyNext(h, magic', size')
    {
      if h == m {
        if magic[fwd] == Free {
          assert BusyNext(fwd, magic, size);
          BlockAt(heads, magic, size, fwd);
        }
      } else {
        BlockAt(heads, magic, size, h);
        assert BusyNext(h, magic, size);
        var n := h + size[h];
        if n == ab {
          assert HeaderOk(back, heads, magic, size);
          SameEnd(heads, magic, size, h, back);
        }
      }
    }
  }
}
