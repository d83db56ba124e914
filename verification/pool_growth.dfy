/**
 How poolreallocl (lib9/pool.c) makes a live block grow: merged with its neighbours, or copied.
 */
module PoolGrowth {
  import opened PoolBooks
  import opened PoolTiles
  import opened PoolSizes
  import opened PoolView
  import opened PoolWords

  /** The pool before block a was merged with its neighbours; s are the headers of all of them so far,
      and lo..hi the bytes of the caller. */
  datatype Growth = Growth(heads: set<int>, magic: map<int, Magic>, size: map<int, int>, curfree: int,
                           view: map<int, seq<int>>,
                           a: int, s: set<int>, lo: int, hi: int)
  {
    ghost predicate Starts(heads: set<int>, magic: map<int, Magic>, size: map<int, int>, curfree: int,
                           view: map<int, seq<int>>, a: int) {
      this.heads == heads && this.magic == magic && this.size == size && this.curfree == curfree && this.view == view
      && this.a == a
    }
  }

  /** m is what block a has become. */
  ghost predicate Grown(g: Growth, heads: set<int>, magic: map<int, Magic>, size: map<int, int>, m: int) {
    && Live(g.heads, g.magic) * g.s == {g.a} && g.a in g.size
    && (forall h | h in g.s && h in g.heads && h in g.magic :: g.magic[h] != Arena)
    && m in g.s && m in heads && m in magic && m in size && (magic[m] == Unkempt || magic[m] == Kempt)
    && (forall h | h in g.s && h in heads :: h == m)
    && OthersSame(g.heads, g.magic, g.size, heads, magic, size, g.s)
  }

  ghost predicate GrowthBooks(g: Growth, curfree: int, size: map<int, int>, m: int, view: map<int, seq<int>>) {
    m in size && g.a in g.size && curfree + size[m] == g.curfree + g.size[g.a] && view - {m} == g.view - {g.a}
  }

  lemma StartGrown(g: Growth)
    requires g.s == {g.a} && g.a in g.heads && g.a in g.magic && g.magic[g.a] == Kempt && g.a in g.size
    ensures Grown(g, g.heads, g.magic, g.size, g.a)
  {
    assert g.a in Live(g.heads, g.magic);
  }

  lemma GrownBlock(g: Growth, heads: set<int>, magic: map<int, Magic>, size: map<int, int>, m: int)
    requires Grown(g, heads, magic, size, m)
    ensures m in heads && m in magic && m in size && (magic[m] == Unkempt || magic[m] == Kempt)
  {
  }

  lemma StillFree(g: Growth, heads: set<int>, magic: map<int, Magic>, size: map<int, int>, m: int, right: int)
    requires Grown(g, heads, magic, size, m) && right !in g.s && right in g.heads && right in g.magic && right in g.size
    ensures right in heads && right in magic && magic[right] == g.magic[right] && right in size
            && size[right] == g.size[right]
  {
  }

  lemma GrownStep(g: Growth, heads: set<int>, magic: map<int, Magic>, size: map<int, int>,
                  heads': set<int>, magic': map<int, Magic>, size': map<int, int>, x: int, y: int, m: int, o: int)
    requires Grown(g, heads, magic, size, m) && ((x == m && y == o) || (x == o && y == m)) && o != m
    requires o in heads && o in magic && magic[o] == Free
    requires heads' == heads - {y} && x in magic' && magic'[x] == Unkempt && x in size'
             && OthersSame(heads, magic, size, heads', magic', size', {x, y})
    ensures Grown(g.(s := g.s + {o}), heads', magic', size', x)
  {
    assert o !in g.s && o in g.heads && o in g.magic && g.magic[o] == Free;
    assert Live(g.heads, g.magic) * (g.s + {o}) == {g.a};
  }

  lemma ViewGrown(rest: map<int, seq<int>>, v: map<int, seq<int>>, v': map<int, seq<int>>, x: int, y: int,
                  m: int, o: int)
    requires v - {m} == rest && v' == v - {x, y} && o !in v && ((x == m && y == o) || (x == o && y == m))
    ensures v' - {x} == rest
  {
    assert v' - {x} == v - {m};
  }

  ghost function FreeSize(magic: map<int, Magic>, size: map<int, int>, h: int): int {
    if h in magic && h in size && magic[h] == Free then size[h] else 0
  }

  /** How big block a can become with the free blocks on its two sides. */
  ghost function Reach(magic: map<int, Magic>, size: map<int, int>, tsize: map<int, int>, a: int): int {
    (if a in size then size[a] + FreeSize(magic, size, a + size[a]) else 0)
    + (if a in tsize then FreeSize(magic, size, a - tsize[a]) else 0)
  }

  /** No free neighbour of block a would make it big enough. */
  ghost predicate NoRoomAround(heads: set<int>, magic: map<int, Magic>, size: map<int, int>, a: int, nbsize: int) {
    a in size && size[a] < nbsize && forall p | p in heads && p in magic && magic[p] == Free && p in size
      && (p + size[p] == a || p == a + size[a]) :: size[p] < nbsize
  }

  lemma NoneAround(heads: set<int>, magic: map<int, Magic>, size: map<int, int>, left: int, a: int, nbsize: int)
    requires Tiled(heads, magic, size) && a in heads && a in magic && IsBlock(magic[a]) && a in size && nbsize > size[a]
    requires left in heads && left in magic && left in size && magic[left] != ArenaTail && left + size[left] == a
    requires a + size[a] in magic && a + size[a] in size
    requires magic[left] == Free ==> size[left] + size[a] < nbsize
    requires magic[a + size[a]] == Free ==> size[a] + size[a + size[a]] < nbsize
    ensures NoRoomAround(heads, magic, size, a, nbsize)
  {
    BlockAt(heads, magic, size, a);
    forall p | p in heads && p in magic && magic[p] == Free && p in size && (p + size[p] == a || p == a + size[a])
      ensures size[p] < nbsize
    {
      if p + size[p] == a {
        SameEnd(heads, magic, size, p, left);
      }
    }
  }

  /** The first bytes at lo are those that were at v, whether or not they had to be moved. */
  lemma MovedBytes(mem0: int -> int, mem1: int -> int, lo: int, v: int, n: nat, m: nat)
    requires if v == lo then mem1 == mem0 else Bytes(mem1, lo, n) == Bytes(mem0, v, n)
    ensures SamePrefix(Bytes(mem1, lo, m), Bytes(mem0, v, n))
  {
    if v != lo {
      forall i | 0 <= i < n && i < m ensures Bytes(mem1, lo, m)[i] == Bytes(mem0, v, n)[i] {
        assert Bytes(mem1, lo, n)[i] == Bytes(mem0, v, n)[i];
      }
    }
  }

  lemma ReturnedBooks(g: Growth, heads: set<int>, magic: map<int, Magic>, size: map<int, int>,
                      heads': set<int>, magic': map<int, Magic>, size': map<int, int>, asize: map<int, int>,
                      curalloc: int, curfree: int, cursize: int, m: int)
    requires Quiet(g.heads, g.magic) && Grown(g, heads, magic, size, m) && g.a in g.size
    requires m in heads' && m in magic' && magic'[m] == Kempt && m in size'
             && curfree + size'[m] == g.curfree + g.size[g.a]
    requires Trimmed(heads, magic, size, heads', magic', size', m)
    ensures Quiet(heads', magic')
    ensures Books(g.heads, g.magic, g.size, asize, curalloc, g.curfree, cursize) ==>
              Books(heads', magic', size', asize, curalloc - g.size[g.a] + size'[m], curfree, cursize)
  {
    var f := m + size'[m];
    var s := if size'[m] == size[m] then g.s else g.s + {f};
    assert OthersSame(g.heads, g.magic, g.size, heads', magic', size', s);
    assert f !in g.s && f !in heads ==> f !in g.heads;
    forall h | h in s && h in g.heads && h in g.magic
      ensures g.magic[h] != Arena && (g.magic[h] == Kempt ==> h == g.a)
    {
      assert h in g.s && h in Live(g.heads, g.magic) ==> h in Live(g.heads, g.magic) * g.s;
    }
    LiveStep(g.heads, g.magic, g.size, heads', magic', size', s);
    assert g.a in Live(g.heads, g.magic) * g.s;
    assert Live(g.heads, g.magic) * s == {g.a};
    assert Live(heads', magic') * s == {m};
    TotalOne(g.a, g.size);
    TotalOne(m, size');
  }

  function Moved(m: int -> int, dst: int, src: int, n: nat): int -> int {
    x => if dst <= x < dst + n then m(src + (x - dst)) else m(x)
  }

  lemma MovedOutside(m: int -> int, dst: int, src: int, n: nat)
    ensures Outside(m, Moved(m, dst, src, n), dst, dst + n)
  {
  }

  lemma MovedAt(m: int -> int, dst: int, src: int, n: nat, i: nat)
    requires i < n
    ensures Moved(m, dst, src, n)(dst + i) == m(src + i)
  {
    assert src + (dst + i - dst) == src + i;
  }

  lemma MovedIs(m: int -> int, dst: int, src: int, n: nat)
    ensures Bytes(Moved(m, dst, src, n), dst, n) == Bytes(m, src, n)
  {
    hide Bytes, Moved;
    forall i | 0 <= i < n ensures Bytes(Moved(m, dst, src, n), dst, n)[i] == Bytes(m, src, n)[i] {
      MovedAt(m, dst, src, n, i);
    }
  }

  lemma BytesKept(mem0: int -> int, mem1: int -> int, lo: int, n: nat)
    ensures SameBytes(mem0, mem1, lo, lo + n) ==> Bytes(mem1, lo, n) == Bytes(mem0, lo, n)
  {
  }

  lemma StillLive(view0: map<int, seq<int>>, view1: map<int, seq<int>>, a: int, b: int)
    requires a in view0 && b !in view0 && b in view1 && view1 - {b} == view0
    ensures a in view1 && a != b && view1[a] == view0[a]
  {
    assert a in view1 - {b};
  }

  /** The block that poolallocl returned is not next to block a, which could not grow. */
  lemma NotAdjacent(heads: set<int>, magic: map<int, Magic>, size: map<int, int>, heads': set<int>,
                    magic': map<int, Magic>, size': map<int, int>,
                    a: int, b: int, left: int, nbsize: int)
    requires Tiled(heads, magic, size) && a in heads && a in magic && IsBlock(magic[a]) && a in size && a in size'
             && a != b && b in size'
    requires NoRoomAround(heads, magic, size, a, nbsize)
             && Undisturbed(heads, magic, size, heads', magic', size', b, nbsize)
    requires left in size' && left + size'[left] == a
    ensures left != b && a + size'[a] != b
  {
    BlockAt(heads, magic, size, a);
  }

  /** Only block a may be in transit. */
  ghost predicate InTransit(heads: set<int>, magic: map<int, Magic>, a: int) {
    forall h | h in heads && h in magic && magic[h] == Unkempt :: h == a
  }

  lemma GrownTransit(g: Growth, heads: set<int>, magic: map<int, Magic>, size: map<int, int>, m: int)
    requires Quiet(g.heads, g.magic) && Grown(g, heads, magic, size, m)
    ensures InTransit(heads, magic, m)
  {
  }

  lemma TransitEnds(heads: set<int>, magic: map<int, Magic>, size: map<int, int>, heads': set<int>,
                    magic': map<int, Magic>, size': map<int, int>, a: int)
    requires InTransit(heads, magic, a) && Trimmed(heads, magic, size, heads', magic', size', a) && magic'[a] == Kempt
    ensures Quiet(heads', magic')
  {
    var f := a + size'[a];
    assert forall h | h in heads' && h !in {a, f} :: h in heads;
  }

  /** After blockmerge of x and y, of which one was in transit, if any. */
  lemma MergedTransit(heads: set<int>, magic: map<int, Magic>, size: map<int, int>, heads': set<int>,
                      magic': map<int, Magic>, size': map<int, int>,
                      x: int, y: int, a: int)
    requires InTransit(heads, magic, a) && a in {x, y} && heads' == heads - {y}
             && OthersSame(heads, magic, size, heads', magic', size', {x, y})
    ensures InTransit(heads', magic', x)
  {
  }

  lemma QuietTransit(heads: set<int>, magic: map<int, Magic>, a: int)
    requires Quiet(heads, magic)
    ensures InTransit(heads, magic, a)
  {
  }
}
