/**
 How the arenas of a pool (lib9/pool.c) are tiled: every byte between an arena's header
 and its tail belongs to one block, and every block ends in a tail that tells its size.
 All of it is about the header and tail words, as maps from address to value; heads is
 the set of the addresses that hold a header.
 */
module PoolTiles {

  /** sizeof(Bhdr) and sizeof(Btail) */
  const BHDR: int := 8
  const BTAIL: int := 8
  /** sizeof(Arena) */
  const ARENA: int := 24
  /** sizeof(Free) + sizeof(Btail) */
  const MINBLOCKSIZE: int := 32

  datatype Magic = Free | Unkempt | Kempt | Arena | ArenaTail | NotMagic

  predicate IsBlock(m: Magic) {
    m == Free || m == Unkempt || m == Kempt
  }

  /** The bytes from a header on that are its own. */
  function Extent(h: int, magic: map<int, Magic>, size: map<int, int>): int {
    if h in magic && magic[h] == ArenaTail then BHDR else if h in size then size[h] else 0
  }

  predicate Apart(h: int, g: int, magic: map<int, Magic>, size: map<int, int>) {
    h < g ==> h + Extent(h, magic, size) <= g
  }

  ghost predicate HeaderOk(h: int, heads: set<int>, magic: map<int, Magic>, size: map<int, int>) {
    && h in magic && h in size && h > 0 && magic[h] != NotMagic
    && (magic[h] == ArenaTail ==> size[h] == 0)
    && (magic[h] == Arena ==> size[h] == ARENA)
    && (IsBlock(magic[h]) ==> size[h] >= MINBLOCKSIZE)
    && (magic[h] != ArenaTail ==> h + size[h] in heads && h + size[h] in magic && magic[h + size[h]] != Arena)
  }

  /** Every header is followed by the next one, up to the arena's tail, and nothing overlaps. */
  ghost predicate Tiled(heads: set<int>, magic: map<int, Magic>, size: map<int, int>) {
    && (forall h {:trigger HeaderOk(h, heads, magic, size)} | h in heads :: HeaderOk(h, heads, magic, size))
    && (forall h, g {:trigger Apart(h, g, magic, size)} | h in heads && g in heads :: Apart(h, g, magic, size))
  }

  /** B2PT(b): the tail in front of b tells the size of the block that ends there. */
  ghost predicate TagOk(b: int, heads: set<int>, magic: map<int, Magic>, size: map<int, int>, tsize: map<int, int>) {
    && b in tsize && b - tsize[b] in heads
    && b - tsize[b] in magic && magic[b - tsize[b]] != ArenaTail && b - tsize[b] in size
    && size[b - tsize[b]] == tsize[b]
  }

  ghost predicate Tagged(heads: set<int>, magic: map<int, Magic>, size: map<int, int>, tsize: map<int, int>) {
    forall b {:trigger TagOk(b, heads, magic, size, tsize)} | b in heads && b in magic && magic[b] != Arena ::
      TagOk(b, heads, magic, size, tsize)
  }

  /** Only one header ends at an address. */
  lemma SameEnd(heads: set<int>, magic: map<int, Magic>, size: map<int, int>, g: int, h: int)
    requires Tiled(heads, magic, size) && g in heads && h in heads && {g, h} <= magic.Keys * size.Keys
    requires magic[g] != ArenaTail && magic[h] != ArenaTail
    requires g + size[g] == h + size[h]
    ensures g == h
  {
    assert HeaderOk(g, heads, magic, size) && HeaderOk(h, heads, magic, size);
    assert Apart(g, h, magic, size) && Apart(h, g, magic, size);
  }

  // ---- Two adjacent blocks become one --------------------------------------------------------------------

  ghost predicate Merged(heads: set<int>, magic: map<int, Magic>, size: map<int, int>, tsize: map<int, int>,
                         heads': set<int>, magic': map<int, Magic>, size': map<int, int>, tsize': map<int, int>, a: int)
    requires a in size
  {
    var b := a + size[a];
    && b in size && heads' == heads - {b}
    && a in magic' && IsBlock(magic'[a]) && (forall h | h in heads' && h != a && h in magic ::
                                               h in magic' && magic'[h] == magic[h])
    && a in size' && size'[a] == size[a] + size[b]
    && (forall h | h in heads' && h != a && h in size :: h in size' && size'[h] == size[h])
    && b + size[b] in tsize' && tsize'[b + size[b]] == size'[a]
    && (forall h | h in heads' && h != b + size[b] && h in tsize :: h in tsize' && tsize'[h] == tsize[h])
  }

  lemma MergeTiles(heads: set<int>, magic: map<int, Magic>, size: map<int, int>, tsize: map<int, int>,
                   heads': set<int>, magic': map<int, Magic>, size': map<int, int>, tsize': map<int, int>, a: int)
    requires Tiled(heads, magic, size) && Tagged(heads, magic, size, tsize)
    requires a in heads && a in magic && IsBlock(magic[a]) && a in size && a + size[a] in magic
             && IsBlock(magic[a + size[a]])
    requires Merged(heads, magic, size, tsize, heads', magic', size', tsize', a)
    ensures Tiled(heads', magic', size') && Tagged(heads', magic', size', tsize')
  {
    var b := a + size[a];
    assert HeaderOk(a, heads, magic, size) && HeaderOk(b, heads, magic, size);
    var e := b + size[b];
    forall h {:trigger HeaderOk(h, heads', magic', size')} | h in heads' ensures HeaderOk(h, heads', magic', size') {
      assert HeaderOk(h, heads, magic, size);
      if h != a && magic[h] != ArenaTail && h + size[h] == b {
        SameEnd(heads, magic, size, h, a);
      }
    }
    forall h, g {:trigger Apart(h, g, magic', size')} | h in heads' && g in heads' ensures Apart(h, g, magic', size') {
      assert HeaderOk(h, heads, magic, size) && HeaderOk(g, heads, magic, size);
      assert Apart(h, g, magic, size);
      if h == a {
        assert Apart(b, g, magic, size);
      }
    }
    forall h {:trigger TagOk(h, heads', magic', size', tsize')} | h in heads' && h in magic' && magic'[h] != Arena
      ensures TagOk(h, heads', magic', size', tsize')
    {
      assert HeaderOk(h, heads, magic, size);
      assert TagOk(h, heads, magic, size, tsize);
      var p := h - tsize[h];
      if h != e {
        assert p != b && p in heads' && p != a;
      }
    }
  }

  // ---- A block is cut in two ------------------------------------------------------------------------------

  ghost predicate Cut(heads: set<int>, magic: map<int, Magic>, size: map<int, int>, tsize: map<int, int>,
                      heads': set<int>, magic': map<int, Magic>, size': map<int, int>, tsize': map<int, int>,
                      b: int, n: int)
    requires b in size
  {
    var f := b + n;
    && heads' == heads + {f}
    && b in magic' && IsBlock(magic'[b]) && f in magic' && IsBlock(magic'[f])
    && (forall h | h in heads && h != b && h in magic :: h in magic' && magic'[h] == magic[h])
    && b in size' && size'[b] == n && f in size' && size'[f] == size[b] - n
    && (forall h | h in heads && h != b && h in size :: h in size' && size'[h] == size[h])
    && f in tsize' && tsize'[f] == n && b + size[b] in tsize' && tsize'[b + size[b]] == size[b] - n
    && (forall h | h in heads && h != b + size[b] && h in tsize :: h in tsize' && tsize'[h] == tsize[h])
  }

  lemma CutTiles(heads: set<int>, magic: map<int, Magic>, size: map<int, int>, tsize: map<int, int>,
                 heads': set<int>, magic': map<int, Magic>, size': map<int, int>, tsize': map<int, int>, b: int, n: int)
    requires Tiled(heads, magic, size) && Tagged(heads, magic, size, tsize)
    requires b in heads && b in magic && IsBlock(magic[b]) && b in size && MINBLOCKSIZE <= n
             && MINBLOCKSIZE <= size[b] - n
    requires Cut(heads, magic, size, tsize, heads', magic', size', tsize', b, n)
    ensures b + n !in heads && Tiled(heads', magic', size') && Tagged(heads', magic', size', tsize')
  {
    var f, e := b + n, b + size[b];
    assert HeaderOk(b, heads, magic, size);
    assert f !in heads by {
      assert f in heads ==> Apart(b, f, magic, size);
    }
    forall h {:trigger HeaderOk(h, heads', magic', size')} | h in heads' ensures HeaderOk(h, heads', magic', size') {
      if h != f {
        assert HeaderOk(h, heads, magic, size);
      } else {
        assert HeaderOk(e, heads, magic, size);
      }
    }
    forall h, g {:trigger Apart(h, g, magic', size')} | h in heads' && g in heads' ensures Apart(h, g, magic', size') {
      assert h != f ==> HeaderOk(h, heads, magic, size) && Apart(b, h, magic, size) && Apart(h, b, magic, size);
      assert g != f ==> HeaderOk(g, heads, magic, size) && Apart(b, g, magic, size);
      assert h != f && g != f ==> Apart(h, g, magic, size);
    }
    forall h {:trigger TagOk(h, heads', magic', size', tsize')} | h in heads' && h in magic' && magic'[h] != Arena
      ensures TagOk(h, heads', magic', size', tsize')
    {
      if h != f && h != e {
        assert HeaderOk(h, heads, magic, size);
        assert TagOk(h, heads, magic, size, tsize);
      }
    }
  }

  // ---- A block's word of magic changes ----------------------------------------------------------------------

  lemma RetagTiles(heads: set<int>, magic: map<int, Magic>, size: map<int, int>, tsize: map<int, int>,
                   magic': map<int, Magic>, b: int)
    requires Tiled(heads, magic, size) && Tagged(heads, magic, size, tsize) && b in heads && b in magic
             && IsBlock(magic[b])
    requires b in magic' && IsBlock(magic'[b]) && forall h | h in heads && h != b && h in magic ::
               h in magic' && magic'[h] == magic[h]
    ensures Tiled(heads, magic', size) && Tagged(heads, magic', size, tsize)
  {
    forall h {:trigger HeaderOk(h, heads, magic', size)} | h in heads ensures HeaderOk(h, heads, magic', size) {
      assert HeaderOk(h, heads, magic, size);
    }
    forall h, g {:trigger Apart(h, g, magic', size)} | h in heads && g in heads ensures Apart(h, g, magic', size) {
      assert HeaderOk(h, heads, magic, size) && Apart(h, g, magic, size);
    }
    forall h {:trigger TagOk(h, heads, magic', size, tsize)} | h in heads && h in magic' && magic'[h] != Arena
      ensures TagOk(h, heads, magic', size, tsize)
    {
      assert HeaderOk(h, heads, magic, size) && TagOk(h, heads, magic, size, tsize);
    }
  }

  // ---- A new arena --------------------------------------------------------------------------------------------

  /** The header words that poolnewarena writes in the region of n bytes at a. */
  ghost predicate Opened(heads: set<int>, magic: map<int, Magic>, size: map<int, int>, tsize: map<int, int>,
                         heads': set<int>, magic': map<int, Magic>, size': map<int, int>, tsize': map<int, int>,
                         a: int, n: int)
  {
    var b, t := a + ARENA, a + n - BHDR;
    && heads' == heads + {a, b, t}
    && magic' == magic[a := Arena][t := ArenaTail][b := Unkempt]
    && size' == size[a := ARENA][t := 0][b := t - b]
    && tsize' == tsize[b := ARENA][t := t - b]
  }

  /** The region touches no header's own bytes. */
  ghost predicate Unused(heads: set<int>, magic: map<int, Magic>, size: map<int, int>, a: int, n: int) {
    forall h | h in heads :: h + Extent(h, magic, size) <= a || a + n <= h
  }

  lemma OpenTiles(heads: set<int>, magic: map<int, Magic>, size: map<int, int>, tsize: map<int, int>,
                  heads': set<int>, magic': map<int, Magic>, size': map<int, int>, tsize': map<int, int>,
                  a: int, n: int)
    requires Tiled(heads, magic, size) && Tagged(heads, magic, size, tsize) && Unused(heads, magic, size, a, n)
    requires a > 0 && n >= ARENA + MINBLOCKSIZE + BHDR
             && Opened(heads, magic, size, tsize, heads', magic', size', tsize', a, n)
    ensures heads !! {a, a + ARENA, a + n - BHDR}
    ensures Tiled(heads', magic', size') && Tagged(heads', magic', size', tsize')
  {
    var b, t := a + ARENA, a + n - BHDR;
    forall h | h in heads
      ensures h != a && h != b && h != t && (h < a ==> h + Extent(h, magic, size) <= a) && (h >= a ==> h >= a + n)
    {
      assert HeaderOk(h, heads, magic, size);
    }
    forall h {:trigger HeaderOk(h, heads', magic', size')} | h in heads' ensures HeaderOk(h, heads', magic', size') {
      assert h in heads ==> HeaderOk(h, heads, magic, size);
    }
    forall h, g {:trigger Apart(h, g, magic', size')} | h in heads' && g in heads' ensures Apart(h, g, magic', size') {
      assert h in heads && g in heads ==> Apart(h, g, magic, size);
    }
    forall h {:trigger TagOk(h, heads', magic', size', tsize')} | h in heads' && h in magic' && magic'[h] != Arena
      ensures TagOk(h, heads', magic', size', tsize')
    {
      assert h in heads ==> TagOk(h, heads, magic, size, tsize);
    }
  }

  // ---- Arenas -------------------------------------------------------------------------------------------------

  /** Between an arena's header and its tail there are only blocks. */
  ghost predicate ArenaOk(a: int, heads: set<int>, magic: map<int, Magic>, asize: map<int, int>) {
    && a in asize && asize[a] >= ARENA + MINBLOCKSIZE + BHDR && a + asize[a] - BHDR in heads
    && a + asize[a] - BHDR in magic && magic[a + asize[a] - BHDR] == ArenaTail
    && forall h | h in heads && h in magic && a < h < a + asize[a] - BHDR :: IsBlock(magic[h])
  }

  ghost predicate ArenasOk(heads: set<int>, magic: map<int, Magic>, asize: map<int, int>) {
    forall a {:trigger ArenaOk(a, heads, magic, asize)} | a in heads && a in magic && magic[a] == Arena ::
        ArenaOk(a, heads, magic, asize)
  }

  ghost predicate SameArenas(heads: set<int>, magic: map<int, Magic>, heads': set<int>, magic': map<int, Magic>) {
    && (forall h | h in heads && h in magic && !IsBlock(magic[h]) ::
          h in heads' && h in magic' && magic'[h] == magic[h])
    && (forall h | h in heads' && h in magic' && !IsBlock(magic'[h]) ::
          h in heads && h in magic && magic[h] == magic'[h])
  }

  lemma ArenasStay(heads: set<int>, magic: map<int, Magic>, heads': set<int>, magic': map<int, Magic>,
                   asize: map<int, int>)
    requires ArenasOk(heads, magic, asize) && SameArenas(heads, magic, heads', magic')
    ensures ArenasOk(heads', magic', asize)
  {
    forall a {:trigger ArenaOk(a, heads', magic', asize)} | a in heads' && a in magic' && magic'[a] == Arena
      ensures ArenaOk(a, heads', magic', asize)
    {
      assert ArenaOk(a, heads, magic, asize);
    }
  }

  lemma OpenArenas(heads: set<int>, magic: map<int, Magic>, size: map<int, int>, tsize: map<int, int>,
                   heads': set<int>, magic': map<int, Magic>, size': map<int, int>, tsize': map<int, int>,
                   asize: map<int, int>, a: int, n: int)
    requires Tiled(heads, magic, size) && ArenasOk(heads, magic, asize) && Unused(heads, magic, size, a, n)
    requires a > 0 && n >= ARENA + MINBLOCKSIZE + BHDR
             && Opened(heads, magic, size, tsize, heads', magic', size', tsize', a, n)
    requires forall c | c in heads && c in magic && magic[c] == Arena && c in asize :: c + asize[c] <= a || a + n <= c
    ensures ArenasOk(heads', magic', asize[a := n])
  {
    forall h | h in heads ensures (h < a || h >= a + n) && h in magic {
      assert HeaderOk(h, heads, magic, size);
    }
    forall c {:trigger ArenaOk(c, heads', magic', asize[a := n])} | c in heads' && c in magic' && magic'[c] == Arena
      ensures ArenaOk(c, heads', magic', asize[a := n])
    {
      assert c != a ==> ArenaOk(c, heads, magic, asize);
    }
  }

  // ---- Sums ----------------------------------------------------------------------------------------------------

  ghost function SizeAt(h: int, size: map<int, int>): int {
    if h in size then size[h] else 0
  }

  lemma NoMember(s: set<int>)
    ensures (forall x :: x !in s) ==> s == {}
  {
    if forall x :: x !in s {
      assert s == {};
    }
  }

  lemma HasMember(s: set<int>)
    requires s != {}
    ensures exists x :: x in s
  {
    NoMember(s);
  }

  /** The total size of the blocks of s. */
  ghost function Total(s: set<int>, size: map<int, int>): int {
    if s == {} then 0 else HasMember(s); var x :| x in s; SizeAt(x, size) + Total(s - {x}, size)
  }

  lemma {:induction false} TotalMinus(s: set<int>, size: map<int, int>, x: int)
    requires x in s
    ensures Total(s, size) == SizeAt(x, size) + Total(s - {x}, size)
    decreases s
  {
    var y :| y in s && Total(s, size) == SizeAt(y, size) + Total(s - {y}, size);
    if x != y {
      TotalMinus(s - {y}, size, x);
      TotalMinus(s - {x}, size, y);
      assert s - {y} - {x} == s - {x} - {y};
    }
  }

  lemma TotalPlus(s: set<int>, size: map<int, int>, x: int)
    requires x !in s
    ensures Total(s + {x}, size) == SizeAt(x, size) + Total(s, size)
  {
    TotalMinus(s + {x}, size, x);
    assert s + {x} - {x} == s;
  }

  lemma {:induction false} TotalSame(s: set<int>, size: map<int, int>, size': map<int, int>)
    requires forall h | h in s :: SizeAt(h, size) == SizeAt(h, size')
    ensures Total(s, size) == Total(s, size')
  {
    if s != {} {
      HasMember(s);
      var x :| x in s;
      TotalMinus(s, size, x);
      TotalMinus(s, size', x);
      TotalSame(s - {x}, size, size');
    }
  }

  lemma {:induction false} TotalNat(s: set<int>, size: map<int, int>)
    requires forall h | h in s :: SizeAt(h, size) >= 0
    ensures Total(s, size) >= 0
  {
    if s != {} {
      HasMember(s);
      var x :| x in s;
      TotalMinus(s, size, x);
      TotalNat(s - {x}, size);
    }
  }

  // ---- Walking an arena -----------------------------------------------------------------------------------------

  ghost function From(h: int, heads: set<int>): set<int> {
    set g | g in heads && g >= h
  }

  /** The headers met when walking from h with B2NB, up to and excluding the arena's tail. */
  ghost function Walk(h: int, heads: set<int>, magic: map<int, Magic>, size: map<int, int>): seq<int>
    requires Tiled(heads, magic, size) && h in heads
    decreases From(h, heads)
  {
    assert HeaderOk(h, heads, magic, size);
    if magic[h] == ArenaTail then []
    else
      assert h in From(h, heads) && h !in From(h + size[h], heads);
      [h] + Walk(h + size[h], heads, magic, size)
  }

  /** The walk from a header to the tail t, when everything between them is a block: it meets every header
      once, in order, and the sizes add up to the distance. */
  lemma {:induction false} WalkIsExact(h: int, t: int, heads: set<int>, magic: map<int, Magic>, size: map<int, int>)
    requires Tiled(heads, magic, size) && h in heads && h <= t && t in heads && t in magic && magic[t] == ArenaTail
    requires forall g | g in heads && g in magic && h <= g < t :: IsBlock(magic[g])
    ensures forall g :: g in Walk(h, heads, magic, size) <==> g in heads && h <= g < t
    ensures SumOf(Walk(h, heads, magic, size), size) == t - h
    decreases From(h, heads)
  {
    assert HeaderOk(h, heads, magic, size);
    if h < t {
      assert Apart(h, t, magic, size);
      assert h in From(h, heads) && h !in From(h + size[h], heads);
      WalkIsExact(h + size[h], t, heads, magic, size);
      var rest := Walk(h + size[h], heads, magic, size);
      assert Walk(h, heads, magic, size) == [h] + rest;
      assert ([h] + rest)[1..] == rest;
      forall g ensures g in [h] + rest <==> g in heads && h <= g < t {
        assert g in heads ==> Apart(h, g, magic, size);
      }
    } else {
      assert Apart(t, h, magic, size);
    }
  }

  ghost function SumOf(w: seq<int>, size: map<int, int>): int {
    if w == [] then 0 else SizeAt(w[0], size) + SumOf(w[1..], size)
  }

  /** An arena is its header, the blocks the walk meets, and its tail. */
  lemma ArenaIsTiled(a: int, heads: set<int>, magic: map<int, Magic>, size: map<int, int>, asize: map<int, int>)
    requires Tiled(heads, magic, size) && ArenasOk(heads, magic, asize) && a in heads && a in magic && magic[a] == Arena
    ensures a in asize && a + ARENA in heads
    ensures var w := Walk(a + ARENA, heads, magic, size);
            && (forall g :: g in w <==> g in heads && a < g < a + asize[a] - BHDR)
            && ARENA + SumOf(w, size) + BHDR == asize[a]
  {
    assert HeaderOk(a, heads, magic, size) && ArenaOk(a, heads, magic, asize);
    var t := a + asize[a] - BHDR;
    forall g | g in heads && a < g ensures a + ARENA <= g {
      assert Apart(a, g, magic, size);
    }
    WalkIsExact(a + ARENA, t, heads, magic, size);
  }
}
