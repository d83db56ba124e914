/**
 The free blocks of a pool (lib9/pool.c): a binary search tree by size whose nodes are
 the heads of circular doubly linked lists of blocks of one size. The links live in the
 free blocks, so they are maps from block address to address.
 */
module PoolTree {

  const NIL: int := 0
  const POISON: int := 0xCafeBabe

  /** What the links represent: each node is the ring of the blocks of one size, head first. */
  datatype Tree = Leaf | Node(left: Tree, size: nat, ring: seq<int>, right: Tree)

  function Head(t: Tree): int {
    if t.Leaf? || t.ring == [] then NIL else t.ring[0]
  }

  function Elems(ring: seq<int>): (s: set<int>)
    ensures forall a :: a in s <==> a in ring
  {
    set a | a in ring
  }

  function Members(t: Tree): set<int> {
    if t.Leaf? then {} else Members(t.left) + Elems(t.ring) + Members(t.right)
  }

  predicate NoDup(ring: seq<int>) {
    forall i, j | 0 <= i < j < |ring| :: ring[i] != ring[j]
  }

  predicate Shaped(t: Tree) {
    t.Node? ==>
      && t.ring != [] && NIL !in t.ring && NoDup(t.ring) && Shaped(t.left) && Shaped(t.right)
      && Members(t.left) !! Elems(t.ring) && Members(t.right) !! Elems(t.ring) && Members(t.left) !! Members(t.right)
  }

  predicate Below(t: Tree, s: nat) {
    t.Node? ==> t.size < s && Below(t.left, s) && Below(t.right, s)
  }

  predicate Above(t: Tree, s: nat) {
    t.Node? ==> t.size > s && Above(t.left, s) && Above(t.right, s)
  }

  predicate Ordered(t: Tree) {
    t.Node? ==> Below(t.left, t.size) && Above(t.right, t.size) && Ordered(t.left) && Ordered(t.right)
  }

  // ---- The links ------------------------------------------------------------------------------------

  predicate Linked(t: Tree, left: map<int, int>, right: map<int, int>) {
    t.Node? ==>
      && t.ring != [] && t.ring[0] in left && t.ring[0] in right
      && left[t.ring[0]] == Head(t.left) && right[t.ring[0]] == Head(t.right)
      && Linked(t.left, left, right) && Linked(t.right, left, right)
  }

  function After(i: nat, n: nat): nat
    requires i < n
  {
    if i + 1 == n then 0 else i + 1
  }

  predicate Circular(ring: seq<int>, next: map<int, int>, prev: map<int, int>) {
    && (forall i | 0 <= i < |ring| :: ring[i] in next && ring[i] in prev)
    && (forall i {:trigger next[ring[i]]} | 0 <= i < |ring| :: next[ring[i]] == ring[After(i, |ring|)])
    && (forall i {:trigger After(i, |ring|)} | 0 <= i < |ring| :: prev[ring[After(i, |ring|)]] == ring[i])
  }

  predicate Rings(t: Tree, next: map<int, int>, prev: map<int, int>) {
    t.Node? ==> Circular(t.ring, next, prev) && Rings(t.left, next, prev) && Rings(t.right, next, prev)
  }

  /** The blocks of every ring have the size of its node. */
  predicate Sized(t: Tree, size: map<int, int>) {
    t.Node? ==> (forall a | a in t.ring :: a in size && size[a] == t.size) && Sized(t.left, size)
                && Sized(t.right, size)
  }

  /** m' is m on the addresses of s. */
  predicate Same(m: map<int, int>, m': map<int, int>, s: set<int>) {
    forall a | a in s && a in m :: a in m' && m'[a] == m[a]
  }

  lemma {:induction false} LinkedFrame(t: Tree, left: map<int, int>, right: map<int, int>, left': map<int, int>,
                                       right': map<int, int>)
    requires Linked(t, left, right) && Same(left, left', Members(t)) && Same(right, right', Members(t))
    ensures Linked(t, left', right')
  {
    if t.Node? {
      var h := t.ring[0];
      assert h in Elems(t.ring);
      assert h in Members(t);
      assert h in left && h in right;
      assert h in left' && left'[h] == left[h];
      assert h in right' && right'[h] == right[h];
      LinkedFrame(t.left, left, right, left', right');
      LinkedFrame(t.right, left, right, left', right');
    }
  }

  lemma CircularFrame(ring: seq<int>, next: map<int, int>, prev: map<int, int>, next': map<int, int>,
                      prev': map<int, int>)
    requires Circular(ring, next, prev) && Same(next, next', Elems(ring)) && Same(prev, prev', Elems(ring))
    ensures Circular(ring, next', prev')
  {
    forall i | 0 <= i < |ring|
      ensures ring[i] in next' && ring[i] in prev' && next'[ring[i]] == next[ring[i]] && prev'[ring[i]] == prev[ring[i]]
    {
      assert ring[i] in Elems(ring);
    }
  }

  lemma {:induction false} RingsFrame(t: Tree, next: map<int, int>, prev: map<int, int>, next': map<int, int>,
                                      prev': map<int, int>)
    requires Rings(t, next, prev) && Same(next, next', Members(t)) && Same(prev, prev', Members(t))
    ensures Rings(t, next', prev')
  {
    if t.Node? {
      CircularFrame(t.ring, next, prev, next', prev');
      RingsFrame(t.left, next, prev, next', prev');
      RingsFrame(t.right, next, prev, next', prev');
    }
  }

  lemma {:induction false} SizedFrame(t: Tree, size: map<int, int>, size': map<int, int>)
    requires Sized(t, size) && Same(size, size', Members(t))
    ensures Sized(t, size')
  {
    if t.Node? {
      SizedFrame(t.left, size, size');
      SizedFrame(t.right, size, size');
      forall a | a in t.ring ensures a in size' && size'[a] == t.size {
        assert a in Elems(t.ring);
        assert a in Members(t);
      }
    }
  }

  // ---- Rings ------------------------------------------------------------------------------------------

  function Without(ring: seq<int>, a: int): seq<int> {
    if ring == [] then [] else if ring[0] == a then ring[1..] else [ring[0]] + Without(ring[1..], a)
  }

  lemma {:induction false} WithoutAt(ring: seq<int>, k: nat, i: nat)
    requires NoDup(ring) && k < |ring|
    ensures |Without(ring, ring[k])| == |ring| - 1
    ensures i < |ring| - 1 ==> Without(ring, ring[k])[i] == ring[if i < k then i else i + 1]
    decreases k
  {
    if k > 0 {
      assert ring[0] != ring[k] && ring[1..][k - 1] == ring[k];
      WithoutAt(ring[1..], k - 1, if i == 0 then 0 else i - 1);
    }
  }

  lemma {:induction false} WithoutElems(ring: seq<int>, a: int)
    requires NoDup(ring)
    ensures NoDup(Without(ring, a)) && Elems(Without(ring, a)) == Elems(ring) - {a}
  {
    if ring != [] {
      assert ring == [ring[0]] + ring[1..];
      assert ring[0] !in ring[1..];
      if ring[0] != a {
        var rest := Without(ring[1..], a);
        WithoutElems(ring[1..], a);
        assert ring[0] !in Elems(rest);
        assert Elems([ring[0]] + rest) == {ring[0]} + Elems(rest);
      }
    }
  }

  lemma AddedToRing(ring: seq<int>, a: int, next: map<int, int>, prev: map<int, int>, next': map<int, int>,
                    prev': map<int, int>)
    requires ring != [] && NoDup(ring) && a !in ring && Circular(ring, next, prev)
    requires ring[|ring| - 1] == prev[ring[0]]
    requires next' == next[a := ring[0]][prev[ring[0]] := a]
    requires prev' == prev[a := prev[ring[0]]][ring[0] := a]
    ensures Circular(ring + [a], next', prev') && NoDup(ring + [a])
  {
    var r, n := ring + [a], |ring|;
    forall i | 0 <= i < n + 1
      ensures r[i] in next' && r[i] in prev' && next'[r[i]] == r[After(i, n + 1)] && prev'[r[After(i, n + 1)]] == r[i]
    {
      if i < n - 1 {
        assert next[ring[i]] == ring[After(i, n)];
        assert ring[i] != ring[n - 1] && ring[i + 1] != ring[0];
      }
    }
  }

  lemma LastInRing(ring: seq<int>, next: map<int, int>, prev: map<int, int>)
    requires ring != [] && Circular(ring, next, prev)
    ensures prev[ring[0]] == ring[|ring| - 1]
  {
    assert After(|ring| - 1, |ring|) == 0;
  }

  /** The neighbours of the block at place k of a ring. */
  lemma Neighbours(ring: seq<int>, k: nat, next: map<int, int>, prev: map<int, int>)
    requires k < |ring| && Circular(ring, next, prev)
    ensures ring[k] in next && ring[k] in prev
    ensures next[ring[k]] == ring[After(k, |ring|)] && prev[ring[k]] == ring[if k == 0 then |ring| - 1 else k - 1]
  {
    assert After(if k == 0 then |ring| - 1 else k - 1, |ring|) == k;
  }

  /** The links of the block that was at place i != k, after the one at place k is out. */
  lemma RemovedAt(ring: seq<int>, k: nat, i: nat, next: map<int, int>, prev: map<int, int>, next': map<int, int>,
                  prev': map<int, int>)
    requires NoDup(ring) && k < |ring| && |ring| > 1 && Circular(ring, next, prev) && i < |ring| && i != k
    requires next' == next[prev[ring[k]] := next[ring[k]]][ring[k] := POISON]
    requires prev' == prev[next[ring[k]] := prev[ring[k]]][ring[k] := POISON]
    ensures var j := if After(i, |ring|) == k then After(k, |ring|) else After(i, |ring|);
            ring[i] in next' && ring[i] in prev' && next'[ring[i]] == ring[j] && ring[j] in prev'
            && prev'[ring[j]] == ring[i]
  {
    hide Circular;
    var n := |ring|;
    Neighbours(ring, k, next, prev);
    Neighbours(ring, i, next, prev);
    Neighbours(ring, After(i, n), next, prev);
  }

  lemma RemovedFromRing(ring: seq<int>, k: nat, next: map<int, int>, prev: map<int, int>, next': map<int, int>,
                        prev': map<int, int>)
    requires NoDup(ring) && k < |ring| && |ring| > 1 && Circular(ring, next, prev)
    requires next' == next[prev[ring[k]] := next[ring[k]]][ring[k] := POISON]
    requires prev' == prev[next[ring[k]] := prev[ring[k]]][ring[k] := POISON]
    ensures Circular(Without(ring, ring[k]), next', prev')
  {
    hide Circular, Without, NoDup;
    var r, n := Without(ring, ring[k]), |ring|;
    WithoutAt(ring, k, 0);
    forall i | 0 <= i < n - 1 ensures LinksAt(r, i, next', prev') {
      WithoutAt(ring, k, i);
      WithoutAt(ring, k, After(i, n - 1));
      RemovedAt(ring, k, if i < k then i else i + 1, next, prev, next', prev');
    }
    CircularIf(r, next', prev');
  }

  lemma CircularIf(ring: seq<int>, next: map<int, int>, prev: map<int, int>)
    requires forall i | 0 <= i < |ring| :: LinksAt(ring, i, next, prev)
    ensures Circular(ring, next, prev)
  {
    forall i | 0 <= i < |ring| ensures ring[i] in next && ring[i] in prev && next[ring[i]] == ring[After(i, |ring|)] {
      assert LinksAt(ring, i, next, prev);
    }
    forall i | 0 <= i < |ring| ensures prev[ring[After(i, |ring|)]] == ring[i] {
      assert LinksAt(ring, i, next, prev);
    }
  }

  predicate LinksAt(ring: seq<int>, i: nat, next: map<int, int>, prev: map<int, int>)
    requires i < |ring|
  {
    var j := After(i, |ring|);
    ring[i] in next && ring[i] in prev && next[ring[i]] == ring[j] && ring[j] in prev && prev[ring[j]] == ring[i]
  }

  // ---- Adding and removing a block --------------------------------------------------------------------

  function Add(t: Tree, s: nat, a: int): Tree {
    if t.Leaf? then Node(Leaf, s, [a], Leaf)
    else if s == t.size then t.(ring := t.ring + [a])
    else if s < t.size then t.(left := Add(t.left, s, a))
    else t.(right := Add(t.right, s, a))
  }

  function Least(t: Tree): (m: Tree)
    requires t.Node?
    ensures m.Node?
  {
    if t.left.Leaf? then t else Least(t.left)
  }

  function DropLeast(t: Tree): Tree
    requires t.Node?
  {
    if t.left.Leaf? then t.right else t.(left := DropLeast(t.left))
  }

  function DropRoot(t: Tree): Tree
    requires t.Node?
  {
    if t.left.Leaf? then t.right
    else if t.right.Leaf? then t.left
    else Node(t.left, Least(t.right).size, Least(t.right).ring, DropLeast(t.right))
  }

  function Del(t: Tree, s: nat, a: int): Tree {
    if t.Leaf? then Leaf
    else if s == t.size then (if Without(t.ring, a) == [] then DropRoot(t) else t.(ring := Without(t.ring, a)))
    else if s < t.size then t.(left := Del(t.left, s, a))
    else t.(right := Del(t.right, s, a))
  }

  /** The blocks of size s. */
  function RingOf(t: Tree, s: int): seq<int> {
    if t.Leaf? then [] else if s == t.size then t.ring else if s < t.size then RingOf(t.left, s) else RingOf(t.right, s)
  }

  lemma {:induction false} AddKeeps(t: Tree, s: nat, a: int)
    requires Shaped(t) && Ordered(t) && a !in Members(t) && a != NIL
    ensures Shaped(Add(t, s, a)) && Ordered(Add(t, s, a)) && Members(Add(t, s, a)) == Members(t) + {a}
    ensures forall m | Below(t, m) && s < m :: Below(Add(t, s, a), m)
    ensures forall m | Above(t, m) && s > m :: Above(Add(t, s, a), m)
  {
    if t.Leaf? {
    } else if s == t.size {
      assert Elems(t.ring + [a]) == Elems(t.ring) + {a};
    } else if s < t.size {
      AddKeeps(t.left, s, a);
    } else {
      AddKeeps(t.right, s, a);
    }
  }

  lemma {:induction false} DropLeastKeeps(t: Tree)
    requires t.Node? && Shaped(t) && Ordered(t)
    ensures var u, m := DropLeast(t), Least(t);
            && Shaped(u) && Ordered(u) && m.ring != [] && NIL !in m.ring && NoDup(m.ring)
            && Members(t) == Members(u) + Elems(m.ring) && Members(u) !! Elems(m.ring)
            && Above(u, m.size) && m.size <= t.size
            && (forall s | Above(t, s) :: Above(u, s) && m.size > s)
            && (forall s | Below(t, s) :: Below(u, s) && m.size < s)
  {
    if t.left.Node? {
      DropLeastKeeps(t.left);
      AboveMore(t.right, t.size, Least(t).size);
    }
  }

  lemma {:induction false} AboveMore(t: Tree, s: nat, r: nat)
    requires Above(t, s) && r <= s
    ensures Above(t, r)
  {
    if t.Node? {
      AboveMore(t.left, s, r);
      AboveMore(t.right, s, r);
    }
  }

  lemma {:induction false} BelowMore(t: Tree, s: nat, r: nat)
    requires Below(t, s) && r >= s
    ensures Below(t, r)
  {
    if t.Node? {
      BelowMore(t.left, s, r);
      BelowMore(t.right, s, r);
    }
  }

  lemma DropRootKeeps(t: Tree)
    requires t.Node? && Shaped(t) && Ordered(t)
    ensures Shaped(DropRoot(t)) && Ordered(DropRoot(t)) && Members(DropRoot(t)) == Members(t) - Elems(t.ring)
    ensures forall s | Above(t, s) :: Above(DropRoot(t), s)
    ensures forall s | Below(t, s) :: Below(DropRoot(t), s)
  {
    if t.left.Node? && t.right.Node? {
      DropLeastKeeps(t.right);
      BelowMore(t.left, t.size, Least(t.right).size);
      var m, u := Least(t.right), DropLeast(t.right);
      assert Members(DropRoot(t)) == Members(t.left) + Elems(m.ring) + Members(u);
    }
  }

  lemma {:induction false} DelKeeps(t: Tree, s: nat, a: int)
    requires Shaped(t) && Ordered(t) && a in RingOf(t, s)
    ensures Shaped(Del(t, s, a)) && Ordered(Del(t, s, a)) && Members(Del(t, s, a)) == Members(t) - {a}
            && a in Members(t)
    ensures forall m | Below(t, m) :: Below(Del(t, s, a), m)
    ensures forall m | Above(t, m) :: Above(Del(t, s, a), m)
  {
    if s == t.size {
      WithoutElems(t.ring, a);
      if Without(t.ring, a) == [] {
        assert Elems(t.ring) == {a};
        DropRootKeeps(t);
      } else {
        assert NIL !in Elems(t.ring) && Elems(Without(t.ring, a)) <= Elems(t.ring);
      }
    } else if s < t.size {
      DelKeeps(t.left, s, a);
    } else {
      DelKeeps(t.right, s, a);
    }
  }

  /** A free block is in the ring that a walk for its size finds. */
  lemma {:induction false} InItsRing(t: Tree, size: map<int, int>, a: int)
    requires Ordered(t) && Sized(t, size) && a in Members(t)
    ensures a in size && a in RingOf(t, size[a])
    ensures forall m | Below(t, m) :: size[a] < m
    ensures forall m | Above(t, m) :: size[a] > m
  {
    if a in t.ring {
    } else if a in Members(t.left) {
      InItsRing(t.left, size, a);
    } else {
      InItsRing(t.right, size, a);
    }
  }

  // ---- Best fit ---------------------------------------------------------------------------------------

  /** What treelookupgt returns when g is the last node it saw that was big enough. */
  function BestFit(t: Tree, s: nat, g: int): int {
    if t.Leaf? then g
    else if s == t.size then Head(t)
    else if s < t.size then BestFit(t.left, s, Head(t))
    else BestFit(t.right, s, g)
  }

  /** No free block is big enough, or the one found is and none that is big enough is smaller. */
  lemma {:induction false} BestFitIsBest(t: Tree, size: map<int, int>, s: nat, g: int)
    requires Shaped(t) && Ordered(t) && Sized(t, size) && g !in Members(t)
    ensures forall a | a in Members(t) :: a in size
    ensures var f := BestFit(t, s, g);
            if f in Members(t) then f in size && size[f] >= s && forall a | a in Members(t) && size[a] >= s ::
              size[a] >= size[f]
            else f == g && forall a | a in Members(t) :: size[a] < s
    ensures g == NIL ==> (BestFit(t, s, g) == NIL <==> forall a | a in Members(t) :: size[a] < s)
  {
    NilIsOut(t);
    if t.Node? {
      assert t.ring[0] in t.ring;
      BestFitIsBest(t.left, size, s, Head(t));
      BestFitIsBest(t.right, size, s, g);
      NilIsOut(t.left);
      NilIsOut(t.right);
      forall a | a in Members(t.left) ensures a in size && size[a] < t.size {
        InItsRing(t.left, size, a);
      }
      forall a | a in Members(t.right) ensures a in size && size[a] > t.size {
        InItsRing(t.right, size, a);
      }
    }
  }

  lemma {:induction false} NilIsOut(t: Tree)
    requires Shaped(t)
    ensures NIL !in Members(t)
  {
    if t.Node? {
      NilIsOut(t.left);
      NilIsOut(t.right);
    }
  }

  // ---- Places in the tree -----------------------------------------------------------------------------

  /** A pointer to a tree pointer. */
  datatype Loc = Root | Var | LeftOf(a: int) | RightOf(a: int)

  function Slot(loc: Loc, root: int, arg: int, left: map<int, int>, right: map<int, int>): int {
    match loc
    case Root => root
    case Var => arg
    case LeftOf(a) => if a in left then left[a] else NIL
    case RightOf(a) => if a in right then right[a] else NIL
  }

  /** The rest of a tree around one of its places. */
  datatype Ctx = Hole | InLeft(up: Ctx, size: nat, ring: seq<int>,
                               right: Tree) | InRight(up: Ctx, left: Tree, size: nat, ring: seq<int>)

  function Plug(c: Ctx, t: Tree): Tree {
    match c
    case Hole => t
    case InLeft(up, size, ring, right) => Plug(up, Node(t, size, ring, right))
    case InRight(up, left, size, ring) => Plug(up, Node(left, size, ring, t))
  }

  function First(ring: seq<int>): int {
    if ring == [] then NIL else ring[0]
  }

  function LocOf(c: Ctx, start: Loc): Loc {
    match c
    case Hole => start
    case InLeft(_, _, ring, _) => LeftOf(First(ring))
    case InRight(_, _, _, ring) => RightOf(First(ring))
  }

  /** The walk for size s passes here. */
  predicate OnPath(c: Ctx, s: int) {
    match c
    case Hole => true
    case InLeft(up, size, _, _) => s < size && OnPath(up, s)
    case InRight(up, _, size, _) => s > size && OnPath(up, s)
  }

  function CtxMembers(c: Ctx): set<int> {
    match c
    case Hole => {}
    case InLeft(up, _, ring, right) => Elems(ring) + Members(right) + CtxMembers(up)
    case InRight(up, left, _, ring) => Elems(ring) + Members(left) + CtxMembers(up)
  }

  predicate CtxShaped(c: Ctx) {
    match c
    case Hole => true
    case InLeft(up, _, ring, right) => ring != [] && Elems(ring) + Members(right) !! CtxMembers(up)
                                       && Elems(ring) !! Members(right) && CtxShaped(up)
    case InRight(up, left, _, ring) => ring != [] && Elems(ring) + Members(left) !! CtxMembers(up)
                                       && Elems(ring) !! Members(left) && CtxShaped(up)
  }

  /** Everything around the place is linked; the place itself may point anywhere. */
  predicate CtxLinked(c: Ctx, start: Loc, root: int, arg: int, left: map<int, int>, right: map<int, int>) {
    match c
    case Hole => true
    case InLeft(up, _, ring, r) =>
      && ring != [] && ring[0] in left && ring[0] in right && right[ring[0]] == Head(r) && Linked(r, left, right)
      && Slot(LocOf(up, start), root, arg, left, right) == ring[0] && CtxLinked(up, start, root, arg, left, right)
    case InRight(up, l, _, ring) =>
      && ring != [] && ring[0] in left && ring[0] in right && left[ring[0]] == Head(l) && Linked(l, left, right)
      && Slot(LocOf(up, start), root, arg, left, right) == ring[0] && CtxLinked(up, start, root, arg, left, right)
  }

  lemma {:induction false} PlugLinked(c: Ctx, t: Tree, start: Loc, root: int, arg: int, left: map<int, int>,
                                      right: map<int, int>)
    ensures (Linked(Plug(c, t), left, right) && Slot(start, root, arg, left, right) == Head(Plug(c, t))) <==>
            (CtxLinked(c, start, root, arg, left, right) && Linked(t, left, right)
             && Slot(LocOf(c, start), root, arg, left, right) == Head(t))
  {
    match c
    case Hole =>
    case InLeft(up, size, ring, r) => PlugLinked(up, Node(t, size, ring, r), start, root, arg, left, right);
    case InRight(up, l, size, ring) => PlugLinked(up, Node(l, size, ring, t), start, root, arg, left, right);
  }

  lemma {:induction false} PlugShaped(c: Ctx, t: Tree)
    ensures Members(Plug(c, t)) == CtxMembers(c) + Members(t)
    ensures Shaped(Plug(c, t)) ==> Shaped(t) && CtxShaped(c) && CtxMembers(c) !! Members(t)
  {
    match c
    case Hole =>
    case InLeft(up, size, ring, r) => PlugShaped(up, Node(t, size, ring, r));
    case InRight(up, l, size, ring) => PlugShaped(up, Node(l, size, ring, t));
  }

  lemma {:induction false} PlugOrdered(c: Ctx, t: Tree)
    ensures Ordered(Plug(c, t)) ==> Ordered(t)
  {
    match c
    case Hole =>
    case InLeft(up, size, ring, r) => PlugOrdered(up, Node(t, size, ring, r));
    case InRight(up, l, size, ring) => PlugOrdered(up, Node(l, size, ring, t));
  }

  lemma {:induction false} CtxFrame(c: Ctx, start: Loc, root: int, arg: int, left: map<int, int>, right: map<int, int>,
                                    root': int, arg': int, left': map<int, int>, right': map<int, int>)
    requires CtxShaped(c) && CtxLinked(c, start, root, arg, left, right)
    requires start.LeftOf? || start.RightOf? ==> start.a !in CtxMembers(c)
    requires c != Hole ==> Slot(start, root', arg', left', right') == Slot(start, root, arg, left, right)
    requires forall a | a in CtxMembers(c) && LeftOf(a) != LocOf(c, start) && a in left ::
               a in left' && left'[a] == left[a]
    requires forall a | a in CtxMembers(c) && RightOf(a) != LocOf(c, start) && a in right ::
               a in right' && right'[a] == right[a]
    requires forall a | a in CtxMembers(c) :: (a in left ==> a in left') && (a in right ==> a in right')
    ensures CtxLinked(c, start, root', arg', left', right')
  {
    match c
    case Hole =>
    case InLeft(up, size, ring, r) =>
      assert ring[0] in Elems(ring) && ring[0] in CtxMembers(c);
      assert up != Hole ==> First(up.ring) in CtxMembers(up);
      CtxFrame(up, start, root, arg, left, right, root', arg', left', right');
      LinkedFrame(r, left, right, left', right');
    case InRight(up, l, size, ring) =>
      assert ring[0] in Elems(ring) && ring[0] in CtxMembers(c);
      assert up != Hole ==> First(up.ring) in CtxMembers(up);
      CtxFrame(up, start, root, arg, left, right, root', arg', left', right');
      LinkedFrame(l, left, right, left', right');
  }

  predicate CtxRings(c: Ctx, next: map<int, int>, prev: map<int, int>) {
    match c
    case Hole => true
    case InLeft(up, _, ring, r) => Circular(ring, next, prev) && Rings(r, next, prev) && CtxRings(up, next, prev)
    case InRight(up, l, _, ring) => Circular(ring, next, prev) && Rings(l, next, prev) && CtxRings(up, next, prev)
  }

  lemma {:induction false} PlugRings(c: Ctx, t: Tree, next: map<int, int>, prev: map<int, int>)
    ensures Rings(Plug(c, t), next, prev) <==> CtxRings(c, next, prev) && Rings(t, next, prev)
  {
    match c
    case Hole =>
    case InLeft(up, size, ring, r) => PlugRings(up, Node(t, size, ring, r), next, prev);
    case InRight(up, l, size, ring) => PlugRings(up, Node(l, size, ring, t), next, prev);
  }

  lemma {:induction false} CtxRingsFrame(c: Ctx, next: map<int, int>, prev: map<int, int>, next': map<int, int>,
                                         prev': map<int, int>)
    requires CtxRings(c, next, prev) && Same(next, next', CtxMembers(c)) && Same(prev, prev', CtxMembers(c))
    ensures CtxRings(c, next', prev')
  {
    match c
    case Hole =>
    case InLeft(up, _, ring, r) =>
      CircularFrame(ring, next, prev, next', prev');
      RingsFrame(r, next, prev, next', prev');
      CtxRingsFrame(up, next, prev, next', prev');
    case InRight(up, l, _, ring) =>
      CircularFrame(ring, next, prev, next', prev');
      RingsFrame(l, next, prev, next', prev');
      CtxRingsFrame(up, next, prev, next', prev');
  }

  predicate CtxSized(c: Ctx, size: map<int, int>) {
    match c
    case Hole => true
    case InLeft(up, s, ring, r) => (forall a | a in ring :: a in size && size[a] == s) && Sized(r, size)
                                   && CtxSized(up, size)
    case InRight(up, l, s, ring) => (forall a | a in ring :: a in size && size[a] == s) && Sized(l, size)
                                    && CtxSized(up, size)
  }

  lemma {:induction false} PlugSized(c: Ctx, t: Tree, size: map<int, int>)
    ensures Sized(Plug(c, t), size) <==> CtxSized(c, size) && Sized(t, size)
  {
    match c
    case Hole =>
    case InLeft(up, s, ring, r) => PlugSized(up, Node(t, s, ring, r), size);
    case InRight(up, l, s, ring) => PlugSized(up, Node(l, s, ring, t), size);
  }

  /** Adding, removing and looking up at the place where the walk ends. */
  lemma {:induction false} PlugPath(c: Ctx, t: Tree, s: nat, a: int)
    requires OnPath(c, s)
    ensures Add(Plug(c, t), s, a) == Plug(c, Add(t, s, a)) && Del(Plug(c, t), s, a) == Plug(c, Del(t, s, a))
    ensures RingOf(Plug(c, t), s) == RingOf(t, s)
  {
    match c
    case Hole =>
    case InLeft(up, size, ring, r) => PlugPath(up, Node(t, size, ring, r), s, a);
    case InRight(up, l, size, ring) => PlugPath(up, Node(l, size, ring, t), s, a);
  }

  // ---- One place changes --------------------------------------------------------------------------------

  lemma ReplacedLinks(c: Ctx, sub: Tree, sub': Tree, root: int, left: map<int, int>, right: map<int, int>,
                      root': int, left': map<int, int>, right': map<int, int>)
    requires Shaped(Plug(c, sub)) && Linked(Plug(c, sub), left, right) && root == Head(Plug(c, sub))
    requires Linked(sub', left', right') && Slot(LocOf(c, Root), root', NIL, left', right') == Head(sub')
    requires c != Hole ==> root' == root
    requires forall a | a in CtxMembers(c) && LeftOf(a) != LocOf(c, Root) && a in left ::
               a in left' && left'[a] == left[a]
    requires forall a | a in CtxMembers(c) && RightOf(a) != LocOf(c, Root) && a in right ::
               a in right' && right'[a] == right[a]
    requires forall a | a in CtxMembers(c) :: (a in left ==> a in left') && (a in right ==> a in right')
    ensures Linked(Plug(c, sub'), left', right') && root' == Head(Plug(c, sub'))
  {
    PlugLinked(c, sub, Root, root, NIL, left, right);
    PlugShaped(c, sub);
    CtxFrame(c, Root, root, NIL, left, right, root', NIL, left', right');
    PlugLinked(c, sub', Root, root', NIL, left', right');
  }

  lemma ReplacedRings(c: Ctx, sub: Tree, sub': Tree, next: map<int, int>, prev: map<int, int>, next': map<int, int>,
                      prev': map<int, int>)
    requires Shaped(Plug(c, sub)) && Rings(Plug(c, sub), next, prev) && Rings(sub', next', prev')
    requires Same(next, next', CtxMembers(c)) && Same(prev, prev', CtxMembers(c))
    ensures Rings(Plug(c, sub'), next', prev')
  {
    PlugRings(c, sub, next, prev);
    CtxRingsFrame(c, next, prev, next', prev');
    PlugRings(c, sub', next', prev');
  }

  lemma {:induction false} DropLeastRings(t: Tree, next: map<int, int>, prev: map<int, int>, size: map<int, int>)
    requires t.Node? && Rings(t, next, prev) && Sized(t, size)
    ensures Rings(DropLeast(t), next, prev) && Circular(Least(t).ring, next, prev)
    ensures Sized(DropLeast(t), size) && forall a | a in Least(t).ring :: a in size && size[a] == Least(t).size
  {
    if t.left.Node? {
      DropLeastRings(t.left, next, prev, size);
    }
  }

  lemma DropRootRings(t: Tree, next: map<int, int>, prev: map<int, int>, size: map<int, int>)
    requires t.Node? && Rings(t, next, prev) && Sized(t, size)
    ensures Rings(DropRoot(t), next, prev) && Sized(DropRoot(t), size)
  {
    if t.left.Node? && t.right.Node? {
      DropLeastRings(t.right, next, prev, size);
    }
  }
}
