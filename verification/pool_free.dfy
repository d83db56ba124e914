/**
 The routines of lib9/pool.c on the tree of free blocks: ltreewalk, treeinsert,
 treedelete, treelookupgt, listadd, listdelete, and the linking parts of pooladd and
 pooldel, each proved to represent the corresponding operation on PoolTree.Tree.
 Sizes are in the block headers, which these routines only read.
 */
module PoolFree {
  import opened PoolTree

  /** After the successor's place points to the successor's right child. */
  lemma Spliced(c: Ctx, m: Tree, node: int, left: map<int, int>, right: map<int, int>, left1: map<int, int>,
                right1: map<int, int>)
    requires Shaped(Plug(c, m)) && Linked(Plug(c, m), left, right) && node !in Members(Plug(c, m)) && node in right
    requires right[node] == Head(Plug(c, m)) && m.Node? && m.left.Leaf? && m.ring != [] && m.ring[0] in right
    requires var loc := LocOf(c, RightOf(node));
             && left1 == (if loc.LeftOf? then left[loc.a := right[m.ring[0]]] else left)
             && right1 == (if loc.RightOf? then right[loc.a := right[m.ring[0]]] else right)
    ensures Linked(Plug(c, m.right), left1, right1) && node in right1 && right1[node] == Head(Plug(c, m.right))
    ensures forall a | a !in Members(Plug(c, m)) && a in left :: a in left1 && left1[a] == left[a]
    ensures forall a | a !in Members(Plug(c, m)) && a != node && a in right :: a in right1 && right1[a] == right[a]
  {
    var start := RightOf(node);
    PlugLinked(c, m, start, NIL, NIL, left, right);
    PlugShaped(c, m);
    assert c != Hole ==> First(c.ring) in CtxMembers(c);
    CtxFrame(c, start, NIL, NIL, left, right, NIL, NIL, left1, right1);
    LinkedFrame(m.right, left, right, left1, right1);
    PlugLinked(c, m.right, start, NIL, NIL, left1, right1);
  }

  /** The successor, out of its place, takes over the node's children. */
  lemma SuccessorLinked(t: Tree, node: int, left0: map<int, int>, right0: map<int, int>, left1: map<int, int>,
                        right1: map<int, int>)
    requires t.Node? && node == Head(t) && Shaped(t) && Ordered(t) && t.left.Node? && t.right.Node?
             && Linked(t, left0, right0)
    requires Linked(DropLeast(t.right), left1, right1) && node in right1 && right1[node] == Head(DropLeast(t.right))
    requires forall a | a !in Members(t.right) && a in left0 :: a in left1 && left1[a] == left0[a]
    requires forall a | a !in Members(t.right) && a != node && a in right0 :: a in right1 && right1[a] == right0[a]
    ensures Least(t.right).ring != [] && Least(t.right).ring[0] in Members(t) && node in left1
    ensures Linked(DropRoot(t), left1[Least(t.right).ring[0] := left1[node]],
                   right1[Least(t.right).ring[0] := right1[node]])
  {
    DropLeastKeeps(t.right);
    var m, u := Least(t.right), DropLeast(t.right);
    assert node in Elems(t.ring) && m.ring[0] in Elems(m.ring);
    var left, right := left1[m.ring[0] := left1[node]], right1[m.ring[0] := right1[node]];
    LinkedFrame(u, left1, right1, left, right);
    assert m.ring[0] in Members(t.right);
    LinkedFrame(t.left, left0, right0, left, right);
  }

  /** The ring at a place, and a block that is not in the tree. */
  predicate RingAt(c: Ctx, sub: Tree, ring: seq<int>, node: int, next: map<int, int>, prev: map<int, int>) {
    && ring == (if sub.Leaf? then [] else sub.ring) && NIL !in ring && node !in ring && NoDup(ring)
    && Circular(ring, next, prev)
    && CtxMembers(c) !! Elems(ring) && node !in CtxMembers(c)
  }

  lemma RingAtPlace(c: Ctx, sub: Tree, node: int, next: map<int, int>, prev: map<int, int>)
    requires Shaped(Plug(c, sub)) && Rings(Plug(c, sub), next, prev) && node !in Members(Plug(c, sub))
    ensures RingAt(c, sub, if sub.Leaf? then [] else sub.ring, node, next, prev)
  {
    PlugShaped(c, sub);
    PlugRings(c, sub, next, prev);
    if sub.Node? {
      assert node !in Elems(sub.ring);
    }
  }

  lemma AddedLinks(c: Ctx, sub: Tree, node: int, s: nat, root: int, left: map<int, int>, right: map<int, int>,
                   root': int, left': map<int, int>, right': map<int, int>)
    requires Shaped(Plug(c, sub)) && Linked(Plug(c, sub), left, right) && root == Head(Plug(c, sub))
    requires node !in Members(Plug(c, sub)) && node != NIL && (sub.Leaf? || sub.size == s)
    requires sub.Node? ==> root' == root && left' == left && right' == right
    requires sub.Leaf? ==>
               var loc := LocOf(c, Root);
               && root' == (if loc.Root? then node else root)
               && left' == (if loc.LeftOf? then left[node := NIL][loc.a := node] else left[node := NIL])
               && right' == (if loc.RightOf? then right[node := NIL][loc.a := node] else right[node := NIL])
    ensures Linked(Plug(c, Add(sub, s, node)), left', right') && root' == Head(Plug(c, Add(sub, s, node)))
  {
    PlugShaped(c, sub);
    PlugLinked(c, sub, Root, root, NIL, left, right);
    assert c != Hole ==> First(c.ring) in CtxMembers(c);
    ReplacedLinks(c, sub, Add(sub, s, node), root, left, right, root', left', right');
  }

  lemma AddedRings(c: Ctx, sub: Tree, node: int, size: map<int, int>, next: map<int, int>, prev: map<int, int>,
                   next': map<int, int>, prev': map<int, int>)
    requires Shaped(Plug(c, sub)) && Rings(Plug(c, sub), next, prev) && Sized(Plug(c, sub), size)
    requires node in size && size[node] >= 0 && node !in Members(Plug(c, sub)) && (sub.Leaf? || sub.size == size[node])
    requires var ring := if sub.Leaf? then [] else sub.ring;
             && Circular(ring + [node], next', prev')
             && (forall a | a !in ring && a != node && a in next :: a in next' && next'[a] == next[a])
             && (forall a | a !in ring && a != node && a in prev :: a in prev' && prev'[a] == prev[a])
    ensures Rings(Plug(c, Add(sub, size[node], node)), next', prev') && Sized(Plug(c, Add(sub, size[node], node)), size)
  {
    RingAtPlace(c, sub, node, next, prev);
    PlugShaped(c, sub);
    PlugRings(c, sub, next, prev);
    PlugSized(c, sub, size);
    var sub' := Add(sub, size[node], node);
    PlugSized(c, sub', size);
    if sub.Node? {
      RingsFrame(sub.left, next, prev, next', prev');
      RingsFrame(sub.right, next, prev, next', prev');
    } else {
      assert [] + [node] == [node];
    }
    ReplacedRings(c, sub, sub', next, prev, next', prev');
  }

  lemma SizesNat(t: Tree, size: map<int, int>, a: int)
    requires Ordered(t) && Sized(t, size) && a in size && a in RingOf(t, size[a])
    ensures size[a] >= 0
  {
    if t.size != size[a] {
      SizesNat(if size[a] < t.size then t.left else t.right, size, a);
    }
  }

  /** The block is in the ring at the place its size leads to. */
  lemma PlaceInRing(c: Ctx, sub: Tree, node: int, size: map<int, int>, next: map<int, int>, prev: map<int, int>,
                    left: map<int, int>, right: map<int, int>) returns (k: nat)
    requires Shaped(Plug(c, sub)) && Rings(Plug(c, sub), next, prev) && Linked(Plug(c, sub), left, right)
    requires node in size && node in RingOf(sub, size[node]) && (sub.Leaf? || sub.size == size[node])
    ensures sub.Node? && Shaped(sub) && k < |sub.ring| && sub.ring[k] == node && NoDup(sub.ring)
            && Circular(sub.ring, next, prev)
  {
    PlugShaped(c, sub);
    PlugRings(c, sub, next, prev);
    k :| k < |sub.ring| && sub.ring[k] == node;
  }

  /** The node's place and links go to the new head of its ring. */
  lemma NewHead(c: Ctx, sub: Tree, node: int, root: int, left: map<int, int>, right: map<int, int>,
                root': int, left': map<int, int>, right': map<int, int>)
    requires Shaped(Plug(c, sub)) && Linked(Plug(c, sub), left, right) && root == Head(Plug(c, sub))
    requires sub.Node? && node in sub.ring && Without(sub.ring, node) != []
    requires var loc, head := LocOf(c, Root), Without(sub.ring, node)[0];
             && root' == (if loc.Root? then head else root)
             && left' == (if loc.LeftOf? then left[head := Head(sub.left)][loc.a := head]
                          else left[head := Head(sub.left)])
             && right' == (if loc.RightOf? then right[head := Head(sub.right)][loc.a := head]
                           else right[head := Head(sub.right)])
    ensures Linked(Plug(c, Del(sub, sub.size, node)), left', right') && root' == Head(Plug(c, Del(sub, sub.size, node)))
  {
    PlugShaped(c, sub);
    PlugLinked(c, sub, Root, root, NIL, left, right);
    WithoutElems(sub.ring, node);
    var head := Without(sub.ring, node)[0];
    assert head in Elems(Without(sub.ring, node));
    assert c != Hole ==> First(c.ring) in CtxMembers(c);
    LinkedFrame(sub.left, left, right, left', right');
    LinkedFrame(sub.right, left, right, left', right');
    ReplacedLinks(c, sub, Del(sub, sub.size, node), root, left, right, root', left', right');
  }

  lemma RemovedRings(c: Ctx, sub: Tree, node: int, size: map<int, int>, next: map<int, int>, prev: map<int, int>,
                     next': map<int, int>, prev': map<int, int>)
    requires Shaped(Plug(c, sub)) && Ordered(sub) && Rings(Plug(c, sub), next, prev) && Sized(Plug(c, sub), size)
    requires sub.Node? && node in sub.ring && Circular(Without(sub.ring, node), next', prev')
    requires forall a | a !in sub.ring && a in next :: a in next' && next'[a] == next[a]
    requires forall a | a !in sub.ring && a in prev :: a in prev' && prev'[a] == prev[a]
    ensures Rings(Plug(c, Del(sub, sub.size, node)), next', prev') && Sized(Plug(c, Del(sub, sub.size, node)), size)
  {
    PlugShaped(c, sub);
    PlugRings(c, sub, next, prev);
    PlugSized(c, sub, size);
    WithoutElems(sub.ring, node);
    var sub' := Del(sub, sub.size, node);
    PlugSized(c, sub', size);
    if Without(sub.ring, node) == [] {
      DropRootRings(sub, next, prev, size);
      DropRootKeeps(sub);
      RingsFrame(sub', next, prev, next', prev');
    } else {
      RingsFrame(sub.left, next, prev, next', prev');
      RingsFrame(sub.right, next, prev, next', prev');
      forall a | a in sub'.ring ensures a in sub.ring {
        assert a in Elems(sub'.ring);
      }
    }
    ReplacedRings(c, sub, sub', next, prev, next', prev');
  }

  class FreeTree {
    var root: int                // p->freeroot
    var arg: int                 // the tree parameter of treeinsert and treedelete, whose address is taken
    var left: map<int, int>
    var right: map<int, int>
    var next: map<int, int>
    var prev: map<int, int>
    ghost var tree: Tree

    constructor ()
      ensures Valid(map[]) && tree == Leaf
    {
      root, arg, left, right, next, prev, tree := NIL, NIL, map[], map[], map[], map[], Leaf;
    }

    ghost predicate Valid(size: map<int, int>)
      reads this
    {
      && Shaped(tree) && Ordered(tree) && Linked(tree, left, right) && root == Head(tree)
      && Rings(tree, next, prev) && Sized(tree, size)
    }

    function At(loc: Loc): int
      reads this
    {
      Slot(loc, root, arg, left, right)
    }

    method Write(loc: Loc, v: int)
      modifies this`root, this`arg, this`left, this`right
      ensures root == (if loc.Root? then v else old(root)) && arg == (if loc.Var? then v else old(arg))
      ensures left == (if loc.LeftOf? then old(left)[loc.a := v] else old(left))
      ensures right == (if loc.RightOf? then old(right)[loc.a := v] else old(right))
    {
      match loc {
        case Root => root := v;
        case Var => arg := v;
        case LeftOf(a) => left := left[a := v];
        case RightOf(a) => right := right[a := v];
      }
    }

    /** ltreewalk: the place of the node of size s below start, or the place where it would go. */
    method Ltreewalk(start: Loc, s: int, size: map<int, int>, ghost t: Tree)
      returns (loc: Loc, ghost c: Ctx, ghost sub: Tree)
      requires Linked(t, left, right) && At(start) == Head(t) && Shaped(t) && Sized(t, size)
      ensures Plug(c, sub) == t && OnPath(c, s) && loc == LocOf(c, start) && At(loc) == Head(sub)
      ensures (sub.Leaf? || sub.size == s) && (t.Leaf? || t.size == s ==> c == Hole && sub == t)
    {
      loc, c, sub := start, Hole, t;
      while true
        invariant Plug(c, sub) == t && OnPath(c, s) && loc == LocOf(c, start) && At(loc) == Head(sub)
        invariant Linked(sub, left, right) && Shaped(sub) && Sized(sub, size)
        invariant if c == Hole then sub == t else t.Node? && t.size != s
        decreases sub
      {
        var n := At(loc);
        assert sub.Node? ==> sub.ring[0] in sub.ring;
        if n == NIL || s == size[n] {
          return;
        }
        if s < size[n] {
          loc, c, sub := LeftOf(n), InLeft(c, sub.size, sub.ring, sub.right), sub.left;
        } else {
          loc, c, sub := RightOf(n), InRight(c, sub.left, sub.size, sub.ring), sub.right;
        }
      }
    }

    /** treelookupgt: the smallest free block of at least s bytes. */
    method Treelookupgt(s: nat, size: map<int, int>) returns (lastgood: int)
      requires Valid(size)
      ensures lastgood == BestFit(tree, s, NIL)
    {
      lastgood := NIL;
      var t := root;
      ghost var sub := tree;
      while t != NIL
        invariant t == Head(sub) && Linked(sub, left, right) && Shaped(sub) && Sized(sub, size)
        invariant BestFit(tree, s, NIL) == BestFit(sub, s, lastgood)
        decreases sub
      {
        assert sub.ring[0] in sub.ring;
        if s == size[t] {
          return t;
        }
        if s < size[t] {
          lastgood := t;
          t, sub := left[t], sub.left;
        } else {
          t, sub := right[t], sub.right;
        }
      }
    }

    /** listadd: node goes to the end of the ring that starts at list. */
    method Listadd(list: int, node: int, ghost ring: seq<int>) returns (head: int)
      requires list == First(ring) && NIL !in ring && node !in ring && NoDup(ring) && Circular(ring, next, prev)
      modifies this`next, this`prev
      ensures head == First(ring + [node]) && NoDup(ring + [node]) && Circular(ring + [node], next, prev)
      ensures forall a | a !in ring && a != node && a in old(next) :: a in next && next[a] == old(next)[a]
      ensures forall a | a !in ring && a != node && a in old(prev) :: a in prev && prev[a] == old(prev)[a]
    {
      if list == NIL {
        next, prev := next[node := node], prev[node := node];
        return node;
      }
      LastInRing(ring, next, prev);
      AddedToRing(ring, node, next, prev, next[node := list][prev[list] := node],
                  prev[node := prev[list]][list := node]);
      prev := prev[node := prev[list]];
      next := next[node := list];
      next := next[prev[node] := node];
      prev := prev[next[node] := node];
      return list;
    }

    /** listdelete: node leaves the ring that starts at list. */
    method Listdelete(list: int, node: int, ghost ring: seq<int>, ghost k: nat) returns (head: int)
      requires k < |ring| && ring[k] == node && list == ring[0] && NoDup(ring) && Circular(ring, next, prev)
      modifies this`next, this`prev
      ensures head == First(Without(ring, node)) && Circular(Without(ring, node), next, prev)
      ensures forall a | a !in ring && a in old(next) :: a in next && next[a] == old(next)[a]
      ensures forall a | a !in ring && a in old(prev) :: a in prev && prev[a] == old(prev)[a]
    {
      Neighbours(ring, k, next, prev);
      WithoutAt(ring, k, 0);
      if next[node] == node {
        assert |ring| == 1;
        prev, next := prev[node := POISON], next[node := POISON];
        return NIL;
      }
      RemovedFromRing(ring, k, next, prev, next[prev[node] := next[node]][node := POISON],
                      prev[next[node] := prev[node]][node := POISON]);
      head := list;
      prev := prev[next[node] := prev[node]];
      next := next[prev[node] := next[node]];
      if head == node {
        head := next[node];
      }
      prev, next := prev[node := POISON], next[node := POISON];
    }

    /** treeinsert, at an empty place or in place of the node of its own size. */
    method Treeinsert(t: int, node: int, size: map<int, int>, ghost sub: Tree) returns (r: int)
      requires t == Head(sub) && Linked(sub, left, right) && Shaped(sub) && Sized(sub, size)
      requires node in size && (sub.Leaf? || sub.size == size[node])
      modifies this`root, this`arg, this`left, this`right
      ensures r == node && root == old(root)
      ensures left == old(left)[node := if sub.Leaf? then NIL else Head(sub.left)]
      ensures right == old(right)[node := if sub.Leaf? then NIL else Head(sub.right)]
    {
      arg := t;
      ghost var c, at;
      var loc;
      loc, c, at := Ltreewalk(Var, size[node], size, sub);
      if At(loc) == NIL {
        left, right := left[node := NIL], right[node := NIL];
      } else {
        assert sub.ring[0] in sub.ring;
        var repl := At(loc);
        left, right := left[node := left[repl]], right[node := right[repl]];
      }
      Write(loc, node);
      r := arg;
    }

    /** The walk of treedelete to the inorder successor: left as far as it goes. */
    method Successor(node: int, ghost t: Tree) returns (lsucc: Loc, ghost c: Ctx, ghost sub: Tree)
      requires t.Node? && Shaped(t) && Linked(t, left, right) && node in right && right[node] == Head(t)
               && node !in Members(t)
      ensures lsucc == LocOf(c, RightOf(node)) && At(lsucc) == Head(sub) && Plug(c, sub) == t
      ensures sub.Node? && Linked(sub, left, right) && sub.left.Leaf? && sub == Least(t)
              && DropLeast(t) == Plug(c, sub.right)
    {
      lsucc, c, sub := RightOf(node), Hole, t;
      while left[At(lsucc)] != NIL
        invariant lsucc == LocOf(c, RightOf(node)) && At(lsucc) == Head(sub) && Plug(c, sub) == t && sub.Node?
        invariant Linked(sub, left, right) && Shaped(sub)
        invariant Least(t) == Least(sub) && Plug(c, DropLeast(sub)) == DropLeast(t)
        decreases sub
      {
        lsucc, c, sub := LeftOf(At(lsucc)), InLeft(c, sub.size, sub.ring, sub.right), sub.left;
      }
    }

    /** treedelete of the node at the top of sub. */
    method Treedelete(t: int, node: int, size: map<int, int>, ghost sub: Tree) returns (r: int)
      requires t == node == Head(sub) && sub.Node? && Linked(sub, left, right) && Shaped(sub) && Ordered(sub)
               && Sized(sub, size)
      modifies this`root, this`arg, this`left, this`right
      ensures r == Head(DropRoot(sub)) && Linked(DropRoot(sub), left, right) && root == old(root)
      ensures forall a | a !in Members(sub) && a in old(left) :: a in left && left[a] == old(left)[a]
      ensures forall a | a !in Members(sub) && a in old(right) :: a in right && right[a] == old(right)[a]
    {
      arg := t;
      assert node in sub.ring;
      ghost var c, at;
      var loc;
      loc, c, at := Ltreewalk(Var, size[node], size, sub);
      DropRootKeeps(sub);
      if left[node] == NIL {
        Write(loc, right[node]);
      } else if right[node] == NIL {
        Write(loc, left[node]);
      } else {
        var succ := TwoChildren(node, sub);
        Write(loc, succ);
      }
      ghost var left', right' := left, right;
      left, right := left[node := POISON], right[node := POISON];
      r := arg;
      assert Linked(DropRoot(sub), left', right');
      LinkedFrame(DropRoot(sub), left', right', left, right);
    }

    /** The node has two children: its successor leaves its place and takes the node's links. */
    method TwoChildren(node: int, ghost sub: Tree) returns (succ: int)
      requires sub.Node? && node == Head(sub) && Linked(sub, left, right) && Shaped(sub) && Ordered(sub)
      requires sub.left.Node? && sub.right.Node?
      modifies this`root, this`arg, this`left, this`right
      ensures succ == Head(DropRoot(sub)) && Linked(DropRoot(sub), left, right) && root == old(root) && arg == old(arg)
      ensures forall a | a !in Members(sub) && a in old(left) :: a in left && left[a] == old(left)[a]
      ensures forall a | a !in Members(sub) && a in old(right) :: a in right && right[a] == old(right)[a]
    {
      assert node in sub.ring;
      ghost var left0, right0 := left, right;
      ghost var c, m;
      var lsucc;
      lsucc, c, m := Successor(node, sub.right);
      succ := At(lsucc);
      Write(lsucc, right[succ]);
      Spliced(c, m, node, left0, right0, left, right);
      ghost var left1, right1 := left, right;
      left := left[succ := left[node]];
      right := right[succ := right[node]];
      SuccessorLinked(sub, node, left0, right0, left1, right1);
    }

    /** pooladd: the block joins the ring of its size, or starts one. */
    method Pooladd(node: int, size: map<int, int>)
      requires Valid(size) && node in size && size[node] >= 0 && node !in Members(tree) && node != NIL
      modifies this
      ensures Valid(size) && tree == Add(old(tree), size[node], node)
    {
      hide Shaped, Ordered, Sized, Members, CtxMembers, Plug, Add, Circular;
      ghost var c, sub;
      var parent;
      parent, c, sub := Ltreewalk(Root, size[node], size, tree);
      PlugShaped(c, sub);
      var olst := At(parent);
      ghost var ring := if sub.Leaf? then [] else sub.ring;
      ghost var root0, left0, right0, next0, prev0 := root, left, right, next, prev;
      assert RingAt(c, sub, ring, node, next, prev) by {
        RingAtPlace(c, sub, node, next, prev);
      }
      var lst := Listadd(olst, node, ring);
      PlugLinked(c, sub, Root, root, NIL, left, right);
      PlugSized(c, sub, size);
      if olst != lst {
        var v := Treeinsert(At(parent), lst, size, sub);
        Write(parent, v);
      }
      AddedLinks(c, sub, node, size[node], root0, left0, right0, root, left, right);
      AddedRings(c, sub, node, size, next0, prev0, next, prev);
      PlugPath(c, sub, size[node], node);
      AddKeeps(tree, size[node], node);
      tree := Add(tree, size[node], node);
    }

    /** pooldel: the block leaves its ring; the ring's node goes too, or gets a new head, if need be. */
    method Pooldel(node: int, size: map<int, int>)
      requires Valid(size) && node in Members(tree)
      modifies this
      ensures Valid(size) && node in size && size[node] >= 0 && tree == Del(old(tree), size[node], node)
      ensures Members(tree) == Members(old(tree)) - {node}
    {
      InItsRing(tree, size, node);
      SizesNat(tree, size, node);
      ghost var c, sub;
      var parent;
      parent, c, sub := Ltreewalk(Root, size[node], size, tree);
      PlugPath(c, sub, size[node], node);
      PlugOrdered(c, sub);
      ghost var k := PlaceInRing(c, sub, node, size, next, prev, left, right);
      var olst := At(parent);
      ghost var root0, left0, right0, next0, prev0 := root, left, right, next, prev;
      var lst := Listdelete(olst, node, sub.ring, k);
      UnlinkRing(parent, olst, lst, node, size, c, sub);
      RemovedRings(c, sub, node, size, next0, prev0, next, prev);
      DelKeeps(tree, size[node], node);
      tree := Del(tree, size[node], node);
      ghost var left1, right1 := left, right;
      left, right := left[node := POISON], right[node := POISON];
      LinkedFrame(tree, left1, right1, left, right);
    }

    /** The part of pooldel on the tree. */
    method UnlinkRing(parent: Loc, olst: int, lst: int, node: int, size: map<int, int>, ghost c: Ctx, ghost sub: Tree)
      requires Shaped(Plug(c, sub)) && Ordered(sub) && Linked(Plug(c, sub), left, right) && root == Head(Plug(c, sub))
               && Sized(Plug(c, sub), size)
      requires sub.Node? && parent == LocOf(c, Root) && node in sub.ring && olst == Head(sub) == At(parent)
               && lst == First(Without(sub.ring, node))
      modifies this`root, this`arg, this`left, this`right
      ensures Linked(Plug(c, Del(sub, sub.size, node)), left, right) && root == Head(Plug(c, Del(sub, sub.size, node)))
    {
      ghost var root0, left0, right0 := root, left, right;
      PlugShaped(c, sub);
      PlugLinked(c, sub, Root, root, NIL, left, right);
      PlugSized(c, sub, size);
      WithoutElems(sub.ring, node);
      assert c != Hole ==> First(c.ring) in CtxMembers(c);
      assert lst != NIL ==> lst in Elems(Without(sub.ring, node));
      assert NIL !in Elems(sub.ring);
      if lst == NIL {
        var v := Treedelete(At(parent), olst, size, sub);
        ghost var left1, right1 := left, right;
        Write(parent, v);
        DropRootKeeps(sub);
        LinkedFrame(DropRoot(sub), left1, right1, left, right);
        ReplacedLinks(c, sub, DropRoot(sub), root0, left0, right0, root, left, right);
      } else if lst != olst {
        var v := Treeinsert(At(parent), lst, size, sub);
        Write(parent, v);
        NewHead(c, sub, node, root0, left0, right0, root, left, right);
      } else {
        ReplacedLinks(c, sub, Del(sub, sub.size, node), root, left, right, root, left, right);
      }
    }
  }
}
