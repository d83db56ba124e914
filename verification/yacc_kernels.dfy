/**
 LR(0) states: the goto of a kernel, the kernels reachable from that of $accept,
 and the sorted order in which a state keeps its items.
 */
module YaccKernels {
  import opened YaccGrammar
  import opened YaccFirst
  import opened YaccClosure

  /** The symbol after the dot. */
  function AfterDot(g: Grammar, it: Item): Sym
    requires ItemOk(g, it) && it.dot < |g.prods[it.prod].rhs|
  {
    g.prods[it.prod].rhs[it.dot]
  }

  predicate Moves(g: Grammar, it: Item, s: Sym) {
    ItemOk(g, it) && it.dot < |g.prods[it.prod].rhs| && AfterDot(g, it) == s
  }

  function Advance(it: Item): Item {
    Item(it.prod, it.dot + 1)
  }

  ghost function AllItems(g: Grammar): set<Item> {
    set p: nat, d: nat | p < |g.prods| && d <= |g.prods[p].rhs| :: Item(p, d)
  }

  /** The kernel reached from kernel k on symbol s; empty when there is no transition. */
  ghost function Goto(g: Grammar, k: set<Item>, s: Sym): set<Item> {
    set it | it in AllItems(g) && Moves(g, it, s) && InClosure(g, k, it) :: Advance(it)
  }

  lemma InGoto(g: Grammar, k: set<Item>, s: Sym, it: Item)
    ensures Advance(it) in Goto(g, k, s) <==> Moves(g, it, s) && InClosure(g, k, it)
  {
    if Moves(g, it, s) {
      assert it in AllItems(g);
    }
  }

  /** There are no transitions on $end. */
  ghost predicate GotoClosed(g: Grammar, f: iset<set<Item>>) {
    forall k, s | k in f && s != T(1) && Goto(g, k, s) != {} :: Goto(g, k, s) in f
  }

  const START: Item := Item(0, 0)

  /** k belongs to every family that contains the $accept kernel and is closed under goto. */
  ghost predicate Reachable(g: Grammar, k: set<Item>) {
    forall f: iset<set<Item>> :: GotoClosed(g, f) && {START} in f ==> k in f
  }

  lemma ReachableStep(g: Grammar, k: set<Item>, s: Sym)
    requires Reachable(g, k) && s != T(1) && Goto(g, k, s) != {}
    ensures Reachable(g, Goto(g, k, s))
  {
  }

  // ---- The order of items ----------------------------------------------------------------------

  predicate Less(a: Item, b: Item) {
    a.prod < b.prod || (a.prod == b.prod && a.dot < b.dot)
  }

  ghost predicate SortedKernel(k: seq<KItem>) {
    forall i, j | 0 <= i < j < |k| :: Less(k[i].item, k[j].item)
  }

  lemma {:induction false} SortedAt(a: seq<KItem>, b: seq<KItem>, k: nat)
    requires SortedKernel(a) && SortedKernel(b) && ItemsOf(a) == ItemsOf(b)
    requires k < |a|
    ensures k < |b| && a[k].item == b[k].item
  {
    forall l | 0 <= l < k ensures l < |b| && a[l].item == b[l].item {
      SortedAt(a, b, l);
    }
    assert a[k].item in ItemsOf(b);
    assert forall l | 0 <= l < k :: Less(b[l].item, a[k].item);
    var x :| 0 <= x < |b| && b[x].item == a[k].item;
    assert b[k].item in ItemsOf(a);
    var y :| 0 <= y < |a| && a[y].item == b[k].item;
    assert x >= k && y >= k;
    NotBelow(b, k, x);
    NotBelow(a, k, y);
  }

  lemma NotBelow(s: seq<KItem>, k: nat, x: nat)
    requires SortedKernel(s) && k <= x < |s|
    ensures !Less(s[x].item, s[k].item)
  {
    assert k == x || Less(s[k].item, s[x].item);
  }

  lemma {:induction false} SortedSameLength(a: seq<KItem>, b: seq<KItem>)
    requires SortedKernel(a) && SortedKernel(b) && ItemsOf(a) == ItemsOf(b)
    ensures |a| <= |b|
  {
    if a != [] {
      SortedAt(a, b, |a| - 1);
    }
  }

  ghost predicate SameItems(a: seq<KItem>, b: seq<KItem>) {
    |a| == |b| && forall k | 0 <= k < |a| :: a[k].item == b[k].item
  }

  /** Comparing sorted kernels entry by entry decides whether they are the same set of items. */
  lemma SameItemsSameSet(a: seq<KItem>, b: seq<KItem>)
    requires SortedKernel(a) && SortedKernel(b)
    ensures SameItems(a, b) <==> ItemsOf(a) == ItemsOf(b)
  {
    if ItemsOf(a) == ItemsOf(b) {
      SortedSameLength(a, b);
      SortedSameLength(b, a);
      forall k | 0 <= k < |a| ensures a[k].item == b[k].item {
        SortedAt(a, b, k);
      }
    }
    if SameItems(a, b) {
      forall it ensures it in ItemsOf(a) <==> it in ItemsOf(b) {
        if it in ItemsOf(a) {
          var j :| 0 <= j < |a| && a[j].item == it;
          assert b[j].item == it;
        }
        if it in ItemsOf(b) {
          var j :| 0 <= j < |b| && b[j].item == it;
          assert a[j].item == it;
        }
      }
    }
  }

  ghost predicate DistinctItems(k: seq<KItem>) {
    forall i, j | 0 <= i < j < |k| :: k[i].item != k[j].item
  }

  /** Everything from hi on is in place. */
  ghost predicate SortedFrom(k: seq<KItem>, hi: int) {
    forall i, j | 0 <= i < j < |k| && hi <= j :: Less(k[i].item, k[j].item)
  }

  /** The item at top is the biggest of those from l to top. */
  ghost predicate TopIsMax(k: seq<KItem>, l: int, top: int) {
    0 <= l <= top < |k| && forall i | l <= i < top :: Less(k[i].item, k[top].item)
  }

  lemma SwapStep(k: seq<KItem>, k': seq<KItem>, l: int, top: int)
    requires DistinctItems(k) && SortedFrom(k, top + 1) && TopIsMax(k, l + 1, top) && 0 <= l
    requires k' == if Less(k[top].item, k[l].item) then k[top := k[l]][l := k[top]] else k
    ensures |k'| == |k| && multiset(k') == multiset(k) && DistinctItems(k') && SortedFrom(k', top + 1)
            && TopIsMax(k', l, top)
  {
    hide DistinctItems, SortedFrom;
    SwapDistinct(k, k', l, top);
    SwapSorted(k, k', l, top);
    DistinctAt(k, l, top);
  }

  lemma DistinctAt(k: seq<KItem>, l: int, top: int)
    requires DistinctItems(k) && 0 <= l < top < |k|
    ensures k[l].item != k[top].item
  {
  }

  lemma SwapDistinct(k: seq<KItem>, k': seq<KItem>, l: int, top: int)
    requires DistinctItems(k) && 0 <= l < top < |k| && (k' == k || k' == k[top := k[l]][l := k[top]])
    ensures DistinctItems(k')
  {
    forall i, j | 0 <= i < j < |k'| ensures k'[i].item != k'[j].item {
      var i' := if i == l && k' != k then top else if i == top && k' != k then l else i;
      var j' := if j == l && k' != k then top else if j == top && k' != k then l else j;
      assert k'[i] == k[i'] && k'[j] == k[j'] && i' != j';
    }
  }

  lemma SwapSorted(k: seq<KItem>, k': seq<KItem>, l: int, top: int)
    requires SortedFrom(k, top + 1) && 0 <= l < top < |k| && (k' == k || k' == k[top := k[l]][l := k[top]])
    ensures SortedFrom(k', top + 1)
  {
    forall i, j | 0 <= i < j < |k'| && top + 1 <= j ensures Less(k'[i].item, k'[j].item) {
      var i' := if i == l && k' != k then top else if i == top && k' != k then l else i;
      assert k'[i] == k[i'] && k'[j] == k[j] && i' < j;
    }
  }

  /** The exchange sort of state(): the biggest item is moved to the end first. */
  method SortKernel(k0: seq<KItem>) returns (k: seq<KItem>)
    requires DistinctItems(k0)
    ensures SortedKernel(k) && multiset(k) == multiset(k0) && |k| == |k0|
  {
    k := k0;
    var top := |k| - 1;
    while top > 0
      invariant -1 <= top < |k| == |k0| && multiset(k) == multiset(k0)
      invariant DistinctItems(k) && SortedFrom(k, top + 1)
    {
      var l := top;
      while l > 0
        invariant 0 <= l <= top < |k| == |k0| && multiset(k) == multiset(k0)
        invariant DistinctItems(k) && SortedFrom(k, top + 1) && TopIsMax(k, l, top)
      {
        l := l - 1;
        ghost var was := k;
        if Less(k[top].item, k[l].item) {
          k := k[top := k[l]][l := k[top]];
        }
        SwapStep(was, k, l, top);
      }
      top := top - 1;
    }
  }
}
