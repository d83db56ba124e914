/**
 closure: the working set of a state, its items closed under "the dot is before
 a nonterminal" and its lookaheads closed under LR(1) propagation. Only flagged
 items are scanned again, and items before one nonterminal are handled in one batch.
 */
module YaccClosure {
  import opened YaccGrammar
  import opened YaccFirst

  const WSETSIZE: nat := 350

  datatype Item = Item(prod: nat, dot: nat)

  /** An item of a state's kernel with its lookahead set. */
  datatype KItem = KItem(item: Item, look: set<nat>)

  /** An entry of the working set; flag is 1 while the item must still be closed. */
  datatype Wset = Wset(item: Item, flag: int, ws: set<nat>)

  predicate ItemOk(g: Grammar, it: Item) {
    it.prod < |g.prods| && it.dot <= |g.prods[it.prod].rhs|
  }

  /** The dot of it stands before nonterminal c. */
  predicate Before(g: Grammar, it: Item, c: nat) {
    ItemOk(g, it) && it.dot < |g.prods[it.prod].rhs| && g.prods[it.prod].rhs[it.dot] == N(c)
  }

  /** What follows the symbol after the dot. */
  function Rest(g: Grammar, it: Item): seq<Sym>
    requires ItemOk(g, it) && it.dot < |g.prods[it.prod].rhs|
  {
    g.prods[it.prod].rhs[it.dot + 1..]
  }

  ghost predicate AllVanish(g: Grammar, ss: seq<Sym>) {
    forall k | 0 <= k < |ss| :: Vanishes(g, ss[k])
  }

  /** Token b can begin a string derived from ss. */
  ghost predicate CanStart(g: Grammar, ss: seq<Sym>, b: nat) {
    exists k :: 0 <= k < |ss| && AllVanish(g, ss[..k]) && Begins(g, ss[k], b)
  }

  // ---- Least closed sets -----------------------------------------------------------------------

  ghost predicate Closed(g: Grammar, s: set<Item>) {
    forall it, c, p | it in s && Before(g, it, c) && 0 <= p < |g.prods| && g.prods[p].lhs == c :: Item(p, 0) in s
  }

  /** it belongs to the LR(0) closure of kernel: to every closed set that contains it. */
  ghost predicate InClosure(g: Grammar, kernel: set<Item>, it: Item) {
    forall s: set<Item> :: Closed(g, s) && kernel <= s ==> it in s
  }

  /** The lookaheads an item before a nonterminal passes on, given its own. */
  ghost predicate Passes(g: Grammar, it: Item, ws: iset<nat>, b: nat)
    requires ItemOk(g, it) && it.dot < |g.prods[it.prod].rhs|
  {
    CanStart(g, Rest(g, it), b) || (AllVanish(g, Rest(g, it)) && b in ws)
  }

  ghost function Inf(ws: set<nat>): iset<nat> {
    iset a | a in ws
  }

  ghost function LookOf(ps: iset<(Item, nat)>, it: Item): iset<nat> {
    iset a | (it, a) in ps
  }

  ghost predicate LookClosed(g: Grammar, kernel: set<Item>, ps: iset<(Item, nat)>) {
    forall it, c, p, b: nat | InClosure(g, kernel, it) && Before(g, it, c) && 0 <= p < |g.prods| && g.prods[p].lhs == c
      && Passes(g, it, LookOf(ps, it), b) :: (Item(p, 0), b) in ps
  }

  /** (it, a) belongs to every closed set of pairs that contains the kernel's. */
  ghost predicate InLook(g: Grammar, kernel: set<Item>, kps: iset<(Item, nat)>, it: Item, a: nat) {
    forall ps: iset<(Item, nat)> :: LookClosed(g, kernel, ps) && kps <= ps ==> (it, a) in ps
  }

  ghost function ItemsOf(k: seq<KItem>): set<Item> {
    set j | 0 <= j < |k| :: k[j].item
  }

  ghost function PairsOf(k: seq<KItem>): iset<(Item, nat)> {
    iset j, a | 0 <= j < |k| && a in k[j].look :: (k[j].item, a)
  }

  lemma ClosureStep(g: Grammar, kernel: set<Item>, it: Item, c: nat, p: nat)
    requires InClosure(g, kernel, it) && Before(g, it, c) && p < |g.prods| && g.prods[p].lhs == c
    ensures InClosure(g, kernel, Item(p, 0))
  {
  }

  lemma LookStep(g: Grammar, kernel: set<Item>, kps: iset<(Item, nat)>, it: Item, c: nat, p: nat, ws: set<nat>, b: nat)
    requires InClosure(g, kernel, it) && Before(g, it, c) && p < |g.prods| && g.prods[p].lhs == c
    requires forall a | a in ws :: InLook(g, kernel, kps, it, a)
    requires Passes(g, it, Inf(ws), b)
    ensures InLook(g, kernel, kps, Item(p, 0), b)
  {
    forall ps: iset<(Item, nat)> | LookClosed(g, kernel, ps) && kps <= ps ensures (Item(p, 0), b) in ps {
      assert forall a | a in ws :: (it, a) in ps;
      assert Passes(g, it, LookOf(ps, it), b);
    }
  }

  // ---- The working set ---------------------------------------------------------------------------

  ghost predicate Distinct(w: seq<Wset>) {
    forall a, b | 0 <= a < b < |w| :: w[a].item != w[b].item
  }

  /** The kernel is there, at the front, and nothing is there that must not be. */
  ghost predicate Justified(g: Grammar, k: seq<KItem>, w: seq<Wset>, nolook: bool) {
    && |k| <= |w| && Distinct(w) && (forall v | 0 <= v < |w| :: w[v].flag == 0 || w[v].flag == 1)
    && (forall j | 0 <= j < |k| :: w[j].item == k[j].item && k[j].look <= w[j].ws)
    && (forall v | 0 <= v < |w| :: ItemOk(g, w[v].item) && InClosure(g, ItemsOf(k), w[v].item))
    && (forall v | |k| <= v < |w| :: w[v].item.dot == 0)
    && (!nolook ==> forall v, a | 0 <= v < |w| && a in w[v].ws ::
          a <= g.ntokens && InLook(g, ItemsOf(k), PairsOf(k), w[v].item, a))
    && (nolook ==> forall j | 0 <= j < |k| :: w[j].ws == k[j].look)
  }

  /** Item v has passed its lookaheads on to production p. */
  ghost predicate PassedOn(g: Grammar, w: seq<Wset>, v: int, p: nat, nolook: bool)
    requires 0 <= v < |w| && ItemOk(g, w[v].item) && w[v].item.dot < |g.prods[w[v].item.prod].rhs|
  {
    exists u :: 0 <= u < |w| && w[u].item == Item(p, 0)
      && (nolook || forall b | Passes(g, w[v].item, Inf(w[v].ws), b) :: b in w[u].ws)
  }

  /** An unflagged item before nonterminal c has passed its lookaheads to every production of c. */
  ghost predicate Settled(g: Grammar, w: seq<Wset>, v: int, nolook: bool)
    requires 0 <= v < |w|
  {
    forall c, p | Before(g, w[v].item, c) && 0 <= p < |g.prods| && g.prods[p].lhs == c :: PassedOn(g, w, v, p, nolook)
  }

  /** The working set holds exactly the closure of the kernel, each item with exactly its lookaheads. */
  ghost predicate IsClosure(g: Grammar, k: seq<KItem>, w: seq<Wset>, nolook: bool) {
    && (forall it :: InClosure(g, ItemsOf(k), it) <==> exists v :: 0 <= v < |w| && w[v].item == it)
    && (!nolook ==> forall v, a | 0 <= v < |w| :: a in w[v].ws <==> InLook(g, ItemsOf(k), PairsOf(k), w[v].item, a))
  }

  ghost predicate AllUnflagged(w: seq<Wset>) {
    forall v | 0 <= v < |w| :: w[v].flag == 0
  }

  /** When every item is settled, the working set is exactly the least closed set. */
  lemma SettledIsLeast(g: Grammar, k: seq<KItem>, w: seq<Wset>, nolook: bool)
    requires Justified(g, k, w, nolook)
    requires UnflaggedSettled(g, w, nolook) && AllUnflagged(w)
    ensures IsClosure(g, k, w, nolook)
  {
    var s := set v | 0 <= v < |w| :: w[v].item;
    assert Closed(g, s) by {
      forall it, c, p | it in s && Before(g, it, c) && 0 <= p < |g.prods| && g.prods[p].lhs == c
        ensures Item(p, 0) in s
      {
        var v :| 0 <= v < |w| && w[v].item == it;
        assert Settled(g, w, v, nolook);
        assert PassedOn(g, w, v, p, nolook);
      }
    }
    assert ItemsOf(k) <= s by {
      forall it | it in ItemsOf(k) ensures it in s {
        var j :| 0 <= j < |k| && k[j].item == it;
        assert w[j].item == it;
      }
    }
    if !nolook {
      PairsAreLeast(g, k, w);
    }
  }

  lemma PairsAreLeast(g: Grammar, k: seq<KItem>, w: seq<Wset>)
    requires Justified(g, k, w, false)
    requires forall v | 0 <= v < |w| :: Settled(g, w, v, false)
    requires forall it :: InClosure(g, ItemsOf(k), it) ==> exists v :: 0 <= v < |w| && w[v].item == it
    ensures forall v, a | 0 <= v < |w| :: a in w[v].ws <==> InLook(g, ItemsOf(k), PairsOf(k), w[v].item, a)
  {
    var ps := iset v, a | 0 <= v < |w| && a in w[v].ws :: (w[v].item, a);
    assert LookClosed(g, ItemsOf(k), ps) by {
      forall it, c, p, b: nat | InClosure(g, ItemsOf(k), it) && Before(g, it, c) && 0 <= p < |g.prods|
        && g.prods[p].lhs == c
        && Passes(g, it, LookOf(ps, it), b) ensures (Item(p, 0), b) in ps
      {
        var v :| 0 <= v < |w| && w[v].item == it;
        LookOfItem(w, v, ps);
        assert Settled(g, w, v, false);
        assert PassedOn(g, w, v, p, false);
      }
    }
    forall v, a | 0 <= v < |w| && InLook(g, ItemsOf(k), PairsOf(k), w[v].item, a) ensures a in w[v].ws {
      assert PairsOf(k) <= ps by {
        forall q | q in PairsOf(k) ensures q in ps {
          var j, b :| 0 <= j < |k| && b in k[j].look && q == (k[j].item, b);
          assert w[j].item == k[j].item && b in w[j].ws;
        }
      }
      assert (w[v].item, a) in ps;
    }
  }

  lemma LookOfItem(w: seq<Wset>, v: int, ps: iset<(Item, nat)>)
    requires Distinct(w) && 0 <= v < |w|
    requires ps == iset u, a | 0 <= u < |w| && a in w[u].ws :: (w[u].item, a)
    ensures LookOf(ps, w[v].item) == Inf(w[v].ws)
  {
    forall a: nat ensures (w[v].item, a) in ps <==> a in w[v].ws {
      if (w[v].item, a) in ps {
        var u :| 0 <= u < |w| && a in w[u].ws && w[u].item == w[v].item;
        assert u == v;
      }
    }
  }

  // ---- Steps of the loop -------------------------------------------------------------------------

  /** Between clearing the flags of a batch and entering all its productions: every unflagged item has
      passed on, except that batch items (before c) still owe clset to the productions from upto on. */
  ghost predicate Mid(g: Grammar, w: seq<Wset>, c: nat, clset: set<nat>, upto: int, nolook: bool) {
    forall v, d, q | 0 <= v < |w| && w[v].flag == 0 && Before(g, w[v].item, d) && 0 <= q < |g.prods|
      && g.prods[q].lhs == d ::
      || PassedOn(g, w, v, q, nolook)
      || (d == c && q >= upto && (nolook || forall b: nat | Passes(g, w[v].item, Inf(w[v].ws), b) :: b in clset))
  }

  /** w' has the entries of w, possibly with more lookaheads and then flagged, and possibly new ones. */
  ghost predicate Grows(w: seq<Wset>, w': seq<Wset>) {
    && |w| <= |w'|
    && forall v | 0 <= v < |w| :: w'[v].item == w[v].item && w[v].ws <= w'[v].ws && (w'[v] == w[v] || w'[v].flag == 1)
  }

  /** Growth with flags left out. */
  ghost predicate Extends(w: seq<Wset>, w': seq<Wset>) {
    |w| <= |w'| && forall v | 0 <= v < |w| :: w'[v].item == w[v].item && w[v].ws <= w'[v].ws
  }

  lemma PassedOnStays(g: Grammar, w: seq<Wset>, w': seq<Wset>, v: int, p: nat, nolook: bool)
    requires Grows(w, w') && 0 <= v < |w| && ItemOk(g, w[v].item) && w[v].item.dot < |g.prods[w[v].item.prod].rhs|
    requires PassedOn(g, w, v, p, nolook) && w'[v] == w[v]
    ensures PassedOn(g, w', v, p, nolook)
  {
    var u :| 0 <= u < |w| && w[u].item == Item(p, 0)
      && (nolook || forall b | Passes(g, w[v].item, Inf(w[v].ws), b) :: b in w[u].ws);
    assert w'[u].item == Item(p, 0);
  }

  lemma MidStep(g: Grammar, w: seq<Wset>, w': seq<Wset>, c: nat, clset: set<nat>, p: nat, u: int, nolook: bool)
    requires Mid(g, w, c, clset, p, nolook) && Grows(w, w')
    requires 0 <= u < |w'| && w'[u].item == Item(p, 0) && (nolook || clset <= w'[u].ws)
    requires forall v | |w| <= v < |w'| :: w'[v].flag == 1
    ensures Mid(g, w', c, clset, p + 1, nolook)
  {
    forall v, d, q | 0 <= v < |w'| && w'[v].flag == 0 && Before(g, w'[v].item, d) && 0 <= q < |g.prods|
      && g.prods[q].lhs == d
      ensures PassedOn(g, w', v, q, nolook)
        || (d == c && q >= p + 1 && (nolook || forall b: nat | Passes(g, w'[v].item, Inf(w'[v].ws), b) :: b in clset))
    {
      assert w'[v] == w[v];
      if PassedOn(g, w, v, q, nolook) {
        PassedOnStays(g, w, w', v, q, nolook);
      } else if q == p {
        assert PassedOn(g, w', v, q, nolook);
      }
    }
  }

  /** The same when production p does not derive from c. */
  lemma MidSkip(g: Grammar, w: seq<Wset>, c: nat, clset: set<nat>, p: nat, nolook: bool)
    requires Mid(g, w, c, clset, p, nolook) && p < |g.prods| && g.prods[p].lhs != c
    ensures Mid(g, w, c, clset, p + 1, nolook)
  {
  }

  ghost function Room(g: Grammar, w: seq<Wset>): set<(nat, nat)> {
    set k, t | k in UpTo(WSETSIZE) && t in UpTo(g.ntokens) && (k >= |w| || t !in w[k].ws) :: (k, t)
  }

  lemma GrowthUsesRoom(g: Grammar, w: seq<Wset>, w': seq<Wset>)
    requires Extends(w, w')
    ensures Room(g, w') <= Room(g, w)
  {
  }

  lemma NewLookUsesRoom(g: Grammar, w: seq<Wset>, w': seq<Wset>, v: int, t: nat)
    requires Extends(w, w') && 0 <= v < |w| <= WSETSIZE && t <= g.ntokens
    requires t in w'[v].ws && t !in w[v].ws
    ensures Room(g, w') < Room(g, w)
  {
    assert (v, t) in Room(g, w) && (v, t) !in Room(g, w');
  }

  // ---- What a batch may add ------------------------------------------------------------------------

  /** v belongs to the batch of u: flagged, not before u, and with its dot before c. */
  predicate InBatch(g: Grammar, w: seq<Wset>, u: int, c: nat, v: int) {
    0 <= u <= v < |w| && w[v].flag == 1 && Before(g, w[v].item, c)
  }

  /** clset is what the members of the batch below limit pass on. */
  ghost predicate Collects(g: Grammar, w: seq<Wset>, u: int, c: nat, limit: int, clset: set<nat>) {
    && (forall b | b in clset :: b <= g.ntokens)
    && forall b: nat :: b in clset <==> exists v :: v < limit && InBatch(g, w, u, c, v)
                                                    && Passes(g, w[v].item, Inf(w[v].ws), b)
  }

  /** w' is w with the flags of the batch members below limit cleared. */
  ghost predicate Cleared(g: Grammar, w: seq<Wset>, w': seq<Wset>, u: int, c: nat, limit: int) {
    && |w'| == |w|
    && forall v | 0 <= v < |w| :: w'[v] == if v < limit && InBatch(g, w, u, c, v) then w[v].(flag := 0) else w[v]
  }

  ghost predicate UnflaggedSettled(g: Grammar, w: seq<Wset>, nolook: bool) {
    forall v | 0 <= v < |w| && w[v].flag == 0 :: Settled(g, w, v, nolook)
  }

  lemma BatchIsMid(g: Grammar, w: seq<Wset>, w': seq<Wset>, u: int, c: nat, clset: set<nat>, nolook: bool)
    requires UnflaggedSettled(g, w, nolook) && Cleared(g, w, w', u, c, |w|)
    requires !nolook ==> Collects(g, w, u, c, |w|, clset)
    ensures Mid(g, w', c, clset, 0, nolook)
  {
    forall v, d, q | 0 <= v < |w'| && w'[v].flag == 0 && Before(g, w'[v].item, d) && 0 <= q < |g.prods|
      && g.prods[q].lhs == d
      ensures PassedOn(g, w', v, q, nolook)
        || (d == c && q >= 0 && (nolook || forall b: nat | Passes(g, w'[v].item, Inf(w'[v].ws), b) :: b in clset))
    {
      if InBatch(g, w, u, c, v) {
        assert d == c;
      } else {
        assert Settled(g, w, v, nolook);
        assert PassedOn(g, w, v, q, nolook);
        var x :| 0 <= x < |w| && w[x].item == Item(q, 0)
          && (nolook || forall b | Passes(g, w[v].item, Inf(w[v].ws), b) :: b in w[x].ws);
        assert w'[x].item == Item(q, 0) && w'[x].ws == w[x].ws;
      }
    }
  }

  lemma MidEnds(g: Grammar, w: seq<Wset>, c: nat, clset: set<nat>, nolook: bool)
    requires Mid(g, w, c, clset, |g.prods|, nolook)
    ensures UnflaggedSettled(g, w, nolook)
  {
  }

  /** What a batch collects may be given to every production of c. */
  lemma BatchJustified(g: Grammar, k: seq<KItem>, w: seq<Wset>, u: int, c: nat, clset: set<nat>, p: nat)
    requires Justified(g, k, w, false) && InBatch(g, w, u, c, u) && Collects(g, w, u, c, |w|, clset)
    requires p < |g.prods| && g.prods[p].lhs == c
    ensures forall b | b in clset :: InLook(g, ItemsOf(k), PairsOf(k), Item(p, 0), b)
  {
    forall b | b in clset ensures InLook(g, ItemsOf(k), PairsOf(k), Item(p, 0), b) {
      var v :| 0 <= v < |w| && InBatch(g, w, u, c, v) && Passes(g, w[v].item, Inf(w[v].ws), b);
      LookStep(g, ItemsOf(k), PairsOf(k), w[v].item, c, p, w[v].ws, b);
    }
  }

  // ---- The imperative working set -----------------------------------------------------------------

  class WorkSet {
    const wsets: array<Wset>
    var cwp: nat

    constructor ()
      ensures wsets.Length == WSETSIZE && cwp == 0 && fresh(wsets)
    {
      wsets := new Wset[WSETSIZE](_ => Wset(Item(0, 0), 0, {}));
      cwp := 0;
    }

    ghost predicate Shape()
      reads this
    {
      wsets.Length == WSETSIZE && cwp < WSETSIZE
    }

    ghost function View(): seq<Wset>
      requires Shape()
      reads this, wsets
    {
      wsets[..cwp]
    }

    /** The lookaheads the item passes on, added to clset. */
    method AddFirsts(g: Grammar, pempty: array<int>, first: array<set<nat>>, it: Item, ws: set<nat>, clset: set<nat>)
      returns (r: set<nat>)
      requires Ready(g, pempty[..]) && first.Length == g.nnonter + 1 && InTokens(g, first[..])
      requires forall n, t | 0 <= n <= g.nnonter :: t in first[n] <==> Begins(g, N(n), t)
      requires ItemOk(g, it) && it.dot < |g.prods[it.prod].rhs|
      ensures forall b: nat :: b in r <==> b in clset || Passes(g, it, Inf(ws), b)
      ensures (forall b | b in clset || b in ws :: b <= g.ntokens) ==> forall b | b in r :: b <= g.ntokens
    {
      var rest := Rest(g, it);
      r := clset;
      for k := 0 to |rest|
        invariant AllVanish(g, rest[..k])
        invariant forall b: nat :: b in r <==> b in clset || exists j ::
                    0 <= j < k && AllVanish(g, rest[..j]) && Begins(g, rest[j], b)
        invariant (forall b | b in clset || b in ws :: b <= g.ntokens) ==> forall b | b in r :: b <= g.ntokens
      {
        assert rest[k] == g.prods[it.prod].rhs[it.dot + 1 + k];
        assert g.InRange(rest[k]);
        match rest[k] {
          case T(t) =>
            r := r + {t};
            TokenBegins(g, t);
            StopsHere(g, rest, k);
            return;
          case N(n) =>
            r := r + first[n];
            if pempty[n] != EMPTY {
              StopsHere(g, rest, k);
              return;
            }
            assert rest[..k + 1] == rest[..k] + [rest[k]];
        }
      }
      assert rest[..|rest|] == rest;
      r := r + ws;
    }

    /** Clear the flags of u's batch and collect the lookaheads it passes on. */
    method Batch(g: Grammar, pempty: array<int>, first: array<set<nat>>, u: nat, c: nat, nolook: bool)
      returns (clset: set<nat>)
      requires Shape() && FirstsKnown(g, pempty, first) && u < cwp && wsets != pempty as object
      requires !nolook ==> forall v, a | 0 <= v < cwp && a in wsets[v].ws :: a <= g.ntokens
      modifies wsets
      ensures Cleared(g, old(View()), View(), u, c, cwp)
      ensures !nolook ==> Collects(g, old(View()), u, c, cwp, clset)
    {
      ghost var w := View();
      clset := {};
      for v := u to cwp
        invariant Cleared(g, w, View(), u, c, v)
        invariant !nolook ==> Collects(g, w, u, c, v, clset)
      {
        if wsets[v].flag == 1 && Before(g, wsets[v].item, c) {
          assert w[v] == wsets[v];
          wsets[v] := wsets[v].(flag := 0);
          if !nolook {
            ghost var was := clset;
            clset := AddFirsts(g, pempty, first, wsets[v].item, wsets[v].ws, clset);
            CollectsOne(g, w, u, c, v, was, clset);
          }
        } else {
          assert w[v] == wsets[v];
        }
      }
    }

    /** Enter the item of production p with lookaheads clset; grew says whether it must be scanned again. */
    method Enter(g: Grammar, p: nat, clset: set<nat>, nolook: bool) returns (ok: bool, grew: bool)
      requires Shape() && Distinct(View())
      modifies this, wsets
      ensures ok ==> Shape() && Entered(old(View()), View(), p, clset, nolook, grew)
      ensures !ok ==> cwp + 1 >= WSETSIZE
    {
      ghost var w := View();
      grew := false;
      for v := 0 to cwp
        invariant View() == w && forall x | 0 <= x < v :: w[x].item != Item(p, 0)
      {
        if wsets[v].item == Item(p, 0) {
          if !nolook && !(clset <= wsets[v].ws) {
            wsets[v] := wsets[v].(ws := wsets[v].ws + clset, flag := 1);
            grew := true;
          }
          return true, grew;
        }
      }
      if cwp + 1 >= WSETSIZE {
        return false, grew;
      }
      wsets[cwp] := Wset(Item(p, 0), 1, if nolook then wsets[cwp].ws else clset);
      grew := !nolook;
      cwp := cwp + 1;
      ok := true;
      assert View()[|w|].item == Item(p, 0);
    }

    /** Close the flagged item u: its batch passes its lookaheads to every production of the nonterminal. */
    method CloseItem(g: Grammar, pempty: array<int>, first: array<set<nat>>, u: nat, c: nat, nolook: bool,
                     ghost k: seq<KItem>)
      returns (ok: bool, grew: bool)
      requires Shape() && FirstsKnown(g, pempty, first) && wsets != pempty as object && wsets != first as object
      requires Justified(g, k, View(), nolook) && UnflaggedSettled(g, View(), nolook)
      requires u < cwp && wsets[u].flag == 1 && Before(g, wsets[u].item, c)
      modifies this, wsets
      ensures !ok ==> cwp + 1 >= WSETSIZE
      ensures ok ==> Shape() && Justified(g, k, View(), nolook) && UnflaggedSettled(g, View(), nolook)
      ensures ok ==> Progress(g, old(View()), View(), u, nolook, grew) && (!grew ==> View()[u].flag == 0)
    {
      hide UnflaggedSettled, Mid, Settled, Collects, InLook, InClosure;
      ghost var w := View();
      var clset := Batch(g, pempty, first, u, c, nolook);
      ghost var w0 := View();
      assert InBatch(g, w, u, c, u);
      BatchIsMid(g, w, w0, u, c, clset, nolook);
      assert Justified(g, k, w0, nolook);
      grew := false;
      for p := 0 to |g.prods|
        invariant Shape() && FirstsKnown(g, pempty, first)
        invariant Justified(g, k, View(), nolook) && Mid(g, View(), c, clset, p, nolook)
        invariant Progress(g, w0, View(), u, nolook, grew)
      {
        if g.prods[p].lhs == c {
          ok, grew := EnterProduction(g, p, u, c, clset, nolook, grew, k, w, w0);
          if !ok {
            return;
          }
        } else {
          MidSkip(g, View(), c, clset, p, nolook);
        }
      }
      ok := true;
      MidEnds(g, View(), c, clset, nolook);
      ClearedProgress(g, w, w0, View(), u, c, nolook, grew);
    }

    /** The kernel alone, every item still to be closed. */
    method CopyKernel(g: Grammar, k: seq<KItem>, ghost nolook: bool)
      requires wsets.Length == WSETSIZE && GoodKernel(g, k) && |k| < WSETSIZE
      modifies this, wsets
      ensures Shape() && Justified(g, k, View(), nolook) && UnflaggedSettled(g, View(), nolook)
      ensures cwp == |k| && forall j | 0 <= j < |k| :: View()[j] == Wset(k[j].item, 1, k[j].look)
    {
      cwp := 0;
      for j := 0 to |k|
        invariant cwp == j && forall i | 0 <= i < j :: wsets[i] == Wset(k[i].item, 1, k[i].look)
      {
        wsets[cwp] := Wset(k[j].item, 1, k[j].look);
        cwp := cwp + 1;
      }
      forall v | 0 <= v < |k| ensures InClosure(g, ItemsOf(k), k[v].item) {
        assert k[v].item in ItemsOf(k);
      }
      forall v, a | 0 <= v < |k| && a in k[v].look ensures InLook(g, ItemsOf(k), PairsOf(k), k[v].item, a) {
        assert (k[v].item, a) in PairsOf(k);
      }
    }

    /** The batch passes its lookaheads on to production p. */
    method EnterProduction(g: Grammar, p: nat, ghost u: nat, ghost c: nat, clset: set<nat>, nolook: bool, grew0: bool,
                           ghost k: seq<KItem>, ghost w: seq<Wset>, ghost w0: seq<Wset>)
      returns (ok: bool, grew: bool)
      requires Shape() && Justified(g, k, View(), nolook) && Mid(g, View(), c, clset, p, nolook)
               && Progress(g, w0, View(), u, nolook, grew0)
      requires Justified(g, k, w, nolook) && InBatch(g, w, u, c, u) && p < |g.prods| && g.prods[p].lhs == c
      requires !nolook ==> Collects(g, w, u, c, |w|, clset) && forall b | b in clset :: b <= g.ntokens
      modifies this, wsets
      ensures !ok ==> cwp + 1 >= WSETSIZE
      ensures ok ==> Shape() && Justified(g, k, View(), nolook) && Mid(g, View(), c, clset, p + 1, nolook)
                     && Progress(g, w0, View(), u, nolook, grew)
    {
      hide Mid, Progress, Collects, Justified, InBatch;
      ghost var w1 := View();
      JustifiedDistinct(g, k, w1, nolook);
      grew := grew0;
      var grew1;
      ok, grew1 := Enter(g, p, clset, nolook);
      if !ok {
        return;
      }
      ghost var w2 := View();
      if !nolook {
        BatchJustified(g, k, w, u, c, clset, p);
      }
      EnterJustified(g, k, w, w1, w2, u, c, clset, p, nolook, grew1);
      EnterProgress(g, w0, w1, w2, u, clset, p, nolook, grew, grew1);
      ghost var x :| 0 <= x < |w2| && w2[x].item == Item(p, 0) && (nolook || clset <= w2[x].ws);
      EnteredFlags(w1, w2, p, clset, nolook, grew1);
      MidStep(g, w1, w2, c, clset, p, x, nolook);
      grew := grew || grew1;
    }

    /** One item of a pass: closed if it is flagged. */
    method PassItem(g: Grammar, pempty: array<int>, first: array<set<nat>>, u: nat, nolook: bool, ghost k: seq<KItem>)
      returns (ok: bool, grew: bool)
      requires Shape() && FirstsKnown(g, pempty, first) && wsets != pempty as object
               && wsets != first as object && u < cwp
      requires Justified(g, k, View(), nolook) && UnflaggedSettled(g, View(), nolook)
      modifies this, wsets
      ensures !ok ==> cwp + 1 >= WSETSIZE
      ensures ok ==> Shape() && Justified(g, k, View(), nolook) && UnflaggedSettled(g, View(), nolook)
      ensures ok ==> Progress(g, old(View()), View(), u, nolook, grew) && (View()[u].flag == 1 ==> grew)
    {
      hide UnflaggedSettled, FirstsKnown;
      ghost var w := View();
      ok, grew := true, false;
      var it := wsets[u].item;
      assert it == w[u].item;
      if wsets[u].flag == 0 {
      } else if it.dot < |g.prods[it.prod].rhs| && g.prods[it.prod].rhs[it.dot].N? {
        ok, grew := CloseItem(g, pempty, first, u, g.prods[it.prod].rhs[it.dot].n, nolook, k);
      } else {
        wsets[u] := wsets[u].(flag := 0);
        Unflag(g, k, w, View(), u, nolook);
      }
    }

    /** One pass over the working set, which may grow under way; work asks for another pass. */
    method Pass(g: Grammar, pempty: array<int>, first: array<set<nat>>, nolook: bool, ghost k: seq<KItem>)
      returns (ok: bool, work: bool)
      requires Shape() && FirstsKnown(g, pempty, first) && wsets != pempty as object && wsets != first as object
      requires Justified(g, k, View(), nolook) && UnflaggedSettled(g, View(), nolook)
      modifies this, wsets
      ensures !ok ==> cwp + 1 >= WSETSIZE
      ensures ok ==> Shape() && Justified(g, k, View(), nolook) && UnflaggedSettled(g, View(), nolook)
      ensures ok && !work ==> AllUnflagged(View())
      ensures ok && work ==> cwp > old(cwp) || (cwp == old(cwp) && Room(g, View()) < Room(g, old(View())))
      ensures ok ==> cwp >= old(cwp) && Room(g, View()) <= Room(g, old(View())) && (nolook ==> !work)
    {
      hide UnflaggedSettled, FirstsKnown, Justified, Room, Progress;
      ghost var w0 := View();
      ok, work := true, false;
      var u := 0;
      NoProgress(g, w0, nolook);
      while u < cwp
        invariant ok && u <= cwp && Shape() && FirstsKnown(g, pempty, first)
        invariant Justified(g, k, View(), nolook) && UnflaggedSettled(g, View(), nolook)
        invariant forall v | 0 <= v < u :: View()[v].flag == 1 ==> work
        invariant Progress(g, w0, View(), 0, nolook, work)
        decreases WSETSIZE - u
      {
        ghost var w := View();
        var grew;
        ok, grew := PassItem(g, pempty, first, u, nolook, k);
        if !ok {
          return;
        }
        ProgressTwice(g, w0, w, View(), u, nolook, work, grew);
        work := work || grew;
        u := u + 1;
      }
      Progressed(g, w0, View(), nolook, work);
      FlagsAreBits(g, k, View(), nolook);
    }

    /** closure: afterwards the working set is exactly the closure of the kernel, unless it overflows. */
    method Closure(g: Grammar, pempty: array<int>, first: array<set<nat>>, k: seq<KItem>, nolook: bool)
      returns (ok: bool)
      requires wsets.Length == WSETSIZE && FirstsKnown(g, pempty, first) && wsets != pempty as object
               && wsets != first as object
      requires GoodKernel(g, k) && |k| < WSETSIZE
      modifies this, wsets
      ensures !ok ==> cwp + 1 >= WSETSIZE
      ensures ok ==> Shape() && Justified(g, k, View(), nolook) && IsClosure(g, k, View(), nolook)
                     && AllUnflagged(View())
    {
      CopyKernel(g, k, nolook);
      var work := true;
      ok := true;
      while work
        invariant ok && Shape() && FirstsKnown(g, pempty, first)
        invariant Justified(g, k, View(), nolook) && UnflaggedSettled(g, View(), nolook)
        invariant !work ==> AllUnflagged(View())
        decreases WSETSIZE - cwp, Room(g, View()), work
      {
        ok, work := Pass(g, pempty, first, nolook, k);
        if !ok {
          return;
        }
      }
      SettledIsLeast(g, k, View(), nolook);
    }
  }

  /** A kernel: distinct items of the grammar with token lookaheads. */
  ghost predicate GoodKernel(g: Grammar, k: seq<KItem>) {
    && (forall j | 0 <= j < |k| :: ItemOk(g, k[j].item) && forall a | a in k[j].look :: a <= g.ntokens)
    && (forall i, j | 0 <= i < j < |k| :: k[i].item != k[j].item)
  }

  lemma Unflag(g: Grammar, k: seq<KItem>, w: seq<Wset>, w': seq<Wset>, u: int, nolook: bool)
    requires 0 <= u < |w| && w' == w[u := w[u].(flag := 0)] && (forall c :: !Before(g, w[u].item, c))
    requires Justified(g, k, w, nolook) && UnflaggedSettled(g, w, nolook)
    ensures Justified(g, k, w', nolook) && UnflaggedSettled(g, w', nolook)
  {
    forall v | 0 <= v < |w'| && w'[v].flag == 0 ensures Settled(g, w', v, nolook) {
      if v != u {
        forall c, p | Before(g, w'[v].item, c) && 0 <= p < |g.prods| && g.prods[p].lhs == c
          ensures PassedOn(g, w', v, p, nolook)
        {
          assert PassedOn(g, w, v, p, nolook);
          var x :| 0 <= x < |w| && w[x].item == Item(p, 0)
            && (nolook || forall b | Passes(g, w[v].item, Inf(w[v].ws), b) :: b in w[x].ws);
          assert w'[x].item == Item(p, 0) && w'[x].ws == w[x].ws;
        }
      }
    }
  }

  /** What closing one item does to the flags and the sizes of the working set. */
  ghost predicate Progress(g: Grammar, w: seq<Wset>, w': seq<Wset>, u: int, nolook: bool, grew: bool) {
    && Extends(w, w') && |w| <= WSETSIZE && |w'| <= WSETSIZE
    && (forall v | 0 <= v < |w| && w'[v].flag == 1 :: grew || (w[v].flag == 1))
    && (grew ==> |w| < |w'| || Room(g, w') < Room(g, w))
    && (nolook ==> !grew)
  }

  lemma NoProgress(g: Grammar, w: seq<Wset>, nolook: bool)
    requires |w| <= WSETSIZE
    ensures Progress(g, w, w, 0, nolook, false)
  {
  }

  lemma Progressed(g: Grammar, w: seq<Wset>, w': seq<Wset>, nolook: bool, grew: bool)
    requires Progress(g, w, w', 0, nolook, grew)
    ensures |w'| >= |w| && Room(g, w') <= Room(g, w) && (nolook ==> !grew)
            && (grew ==> |w| < |w'| || Room(g, w') < Room(g, w))
  {
    GrowthUsesRoom(g, w, w');
  }

  lemma FlagsAreBits(g: Grammar, k: seq<KItem>, w: seq<Wset>, nolook: bool)
    requires Justified(g, k, w, nolook)
    ensures forall v | 0 <= v < |w| :: w[v].flag == 0 || w[v].flag == 1
  {
  }

  lemma JustifiedDistinct(g: Grammar, k: seq<KItem>, w: seq<Wset>, nolook: bool)
    requires Justified(g, k, w, nolook)
    ensures Distinct(w)
  {
  }

  lemma EnteredFlags(w: seq<Wset>, w': seq<Wset>, p: nat, clset: set<nat>, nolook: bool, grew: bool)
    requires Entered(w, w', p, clset, nolook, grew)
    ensures Grows(w, w') && forall v | |w| <= v < |w'| :: w'[v].flag == 1
  {
  }

  /** The progress of two steps; a flag that either of them leaves up was up before or asks for another pass. */
  lemma ProgressTwice(g: Grammar, w0: seq<Wset>, w1: seq<Wset>, w2: seq<Wset>, u: nat, nolook: bool, grew: bool,
                      grew1: bool)
    requires Progress(g, w0, w1, 0, nolook, grew) && Progress(g, w1, w2, u, nolook, grew1)
    ensures Progress(g, w0, w2, 0, nolook, grew || grew1) && |w1| <= |w2|
    ensures forall v | 0 <= v < |w1| && w2[v].flag == 1 :: grew1 || w1[v].flag == 1
  {
    GrowthUsesRoom(g, w0, w1);
    GrowthUsesRoom(g, w1, w2);
  }

  lemma ClearedProgress(g: Grammar, w: seq<Wset>, w0: seq<Wset>, w': seq<Wset>, u: int, c: nat,
                        nolook: bool, grew: bool)
    requires Cleared(g, w, w0, u, c, |w|) && InBatch(g, w, u, c, u) && Progress(g, w0, w', u, nolook, grew)
    ensures Progress(g, w, w', u, nolook, grew) && (!grew ==> w'[u].flag != 1)
  {
    GrowthUsesRoom(g, w, w0);
  }

  lemma EnterJustified(g: Grammar, k: seq<KItem>, w: seq<Wset>, w1: seq<Wset>, w2: seq<Wset>, u: int, c: nat,
                       clset: set<nat>, p: nat, nolook: bool, grew: bool)
    requires Justified(g, k, w, nolook) && Justified(g, k, w1, nolook) && Entered(w1, w2, p, clset, nolook, grew)
    requires InBatch(g, w, u, c, u) && p < |g.prods| && g.prods[p].lhs == c
    requires !nolook ==> Collects(g, w, u, c, |w|, clset)
    requires !nolook ==> forall b | b in clset :: InLook(g, ItemsOf(k), PairsOf(k), Item(p, 0), b)
    ensures Justified(g, k, w2, nolook)
  {
    ClosureStep(g, ItemsOf(k), w[u].item, c, p);
    forall v | 0 <= v < |w2| ensures ItemOk(g, w2[v].item) && InClosure(g, ItemsOf(k), w2[v].item) {
      if v < |w1| {
        assert w2[v].item == w1[v].item;
      }
    }
    if !nolook {
      forall v, a | 0 <= v < |w2| && a in w2[v].ws
        ensures a <= g.ntokens && InLook(g, ItemsOf(k), PairsOf(k), w2[v].item, a)
      {
        if v < |w1| && a in w1[v].ws {
          assert w2[v].item == w1[v].item;
        }
      }
    }
  }

  lemma EnterProgress(g: Grammar, w0: seq<Wset>, w1: seq<Wset>, w2: seq<Wset>, u: int, clset: set<nat>, p: nat,
                      nolook: bool, grew: bool, grew1: bool)
    requires Progress(g, w0, w1, u, nolook, grew) && Entered(w1, w2, p, clset, nolook, grew1)
    requires |w2| <= WSETSIZE && (!nolook ==> forall b | b in clset :: b <= g.ntokens)
    ensures Progress(g, w0, w2, u, nolook, grew || grew1)
  {
    GrowthUsesRoom(g, w0, w1);
    GrowthUsesRoom(g, w1, w2);
    if grew1 && |w1| == |w2| {
      var v :| 0 <= v < |w1| && w2[v] != w1[v];
      var t :| t in clset && t !in w1[v].ws;
      NewLookUsesRoom(g, w1, w2, v, t);
    }
  }

  ghost predicate FirstsKnown(g: Grammar, pempty: array<int>, first: array<set<nat>>)
    reads pempty, first
  {
    && Ready(g, pempty[..]) && first.Length == g.nnonter + 1 && InTokens(g, first[..])
    && forall n, t | 0 <= n <= g.nnonter :: t in first[n] <==> Begins(g, N(n), t)
  }

  /** w' holds an entry for production p with at least clset; anything that grew was flagged. */
  ghost predicate Entered(w: seq<Wset>, w': seq<Wset>, p: nat, clset: set<nat>, nolook: bool, grew: bool) {
    && Grows(w, w') && Distinct(w') && |w'| <= |w| + 1
    && (exists u :: 0 <= u < |w'| && w'[u].item == Item(p, 0) && (nolook || clset <= w'[u].ws))
    && (forall v | 0 <= v < |w| :: w'[v] == w[v] ||
          (!nolook && w[v].item == Item(p, 0) && w'[v].ws == w[v].ws + clset != w[v].ws))
    && (forall v | |w| <= v < |w'| :: w'[v].item == Item(p, 0) && w'[v].flag == 1 && (nolook || w'[v].ws == clset))
    && (grew <==> !nolook && (|w| < |w'| || exists v :: 0 <= v < |w| && w'[v] != w[v]))
    && (nolook ==> forall v | 0 <= v < |w| :: w'[v] == w[v])
  }

  lemma CollectsOne(g: Grammar, w: seq<Wset>, u: int, c: nat, v: int, a: set<nat>, b: set<nat>)
    requires Collects(g, w, u, c, v, a) && InBatch(g, w, u, c, v)
    requires forall t | t in w[v].ws :: t <= g.ntokens
    requires forall t: nat :: t in b <==> t in a || Passes(g, w[v].item, Inf(w[v].ws), t)
    requires forall t | t in b :: t <= g.ntokens
    ensures Collects(g, w, u, c, v + 1, b)
  {
    forall t: nat
      ensures t in b <==> exists x :: x < v + 1 && InBatch(g, w, u, c, x) && Passes(g, w[x].item, Inf(w[x].ws), t)
    {
      if t in b && !Passes(g, w[v].item, Inf(w[v].ws), t) {
        var x :| x < v && InBatch(g, w, u, c, x) && Passes(g, w[x].item, Inf(w[x].ws), t);
        assert x < v + 1;
      }
    }
  }

  lemma TokenBegins(g: Grammar, t: nat)
    ensures forall b: nat :: Begins(g, T(t), b) <==> b == t
    ensures !Vanishes(g, T(t))
  {
    assert Fits(g, T(t), Leaf(t)) && Yield(Leaf(t)) == [t];
    forall tr | Fits(g, T(t), tr) ensures tr == Leaf(t) {
    }
  }

  /** Nothing after a symbol that does not vanish can start the rest. */
  lemma StopsHere(g: Grammar, rest: seq<Sym>, k: int)
    requires 0 <= k < |rest| && AllVanish(g, rest[..k]) && !Vanishes(g, rest[k])
    ensures !AllVanish(g, rest)
    ensures forall b: nat :: CanStart(g, rest, b) <==> exists j ::
              0 <= j <= k && AllVanish(g, rest[..j]) && Begins(g, rest[j], b)
  {
    forall j | k < j < |rest| ensures !AllVanish(g, rest[..j]) {
      assert rest[..j][k] == rest[k];
    }
  }
}
