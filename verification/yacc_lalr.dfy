/**
 The LALR(1) lookaheads of a grammar, by definition: the least relation between kernels, items and tokens that
 is closed under closure within a state and under the gotos between the states of the LR(0) automaton.
 */
module YaccLalr {
  import opened YaccGrammar
  import opened YaccFirst
  import opened YaccClosure
  import opened YaccKernels

  type Family = iset<(set<Item>, Item, nat)>

  ghost function LooksIn(f: Family, k: set<Item>, it: Item): iset<nat> {
    iset t | (k, it, t) in f
  }

  /** An item before a nonterminal passes its lookaheads on to the productions of the nonterminal. */
  ghost predicate ClosedWithin(g: Grammar, f: Family) {
    forall k, it, c, p, b: nat | Reachable(g, k) && InClosure(g, k, it) && Before(g, it, c)
      && 0 <= p < |g.prods| && g.prods[p].lhs == c && Passes(g, it, LooksIn(f, k, it), b) :: (k, Item(p, 0), b) in f
  }

  /** An item that moves takes its lookaheads with it. */
  ghost predicate ClosedAcross(g: Grammar, f: Family) {
    forall k, it, s, t | (k, it, t) in f && Reachable(g, k) && InClosure(g, k, it) && Moves(g, it, s) && s != T(1) ::
      (Goto(g, k, s), Advance(it), t) in f
  }

  /** Token t is an LALR(1) lookahead of the item in the state with kernel k. */
  ghost predicate IsLalr(g: Grammar, k: set<Item>, it: Item, t: nat) {
    forall f: Family :: ClosedWithin(g, f) && ClosedAcross(g, f) ==> (k, it, t) in f
  }

  /** All lookaheads of kernel k are LALR(1) lookaheads of the state that has its items. */
  ghost predicate IsJust(g: Grammar, k: seq<KItem>) {
    forall it, t | (it, t) in PairsOf(k) :: IsLalr(g, ItemsOf(k), it, t)
  }

  /** Within a state whose kernel is just, closure computes nothing but LALR(1) lookaheads. */
  lemma LookIsLalr(g: Grammar, k: seq<KItem>, it: Item, t: nat)
    requires Reachable(g, ItemsOf(k)) && IsJust(g, k) && InLook(g, ItemsOf(k), PairsOf(k), it, t)
    ensures IsLalr(g, ItemsOf(k), it, t)
  {
    hide ClosedAcross, InClosure, PairsOf, ItemsOf;
    forall f: Family | ClosedWithin(g, f) && ClosedAcross(g, f) ensures (ItemsOf(k), it, t) in f {
      var ps := iset x: (Item, nat) | (ItemsOf(k), x.0, x.1) in f;
      assert LookClosed(g, ItemsOf(k), ps) by {
        forall o, c, p, b: nat | InClosure(g, ItemsOf(k), o) && Before(g, o, c) && 0 <= p < |g.prods|
          && g.prods[p].lhs == c
          && Passes(g, o, LookOf(ps, o), b) ensures (Item(p, 0), b) in ps
        {
          assert LookOf(ps, o) == LooksIn(f, ItemsOf(k), o);
        }
      }
      assert PairsOf(k) <= ps;
    }
  }

  /** A goto keeps LALR(1) lookaheads. */
  lemma LalrMoves(g: Grammar, k: set<Item>, it: Item, s: Sym, t: nat)
    requires IsLalr(g, k, it, t) && Reachable(g, k) && InClosure(g, k, it) && Moves(g, it, s) && s != T(1)
    ensures IsLalr(g, Goto(g, k, s), Advance(it), t)
  {
    hide ClosedWithin, Reachable, InClosure, Goto;
  }

  /** The working set of a kernel has only LALR(1) lookaheads. */
  ghost predicate JustLooks(g: Grammar, k0: seq<KItem>, w: seq<Wset>) {
    forall v, t | 0 <= v < |w| && t in w[v].ws :: IsLalr(g, ItemsOf(k0), w[v].item, t)
  }

  /** Kernels with the same items share their LALR(1) lookaheads. */
  lemma JustUnion(g: Grammar, was: seq<KItem>, k: seq<KItem>, grown: seq<KItem>)
    requires IsJust(g, was) && IsJust(g, k) && ItemsOf(was) == ItemsOf(k) == ItemsOf(grown)
    requires PairsOf(grown) <= PairsOf(was) + PairsOf(k)
    ensures IsJust(g, grown)
  {
    hide IsLalr, PairsOf, ItemsOf;
  }

  lemma JustSame(g: Grammar, k: seq<KItem>, k': seq<KItem>)
    requires IsJust(g, k) && ItemsOf(k') == ItemsOf(k) && PairsOf(k') == PairsOf(k)
    ensures IsJust(g, k')
  {
    hide IsLalr, PairsOf, ItemsOf;
  }
}
