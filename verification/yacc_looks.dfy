/**
 What the generated states know of the LALR(1) lookaheads of the grammar, and the conflicts of a grammar.
 */
module YaccLooks {
  import opened YaccGrammar
  import opened YaccFirst
  import opened YaccClosure
  import opened YaccKernels
  import opened YaccConflicts
  import opened YaccStates
  import opened YaccStagen
  import opened YaccLalr
  import opened YaccSound
  import opened YaccComplete

  /** The states are the reachable kernels. */
  ghost predicate IsAutomaton(g: Grammar, a: Auto) {
    forall k :: Reachable(g, k) <==> exists j :: 0 <= j < |a.kernels| && KSet(a, j) == k
  }

  lemma AllReachable(g: Grammar, a: Auto, m: seq<int>, ind: seq<int>)
    requires GoodAuto(g, a) && AllWorked(g, a, m, ind)
    ensures IsAutomaton(g, a)
  {
    forall k ensures Reachable(g, k) <==> exists j :: 0 <= j < |a.kernels| && KSet(a, j) == k {
      KernelsAreReachable(g, a, m, ind, k);
    }
  }

  /** The lookaheads of the states are LALR(1) lookaheads, and no others. */
  ghost predicate OnlyLalr(g: Grammar, a: Auto) {
    forall j, it, t: nat | Looks(g, a, j, it, t) :: IsLalr(g, KSet(a, j), it, t)
  }

  /** All LALR(1) lookaheads are lookaheads of the states. */
  ghost predicate AllLalr(g: Grammar, a: Auto) {
    forall j, it, t: nat | 0 <= j < |a.kernels| && IsLalr(g, KSet(a, j), it, t) :: Looks(g, a, j, it, t)
  }

  /** Whatever marks were overwritten, no lookahead is made up. */
  lemma JustIsLalr(g: Grammar, a: Auto)
    requires GoodAuto(g, a) && AllJust(g, a.kernels)
    ensures OnlyLalr(g, a)
  {
    hide GoodAuto, IsLalr, InLook, InClosure, PairsOf, IsJust;
    forall j, it, t: nat | Looks(g, a, j, it, t) ensures IsLalr(g, KSet(a, j), it, t) {
      GoodStateAt(g, a, j);
      LookIsLalr(g, a.kernels[j], it, t);
    }
  }

  /** The lookaheads of all states, by their kernels. */
  ghost function LooksOfAll(g: Grammar, a: Auto): Family {
    iset k: set<Item>, it: Item, t: nat | exists j :: 0 <= j < |a.kernels| && KSet(a, j) == k
                                                      && Looks(g, a, j, it, t) :: (k, it, t)
  }

  lemma LooksAt(g: Grammar, a: Auto, j: nat, it: Item, t: nat)
    requires GoodAuto(g, a) && j < |a.kernels|
    ensures (KSet(a, j), it, t) in LooksOfAll(g, a) <==> Looks(g, a, j, it, t)
  {
    hide GoodAuto, Looks, KSet;
    if (KSet(a, j), it, t) in LooksOfAll(g, a) {
      var i :| 0 <= i < |a.kernels| && KSet(a, i) == KSet(a, j) && Looks(g, a, i, it, t);
      if i < j {
        KernelsAreDistinct(g, a, i, j);
      } else if j < i {
        KernelsAreDistinct(g, a, j, i);
      }
    }
  }

  /** Closure within a state passes lookaheads on as the definition asks. */
  lemma PassesWithin(g: Grammar, a: Auto, j: nat, it: Item, c: nat, p: nat, b: nat)
    requires GoodAuto(g, a) && j < |a.kernels| && InClosure(g, KSet(a, j), it) && Before(g, it, c) && p < |g.prods|
             && g.prods[p].lhs == c
    requires Passes(g, it, LooksIn(LooksOfAll(g, a), KSet(a, j), it), b)
    ensures Looks(g, a, j, Item(p, 0), b)
  {
    hide GoodAuto, LooksOfAll, InClosure;
    ClosureStep(g, KSet(a, j), it, c, p);
    forall ps: iset<(Item, nat)> | LookClosed(g, KSet(a, j), ps) && PairsOf(a.kernels[j]) <= ps
      ensures (Item(p, 0), b) in ps
    {
      forall t: nat | t in LooksIn(LooksOfAll(g, a), KSet(a, j), it) ensures t in LookOf(ps, it) {
        LooksAt(g, a, j, it, t);
      }
      assert Passes(g, it, LookOf(ps, it), b);
    }
  }

  lemma LooksClosedWithin(g: Grammar, a: Auto)
    requires GoodAuto(g, a) && IsAutomaton(g, a)
    ensures ClosedWithin(g, LooksOfAll(g, a))
  {
    hide GoodAuto, LooksOfAll, InClosure, Looks, Reachable, KSet, Passes;
    forall k, it, c, p, b: nat | Reachable(g, k) && InClosure(g, k, it) && Before(g, it, c)
      && 0 <= p < |g.prods| && g.prods[p].lhs == c && Passes(g, it, LooksIn(LooksOfAll(g, a), k, it), b)
      ensures (k, Item(p, 0), b) in LooksOfAll(g, a)
    {
      var j :| 0 <= j < |a.kernels| && KSet(a, j) == k;
      PassesWithin(g, a, j, it, c, p, b);
      LooksAt(g, a, j, Item(p, 0), b);
    }
  }

  lemma LooksClosedAcross(g: Grammar, a: Auto)
    requires GoodAuto(g, a) && AllSent(g, a)
    ensures ClosedAcross(g, LooksOfAll(g, a))
  {
    hide GoodAuto, InClosure, Looks, Reachable, KSet, Goto;
    forall k, it, s, t: nat | (k, it, t) in LooksOfAll(g, a) && Reachable(g, k) && InClosure(g, k, it)
      && Moves(g, it, s) && s != T(1)
      ensures (Goto(g, k, s), Advance(it), t) in LooksOfAll(g, a)
    {
      var j :| 0 <= j < |a.kernels| && KSet(a, j) == k && Looks(g, a, j, it, t);
      assert Sent(g, a, j, it, s, t);
    }
  }

  /** When all lookaheads have been passed on, none is missing. */
  lemma SentIsLalr(g: Grammar, a: Auto)
    requires GoodAuto(g, a) && IsAutomaton(g, a) && AllSent(g, a)
    ensures AllLalr(g, a)
  {
    hide GoodAuto, IsAutomaton, AllSent, LooksOfAll, Looks, KSet, ClosedWithin, ClosedAcross;
    LooksClosedWithin(g, a);
    LooksClosedAcross(g, a);
    forall j, it, t: nat | 0 <= j < |a.kernels| && IsLalr(g, KSet(a, j), it, t) ensures Looks(g, a, j, it, t) {
      LooksAt(g, a, j, it, t);
    }
  }

  // ---- The conflicts of a grammar ------------------------------------------------------------------------

  /** The state with kernel k acts on token t other than by reducing: it shifts t, or accepts. */
  ghost predicate ShiftsOn(g: Grammar, k: set<Item>, t: nat) {
    if t == 1 then Item(0, 1) in k else Goto(g, k, T(t)) != {}
  }

  /** Production r is complete in the state with kernel k, and t is an LALR(1) lookahead of it. */
  ghost predicate ReducesOn(g: Grammar, k: set<Item>, r: nat, t: nat) {
    1 <= r < |g.prods| && IsLalr(g, k, Item(r, |g.prods[r].rhs|), t)
  }

  ghost predicate NoConflict(g: Grammar, k: set<Item>) {
    forall t: nat, r: nat | 1 <= t <= g.ntokens && ReducesOn(g, k, r, t) ::
      !ShiftsOn(g, k, t) && forall q: nat | ReducesOn(g, k, q, t) :: q == r
  }

  /** The grammar is LALR(1). */
  ghost predicate LalrGrammar(g: Grammar) {
    forall k | Reachable(g, k) :: NoConflict(g, k)
  }

  /** In the state with kernel k the declared levels speak on every conflict, which is between a shift and reductions
      of which at most one wins. */
  ghost predicate Arbitrated(g: Grammar, k: set<Item>, prec: Prec)
    requires prec.Covers(g)
  {
    forall t: nat, r: nat, q: nat | 1 <= t <= g.ntokens && ReducesOn(g, k, r, t) && ReducesOn(g, k, q, t) ::
      if ShiftsOn(g, k, t) then
        && !Undecided(t, r, prec)
        && (q != r && Reduces(prec.toklev[t], prec.levprd[r]) ==> !Reduces(prec.toklev[t], prec.levprd[q]))
      else q == r
  }

  ghost predicate ArbitratedGrammar(g: Grammar, prec: Prec)
    requires prec.Covers(g)
  {
    forall k | Reachable(g, k) :: Arbitrated(g, k, prec)
  }

  /** No token has a declared level. */
  ghost predicate NoLevels(g: Grammar, prec: Prec)
    requires prec.Covers(g)
  {
    forall t | 1 <= t <= g.ntokens :: Plevel(prec.toklev[t]) == 0
  }

  /** Without declared levels there is nothing to arbitrate. */
  lemma ArbitratedIsLalr(g: Grammar, prec: Prec)
    requires prec.Covers(g) && ArbitratedGrammar(g, prec) && NoLevels(g, prec)
    ensures LalrGrammar(g)
  {
    hide ShiftsOn, Reachable, Reduces, IsLalr;
    forall k | Reachable(g, k) ensures NoConflict(g, k) {
      assert Arbitrated(g, k, prec);
      forall t: nat, r: nat | 1 <= t <= g.ntokens && ReducesOn(g, k, r, t)
        ensures !ShiftsOn(g, k, t) && forall q: nat | ReducesOn(g, k, q, t) :: q == r
      {
        assert r < |prec.levprd| && Undecided(t, r, prec);
      }
    }
  }

  /** Only state 1 has passed the start symbol of $accept. */
  lemma EndIsStateOne(g: Grammar, a: Auto, i: nat)
    requires g.Valid() && GoodAuto(g, a) && Leads(a) && i < |a.kernels| && Item(0, 1) in KSet(a, i)
    ensures i == 1
  {
    hide GoodAuto;
    GoodStateAt(g, a, i);
    PassedStart(g, KSet(a, i));
    assert i != 0 by {
      StartOnly(g, a);
    }
    GoodStateAt(g, a, 1);
    PassedStart(g, KSet(a, 1));
    if i > 1 {
      KernelsAreDistinct(g, a, 1, i);
    }
  }

  /** A reachable kernel with the dot behind the start symbol is the one that $accept's goes to. */
  lemma PassedStart(g: Grammar, k: set<Item>)
    requires g.Valid() && Reachable(g, k) && Item(0, 1) in k
    ensures k == Goto(g, {START}, g.prods[0].rhs[0])
  {
    hide InClosure;
    var f := iset x: set<Item> | BeginsRight(g, x);
    assert GotoClosed(g, f) by {
      forall x, s | x in f && s != T(1) && Goto(g, x, s) != {} ensures Goto(g, x, s) in f {
        if Item(0, 1) in Goto(g, x, s) {
          assert Advance(START) == Item(0, 1);
          InGoto(g, x, s, START);
          StartIsKernel(g, x);
        }
      }
    }
    assert {START} in f;
  }

  ghost predicate BeginsRight(g: Grammar, k: set<Item>)
    requires g.Valid()
  {
    && (forall it | it in k :: ItemOk(g, it)) && (START in k ==> k == {START})
    && (Item(0, 1) in k ==> k == Goto(g, {START}, g.prods[0].rhs[0]))
  }
}
