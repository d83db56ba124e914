/**
 stagen: close each state that must be done, register the kernels its items move
 to, and pack the states it reaches on nonterminals.
 */
module YaccStagen {
  import opened YaccPack
  import opened YaccApack
  import opened YaccGrammar
  import opened YaccFirst
  import opened YaccClosure
  import opened YaccKernels
  import opened YaccStates
  import opened YaccLalr

  // ---- Gotos of one state ------------------------------------------------------------------------

  ghost function KSet(a: Auto, i: int): set<Item>
    requires 0 <= i < |a.kernels|
  {
    ItemsOf(a.kernels[i])
  }

  /** State j is where state i goes on s. */
  ghost predicate GoesTo(g: Grammar, a: Auto, i: int, s: Sym, j: int) {
    && 0 <= i < |a.kernels| && 1 <= j < |a.kernels| && |a.acc| == |a.kernels|
    && KSet(a, j) == Goto(g, KSet(a, i), s) && a.acc[j] == s
  }

  ghost predicate HasGoto(g: Grammar, a: Auto, i: int, s: Sym) {
    exists j :: GoesTo(g, a, i, s, j)
  }

  /** Every transition of state i leads to a recorded state. */
  ghost predicate Expanded(g: Grammar, a: Auto, i: int)
    requires 0 <= i < |a.kernels|
  {
    forall s | s != T(1) && Goto(g, KSet(a, i), s) != {} :: HasGoto(g, a, i, s)
  }

  /** The gotos of state i on nonterminals can be read at offset off. */
  ghost predicate Stored(g: Grammar, a: Auto, m: seq<int>, off: int, i: int)
    requires 0 <= i < |a.kernels|
  {
    forall n | 1 <= n <= g.nnonter && Goto(g, KSet(a, i), N(n)) != {} ::
      0 <= off + n < |m| && m[off + n] != 0 && GoesTo(g, a, i, N(n), m[off + n])
  }

  lemma KSetStays(a: Auto, b: Auto, i: int)
    requires AutoExtends(a, b) && 0 <= i < |a.kernels|
    ensures KSet(b, i) == KSet(a, i)
  {
    var k, k' := a.kernels[i], b.kernels[i];
    assert SameItems(k, k');
    forall it ensures it in ItemsOf(k) <==> it in ItemsOf(k') {
      if it in ItemsOf(k) {
        var j :| 0 <= j < |k| && k[j].item == it;
        assert k'[j].item == it;
      }
      if it in ItemsOf(k') {
        var j :| 0 <= j < |k'| && k'[j].item == it;
        assert k[j].item == it;
      }
    }
  }

  lemma GoesToStays(g: Grammar, a: Auto, b: Auto, i: int, s: Sym, j: int)
    requires AutoExtends(a, b) && GoesTo(g, a, i, s, j) && |b.acc| == |b.kernels|
    ensures GoesTo(g, b, i, s, j)
  {
    KSetStays(a, b, i);
    KSetStays(a, b, j);
  }

  lemma ExpandedStays(g: Grammar, a: Auto, b: Auto, i: int)
    requires AutoExtends(a, b) && 0 <= i < |a.kernels| && Expanded(g, a, i) && |b.acc| == |b.kernels|
    ensures Expanded(g, b, i)
  {
    KSetStays(a, b, i);
    forall s | s != T(1) && Goto(g, KSet(b, i), s) != {} ensures HasGoto(g, b, i, s) {
      var j :| GoesTo(g, a, i, s, j);
      GoesToStays(g, a, b, i, s, j);
    }
  }

  lemma StoredStays(g: Grammar, a: Auto, b: Auto, m: seq<int>, m': seq<int>, off: int, i: int)
    requires AutoExtends(a, b) && 0 <= i < |a.kernels| && Stored(g, a, m, off, i) && |b.acc| == |b.kernels|
    requires Keeps(m, m')
    ensures Stored(g, b, m', off, i)
  {
    KSetStays(a, b, i);
    forall n | 1 <= n <= g.nnonter && Goto(g, KSet(b, i), N(n)) != {}
      ensures 0 <= off + n < |m'| && m'[off + n] != 0 && GoesTo(g, b, i, N(n), m'[off + n])
    {
      GoesToStays(g, a, b, i, N(n), m[off + n]);
    }
  }

  // ---- Gathering one goto from the working set ------------------------------------------------------

  /** The items of w[from..to] that move on s, advanced, in order. */
  ghost function Gather(g: Grammar, w: seq<Wset>, from: nat, to: nat, s: Sym): (k: seq<KItem>)
    requires from <= to <= |w|
    ensures |k| <= to - from
  {
    if from == to then []
    else
      Gather(g, w, from, to - 1, s) +
      (if Moves(g, w[to - 1].item, s) then [KItem(Advance(w[to - 1].item), w[to - 1].ws)] else [])
  }

  lemma {:induction false} GatherHas(g: Grammar, w: seq<Wset>, from: nat, to: nat, s: Sym, v: nat) returns (x: nat)
    requires from <= v < to <= |w| && Moves(g, w[v].item, s)
    ensures x < |Gather(g, w, from, to, s)| && Gather(g, w, from, to, s)[x] == KItem(Advance(w[v].item), w[v].ws)
  {
    if v == to - 1 {
      x := |Gather(g, w, from, to - 1, s)|;
    } else {
      x := GatherHas(g, w, from, to - 1, s, v);
    }
  }

  lemma {:induction false} GatherFrom(g: Grammar, w: seq<Wset>, from: nat, to: nat, s: Sym, x: nat) returns (v: nat)
    requires from <= to <= |w| && x < |Gather(g, w, from, to, s)|
    ensures from <= v < to && Moves(g, w[v].item, s)
            && Gather(g, w, from, to, s)[x] == KItem(Advance(w[v].item), w[v].ws)
  {
    if x == |Gather(g, w, from, to - 1, s)| {
      v := to - 1;
    } else {
      v := GatherFrom(g, w, from, to - 1, s, x);
    }
  }

  lemma {:induction false} GatherDistinct(g: Grammar, w: seq<Wset>, from: nat, to: nat, s: Sym)
    requires from <= to <= |w| && Distinct(w)
    ensures DistinctItems(Gather(g, w, from, to, s))
  {
    if from < to {
      GatherDistinct(g, w, from, to - 1, s);
      var k := Gather(g, w, from, to - 1, s);
      forall x | 0 <= x < |k| ensures k[x].item != Advance(w[to - 1].item) {
        var v := GatherFrom(g, w, from, to - 1, s, x);
      }
    }
  }

  /** All of a closed working set's items that move on s, gathered, are the goto of its kernel on s. */
  lemma GatheredIsGoto(g: Grammar, k0: seq<KItem>, w: seq<Wset>, from: nat, s: Sym)
    requires forall it :: InClosure(g, ItemsOf(k0), it) <==> exists v :: 0 <= v < |w| && w[v].item == it
    requires from <= |w| && forall v | 0 <= v < from :: !Moves(g, w[v].item, s)
    ensures ItemsOf(Gather(g, w, from, |w|, s)) == Goto(g, ItemsOf(k0), s)
  {
    var k := Gather(g, w, from, |w|, s);
    forall it | it in Goto(g, ItemsOf(k0), s) ensures it in ItemsOf(k) {
      var o :| o in AllItems(g) && Moves(g, o, s) && InClosure(g, ItemsOf(k0), o) && it == Advance(o);
      var v :| 0 <= v < |w| && w[v].item == o;
      var x := GatherHas(g, w, from, |w|, s, v);
      assert k[x].item == it;
    }
    forall it | it in ItemsOf(k) ensures it in Goto(g, ItemsOf(k0), s) {
      var x :| 0 <= x < |k| && k[x].item == it;
      var v := GatherFrom(g, w, from, |w|, s, x);
      InGoto(g, ItemsOf(k0), s, w[v].item);
    }
  }

  lemma GatheredIsKernel(g: Grammar, k0: seq<KItem>, w: seq<Wset>, from: nat, s: Sym)
    requires forall it :: InClosure(g, ItemsOf(k0), it) <==> exists v :: 0 <= v < |w| && w[v].item == it
    requires g.Valid() && from < |w| < WSETSIZE
    requires forall v | 0 <= v < from :: !Moves(g, w[v].item, s)
    requires Moves(g, w[from].item, s) && s != T(1) && Reachable(g, ItemsOf(k0))
    requires Distinct(w) && forall v, a | 0 <= v < |w| && a in w[v].ws :: a <= g.ntokens
    ensures FromGotoOn(g, Gather(g, w, from, |w|, s), s)
  {
    hide InClosure, Reachable, Distinct, Gather;
    var k := Gather(g, w, from, |w|, s);
    GatheredIsGoto(g, k0, w, from, s);
    var y := GatherHas(g, w, from, |w|, s, from);
    assert k[y].item in ItemsOf(k);
    ReachableStep(g, ItemsOf(k0), s);
    GatherDistinct(g, w, from, |w|, s);
    forall j | 0 <= j < |k|
      ensures k[j].item.dot >= 1 && ItemOk(g, k[j].item) && g.prods[k[j].item.prod].rhs[k[j].item.dot - 1] == s
      ensures forall a | a in k[j].look :: a <= g.ntokens
    {
      var v := GatherFrom(g, w, from, |w|, s, j);
    }
  }

  // ---- Lookaheads that are passed on -----------------------------------------------------------------

  /** Token t is a lookahead of an item in state i. */
  ghost predicate Looks(g: Grammar, a: Auto, i: int, it: Item, t: nat) {
    0 <= i < |a.kernels| && InClosure(g, KSet(a, i), it) && InLook(g, KSet(a, i), PairsOf(a.kernels[i]), it, t)
  }

  /** The kernel that state i goes to on s has the lookahead t for the item moved over s. */
  ghost predicate Handed(g: Grammar, a: Auto, i: int, it: Item, s: Sym, t: nat) {
    exists j :: GoesTo(g, a, i, s, j) && (Advance(it), t) in PairsOf(a.kernels[j])
  }

  /** State i has passed all its lookaheads on. */
  ghost predicate PassedOnAll(g: Grammar, a: Auto, i: int) {
    forall it, s, t | Looks(g, a, i, it, t) && Moves(g, it, s) && s != T(1) :: Handed(g, a, i, it, s, t)
  }

  lemma MorePairsStay(a: Auto, b: Auto, j: int)
    requires AutoExtends(a, b) && 0 <= j < |a.kernels|
    ensures PairsOf(a.kernels[j]) <= PairsOf(b.kernels[j])
  {
    assert SameItems(a.kernels[j], b.kernels[j]);
  }

  lemma HandedStays(g: Grammar, a: Auto, b: Auto, i: int, it: Item, s: Sym, t: nat)
    requires Handed(g, a, i, it, s, t) && AutoExtends(a, b) && |b.acc| == |b.kernels|
    ensures Handed(g, b, i, it, s, t)
  {
    hide PairsOf, AutoExtends;
    var j :| GoesTo(g, a, i, s, j) && (Advance(it), t) in PairsOf(a.kernels[j]);
    MorePairsStay(a, b, j);
    GoesToStays(g, a, b, i, s, j);
  }

  lemma PassedOnStays(g: Grammar, a: Auto, b: Auto, i: int)
    requires PassedOnAll(g, a, i) && AutoExtends(a, b) && |b.acc| == |b.kernels| && 0 <= i < |a.kernels|
             && b.kernels[i] == a.kernels[i]
    ensures PassedOnAll(g, b, i)
  {
    hide Handed, AutoExtends;
    forall it, s, t | Looks(g, b, i, it, t) && Moves(g, it, s) && s != T(1) ensures Handed(g, b, i, it, s, t) {
      assert Looks(g, a, i, it, t);
      HandedStays(g, a, b, i, it, s, t);
    }
  }

  /** A production with nothing on its right side is in the closure of state i. */
  ghost predicate HasBare(g: Grammar, a: Auto, i: int)
    requires 0 <= i < |a.kernels|
  {
    exists r: nat :: r < |g.prods| && g.prods[r].rhs == [] && InClosure(g, KSet(a, i), Item(r, 0))
  }

  /** State i is marked if output needs the lookaheads of its closure. */
  ghost predicate BareMarked(g: Grammar, a: Auto, ty: seq<int>, i: int)
    requires 0 <= i < |a.kernels| <= |ty|
  {
    HasBare(g, a, i) ==> ty[i] == MUSTLOOKAHEAD
  }

  /** A state that is done has passed its lookaheads on. */
  ghost predicate LooksDone(g: Grammar, a: Auto, ty: seq<int>, i: int)
    requires 0 <= i < |a.kernels| <= |ty|
  {
    ty[i] == MUSTDO || PassedOnAll(g, a, i)
  }

  ghost predicate AllLooksDone(g: Grammar, a: Auto, ty: seq<int>) {
    |a.kernels| <= |ty| && forall i {:trigger LooksDone(g, a, ty, i)} | 0 <= i < |a.kernels| :: LooksDone(g, a, ty, i)
  }

  /** The working set w has exactly the lookaheads of the closure of k0. */
  ghost predicate LooksOf(g: Grammar, k0: seq<KItem>, w: seq<Wset>) {
    forall v, t | 0 <= v < |w| :: t in w[v].ws <==> InLook(g, ItemsOf(k0), PairsOf(k0), w[v].item, t)
  }

  /** What the loop over the working set has done about lookaheads: all items before the symbols in moved are handed
      on. */
  ghost predicate HandedAll(g: Grammar, a: Auto, i: int, w: seq<Wset>, moved: set<Sym>) {
    forall v, s, t | 0 <= v < |w| && s in moved && Moves(g, w[v].item, s) && t in w[v].ws ::
        Handed(g, a, i, w[v].item, s, t)
  }

  lemma HandedAllStays(g: Grammar, a: Auto, b: Auto, i: int, w: seq<Wset>, moved: set<Sym>)
    requires HandedAll(g, a, i, w, moved) && AutoExtends(a, b) && |b.acc| == |b.kernels|
    ensures HandedAll(g, b, i, w, moved)
  {
    hide Handed, AutoExtends, Moves;
    forall v, s, t | 0 <= v < |w| && s in moved && Moves(g, w[v].item, s) && t in w[v].ws
      ensures Handed(g, b, i, w[v].item, s, t)
    {
      HandedStays(g, a, b, i, w[v].item, s, t);
    }
  }

  /** The items before s are gathered with their lookaheads. */
  lemma GatheredPairs(g: Grammar, w: seq<Wset>, from: nat, s: Sym, v: nat, t: nat)
    requires from <= |w| && (forall u | 0 <= u < from :: !Moves(g, w[u].item, s))
    requires v < |w| && Moves(g, w[v].item, s) && t in w[v].ws
    ensures (Advance(w[v].item), t) in PairsOf(Gather(g, w, from, |w|, s))
  {
    var x := GatherHas(g, w, from, |w|, s, v);
  }

  /** What is gathered from just lookaheads is just. */
  lemma GatheredIsJust(g: Grammar, k0: seq<KItem>, w: seq<Wset>, from: nat, s: Sym)
    requires from <= |w| && JustLooks(g, k0, w) && Reachable(g, ItemsOf(k0)) && s != T(1)
    requires forall v | 0 <= v < |w| :: InClosure(g, ItemsOf(k0), w[v].item)
    requires ItemsOf(Gather(g, w, from, |w|, s)) == Goto(g, ItemsOf(k0), s)
    ensures IsJust(g, Gather(g, w, from, |w|, s))
  {
    hide IsLalr, Reachable, InClosure, ItemsOf, Goto, Gather;
    var k := Gather(g, w, from, |w|, s);
    forall it, t | (it, t) in PairsOf(k) ensures IsLalr(g, ItemsOf(k), it, t) {
      var x :| 0 <= x < |k| && t in k[x].look && k[x].item == it;
      var v := GatherFrom(g, w, from, |w|, s, x);
      LalrMoves(g, ItemsOf(k0), w[v].item, s, t);
    }
  }

  /** The goto on s has been registered as state j, with all that was gathered. */
  lemma HandedOne(g: Grammar, b: Auto, i: int, w: seq<Wset>, moved: set<Sym>, from: nat, s: Sym, j: int)
    requires HandedAll(g, b, i, w, moved) && GoesTo(g, b, i, s, j) && from <= |w|
             && (forall u | 0 <= u < from :: !Moves(g, w[u].item, s))
    requires PairsOf(Gather(g, w, from, |w|, s)) <= PairsOf(b.kernels[j])
    ensures HandedAll(g, b, i, w, moved + {s})
  {
    hide PairsOf, Goto, Moves, Gather;
    forall v, c, t | 0 <= v < |w| && c in moved + {s} && Moves(g, w[v].item, c) && t in w[v].ws
      ensures Handed(g, b, i, w[v].item, c, t)
    {
      if c == s {
        GatheredPairs(g, w, from, s, v, t);
        assert (Advance(w[v].item), t) in PairsOf(b.kernels[j]);
      }
    }
  }

  // ---- One state ------------------------------------------------------------------------------------

  /** Everything the loop over the working set of state i has recorded: temp1[n] is the goto on nonterminal n. */
  ghost predicate Recorded(g: Grammar, a: Auto, i: int, temp1: seq<int>) {
    && |temp1| == g.nnonter + 1
    && forall n | 1 <= n <= g.nnonter && temp1[n] != 0 :: GoesTo(g, a, i, N(n), temp1[n])
  }

  /** The working set w of state i with its flags fl, when the loop has come to p and has moved on the symbols
      in moved: an item is flagged once the loop has passed it or has moved on its symbol. */
  ghost predicate Moving(g: Grammar, a: Auto, i: int, w: seq<Wset>, fl: seq<Wset>, p: nat, moved: set<Sym>,
                         temp1: seq<int>) {
    && |fl| == |w| && p <= |w| && Recorded(g, a, i, temp1)
    && (forall v | 0 <= v < |w| ::
          fl[v] == w[v].(flag := if v < p || (exists s :: s in moved && Moves(g, w[v].item, s)) then 1 else 0))
    && (forall v, s | 0 <= v < p && Moves(g, w[v].item, s) && s != T(1) :: s in moved)
    && (forall s | s in moved :: s != T(1) && MovedOn(g, a, i, s, temp1))
  }

  ghost predicate MovedOn(g: Grammar, a: Auto, i: int, s: Sym, temp1: seq<int>) {
    HasGoto(g, a, i, s) && (s.N? ==> 1 <= s.n < |temp1| && temp1[s.n] != 0)
  }

  lemma MovedOnStays(g: Grammar, a: Auto, b: Auto, i: int, s: Sym, temp1: seq<int>, temp1': seq<int>)
    requires AutoExtends(a, b) && |b.acc| == |b.kernels| && MovedOn(g, a, i, s, temp1)
    requires |temp1'| == |temp1| && forall n | 0 <= n < |temp1| && temp1[n] != 0 :: temp1'[n] != 0
    ensures MovedOn(g, b, i, s, temp1')
  {
    var j :| GoesTo(g, a, i, s, j);
    GoesToStays(g, a, b, i, s, j);
  }

  /** Item p is flagged already, or it does not move: nothing to do but to flag it. */
  lemma MovingSkip(g: Grammar, a: Auto, i: int, w: seq<Wset>, fl: seq<Wset>, p: nat, moved: set<Sym>, temp1: seq<int>)
    requires Moving(g, a, i, w, fl, p, moved, temp1) && p < |w|
    requires fl[p].flag == 1 || forall s | s != T(1) :: !Moves(g, w[p].item, s)
    ensures Moving(g, a, i, w, fl[p := fl[p].(flag := 1)], p + 1, moved, temp1)
  {
  }

  /** Nothing before an unflagged item stands before the same symbol. */
  lemma FirstOfItsSymbol(g: Grammar, a: Auto, i: int, w: seq<Wset>, fl: seq<Wset>, p: nat, moved: set<Sym>,
                         temp1: seq<int>, s: Sym)
    requires Moving(g, a, i, w, fl, p, moved, temp1) && p < |w| && fl[p].flag == 0 && Moves(g, w[p].item, s)
             && s != T(1)
    ensures forall v | 0 <= v < p :: !Moves(g, w[v].item, s)
  {
  }

  /** The items on p's symbol have been gathered and flagged, and the goto has been registered as state j. */
  lemma MovingStep(g: Grammar, a: Auto, b: Auto, i: int, w: seq<Wset>, fl: seq<Wset>, fl': seq<Wset>, p: nat,
                   moved: set<Sym>,
                   temp1: seq<int>, temp1': seq<int>, s: Sym, j: int)
    requires Moving(g, a, i, w, fl, p, moved, temp1) && p < |w| && Moves(g, w[p].item, s) && s != T(1) && g.InRange(s)
    requires AutoExtends(a, b) && |b.acc| == |b.kernels| && GoesTo(g, b, i, s, j)
    requires |fl'| == |w| && forall v | 0 <= v < |w| :: fl'[v] == if v >= p && Moves(g, w[v].item, s)
                                                        then fl[v].(flag := 1) else fl[v]
    requires temp1' == match s case T(_) => temp1 case N(n) => temp1[n := j]
    ensures Moving(g, b, i, w, fl', p + 1, moved + {s}, temp1')
  {
    forall n | 1 <= n <= g.nnonter && temp1'[n] != 0 ensures GoesTo(g, b, i, N(n), temp1'[n]) {
      if s != N(n) {
        GoesToStays(g, a, b, i, N(n), temp1[n]);
      }
    }
    forall c | c in moved ensures MovedOn(g, b, i, c, temp1') {
      MovedOnStays(g, a, b, i, c, temp1, temp1');
    }
    assert HasGoto(g, b, i, s);
    MovingFlags(g, w, fl, fl', p, moved, s);
  }

  lemma MovingFlags(g: Grammar, w: seq<Wset>, fl: seq<Wset>, fl': seq<Wset>, p: nat, moved: set<Sym>, s: Sym)
    requires |fl| == |w| == |fl'| && p < |w| && Moves(g, w[p].item, s)
    requires forall v | 0 <= v < |w| ::
               fl[v] == w[v].(flag := if v < p || (exists c :: c in moved && Moves(g, w[v].item, c)) then 1 else 0)
    requires forall v | 0 <= v < |w| :: fl'[v] == if v >= p && Moves(g, w[v].item, s) then fl[v].(flag := 1) else fl[v]
    ensures forall v | 0 <= v < |w| ::
              fl'[v] == w[v].(flag := if v < p + 1 || (exists c :: c in moved + {s} && Moves(g, w[v].item, c))
                              then 1 else 0)
  {
    forall v | 0 <= v < |w|
      ensures fl'[v] == w[v].(flag := if v < p + 1 || (exists c :: c in moved + {s} && Moves(g, w[v].item, c))
                              then 1 else 0)
    {
      if Moves(g, w[v].item, s) {
        assert s in moved + {s};
      } else if c :| c in moved && Moves(g, w[v].item, c) {
        assert c in moved + {s};
      }
    }
  }

  lemma MovedAll(g: Grammar, a: Auto, i: nat, k0: seq<KItem>, w: seq<Wset>, fl: seq<Wset>, moved: set<Sym>,
                 temp1: seq<int>)
    requires i < |a.kernels| && KSet(a, i) == ItemsOf(k0)
    requires forall it :: InClosure(g, ItemsOf(k0), it) <==> exists v :: 0 <= v < |w| && w[v].item == it
    requires Moving(g, a, i, w, fl, |w|, moved, temp1)
    ensures Expanded(g, a, i)
    ensures forall n | 1 <= n <= g.nnonter && Goto(g, KSet(a, i), N(n)) != {} :: temp1[n] != 0
  {
    forall s | s != T(1) && Goto(g, KSet(a, i), s) != {} ensures MovedOn(g, a, i, s, temp1) {
      var e :| e in Goto(g, KSet(a, i), s);
      var o :| o in AllItems(g) && Moves(g, o, s) && InClosure(g, ItemsOf(k0), o) && e == Advance(o);
      var v :| 0 <= v < |w| && w[v].item == o;
    }
    forall n | 1 <= n <= g.nnonter && Goto(g, KSet(a, i), N(n)) != {} ensures temp1[n] != 0 {
      assert MovedOn(g, a, i, N(n), temp1);
    }
  }

  lemma PackedIsStored(g: Grammar, a: Auto, i: nat, temp1: seq<int>, m: seq<int>, off: int)
    requires i < |a.kernels| && Recorded(g, a, i, temp1)
    requires forall n | 1 <= n <= g.nnonter && Goto(g, KSet(a, i), N(n)) != {} :: temp1[n] != 0
    requires Holds(m, off, 0, temp1[1..])
    ensures Stored(g, a, m, off - 1, i)
  {
    forall n | 1 <= n <= g.nnonter && Goto(g, KSet(a, i), N(n)) != {}
      ensures 0 <= off - 1 + n < |m| && m[off - 1 + n] != 0 && GoesTo(g, a, i, N(n), m[off - 1 + n])
    {
      assert temp1[1..][n - 1] == temp1[n];
    }
  }

  class Stagen {
    const g: Grammar
    const pempty: array<int>
    const first: array<set<nat>>
    const lalr: Lalr
    const work: WorkSet
    const overlay: Overlay
    var indgo: seq<int>
    /** The mark of a state that had to be done again was overwritten: its new lookaheads may not have been passed
        on. */
    ghost var overwritten: bool

    constructor (g: Grammar, pempty: array<int>, first: array<set<nat>>)
      requires g.Valid() && FirstsKnown(g, pempty, first)
      ensures this.g == g && this.pempty == pempty && this.first == first
      ensures Shape() && Known() && fresh(lalr) && fresh(work) && fresh(work.wsets) && fresh(overlay)
              && fresh(overlay.amem)
      ensures Worked(g, lalr.View(), lalr.tystate, overlay.amem[..], indgo)
      ensures !overwritten && AllLooksDone(g, lalr.View(), lalr.tystate)
    {
      overwritten := false;
      this.g, this.pempty, this.first := g, pempty, first;
      lalr := new Lalr(g);
      work := new WorkSet();
      overlay := new Overlay();
      indgo := seq(NSTATES, _ => 0);
    }

    ghost predicate Shape()
      reads this, lalr, work
    {
      && lalr.Valid() && lalr.g == g && |indgo| == NSTATES
      && work.wsets.Length == WSETSIZE && overlay.amem.Length == ACTSIZE
      && work.wsets != pempty as object && work.wsets != first as object && work.wsets != overlay.amem as object
      && overlay.amem != pempty && overlay.amem != first as object
      && lalr as object != this && work as object != this && lalr as object != work
    }

    ghost predicate Known()
      reads pempty, first
    {
      FirstsKnown(g, pempty, first)
    }

    /** Move the items of the working set that stand before the same symbol as item p. */
    method GatherFrom(p: nat, s: Sym, nolook: bool) returns (k: seq<KItem>)
      requires work.Shape() && p < work.cwp
      modifies work.wsets
      ensures k == Gather(g, if nolook then Blank(old(work.View())) else old(work.View()), p, work.cwp, s)
      ensures forall v | 0 <= v < work.cwp :: work.wsets[v] ==
                if v >= p && Moves(g, old(work.wsets[v]).item, s) then old(work.wsets[v]).(flag := 1)
                   else old(work.wsets[v])
    {
      ghost var w := if nolook then Blank(work.View()) else work.View();
      ghost var w0 := work.View();
      k := [];
      for q := p to work.cwp
        invariant k == Gather(g, w, p, q, s)
        invariant forall v | 0 <= v < work.cwp :: work.wsets[v] ==
                    if p <= v < q && Moves(g, w0[v].item, s) then w0[v].(flag := 1) else w0[v]
      {
        assert work.wsets[q] == w0[q];
        if Moves(g, work.wsets[q].item, s) {
          k := k + [KItem(Advance(work.wsets[q].item), if nolook then {} else work.wsets[q].ws)];
          work.wsets[q] := work.wsets[q].(flag := 1);
        }
      }
    }

    /** The kernel state i reaches on s, from the items of the working set. */
    method GatherGoto(p: nat, s: Sym, ghost a: Auto, ghost i: nat, ghost k0: seq<KItem>, ghost w: seq<Wset>,
                      ghost moved: set<Sym>,
                      ghost temp1: seq<int>)
      returns (k: seq<KItem>)
      requires work.Shape() && ClosureOf(g, a, i, k0, w) && JustLooks(g, k0, w)
      requires work.cwp == |w| && p < |w| && Moving(g, a, i, w, work.View(), p, moved, temp1)
      requires work.wsets[p].flag == 0 && Moves(g, w[p].item, s) && s != T(1)
      modifies work.wsets
      ensures FromGotoOn(g, k, s) && ItemsOf(k) == Goto(g, KSet(a, i), s) && k == Gather(g, w, p, |w|, s)
              && IsJust(g, k)
      ensures forall v | 0 <= v < p :: !Moves(g, w[v].item, s)
      ensures forall v | 0 <= v < |w| :: work.View()[v] ==
                if v >= p && Moves(g, w[v].item, s) then old(work.View())[v].(flag := 1) else old(work.View())[v]
    {
      hide JustLooks, IsJust, Gather;
      ghost var fl := work.View();
      assert fl[p] == work.wsets[p];
      FirstOfItsSymbol(g, a, i, w, fl, p, moved, temp1, s);
      k := GatherFrom(p, s, false);
      GatherSame(g, w, fl, p, |w|, s);
      ClosureGathers(g, a, i, k0, w, p, s);
      GatheredAreJust(g, a, i, k0, w, p, s);
    }

    /** Do the goto on s, which item p is the first to stand before. */
    method MoveItem(i: nat, p: nat, s: Sym, temp1: seq<int>, ghost k0: seq<KItem>, ghost w: seq<Wset>,
                    ghost moved: set<Sym>)
      returns (ok: bool, temp1': seq<int>)
      requires Shape() && work.Shape() && ClosureOf(g, lalr.View(), i, k0, w)
      requires work.cwp == |w| && p < |w| && Moving(g, lalr.View(), i, w, work.View(), p, moved, temp1)
      requires work.wsets[p].flag == 0 && Moves(g, w[p].item, s) && s != T(1) && Begun(lalr.View(), w, p)
      requires HandedAll(g, lalr.View(), i, w, moved) && JustLooks(g, k0, w)
      modifies lalr, work.wsets
      ensures ok ==> HandedAll(g, lalr.View(), i, w, moved + {s})
      ensures ok && old(SelfMarked(g, lalr.View(), lalr.tystate, i)) ==> SelfMarked(g, lalr.View(), lalr.tystate, i)
      ensures ok ==> |lalr.kernels| > 1
      ensures ok ==> Shape() && work.Shape() && ClosureOf(g, lalr.View(), i, k0, w)
      ensures ok ==> AutoExtends(old(lalr.View()), lalr.View())
      ensures ok ==> Marks(g, old(lalr.View()), lalr.View(), old(lalr.tystate), lalr.tystate)
      ensures ok ==> Moving(g, lalr.View(), i, w, work.View(), p + 1, moved + {s}, temp1')
    {
      hide HandedAll, SelfMarked, Chained, Leads, LookRoom, EnteredOn, Steady, SameItems, MovedOn, JustLooks,
        IsJust, AllJust;
      ghost var a, fl, ty := lalr.View(), work.View(), lalr.tystate;
      var k := GatherGoto(p, s, a, i, k0, w, moved, temp1);
      ghost var fl' := work.View();
      InGoto(g, KSet(a, i), s, w[p].item);
      var j;
      ok, j := lalr.State(k, s, false);
      if !ok {
        return false, temp1;
      }
      ghost var b := lalr.View();
      KSetStays(a, b, i);
      temp1' := match s case T(_) => temp1 case N(n) => temp1[n := j];
      MovingStep(g, a, b, i, w, fl, fl', p, moved, temp1, temp1', s, j);
      HandedAllStays(g, a, b, i, w, moved);
      SelfMarkedStays(g, a, b, ty, lalr.tystate, i, s, j);
      HandedOne(g, b, i, w, moved, p, s, j);
      ClosureOfStays(g, a, b, i, k0, w);
    }

    /** Item p of the loop over the working set of state i. */
    method VisitItem(i: nat, p: nat, temp1: seq<int>, ghost a0: Auto, ghost ty0: seq<int>, ghost k0: seq<KItem>,
                     ghost w: seq<Wset>,
                     ghost moved: set<Sym>)
      returns (ok: bool, temp1': seq<int>, ghost moved': set<Sym>)
      requires Shape() && work.Shape() && ClosureOf(g, lalr.View(), i, k0, w)
      requires work.cwp == |w| && p < |w| && Moving(g, lalr.View(), i, w, work.View(), p, moved, temp1)
      requires AutoExtends(a0, lalr.View()) && StateDone(g, a0, lalr.View(), ty0, lalr.tystate, i)
               && JustLooks(g, k0, w)
      requires Begun(lalr.View(), w, p) && (p == 0 ==> moved == {}) && BareBehind(g, w, |lalr.kernels[i]|)
      requires HandedAll(g, lalr.View(), i, w, moved) && BareSeen(g, w, p, lalr.tystate, i)
               && (overwritten || Steady(a0, lalr.View(), lalr.tystate))
      modifies this`overwritten, lalr, work.wsets
      ensures ok ==> |lalr.kernels| > i && |lalr.kernels| > 1 && BareBehind(g, w, |lalr.kernels[i]|)
      ensures ok ==> HandedAll(g, lalr.View(), i, w, moved') && BareSeen(g, w, p + 1, lalr.tystate, i)
      ensures ok ==> overwritten || Steady(a0, lalr.View(), lalr.tystate)
      ensures old(overwritten) ==> overwritten
      ensures ok && old(SelfMarked(g, lalr.View(), lalr.tystate, i))
              && old(overwritten ==> Overwrites(g, lalr.View())) ==>
                SelfMarked(g, lalr.View(), lalr.tystate, i) && (overwritten ==> Overwrites(g, lalr.View()))
      ensures ok ==> Shape() && work.Shape() && ClosureOf(g, lalr.View(), i, k0, w)
      ensures ok ==> AutoExtends(a0, lalr.View()) && StateDone(g, a0, lalr.View(), ty0, lalr.tystate, i)
      ensures ok ==> Moving(g, lalr.View(), i, w, work.View(), p + 1, moved', temp1')
    {
      hide GoodAuto, AutoExtends, LookRoom, Chained, Leads, MovedOn, Recorded, Marks, Reachable, InClosure, JustLooks,
        AllJust, Goto, EnteredOn, GoodState, SameItems, HandedAll, Overwrites, LooksOf, IsJust;
      ghost var a, fl, ty := lalr.View(), work.View(), lalr.tystate;
      assert fl[p] == work.wsets[p];
      var it := work.wsets[p].item;
      moved' := moved;
      if work.wsets[p].flag == 1 {
        MovingSkip(g, a, i, w, fl, p, moved, temp1);
        MovedIsNotBare(g, a, i, w, fl, p, moved, temp1);
        assert fl[p := fl[p].(flag := 1)] == fl;
        return true, temp1, moved';
      }
      if it.dot == |g.prods[it.prod].rhs| || g.prods[it.prod].rhs[it.dot] == T(1) {
        if |lalr.kernels[i]| <= p {
          EndsBehind(g, a, i, k0, w, p, ty);
          overwritten := overwritten || lalr.tystate[i] == MUSTDO;
          lalr.tystate := lalr.tystate[i := MUSTLOOKAHEAD];
        }
        work.wsets[p] := work.wsets[p].(flag := 1);
        MovingSkip(g, a, i, w, fl, p, moved, temp1);
        assert work.View() == fl[p := fl[p].(flag := 1)];
        return true, temp1, moved';
      }
      ok, temp1' := MoveItem(i, p, g.prods[it.prod].rhs[it.dot], temp1, k0, w, moved);
      if ok {
        moved' := moved + {g.prods[it.prod].rhs[it.dot]};
        StateDoneMarks(g, a0, a, lalr.View(), ty0, ty, lalr.tystate, i);
        SteadyMarks(g, a0, a, lalr.View(), ty, lalr.tystate, i);
        OverwritesStays(g, a, lalr.View());
        BareMarks(g, a, lalr.View(), w, p, ty, lalr.tystate, i);
      }
    }

    /** Close state i: the loop over its working set is about to begin. */
    method CloseState(i: nat) returns (ok: bool, temp1: seq<int>, ghost w: seq<Wset>)
      requires Shape() && Known() && i < |lalr.kernels|
      modifies work, work.wsets
      ensures ok ==> Shape() && work.Shape() && work.cwp == |w|
      ensures ok ==> (i == 0 ==> Begun(lalr.View(), w, 0))
      ensures ok ==> LooksOf(g, lalr.kernels[i], w) && JustLooks(g, lalr.kernels[i], w)
                     && BareBehind(g, w, |lalr.kernels[i]|)
      ensures ok ==> ClosureOf(g, lalr.View(), i, lalr.kernels[i], w)
                     && Moving(g, lalr.View(), i, w, work.View(), 0, {}, temp1)
    {
      temp1 := seq(g.nnonter + 1, _ => 0);
      GoodStateAt(g, lalr.View(), i);
      ok := work.Closure(g, pempty, first, lalr.kernels[i], false);
      w := [];
      if ok {
        w := work.View();
        StartMoving(g, lalr.View(), i, lalr.kernels[i], w, temp1);
        KernelIsNotBare(g, lalr.View(), i, w);
        ClosedIsJust(g, lalr.View(), i, w);
      }
    }

    /** Do all the gotos of the closed state i. */
    method DoGotos(i: nat, temp0: seq<int>, ghost k0: seq<KItem>, ghost w: seq<Wset>)
      returns (ok: bool, temp1: seq<int>)
      requires Shape() && work.Shape() && work.cwp == |w|
      requires ClosureOf(g, lalr.View(), i, k0, w) && Moving(g, lalr.View(), i, w, work.View(), 0, {}, temp0)
      requires lalr.tystate[i] == DONE && Begun(lalr.View(), w, 0)
      requires lalr.kernels[i] == k0 && LooksOf(g, k0, w) && JustLooks(g, k0, w) && BareBehind(g, w, |k0|)
               && (overwritten ==> Overwrites(g, lalr.View()))
      modifies this`overwritten, lalr, work.wsets
      ensures ok ==>
                overwritten
                || (Steady(old(lalr.View()), lalr.View(), lalr.tystate) && LooksDone(g, lalr.View(), lalr.tystate, i))
      ensures (old(overwritten) ==> overwritten) && (ok ==> overwritten ==> Overwrites(g, lalr.View()))
      ensures ok ==> Shape() && AutoExtends(old(lalr.View()), lalr.View())
      ensures ok ==> StateDone(g, old(lalr.View()), lalr.View(), old(lalr.tystate), lalr.tystate, i)
      ensures ok ==> lalr.tystate[i] == MUSTDO || BareMarked(g, lalr.View(), lalr.tystate, i)
      ensures ok ==> Recorded(g, lalr.View(), i, temp1) && Expanded(g, lalr.View(), i)
      ensures ok ==> forall n | 1 <= n <= g.nnonter && Goto(g, KSet(lalr.View(), i), N(n)) != {} :: temp1[n] != 0
    {
      hide Overwrites, Chained, Leads, LookRoom, EnteredOn, SameItems, MovedOn, LooksDone, GoodState, LooksOf,
        Recorded, JustLooks,
        AllJust, BareMarked;
      ghost var a0, ty0 := lalr.View(), lalr.tystate;
      StaysSame(g, a0, ty0);
      ghost var moved := {};
      temp1 := temp0;
      for p := 0 to work.cwp
        invariant Shape() && work.Shape() && ClosureOf(g, lalr.View(), i, k0, w) && work.cwp == |w|
        invariant AutoExtends(a0, lalr.View()) && StateDone(g, a0, lalr.View(), ty0, lalr.tystate, i)
        invariant Moving(g, lalr.View(), i, w, work.View(), p, moved, temp1)
        invariant if p == 0 then Begun(lalr.View(), w, 0) && moved == {} else |lalr.kernels| > 1
        invariant HandedAll(g, lalr.View(), i, w, moved) && BareSeen(g, w, p, lalr.tystate, i)
                  && BareBehind(g, w, |lalr.kernels[i]|)
        invariant (overwritten || Steady(a0, lalr.View(), lalr.tystate)) && (old(overwritten) ==> overwritten)
        invariant SelfMarked(g, lalr.View(), lalr.tystate, i) && (overwritten ==> Overwrites(g, lalr.View()))
      {
        ok, temp1, moved := VisitItem(i, p, temp1, a0, ty0, k0, w, moved);
        if !ok {
          return;
        }
      }
      ok := true;
      MovedAll(g, lalr.View(), i, k0, w, work.View(), moved, temp1);
      BareFinished(g, lalr.View(), lalr.tystate, i, k0, w);
      if !overwritten {
        LooksFinished(g, a0, lalr.View(), lalr.tystate, i, k0, w, work.View(), moved, temp1);
      }
    }

    /** One turn of the generation loop: state i is closed, moved, and its nonterminal gotos are packed. */
    method DoState(i: nat) returns (ok: bool)
      requires Shape() && Known() && i < |lalr.kernels| && (overwritten ==> Overwrites(g, lalr.View()))
      modifies this`indgo, this`overwritten, lalr, work, work.wsets, overlay.amem
      ensures ok ==>
                overwritten
                || (Steady(old(lalr.View()), lalr.View(), lalr.tystate) && LooksDone(g, lalr.View(), lalr.tystate, i))
      ensures (old(overwritten) ==> overwritten) && (ok ==> overwritten ==> Overwrites(g, lalr.View()))
      ensures ok ==> Shape() && AutoExtends(old(lalr.View()), lalr.View())
      ensures ok ==> StateDone(g, old(lalr.View()), lalr.View(), old(lalr.tystate), lalr.tystate, i)
      ensures ok ==> lalr.tystate[i] == MUSTDO || BareMarked(g, lalr.View(), lalr.tystate, i)
      ensures ok ==> Expanded(g, lalr.View(), i) && Stored(g, lalr.View(), overlay.amem[..], indgo[i], i)
      ensures ok ==> Keeps(old(overlay.amem[..]), overlay.amem[..]) && indgo == old(indgo)[i := indgo[i]]
    {
      hide Moving, ClosureOf, Stored, Expanded, GoodState, EnteredOn, SameItems, Leads, Chained, Goto, AutoExtends,
        Keeps, KSet,
        JustLooks, AllJust, BareMarked;
      var temp1, off;
      ghost var ty0, w := lalr.tystate, [];
      lalr.tystate := lalr.tystate[i := DONE];
      ok, temp1, w := CloseState(i);
      if !ok {
        return;
      }
      ok, temp1 := DoGotos(i, temp1, lalr.kernels[i], w);
      if !ok {
        return;
      }
      ok, off := overlay.Apack(temp1[1..]);
      indgo := indgo[i := off - 1];
      if ok {
        PackedIsStored(g, lalr.View(), i, temp1, overlay.amem[..], off);
      }
    }

    /** stagen's loop: take every state that must be done until there is none. */
    method Generate() returns (ok: bool)
      requires Shape() && Known()
      requires Worked(g, lalr.View(), lalr.tystate, overlay.amem[..], indgo)
      requires (overwritten || AllLooksDone(g, lalr.View(), lalr.tystate))
               && (overwritten ==> Overwrites(g, lalr.View()))
      modifies this`indgo, this`overwritten, lalr, work, work.wsets, overlay.amem
      ensures ok ==> Shape() && Known() && AllWorked(g, lalr.View(), overlay.amem[..], indgo)
      ensures ok ==> (overwritten || AllLooksDone(g, lalr.View(), lalr.tystate))
                     && (overwritten ==> Overwrites(g, lalr.View()))
      ensures ok ==> StatesMarked(g, lalr.View(), lalr.tystate)
    {
      hide AllLooksDone, Overwrites, Expanded, Stored, Chained, Leads, GoodState, EnteredOn, SameItems, Reachable,
        FirstsKnown,
        AllJust, BareMarked;
      var more := true;
      while more
        invariant Shape() && Known()
        invariant Worked(g, lalr.View(), lalr.tystate, overlay.amem[..], indgo)
        invariant (overwritten || AllLooksDone(g, lalr.View(), lalr.tystate))
                  && (overwritten ==> Overwrites(g, lalr.View()))
        invariant !more ==> forall j | 0 <= j < |lalr.kernels| :: lalr.tystate[j] != MUSTDO
        decreases NSTATES - |lalr.kernels|, LookRoom(g, lalr.kernels), MustSet(lalr.tystate), more
      {
        ok, more := GeneratePass();
        if !ok {
          return;
        }
      }
      ok := true;
    }

    method TakeState(i: nat, ghost a0: Auto, ghost ty0: seq<int>, ghost more: bool) returns (ok: bool)
      requires Shape() && Known() && i < |lalr.kernels| && lalr.tystate[i] == MUSTDO
      requires Worked(g, lalr.View(), lalr.tystate, overlay.amem[..], indgo)
      requires if more then Advanced(g, a0, ty0, lalr.View(), lalr.tystate)
               else lalr.View() == a0 && lalr.tystate == ty0
      requires (overwritten || AllLooksDone(g, lalr.View(), lalr.tystate))
               && (overwritten ==> Overwrites(g, lalr.View()))
      modifies this`indgo, this`overwritten, lalr, work, work.wsets, overlay.amem
      ensures ok ==> (overwritten || AllLooksDone(g, lalr.View(), lalr.tystate))
                     && (overwritten ==> Overwrites(g, lalr.View()))
      ensures ok ==> Shape() && Worked(g, lalr.View(), lalr.tystate, overlay.amem[..], indgo)
                     && |lalr.kernels| >= old(|lalr.kernels|)
      ensures ok ==> Advanced(g, a0, ty0, lalr.View(), lalr.tystate)
    {
      hide Stored, Expanded, StateDone, Steady, LooksDone, AllLooksDone, Worked, Advanced, Chained, Leads, GoodState,
        EnteredOn, SameItems, Keeps,
        AllJust, BareMarked;
      ghost var a, ty, m, ind := lalr.View(), lalr.tystate, overlay.amem[..], indgo;
      ok := DoState(i);
      if ok {
        WorkedStep(g, a, ty, m, ind, lalr.View(), lalr.tystate, overlay.amem[..], indgo, i);
        AdvancedStep(g, a0, ty0, a, ty, lalr.View(), lalr.tystate, i, more);
        if !overwritten {
          LooksDoneStep(g, a, ty, lalr.View(), lalr.tystate, i);
        }
      }
    }

    /** One pass over the states, which grow under way. */
    method GeneratePass() returns (ok: bool, more: bool)
      requires Shape() && Known()
      requires Worked(g, lalr.View(), lalr.tystate, overlay.amem[..], indgo)
      requires (overwritten || AllLooksDone(g, lalr.View(), lalr.tystate))
               && (overwritten ==> Overwrites(g, lalr.View()))
      modifies this`indgo, this`overwritten, lalr, work, work.wsets, overlay.amem
      ensures ok ==> (overwritten || AllLooksDone(g, lalr.View(), lalr.tystate))
                     && (overwritten ==> Overwrites(g, lalr.View()))
      ensures ok ==> Shape() && Known() && Worked(g, lalr.View(), lalr.tystate, overlay.amem[..], indgo)
      ensures ok && !more ==> forall j | 0 <= j < |lalr.kernels| :: lalr.tystate[j] != MUSTDO
      ensures ok && more ==> Advanced(g, old(lalr.View()), old(lalr.tystate), lalr.View(), lalr.tystate)
      ensures ok && !more ==> lalr.kernels == old(lalr.kernels) && lalr.tystate == old(lalr.tystate)
    {
      hide Expanded, Stored, GoodState, EnteredOn, SameItems, Chained, Leads, AllJust, BareMarked;
      ghost var a0, ty0 := lalr.View(), lalr.tystate;
      more := false;
      var i := 0;
      while i < |lalr.kernels|
        invariant Shape() && Known() && i <= |lalr.kernels|
        invariant (overwritten || AllLooksDone(g, lalr.View(), lalr.tystate))
                  && (overwritten ==> Overwrites(g, lalr.View()))
        invariant Worked(g, lalr.View(), lalr.tystate, overlay.amem[..], indgo)
        invariant if more then Advanced(g, a0, ty0, lalr.View(), lalr.tystate)
                  else lalr.View() == a0 && lalr.tystate == ty0
        invariant !more ==> forall j | 0 <= j < i :: lalr.tystate[j] != MUSTDO
        decreases NSTATES - i
      {
        if lalr.tystate[i] == MUSTDO {
          ok := TakeState(i, a0, ty0, more);
          if !ok {
            return;
          }
          more := true;
        }
        i := i + 1;
      }
      ok := true;
    }
  }

  /** Every state is still to be done, or all its transitions are recorded and packed. */
  ghost predicate Worked(g: Grammar, a: Auto, ty: seq<int>, m: seq<int>, ind: seq<int>) {
    && |ty| == |ind| == NSTATES && |a.kernels| == |a.acc| <= NSTATES
    && forall j | 0 <= j < |a.kernels| :: ty[j] == MUSTDO
                                          || (Expanded(g, a, j) && Stored(g, a, m, ind[j], j)
                                              && BareMarked(g, a, ty, j))
  }

  /** No state is to be done, and those with bare items are marked. */
  ghost predicate StatesMarked(g: Grammar, a: Auto, ty: seq<int>) {
    |a.kernels| <= |ty| && forall j | 0 <= j < |a.kernels| :: ty[j] != MUSTDO && BareMarked(g, a, ty, j)
  }

  ghost predicate AllWorked(g: Grammar, a: Auto, m: seq<int>, ind: seq<int>) {
    && |ind| == NSTATES && |a.kernels| <= NSTATES
    && forall j | 0 <= j < |a.kernels| :: Expanded(g, a, j) && Stored(g, a, m, ind[j], j)
  }

  lemma WorkedStep(g: Grammar, a: Auto, ty: seq<int>, m: seq<int>, ind: seq<int>, b: Auto, ty': seq<int>, m': seq<int>,
                   ind': seq<int>, i: int)
    requires Worked(g, a, ty, m, ind) && AutoExtends(a, b) && |b.acc| == |b.kernels| && StateDone(g, a, b, ty, ty', i)
    requires ty'[i] == MUSTDO || BareMarked(g, b, ty', i)
    requires Expanded(g, b, i) && |ind'| == NSTATES && Stored(g, b, m', ind'[i], i) && Keeps(m, m')
             && ind' == ind[i := ind'[i]]
    ensures Worked(g, b, ty', m', ind')
  {
    forall j | 0 <= j < |b.kernels| && ty'[j] != MUSTDO
      ensures Expanded(g, b, j) && Stored(g, b, m', ind'[j], j) && BareMarked(g, b, ty', j)
    {
      if j != i {
        ExpandedStays(g, a, b, j);
        StoredStays(g, a, b, m, m', ind[j], j);
        KSetStays(a, b, j);
      }
    }
  }

  ghost function MustSet(ty: seq<int>): set<nat> {
    set j | j in UpTo(NSTATES) && j < |ty| && ty[j] == MUSTDO
  }

  /** Measured by states, lookaheads and marks, something was used up. */
  ghost predicate Advanced(g: Grammar, a: Auto, ty: seq<int>, b: Auto, ty': seq<int>) {
    && |a.kernels| <= |b.kernels| <= NSTATES && AutoExtends(a, b)
    && (|a.kernels| < |b.kernels| || LookRoom(g, b.kernels) < LookRoom(g, a.kernels)
        || (LookRoom(g, b.kernels) == LookRoom(g, a.kernels) && MustSet(ty') < MustSet(ty)))
  }

  lemma AdvancedStep(g: Grammar, a0: Auto, ty0: seq<int>, a: Auto, ty: seq<int>, b: Auto, ty': seq<int>,
                     i: int, more: bool)
    requires AutoExtends(a, b) && StateDone(g, a, b, ty, ty', i) && ty[i] == MUSTDO
    requires if more then Advanced(g, a0, ty0, a, ty) else a == a0 && ty0 == ty
    ensures Advanced(g, a0, ty0, b, ty')
  {
    RoomShrinks(g, a, b);
    if more {
      RoomShrinks(g, a0, a);
      ExtendsTrans(a0, a, b);
    }
    if |a.kernels| == |b.kernels| && LookRoom(g, b.kernels) == LookRoom(g, a.kernels) {
      assert i in MustSet(ty) && i !in MustSet(ty');
      assert MustSet(ty') <= MustSet(ty);
    }
  }

  // ---- What generation has found ------------------------------------------------------------------------

  /** The recorded kernels are exactly the reachable ones. */
  lemma KernelsAreReachable(g: Grammar, a: Auto, m: seq<int>, ind: seq<int>, k: set<Item>)
    requires GoodAuto(g, a) && AllWorked(g, a, m, ind)
    ensures Reachable(g, k) <==> exists j :: 0 <= j < |a.kernels| && KSet(a, j) == k
  {
    if j :| 0 <= j < |a.kernels| && KSet(a, j) == k {
      GoodStateAt(g, a, j);
    }
    if Reachable(g, k) {
      var f := iset j | 0 <= j < |a.kernels| :: KSet(a, j);
      assert GotoClosed(g, f) by {
        forall c, s | c in f && s != T(1) && Goto(g, c, s) != {} ensures Goto(g, c, s) in f {
          var j :| 0 <= j < |a.kernels| && KSet(a, j) == c;
          assert Expanded(g, a, j);
          var i :| GoesTo(g, a, j, s, i);
          assert KSet(a, i) in f;
        }
      }
      assert KSet(a, 0) == {START} by {
        assert a.kernels[0][0].item in KSet(a, 0);
      }
      assert {START} in f;
    }
  }

  /** No kernel is recorded twice. */
  lemma KernelsAreDistinct(g: Grammar, a: Auto, i: nat, j: nat)
    requires GoodAuto(g, a) && i < j < |a.kernels|
    ensures KSet(a, i) != KSet(a, j)
  {
    GoodStateAt(g, a, i);
    GoodStateAt(g, a, j);
    assert !SameItems(a.kernels[i], a.kernels[j]);
    SameItemsSameSet(a.kernels[i], a.kernels[j]);
  }

  lemma StartOnly(g: Grammar, a: Auto)
    requires GoodAuto(g, a)
    ensures KSet(a, 0) == {START}
  {
    assert a.kernels[0][0].item in KSet(a, 0);
  }

  /** Where the state goes is one state. */
  lemma OneGoto(g: Grammar, a: Auto, i: int, s: Sym, j: int, j': int)
    requires GoodAuto(g, a) && GoesTo(g, a, i, s, j) && GoesTo(g, a, i, s, j')
    ensures j == j'
  {
    if j < j' {
      KernelsAreDistinct(g, a, j, j');
    } else if j' < j {
      KernelsAreDistinct(g, a, j', j);
    }
  }

  lemma StartMoving(g: Grammar, a: Auto, i: nat, k0: seq<KItem>, w: seq<Wset>, temp1: seq<int>)
    requires g.Valid() && GoodAuto(g, a) && i < |a.kernels| && a.kernels[i] == k0 && |w| < WSETSIZE
    requires Justified(g, k0, w, false) && IsClosure(g, k0, w, false) && AllUnflagged(w)
    requires temp1 == seq(g.nnonter + 1, _ => 0)
    ensures ClosureOf(g, a, i, k0, w) && Moving(g, a, i, w, w, 0, {}, temp1)
  {
  }

  /** The marks after state i was taken: it is to be done again only if some state grew or was added. */
  ghost predicate StateDone(g: Grammar, a: Auto, b: Auto, ty: seq<int>, ty': seq<int>, i: int) {
    && |ty| == |ty'| == NSTATES && |a.kernels| <= |b.kernels| <= NSTATES && 0 <= i < |a.kernels|
    && (forall j | 0 <= j < NSTATES && j != i :: ty'[j] == ty[j] || ty'[j] == MUSTDO)
    && (forall j | |a.kernels| <= j < |b.kernels| :: ty'[j] == MUSTDO)
    && (|a.kernels| == |b.kernels| && LookRoom(g, a.kernels) == LookRoom(g, b.kernels) ==>
          ty'[i] != MUSTDO && forall j | 0 <= j < NSTATES && j != i :: ty'[j] == ty[j])
  }

  lemma StateDoneMarks(g: Grammar, a0: Auto, a: Auto, b: Auto, ty0: seq<int>, ty: seq<int>, ty': seq<int>, i: int)
    requires AutoExtends(a0, a) && AutoExtends(a, b) && StateDone(g, a0, a, ty0, ty, i) && Marks(g, a, b, ty, ty')
    ensures AutoExtends(a0, b) && StateDone(g, a0, b, ty0, ty', i)
  {
    ExtendsTrans(a0, a, b);
    RoomShrinks(g, a0, a);
    RoomShrinks(g, a, b);
  }

  /** State i has been marked under way only by a goto to itself. */
  ghost predicate SelfMarked(g: Grammar, a: Auto, ty: seq<int>, i: int) {
    0 <= i < |ty| && (ty[i] == MUSTDO ==> exists s :: GoesTo(g, a, i, s, i))
  }

  lemma SelfMarkedStays(g: Grammar, a: Auto, b: Auto, ty: seq<int>, ty': seq<int>, i: int, s: Sym, j: int)
    requires AutoExtends(a, b) && |b.acc| == |b.kernels| && GoesTo(g, b, i, s, j) && 0 <= i < |a.kernels|
    requires 0 <= j < |ty| && |ty'| == |ty| && ty' == ty[j := ty'[j]]
    ensures SelfMarked(g, a, ty, i) ==> SelfMarked(g, b, ty', i)
  {
    hide AutoExtends;
    if SelfMarked(g, a, ty, i) && j != i && ty[i] == MUSTDO {
      var c :| GoesTo(g, a, i, c, i);
      GoesToStays(g, a, b, i, c, i);
    }
  }

  /** Nothing moves on from here: the production is empty, or begins with $end. */
  predicate Ends(g: Grammar, r: nat) {
    r < |g.prods| && (g.prods[r].rhs == [] || g.prods[r].rhs[0] == T(1))
  }

  /** Some state goes to itself and has in its closure a production from which nothing moves on. */
  ghost predicate Overwrites(g: Grammar, a: Auto) {
    exists i, s, r: nat :: GoesTo(g, a, i, s, i) && Ends(g, r) && InClosure(g, KSet(a, i), Item(r, 0))
  }

  lemma OverwritesStays(g: Grammar, a: Auto, b: Auto)
    requires AutoExtends(a, b) && GoodAuto(g, b)
    ensures Overwrites(g, a) ==> Overwrites(g, b)
  {
    hide AutoExtends, InClosure;
    if Overwrites(g, a) {
      var i, s, r: nat :| GoesTo(g, a, i, s, i) && Ends(g, r) && InClosure(g, KSet(a, i), Item(r, 0));
      GoesToStays(g, a, b, i, s, i);
      KSetStays(a, b, i);
    }
  }

  /** An item behind the kernel that does not move is of such a production. */
  lemma EndsBehind(g: Grammar, a: Auto, i: nat, k0: seq<KItem>, w: seq<Wset>, p: nat, ty: seq<int>)
    requires ClosureOf(g, a, i, k0, w) && p < |w| && w[p].item.dot == 0
    requires |g.prods[w[p].item.prod].rhs| == 0 || g.prods[w[p].item.prod].rhs[0] == T(1)
    ensures SelfMarked(g, a, ty, i) && ty[i] == MUSTDO ==> Overwrites(g, a)
  {
    hide GoodAuto, Distinct, GoesTo;
    assert InClosure(g, KSet(a, i), w[p].item) && Ends(g, w[p].item.prod) && w[p].item == Item(w[p].item.prod, 0);
  }

  predicate IsBare(g: Grammar, it: Item) {
    it.prod < |g.prods| && g.prods[it.prod].rhs == []
  }

  /** The first n items are of productions with something on their right sides; the others have been added with the
      dot in front. */
  ghost predicate BareBehind(g: Grammar, w: seq<Wset>, n: nat) {
    (forall v | 0 <= v < n && v < |w| :: !IsBare(g, w[v].item)) && forall v | n <= v < |w| :: w[v].item.dot == 0
  }

  /** Once the loop has passed a bare item, state i is marked. */
  ghost predicate BareSeen(g: Grammar, w: seq<Wset>, p: nat, ty: seq<int>, i: int) {
    p <= |w| && 0 <= i < |ty| && forall v | 0 <= v < p && IsBare(g, w[v].item) ::
      ty[i] == MUSTDO || ty[i] == MUSTLOOKAHEAD
  }

  lemma MovedIsNotBare(g: Grammar, a: Auto, i: int, w: seq<Wset>, fl: seq<Wset>, p: nat, moved: set<Sym>,
                       temp1: seq<int>)
    requires Moving(g, a, i, w, fl, p, moved, temp1) && p < |w| && fl[p].flag == 1
    ensures !IsBare(g, w[p].item)
  {
  }

  lemma BareMarks(g: Grammar, a: Auto, b: Auto, w: seq<Wset>, p: nat, ty: seq<int>, ty': seq<int>, i: int)
    requires BareSeen(g, w, p, ty, i) && Marks(g, a, b, ty, ty') && AutoExtends(a, b) && 0 <= i < |a.kernels|
    requires p < |w| && !IsBare(g, w[p].item) && BareBehind(g, w, |a.kernels[i]|)
    ensures BareSeen(g, w, p + 1, ty', i) && BareBehind(g, w, |b.kernels[i]|)
  {
    assert SameItems(a.kernels[i], b.kernels[i]);
  }

  lemma SteadyMarks(g: Grammar, a0: Auto, a: Auto, b: Auto, ty: seq<int>, ty': seq<int>, i: int)
    requires Marks(g, a, b, ty, ty')
    ensures Steady(a0, a, ty) ==> Steady(a0, b, ty')
  {
    hide LookRoom;
  }

  lemma KernelIsNotBare(g: Grammar, a: Auto, i: nat, w: seq<Wset>)
    requires g.Valid() && GoodAuto(g, a) && i < |a.kernels| && Justified(g, a.kernels[i], w, false)
             && KSet(a, i) == ItemsOf(a.kernels[i])
    ensures BareBehind(g, w, |a.kernels[i]|)
  {
    forall v | 0 <= v < |a.kernels[i]| ensures !IsBare(g, w[v].item) {
      if i > 0 {
        assert EnteredOn(g, a.kernels[i], a.acc[i]);
      }
    }
  }

  /** All items have been moved: a bare item has marked the state. */
  lemma BareFinished(g: Grammar, a: Auto, ty: seq<int>, i: nat, k0: seq<KItem>, w: seq<Wset>)
    requires ClosureOf(g, a, i, k0, w) && BareSeen(g, w, |w|, ty, i) && |a.kernels| <= |ty|
    ensures ty[i] == MUSTDO || BareMarked(g, a, ty, i)
  {
    hide GoodAuto;
    if r: nat :| ty[i] != MUSTDO && r < |g.prods| && g.prods[r].rhs == [] && InClosure(g, KSet(a, i), Item(r, 0)) {
      var v :| 0 <= v < |w| && w[v].item == Item(r, 0);
      assert IsBare(g, w[v].item);
    }
  }

  /** All items have been moved: the lookaheads of state i are passed on, if they have not grown meanwhile. */
  lemma LooksFinished(g: Grammar, a0: Auto, a: Auto, ty: seq<int>, i: nat, k0: seq<KItem>, w: seq<Wset>, fl: seq<Wset>,
                      moved: set<Sym>, temp1: seq<int>)
    requires Moving(g, a, i, w, fl, |w|, moved, temp1) && HandedAll(g, a, i, w, moved) && ClosureOf(g, a, i, k0, w)
             && LooksOf(g, k0, w)
    requires Steady(a0, a, ty) && i < |a0.kernels| && a0.kernels[i] == k0
    ensures LooksDone(g, a, ty, i)
  {
    hide Handed, GoodAuto;
    if ty[i] != MUSTDO {
      forall it, s, t | Looks(g, a, i, it, t) && Moves(g, it, s) && s != T(1) ensures Handed(g, a, i, it, s, t) {
        var v :| 0 <= v < |w| && w[v].item == it;
        assert t in w[v].ws;
      }
    }
  }

  lemma LooksDoneStep(g: Grammar, a: Auto, ty: seq<int>, b: Auto, ty': seq<int>, i: int)
    requires AllLooksDone(g, a, ty) && AutoExtends(a, b) && |b.acc| == |b.kernels| && StateDone(g, a, b, ty, ty', i)
    requires Steady(a, b, ty') && LooksDone(g, b, ty', i)
    ensures AllLooksDone(g, b, ty')
  {
    hide PassedOnAll, AutoExtends, LookRoom;
    forall j {:trigger LooksDone(g, b, ty', j)} | 0 <= j < |b.kernels| ensures LooksDone(g, b, ty', j) {
      if j < |a.kernels| && j != i && ty'[j] != MUSTDO {
        assert LooksDone(g, a, ty, j);
        PassedOnStays(g, a, b, j);
        assert KSet(b, j) == KSet(a, j);
      }
    }
  }

  /** If state 0 is the only one, p is its first item, the kernel itself. */
  ghost predicate Begun(a: Auto, w: seq<Wset>, p: nat) {
    |a.kernels| > 1 || (p == 0 && w != [] && w[0].item == START)
  }

  /** w is the closed working set of state i. */
  ghost predicate ClosureOf(g: Grammar, a: Auto, i: nat, k0: seq<KItem>, w: seq<Wset>) {
    && g.Valid() && GoodAuto(g, a) && i < |a.kernels| && KSet(a, i) == ItemsOf(k0) && |w| < WSETSIZE && Distinct(w)
    && (forall v | 0 <= v < |w| :: ItemOk(g, w[v].item))
    && (forall it :: InClosure(g, ItemsOf(k0), it) <==> exists v :: 0 <= v < |w| && w[v].item == it)
    && (forall v, t | 0 <= v < |w| && t in w[v].ws :: t <= g.ntokens)
  }

  lemma ClosureOfStays(g: Grammar, a: Auto, b: Auto, i: nat, k0: seq<KItem>, w: seq<Wset>)
    requires ClosureOf(g, a, i, k0, w) && AutoExtends(a, b) && GoodAuto(g, b)
    ensures ClosureOf(g, b, i, k0, w)
  {
    KSetStays(a, b, i);
  }

  /** Flags do not matter to what is gathered. */
  lemma {:induction false} GatherSame(g: Grammar, w: seq<Wset>, fl: seq<Wset>, from: nat, to: nat, s: Sym)
    requires |w| == |fl| && from <= to <= |w|
    requires forall v | 0 <= v < |w| :: fl[v].item == w[v].item && fl[v].ws == w[v].ws
    ensures Gather(g, fl, from, to, s) == Gather(g, w, from, to, s)
  {
    if from < to {
      GatherSame(g, w, fl, from, to - 1, s);
    }
  }

  lemma ClosureGathers(g: Grammar, a: Auto, i: nat, k0: seq<KItem>, w: seq<Wset>, p: nat, s: Sym)
    requires ClosureOf(g, a, i, k0, w) && p < |w| && Moves(g, w[p].item, s) && s != T(1)
    requires forall v | 0 <= v < p :: !Moves(g, w[v].item, s)
    ensures FromGotoOn(g, Gather(g, w, p, |w|, s), s) && ItemsOf(Gather(g, w, p, |w|, s)) == Goto(g, KSet(a, i), s)
  {
    GoodStateAt(g, a, i);
    GatheredIsKernel(g, k0, w, p, s);
    GatheredIsGoto(g, k0, w, p, s);
  }

  lemma GatheredAreJust(g: Grammar, a: Auto, i: nat, k0: seq<KItem>, w: seq<Wset>, p: nat, s: Sym)
    requires ClosureOf(g, a, i, k0, w) && JustLooks(g, k0, w) && p < |w| && s != T(1)
    requires ItemsOf(Gather(g, w, p, |w|, s)) == Goto(g, KSet(a, i), s)
    ensures IsJust(g, Gather(g, w, p, |w|, s))
  {
    hide JustLooks, IsJust, Gather, GoodAuto;
    GoodStateAt(g, a, i);
    GatheredIsJust(g, k0, w, p, s);
  }

  /** The closure of a state has just lookaheads. */
  lemma ClosedIsJust(g: Grammar, a: Auto, i: nat, w: seq<Wset>)
    requires GoodAuto(g, a) && AllJust(g, a.kernels) && i < |a.kernels| && Justified(g, a.kernels[i], w, false)
    ensures JustLooks(g, a.kernels[i], w)
  {
    hide GoodAuto, IsJust, IsLalr, InLook;
    GoodStateAt(g, a, i);
    forall v, t | 0 <= v < |w| && t in w[v].ws ensures IsLalr(g, ItemsOf(a.kernels[i]), w[v].item, t) {
      LookIsLalr(g, a.kernels[i], w[v].item, t);
    }
  }

  ghost function Blank(w: seq<Wset>): (r: seq<Wset>)
    ensures |r| == |w| && forall v | 0 <= v < |w| :: r[v].item == w[v].item && r[v].ws == {}
  {
    seq(|w|, v requires 0 <= v < |w| => w[v].(ws := {}))
  }
}
