/**
 The tables written from the finished states: the shifts and gotos of each state,
 found again with lookahead computation off, and the accessing symbols (yychk).
 */
module YaccOutput {
  import opened YaccPack
  import opened YaccGrammar
  import opened YaccFirst
  import opened YaccClosure
  import opened YaccKernels
  import opened YaccStates
  import opened YaccStagen

  // ---- yychk ------------------------------------------------------------------------------------

  function Code(s: Sym): int {
    match s case T(t) => t as int case N(n) => -(n as int)
  }

  ghost predicate Symbols(g: Grammar, acc: seq<Sym>) {
    forall j | 1 <= j < |acc| :: g.InRange(acc[j])
  }

  /** Every state on the chain of s, and no other, gets the code of s. */
  method WalkChain(mstates: seq<int>, head: int, s: Sym, ghost acc: seq<Sym>, temp0: seq<int>) returns (temp1: seq<int>)
    requires 0 < |acc| == |temp0| <= |mstates| && head == LastOn(acc, s, |acc|)
    requires forall j {:trigger mstates[j]} | 1 <= j < |acc| :: mstates[j] == LastOn(acc, acc[j], j)
    ensures |temp1| == |temp0| && temp1[0] == temp0[0]
    ensures forall j | 1 <= j < |acc| :: temp1[j] == if acc[j] == s then Code(s) else temp0[j]
  {
    temp1 := temp0;
    var j := head;
    ghost var m: nat := |acc|;
    while j != 0
      invariant m <= |acc| && j == LastOn(acc, s, m) && (j != 0 ==> 0 < j < m)
      invariant |temp1| == |temp0| && temp1[0] == temp0[0]
      invariant forall i | 1 <= i < |acc| :: temp1[i] == if i >= m && acc[i] == s then Code(s) else temp0[i]
      decreases m
    {
      temp1 := temp1[j := Code(s)];
      m := j;
      j := mstates[j];
    }
  }

  /** others: the accessing symbol of every state, -1000 for state 0, which is on no chain. */
  method AccessingSymbols(g: Grammar, tstates: seq<int>, ntstates: seq<int>, mstates: seq<int>, ghost acc: seq<Sym>,
                          nstate: nat)
    returns (chk: seq<int>)
    requires Chained(g, acc, tstates, ntstates, mstates) && |acc| == nstate > 0 && Symbols(g, acc)
    ensures |chk| == nstate && chk[0] == YYFLAG1 && forall j | 1 <= j < nstate :: chk[j] == Code(acc[j])
  {
    chk := seq(nstate, _ => YYFLAG1);
    for i := 1 to g.ntokens + 1
      invariant |chk| == nstate && chk[0] == YYFLAG1
      invariant forall j | 1 <= j < nstate && acc[j].T? && acc[j].t < i :: chk[j] == Code(acc[j])
    {
      chk := WalkChain(mstates, tstates[i], T(i), acc, chk);
    }
    for i := 0 to g.nnonter + 1
      invariant |chk| == nstate && chk[0] == YYFLAG1
      invariant forall j | 1 <= j < nstate && (acc[j].T? || acc[j].n < i) :: chk[j] == Code(acc[j])
    {
      chk := WalkChain(mstates, ntstates[i], N(i), acc, chk);
    }
  }

  // ---- The shifts and gotos of a state --------------------------------------------------------------

  /** The entries below limit of the output row: t for tokens, ntokens + n for nonterminals. */
  ghost predicate RowSound(g: Grammar, a: Auto, i: nat, temp1: seq<int>) {
    && |temp1| == g.ntokens + g.nnonter + 1
    && (forall t | 1 <= t <= g.ntokens && temp1[t] != 0 :: t > 1 && GoesTo(g, a, i, T(t), temp1[t]))
    && (forall n | 1 <= n <= g.nnonter && temp1[g.ntokens + n] != 0 :: GoesTo(g, a, i, N(n), temp1[g.ntokens + n]))
  }

  ghost predicate RowComplete(g: Grammar, a: Auto, i: nat, temp1: seq<int>)
    requires |temp1| == g.ntokens + g.nnonter + 1 && i < |a.kernels|
  {
    && (forall t | 2 <= t <= g.ntokens && Goto(g, KSet(a, i), T(t)) != {} :: temp1[t] != 0)
    && (forall n | 1 <= n <= g.nnonter && Goto(g, KSet(a, i), N(n)) != {} :: temp1[g.ntokens + n] != 0)
  }

  ghost predicate RowUpTo(g: Grammar, w: seq<Wset>, u: nat, temp1: seq<int>)
    requires u <= |w| && |temp1| == g.ntokens + g.nnonter + 1
  {
    forall v, s | 0 <= v < u && Moves(g, w[v].item, s) && g.InRange(s) && s != T(1) ::
      match s case T(t) => temp1[t] != 0 case N(n) => temp1[g.ntokens + n] != 0
  }

  /** The items of the working set from u on that stand before s, moved over it, with no lookaheads. */
  method PutItems(g: Grammar, work: WorkSet, u: nat, s: Sym) returns (k: seq<KItem>)
    requires work.Shape() && u <= work.cwp
    ensures k == Gather(g, Blank(work.View()), u, work.cwp, s)
  {
    ghost var w := Blank(work.View());
    k := [];
    for v := u to work.cwp
      invariant k == Gather(g, w, u, v, s)
    {
      if Moves(g, work.wsets[v].item, s) {
        k := k + [KItem(Advance(work.wsets[v].item), {})];
      }
    }
  }

  /** The state reached from state i on s, which item u is the first to stand before, looked up with nolook. */
  method LookUp(st: Stagen, i: nat, u: nat, s: Sym, ghost k0: seq<KItem>, ghost w: seq<Wset>) returns (j: nat)
    requires st.Shape() && st.work.Shape() && ClosureOf(st.g, st.lalr.View(), i, k0, w) && w == Blank(st.work.View())
    requires u < |w| && Moves(st.g, w[u].item, s) && s != T(1) && HasGoto(st.g, st.lalr.View(), i, s)
    requires forall v | 0 <= v < u :: !Moves(st.g, w[v].item, s)
    modifies st.lalr
    ensures unchanged(st.lalr) && GoesTo(st.g, st.lalr.View(), i, s, j)
  {
    ghost var a := st.lalr.View();
    var k := PutItems(st.g, st.work, u, s);
    ClosureGathers(st.g, a, i, k0, w, u, s);
    KernelIsThere(st.g, a, i, s, k);
    var ok;
    ok, j := st.lalr.State(k, s, true);
  }

  lemma MovesAreThere(g: Grammar, a: Auto, i: nat, k0: seq<KItem>, w: seq<Wset>, u: nat, s: Sym, m: seq<int>,
                      ind: seq<int>)
    requires ClosureOf(g, a, i, k0, w) && u < |w| && Moves(g, w[u].item, s) && s != T(1) && AllWorked(g, a, m, ind)
    ensures g.InRange(s) && HasGoto(g, a, i, s)
    ensures match s case T(_) => true
            case N(n) => 0 <= ind[i] + n < |m| && m[ind[i] + n] != 0 && GoesTo(g, a, i, s, m[ind[i] + n])
  {
    assert InClosure(g, KSet(a, i), w[u].item);
    InGoto(g, KSet(a, i), s, w[u].item);
    assert Expanded(g, a, i) && Stored(g, a, m, ind[i], i);
  }

  /** One item of the loop in output: a shift is looked up with nolook, a goto is read from the overlaid array. */
  method OutputItem(st: Stagen, i: nat, u: nat, temp0: seq<int>, ghost k0: seq<KItem>, ghost w: seq<Wset>)
    returns (temp1: seq<int>)
    requires st.Shape() && st.work.Shape() && AllWorked(st.g, st.lalr.View(), st.overlay.amem[..], st.indgo)
    requires ClosureOf(st.g, st.lalr.View(), i, k0, w) && w == Blank(st.work.View()) && u < |w|
    requires RowSound(st.g, st.lalr.View(), i, temp0) && RowUpTo(st.g, w, u, temp0)
    modifies st.lalr
    ensures unchanged(st.lalr)
    ensures RowSound(st.g, st.lalr.View(), i, temp1) && RowUpTo(st.g, w, u + 1, temp1)
  {
    hide ClosureOf, AllWorked, RowSound, RowUpTo, Chained, Leads, GoodState, EnteredOn, AllJust, InClosure, Goto, KSet,
      FirstsKnown, Reachable, SameItems, HasGoto, LastOn;
    var g := st.g;
    ghost var a := st.lalr.View();
    temp1 := temp0;
    var it := st.work.wsets[u].item;
    assert it == w[u].item;
    ItemInWset(g, a, i, k0, w, u);
    RowLength(g, a, i, temp0);
    if it.dot == |g.prods[it.prod].rhs| || g.prods[it.prod].rhs[it.dot] == T(1) {
      NoMove(g, w, u, temp0);
      return;
    }
    var s := g.prods[it.prod].rhs[it.dot];
    MovesAreThere(g, a, i, k0, w, u, s, st.overlay.amem[..], st.indgo);
    if temp1[Slot(g, s)] == 0 {
      FirstInRow(g, w, u, s, temp0);
      var j;
      match s {
        case T(_) => j := LookUp(st, i, u, s, k0, w);
        case N(n) => j := st.overlay.amem[st.indgo[i] + n];
      }
      temp1 := temp1[Slot(g, s) := j];
      SetInRow(g, a, i, temp0, temp1, s, j);
    }
    RowSteps(g, w, u, s, temp0, temp1);
  }

  lemma ItemInWset(g: Grammar, a: Auto, i: nat, k0: seq<KItem>, w: seq<Wset>, u: nat)
    requires ClosureOf(g, a, i, k0, w) && u < |w|
    ensures ItemOk(g, w[u].item) && i < |a.kernels|
  {
  }

  lemma RowLength(g: Grammar, a: Auto, i: nat, temp1: seq<int>)
    requires RowSound(g, a, i, temp1)
    ensures |temp1| == g.ntokens + g.nnonter + 1
  {
  }

  /** An item that does not move leaves the row as it is. */
  lemma NoMove(g: Grammar, w: seq<Wset>, u: nat, temp1: seq<int>)
    requires u < |w| && |temp1| == g.ntokens + g.nnonter + 1 && RowUpTo(g, w, u, temp1)
             && forall s | s != T(1) :: !Moves(g, w[u].item, s)
    ensures RowUpTo(g, w, u + 1, temp1)
  {
  }

  /** Where symbol s has its entry in the output row. */
  function Slot(g: Grammar, s: Sym): nat {
    match s case T(t) => t case N(n) => g.ntokens + n
  }

  lemma FirstInRow(g: Grammar, w: seq<Wset>, u: nat, s: Sym, temp1: seq<int>)
    requires u <= |w| && |temp1| == g.ntokens + g.nnonter + 1 && RowUpTo(g, w, u, temp1)
    requires g.InRange(s) && s != T(1) && temp1[Slot(g, s)] == 0
    ensures forall v | 0 <= v < u :: !Moves(g, w[v].item, s)
  {
  }

  lemma SetInRow(g: Grammar, a: Auto, i: nat, temp0: seq<int>, temp1: seq<int>, s: Sym, j: int)
    requires RowSound(g, a, i, temp0) && g.InRange(s) && s != T(1) && GoesTo(g, a, i, s, j)
    requires temp1 == temp0[Slot(g, s) := j]
    ensures RowSound(g, a, i, temp1) && temp1[Slot(g, s)] != 0
  {
  }

  lemma RowSteps(g: Grammar, w: seq<Wset>, u: nat, s: Sym, temp0: seq<int>, temp1: seq<int>)
    requires u < |w| && |temp0| == g.ntokens + g.nnonter + 1 && RowUpTo(g, w, u, temp0)
    requires Moves(g, w[u].item, s) && g.InRange(s)
    requires |temp1| == |temp0| && temp1[Slot(g, s)] != 0 && forall p | 0 <= p < |temp0| && temp0[p] != 0 ::
               temp1[p] != 0
    ensures RowUpTo(g, w, u + 1, temp1)
  {
  }

  lemma KernelIsThere(g: Grammar, a: Auto, i: nat, s: Sym, k: seq<KItem>)
    requires i < |a.kernels| && HasGoto(g, a, i, s) && ItemsOf(k) == Goto(g, KSet(a, i), s)
    ensures HasKernel(a.kernels, ItemsOf(k))
  {
    var j :| GoesTo(g, a, i, s, j);
    assert ItemsOf(a.kernels[j]) == ItemsOf(k);
  }

  /** The shifts and gotos of state i. The lookup of a shift never fails: the only way out is an overflow of
      the working set. */
  method OutputRow(st: Stagen, i: nat) returns (ok: bool, temp1: seq<int>)
    requires st.Shape() && st.Known() && i < |st.lalr.kernels|
    requires AllWorked(st.g, st.lalr.View(), st.overlay.amem[..], st.indgo)
    modifies st.lalr, st.work, st.work.wsets
    ensures unchanged(st.lalr) && st.Shape()
    ensures !ok ==> st.work.cwp + 1 >= WSETSIZE
    ensures ok ==> RowSound(st.g, st.lalr.View(), i, temp1) && RowComplete(st.g, st.lalr.View(), i, temp1)
    ensures ok ==> st.work.Shape() && (forall v | 0 <= v < st.work.cwp :: ItemOk(st.g, st.work.View()[v].item))
                   && IsClosure(st.g, st.lalr.kernels[i], st.work.View(), st.lalr.tystate[i] != MUSTLOOKAHEAD)
                   && Justified(st.g, st.lalr.kernels[i], st.work.View(), st.lalr.tystate[i] != MUSTLOOKAHEAD)
  {
    hide Goto, Chained, Leads, AllWorked, FirstsKnown, InClosure, GoodState;
    var g := st.g;
    var nolook := st.lalr.tystate[i] != MUSTLOOKAHEAD;
    temp1 := seq(g.ntokens + g.nnonter + 1, _ => 0);
    ghost var a, k0 := st.lalr.View(), st.lalr.kernels[i];
    GoodStateAt(g, a, i);
    ok := st.work.Closure(g, st.pempty, st.first, st.lalr.kernels[i], nolook);
    if !ok {
      return;
    }
    ghost var w, closed := Blank(st.work.View()), st.work.View();
    for u := 0 to st.work.cwp
      invariant st.Shape() && st.work.Shape() && st.work.View() == closed
                && AllWorked(g, a, st.overlay.amem[..], st.indgo)
      invariant st.lalr.View() == a && unchanged(st.lalr)
      invariant ClosureOf(g, a, i, k0, w) && w == Blank(st.work.View())
      invariant RowSound(g, a, i, temp1) && RowUpTo(g, w, u, temp1)
    {
      temp1 := OutputItem(st, i, u, temp1, k0, w);
    }
    RowsComplete(g, a, i, k0, w, temp1);
  }

  lemma RowsComplete(g: Grammar, a: Auto, i: nat, k0: seq<KItem>, w: seq<Wset>, temp1: seq<int>)
    requires ClosureOf(g, a, i, k0, w) && RowSound(g, a, i, temp1) && RowUpTo(g, w, |w|, temp1)
    ensures RowComplete(g, a, i, temp1)
  {
    forall s | s != T(1) && g.InRange(s) && Goto(g, KSet(a, i), s) != {}
      ensures match s case T(t) => temp1[t] != 0 case N(n) => temp1[g.ntokens + n] != 0
    {
      var e :| e in Goto(g, KSet(a, i), s);
      var o :| o in AllItems(g) && Moves(g, o, s) && InClosure(g, ItemsOf(k0), o) && e == Advance(o);
      var v :| 0 <= v < |w| && w[v].item == o;
    }
    forall t | 2 <= t <= g.ntokens && Goto(g, KSet(a, i), T(t)) != {} ensures temp1[t] != 0 {
      assert g.InRange(T(t));
    }
    forall n | 1 <= n <= g.nnonter && Goto(g, KSet(a, i), N(n)) != {} ensures temp1[g.ntokens + n] != 0 {
      assert g.InRange(N(n));
    }
  }
}
