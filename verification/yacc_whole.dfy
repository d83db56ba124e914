/**
 The whole of yacc's work on a grammar: from the productions and the precedences to the arrays of the parser.
 */
module YaccWhole {
  import opened YaccPack
  import opened YaccAction
  import opened YaccDriver
  import opened YaccGrammar
  import opened YaccFirst
  import opened YaccClosure
  import opened YaccConflicts
  import opened YaccKernels
  import opened YaccStates
  import opened YaccStagen
  import opened YaccOutput
  import opened YaccSound
  import opened YaccComplete
  import opened YaccLooks
  import opened YaccRecovery
  import opened YaccViable
  import opened YaccTables

  /** The row of state i before the reductions: its shifts, and acceptance of $end in state 1. */
  function Entered(i: nat, shifts: seq<int>): (row: seq<int>)
    requires |shifts| > 1
    ensures |row| == |shifts|
  {
    if i == 1 then shifts[1 := ACCEPTCODE] else shifts
  }

  /** The row of state i: the shifts of the automaton, and the reductions of the state's closure w, under its
      lookaheads, decided against them. */
  ghost predicate Resolves(g: Grammar, a: Auto, i: nat, row: seq<int>, prec: Prec, w: seq<Wset>, shifts: seq<int>) {
    && i < |a.kernels| && prec.Covers(g) && IsClosure(g, a.kernels[i], w, true) && Covered(g, a, i, w)
    && g.ntokens >= 1 && RowSound(g, a, i, shifts) && RowComplete(g, a, i, shifts) && |row| == g.ntokens + 1
    && forall k | 1 <= k <= g.ntokens :: row[k] == Decided(g, w, |w|, k, Entered(i, shifts)[k], prec)
  }

  lemma EnteredIs(g: Grammar, a: Auto, i: nat, shifts: seq<int>)
    requires g.ntokens >= 1 && RowSound(g, a, i, shifts)
    ensures |shifts| > g.ntokens && forall k | 1 <= k <= g.ntokens :: Entered(i, shifts)[k] >= 0
    ensures Entered(i, shifts)[1] == if i == 1 then ACCEPTCODE else 0
    ensures forall k | 2 <= k <= g.ntokens :: Entered(i, shifts)[k] == shifts[k]
  {
  }

  /** A row so resolved shifts only where the automaton goes, and reduces only what has been recognised. */
  lemma ResolvedIsGood(g: Grammar, a: Auto, i: nat, row: seq<int>, prec: Prec, w: seq<Wset>, shifts: seq<int>)
    requires Resolves(g, a, i, row, prec, w, shifts)
    ensures GoodRow(g, a, i, row)
  {
    hide Covered;
    EnteredIs(g, a, i, shifts);
    forall c | 1 <= c < |row| && IsShift(row[c]) ensures GoesTo(g, a, i, T(c), row[c]) {
      DecidedIs(g, w, |w|, c, Entered(i, shifts)[c], prec);
    }
    forall c | 1 <= c < |row| && row[c] < 0 ensures Recognised(g, a, i, -row[c]) {
      DecidedIs(g, w, |w|, c, Entered(i, shifts)[c], prec);
      var u :| 0 <= u < |w| && Asks(g, w[u], c) && w[u].item.prod == -row[c];
      assert InClosure(g, ItemsOf(a.kernels[i]), w[u].item);
      assert w[u].item == Item(w[u].item.prod, |g.prods[w[u].item.prod].rhs|);
    }
  }

  /** Only in state 1, and only at $end, does a row so resolved accept. */
  lemma ResolvedAccepts(g: Grammar, a: Auto, i: nat, row: seq<int>, prec: Prec, w: seq<Wset>, shifts: seq<int>, c: nat)
    requires Resolves(g, a, i, row, prec, w, shifts) && GoodAuto(g, a) && 1 <= c < |row| && row[c] == ACCEPTCODE
    ensures i == 1 && c == 1
  {
    hide IsClosure, RowComplete, Goto, Covered;
    EnteredIs(g, a, i, shifts);
    DecidedIs(g, w, |w|, c, Entered(i, shifts)[c], prec);
  }

  // ---- Lookaheads and conflicts ------------------------------------------------------------------------

  /** The complete items of w have exactly the lookaheads of state i. */
  ghost predicate Covered(g: Grammar, a: Auto, i: int, w: seq<Wset>) {
    && Distinct(w)
    && forall u, t: nat | 0 <= u < |w| && ItemOk(g, w[u].item) && w[u].item.dot == |g.prods[w[u].item.prod].rhs| ::
         t in w[u].ws <==> Looks(g, a, i, w[u].item, t)
  }

  /** No two actions of state i compete for a token. */
  ghost predicate Uncontested(g: Grammar, w: seq<Wset>, i: nat, shifts: seq<int>) {
    |shifts| > g.ntokens >= 1 && forall k | 1 <= k <= g.ntokens :: Alone(g, w, |w|, k, Entered(i, shifts)[k])
  }

  /** A kernel item has the lookaheads of the kernel and no others. */
  lemma KernelLook(g: Grammar, kernel: set<Item>, kps: iset<(Item, nat)>, it: Item, t: nat)
    requires InLook(g, kernel, kps, it, t) && it.dot >= 1
    ensures (it, t) in kps
  {
    var ps := iset x: (Item, nat) | x in kps || x.0.dot == 0;
    assert LookClosed(g, kernel, ps);
    assert kps <= ps;
  }

  /** Without lookahead computation the items of the kernel keep theirs. */
  lemma KernelCovered(g: Grammar, a: Auto, i: nat, w: seq<Wset>, u: nat, t: nat)
    requires g.Valid() && GoodAuto(g, a) && i < |a.kernels| && Justified(g, a.kernels[i], w, true) && u < |w|
    requires w[u].item.dot >= 1
    ensures t in w[u].ws <==> Looks(g, a, i, w[u].item, t)
  {
    hide GoodAuto, InClosure, InLook;
    KernelItemsOk(g, a, i);
    var k := a.kernels[i];
    if t in w[u].ws {
      assert k[u].item == w[u].item && t in k[u].look;
      ArrivedIsLook(g, a, i, w[u].item, t);
    }
    if Looks(g, a, i, w[u].item, t) {
      KernelLook(g, KSet(a, i), PairsOf(k), w[u].item, t);
      var x :| 0 <= x < |k| && k[x].item == w[u].item && t in k[x].look;
      assert w[x].item == k[x].item;
      assert x == u;
    }
  }

  lemma BareIsMarked(g: Grammar, a: Auto, ty: seq<int>, i: nat, it: Item)
    requires i < |a.kernels| <= |ty| && BareMarked(g, a, ty, i)
    requires ItemOk(g, it) && it.dot == 0 == |g.prods[it.prod].rhs| && InClosure(g, KSet(a, i), it)
    ensures ty[i] == MUSTLOOKAHEAD
  {
    hide InClosure;
    assert it == Item(it.prod, 0);
    assert HasBare(g, a, i);
  }

  /** What output computes is right: the full closure where a bare item asks for it, the kernel's sets elsewhere. */
  lemma OutputCovers(g: Grammar, a: Auto, ty: seq<int>, i: nat, w: seq<Wset>)
    requires g.Valid() && GoodAuto(g, a) && i < |a.kernels| <= |ty| && BareMarked(g, a, ty, i)
    requires Justified(g, a.kernels[i], w, ty[i] != MUSTLOOKAHEAD)
             && IsClosure(g, a.kernels[i], w, ty[i] != MUSTLOOKAHEAD)
    ensures Covered(g, a, i, w)
  {
    hide GoodAuto, InClosure, InLook, BareMarked;
    forall u, t: nat | 0 <= u < |w| && ItemOk(g, w[u].item) && w[u].item.dot == |g.prods[w[u].item.prod].rhs|
      ensures t in w[u].ws <==> Looks(g, a, i, w[u].item, t)
    {
      if w[u].item.dot == 0 {
        BareIsMarked(g, a, ty, i, w[u].item);
      } else if ty[i] != MUSTLOOKAHEAD {
        KernelCovered(g, a, i, w, u, t);
      }
    }
  }

  /** A complete item is not of $accept, for no state is entered on $end. */
  lemma NoEndItem(g: Grammar, a: Auto, i: nat, w: seq<Wset>, nolook: bool)
    requires g.Valid() && GoodAuto(g, a) && i < |a.kernels| && IsClosure(g, a.kernels[i], w, nolook)
    ensures RealProductions(g, w)
  {
    forall u, k | 0 <= u < |w| && Asks(g, w[u], k) ensures w[u].item.prod > 0 {
      if w[u].item.prod == 0 {
        assert InClosure(g, KSet(a, i), w[u].item);
        KernelItemsOk(g, a, i);
        InnerItemsAreKernel(g, KSet(a, i), w[u].item);
        EndItemIsNowhere(g, a, i);
      }
    }
  }

  lemma EndItemIsNowhere(g: Grammar, a: Auto, i: nat)
    requires g.Valid() && GoodAuto(g, a) && i < |a.kernels|
    ensures Item(0, 2) !in KSet(a, i)
  {
    if i > 0 {
      assert EnteredOn(g, a.kernels[i], a.acc[i]) && a.acc[i] != T(1);
    }
  }

  /** In a state without a conflict of the grammar nothing competes. */
  lemma UncontestedIfLalr(g: Grammar, a: Auto, i: nat, row: seq<int>, prec: Prec, w: seq<Wset>, shifts: seq<int>)
    requires Resolves(g, a, i, row, prec, w, shifts) && GoodAuto(g, a) && g.Valid() && Leads(a) && OnlyLalr(g, a)
    requires NoConflict(g, KSet(a, i))
    ensures Uncontested(g, w, i, shifts)
  {
    hide GoodAuto, RowComplete, RowSound, IsClosure, Covered, Looks, ShiftsOn, ReducesOn, OnlyLalr, Asks,
      Leads, Decided;
    EnteredIs(g, a, i, shifts);
    NoEndItem(g, a, i, w, true);
    forall k | 1 <= k <= g.ntokens ensures Alone(g, w, |w|, k, Entered(i, shifts)[k]) {
      forall u | 0 <= u < |w| && Asks(g, w[u], k)
        ensures Entered(i, shifts)[k] == 0 && forall x | 0 <= x < |w| && Asks(g, w[x], k) :: x == u
      {
        AskedIsLalr(g, a, i, w, u, k);
        EnteredIfShifts(g, a, i, shifts, k);
        forall x | 0 <= x < |w| && Asks(g, w[x], k) ensures x == u {
          AskedIsLalr(g, a, i, w, x, k);
          SameEntry(g, a, i, w, x, u, k);
        }
      }
    }
  }

  lemma SameEntry(g: Grammar, a: Auto, i: nat, w: seq<Wset>, x: nat, u: nat, k: nat)
    requires Covered(g, a, i, w) && x < |w| && u < |w| && Asks(g, w[x], k) && Asks(g, w[u], k)
             && w[x].item.prod == w[u].item.prod
    ensures x == u
  {
    assert w[x].item == w[u].item;
  }

  lemma AskedIsLalr(g: Grammar, a: Auto, i: nat, w: seq<Wset>, u: nat, k: nat)
    requires i < |a.kernels| && Covered(g, a, i, w) && OnlyLalr(g, a) && RealProductions(g, w) && u < |w|
             && Asks(g, w[u], k)
    ensures ReducesOn(g, KSet(a, i), w[u].item.prod, k)
  {
    assert Looks(g, a, i, w[u].item, k);
    assert w[u].item == Item(w[u].item.prod, |g.prods[w[u].item.prod].rhs|);
  }

  lemma LalrIsAsked(g: Grammar, a: Auto, i: nat, w: seq<Wset>, r: nat, k: nat) returns (u: nat)
    requires i < |a.kernels| && Covered(g, a, i, w) && IsClosure(g, a.kernels[i], w, true) && AllLalr(g, a)
    requires ReducesOn(g, KSet(a, i), r, k)
    ensures u < |w| && w[u].item.prod == r && Asks(g, w[u], k)
  {
    var it := Item(r, |g.prods[r].rhs|);
    assert Looks(g, a, i, it, k);
    u :| 0 <= u < |w| && w[u].item == it;
  }

  /** The row has an entry before the reductions exactly where the state acts otherwise than by reducing. */
  lemma EnteredIfShifts(g: Grammar, a: Auto, i: nat, shifts: seq<int>, k: nat)
    requires g.Valid() && GoodAuto(g, a) && Leads(a) && i < |a.kernels| && RowSound(g, a, i, shifts)
             && RowComplete(g, a, i, shifts)
    requires 1 <= k <= g.ntokens && |shifts| > g.ntokens
    ensures Entered(i, shifts)[k] > 0 <==> ShiftsOn(g, KSet(a, i), k)
    ensures Entered(i, shifts)[k] >= 0
  {
    hide GoodAuto;
    EnteredIs(g, a, i, shifts);
    if k == 1 && Item(0, 1) in KSet(a, i) {
      EndIsStateOne(g, a, i);
    }
    if k > 1 && shifts[k] != 0 {
      GotoNonempty(g, a, i, T(k), shifts[k]);
    }
  }

  /** Where no conflict is counted, the levels have decided all there are. */
  lemma ArbitratedIfQuiet(g: Grammar, a: Auto, i: nat, row: seq<int>, prec: Prec, w: seq<Wset>, shifts: seq<int>)
    requires Resolves(g, a, i, row, prec, w, shifts) && GoodAuto(g, a) && g.Valid() && Leads(a) && AllLalr(g, a)
    requires |shifts| > g.ntokens && RRConflicts(g, w, |w|, Entered(i, shifts), prec) == {}
    requires SRConflicts(g, w, |w|, Entered(i, shifts), prec) == {}
    ensures Arbitrated(g, KSet(a, i), prec)
  {
    hide GoodAuto, RowComplete, RowSound, IsClosure, Covered, ShiftsOn, ReducesOn, AllLalr, Leads, Decided, RRConflicts,
      SRConflicts, Undecided, Reduces;
    forall t: nat, r: nat, q: nat | 1 <= t <= g.ntokens && ReducesOn(g, KSet(a, i), r, t)
      && ReducesOn(g, KSet(a, i), q, t)
      ensures r < |g.prods| && q < |g.prods|
      ensures if ShiftsOn(g, KSet(a, i), t) then
                && !Undecided(t, r, prec)
                && (q != r && Reduces(prec.toklev[t], prec.levprd[r]) ==> !Reduces(prec.toklev[t], prec.levprd[q]))
              else q == r
    {
      EnteredIfShifts(g, a, i, shifts, t);
      var u := LalrIsAsked(g, a, i, w, r, t);
      var x := LalrIsAsked(g, a, i, w, q, t);
      QuietIsSettled(g, w, Entered(i, shifts), prec, t);
    }
  }

  /** Where nothing competes, the row does what the state asks for. */
  lemma ResolvedServes(g: Grammar, a: Auto, i: nat, row: seq<int>, prec: Prec, w: seq<Wset>, shifts: seq<int>)
    requires Resolves(g, a, i, row, prec, w, shifts) && GoodAuto(g, a) && g.Valid() && Uncontested(g, w, i, shifts)
    ensures Serves(g, a, i, row)
  {
    hide GoodAuto, Justified, InLook, Alone, Decided, Asks;
    NoEndItem(g, a, i, w, true);
    EnteredIs(g, a, i, shifts);
    forall c, j | 2 <= c <= g.ntokens && GoesTo(g, a, i, T(c), j) ensures row[c] == j {
      ServesShift(g, a, i, prec, w, shifts, c, j);
    }
    forall r: nat, t: nat | 1 <= r < |g.prods| && 1 <= t <= g.ntokens && Looks(g, a, i, Item(r, |g.prods[r].rhs|), t)
      ensures row[t] + r == 0
    {
      var u :| 0 <= u < |w| && w[u].item == Item(r, |g.prods[r].rhs|);
      ServesReduction(g, w, u, t, Entered(i, shifts)[t], prec);
    }
    if i == 1 {
      TakenIsKept(g, w, 1, Entered(i, shifts)[1], prec);
    }
  }

  lemma TakenIsKept(g: Grammar, w: seq<Wset>, k: nat, v: int, prec: Prec)
    requires k <= g.ntokens && prec.Covers(g) && Alone(g, w, |w|, k, v) && v != 0
    ensures Decided(g, w, |w|, k, v, prec) == v
  {
    DecidedAlone(g, w, |w|, k, v, prec);
  }

  lemma ServesReduction(g: Grammar, w: seq<Wset>, u: nat, t: nat, v: int, prec: Prec)
    requires t <= g.ntokens && prec.Covers(g) && Alone(g, w, |w|, t, v) && u < |w| && t in w[u].ws
    requires w[u].item.prod < |g.prods| && w[u].item.dot == |g.prods[w[u].item.prod].rhs|
    ensures Decided(g, w, |w|, t, v, prec) + w[u].item.prod == 0
  {
    assert Asks(g, w[u], t);
    DecidedAlone(g, w, |w|, t, v, prec);
  }

  lemma GotoNonempty(g: Grammar, a: Auto, i: int, s: Sym, j: int)
    requires GoodAuto(g, a) && GoesTo(g, a, i, s, j)
    ensures Goto(g, KSet(a, i), s) != {}
  {
    GoodStateAt(g, a, j);
    assert a.kernels[j][0].item in KSet(a, j);
  }

  lemma ServesShift(g: Grammar, a: Auto, i: nat, prec: Prec, w: seq<Wset>, shifts: seq<int>, c: nat, j: int)
    requires GoodAuto(g, a) && prec.Covers(g) && i < |a.kernels| && RowSound(g, a, i, shifts)
             && RowComplete(g, a, i, shifts) && Uncontested(g, w, i, shifts)
    requires 2 <= c <= g.ntokens && GoesTo(g, a, i, T(c), j)
    ensures Decided(g, w, |w|, c, Entered(i, shifts)[c], prec) == j
  {
    hide Alone, Decided, GoodAuto, Goto, KSet;
    GotoNonempty(g, a, i, T(c), j);
    OneGoto(g, a, i, T(c), j, shifts[c]);
    TakenIsKept(g, w, c, Entered(i, shifts)[c], prec);
  }

  // ---- The whole of output -------------------------------------------------------------------------------

  /** output, for one state: its shifts and gotos, then its reductions. */
  method OutputState(st: Stagen, i: nat, prec: Prec)
    returns (ok: bool, row: seq<int>, zzsrconf: nat, zzrrconf: nat, ghost w: seq<Wset>, ghost shifts: seq<int>)
    requires st.Shape() && st.Known() && i < |st.lalr.kernels| && prec.Covers(st.g)
    requires AllWorked(st.g, st.lalr.View(), st.overlay.amem[..], st.indgo)
    requires StatesMarked(st.g, st.lalr.View(), st.lalr.tystate)
    modifies st.lalr, st.work, st.work.wsets
    ensures unchanged(st.lalr) && st.Shape() && (!ok ==> st.work.cwp + 1 >= WSETSIZE)
    ensures ok ==> Resolves(st.g, st.lalr.View(), i, row, prec, w, shifts) && |shifts| > st.g.ntokens
    ensures ok ==> zzsrconf == |SRConflicts(st.g, w, |w|, Entered(i, shifts), prec)|
    ensures ok ==> zzrrconf == |RRConflicts(st.g, w, |w|, Entered(i, shifts), prec)|
  {
    hide IsClosure, RowSound, RowComplete, Resolves, Covered, Decided, GoodState, Justified, RealProductions,
      Chained, Leads,
      AllWorked, FirstsKnown, SRConflicts, RRConflicts, AllJust, BareMarked;
    var temp1;
    ok, temp1 := OutputRow(st, i);
    if !ok {
      return ok, [], 0, 0, [], [];
    }
    RowLength(st.g, st.lalr.View(), i, temp1);
    EnteredIs(st.g, st.lalr.View(), i, temp1);
    shifts, w := temp1, st.work.View();
    if i == 1 {
      temp1 := temp1[1 := ACCEPTCODE];
    }
    NoEndItem(st.g, st.lalr.View(), i, w, st.lalr.tystate[i] != MUSTLOOKAHEAD);
    OutputCovers(st.g, st.lalr.View(), st.lalr.tystate, i, w);
    temp1, zzsrconf, zzrrconf := Reductions(st.g, st.work, temp1, prec);
    row := temp1[..st.g.ntokens + 1];
    RowIsResolved(st.g, st.lalr.View(), i, row, prec, w, shifts, st.lalr.tystate[i] != MUSTLOOKAHEAD);
  }

  lemma RowIsResolved(g: Grammar, a: Auto, i: nat, row: seq<int>, prec: Prec, w: seq<Wset>, shifts: seq<int>,
                      nolook: bool)
    requires i < |a.kernels| && prec.Covers(g) && IsClosure(g, a.kernels[i], w, nolook) && Covered(g, a, i, w)
    requires RowSound(g, a, i, shifts) && RowComplete(g, a, i, shifts) && |shifts| > g.ntokens >= 1
    requires |row| == g.ntokens + 1 && forall k | 1 <= k <= g.ntokens ::
               row[k] == Decided(g, w, |w|, k, Entered(i, shifts)[k], prec)
    ensures Resolves(g, a, i, row, prec, w, shifts)
  {
    hide RowSound, RowComplete, Decided, InLook, InClosure, Covered;
  }

  /** The lookaheads of st are finished. */
  ghost predicate Finished(g: Grammar, a: Auto, ty: seq<int>) {
    AllLooksDone(g, a, ty) && forall i | 0 <= i < |a.kernels| :: ty[i] != MUSTDO
  }

  lemma FinishedAt(g: Grammar, a: Auto, ty: seq<int>, i: nat)
    requires Finished(g, a, ty) && i < |a.kernels|
    ensures |a.kernels| <= |ty| && LooksDone(g, a, ty, i) && ty[i] != MUSTDO
  {
    assert LooksDone(g, a, ty, i);
  }

  /** How the rows of the states have come about: their working sets and their shifts. */
  datatype Origins = Origins(ws: seq<seq<Wset>>, shifts: seq<seq<int>>)

  ghost predicate AllResolve(g: Grammar, a: Auto, rows: seq<seq<int>>, prec: Prec, o: Origins) {
    && |o.ws| == |rows| && Wide(g, o)
    && forall i | 0 <= i < |rows| :: Resolves(g, a, i, rows[i], prec, o.ws[i], o.shifts[i])
  }

  ghost predicate Wide(g: Grammar, o: Origins) {
    g.ntokens >= 1 && |o.ws| == |o.shifts| && forall i | 0 <= i < |o.shifts| :: |o.shifts[i]| > g.ntokens
  }

  /** The conflicts of the first n states. */
  ghost function SRCount(g: Grammar, o: Origins, n: nat, prec: Prec): nat
    requires n <= |o.ws| && Wide(g, o) && prec.Covers(g)
  {
    if n == 0 then 0
    else SRCount(g, o, n - 1, prec) + |SRConflicts(g, o.ws[n - 1], |o.ws[n - 1]|,
                                                   Entered(n - 1, o.shifts[n - 1]), prec)|
  }

  ghost function RRCount(g: Grammar, o: Origins, n: nat, prec: Prec): nat
    requires n <= |o.ws| && Wide(g, o) && prec.Covers(g)
  {
    if n == 0 then 0
    else RRCount(g, o, n - 1, prec) + |RRConflicts(g, o.ws[n - 1], |o.ws[n - 1]|,
                                                   Entered(n - 1, o.shifts[n - 1]), prec)|
  }

  ghost predicate QuietAt(g: Grammar, o: Origins, i: nat, prec: Prec)
    requires i < |o.ws| && Wide(g, o) && prec.Covers(g)
  {
    && SRConflicts(g, o.ws[i], |o.ws[i]|, Entered(i, o.shifts[i]), prec) == {}
    && RRConflicts(g, o.ws[i], |o.ws[i]|, Entered(i, o.shifts[i]), prec) == {}
  }

  lemma {:induction false} NothingCounted(g: Grammar, o: Origins, n: nat, prec: Prec)
    requires n <= |o.ws| && Wide(g, o) && prec.Covers(g)
    ensures SRCount(g, o, n, prec) == 0 == RRCount(g, o, n, prec) <==> forall i | 0 <= i < n :: QuietAt(g, o, i, prec)
  {
    if n > 0 {
      NothingCounted(g, o, n - 1, prec);
      var w, row := o.ws[n - 1], Entered(n - 1, o.shifts[n - 1]);
      assert QuietAt(g, o, n - 1, prec) <==>
               |SRConflicts(g, w, |w|, row, prec)| == 0 == |RRConflicts(g, w, |w|, row, prec)|;
    }
  }

  lemma {:induction false} CountSame(g: Grammar, o: Origins, o': Origins, n: nat, prec: Prec)
    requires n <= |o.ws| <= |o'.ws| && Wide(g, o) && Wide(g, o') && prec.Covers(g)
    requires forall i | 0 <= i < n :: o'.ws[i] == o.ws[i] && o'.shifts[i] == o.shifts[i]
    ensures SRCount(g, o', n, prec) == SRCount(g, o, n, prec) && RRCount(g, o', n, prec) == RRCount(g, o, n, prec)
  {
    if n > 0 {
      CountSame(g, o, o', n - 1, prec);
    }
  }

  ghost function Added(o: Origins, w: seq<Wset>, shifts: seq<int>): Origins {
    Origins(o.ws + [w], o.shifts + [shifts])
  }

  lemma CountAdded(g: Grammar, o: Origins, w: seq<Wset>, shifts: seq<int>, prec: Prec)
    requires Wide(g, o) && |shifts| > g.ntokens && prec.Covers(g)
    ensures var n, o', row := |o.ws|, Added(o, w, shifts), Entered(|o.ws|, shifts);
            && Wide(g, o')
            && SRCount(g, o', n + 1, prec) == SRCount(g, o, n, prec) + |SRConflicts(g, w, |w|, row, prec)|
            && RRCount(g, o', n + 1, prec) == RRCount(g, o, n, prec) + |RRConflicts(g, w, |w|, row, prec)|
  {
    hide SRConflicts, RRConflicts;
    var o' := Added(o, w, shifts);
    assert o'.ws[|o.ws|] == w && o'.shifts[|o.ws|] == shifts;
    CountSame(g, o, o', |o.ws|, prec);
  }

  lemma RowAdded(g: Grammar, a: Auto, rows: seq<seq<int>>, prec: Prec, o: Origins, row: seq<int>, w: seq<Wset>,
                 shifts: seq<int>)
    requires AllResolve(g, a, rows, prec, o) && Resolves(g, a, |rows|, row, prec, w, shifts) && |shifts| > g.ntokens
    ensures AllResolve(g, a, rows + [row], prec, Added(o, w, shifts))
  {
    hide Resolves;
    var o' := Added(o, w, shifts);
    forall i | 0 <= i <= |rows| ensures Resolves(g, a, i, (rows + [row])[i], prec, o'.ws[i], o'.shifts[i]) {
      if i < |rows| {
        assert o'.ws[i] == o.ws[i] && o'.shifts[i] == o.shifts[i];
      }
    }
  }

  /** output: the action rows of all states, and the conflicts that are reported. */
  method Output(st: Stagen, prec: Prec)
    returns (ok: bool, actions: seq<seq<int>>, zzsrconf: nat, zzrrconf: nat, ghost o: Origins)
    requires st.Shape() && st.Known() && prec.Covers(st.g)
    requires AllWorked(st.g, st.lalr.View(), st.overlay.amem[..], st.indgo)
    requires StatesMarked(st.g, st.lalr.View(), st.lalr.tystate)
    modifies st.lalr, st.work, st.work.wsets
    ensures unchanged(st.lalr) && st.Shape()
    ensures ok ==> |actions| == |st.lalr.kernels| && AllResolve(st.g, st.lalr.View(), actions, prec, o)
    ensures ok ==> zzsrconf == SRCount(st.g, o, |actions|, prec) && zzrrconf == RRCount(st.g, o, |actions|, prec)
  {
    hide Resolves, AllWorked, StatesMarked, SRConflicts, RRConflicts, Leads, AllJust, Chained;
    actions, zzsrconf, zzrrconf, o := [], 0, 0, Origins([], []);
    for i := 0 to |st.lalr.kernels|
      invariant st.Shape() && st.Known() && unchanged(st.lalr) && |actions| == i
      invariant AllWorked(st.g, st.lalr.View(), st.overlay.amem[..], st.indgo)
      invariant StatesMarked(st.g, st.lalr.View(), st.lalr.tystate)
      invariant AllResolve(st.g, st.lalr.View(), actions, prec, o)
      invariant zzsrconf == SRCount(st.g, o, i, prec) && zzrrconf == RRCount(st.g, o, i, prec)
    {
      var row, sr, rr;
      ghost var w, shifts;
      ok, row, sr, rr, w, shifts := OutputState(st, i, prec);
      if !ok {
        return;
      }
      RowAdded(st.g, st.lalr.View(), actions, prec, o, row, w, shifts);
      CountAdded(st.g, o, w, shifts, prec);
      o := Added(o, w, shifts);
      zzsrconf, zzrrconf := zzsrconf + sr, zzrrconf + rr;
      actions := actions + [row];
    }
    ok := true;
  }

  /** The parser t makes, on every token stream and for any number of steps, the moves of the plain tables p. */
  ghost predicate Parses(g: Grammar, a: Auto, p: Plain, t: Tables) {
    && t.Readable() && p.Valid(g.ntokens) && |p.actions| > 0
    && forall input: nat -> int, n: nat :: (forall i :: 1 <= input(i) <= g.ntokens) ==>
         PackedRun(t, input, n) == PlainRun(p, g.ntokens, input, n) && OnPath(g, a, PackedRun(t, input, n))
  }

  /** In every run of t errors are counted, recovered from and given up as they should be. */
  ghost predicate Recovers(g: Grammar, p: Plain, t: Tables) {
    forall input: nat -> int, n: nat :: (forall i :: 1 <= input(i) <= g.ntokens) ==> RecoversAt(t, p, input, n)
  }

  lemma AllRecover(g: Grammar, a: Auto, p: Plain, t: Tables, inp: Input, k: Packing, chunks: seq<seq<Exc>>)
    requires GoodPlain(g, a, p) && Made(p, g.ntokens, t, inp, k, chunks)
    ensures Recovers(g, p, t)
  {
    hide RecoversAt, GoodPlain;
    forall input: nat -> int, n: nat | forall i :: 1 <= input(i) <= g.ntokens ensures RecoversAt(t, p, input, n) {
      ErrorsAreRecovered(g, a, p, t, inp, k, chunks, input, n);
    }
  }

  lemma AllParses(g: Grammar, a: Auto, p: Plain, t: Tables, inp: Input, k: Packing, chunks: seq<seq<Exc>>)
    requires GoodPlain(g, a, p) && Made(p, g.ntokens, t, inp, k, chunks)
    ensures Parses(g, a, p, t)
  {
    forall input: nat -> int, n: nat | forall i :: 1 <= input(i) <= g.ntokens
      ensures PackedRun(t, input, n) == PlainRun(p, g.ntokens, input, n) && OnPath(g, a, PackedRun(t, input, n))
    {
      PackedParserIsExact(g, a, p, t, inp, k, chunks, input, n);
    }
  }

  /** What t accepts without having counted an error is a sentence of g, followed by $end, and nothing more has been
      read. */
  ghost predicate AcceptsSentences(g: Grammar, t: Tables) {
    t.Readable() && forall input: nat -> int, n: nat ::
      (forall i :: 1 <= input(i) <= g.ntokens) && PackedRun(t, input, n).status == Accepted
      && PackedRun(t, input, n).nerrs == 0 ==>
        exists tree :: YaccGrammar.Fits(g, N(0), tree) && |Yield(tree)| == PackedRun(t, input, n).pos
                       && Tokens(input, Yield(tree))
  }

  lemma AllAreSentences(g: Grammar, a: Auto, p: Plain, t: Tables)
    requires GoodPlain(g, a, p) && Leads(a) && AcceptsAtEnd(p) && Parses(g, a, p, t)
    ensures AcceptsSentences(g, t)
  {
    hide Path, OnPath, GoodRow;
    forall input: nat -> int, n: nat
      | (forall i :: 1 <= input(i) <= g.ntokens) && PackedRun(t, input, n).status == Accepted
        && PackedRun(t, input, n).nerrs == 0
      ensures exists tree :: YaccGrammar.Fits(g, N(0), tree) && |Yield(tree)| == PackedRun(t, input, n).pos
                             && Tokens(input, Yield(tree))
    {
      var tree := AcceptedIsSentence(g, a, p, input, n);
    }
  }

  /** t accepts every sentence of g, to its $end and without an error, unless its stack is too small. */
  ghost predicate AcceptsAllSentences(g: Grammar, t: Tables) {
    t.Readable() && g.Valid() && forall input: nat -> int, tree: Tree ::
      (forall i :: 1 <= input(i) <= g.ntokens) && YaccGrammar.Fits(g, g.prods[0].rhs[0], tree)
      && Comes(input, 0, Yield(tree)) && input(|Yield(tree)|) == 1 ==>
        exists n :: Full(PackedRun(t, input, n)) || AcceptedAt(PackedRun(t, input, n), |Yield(tree)| + 1)
  }

  predicate AcceptedAt(m: Machine, pos: nat) {
    m.status == Accepted && m.nerrs == 0 && m.pos == pos
  }

  lemma AllAreAccepted(g: Grammar, a: Auto, p: Plain, t: Tables)
    requires Working(g, a, p) && Parses(g, a, p, t) && g.Valid()
    ensures AcceptsAllSentences(g, t)
  {
    hide Working, Path, OnPath, GoodRow, YaccGrammar.Fits, Comes;
    forall input: nat -> int, tree: Tree
      | (forall i :: 1 <= input(i) <= g.ntokens) && YaccGrammar.Fits(g, g.prods[0].rhs[0], tree)
        && Comes(input, 0, Yield(tree)) && input(|Yield(tree)|) == 1
      ensures exists n :: Full(PackedRun(t, input, n)) || AcceptedAt(PackedRun(t, input, n), |Yield(tree)| + 1)
    {
      var n := SentenceIsAccepted(g, a, p, input, tree);
      assert PackedRun(t, input, n) == PlainRun(p, g.ntokens, input, n);
    }
  }

  /** Lookaheads that have been handed on are lookaheads where they have arrived. */
  lemma FinishedIsSent(g: Grammar, a: Auto, ty: seq<int>)
    requires Finished(g, a, ty)
    ensures AllSent(g, a)
  {
    hide InLook, InClosure;
    forall i: int, it, s, t: nat | Looks(g, a, i, it, t) && Moves(g, it, s) && s != T(1)
      ensures Sent(g, a, i, it, s, t)
    {
      FinishedAt(g, a, ty, i);
      assert Handed(g, a, i, it, s, t);
      var j :| GoesTo(g, a, i, s, j) && (Advance(it), t) in PairsOf(a.kernels[j]);
      ArrivedIsLook(g, a, j, Advance(it), t);
    }
  }

  lemma ArrivedIsLook(g: Grammar, a: Auto, j: int, it: Item, t: nat)
    requires 0 <= j < |a.kernels| && (it, t) in PairsOf(a.kernels[j])
    ensures Looks(g, a, j, it, t)
  {
    assert it in KSet(a, j);
  }

  /** In an LALR(1) grammar the rows do what the states ask for, and no conflict is counted. */
  lemma RowsServe(g: Grammar, a: Auto, actions: seq<seq<int>>, prec: Prec, o: Origins)
    requires GoodAuto(g, a) && g.Valid() && Leads(a) && OnlyLalr(g, a) && IsAutomaton(g, a) && LalrGrammar(g)
    requires AllResolve(g, a, actions, prec, o) && prec.Covers(g)
    ensures forall i | 0 <= i < |actions| :: Serves(g, a, i, actions[i]) && QuietAt(g, o, i, prec)
  {
    hide Resolves, Uncontested, Serves, GoodAuto, Leads, OnlyLalr, NoConflict, SRConflicts, RRConflicts;
    forall i | 0 <= i < |actions| ensures Serves(g, a, i, actions[i]) && QuietAt(g, o, i, prec) {
      KernelReachable(g, a, i, actions[i], prec, o.ws[i], o.shifts[i]);
      UncontestedIfLalr(g, a, i, actions[i], prec, o.ws[i], o.shifts[i]);
      ResolvedServes(g, a, i, actions[i], prec, o.ws[i], o.shifts[i]);
      UncontestedIsQuiet(g, i, o.ws[i], o.shifts[i], prec);
    }
  }

  lemma UncontestedIsQuiet(g: Grammar, i: nat, w: seq<Wset>, shifts: seq<int>, prec: Prec)
    requires Uncontested(g, w, i, shifts) && prec.Covers(g)
    ensures SRConflicts(g, w, |w|, Entered(i, shifts), prec) == {}
            && RRConflicts(g, w, |w|, Entered(i, shifts), prec) == {}
  {
    AloneIsQuiet(g, w, Entered(i, shifts), prec);
  }

  lemma KernelReachable(g: Grammar, a: Auto, i: nat, row: seq<int>, prec: Prec, w: seq<Wset>, shifts: seq<int>)
    requires IsAutomaton(g, a) && Resolves(g, a, i, row, prec, w, shifts)
    ensures i < |a.kernels| && Reachable(g, KSet(a, i))
  {
    hide Reachable, IsClosure, Covered, RowSound, RowComplete, Decided;
  }

  /** If no conflict is reported, the grammar is LALR(1) but for what the declared levels decide. */
  lemma QuietIsArbitrated(g: Grammar, a: Auto, actions: seq<seq<int>>, prec: Prec, o: Origins)
    requires GoodAuto(g, a) && g.Valid() && Leads(a) && AllLalr(g, a) && IsAutomaton(g, a) && |actions| == |a.kernels|
    requires AllResolve(g, a, actions, prec, o) && prec.Covers(g)
             && forall i | 0 <= i < |actions| :: QuietAt(g, o, i, prec)
    ensures ArbitratedGrammar(g, prec)
  {
    hide Resolves, GoodAuto, Leads, AllLalr, Arbitrated, SRConflicts, RRConflicts, Reachable;
    forall k | Reachable(g, k) ensures Arbitrated(g, k, prec) {
      var i :| 0 <= i < |a.kernels| && KSet(a, i) == k;
      assert QuietAt(g, o, i, prec);
      ArbitratedIfQuiet(g, a, i, actions[i], prec, o.ws[i], o.shifts[i]);
    }
  }

  /** cempty, cpfir and stagen: the states of a grammar. */
  method States(g: Grammar) returns (ok: bool, st: Stagen?)
    requires g.Valid()
    ensures (exists n :: 1 <= n <= g.nnonter && !Generates(g, N(n))) ==> !ok
    ensures ok ==> st != null && fresh(st) && fresh(st.lalr) && fresh(st.work) && fresh(st.work.wsets) && st.g == g
                   && st.Shape() && st.Known()
    ensures ok ==> AllWorked(g, st.lalr.View(), st.overlay.amem[..], st.indgo)
                   && StatesMarked(g, st.lalr.View(), st.lalr.tystate)
    ensures ok ==> if st.overwritten then Overwrites(g, st.lalr.View())
                   else Finished(g, st.lalr.View(), st.lalr.tystate)
  {
    hide Worked, AllWorked, Generates, AllLooksDone, Overwrites, BareMarked;
    st := null;
    var pempty := new int[g.nnonter + 1];
    ok := Cempty(g, pempty);
    if !ok {
      return;
    }
    var first := Cpfir(g, pempty);
    var s := new Stagen(g, pempty, first);
    ok := s.Generate();
    st := s;
  }

  /**
   yacc: the parser of a grammar. No condition is put on the rows: they come from the grammar and the precedences.
   It gives up where a nonterminal derives no token string or a table is full.
   */
  method Yacc(g: Grammar, prec: Prec)
    returns (ok: bool, t: Tables, zzsrconf: nat, zzrrconf: nat, ghost a: Auto, ghost p: Plain, ghost o: Origins)
    requires g.Valid() && prec.Covers(g)
    ensures (exists n :: 1 <= n <= g.nnonter && !Generates(g, N(n))) ==> !ok
    ensures ok ==> GoodPlain(g, a, p) && IsAutomaton(g, a) && Parses(g, a, p, t) && AcceptsSentences(g, t)
    ensures ok ==> Recovers(g, p, t)
    ensures ok ==> OnlyLalr(g, a) && (Overwrites(g, a) || AllLalr(g, a)) && AllResolve(g, a, p.actions, prec, o)
    ensures ok ==> zzsrconf == SRCount(g, o, |p.actions|, prec) && zzrrconf == RRCount(g, o, |p.actions|, prec)
    ensures ok && LalrGrammar(g) ==> zzsrconf == 0 == zzrrconf && (Overwrites(g, a) || AcceptsAllSentences(g, t))
    ensures ok && zzsrconf == 0 == zzrrconf ==> Overwrites(g, a) || ArbitratedGrammar(g, prec)
    ensures ok && NoLevels(g, prec) && !Overwrites(g, a) ==> (zzsrconf == 0 == zzrrconf <==> LalrGrammar(g))
  {
    hide AllWorked, Made, GoodPlain, Parses, AcceptsSentences, AcceptsAllSentences, AcceptsAtEnd, Leads,
      IsAutomaton, GoodRow,
      Generates, Finished, Overwrites, Working, Resolves, OnlyLalr, AllLalr, LalrGrammar, ArbitratedGrammar, NoLevels,
      Chained, AllJust, StatesMarked,
      SRConflicts, RRConflicts, Serves, AllSent, Recovers;
    t, zzsrconf, zzrrconf, a, p, o := Tables([], [], [], [], [], [], [], []), 0, 0, Auto([], []),
      Plain([], [], [], [], []), Origins([], []);
    var st;
    ok, st := States(g);
    if !ok || g.ntokens > NTERMS || g.nnonter > NNONTERM {
      ok := false;
      return;
    }
    var actions;
    ok, actions, zzsrconf, zzrrconf, o := Output(st, prec);
    if !ok {
      return;
    }
    a := st.lalr.View();
    AllReachable(g, a, st.overlay.amem[..], st.indgo);
    JustIsLalr(g, a);
    NothingCounted(g, o, |actions|, prec);
    if LalrGrammar(g) {
      RowsServe(g, a, actions, prec, o);
    }
    if !Overwrites(g, a) {
      FinishedIsSent(g, a, st.lalr.tystate);
      SentIsLalr(g, a);
      if zzsrconf == 0 == zzrrconf {
        QuietIsArbitrated(g, a, actions, prec, o);
        if NoLevels(g, prec) {
          ArbitratedIsLalr(g, prec);
        }
      }
    }
    RowsAreGood(g, a, actions, prec, o);
    ghost var inp, k, chunks;
    ok, t, p, inp, k, chunks := BuildTables(st, actions);
    if ok {
      AllParses(g, a, p, t, inp, k, chunks);
      AllRecover(g, a, p, t, inp, k, chunks);
      RowsAccept(g, a, p, prec, o);
      AllAreSentences(g, a, p, t);
      if LalrGrammar(g) && !Overwrites(g, a) {
        IsWorking(g, a, p, st.overlay.amem[..], st.indgo);
        AllAreAccepted(g, a, p, t);
      }
    }
  }

  lemma IsWorking(g: Grammar, a: Auto, p: Plain, m: seq<int>, ind: seq<int>)
    requires GoodPlain(g, a, p) && Leads(a) && AllSent(g, a) && AllWorked(g, a, m, ind)
    requires forall i | 0 <= i < |p.actions| :: Serves(g, a, i, p.actions[i])
    ensures Working(g, a, p)
  {
    hide Serves, Expanded, Leads, AllSent, GoodRow;
  }

  lemma RowsAccept(g: Grammar, a: Auto, p: Plain, prec: Prec, o: Origins)
    requires GoodAuto(g, a) && AllResolve(g, a, p.actions, prec, o)
    ensures AcceptsAtEnd(p)
  {
    hide Resolves, GoodAuto;
    forall i, c | 0 <= i < |p.actions| && 1 <= c < |p.actions[i]| && p.actions[i][c] == ACCEPTCODE
      ensures i == 1 && c == 1
    {
      ResolvedAccepts(g, a, i, p.actions[i], prec, o.ws[i], o.shifts[i], c);
    }
  }

  lemma RowsAreGood(g: Grammar, a: Auto, actions: seq<seq<int>>, prec: Prec, o: Origins)
    requires AllResolve(g, a, actions, prec, o)
    ensures forall i | 0 <= i < |actions| :: GoodRow(g, a, i, actions[i])
  {
    hide Resolves, GoodRow;
    forall i | 0 <= i < |actions| ensures GoodRow(g, a, i, actions[i]) {
      ResolvedIsGood(g, a, i, actions[i], prec, o.ws[i], o.shifts[i]);
    }
  }
}
