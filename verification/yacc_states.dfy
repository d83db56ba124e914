/**
 stagen and state: the states of the parser. Every state is registered on the
 chain of its accessing symbol; when generation stops the kernels are exactly the
 LR(0) kernels reachable from that of $accept, and looking a kernel up again
 never fails.
 */
module YaccStates {
  import opened YaccPack
  import opened YaccApack
  import opened YaccGrammar
  import opened YaccFirst
  import opened YaccClosure
  import opened YaccKernels
  import opened YaccLalr

  const NSTATES: nat := 2000

  const DONE: int := 0
  const MUSTDO: int := 1
  const MUSTLOOKAHEAD: int := 2

  /** The states so far: their kernels and, for all but state 0, the symbol each is entered on. */
  datatype Auto = Auto(kernels: seq<seq<KItem>>, acc: seq<Sym>)

  /** A kernel entered on s: sorted, and s stands before the dot of every item. */
  ghost predicate EnteredOn(g: Grammar, k: seq<KItem>, s: Sym) {
    forall j | 0 <= j < |k| :: k[j].item.dot >= 1 && ItemOk(g, k[j].item)
                               && g.prods[k[j].item.prod].rhs[k[j].item.dot - 1] == s
  }

  ghost predicate GoodState(g: Grammar, k: seq<KItem>) {
    GoodKernel(g, k) && SortedKernel(k) && k != [] && |k| < WSETSIZE && Reachable(g, ItemsOf(k))
  }

  ghost predicate GoodAuto(g: Grammar, a: Auto) {
    && 0 < |a.kernels| == |a.acc| <= NSTATES
    && |a.kernels[0]| == 1 && a.kernels[0][0].item == START
    && (forall j | 0 <= j < |a.kernels| :: GoodState(g, a.kernels[j]))
    && (forall j | 1 <= j < |a.kernels| :: a.acc[j] != T(1) && g.InRange(a.acc[j])
                                           && EnteredOn(g, a.kernels[j], a.acc[j]))
    && (forall i, j | 0 <= i < j < |a.kernels| :: !SameItems(a.kernels[i], a.kernels[j]))
  }

  // ---- Chains ------------------------------------------------------------------------------------

  /** The last of the states 1..n-1 entered on s, or 0. */
  ghost function LastOn(acc: seq<Sym>, s: Sym, n: nat): (j: nat)
    requires n <= |acc|
    ensures j == 0 || (j < n && acc[j] == s)
    ensures forall i | j < i < n && i >= 1 :: acc[i] != s
  {
    if n <= 1 then 0 else if acc[n - 1] == s then n - 1 else LastOn(acc, s, n - 1)
  }

  function Head(tstates: seq<int>, ntstates: seq<int>, s: Sym): int
    requires match s case T(t) => t < |tstates| case N(n) => n < |ntstates|
  {
    match s case T(t) => tstates[t] case N(n) => ntstates[n]
  }

  /** tstates, ntstates and mstates link the states entered on each symbol, latest first. */
  ghost predicate Chained(g: Grammar, acc: seq<Sym>, tstates: seq<int>, ntstates: seq<int>, mstates: seq<int>) {
    && |tstates| == g.ntokens + 1 && |ntstates| == g.nnonter + 1 && |mstates| == NSTATES && |acc| <= NSTATES
    && (forall s | g.InRange(s) || s == N(0) :: Head(tstates, ntstates, s) == LastOn(acc, s, |acc|))
    && (forall j {:trigger mstates[j]} | 1 <= j < |acc| :: mstates[j] == LastOn(acc, acc[j], j))
  }

  lemma {:induction false} LastOnAppend(acc: seq<Sym>, x: Sym, s: Sym, n: nat)
    requires n <= |acc|
    ensures LastOn(acc + [x], s, n) == LastOn(acc, s, n)
  {
    if n > 1 {
      LastOnAppend(acc, x, s, n - 1);
    }
  }

  lemma ChainPush(g: Grammar, acc: seq<Sym>, ts: seq<int>, nts: seq<int>, ms: seq<int>, s: Sym,
                  ts': seq<int>, nts': seq<int>, ms': seq<int>)
    requires Chained(g, acc, ts, nts, ms) && g.InRange(s) && 1 <= |acc| < NSTATES
    requires ms' == ms[|acc| := Head(ts, nts, s)]
    requires match s
             case T(t) => ts' == ts[t := |acc|] && nts' == nts
             case N(n) => ts' == ts && nts' == nts[n := |acc|]
    ensures Chained(g, acc + [s], ts', nts', ms')
  {
    var acc' := acc + [s];
    forall c | g.InRange(c) || c == N(0) ensures Head(ts', nts', c) == LastOn(acc', c, |acc'|) {
      LastOnAppend(acc, s, c, |acc|);
    }
    forall j | 1 <= j < |acc'| ensures ms'[j] == LastOn(acc', acc'[j], j) {
      LastOnAppend(acc, s, acc'[j], j);
    }
  }

  // ---- Growth of the automaton ---------------------------------------------------------------------

  /** The items of the old states stay; their lookaheads may grow; states may be added. */
  ghost predicate AutoExtends(a: Auto, b: Auto) {
    && |a.kernels| <= |b.kernels| && |a.acc| <= |b.acc|
    && (forall j | 0 <= j < |a.acc| :: a.acc[j] == b.acc[j])
    && (forall j | 0 <= j < |a.kernels| :: SameItems(a.kernels[j], b.kernels[j]))
    && (forall j, x | 0 <= j < |a.kernels| && 0 <= x < |a.kernels[j]| && x < |b.kernels[j]| ::
          a.kernels[j][x].look <= b.kernels[j][x].look)
  }

  /** Lookahead entries that may still appear. */
  ghost function LookRoom(g: Grammar, ks: seq<seq<KItem>>): set<(nat, nat, nat)> {
    set j, x, t | j in UpTo(NSTATES) && x in UpTo(WSETSIZE) && t in UpTo(g.ntokens)
      && (j >= |ks| || x >= |ks[j]| || t !in ks[j][x].look) :: (j, x, t)
  }

  lemma RoomShrinks(g: Grammar, a: Auto, b: Auto)
    requires AutoExtends(a, b)
    ensures LookRoom(g, b.kernels) <= LookRoom(g, a.kernels)
  {
    forall j, x, t | (j, x, t) in LookRoom(g, b.kernels) ensures (j, x, t) in LookRoom(g, a.kernels) {
      if j < |a.kernels| && x < |a.kernels[j]| {
        assert SameItems(a.kernels[j], b.kernels[j]);
        assert a.kernels[j][x].look <= b.kernels[j][x].look;
      }
    }
  }

  lemma RoomUsed(g: Grammar, a: Auto, b: Auto, j: nat, x: nat, t: nat)
    requires AutoExtends(a, b) && j < |a.kernels| <= NSTATES && x < |a.kernels[j]| <= WSETSIZE && t <= g.ntokens
    requires SameItems(a.kernels[j], b.kernels[j]) && t in b.kernels[j][x].look && t !in a.kernels[j][x].look
    ensures LookRoom(g, b.kernels) < LookRoom(g, a.kernels)
  {
    RoomShrinks(g, a, b);
    assert (j, x, t) in LookRoom(g, a.kernels) && (j, x, t) !in LookRoom(g, b.kernels);
  }

  lemma ExtendsTrans(a: Auto, b: Auto, c: Auto)
    requires AutoExtends(a, b) && AutoExtends(b, c)
    ensures AutoExtends(a, c)
  {
    forall j | 0 <= j < |a.kernels| ensures SameItems(a.kernels[j], c.kernels[j]) {
      assert SameItems(a.kernels[j], b.kernels[j]) && SameItems(b.kernels[j], c.kernels[j]);
    }
    forall j, x | 0 <= j < |a.kernels| && 0 <= x < |a.kernels[j]| && x < |c.kernels[j]|
      ensures a.kernels[j][x].look <= c.kernels[j][x].look
    {
      assert SameItems(a.kernels[j], b.kernels[j]) && SameItems(b.kernels[j], c.kernels[j]);
      assert a.kernels[j][x].look <= b.kernels[j][x].look <= c.kernels[j][x].look;
    }
  }

  /** State 1, if there is one, is the state after the start symbol. */
  ghost predicate Leads(a: Auto) {
    |a.kernels| > 1 ==> Item(0, 1) in ItemsOf(a.kernels[1])
  }

  lemma LeadsStay(a: Auto, b: Auto)
    requires AutoExtends(a, b) && Leads(a) && (|a.kernels| > 1 || |b.kernels| <= 1)
    ensures Leads(b)
  {
    if |a.kernels| > 1 {
      assert SameItems(a.kernels[1], b.kernels[1]);
      var x :| 0 <= x < |a.kernels[1]| && a.kernels[1][x].item == Item(0, 1);
      assert b.kernels[1][x].item == Item(0, 1);
    }
  }

  // ---- state ---------------------------------------------------------------------------------------

  /** What a call of state() leaves: the kernel k entered on s is state i. */
  ghost predicate Registered(g: Grammar, a: Auto, b: Auto, k: seq<KItem>, s: Sym, i: int) {
    && AutoExtends(a, b) && GoodAuto(g, b)
    && 1 <= i < |b.kernels| && ItemsOf(b.kernels[i]) == ItemsOf(k) && b.acc[i] == s
    && (|b.kernels| == |a.kernels| || (i == |a.kernels| && |b.kernels| == |a.kernels| + 1))
  }

  /** Only a state whose lookaheads grew, or a new one, is marked to be done. */
  ghost predicate Marks(g: Grammar, a: Auto, b: Auto, ty: seq<int>, ty': seq<int>) {
    && |ty| == |ty'| == NSTATES && |a.kernels| <= |b.kernels| <= NSTATES
    && (forall j | 0 <= j < NSTATES :: ty'[j] == ty[j] || ty'[j] == MUSTDO)
    && (forall j | |a.kernels| <= j < |b.kernels| :: ty'[j] == MUSTDO)
    && (|a.kernels| == |b.kernels| && LookRoom(g, a.kernels) == LookRoom(g, b.kernels) ==> ty' == ty)
    && Steady(a, b, ty')
  }

  /** A state that is not marked has the lookaheads it had. */
  ghost predicate Steady(a: Auto, b: Auto, ty: seq<int>) {
    |a.kernels| <= |b.kernels| <= |ty| && forall j | 0 <= j < |a.kernels| ::
      ty[j] == MUSTDO || b.kernels[j] == a.kernels[j]
  }

  /** A kernel that can be handed to state(): it came from a goto on s. */
  ghost predicate FromGotoOn(g: Grammar, k: seq<KItem>, s: Sym) {
    && GoodKernel(g, k) && |k| < WSETSIZE && k != [] && Reachable(g, ItemsOf(k))
    && s != T(1) && g.InRange(s) && EnteredOn(g, k, s)
  }

  lemma SameElements(k: seq<KItem>, k': seq<KItem>)
    requires multiset(k) == multiset(k')
    ensures (forall j | 0 <= j < |k'| :: k'[j] in k) && ItemsOf(k') == ItemsOf(k)
  {
    forall j | 0 <= j < |k'| ensures k'[j] in k {
      assert k'[j] in multiset(k');
    }
    forall j | 0 <= j < |k| ensures k[j] in k' {
      assert k[j] in multiset(k);
    }
    forall it ensures it in ItemsOf(k') <==> it in ItemsOf(k) {
      if it in ItemsOf(k') {
        var j :| 0 <= j < |k'| && k'[j].item == it;
        assert k'[j] in k;
      }
      if it in ItemsOf(k) {
        var j :| 0 <= j < |k| && k[j].item == it;
        assert k[j] in k';
      }
    }
  }

  lemma SortedFromGoto(g: Grammar, k: seq<KItem>, k': seq<KItem>, s: Sym)
    requires FromGotoOn(g, k, s) && SortedKernel(k') && multiset(k) == multiset(k') && |k| == |k'|
    ensures FromGotoOn(g, k', s) && GoodState(g, k') && ItemsOf(k') == ItemsOf(k)
  {
    hide Reachable, ItemsOf;
    SameElements(k, k');
    forall i, j | 0 <= i < j < |k'| ensures k'[i].item != k'[j].item {
      assert Less(k'[i].item, k'[j].item);
    }
  }

  /** A kernel that no state entered on s has is a new kernel altogether. */
  lemma NewOnChainIsNew(g: Grammar, a: Auto, k: seq<KItem>, s: Sym)
    requires GoodAuto(g, a) && FromGotoOn(g, k, s)
    requires forall j | 1 <= j < |a.kernels| && a.acc[j] == s :: !SameItems(a.kernels[j], k)
    ensures forall j | 0 <= j < |a.kernels| :: !SameItems(a.kernels[j], k)
  {
    forall j | 0 <= j < |a.kernels| ensures !SameItems(a.kernels[j], k) {
      var x, y := a.kernels[j][0].item, k[0].item;
      if j >= 1 {
        assert EnteredOn(g, a.kernels[j], a.acc[j]);
      }
      assert y.dot >= 1;
    }
  }

  /** A sorted kernel that no state has becomes a state. */
  lemma AppendState(g: Grammar, a: Auto, k: seq<KItem>, s: Sym)
    requires GoodAuto(g, a) && FromGotoOn(g, k, s) && GoodState(g, k) && |a.kernels| < NSTATES
    requires forall j | 0 <= j < |a.kernels| :: !SameItems(a.kernels[j], k)
    ensures GoodAuto(g, Auto(a.kernels + [k], a.acc + [s])) && AutoExtends(a, Auto(a.kernels + [k], a.acc + [s]))
    ensures Leads(a) && (|a.kernels| > 1 || Item(0, 1) in ItemsOf(k)) ==> Leads(Auto(a.kernels + [k], a.acc + [s]))
    ensures 0 < |a.kernels| == |a.acc| && g.InRange(s)
  {
    hide Reachable, SortedKernel, GoodKernel, ItemsOf;
  }

  lemma MergedIsGood(g: Grammar, k0: seq<KItem>, k: seq<KItem>)
    requires GoodState(g, k0) && SameItems(k0, k) && GoodKernel(g, k)
    ensures GoodState(g, k)
  {
    hide Reachable;
    forall p, q | 0 <= p < q < |k| ensures Less(k[p].item, k[q].item) {
      assert Less(k0[p].item, k0[q].item);
    }
    SameItemsSameSet(k0, k);
  }

  /** Growing lookaheads of one state keeps everything else. */
  lemma MergeState(g: Grammar, a: Auto, i: nat, k: seq<KItem>)
    requires GoodAuto(g, a) && i < |a.kernels| && SameItems(a.kernels[i], k) && GoodKernel(g, k)
    requires forall x | 0 <= x < |k| :: a.kernels[i][x].look <= k[x].look
    ensures GoodAuto(g, Auto(a.kernels[i := k], a.acc)) && AutoExtends(a, Auto(a.kernels[i := k], a.acc))
  {
    hide GoodState, GoodKernel;
    var b := Auto(a.kernels[i := k], a.acc);
    MergedIsGood(g, a.kernels[i], k);
    forall p, q | 0 <= p < q < |b.kernels| ensures !SameItems(b.kernels[p], b.kernels[q]) {
      assert SameItems(a.kernels[p], b.kernels[p]) && SameItems(a.kernels[q], b.kernels[q]);
      assert !SameItems(a.kernels[p], a.kernels[q]);
    }
    forall j | 1 <= j < |b.kernels| ensures EnteredOn(g, b.kernels[j], b.acc[j]) {
      assert EnteredOn(g, a.kernels[j], a.acc[j]);
    }
  }

  lemma GoodStateAt(g: Grammar, a: Auto, i: nat)
    requires GoodAuto(g, a) && i < |a.kernels|
    ensures GoodState(g, a.kernels[i])
  {
  }

  lemma LooksInRange(g: Grammar, a: Auto, i: nat, k: seq<KItem>, x: nat, t: nat)
    requires GoodAuto(g, a) && i < |a.kernels| && GoodKernel(g, k) && x < |k| && t in k[x].look
    ensures |a.kernels| <= NSTATES && |a.kernels[i]| <= WSETSIZE && t <= g.ntokens
  {
    GoodStateAt(g, a, i);
  }

  lemma MergedMarks(g: Grammar, a: Auto, i: nat, k: seq<KItem>, must: bool, ty: seq<int>)
    requires GoodAuto(g, a) && i < |a.kernels| && SameItems(a.kernels[i], k) && GoodKernel(g, k) && |ty| == NSTATES
    requires forall x | 0 <= x < |k| :: a.kernels[i][x].look <= k[x].look
    requires must <==> exists x :: 0 <= x < |k| && k[x].look != a.kernels[i][x].look
    ensures GoodAuto(g, Auto(a.kernels[i := k], a.acc)) && AutoExtends(a, Auto(a.kernels[i := k], a.acc))
    ensures Marks(g, a, Auto(a.kernels[i := k], a.acc), ty, if must then ty[i := MUSTDO] else ty)
  {
    hide GoodState, GoodKernel, EnteredOn, Reachable, LookRoom;
    MergeState(g, a, i, k);
    var b := Auto(a.kernels[i := k], a.acc);
    if must {
      var x :| 0 <= x < |k| && k[x].look != a.kernels[i][x].look;
      var t :| t in k[x].look && t !in a.kernels[i][x].look;
      LooksInRange(g, a, i, k, x, t);
      assert b.kernels[i] == k;
      RoomUsed(g, a, b, i, x, t);
    } else {
      assert k == a.kernels[i];
    }
  }

  lemma FoundRegistered(g: Grammar, a: Auto, b: Auto, k0: seq<KItem>, k: seq<KItem>, s: Sym, i: nat)
    requires GoodAuto(g, a) && GoodAuto(g, b) && AutoExtends(a, b) && |a.kernels| == |b.kernels|
    requires SortedKernel(k) && ItemsOf(k) == ItemsOf(k0)
    requires 1 <= i < |a.kernels| && SameItems(a.kernels[i], k) && a.acc[i] == s
    ensures Registered(g, a, b, k0, s, i) && HasKernel(a.kernels, ItemsOf(k0))
  {
    GoodStateAt(g, a, i);
    GoodStateAt(g, b, i);
    SameItemsSameSet(a.kernels[i], k);
    assert SameItems(a.kernels[i], b.kernels[i]);
    SameItemsSameSet(a.kernels[i], b.kernels[i]);
    assert ItemsOf(a.kernels[i]) == ItemsOf(k0);
  }

  lemma MorePairs(was: seq<KItem>, k: seq<KItem>, grown: seq<KItem>)
    requires SameItems(was, k) && SameItems(was, grown) && forall x | 0 <= x < |grown| ::
               grown[x].look == was[x].look + k[x].look
    ensures PairsOf(grown) == PairsOf(was) + PairsOf(k)
  {
    assert forall x | 0 <= x < |k| :: k[x].item == was[x].item == grown[x].item;
  }

  ghost predicate AllJust(g: Grammar, ks: seq<seq<KItem>>) {
    forall j | 0 <= j < |ks| :: IsJust(g, ks[j])
  }

  lemma JustAdded(g: Grammar, ks: seq<seq<KItem>>, k: seq<KItem>)
    requires AllJust(g, ks) && IsJust(g, k)
    ensures AllJust(g, ks + [k])
  {
    hide IsJust;
  }

  /** The lookaheads of k, merged into state i, are still no more than LALR(1) asks for. */
  lemma JustMerged(g: Grammar, a: Auto, i: nat, k: seq<KItem>, grown: seq<KItem>)
    requires AllJust(g, a.kernels) && i < |a.kernels| && IsJust(g, k) && GoodAuto(g, a) && SameItems(a.kernels[i], k)
             && SortedKernel(k)
    requires SameItems(a.kernels[i], grown) && PairsOf(grown) == PairsOf(a.kernels[i]) + PairsOf(k)
    ensures AllJust(g, a.kernels[i := grown])
  {
    hide IsJust, PairsOf, ItemsOf;
    GoodStateAt(g, a, i);
    assert SortedKernel(grown);
    SameItemsSameSet(a.kernels[i], k);
    SameItemsSameSet(a.kernels[i], grown);
    JustUnion(g, a.kernels[i], k, grown);
  }

  lemma SamePairs(k: seq<KItem>, k': seq<KItem>)
    requires multiset(k) == multiset(k')
    ensures PairsOf(k) == PairsOf(k')
  {
    forall x | x in k ensures x in k' {
      assert x in multiset(k');
    }
    forall x | x in k' ensures x in k {
      assert x in multiset(k);
    }
    forall it, t ensures (it, t) in PairsOf(k) <==> (it, t) in PairsOf(k') {
      if (it, t) in PairsOf(k) {
        var j :| 0 <= j < |k| && k[j].item == it && t in k[j].look;
        assert k[j] in k;
      }
      if (it, t) in PairsOf(k') {
        var j :| 0 <= j < |k'| && k'[j].item == it && t in k'[j].look;
        assert k'[j] in k';
      }
    }
  }

  lemma AddedMarks(g: Grammar, a: Auto, b: Auto, ty: seq<int>)
    requires |b.kernels| == |a.kernels| + 1 <= NSTATES && |ty| == NSTATES && b.kernels[..|a.kernels|] == a.kernels
    ensures Marks(g, a, b, ty, ty[|a.kernels| := MUSTDO])
  {
  }

  lemma StaysSame(g: Grammar, a: Auto, ty: seq<int>)
    requires |ty| == NSTATES && |a.kernels| <= NSTATES && |a.acc| == |a.kernels|
    ensures AutoExtends(a, a) && Marks(g, a, a, ty, ty)
  {
  }

  lemma StartKernel()
    ensures ItemsOf([KItem(START, {})]) == {START}
    ensures PairsOf([KItem(START, {})]) == iset{}
  {
    var k := [KItem(START, {})];
    assert k[0].item in ItemsOf(k);
  }

  class Lalr {
    const g: Grammar
    var kernels: seq<seq<KItem>>
    var tystate: seq<int>
    var tstates: seq<int>
    var ntstates: seq<int>
    var mstates: seq<int>
    ghost var acc: seq<Sym>

    ghost function View(): Auto
      reads this
    {
      Auto(kernels, acc)
    }

    ghost predicate Valid()
      reads this
    {
      && g.Valid() && GoodAuto(g, View()) && Leads(View()) && |tystate| == NSTATES && AllJust(g, kernels)
      && Chained(g, acc, tstates, ntstates, mstates)
    }

    /** State 0: the kernel $accept: . start $end with no lookahead. */
    constructor (g: Grammar)
      requires g.Valid()
      ensures this.g == g && Valid() && |kernels| == 1 && tystate[0] == MUSTDO
              && forall j | 1 <= j < NSTATES :: tystate[j] == DONE
    {
      this.g := g;
      kernels := [[KItem(START, {})]];
      tystate := [MUSTDO] + seq(NSTATES - 1, _ => DONE);
      tstates := seq(g.ntokens + 1, _ => 0);
      ntstates := seq(g.nnonter + 1, _ => 0);
      mstates := seq(NSTATES, _ => 0);
      acc := [T(0)];
      new;
      StartKernel();
    }

    /** Union the lookaheads of k into state i. */
    method MergeLooks(i: nat, k: seq<KItem>)
      requires Valid() && i < |kernels| && SameItems(kernels[i], k) && GoodKernel(g, k) && SortedKernel(k)
               && IsJust(g, k)
      modifies this`kernels, this`tystate
      ensures Valid() && AutoExtends(old(View()), View()) && |kernels| == old(|kernels|)
      ensures Marks(g, old(View()), View(), old(tystate), tystate)
      ensures SameItems(old(kernels[i]), kernels[i]) && PairsOf(k) <= PairsOf(kernels[i])
      ensures |tystate| == |old(tystate)| > i && tystate == old(tystate)[i := tystate[i]]
    {
      hide AutoExtends, EnteredOn, Chained, Marks, SameItems, LookRoom, ItemsOf, Leads, AllJust, IsJust, PairsOf,
        SortedKernel;
      ghost var a, ty := View(), tystate;
      GoodStateAt(g, a, i);
      var grown, must := UnionLooks(g, kernels[i], k);
      MergedMarks(g, a, i, grown, must, ty);
      LeadsStay(a, Auto(a.kernels[i := grown], a.acc));
      MorePairs(a.kernels[i], k, grown);
      JustMerged(g, a, i, k, grown);
      kernels := kernels[i := grown];
      if must {
        tystate := tystate[i := MUSTDO];
      }
      assert View() == Auto(a.kernels[i := grown], a.acc);
    }

    /** A new state, first on the chain of s and still to be done. */
    method AddState(k: seq<KItem>, s: Sym)
      requires Valid() && FromGotoOn(g, k, s) && GoodState(g, k) && |kernels| + 1 < NSTATES && IsJust(g, k)
      requires forall j | 0 <= j < |kernels| :: !SameItems(kernels[j], k)
      requires |kernels| > 1 || Item(0, 1) in ItemsOf(k)
      modifies this
      ensures Valid() && kernels == old(kernels) + [k] && acc == old(acc) + [s] && AutoExtends(old(View()), View())
      ensures tystate == old(tystate)[old(|kernels|) := MUSTDO]
    {
      hide GoodAuto, GoodState, FromGotoOn, EnteredOn, AutoExtends, Chained, Leads, SameItems, ItemsOf, LastOn,
        AllJust, IsJust;
      AppendState(g, View(), k, s);
      JustAdded(g, kernels, k);
      ChainRange(g, acc, tstates, ntstates, mstates, s);
      ghost var ts, nts, ms := tstates, ntstates, mstates;
      mstates := mstates[|kernels| := Head(tstates, ntstates, s)];
      match s {
        case T(t) => tstates := tstates[t := |kernels|];
        case N(n) => ntstates := ntstates[n := |kernels|];
      }
      ChainPush(g, acc, ts, nts, ms, s, tstates, ntstates, mstates);
      tystate := tystate[|kernels| := MUSTDO];
      kernels := kernels + [k];
      acc := acc + [s];
    }

    /** state: sort the kernel k and find its state on the chain of s, or make it a new state.
        With nolook no state may be added. */
    method State(k0: seq<KItem>, s: Sym, nolook: bool) returns (ok: bool, i: nat)
      requires Valid() && FromGotoOn(g, k0, s) && (nolook || |kernels| > 1 || Item(0, 1) in ItemsOf(k0))
      requires nolook || IsJust(g, k0)
      modifies this
      ensures ok ==> Valid() && Registered(g, old(View()), View(), k0, s, i)
      ensures ok ==> Marks(g, old(View()), View(), old(tystate), tystate)
      ensures ok && !nolook ==> PairsOf(k0) <= PairsOf(kernels[i])
      ensures ok ==> |tystate| == |old(tystate)| > i && tystate == old(tystate)[i := tystate[i]]
      ensures nolook || !ok ==> unchanged(this)
      ensures ok <==> (!nolook && old(|kernels|) + 1 < NSTATES) || HasKernel(old(kernels), ItemsOf(k0))
    {
      hide GoodState, EnteredOn, AutoExtends, Marks, LookRoom, SameItems, ItemsOf, Leads, SortedKernel, AllJust, IsJust;
      ghost var a, ty := View(), tystate;
      var k := SortKernel(k0);
      SortedFromGoto(g, k0, k, s);
      SamePairs(k0, k);
      if !nolook {
        JustSame(g, k0, k);
      }
      ChainRange(g, acc, tstates, ntstates, mstates, s);
      i := Find(kernels, mstates, Head(tstates, ntstates, s), acc, k, s);
      if i != 0 {
        if nolook {
          StaysSame(g, a, ty);
        } else {
          MergeLooks(i, k);
        }
        FoundRegistered(g, a, View(), k0, k, s, i);
        return true, i;
      }
      NewOnChainIsNew(g, a, k, s);
      NoKernel(g, a, k);
      if nolook || |kernels| + 1 >= NSTATES {
        return false, 0;
      }
      i := |kernels|;
      AddState(k, s);
      AddedMarks(g, a, View(), ty);
      ok := true;
    }
  }

  ghost predicate HasKernel(ks: seq<seq<KItem>>, items: set<Item>) {
    exists j :: 0 <= j < |ks| && ItemsOf(ks[j]) == items
  }

  lemma NoKernel(g: Grammar, a: Auto, k: seq<KItem>)
    requires GoodAuto(g, a) && SortedKernel(k) && forall j | 0 <= j < |a.kernels| :: !SameItems(a.kernels[j], k)
    ensures !HasKernel(a.kernels, ItemsOf(k))
  {
    forall j | 0 <= j < |a.kernels| ensures ItemsOf(a.kernels[j]) != ItemsOf(k) {
      assert GoodState(g, a.kernels[j]);
      SameItemsSameSet(a.kernels[j], k);
    }
  }

  lemma ChainRange(g: Grammar, acc: seq<Sym>, ts: seq<int>, nts: seq<int>, ms: seq<int>, s: Sym)
    requires Chained(g, acc, ts, nts, ms) && g.InRange(s)
    ensures Head(ts, nts, s) == LastOn(acc, s, |acc|)
    ensures |ts| == g.ntokens + 1 && |nts| == g.nnonter + 1 && |ms| == NSTATES && |acc| <= NSTATES
    ensures forall j {:trigger ms[j]} | 1 <= j < |acc| :: ms[j] == LastOn(acc, acc[j], j)
  {
  }

  method Compare(a: seq<KItem>, b: seq<KItem>) returns (same: bool)
    ensures same <==> SameItems(a, b)
  {
    if |a| != |b| {
      return false;
    }
    var l := 0;
    while l < |a| && a[l].item == b[l].item
      invariant l <= |a| && forall x | 0 <= x < l :: a[x].item == b[x].item
    {
      l := l + 1;
    }
    same := l == |a|;
  }

  /** Follow the chain of s to a state with the items of k; 0 when there is none. */
  method Find(kernels: seq<seq<KItem>>, mstates: seq<int>, head: int, ghost acc: seq<Sym>, k: seq<KItem>, s: Sym)
    returns (i: nat)
    requires |acc| == |kernels| <= |mstates| && |acc| > 0 && head == LastOn(acc, s, |acc|)
    requires forall j {:trigger mstates[j]} | 1 <= j < |acc| :: mstates[j] == LastOn(acc, acc[j], j)
    ensures i < |kernels|
    ensures i != 0 ==> acc[i] == s && SameItems(kernels[i], k)
    ensures i == 0 ==> forall j | 1 <= j < |kernels| && acc[j] == s :: !SameItems(kernels[j], k)
  {
    i := head;
    ghost var m: nat := |acc|;
    while i != 0
      invariant m <= |acc| && i == LastOn(acc, s, m) && (i != 0 ==> i < m)
      invariant forall j | 1 <= j < |kernels| && m <= j && acc[j] == s :: !SameItems(kernels[j], k)
      decreases i
    {
      var same := Compare(kernels[i], k);
      if same {
        return;
      }
      m := i;
      i := mstates[i];
    }
  }

  method UnionLooks(g: Grammar, was: seq<KItem>, k: seq<KItem>) returns (grown: seq<KItem>, must: bool)
    requires SameItems(was, k) && GoodKernel(g, k) && GoodKernel(g, was)
    ensures SameItems(was, grown) && GoodKernel(g, grown)
    ensures forall x | 0 <= x < |grown| :: grown[x].look == was[x].look + k[x].look
    ensures must <==> exists x :: 0 <= x < |grown| && grown[x].look != was[x].look
  {
    grown, must := was, false;
    for l := 0 to |k|
      invariant |grown| == |was|
      invariant forall x | 0 <= x < l :: grown[x] == KItem(was[x].item, was[x].look + k[x].look)
      invariant forall x | l <= x < |grown| :: grown[x] == was[x]
      invariant must <==> exists x :: 0 <= x < l && grown[x].look != was[x].look
    {
      if !(k[l].look <= grown[l].look) {
        must := true;
        grown := grown[l := KItem(grown[l].item, grown[l].look + k[l].look)];
      } else {
        assert was[l].look + k[l].look == was[l].look;
      }
    }
  }
}
