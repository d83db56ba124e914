/**
 cempty and cpfir: which nonterminals derive a token string, which derive the
 empty string, and which tokens can begin a derivation, each by a fixpoint loop
 over the productions.
 */
module YaccFirst {
  import opened YaccGrammar

  const WHOKNOWS: int := 0
  const OK: int := 1
  const EMPTY: int := 1

  ghost function Marked(pempty: seq<int>, mark: int): (s: set<int>)
    ensures forall n :: n in s <==> 0 <= n < |pempty| && pempty[n] == mark
  {
    if pempty == [] then {}
    else
      var s := Marked(pempty[..|pempty| - 1], mark);
      if pempty[|pempty| - 1] == mark then s + {|pempty| - 1} else s
  }

  lemma MarkShrinks(pempty: seq<int>, n: nat)
    requires n < |pempty| && pempty[n] == WHOKNOWS
    ensures Marked(pempty[n := OK], WHOKNOWS) < Marked(pempty, WHOKNOWS)
  {
    var a, b := Marked(pempty[n := OK], WHOKNOWS), Marked(pempty, WHOKNOWS);
    forall m | m in a ensures m in b {
      assert m != n && pempty[m] == pempty[n := OK][m];
    }
    assert n in b && n !in a;
  }

  /** What the first scan of cempty reads for production i. Production 0 ends in 0, not in a negative
      number, so its scan runs on through that 0 and the whole of production 1. */
  function Scanned(g: Grammar, i: nat): seq<Sym>
    requires |g.prods| >= 2 && i < |g.prods|
  {
    if i == 0 then g.prods[0].rhs + [T(0), N(g.prods[1].lhs)] + g.prods[1].rhs else g.prods[i].rhs
  }

  ghost predicate AllMarked(ss: seq<Sym>, pempty: seq<int>) {
    forall k | 0 <= k < |ss| :: ss[k].N? ==> ss[k].n < |pempty| && pempty[ss[k].n] == OK
  }

  // ---- cempty, first half: nonterminals that derive some token string ---------------------------

  method ScanKnown(ss: seq<Sym>, pempty: array<int>) returns (known: bool)
    requires forall k | 0 <= k < |ss| && ss[k].N? :: ss[k].n < pempty.Length && pempty[ss[k].n] in {WHOKNOWS, OK}
    ensures known <==> AllMarked(ss, pempty[..])
  {
    var p := 0;
    while p < |ss| && !(ss[p].N? && pempty[ss[p].n] == WHOKNOWS)
      invariant p <= |ss| && forall k | 0 <= k < p :: ss[k].N? ==> pempty[ss[k].n] == OK
    {
      p := p + 1;
    }
    known := p == |ss|;
  }

  method MarkGenerating(g: Grammar, pempty: array<int>)
    requires g.Valid() && pempty.Length == g.nnonter + 1
    modifies pempty
    ensures forall n | 1 <= n <= g.nnonter :: pempty[n] == OK <==> Generates(g, N(n))
  {
    for n := 0 to pempty.Length
      invariant forall m | 0 <= m < n :: pempty[m] == WHOKNOWS
    {
      pempty[n] := WHOKNOWS;
    }
    var i := 0;
    while i < |g.prods|
      invariant 0 <= i <= |g.prods|
      invariant forall n | 0 <= n <= g.nnonter :: pempty[n] in {WHOKNOWS, OK}
      invariant forall n | 0 <= n <= g.nnonter && pempty[n] == OK :: Generates(g, N(n))
      invariant forall j | 0 <= j < i :: pempty[g.prods[j].lhs] == OK || !AllMarked(Scanned(g, j), pempty[..])
      decreases Marked(pempty[..], WHOKNOWS), |g.prods| - i
    {
      var lhs := g.prods[i].lhs;
      if pempty[lhs] == WHOKNOWS {
        var known := ScanKnown(Scanned(g, i), pempty);
        if known {
          ghost var was := pempty[..];
          ScannedGenerates(g, i, was);
          pempty[lhs] := OK;
          MarkShrinks(was, lhs);
          assert pempty[..] == was[lhs := OK];
          i := 0;
          continue;
        }
      }
      i := i + 1;
    }
    forall n | 1 <= n <= g.nnonter && Generates(g, N(n)) ensures pempty[n] == OK {
      var tr :| Fits(g, N(n), tr);
      TreeRootsMarked(g, pempty[..], n, tr);
    }
  }

  lemma ScannedGenerates(g: Grammar, i: nat, pempty: seq<int>)
    requires g.Valid() && i < |g.prods| && |pempty| == g.nnonter + 1
    requires AllMarked(Scanned(g, i), pempty)
    requires forall n | 0 <= n <= g.nnonter && pempty[n] == OK :: Generates(g, N(n))
    ensures Generates(g, N(g.prods[i].lhs))
  {
    var rhs := g.prods[i].rhs;
    forall s | s in rhs ensures Generates(g, s) {
      var k :| 0 <= k < |rhs| && rhs[k] == s;
      assert Scanned(g, i)[k] == s;
      match s
      case T(t) => assert Fits(g, s, Leaf(t));
      case N(n) =>
    }
    var kids := KidsFor(g, rhs);
    assert Fits(g, N(g.prods[i].lhs), Node(i, kids));
  }

  lemma {:induction false} TreeRootsMarked(g: Grammar, pempty: seq<int>, n: nat, tr: Tree)
    requires g.Valid() && |pempty| == g.nnonter + 1 && 1 <= n <= g.nnonter && Fits(g, N(n), tr)
    requires forall j | 0 <= j < |g.prods| :: pempty[g.prods[j].lhs] == OK || !AllMarked(Scanned(g, j), pempty)
    ensures pempty[n] == OK
    decreases tr
  {
    var rhs := g.prods[tr.prod].rhs;
    assert Scanned(g, tr.prod) == rhs;
    forall k | 0 <= k < |rhs| && rhs[k].N? ensures pempty[rhs[k].n] == OK {
      assert g.InRange(rhs[k]);
      TreeRootsMarked(g, pempty, rhs[k].n, tr.kids[k]);
    }
    assert AllMarked(Scanned(g, tr.prod), pempty);
  }

  // ---- cempty, second half: nonterminals that derive the empty string ---------------------------

  ghost predicate AllEmpty(ss: seq<Sym>, pempty: seq<int>) {
    forall k | 0 <= k < |ss| :: ss[k].N? && ss[k].n < |pempty| && pempty[ss[k].n] == EMPTY
  }

  method ScanEmpty(ss: seq<Sym>, pempty: array<int>) returns (empty: bool)
    requires forall k | 0 <= k < |ss| && ss[k].N? :: ss[k].n < pempty.Length
    ensures empty <==> AllEmpty(ss, pempty[..])
  {
    var p := 0;
    while p < |ss| && ss[p].N? && pempty[ss[p].n] == EMPTY
      invariant p <= |ss| && forall k | 0 <= k < p :: ss[k].N? && pempty[ss[k].n] == EMPTY
    {
      p := p + 1;
    }
    empty := p == |ss|;
  }

  method MarkEmpty(g: Grammar, pempty: array<int>)
    requires g.Valid() && pempty.Length == g.nnonter + 1
    modifies pempty
    ensures forall n | 0 <= n <= g.nnonter :: pempty[n] in {WHOKNOWS, EMPTY}
                                              && (pempty[n] == EMPTY <==> Vanishes(g, N(n)))
  {
    for n := 0 to pempty.Length
      invariant forall m | 0 <= m < n :: pempty[m] == WHOKNOWS
    {
      pempty[n] := WHOKNOWS;
    }
    var i := 1;
    while i < |g.prods|
      invariant 1 <= i <= |g.prods|
      invariant forall n | 0 <= n <= g.nnonter :: pempty[n] in {WHOKNOWS, EMPTY}
      invariant forall n | 0 <= n <= g.nnonter && pempty[n] == EMPTY :: Vanishes(g, N(n))
      invariant forall j | 1 <= j < i :: pempty[g.prods[j].lhs] == EMPTY || !AllEmpty(g.prods[j].rhs, pempty[..])
      decreases Marked(pempty[..], WHOKNOWS), |g.prods| - i
    {
      var lhs := g.prods[i].lhs;
      if pempty[lhs] == WHOKNOWS {
        var empty := ScanEmpty(g.prods[i].rhs, pempty);
        if empty {
          ghost var was := pempty[..];
          forall s | s in g.prods[i].rhs ensures Vanishes(g, s) {
            assert was[s.n] == EMPTY;
          }
          var kids := EmptyKidsFor(g, g.prods[i].rhs);
          assert Fits(g, N(lhs), Node(i, kids));
          pempty[lhs] := EMPTY;
          MarkShrinks(was, lhs);
          assert pempty[..] == was[lhs := OK];
          i := 1;
          continue;
        }
      }
      i := i + 1;
    }
    forall n | 0 <= n <= g.nnonter && Vanishes(g, N(n)) ensures pempty[n] == EMPTY {
      var tr :| Fits(g, N(n), tr) && Yield(tr) == [];
      EmptyRootsMarked(g, pempty[..], n, tr);
    }
  }

  lemma {:induction false} EmptyRootsMarked(g: Grammar, pempty: seq<int>, n: nat, tr: Tree)
    requires g.Valid() && |pempty| == g.nnonter + 1 && n <= g.nnonter && Fits(g, N(n), tr) && Yield(tr) == []
    requires forall j | 1 <= j < |g.prods| :: pempty[g.prods[j].lhs] == EMPTY || !AllEmpty(g.prods[j].rhs, pempty)
    ensures pempty[n] == EMPTY
    decreases tr
  {
    var rhs := g.prods[tr.prod].rhs;
    forall k | 0 <= k < |rhs| ensures rhs[k].N? && pempty[rhs[k].n] == EMPTY {
      EmptyYieldAll(tr.kids, k);
      assert g.InRange(rhs[k]);
      EmptyRootsMarked(g, pempty, rhs[k].n, tr.kids[k]);
    }
    assert AllEmpty(rhs, pempty);
    assert tr.prod > 0 by {
      assert g.prods[0].rhs[1] == T(1);
    }
  }

  /** cempty: ok is false when yacc reports a nonterminal that never derives any token string. */
  method Cempty(g: Grammar, pempty: array<int>) returns (ok: bool)
    requires g.Valid() && pempty.Length == g.nnonter + 1
    modifies pempty
    ensures ok <==> forall n | 1 <= n <= g.nnonter :: Generates(g, N(n))
    ensures ok ==> forall n | 0 <= n <= g.nnonter :: pempty[n] in {WHOKNOWS, EMPTY}
                                                     && (pempty[n] == EMPTY <==> Vanishes(g, N(n)))
  {
    MarkGenerating(g, pempty);
    ok := true;
    for n := 1 to g.nnonter + 1
      invariant ok <==> forall m | 1 <= m < n :: Generates(g, N(m))
    {
      if pempty[n] != OK {
        ok := false;
      }
    }
    if ok {
      MarkEmpty(g, pempty);
    }
  }

  // ---- cpfir ---------------------------------------------------------------------------------

  /** Every token in a set really can begin its nonterminal. */
  ghost predicate Sound(g: Grammar, first: seq<set<nat>>) {
    forall n, t | 0 <= n < |first| && t in first[n] :: Begins(g, N(n), t)
  }

  /** The sets absorb what the symbol at position k of production p contributes. */
  ghost predicate Absorbs(g: Grammar, first: seq<set<nat>>, p: nat, k: nat)
    requires p < |g.prods| && k < |g.prods[p].rhs| && g.prods[p].lhs < |first|
  {
    match g.prods[p].rhs[k]
    case T(t) => t in first[g.prods[p].lhs]
    case N(c) => c < |first| && first[c] <= first[g.prods[p].lhs]
  }

  /** Symbol k of production p is reached by the scans of cpfir. */
  ghost predicate Reached(g: Grammar, pempty: seq<int>, p: nat, k: nat)
    requires p < |g.prods| && k <= |g.prods[p].rhs|
  {
    AllEmpty(g.prods[p].rhs[..k], pempty)
  }

  ghost predicate Ready(g: Grammar, pempty: seq<int>) {
    && g.Valid() && |pempty| == g.nnonter + 1
    && (forall n | 1 <= n <= g.nnonter :: Generates(g, N(n)))
    && (forall n | 0 <= n <= g.nnonter :: pempty[n] == EMPTY <==> Vanishes(g, N(n)))
  }

  lemma ContributionSound(g: Grammar, pempty: seq<int>, p: nat, k: nat, t: nat)
    requires Ready(g, pempty) && p < |g.prods| && k < |g.prods[p].rhs| && Reached(g, pempty, p, k)
    requires Begins(g, g.prods[p].rhs[k], t)
    ensures Begins(g, N(g.prods[p].lhs), t)
  {
    var rhs := g.prods[p].rhs;
    forall j | 0 <= j < k ensures Vanishes(g, rhs[j]) {
      assert rhs[..k][j] == rhs[j];
    }
    forall j | k < j < |rhs| ensures Generates(g, rhs[j]) {
      assert g.InRange(rhs[j]);
      match rhs[j]
      case T(u) => assert Fits(g, rhs[j], Leaf(u));
      case N(n) =>
    }
    BeginsUp(g, p, k, t);
  }

  lemma {:induction false} AbsorbingIsComplete(g: Grammar, pempty: seq<int>, first: seq<set<nat>>, n: nat, tr: Tree)
    requires Ready(g, pempty) && |first| == g.nnonter + 1 && n <= g.nnonter
    requires forall p, k | 0 <= p < |g.prods| && 0 <= k < |g.prods[p].rhs| && Reached(g, pempty, p, k) ::
               Absorbs(g, first, p, k)
    requires Fits(g, N(n), tr) && Yield(tr) != []
    ensures Yield(tr)[0] in first[n]
    decreases tr
  {
    var p := tr.prod;
    var rhs := g.prods[p].rhs;
    var k := FirstKid(g, rhs, tr.kids);
    forall j | 0 <= j < k ensures rhs[..k][j].N? && pempty[rhs[..k][j].n] == EMPTY {
      assert g.InRange(rhs[j]);
      var e :| Fits(g, rhs[j], e) && Yield(e) == [];
    }
    assert g.InRange(rhs[k]);
    assert Reached(g, pempty, p, k);
    assert Absorbs(g, first, p, k);
    if rhs[k].N? {
      AbsorbingIsComplete(g, pempty, first, rhs[k].n, tr.kids[k]);
    }
  }

  // The loops of cpfir.

  ghost function UpTo(n: nat): (s: set<nat>)
    ensures forall i: nat :: i in s <==> i <= n
  {
    if n == 0 then {0} else UpTo(n - 1) + {n}
  }

  ghost function Missing(g: Grammar, first: seq<set<nat>>): set<(nat, nat)> {
    set n, t | n in UpTo(g.nnonter) && t in UpTo(g.ntokens) && (n >= |first| || t !in first[n]) :: (n, t)
  }

  ghost predicate InTokens(g: Grammar, first: seq<set<nat>>) {
    forall n, t | 0 <= n < |first| && t in first[n] :: t <= g.ntokens
  }

  lemma GrowthShrinksMissing(g: Grammar, a: seq<set<nat>>, b: seq<set<nat>>)
    requires |a| == |b| == g.nnonter + 1 && a != b && InTokens(g, b)
    requires forall n | 0 <= n < |a| :: a[n] <= b[n]
    ensures Missing(g, b) < Missing(g, a)
  {
    var n :| 0 <= n < |a| && a[n] != b[n];
    var t :| t in b[n] && t !in a[n];
    assert (n, t) in Missing(g, a) && (n, t) !in Missing(g, b);
  }

  /** The first token of each right side that the scan reaches is in. */
  ghost predicate TokensIn(g: Grammar, pempty: seq<int>, first: seq<set<nat>>, p: nat)
    requires p < |g.prods| && g.prods[p].lhs < |first|
  {
    forall k | 0 <= k < |g.prods[p].rhs| && g.prods[p].rhs[k].T? && Reached(g, pempty, p, k) :: Absorbs(g, first, p, k)
  }

  ghost predicate AbsorbsAll(g: Grammar, pempty: seq<int>, first: seq<set<nat>>, p: nat)
    requires p < |g.prods| && g.prods[p].lhs < |first|
  {
    forall k | 0 <= k < |g.prods[p].rhs| && Reached(g, pempty, p, k) :: Absorbs(g, first, p, k)
  }

  lemma ReachedStep(g: Grammar, pempty: seq<int>, p: nat, k: nat)
    requires p < |g.prods| && k < |g.prods[p].rhs|
    ensures Reached(g, pempty, p, k + 1) <==>
            Reached(g, pempty, p, k) && g.prods[p].rhs[k].N? && g.prods[p].rhs[k].n < |pempty|
            && pempty[g.prods[p].rhs[k].n] == EMPTY
  {
    var rhs := g.prods[p].rhs;
    assert forall j | 0 <= j < k :: rhs[..k][j] == rhs[j] == rhs[..k + 1][j];
    assert rhs[..k + 1][k] == rhs[k];
  }

  lemma {:induction false} ReachedDown(g: Grammar, pempty: seq<int>, p: nat, k: nat, l: nat)
    requires p < |g.prods| && k <= l <= |g.prods[p].rhs| && Reached(g, pempty, p, l)
    ensures Reached(g, pempty, p, k)
  {
    if k < l {
      ReachedStep(g, pempty, p, l - 1);
      ReachedDown(g, pempty, p, k, l - 1);
    }
  }

  method InitialFirst(g: Grammar, pempty: array<int>, first: array<set<nat>>, p: nat)
    requires Ready(g, pempty[..]) && p < |g.prods| && first.Length == g.nnonter + 1
    requires Sound(g, first[..]) && InTokens(g, first[..])
    modifies first
    ensures Sound(g, first[..]) && InTokens(g, first[..])
    ensures forall n | 0 <= n < first.Length :: old(first[n]) <= first[n]
    ensures TokensIn(g, pempty[..], first[..], p)
  {
    ghost var em := pempty[..];
    var rhs, lhs := g.prods[p].rhs, g.prods[p].lhs;
    var k := 0;
    while k < |rhs|
      invariant k <= |rhs| && Reached(g, em, p, k)
      invariant first[..] == old(first[..])
      invariant forall j | 0 <= j < k :: rhs[j].N?
    {
      ReachedStep(g, em, p, k);
      assert g.InRange(rhs[k]);
      match rhs[k] {
        case T(t) =>
          assert Fits(g, rhs[k], Leaf(t)) && Yield(Leaf(t)) == [t];
          ContributionSound(g, em, p, k, t);
          first[lhs] := first[lhs] + {t};
          forall j | k < j < |rhs| ensures !Reached(g, em, p, j) {
            if Reached(g, em, p, j) {
              ReachedDown(g, em, p, k + 1, j);
            }
          }
          return;
        case N(c) =>
          if pempty[c] != EMPTY {
            forall j | k < j < |rhs| ensures !Reached(g, em, p, j) {
              if Reached(g, em, p, j) {
                ReachedDown(g, em, p, k + 1, j);
              }
            }
            return;
          }
      }
      k := k + 1;
    }
  }

  /** The set of the left side takes in that of symbol k of the right side. */
  method AbsorbSymbol(g: Grammar, first: array<set<nat>>, p: nat, k: nat, ghost em: seq<int>) returns (grew: bool)
    requires Ready(g, em) && p < |g.prods| && k < |g.prods[p].rhs| && g.prods[p].rhs[k].N? && Reached(g, em, p, k)
    requires first.Length == g.nnonter + 1 && Sound(g, first[..]) && InTokens(g, first[..])
             && g.InRange(g.prods[p].rhs[k])
    modifies first
    ensures Sound(g, first[..]) && InTokens(g, first[..]) && Absorbs(g, first[..], p, k)
    ensures (forall n | 0 <= n < first.Length :: old(first[n]) <= first[n]) && (grew <==> first[..] != old(first[..]))
  {
    var lhs, c := g.prods[p].lhs, g.prods[p].rhs[k].n;
    grew := false;
    if !(first[c] <= first[lhs]) {
      forall t | t in first[c] ensures Begins(g, N(lhs), t) {
        ContributionSound(g, em, p, k, t);
      }
      ghost var was := first[..];
      first[lhs] := first[lhs] + first[c];
      grew := true;
      assert first[..][lhs] != was[lhs];
    }
  }

  lemma StillAbsorbs(g: Grammar, a: seq<set<nat>>, b: seq<set<nat>>, c: seq<set<nat>>, p: nat, k: nat,
                     changed: bool, grew: bool)
    requires |a| == |b| == |c| && (changed <==> b != a) && (grew <==> c != b)
    requires (forall n | 0 <= n < |a| :: a[n] <= b[n]) && forall n | 0 <= n < |a| :: b[n] <= c[n]
    ensures (changed || grew <==> c != a) && forall n | 0 <= n < |a| :: a[n] <= c[n]
  {
    if c == a {
      assert forall n | 0 <= n < |a| :: b[n] == a[n];
      assert b == a;
    }
  }

  /** One production's share of the transitive pass; changed says whether a set grew. */
  method Absorb(g: Grammar, pempty: array<int>, first: array<set<nat>>, p: nat) returns (changed: bool)
    requires Ready(g, pempty[..]) && p < |g.prods| && first.Length == g.nnonter + 1
    requires Sound(g, first[..]) && InTokens(g, first[..]) && TokensIn(g, pempty[..], first[..], p)
    modifies first
    ensures Sound(g, first[..]) && InTokens(g, first[..])
    ensures forall n | 0 <= n < first.Length :: old(first[n]) <= first[n]
    ensures changed <==> first[..] != old(first[..])
    ensures !changed ==> AbsorbsAll(g, pempty[..], first[..], p)
  {
    ghost var em := pempty[..];
    var rhs, lhs := g.prods[p].rhs, g.prods[p].lhs;
    changed := false;
    var k := 0;
    while k < |rhs| && rhs[k].N?
      invariant k <= |rhs| && Reached(g, em, p, k)
      invariant Sound(g, first[..]) && InTokens(g, first[..])
      invariant forall n | 0 <= n < first.Length :: old(first[n]) <= first[n]
      invariant changed <==> first[..] != old(first[..])
      invariant !changed ==> forall j | 0 <= j < k :: Absorbs(g, first[..], p, j)
    {
      ReachedStep(g, em, p, k);
      assert g.InRange(rhs[k]);
      var c := rhs[k].n;
      ghost var was := first[..];
      var grew := AbsorbSymbol(g, first, p, k, em);
      StillAbsorbs(g, old(first[..]), was, first[..], p, k, changed, grew);
      changed := changed || grew;
      if pempty[c] != EMPTY {
        break;
      }
      k := k + 1;
    }
    forall j | 0 <= j < |rhs| && !changed && Reached(g, em, p, j) ensures Absorbs(g, first[..], p, j) {
      if j > k {
        ReachedDown(g, em, p, k + 1, j);
        ReachedStep(g, em, p, k);
      }
    }
  }

  lemma TokensStay(g: Grammar, pempty: seq<int>, a: seq<set<nat>>, b: seq<set<nat>>)
    requires g.Valid() && |a| == |b| == g.nnonter + 1 && forall n | 0 <= n < |a| :: a[n] <= b[n]
    ensures forall p | 0 <= p < |g.prods| && TokensIn(g, pempty, a, p) :: TokensIn(g, pempty, b, p)
  {
    forall p | 0 <= p < |g.prods| && TokensIn(g, pempty, a, p) ensures TokensIn(g, pempty, b, p) {
      forall k | 0 <= k < |g.prods[p].rhs| && g.prods[p].rhs[k].T? && Reached(g, pempty, p, k)
        ensures Absorbs(g, b, p, k)
      {
        assert Absorbs(g, a, p, k);
      }
    }
  }

  method FillFirst(g: Grammar, pempty: array<int>, first: array<set<nat>>)
    requires Ready(g, pempty[..]) && first.Length == g.nnonter + 1
    modifies first
    ensures Sound(g, first[..]) && InTokens(g, first[..])
    ensures forall p | 0 <= p < |g.prods| :: TokensIn(g, pempty[..], first[..], p)
  {
    ghost var em := pempty[..];
    for n := 0 to first.Length
      invariant forall m | 0 <= m < n :: first[m] == {}
    {
      first[n] := {};
    }
    for n := 0 to first.Length
      invariant Sound(g, first[..]) && InTokens(g, first[..])
      invariant forall p | 0 <= p < |g.prods| && g.prods[p].lhs < n :: TokensIn(g, em, first[..], p)
    {
      for p := 0 to |g.prods|
        invariant Sound(g, first[..]) && InTokens(g, first[..])
        invariant forall q | 0 <= q < |g.prods| && (g.prods[q].lhs < n || (q < p && g.prods[q].lhs == n)) ::
                    TokensIn(g, em, first[..], q)
      {
        if g.prods[p].lhs == n {
          ghost var was := first[..];
          InitialFirst(g, pempty, first, p);
          TokensStay(g, em, was, first[..]);
        }
      }
    }
  }

  /** A pass over all productions; without changes every set has absorbed everything. */
  method TransitivePass(g: Grammar, pempty: array<int>, first: array<set<nat>>) returns (changes: bool)
    requires Ready(g, pempty[..]) && first.Length == g.nnonter + 1
    requires Sound(g, first[..]) && InTokens(g, first[..])
    requires forall p | 0 <= p < |g.prods| :: TokensIn(g, pempty[..], first[..], p)
    modifies first
    ensures Sound(g, first[..]) && InTokens(g, first[..])
    ensures forall p | 0 <= p < |g.prods| :: TokensIn(g, pempty[..], first[..], p)
    ensures forall n | 0 <= n < first.Length :: old(first[n]) <= first[n]
    ensures changes <==> first[..] != old(first[..])
    ensures !changes ==> forall p | 0 <= p < |g.prods| :: AbsorbsAll(g, pempty[..], first[..], p)
  {
    ghost var em := pempty[..];
    changes := false;
    for n := 0 to first.Length
      invariant Sound(g, first[..]) && InTokens(g, first[..])
      invariant forall p | 0 <= p < |g.prods| :: TokensIn(g, em, first[..], p)
      invariant forall m | 0 <= m < first.Length :: old(first[m]) <= first[m]
      invariant changes <==> first[..] != old(first[..])
      invariant !changes ==> forall p | 0 <= p < |g.prods| && g.prods[p].lhs < n :: AbsorbsAll(g, em, first[..], p)
    {
      for p := 0 to |g.prods|
        invariant Sound(g, first[..]) && InTokens(g, first[..])
        invariant forall q | 0 <= q < |g.prods| :: TokensIn(g, em, first[..], q)
        invariant forall m | 0 <= m < first.Length :: old(first[m]) <= first[m]
        invariant changes <==> first[..] != old(first[..])
        invariant !changes ==> forall q | 0 <= q < |g.prods|
                               && (g.prods[q].lhs < n || (q < p && g.prods[q].lhs == n)) ::
                                 AbsorbsAll(g, em, first[..], q)
      {
        if g.prods[p].lhs == n {
          ghost var was := first[..];
          var changed := Absorb(g, pempty, first, p);
          TokensStay(g, em, was, first[..]);
          StillChanged(old(first[..]), was, first[..]);
          changes := changes || changed;
        }
      }
    }
  }

  lemma StillChanged(a: seq<set<nat>>, b: seq<set<nat>>, c: seq<set<nat>>)
    requires |a| == |b| == |c|
    requires forall m | 0 <= m < |a| :: a[m] <= b[m] <= c[m]
    ensures a == c <==> a == b && b == c
  {
    if a == c {
      forall m | 0 <= m < |a| ensures a[m] == b[m] {
        assert a[m] <= b[m] <= c[m];
      }
    }
  }

  /** cpfir: exactly the tokens that can begin a string derived from each nonterminal. */
  method Cpfir(g: Grammar, pempty: array<int>) returns (first: array<set<nat>>)
    requires Ready(g, pempty[..])
    ensures fresh(first) && first.Length == g.nnonter + 1
    ensures forall n, t | 0 <= n <= g.nnonter :: t in first[n] <==> Begins(g, N(n), t)
    ensures InTokens(g, first[..])
  {
    first := new set<nat>[g.nnonter + 1](_ => {});
    FillFirst(g, pempty, first);
    ghost var em := pempty[..];
    var changes := true;
    while changes
      invariant pempty[..] == em
      invariant Sound(g, first[..]) && InTokens(g, first[..])
      invariant forall p | 0 <= p < |g.prods| :: TokensIn(g, em, first[..], p)
      invariant !changes ==> forall p | 0 <= p < |g.prods| :: AbsorbsAll(g, em, first[..], p)
      decreases Missing(g, first[..]), changes
    {
      ghost var was := first[..];
      changes := TransitivePass(g, pempty, first);
      if changes {
        GrowthShrinksMissing(g, was, first[..]);
      }
    }
    forall n, t | 0 <= n <= g.nnonter && Begins(g, N(n), t) ensures t in first[n] {
      var tr :| Fits(g, N(n), tr) && Yield(tr) != [] && Yield(tr)[0] == t;
      forall p, k | 0 <= p < |g.prods| && 0 <= k < |g.prods[p].rhs| && Reached(g, em, p, k)
        ensures Absorbs(g, first[..], p, k)
      {
        assert AbsorbsAll(g, em, first[..], p);
      }
      AbsorbingIsComplete(g, em, first[..], n, tr);
    }
  }
}
