/**
 Grammars as yacc holds them after reading its input, and parse trees, which
 give "derives" its meaning.
 */
module YaccGrammar {

  datatype Sym = T(t: nat) | N(n: nat)

  datatype Prod = Prod(lhs: nat, rhs: seq<Sym>)

  /** Tokens are 1..ntokens (1 is $end), nonterminals 0..nnonter (0 is $accept). */
  datatype Grammar = Grammar(ntokens: nat, nnonter: nat, prods: seq<Prod>)
  {
    predicate InRange(s: Sym) {
      match s
      case T(t) => 1 <= t <= ntokens
      case N(n) => 1 <= n <= nnonter
    }

    /** What setup and cpres accept: production 0 is $accept: start $end, every nonterminal has a production. */
    ghost predicate Valid() {
      && |prods| >= 2 && ntokens >= 3
      && prods[0].lhs == 0 && |prods[0].rhs| == 2 && prods[0].rhs[0].N? && prods[0].rhs[1] == T(1)
      && (forall p | 0 <= p < |prods| :: prods[p].lhs <= nnonter && (p > 0 ==> prods[p].lhs >= 1))
      && (forall p, k | 0 <= p < |prods| && 0 <= k < |prods[p].rhs| :: InRange(prods[p].rhs[k]))
      && (forall n | 0 <= n <= nnonter :: HasProd(n))
    }

    ghost predicate HasProd(n: nat) {
      exists p :: 0 <= p < |prods| && prods[p].lhs == n
    }
  }

  datatype Tree = Leaf(t: nat) | Node(prod: nat, kids: seq<Tree>)

  ghost predicate Fits(g: Grammar, s: Sym, tr: Tree)
    decreases tr
  {
    match tr
    case Leaf(t) => s == T(t)
    case Node(p, kids) =>
      && s.N? && p < |g.prods| && g.prods[p].lhs == s.n
      && |kids| == |g.prods[p].rhs|
      && forall k | 0 <= k < |kids| :: Fits(g, g.prods[p].rhs[k], kids[k])
  }

  function Yield(tr: Tree): seq<nat>
    decreases tr
  {
    match tr
    case Leaf(t) => [t]
    case Node(_, kids) => YieldAll(kids)
  }

  function YieldAll(kids: seq<Tree>): seq<nat>
    decreases kids
  {
    if kids == [] then [] else Yield(kids[0]) + YieldAll(kids[1..])
  }

  /** s derives some token string. */
  ghost predicate Generates(g: Grammar, s: Sym) {
    exists tr :: Fits(g, s, tr)
  }

  /** s derives the empty string. */
  ghost predicate Vanishes(g: Grammar, s: Sym) {
    exists tr :: Fits(g, s, tr) && Yield(tr) == []
  }

  /** s derives a token string that begins with t. */
  ghost predicate Begins(g: Grammar, s: Sym, t: nat) {
    exists tr :: Fits(g, s, tr) && Yield(tr) != [] && Yield(tr)[0] == t
  }

  ghost predicate FitsAll(g: Grammar, ss: seq<Sym>, kids: seq<Tree>) {
    |kids| == |ss| && forall k | 0 <= k < |ss| :: Fits(g, ss[k], kids[k])
  }

  lemma {:induction false} YieldConcat(a: seq<Tree>, b: seq<Tree>)
    ensures YieldAll(a + b) == YieldAll(a) + YieldAll(b)
  {
    if a == [] {
      assert a + b == b;
    } else {
      assert (a + b)[1..] == a[1..] + b;
      YieldConcat(a[1..], b);
    }
  }

  lemma {:induction false} KidsFor(g: Grammar, ss: seq<Sym>) returns (kids: seq<Tree>)
    requires forall s | s in ss :: Generates(g, s)
    ensures FitsAll(g, ss, kids)
  {
    if ss == [] {
      kids := [];
    } else {
      assert ss[0] in ss;
      var tr :| Fits(g, ss[0], tr);
      var rest := KidsFor(g, ss[1..]);
      kids := [tr] + rest;
    }
  }

  lemma {:induction false} EmptyKidsFor(g: Grammar, ss: seq<Sym>) returns (kids: seq<Tree>)
    requires forall s | s in ss :: Vanishes(g, s)
    ensures FitsAll(g, ss, kids) && YieldAll(kids) == []
  {
    if ss == [] {
      kids := [];
    } else {
      assert ss[0] in ss;
      var tr :| Fits(g, ss[0], tr) && Yield(tr) == [];
      var rest := EmptyKidsFor(g, ss[1..]);
      kids := [tr] + rest;
    }
  }

  /** A production whose right side vanishes up to k and generates afterwards begins with what symbol k begins with. */
  lemma BeginsUp(g: Grammar, p: nat, k: nat, t: nat)
    requires p < |g.prods| && k < |g.prods[p].rhs|
    requires forall j | 0 <= j < k :: Vanishes(g, g.prods[p].rhs[j])
    requires forall j | k < j < |g.prods[p].rhs| :: Generates(g, g.prods[p].rhs[j])
    requires Begins(g, g.prods[p].rhs[k], t)
    ensures Begins(g, N(g.prods[p].lhs), t)
  {
    var rhs := g.prods[p].rhs;
    var pre := EmptyKidsFor(g, rhs[..k]);
    var tr :| Fits(g, rhs[k], tr) && Yield(tr) != [] && Yield(tr)[0] == t;
    var post := KidsFor(g, rhs[k + 1..]);
    var kids := pre + ([tr] + post);
    YieldConcat(pre, [tr] + post);
    forall j | 0 <= j < |kids| ensures Fits(g, rhs[j], kids[j]) {
      if j < k {
        assert rhs[..k][j] == rhs[j];
      } else if j > k {
        assert rhs[k + 1..][j - k - 1] == rhs[j];
      }
    }
    assert Fits(g, N(g.prods[p].lhs), Node(p, kids));
  }

  /** The kid that yields the first token; everything to its left vanishes. */
  lemma {:induction false} FirstKid(g: Grammar, ss: seq<Sym>, kids: seq<Tree>) returns (k: nat)
    requires FitsAll(g, ss, kids) && YieldAll(kids) != []
    ensures k < |kids| && (forall j | 0 <= j < k :: Vanishes(g, ss[j]))
    ensures Yield(kids[k]) != [] && Yield(kids[k])[0] == YieldAll(kids)[0]
  {
    if Yield(kids[0]) != [] {
      k := 0;
    } else {
      assert Vanishes(g, ss[0]);
      var k' := FirstKid(g, ss[1..], kids[1..]);
      k := k' + 1;
      forall j | 0 <= j < k ensures Vanishes(g, ss[j]) {
        if j > 0 {
          assert ss[j] == ss[1..][j - 1];
        }
      }
    }
  }

  lemma {:induction false} EmptyYieldAll(kids: seq<Tree>, k: nat)
    requires YieldAll(kids) == [] && k < |kids|
    ensures Yield(kids[k]) == []
  {
    if k > 0 {
      EmptyYieldAll(kids[1..], k - 1);
    }
  }
}
