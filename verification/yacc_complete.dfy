/**
 Which input the parser accepts: when every state passes its lookaheads on and no two actions compete, every
 sentence of the grammar is parsed to its end.
 */
module YaccComplete {
  import opened YaccPack
  import opened YaccAction
  import opened YaccDriver
  import opened YaccGrammar
  import opened YaccClosure
  import opened YaccKernels
  import opened YaccStates
  import opened YaccStagen
  import opened YaccGotos
  import opened YaccViable
  import opened YaccSound

  /** State i has passed the lookahead t of an item before s on to the state it goes to. */
  ghost predicate Sent(g: Grammar, a: Auto, i: int, it: Item, s: Sym, t: nat) {
    exists j :: GoesTo(g, a, i, s, j) && Looks(g, a, j, Advance(it), t)
  }

  ghost predicate AllSent(g: Grammar, a: Auto) {
    forall i, it, s, t | Looks(g, a, i, it, t) && Moves(g, it, s) && s != T(1) :: Sent(g, a, i, it, s, t)
  }

  /** The row of state i shifts wherever the state moves on a token, and reduces on every lookahead of a complete
      item. */
  ghost predicate Serves(g: Grammar, a: Auto, i: int, row: seq<int>) {
    && |row| == g.ntokens + 1
    && (forall c, j | 2 <= c <= g.ntokens && GoesTo(g, a, i, T(c), j) :: row[c] == j)
    && (forall r: nat, t: nat | 1 <= r < |g.prods| && 1 <= t <= g.ntokens
        && Looks(g, a, i, Item(r, |g.prods[r].rhs|), t) :: row[t] + r == 0)
    && (i == 1 ==> |row| > 1 && row[1] == ACCEPTCODE)
  }

  ghost predicate Working(g: Grammar, a: Auto, p: Plain) {
    && GoodPlain(g, a, p) && Leads(a) && AllSent(g, a) && (forall i | 0 <= i < |a.kernels| :: Expanded(g, a, i))
    && forall i | 0 <= i < |p.actions| :: Serves(g, a, i, p.actions[i])
  }

  // ---- Steps of the parser ------------------------------------------------------------------------------

  /** Running without an error, with this stack, about to see token k of the input. */
  ghost predicate Ready(input: nat -> int, m: Machine, stack: seq<int>, k: nat) {
    && m.status == Running && m.stack == stack && m.nerrs == 0 && m.errflag == 0
    && m.pos == k + (if m.tok >= 0 then 1 else 0) && (m.tok >= 0 ==> m.tok == input(k)) && m.tok >= -1
  }

  /** The stack of the parser is full, and there has been no error. */
  predicate Full(m: Machine) {
    m.status == Aborted && m.nerrs == 0 && |m.stack| >= YYMAXDEPTH
  }

  lemma PushReady(input: nat -> int, m: Machine, stack: seq<int>, k: nat, j: int)
    requires Ready(input, m, stack, k)
    ensures Full(Push(m, j)) || Ready(input, Push(m, j), stack + [j], k)
  {
  }

  lemma StepShift(p: Plain, ntokens: nat, input: nat -> int, m: Machine, stack: seq<int>, k: nat)
    requires p.Valid(ntokens) && Good(p, ntokens, m) && Ready(input, m, stack, k)
             && forall i :: 1 <= input(i) <= ntokens
    requires stack != [] && 0 <= stack[|stack| - 1] < |p.actions| && IsShift(p.actions[stack[|stack| - 1]][input(k)])
    ensures var x := PlainStep(p, ntokens, input, m);
            Full(x) || Ready(input, x, stack + [p.actions[stack[|stack| - 1]][input(k)]], k + 1)
  {
    var s := stack[|stack| - 1];
    assert s in m.stack;
    assert p.HasShift(s);
    var m' := Lex(input, m);
    assert m'.tok == input(k);
    PushReady(input, m'.(tok := -1), stack, k + 1, p.actions[s][input(k)]);
  }

  /** On a token whose entry is no shift, the default section answers what the entry says, seen or not. */
  lemma StepDefault(p: Plain, ntokens: nat, input: nat -> int, m: Machine, stack: seq<int>, k: nat)
    returns (m': Machine)
    requires p.Valid(ntokens) && Good(p, ntokens, m) && Ready(input, m, stack, k)
             && forall i :: 1 <= input(i) <= ntokens
    requires stack != [] && 0 <= stack[|stack| - 1] < |p.actions|
    requires var v := p.actions[stack[|stack| - 1]][input(k)]; v == ACCEPTCODE || v < 0
    ensures Ready(input, m', stack, k)
    ensures forall s | s in stack :: 0 <= s < |p.actions|
    ensures var v := p.actions[stack[|stack| - 1]][input(k)];
            && (v < 0 ==> PlainStep(p, ntokens, input, m) == PlainReduce(p, ntokens, m', -v))
            && (v == ACCEPTCODE ==> PlainStep(p, ntokens, input, m) == m'.(status := Accepted) && m'.tok >= 0)
  {
    hide PlainReduce, PlainError;
    var s := stack[|stack| - 1];
    assert s in m.stack;
    var v := p.actions[s][input(k)];
    var m0 := if p.HasShift(s) then Lex(input, m) else m;
    m' := if p.NeedsToken(s) then Lex(input, m0) else m0;
    assert !p.NeedsToken(s) ==> !Excepted(v, p.lastred[s]);
  }

  /** A reduction whose right side is on the stack. */
  lemma StepReduce(g: Grammar, a: Auto, p: Plain, input: nat -> int, m: Machine, base: seq<int>, stack: seq<int>,
                   k: nat, r: nat)
    requires GoodPlain(g, a, p) && Good(p, g.ntokens, m) && Ready(input, m, stack, k)
             && forall i :: 1 <= input(i) <= g.ntokens
    requires 1 <= r < |g.prods| && base != [] && |stack| == |base| + |g.prods[r].rhs| && stack[..|base|] == base
             && Path(g, a, stack)
    requires p.actions[stack[|stack| - 1]][input(k)] + r == 0
             && Goto(g, KSet(a, base[|base| - 1]), N(g.prods[r].lhs)) != {}
    ensures var x, j := PlainStep(p, g.ntokens, input, m), p.cols[g.prods[r].lhs][base[|base| - 1]];
            GoesTo(g, a, base[|base| - 1], N(g.prods[r].lhs), j) && (Full(x) || Ready(input, x, base + [j], k))
  {
    hide GoodAuto, GoodRow, PlainStep, KSet, Goto, Edge;
    var m' := StepDefault(p, g.ntokens, input, m, stack, k);
    var c := g.prods[r].lhs;
    assert IsColumn(g, a, c, p.cols[c]);
    var q := base[|base| - 1];
    assert q == stack[|base| - 1];
    var j := p.cols[c][q];
    assert GoesTo(g, a, q, N(c), j);
    PushReady(input, m'.(stack := base), base, k, j);
  }

  // ---- What comes next -------------------------------------------------------------------------------------

  /** The input from k on begins with y, which has no $end in it. */
  ghost predicate Comes(input: nat -> int, k: nat, y: seq<nat>) {
    forall i | 0 <= i < |y| :: input(k + i) == y[i] && y[i] != 1
  }

  ghost function LookSet(g: Grammar, a: Auto, i: int, it: Item): iset<nat> {
    iset t | Looks(g, a, i, it, t)
  }

  /** The token behind a symbol is the first of the trees that follow it, or the lookahead if they yield nothing. */
  lemma NextIsPassed(g: Grammar, ss: seq<Sym>, kids: seq<Tree>, ws: iset<nat>, t: nat)
    requires FitsAll(g, ss, kids) && t in ws
    ensures var b := if YieldAll(kids) != [] then YieldAll(kids)[0] else t;
            CanStart(g, ss, b) || (AllVanish(g, ss) && b in ws)
  {
    if YieldAll(kids) != [] {
      var k := FirstKid(g, ss, kids);
      assert AllVanish(g, ss[..k]) && Begins(g, ss[k], YieldAll(kids)[0]);
    } else {
      forall k | 0 <= k < |ss| ensures Vanishes(g, ss[k]) {
        EmptyYieldAll(kids, k);
        assert YaccGrammar.Fits(g, ss[k], kids[k]);
      }
    }
  }

  /** What an item passes on is a lookahead of the productions behind its dot. */
  lemma PassedIsLook(g: Grammar, a: Auto, i: int, it: Item, c: nat, r: nat, b: nat)
    requires 0 <= i < |a.kernels| && InClosure(g, KSet(a, i), it) && Before(g, it, c) && r < |g.prods|
             && g.prods[r].lhs == c
    requires Passes(g, it, LookSet(g, a, i, it), b)
    ensures Looks(g, a, i, Item(r, 0), b)
  {
    ClosureStep(g, KSet(a, i), it, c, r);
    var kernel, kps := KSet(a, i), PairsOf(a.kernels[i]);
    forall ps: iset<(Item, nat)> | LookClosed(g, kernel, ps) && kps <= ps ensures (Item(r, 0), b) in ps {
      assert forall t | t in LookSet(g, a, i, it) :: (it, t) in ps;
      assert Passes(g, it, LookOf(ps, it), b);
    }
  }

  lemma YieldSplit(kids: seq<Tree>, d: nat)
    requires d < |kids|
    ensures YieldAll(kids[d..]) == Yield(kids[d]) + YieldAll(kids[d + 1..])
  {
    assert kids[d..][1..] == kids[d + 1..];
  }

  lemma PathMore(g: Grammar, a: Auto, stack: seq<int>, s: Sym, j: int)
    requires Path(g, a, stack) && GoesTo(g, a, stack[|stack| - 1], s, j)
    ensures Path(g, a, stack + [j])
  {
    PushOnPath(g, a, Machine(stack, -1, 0, 0, 0, Running), s, j);
    var more := stack + [j];
    forall k | 0 <= k < |more| - 1 ensures Edge(g, a, more[k], more[k + 1]) {
      if k < |stack| - 1 {
        assert Edge(g, a, stack[k], stack[k + 1]);
      }
    }
  }

  // ---- A tree is parsed ------------------------------------------------------------------------------------

  /** The run has parsed its way to this stack, with token k next, or its stack is full. */
  ghost predicate Reaches(g: Grammar, p: Plain, input: nat -> int, n: nat, stack: seq<int>, k: nat)
    requires p.Valid(g.ntokens) && |p.actions| > 0 && forall i :: 1 <= input(i) <= g.ntokens
  {
    Full(PlainRun(p, g.ntokens, input, n)) || Ready(input, PlainRun(p, g.ntokens, input, n), stack, k)
  }

  lemma NextRun(p: Plain, ntokens: nat, input: nat -> int, n: nat)
    requires p.Valid(ntokens) && |p.actions| > 0 && forall i :: 1 <= input(i) <= ntokens
    ensures Good(p, ntokens, PlainRun(p, ntokens, input, n))
    ensures PlainRun(p, ntokens, input, n).status == Running ==>
              PlainRun(p, ntokens, input, n + 1) == PlainStep(p, ntokens, input, PlainRun(p, ntokens, input, n))
  {
  }

  /** A token that the state moves on is shifted. */
  lemma ParseToken(g: Grammar, a: Auto, p: Plain, input: nat -> int, n: nat, stack: seq<int>, k: nat, j: int)
    requires Working(g, a, p) && forall i :: 1 <= input(i) <= g.ntokens
    requires p.Valid(g.ntokens) && |p.actions| > 0 && Ready(input, PlainRun(p, g.ntokens, input, n), stack, k)
    requires Path(g, a, stack) && input(k) >= 2 && GoesTo(g, a, stack[|stack| - 1], T(input(k)), j)
    ensures Reaches(g, p, input, n + 1, stack + [j], k + 1)
  {
    hide PlainStep, PlainRun, GoodAuto, KSet, Goto, Edge, AllSent, Expanded, Leads;
    assert Serves(g, a, stack[|stack| - 1], p.actions[stack[|stack| - 1]]);
    StateNumber(g, a, stack[|stack| - 1], T(input(k)), j);
    NextRun(p, g.ntokens, input, n);
    StepShift(p, g.ntokens, input, PlainRun(p, g.ntokens, input, n), stack, k);
  }

  lemma StateNumber(g: Grammar, a: Auto, i: int, s: Sym, j: int)
    requires GoodAuto(g, a) && GoesTo(g, a, i, s, j)
    ensures IsShift(j)
  {
  }

  /** One symbol behind the dot: its tree is read, and the stack grows by the state that the symbol leads to. */
  lemma {:induction false} ParseNode(g: Grammar, a: Auto, p: Plain, input: nat -> int, n: nat, stack: seq<int>, k: nat,
                                     it: Item, x: Sym, tree: Tree)
    returns (n': nat, j: int)
    requires Working(g, a, p) && (forall i :: 1 <= input(i) <= g.ntokens) && p.Valid(g.ntokens) && |p.actions| > 0
    requires Ready(input, PlainRun(p, g.ntokens, input, n), stack, k) && Path(g, a, stack)
    requires InClosure(g, KSet(a, stack[|stack| - 1]), it) && Moves(g, it, x)
    requires YaccGrammar.Fits(g, x, tree) && Comes(input, k, Yield(tree))
    requires x.N? ==> Passes(g, it, LookSet(g, a, stack[|stack| - 1], it), input(k + |Yield(tree)|))
    ensures GoesTo(g, a, stack[|stack| - 1], x, j) && Reaches(g, p, input, n', stack + [j], k + |Yield(tree)|)
    decreases tree, 1, 0
  {
    hide PlainStep, PlainRun, GoodAuto, GoodPlain, AllSent, Expanded, Leads, InClosure, LookSet, Looks, Goto, KSet,
      Serves, Edge, Comes, Yield;
    var q := stack[|stack| - 1];
    match tree
    case Leaf(c) =>
      LeafComes(input, k, c);
      j := MovesTo(g, a, p, q, it, x);
      ParseToken(g, a, p, input, n, stack, k, j);
      n' := n + 1;
    case Node(r, kids) =>
      n', j := ParseProduction(g, a, p, input, n, stack, k, it, r, kids);
  }

  lemma LeafComes(input: nat -> int, k: nat, c: nat)
    requires Comes(input, k, Yield(Leaf(c))) && input(k) >= 1
    ensures Yield(Leaf(c)) == [c] && input(k) == c && c >= 2
  {
    assert Yield(Leaf(c)) == [c];
    assert input(k + 0) == [c][0];
  }

  lemma MovesTo(g: Grammar, a: Auto, p: Plain, q: int, it: Item, x: Sym) returns (j: int)
    requires Working(g, a, p) && 0 <= q < |a.kernels| && InClosure(g, KSet(a, q), it) && Moves(g, it, x) && x != T(1)
    ensures GoesTo(g, a, q, x, j)
  {
    InGoto(g, KSet(a, q), x, it);
    assert Expanded(g, a, q);
    j :| GoesTo(g, a, q, x, j);
  }

  /** A nonterminal: its production is read to the end and reduced. */
  lemma {:induction false} ParseProduction(g: Grammar, a: Auto, p: Plain, input: nat -> int, n: nat, stack: seq<int>,
                                           k: nat, it: Item, r: nat, kids: seq<Tree>)
    returns (n': nat, j: int)
    requires Working(g, a, p) && (forall i :: 1 <= input(i) <= g.ntokens) && p.Valid(g.ntokens) && |p.actions| > 0
    requires Ready(input, PlainRun(p, g.ntokens, input, n), stack, k) && Path(g, a, stack) && r < |g.prods|
    requires InClosure(g, KSet(a, stack[|stack| - 1]), it) && Moves(g, it, N(g.prods[r].lhs))
    requires YaccGrammar.Fits(g, N(g.prods[r].lhs), Node(r, kids)) && Comes(input, k, Yield(Node(r, kids)))
    requires Passes(g, it, LookSet(g, a, stack[|stack| - 1], it), input(k + |Yield(Node(r, kids))|))
    ensures GoesTo(g, a, stack[|stack| - 1], N(g.prods[r].lhs), j)
            && Reaches(g, p, input, n', stack + [j], k + |Yield(Node(r, kids))|)
    decreases Node(r, kids), 0, |kids| + 1
  {
    hide PlainStep, PlainRun, GoodAuto, GoodPlain, AllSent, Expanded, Leads, InClosure, LookSet, Goto, KSet, Serves,
      Edge, Comes;
    var q, c, t := stack[|stack| - 1], g.prods[r].lhs, input(k + |Yield(Node(r, kids))|);
    PassedIsLook(g, a, q, it, c, r, t);
    assert kids[0..] == kids;
    var stack';
    n', stack' := ParseKids(g, a, p, input, n, stack, stack, k, r, 0, kids, t);
    j := MovesTo(g, a, p, q, it, N(c));
    if !Full(PlainRun(p, g.ntokens, input, n')) {
      IsGoodPlain(g, a, p);
      RealProduction(g, it, r);
      RowReduces(g, a, p, stack'[|stack'| - 1], r, t);
      GotoHere(g, a, q, it, N(c));
      NextRun(p, g.ntokens, input, n');
      StepReduce(g, a, p, input, PlainRun(p, g.ntokens, input, n'), stack, stack', k + |YieldAll(kids)|, r);
      OneGoto(g, a, q, N(c), j, p.cols[c][q]);
      n' := n' + 1;
    }
  }

  lemma RealProduction(g: Grammar, it: Item, r: nat)
    requires g.Valid() && r < |g.prods| && Moves(g, it, N(g.prods[r].lhs))
    ensures r >= 1
  {
    assert g.InRange(g.prods[it.prod].rhs[it.dot]);
  }

  lemma RowReduces(g: Grammar, a: Auto, p: Plain, i: int, r: nat, t: nat)
    requires Working(g, a, p) && 1 <= r < |g.prods| && Looks(g, a, i, Item(r, |g.prods[r].rhs|), t)
             && 1 <= t <= g.ntokens
    ensures 0 <= i < |p.actions| && t < |p.actions[i]| && p.actions[i][t] + r == 0
  {
    assert Serves(g, a, i, p.actions[i]);
  }

  lemma GotoHere(g: Grammar, a: Auto, q: int, it: Item, x: Sym)
    requires 0 <= q < |a.kernels| && InClosure(g, KSet(a, q), it) && Moves(g, it, x)
    ensures Goto(g, KSet(a, q), x) != {}
  {
    InGoto(g, KSet(a, q), x, it);
  }

  lemma IsGoodPlain(g: Grammar, a: Auto, p: Plain)
    requires Working(g, a, p)
    ensures GoodPlain(g, a, p) && GoodAuto(g, a) && g.Valid()
  {
  }

  /** The trees of a right side from d on. */
  lemma {:induction false} ParseKids(g: Grammar, a: Auto, p: Plain, input: nat -> int, n: nat, base: seq<int>,
                                     stack: seq<int>, k: nat,
                                     r: nat, d: nat, kids: seq<Tree>, t: nat)
    returns (n': nat, stack': seq<int>)
    requires Working(g, a, p) && (forall i :: 1 <= input(i) <= g.ntokens) && p.Valid(g.ntokens) && |p.actions| > 0
    requires Ready(input, PlainRun(p, g.ntokens, input, n), stack, k) && Path(g, a, stack) && base != []
    requires r < |g.prods| && d <= |kids| == |g.prods[r].rhs| && |stack| == |base| + d && stack[..|base|] == base
    requires Looks(g, a, stack[|stack| - 1], Item(r, d), t) && FitsAll(g, g.prods[r].rhs, kids)
    requires Comes(input, k, YieldAll(kids[d..])) && t == input(k + |YieldAll(kids[d..])|)
    ensures Reaches(g, p, input, n', stack', k + |YieldAll(kids[d..])|)
    ensures !Full(PlainRun(p, g.ntokens, input, n')) ==>
              && Path(g, a, stack') && |stack'| == |base| + |kids| && stack'[..|base|] == base
              && Looks(g, a, stack'[|stack'| - 1], Item(r, |kids|), t)
    decreases Node(r, kids), 0, |kids| - d
  {
    hide PlainStep, PlainRun, GoodAuto, GoodPlain, AllSent, Expanded, Leads, InClosure, InLook, LookSet, Goto, KSet,
      Serves, Edge, Comes, YieldAll, Working, YaccGrammar.Fits;
    n', stack' := n, stack;
    if d == |kids| {
      assert kids[d..] == [];
      NoYield();
    } else {
      var q, it, x := stack[|stack| - 1], Item(r, d), g.prods[r].rhs[d];
      YieldSplit(kids, d);
      IsLook(g, a, q, it, t);
      NextComes(g, input, k, r, d, kids, LookSet(g, a, q, it), t);
      var j;
      n', j := ParseNode(g, a, p, input, n, stack, k, it, x, kids[d]);
      if !Full(PlainRun(p, g.ntokens, input, n')) {
        ItIsSent(g, a, p, q, it, x, t, j);
        PathMore(g, a, stack, x, j);
        n', stack' := ParseKids(g, a, p, input, n', base, stack + [j], k + |Yield(kids[d])|, r, d + 1, kids, t);
      }
    }
  }

  lemma NoYield()
    ensures YieldAll([]) == []
  {
  }

  lemma IsLook(g: Grammar, a: Auto, i: int, it: Item, t: nat)
    requires Looks(g, a, i, it, t)
    ensures t in LookSet(g, a, i, it) && 0 <= i < |a.kernels| && InClosure(g, KSet(a, i), it)
  {
  }

  lemma ComesSplit(input: nat -> int, k: nat, u: seq<nat>, v: seq<nat>)
    requires Comes(input, k, u + v)
    ensures Comes(input, k, u) && Comes(input, k + |u|, v) && (v != [] ==> input(k + |u|) == v[0])
  {
    forall i | 0 <= i < |u| ensures input(k + i) == u[i] && u[i] != 1 {
      assert (u + v)[i] == u[i];
    }
    forall i | 0 <= i < |v| ensures input(k + |u| + i) == v[i] && v[i] != 1 {
      assert (u + v)[|u| + i] == v[i] && input(k + (|u| + i)) == (u + v)[|u| + i];
    }
    if v != [] {
      assert input(k + |u| + 0) == v[0];
    }
  }

  /** No $end comes, so none is in a right side whose tree comes. */
  lemma NotAtEnd(g: Grammar, input: nat -> int, k: nat, x: Sym, tree: Tree)
    requires YaccGrammar.Fits(g, x, tree) && Comes(input, k, Yield(tree))
    ensures x != T(1)
  {
    if tree.Leaf? {
      assert Yield(tree) == [tree.t];
      assert Yield(tree)[0] != 1;
    }
  }

  /** The tokens of kid d come, then those of the others; what comes behind it is passed on by the item before it. */
  lemma NextComes(g: Grammar, input: nat -> int, k: nat, r: nat, d: nat, kids: seq<Tree>, ws: iset<nat>, t: nat)
    requires r < |g.prods| && d < |kids| == |g.prods[r].rhs| && FitsAll(g, g.prods[r].rhs, kids)
    requires Comes(input, k, YieldAll(kids[d..])) && t == input(k + |YieldAll(kids[d..])|) && t in ws
    requires YieldAll(kids[d..]) == Yield(kids[d]) + YieldAll(kids[d + 1..]) && input(k + |Yield(kids[d])|) >= 0
    ensures Comes(input, k, Yield(kids[d])) && Comes(input, k + |Yield(kids[d])|, YieldAll(kids[d + 1..]))
    ensures ItemOk(g, Item(r, d)) && Moves(g, Item(r, d), g.prods[r].rhs[d])
            && YaccGrammar.Fits(g, g.prods[r].rhs[d], kids[d])
    ensures g.prods[r].rhs[d] != T(1) && Passes(g, Item(r, d), ws, input(k + |Yield(kids[d])|))
  {
    hide YieldAll, Yield, YaccGrammar.Fits, Comes, CanStart, AllVanish;
    var rhs, u, v, rest := g.prods[r].rhs, Yield(kids[d]), YieldAll(kids[d + 1..]), kids[d + 1..];
    ComesSplit(input, k, u, v);
    NotAtEnd(g, input, k, rhs[d], kids[d]);
    forall i | 0 <= i < |rest| ensures YaccGrammar.Fits(g, rhs[d + 1..][i], rest[i]) {
      assert rhs[d + 1..][i] == rhs[d + 1 + i] && rest[i] == kids[d + 1 + i];
    }
    NextIsPassed(g, rhs[d + 1..], rest, ws, t);
    assert |YieldAll(kids[d..])| == |u| + |v|;
  }

  lemma ItIsSent(g: Grammar, a: Auto, p: Plain, q: int, it: Item, x: Sym, t: nat, j: int)
    requires Working(g, a, p) && Looks(g, a, q, it, t) && Moves(g, it, x) && x != T(1) && GoesTo(g, a, q, x, j)
    ensures Looks(g, a, j, Advance(it), t)
  {
    hide Looks;
    assert Sent(g, a, q, it, x, t);
    var j' :| GoesTo(g, a, q, x, j') && Looks(g, a, j', Advance(it), t);
    OneGoto(g, a, q, x, j, j');
  }

  // ---- A sentence is accepted --------------------------------------------------------------------------------

  /** What is true of all reachable kernels: the first one is alone, and its item has one successor. */
  ghost predicate AfterStart(g: Grammar, k: set<Item>)
    requires g.Valid()
  {
    && (forall i | i in k :: ItemOk(g, i)) && (START in k ==> k == {START})
    && (Item(0, 1) in k ==> k == Goto(g, {START}, g.prods[0].rhs[0]))
  }

  lemma OneAfterStart(g: Grammar, k: set<Item>)
    requires g.Valid() && Reachable(g, k)
    ensures AfterStart(g, k)
  {
    hide InClosure;
    var f := iset k: set<Item> | AfterStart(g, k);
    assert AfterStart(g, {START}) && {START} in f;
    forall k, s | k in f && s != T(1) && Goto(g, k, s) != {} ensures Goto(g, k, s) in f {
      GotoAfterStart(g, k, s);
    }
    assert GotoClosed(g, f);
  }

  lemma GotoAfterStart(g: Grammar, k: set<Item>, s: Sym)
    requires g.Valid() && AfterStart(g, k)
    ensures AfterStart(g, Goto(g, k, s))
  {
    hide InClosure;
    if Item(0, 1) in Goto(g, k, s) {
      var o :| o in AllItems(g) && Moves(g, o, s) && InClosure(g, k, o) && Advance(o) == Item(0, 1);
      StartIsKernel(g, k);
    }
  }

  /** State 1 is where state 0 goes on the start symbol. */
  lemma StartGoesTo1(g: Grammar, a: Auto, j: int)
    requires g.Valid() && GoodAuto(g, a) && KSet(a, 0) == {START} && Leads(a) && GoesTo(g, a, 0, g.prods[0].rhs[0], j)
    ensures j == 1
  {
    hide Goto;
    GoodStateAt(g, a, 1);
    OneAfterStart(g, KSet(a, 1));
    if j != 1 {
      KernelsAreDistinct(g, a, 1, j);
    }
  }

  /** The item of $accept passes $end on. */
  lemma EndIsPassed(g: Grammar, ws: iset<nat>)
    requires g.Valid()
    ensures Moves(g, START, g.prods[0].rhs[0]) && Passes(g, START, ws, 1)
  {
    var rest := g.prods[0].rhs[1..];
    assert rest == [T(1)] && rest[..0] == [];
    assert YaccGrammar.Fits(g, T(1), Leaf(1)) && Yield(Leaf(1)) == [1];
    assert Begins(g, rest[0], 1);
    assert CanStart(g, rest, 1);
  }

  lemma StartIsReady(g: Grammar, a: Auto, p: Plain, input: nat -> int)
    requires Working(g, a, p) && (forall i :: 1 <= input(i) <= g.ntokens)
    ensures p.Valid(g.ntokens) && |p.actions| > 0 && Ready(input, PlainRun(p, g.ntokens, input, 0), [0], 0)
            && Path(g, a, [0])
    ensures InClosure(g, KSet(a, 0), START)
  {
    assert START in KSet(a, 0);
  }

  /** In state 1 at $end the parser accepts. */
  lemma AcceptsInOne(g: Grammar, a: Auto, p: Plain, input: nat -> int, n: nat, k: nat)
    requires Working(g, a, p) && (forall i :: 1 <= input(i) <= g.ntokens) && p.Valid(g.ntokens) && |p.actions| > 1
    requires Ready(input, PlainRun(p, g.ntokens, input, n), [0, 1], k) && input(k) == 1
    ensures var m := PlainRun(p, g.ntokens, input, n + 1); m.status == Accepted && m.nerrs == 0 && m.pos == k + 1
  {
    hide PlainStep, PlainRun, GoodAuto, AllSent, Expanded, Leads;
    assert Serves(g, a, 1, p.actions[1]);
    NextRun(p, g.ntokens, input, n);
    var m' := StepDefault(p, g.ntokens, input, PlainRun(p, g.ntokens, input, n), [0, 1], k);
  }

  /** Every sentence is accepted, without an error and to its end, unless the stack of the parser is too small for
      it. */
  lemma SentenceIsAccepted(g: Grammar, a: Auto, p: Plain, input: nat -> int, tree: Tree) returns (n: nat)
    requires Working(g, a, p) && p.Valid(g.ntokens) && |p.actions| > 0 && (forall i :: 1 <= input(i) <= g.ntokens)
             && g.Valid()
    requires YaccGrammar.Fits(g, g.prods[0].rhs[0], tree) && Comes(input, 0, Yield(tree)) && input(|Yield(tree)|) == 1
    ensures var m := PlainRun(p, g.ntokens, input, n);
            Full(m) || (m.status == Accepted && m.nerrs == 0 && m.pos == |Yield(tree)| + 1)
  {
    hide PlainRun, GoodAuto, GoodPlain, AllSent, Expanded, Leads, InClosure, LookSet, Looks, Goto, KSet, Serves, Edge,
      Path, Comes, Yield, YaccGrammar.Fits;
    var x := g.prods[0].rhs[0];
    StartIsReady(g, a, p, input);
    EndIsPassed(g, LookSet(g, a, 0, START));
    var j;
    n, j := ParseNode(g, a, p, input, 0, [0], 0, START, x, tree);
    IsGoodPlain(g, a, p);
    FirstIsStart(g, a, p);
    StartGoesTo1(g, a, j);
    if !Full(PlainRun(p, g.ntokens, input, n)) {
      assert [0] + [1] == [0, 1];
      AcceptsInOne(g, a, p, input, n, |Yield(tree)|);
      n := n + 1;
    }
  }

  lemma FirstIsStart(g: Grammar, a: Auto, p: Plain)
    requires Working(g, a, p)
    ensures |a.kernels| > 0 && KSet(a, 0) == {START} && Leads(a) && |p.actions| == |a.kernels|
  {
  }
}
