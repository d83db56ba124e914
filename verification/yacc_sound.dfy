/**
 What the parser accepts: the stack spells a row of parse trees whose yields are the tokens read so far, and
 acceptance is reached only with the tree of a whole sentence on it.
 */
module YaccSound {
  import opened YaccPack
  import opened YaccAction
  import opened YaccDriver
  import opened YaccGrammar
  import opened YaccClosure
  import opened YaccKernels
  import opened YaccStates
  import opened YaccStagen
  import opened YaccGotos
  import opened YaccViable

  /** Each state on the stack but the first stands for a tree of its accessing symbol. */
  ghost predicate Spells(g: Grammar, a: Auto, stack: seq<int>, kids: seq<Tree>) {
    && |stack| == |kids| + 1
    && forall k {:trigger kids[k]} | 0 <= k < |kids| :: 0 <= stack[k + 1] < |a.acc|
                                                        && YaccGrammar.Fits(g, a.acc[stack[k + 1]], kids[k])
  }

  /** The first tokens of the input. */
  ghost predicate Tokens(input: nat -> int, y: seq<nat>) {
    forall i | 0 <= i < |y| :: y[i] == input(i)
  }

  /** The trees yield the tokens that have been read, but for one that is only looked at. */
  ghost predicate Consumed(input: nat -> int, m: Machine, kids: seq<Tree>) {
    && m.pos == |YieldAll(kids)| + (if m.tok >= 0 then 1 else 0) && Tokens(input, YieldAll(kids))
    && (m.tok >= 0 ==> m.tok == input(m.pos - 1))
  }

  /** No error so far, and the stack spells what has been read. */
  ghost predicate Reading(g: Grammar, a: Auto, input: nat -> int, m: Machine, kids: seq<Tree>) {
    Path(g, a, m.stack) && Spells(g, a, m.stack, kids) && Consumed(input, m, kids) && m.nerrs == 0 && m.errflag == 0
  }

  // ---- The top of the stack -------------------------------------------------------------------------------

  /** Where d symbols of a right side have been read, the top d states are entered on them. */
  lemma {:induction false} TopIsRead(g: Grammar, a: Auto, stack: seq<int>, p: nat, d: nat)
    requires g.Valid() && GoodAuto(g, a) && KSet(a, 0) == {START} && Path(g, a, stack)
    requires InClosure(g, KSet(a, stack[|stack| - 1]), Item(p, d))
    ensures p < |g.prods| && d <= |g.prods[p].rhs| && |stack| > d
    ensures forall k | 0 <= k < d :: a.acc[stack[|stack| - d + k]] == g.prods[p].rhs[k]
    decreases d
  {
    hide GoodAuto, InClosure;
    var top := stack[|stack| - 1];
    ReachedItem(g, a, top, Item(p, d));
    if d > 0 {
      EnteredByLast(g, a, top, p, d);
      var q := stack[|stack| - 2];
      assert Edge(g, a, q, top);
      var s :| GoesTo(g, a, q, s, top);
      var o :| o in AllItems(g) && Moves(g, o, s) && InClosure(g, KSet(a, q), o) && Item(p, d) == Advance(o);
      var below := stack[..|stack| - 1];
      PrefixPath(g, a, stack, |below|);
      TopIsRead(g, a, below, p, d - 1);
      forall k | 0 <= k < d ensures a.acc[stack[|stack| - d + k]] == g.prods[p].rhs[k] {
        if k < d - 1 {
          assert stack[|stack| - d + k] == below[|below| - (d - 1) + k];
        }
      }
    }
  }

  /** An item of a state's closure is an item of the grammar. */
  lemma ReachedItem(g: Grammar, a: Auto, i: nat, it: Item)
    requires g.Valid() && GoodAuto(g, a) && i < |a.kernels| && InClosure(g, KSet(a, i), it)
    ensures ItemOk(g, it) && it.prod < |g.prods| && it.dot <= |g.prods[it.prod].rhs| && |a.acc| == |a.kernels|
  {
    KernelItemsOk(g, a, i);
    var s := set j | j in AllItems(g) && InClosure(g, KSet(a, i), j);
    assert Closed(g, s) by {
      forall j, c, p | j in s && Before(g, j, c) && 0 <= p < |g.prods| && g.prods[p].lhs == c ensures Item(p, 0) in s {
        ClosureStep(g, KSet(a, i), j, c, p);
        assert Item(p, 0) in AllItems(g);
      }
    }
    forall j | j in KSet(a, i) ensures j in s {
      assert j in AllItems(g);
    }
  }

  /** A state with an item behind a symbol is entered on that symbol, and is not the first one on its path. */
  lemma EnteredByLast(g: Grammar, a: Auto, i: nat, p: nat, d: nat)
    requires g.Valid() && GoodAuto(g, a) && KSet(a, 0) == {START} && i < |a.kernels| && d > 0
    requires InClosure(g, KSet(a, i), Item(p, d)) && p < |g.prods| && d <= |g.prods[p].rhs|
    ensures i > 0 && |a.acc| == |a.kernels| && a.acc[i] == g.prods[p].rhs[d - 1] && Item(p, d) in KSet(a, i)
  {
    KernelItemsOk(g, a, i);
    InnerItemsAreKernel(g, KSet(a, i), Item(p, d));
    assert EnteredOn(g, a.kernels[i], a.acc[i]);
    var x :| 0 <= x < |a.kernels[i]| && a.kernels[i][x].item == Item(p, d);
  }

  // ---- One step ----------------------------------------------------------------------------------------------

  lemma LexReads(g: Grammar, a: Auto, input: nat -> int, m: Machine, kids: seq<Tree>)
    requires Reading(g, a, input, m, kids) && forall i :: input(i) >= 1
    ensures Reading(g, a, input, Lex(input, m), kids) && Lex(input, m).tok >= 0
  {
  }

  lemma YieldLeaf(t: nat)
    ensures YieldAll([Leaf(t)]) == [t]
  {
    assert Yield(Leaf(t)) == [t];
    assert [Leaf(t)][1..] == [];
  }

  lemma ShiftReads(g: Grammar, a: Auto, input: nat -> int, m: Machine, kids: seq<Tree>, j: int)
    returns (kids': seq<Tree>)
    requires Reading(g, a, input, m, kids) && m.status == Running && m.tok >= 0
    requires GoesTo(g, a, m.stack[|m.stack| - 1], T(m.tok), j) && Shifted(m, j).status == Running
    ensures Reading(g, a, input, Shifted(m, j), kids')
  {
    PushOnPath(g, a, m.(tok := -1), T(m.tok), j);
    kids' := kids + [Leaf(m.tok)];
    YieldConcat(kids, [Leaf(m.tok)]);
    YieldLeaf(m.tok);
    assert YaccGrammar.Fits(g, a.acc[j], Leaf(m.tok));
    var stack := m.stack + [j];
    forall k {:trigger kids'[k]} | 0 <= k < |kids'|
      ensures 0 <= stack[k + 1] < |a.acc| && YaccGrammar.Fits(g, a.acc[stack[k + 1]], kids'[k])
    {
      if k < |kids| {
        assert kids'[k] == kids[k];
      }
    }
  }

  /** The trees of the right side become one. */
  function Joined(kids: seq<Tree>, r: nat, n: nat): seq<Tree>
    requires n <= |kids|
  {
    kids[..n] + [Node(r, kids[n..])]
  }

  lemma JoinedYield(kids: seq<Tree>, r: nat, n: nat)
    requires n <= |kids|
    ensures YieldAll(Joined(kids, r, n)) == YieldAll(kids)
  {
    var t := Node(r, kids[n..]);
    YieldConcat(kids[..n], [t]);
    YieldConcat(kids[..n], kids[n..]);
    assert kids == kids[..n] + kids[n..];
    assert [t][1..] == [];
    assert YieldAll([t]) == Yield(t) + [];
  }

  lemma JoinedFits(g: Grammar, a: Auto, stack: seq<int>, kids: seq<Tree>, r: nat, n: nat)
    requires Spells(g, a, stack, kids) && n <= |kids| && r < |g.prods| && |kids| - n == |g.prods[r].rhs|
    requires forall k {:trigger kids[k]} | n <= k < |kids| ::
               0 <= stack[k + 1] < |a.acc| && a.acc[stack[k + 1]] == g.prods[r].rhs[k - n]
    ensures YaccGrammar.Fits(g, N(g.prods[r].lhs), Node(r, kids[n..]))
  {
    forall k | 0 <= k < |kids[n..]| ensures YaccGrammar.Fits(g, g.prods[r].rhs[k], kids[n..][k]) {
      assert kids[n..][k] == kids[n + k];
    }
  }

  lemma ReduceReads(g: Grammar, a: Auto, p: Plain, input: nat -> int, m: Machine, kids: seq<Tree>, r: nat)
    returns (kids': seq<Tree>)
    requires GoodPlain(g, a, p) && Reading(g, a, input, m, kids) && m.status == Running
    requires (forall s | s in m.stack :: 0 <= s < |p.actions|) && r > 0
    requires Recognised(g, a, m.stack[|m.stack| - 1], r) && PlainReduce(p, g.ntokens, m, r).status == Running
    ensures Reading(g, a, input, PlainReduce(p, g.ntokens, m, r), kids')
  {
    hide InClosure, GoodAuto, KSet, GoodRow, YaccGrammar.Fits, YieldAll;
    ReduceOnPath(g, a, p, m, r);
    var d := |g.prods[r].rhs|;
    TopIsRead(g, a, m.stack, r, d);
    var n := |kids| - d;
    forall k {:trigger kids[k]} | n <= k < |kids|
      ensures 0 <= m.stack[k + 1] < |a.acc| && a.acc[m.stack[k + 1]] == g.prods[r].rhs[k - n]
    {
      assert m.stack[k + 1] == m.stack[|m.stack| - d + (k - n)];
    }
    kids' := Joined(kids, r, n);
    JoinedYield(kids, r, n);
    JoinedFits(g, a, m.stack, kids, r, n);
    var c := g.prods[r].lhs;
    assert IsColumn(g, a, c, p.cols[c]);
    var m' := PlainReduce(p, g.ntokens, m, r);
    assert m'.stack == m.stack[..n + 1] + [p.cols[c][m.stack[n]]];
    forall k {:trigger kids'[k]} | 0 <= k < |kids'|
      ensures 0 <= m'.stack[k + 1] < |a.acc| && YaccGrammar.Fits(g, a.acc[m'.stack[k + 1]], kids'[k])
    {
      if k < n {
        assert kids'[k] == kids[k] && m'.stack[k + 1] == m.stack[k + 1];
      }
    }
  }

  lemma {:induction false} RecoverCounts(p: Plain, m: Machine)
    requires (forall s | s in m.stack :: 0 <= s < |p.actions| && |p.actions[s]| > YYERRCODE) && m.status != Accepted
    ensures PlainRecover(p, m).nerrs == m.nerrs && PlainRecover(p, m).status != Accepted
    decreases |m.stack|
  {
    if m.stack != [] {
      var rest := m.(stack := m.stack[..|m.stack| - 1]);
      assert forall r | r in rest.stack :: r in m.stack;
      RecoverCounts(p, rest);
    }
  }

  /** The action on the token in hand is to accept. */
  ghost predicate Accepting(p: Plain, m: Machine) {
    && m.stack != [] && 0 <= m.stack[|m.stack| - 1] < |p.actions| && 0 < m.tok < |p.actions[m.stack[|m.stack| - 1]]|
    && p.actions[m.stack[|m.stack| - 1]][m.tok] == ACCEPTCODE
  }

  /** As long as there is no error, the trees tell what has been read; they still do when the input is accepted. */
  ghost predicate SoFar(g: Grammar, a: Auto, p: Plain, input: nat -> int, m: Machine, kids: seq<Tree>) {
    && (m.nerrs == 0 && m.status == Running ==> Reading(g, a, input, m, kids))
    && (m.nerrs == 0 && m.status == Accepted ==> Accepting(p, m) && Reading(g, a, input, m, kids))
  }

  lemma DefaultReads(g: Grammar, a: Auto, p: Plain, input: nat -> int, m: Machine, kids: seq<Tree>)
    returns (kids': seq<Tree>)
    requires GoodPlain(g, a, p) && Good(p, g.ntokens, m) && m.status == Running && Reading(g, a, input, m, kids)
    requires forall i :: 1 <= input(i) <= g.ntokens
    requires var s := m.stack[|m.stack| - 1];
             assert s in m.stack; !p.HasShift(s) || (m.tok > 0 && !IsShift(p.actions[s][m.tok]))
    ensures SoFar(g, a, p, input, PlainDefault(p, g.ntokens, input, m), kids')
  {
    hide PlainReduce, PlainRecover, GoesTo, Recognised, IsColumn, GoodAuto, KSet, Spells, Path, YieldAll, Tokens;
    var s := m.stack[|m.stack| - 1];
    assert s in m.stack;
    assert GoodRow(g, a, s, p.actions[s]);
    LexReads(g, a, input, m, kids);
    var m' := if p.NeedsToken(s) then Lex(input, m) else m;
    var n := if p.NeedsToken(s) then Fallback(p.actions[s][m'.tok], p.lastred[s]) else p.lastred[s];
    kids' := kids;
    if n == 0 {
      RecoverCounts(p, m'.(errflag := 3, nerrs := 1));
    } else if n > 0 {
      assert p.NeedsToken(s) && p.actions[s][m'.tok] < 0 ==> Recognised(g, a, s, n);
      ReduceCounts(p, g.ntokens, m', n);
      if PlainReduce(p, g.ntokens, m', n).status == Running {
        kids' := ReduceReads(g, a, p, input, m', kids, n);
      }
    }
  }

  lemma ReduceCounts(p: Plain, ntokens: nat, m: Machine, r: int)
    requires p.Valid(ntokens) && r > 0 && (forall s | s in m.stack :: 0 <= s < |p.actions|) && m.status == Running
    ensures PlainReduce(p, ntokens, m, r).status != Accepted && PlainReduce(p, ntokens, m, r).nerrs == m.nerrs
  {
  }

  lemma StepReads(g: Grammar, a: Auto, p: Plain, input: nat -> int, m: Machine, kids: seq<Tree>)
    returns (kids': seq<Tree>)
    requires GoodPlain(g, a, p) && Good(p, g.ntokens, m) && m.status == Running && Reading(g, a, input, m, kids)
    requires forall i :: 1 <= input(i) <= g.ntokens
    ensures SoFar(g, a, p, input, PlainStep(p, g.ntokens, input, m), kids')
  {
    hide PlainDefault, GoesTo, Recognised, IsColumn, GoodAuto, KSet, Spells, Path, YieldAll, Tokens;
    var s := m.stack[|m.stack| - 1];
    assert s in m.stack;
    kids' := kids;
    if p.HasShift(s) {
      LexReads(g, a, input, m, kids);
      var m' := Lex(input, m);
      assert GoodRow(g, a, s, p.actions[s]);
      if IsShift(p.actions[s][m'.tok]) {
        if Shifted(m', p.actions[s][m'.tok]).status == Running {
          kids' := ShiftReads(g, a, input, m', kids, p.actions[s][m'.tok]);
        }
      } else {
        kids' := DefaultReads(g, a, p, input, m', kids);
      }
    } else {
      kids' := DefaultReads(g, a, p, input, m, kids);
    }
  }

  /** An error that has been counted stays counted. */
  lemma StepCounts(p: Plain, ntokens: nat, input: nat -> int, m: Machine)
    requires p.Valid(ntokens) && Good(p, ntokens, m) && m.status == Running && forall i :: 1 <= input(i) <= ntokens
    ensures PlainStep(p, ntokens, input, m).nerrs >= m.nerrs
  {
    hide PlainRecover, PlainReduce;
    var s := m.stack[|m.stack| - 1];
    assert s in m.stack;
    forall e: Machine, k: nat | e.stack == m.stack && e.status == Running && k >= 0
      ensures PlainRecover(p, e.(errflag := 3, nerrs := k)).nerrs == k
    {
      RecoverCounts(p, e.(errflag := 3, nerrs := k));
    }
    forall e: Machine, r: int | e.stack == m.stack && e.status == Running && r > 0
      ensures PlainReduce(p, ntokens, e, r).nerrs == e.nerrs
    {
      ReduceCounts(p, ntokens, e, r);
    }
  }

  lemma {:induction false} RunReads(g: Grammar, a: Auto, p: Plain, input: nat -> int, n: nat) returns (kids: seq<Tree>)
    requires GoodPlain(g, a, p) && forall i :: 1 <= input(i) <= g.ntokens
    ensures SoFar(g, a, p, input, PlainRun(p, g.ntokens, input, n), kids)
  {
    hide PlainStep, GoodPlain, Reading;
    kids := [];
    PlainIsValid(g, a, p);
    if n > 0 {
      kids := RunReads(g, a, p, input, n - 1);
      var m := PlainRun(p, g.ntokens, input, n - 1);
      if m.status == Running {
        StepCounts(p, g.ntokens, input, m);
        if m.nerrs == 0 {
          kids := StepReads(g, a, p, input, m, kids);
        }
      }
    } else {
      StartReads(g, a, p, input);
    }
  }

  lemma PlainIsValid(g: Grammar, a: Auto, p: Plain)
    requires GoodPlain(g, a, p)
    ensures p.Valid(g.ntokens) && |p.actions| > 0
  {
  }

  lemma StartReads(g: Grammar, a: Auto, p: Plain, input: nat -> int)
    requires GoodPlain(g, a, p)
    ensures Reading(g, a, input, Start(), [])
  {
  }

  // ---- Acceptance ----------------------------------------------------------------------------------------------

  /** Only state 1 accepts, and only at $end. */
  ghost predicate AcceptsAtEnd(p: Plain) {
    forall i, c | 0 <= i < |p.actions| && 1 <= c < |p.actions[i]| && p.actions[i][c] == ACCEPTCODE :: i == 1 && c == 1
  }

  lemma StartIsKernel(g: Grammar, k: set<Item>)
    requires g.Valid() && (forall i | i in k :: ItemOk(g, i)) && InClosure(g, k, START)
    ensures START in k
  {
    var s := k + set j | j in AllItems(g) && j.prod != 0;
    assert Closed(g, s) by {
      forall j, c, p | j in s && Before(g, j, c) && 0 <= p < |g.prods| && g.prods[p].lhs == c ensures Item(p, 0) in s {
        assert g.InRange(g.prods[j.prod].rhs[j.dot]);
        assert Item(p, 0) in AllItems(g);
      }
    }
  }

  /** Nothing asks for the production of $accept but the kernel of state 0. */
  lemma OnlyAtStart(g: Grammar, a: Auto, i: nat)
    requires g.Valid() && GoodAuto(g, a) && KSet(a, 0) == {START} && i < |a.kernels| && InClosure(g, KSet(a, i), START)
    ensures i == 0
  {
    KernelItemsOk(g, a, i);
    StartIsKernel(g, KSet(a, i));
  }

  /** In state 1 the stack holds the one tree of the start symbol. */
  lemma StackAtEnd(g: Grammar, a: Auto, stack: seq<int>)
    requires g.Valid() && GoodAuto(g, a) && KSet(a, 0) == {START} && Leads(a) && Path(g, a, stack)
             && stack[|stack| - 1] == 1
    ensures |stack| == 2 && a.acc[1] == g.prods[0].rhs[0]
  {
    hide GoodAuto;
    assert Item(0, 1) in KSet(a, 1);
    assert InClosure(g, KSet(a, 1), Item(0, 1));
    TopIsRead(g, a, stack, 0, 1);
    WalkBack(g, a, stack, 0, 1);
    assert |stack| > 2 ==> Edge(g, a, stack[|stack| - 3], stack[|stack| - 2]);
    OnlyAtStart(g, a, stack[|stack| - 2]);
  }

  /** What is accepted without an error is a sentence: a parse tree of $accept yields exactly the tokens read. */
  lemma AcceptedIsSentence(g: Grammar, a: Auto, p: Plain, input: nat -> int, n: nat) returns (tree: Tree)
    requires GoodPlain(g, a, p) && Leads(a) && AcceptsAtEnd(p) && forall i :: 1 <= input(i) <= g.ntokens
    requires PlainRun(p, g.ntokens, input, n).status == Accepted && PlainRun(p, g.ntokens, input, n).nerrs == 0
    ensures YaccGrammar.Fits(g, N(0), tree) && |Yield(tree)| == PlainRun(p, g.ntokens, input, n).pos
            && Tokens(input, Yield(tree))
  {
    hide GoodAuto, PlainRun;
    var kids := RunReads(g, a, p, input, n);
    var m := PlainRun(p, g.ntokens, input, n);
    StackAtEnd(g, a, m.stack);
    tree := Node(0, [kids[0], Leaf(1)]);
    assert kids == [kids[0]];
    YieldConcat(kids, [Leaf(1)]);
    YieldLeaf(1);
    assert Yield(tree) == YieldAll(kids + [Leaf(1)]);
  }
}
