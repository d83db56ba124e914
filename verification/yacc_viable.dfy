/**
 Runs of the parser on an LR(0) automaton: the stack is always a path of the
 automaton, so a reduction never reaches below the stack and the state it exposes
 always has a goto. The packed tables therefore behave as the plain ones on every input.
 */
module YaccViable {
  import opened YaccPack
  import opened YaccAction
  import opened YaccDriver
  import opened YaccGrammar
  import opened YaccClosure
  import opened YaccKernels
  import opened YaccStates
  import opened YaccStagen
  import opened YaccGotos

  /** Production p has been recognised in state i. */
  ghost predicate Recognised(g: Grammar, a: Auto, i: int, p: int) {
    0 <= i < |a.kernels| && 1 <= p < |g.prods| && InClosure(g, KSet(a, i), Item(p, |g.prods[p].rhs|))
  }

  /** An action row of state i: its shifts are gotos and its reductions are of recognised productions. */
  ghost predicate GoodRow(g: Grammar, a: Auto, i: int, row: seq<int>) {
    && |row| == g.ntokens + 1
    && (forall c | 1 <= c < |row| && IsShift(row[c]) :: GoesTo(g, a, i, T(c), row[c]))
    && (forall c | 1 <= c < |row| && row[c] < 0 :: Recognised(g, a, i, -row[c]))
  }

  ghost predicate GoodPlain(g: Grammar, a: Auto, p: Plain) {
    && g.Valid() && GoodAuto(g, a) && KSet(a, 0) == {START}
    && p.Valid(g.ntokens) && |p.actions| == |a.kernels| && |p.cols| == g.nnonter + 1
    && (forall i | 0 <= i < |p.actions| :: GoodRow(g, a, i, p.actions[i]))
    && (forall i | 0 <= i < |p.actions| && p.lastred[i] != 0 :: Recognised(g, a, i, p.lastred[i]))
    && (forall c | 1 <= c <= g.nnonter :: IsColumn(g, a, c, p.cols[c]))
    && |p.r1| == |p.r2| == |g.prods| && forall r | 1 <= r < |g.prods| ::
         p.r1[r] == g.prods[r].lhs && p.r2[r] == |g.prods[r].rhs|
  }

  // ---- Paths of the automaton -----------------------------------------------------------------------

  ghost predicate Edge(g: Grammar, a: Auto, i: int, j: int) {
    exists s :: GoesTo(g, a, i, s, j)
  }

  ghost predicate Path(g: Grammar, a: Auto, stack: seq<int>) {
    && stack != [] && stack[0] == 0 && (forall k | 0 <= k < |stack| :: 0 <= stack[k] < |a.kernels|)
    && forall k | 0 <= k < |stack| - 1 :: Edge(g, a, stack[k], stack[k + 1])
  }

  /** Closure adds only items with the dot in front. */
  lemma InnerItemsAreKernel(g: Grammar, k: set<Item>, it: Item)
    requires g.Valid() && (forall i | i in k :: ItemOk(g, i)) && InClosure(g, k, it) && it.dot >= 1
    ensures it in k
  {
    var s := k + set i | i in AllItems(g) && i.dot == 0;
    assert Closed(g, s) by {
      forall i, c, p | i in s && Before(g, i, c) && 0 <= p < |g.prods| && g.prods[p].lhs == c ensures Item(p, 0) in s {
        assert Item(p, 0) in AllItems(g);
      }
    }
  }

  /** An item that closure added was asked for by an item before its left side. */
  lemma AddedHasGoto(g: Grammar, k: set<Item>, p: nat)
    requires g.Valid() && (forall i | i in k :: ItemOk(g, i)) && p < |g.prods|
    requires InClosure(g, k, Item(p, 0)) && Item(p, 0) !in k
    ensures Goto(g, k, N(g.prods[p].lhs)) != {}
  {
    var asked := exists i :: InClosure(g, k, i) && Before(g, i, g.prods[p].lhs);
    var s := set i | i in AllItems(g) && InClosure(g, k, i) && (i == Item(p, 0) ==> asked);
    assert Closed(g, s) by {
      forall i, c, q | i in s && Before(g, i, c) && 0 <= q < |g.prods| && g.prods[q].lhs == c ensures Item(q, 0) in s {
        ClosureStep(g, k, i, c, q);
        assert Item(q, 0) in AllItems(g);
      }
    }
    assert k <= s by {
      forall i | i in k ensures i in s {
        assert i in AllItems(g);
      }
    }
    assert Item(p, 0) in s;
    var i :| InClosure(g, k, i) && Before(g, i, g.prods[p].lhs);
    InGoto(g, k, N(g.prods[p].lhs), i);
  }

  lemma KernelItemsOk(g: Grammar, a: Auto, i: nat)
    requires GoodAuto(g, a) && i < |a.kernels|
    ensures forall it | it in KSet(a, i) :: ItemOk(g, it)
    ensures KSet(a, 0) == {START} && i > 0 ==> forall it | it in KSet(a, i) :: it.dot >= 1
  {
    GoodStateAt(g, a, i);
    if i > 0 {
      assert EnteredOn(g, a.kernels[i], a.acc[i]);
    }
  }

  /** Walking back over a recognised prefix: d states down, the item's dot is in front. */
  lemma {:induction false} WalkBack(g: Grammar, a: Auto, stack: seq<int>, p: nat, d: nat)
    requires g.Valid() && GoodAuto(g, a) && KSet(a, 0) == {START} && Path(g, a, stack)
    requires InClosure(g, KSet(a, stack[|stack| - 1]), Item(p, d))
    ensures |stack| > d && InClosure(g, KSet(a, stack[|stack| - 1 - d]), Item(p, 0))
    decreases d
  {
    hide GoodAuto, InClosure;
    if d > 0 {
      var top := stack[|stack| - 1];
      KernelItemsOk(g, a, top);
      InnerItemsAreKernel(g, KSet(a, top), Item(p, d));
      assert top != 0;
      assert |stack| > 1;
      var q := stack[|stack| - 2];
      assert Edge(g, a, q, top);
      var s :| GoesTo(g, a, q, s, top);
      var o :| o in AllItems(g) && Moves(g, o, s) && InClosure(g, KSet(a, q), o) && Item(p, d) == Advance(o);
      var below := stack[..|stack| - 1];
      assert Path(g, a, below) by {
        forall k | 0 <= k < |below| - 1 ensures Edge(g, a, below[k], below[k + 1]) {
          assert Edge(g, a, stack[k], stack[k + 1]);
        }
      }
      WalkBack(g, a, below, p, d - 1);
    }
  }

  /** Reducing a recognised production finds the whole right side on the stack and a goto below it. */
  lemma ReduceFindsGoto(g: Grammar, a: Auto, stack: seq<int>, p: nat)
    requires g.Valid() && GoodAuto(g, a) && KSet(a, 0) == {START} && Path(g, a, stack)
    requires Recognised(g, a, stack[|stack| - 1], p)
    ensures |stack| > |g.prods[p].rhs|
    ensures Goto(g, KSet(a, stack[|stack| - 1 - |g.prods[p].rhs|]), N(g.prods[p].lhs)) != {}
  {
    var d := |g.prods[p].rhs|;
    WalkBack(g, a, stack, p, d);
    var q := stack[|stack| - 1 - d];
    KernelItemsOk(g, a, q);
    AddedHasGoto(g, KSet(a, q), p);
  }

  // ---- The plain machine never gets stuck -------------------------------------------------------------

  ghost predicate OnPath(g: Grammar, a: Auto, m: Machine) {
    m.status != Stuck && (m.status == Running ==> Path(g, a, m.stack))
  }

  lemma PushOnPath(g: Grammar, a: Auto, m: Machine, s: Sym, j: int)
    requires Path(g, a, m.stack) && GoesTo(g, a, m.stack[|m.stack| - 1], s, j) && m.status == Running
    ensures OnPath(g, a, Push(m, j))
  {
    var stack := m.stack + [j];
    forall k | 0 <= k < |stack| - 1 ensures Edge(g, a, stack[k], stack[k + 1]) {
      if k < |m.stack| - 1 {
        assert Edge(g, a, m.stack[k], m.stack[k + 1]);
      }
    }
  }

  lemma PrefixPath(g: Grammar, a: Auto, stack: seq<int>, n: nat)
    requires Path(g, a, stack) && 1 <= n <= |stack|
    ensures Path(g, a, stack[..n])
  {
    forall k | 0 <= k < n - 1 ensures Edge(g, a, stack[..n][k], stack[..n][k + 1]) {
      assert Edge(g, a, stack[k], stack[k + 1]);
    }
  }

  lemma {:induction false} RecoverOnPath(g: Grammar, a: Auto, p: Plain, m: Machine)
    requires GoodPlain(g, a, p) && m.status == Running && (m.stack == [] || Path(g, a, m.stack))
    requires forall s | s in m.stack :: 0 <= s < |p.actions|
    ensures OnPath(g, a, PlainRecover(p, m))
    decreases |m.stack|
  {
    if m.stack != [] {
      var s := m.stack[|m.stack| - 1];
      assert s in m.stack;
      assert GoodRow(g, a, s, p.actions[s]);
      if IsShift(p.actions[s][YYERRCODE]) {
        PushOnPath(g, a, m, T(YYERRCODE), p.actions[s][YYERRCODE]);
      } else {
        var rest := m.(stack := m.stack[..|m.stack| - 1]);
        assert forall r | r in rest.stack :: r in m.stack;
        if |m.stack| > 1 {
          PrefixPath(g, a, m.stack, |m.stack| - 1);
        }
        RecoverOnPath(g, a, p, rest);
      }
    }
  }

  lemma ReduceOnPath(g: Grammar, a: Auto, p: Plain, m: Machine, r: int)
    requires GoodPlain(g, a, p) && m.status == Running && Path(g, a, m.stack)
    requires forall s | s in m.stack :: 0 <= s < |p.actions|
    requires Recognised(g, a, m.stack[|m.stack| - 1], r)
    ensures OnPath(g, a, PlainReduce(p, g.ntokens, m, r))
  {
    hide InClosure, GoodAuto, KSet, GoodRow;
    ReduceFindsGoto(g, a, m.stack, r);
    var n := |m.stack| - |g.prods[r].rhs|;
    var c := g.prods[r].lhs;
    assert IsColumn(g, a, c, p.cols[c]);
    PrefixPath(g, a, m.stack, n);
    PushOnPath(g, a, m.(stack := m.stack[..n]), N(c), p.cols[c][m.stack[n - 1]]);
  }

  lemma DefaultOnPath(g: Grammar, a: Auto, p: Plain, input: nat -> int, m: Machine)
    requires GoodPlain(g, a, p) && Good(p, g.ntokens, m) && m.status == Running && Path(g, a, m.stack)
    requires forall i :: 1 <= input(i) <= g.ntokens
    requires var s := m.stack[|m.stack| - 1];
             assert s in m.stack; !p.HasShift(s) || (m.tok > 0 && !IsShift(p.actions[s][m.tok]))
    ensures OnPath(g, a, PlainDefault(p, g.ntokens, input, m))
  {
    hide PlainReduce, PlainRecover, GoesTo, Recognised, IsColumn, GoodAuto, KSet;
    var s := m.stack[|m.stack| - 1];
    assert s in m.stack;
    assert GoodRow(g, a, s, p.actions[s]);
    var m' := if p.NeedsToken(s) then Lex(input, m) else m;
    var n := if p.NeedsToken(s) then Fallback(p.actions[s][m'.tok], p.lastred[s]) else p.lastred[s];
    if n == 0 {
      RecoverOnPath(g, a, p, m'.(errflag := 3, nerrs := if m'.errflag == 0 then m'.nerrs + 1 else m'.nerrs));
    } else if n > 0 {
      assert p.NeedsToken(s) && p.actions[s][m'.tok] < 0 ==> Recognised(g, a, s, n);
      ReduceOnPath(g, a, p, m', n);
    }
  }

  lemma StepOnPath(g: Grammar, a: Auto, p: Plain, input: nat -> int, m: Machine)
    requires GoodPlain(g, a, p) && Good(p, g.ntokens, m) && m.status == Running && Path(g, a, m.stack)
    requires forall i :: 1 <= input(i) <= g.ntokens
    ensures OnPath(g, a, PlainStep(p, g.ntokens, input, m))
  {
    hide PlainDefault, GoesTo, Recognised, IsColumn, GoodAuto, KSet;
    var s := m.stack[|m.stack| - 1];
    assert s in m.stack;
    if p.HasShift(s) {
      var m' := Lex(input, m);
      assert GoodRow(g, a, s, p.actions[s]);
      if IsShift(p.actions[s][m'.tok]) {
        PushOnPath(g, a, m'.(tok := -1, errflag := if m'.errflag > 0 then m'.errflag - 1 else m'.errflag), T(m'.tok),
                   p.actions[s][m'.tok]);
      } else {
        DefaultOnPath(g, a, p, input, m');
      }
    } else {
      DefaultOnPath(g, a, p, input, m);
    }
  }

  lemma {:induction false} NeverStuck(g: Grammar, a: Auto, p: Plain, input: nat -> int, n: nat)
    requires GoodPlain(g, a, p) && forall i :: 1 <= input(i) <= g.ntokens
    ensures OnPath(g, a, PlainRun(p, g.ntokens, input, n))
  {
    if n > 0 {
      NeverStuck(g, a, p, input, n - 1);
      var m := PlainRun(p, g.ntokens, input, n - 1);
      if m.status == Running {
        StepOnPath(g, a, p, input, m);
      }
    }
  }

  /** On every input and for any number of steps, the packed parser is in the same configuration as the plain one. */
  lemma PackedParserIsExact(g: Grammar, a: Auto, p: Plain, t: Tables, inp: Input, k: Packing, chunks: seq<seq<Exc>>,
                            input: nat -> int, n: nat)
    requires GoodPlain(g, a, p) && Made(p, g.ntokens, t, inp, k, chunks)
    requires forall i :: 1 <= input(i) <= g.ntokens
    ensures PackedRun(t, input, n) == PlainRun(p, g.ntokens, input, n)
    ensures OnPath(g, a, PackedRun(t, input, n))
  {
    NeverStuck(g, a, p, input, n);
    RunsAgree(p, g.ntokens, t, inp, k, chunks, input, n);
  }
}
