/**
 From the finished automaton and the action rows to the arrays of the parser:
 output's last part, go2out, callopt and others, composed.
 */
module YaccTables {
  import opened YaccPack
  import opened YaccAction
  import opened YaccDriver
  import opened YaccGrammar
  import opened YaccClosure
  import opened YaccKernels
  import opened YaccStates
  import opened YaccStagen
  import opened YaccGotos
  import opened YaccOutput
  import opened YaccViable

  /** wract for every state. */
  method WriteActions(g: Grammar, ghost a: Auto, actions: seq<seq<int>>)
    returns (rows: seq<seq<Entry>>, defs: seq<int>, chunks: seq<seq<Exc>>, lastreds: seq<int>)
    requires g.Valid() && forall i | 0 <= i < |actions| :: GoodRow(g, a, i, actions[i])
    ensures |rows| == |defs| == |chunks| == |lastreds| == |actions|
    ensures forall i | 0 <= i < |actions| :: Encodes(actions[i], lastreds[i], rows[i], defs[i], chunks[i], i)
                                             && Increasing(rows[i])
    ensures forall i | 0 <= i < |actions| :: lastreds[i] >= 0 && (lastreds[i] != 0 ==> Recognised(g, a, i, lastreds[i]))
  {
    hide Encodes, Recognised;
    rows, defs, chunks, lastreds := [], [], [], [];
    for i := 0 to |actions|
      invariant |rows| == |defs| == |chunks| == |lastreds| == i
      invariant forall j | 0 <= j < i :: Encodes(actions[j], lastreds[j], rows[j], defs[j], chunks[j], j)
                                         && Increasing(rows[j])
      invariant forall j | 0 <= j < i :: lastreds[j] >= 0 && (lastreds[j] != 0 ==> Recognised(g, a, j, lastreds[j]))
    {
      assert GoodRow(g, a, i, actions[i]);
      var temp1 := new int[g.ntokens + 1](c requires 0 <= c < |actions[i]| => actions[i][c]);
      assert temp1[..g.ntokens + 1] == actions[i];
      var row, def, ch, lastred := Wract(temp1, g.ntokens, i);
      rows, defs, chunks, lastreds := rows + [row], defs + [def], chunks + [ch], lastreds + [lastred];
    }
  }

  /** go2gen and go2out for every nonterminal; entry 0 is not used. */
  method WriteGotos(g: Grammar, kernels: seq<seq<KItem>>, amem: array<int>, indgo: seq<int>, ghost a: Auto)
    returns (gotos: seq<GotoRow>, ghost cols: seq<seq<int>>)
    requires g.Valid() && GoodAuto(g, a) && a.kernels == kernels && AllWorked(g, a, amem[..], indgo)
    ensures |gotos| == |cols| == g.nnonter + 1
    ensures forall c | 1 <= c <= g.nnonter :: IsColumn(g, a, c, cols[c]) && GotoRowOf(cols[c], gotos[c])
  {
    gotos, cols := [GotoRow([], 0)], [[]];
    for c := 1 to g.nnonter + 1
      invariant |gotos| == |cols| == c
      invariant forall d | 1 <= d < c :: IsColumn(g, a, d, cols[d]) && GotoRowOf(cols[d], gotos[d])
    {
      var col := Go2gen(g, kernels, amem, indgo, c, a);
      ColumnNat(g, a, c, col);
      var r := Go2out(col);
      gotos, cols := gotos + [r], cols + [col];
    }
  }

  ghost predicate GotoRowOf(col: seq<int>, r: GotoRow) {
    && Compresses(col, r) && Increasing(r.entries)
    && (r.dflt == 0 ==> r.entries == []) && (r.dflt != 0 ==> r.dflt in col)
    && forall e | e in r.entries :: e.target != 0
  }

  lemma ColumnNat(g: Grammar, a: Auto, c: nat, col: seq<int>)
    requires IsColumn(g, a, c, col)
    ensures forall i | 0 <= i < |col| :: 0 <= col[i] < |a.kernels| && (col[i] != 0 ==> GoesTo(g, a, i, N(c), col[i]))
  {
  }

  ghost predicate ChkOf(a: Auto, chk: seq<int>) {
    |chk| == |a.kernels| == |a.acc| > 0 && chk[0] == YYFLAG1 && forall j | 1 <= j < |chk| :: chk[j] == Code(a.acc[j])
  }

  /** The rows handed to the optimizer name, through yychk, the symbols they belong to. */
  lemma ShiftsValid(g: Grammar, a: Auto, i: nat, action: seq<int>, lastred: int, row: seq<Entry>, def: int,
                    ch: seq<Exc>, chk: seq<int>)
    requires ChkOf(a, chk) && GoodRow(g, a, i, action) && g.ntokens <= NTERMS
    requires Encodes(action, lastred, row, def, ch, i) && Increasing(row)
    ensures ValidShifts(row, chk)
  {
    forall e | e in row ensures 1 <= e.index <= NTERMS && 0 < e.target < |chk| && chk[e.target] == e.index {
      assert GoesTo(g, a, i, T(e.index), e.target);
    }
  }

  lemma GotosValid(g: Grammar, a: Auto, c: nat, col: seq<int>, r: GotoRow, chk: seq<int>)
    requires ChkOf(a, chk) && IsColumn(g, a, c, col) && GotoRowOf(col, r)
    ensures ValidGotos(c, r, chk)
  {
    ColumnNat(g, a, c, col);
    if r.dflt != 0 {
      var i :| 0 <= i < |col| && col[i] == r.dflt;
      assert GoesTo(g, a, i, N(c), col[i]);
    }
    forall e | e in r.entries ensures 0 <= e.index < |chk| && 0 < e.target < |chk| && chk[e.target] + c == 0 {
      assert GoesTo(g, a, e.index, N(c), col[e.index]);
    }
  }

  lemma PlainValid(g: Grammar, a: Auto, p: Plain)
    requires g.Valid() && GoodAuto(g, a) && |p.actions| == |a.kernels| == |p.lastred| && |p.cols| == g.nnonter + 1
    requires forall i | 0 <= i < |p.actions| :: GoodRow(g, a, i, p.actions[i])
    requires forall i | 0 <= i < |p.actions| :: p.lastred[i] >= 0
                                                && (p.lastred[i] != 0 ==> Recognised(g, a, i, p.lastred[i]))
    requires forall c | 1 <= c <= g.nnonter :: IsColumn(g, a, c, p.cols[c])
    requires |p.r1| == |p.r2| == |g.prods| && p.r1[0] == 0 && p.r2[0] == 0
    requires forall r | 1 <= r < |g.prods| :: p.r1[r] == g.prods[r].lhs && p.r2[r] == |g.prods[r].rhs|
    ensures GoodPlain(g, a, p)
  {
    StartOnly(g, a);
    forall c | 1 <= c <= g.nnonter
      ensures |p.cols[c]| == |p.actions| && forall s | 0 <= s < |p.actions| :: 0 <= p.cols[c][s] < |p.actions|
    {
      ColumnNat(g, a, c, p.cols[c]);
    }
    forall s, c | 0 <= s < |p.actions| && 1 <= c <= g.ntokens && IsShift(p.actions[s][c])
      ensures p.actions[s][c] < |p.actions|
    {
      assert GoodRow(g, a, s, p.actions[s]);
    }
    forall s | 0 <= s < |p.actions| ensures |p.actions[s]| == g.ntokens + 1 {
      assert GoodRow(g, a, s, p.actions[s]);
    }
  }

  lemma ArraysReadable(inp: Input, k: Packing)
    requires Inv(inp, k)
    ensures forall q | 0 <= q < |k.m| :: 0 <= k.m[q] < |inp.chk|
  {
    forall q | 0 <= q < |k.m| ensures 0 <= k.m[q] < |inp.chk| {
      assert Explained(inp, k, q);
    }
  }

  /** Pack the rows into the optimizer's array. */
  method Pack(rows: seq<seq<Entry>>, gotos: seq<GotoRow>, ghost inp: Input)
    returns (ok: bool, act: seq<int>, pact: seq<int>, pgo: seq<int>, ghost k: Packing)
    requires ValidInput(inp) && inp.rows == rows && inp.gotos == gotos
    ensures ok ==> Inv(inp, k) && YaccPack.Complete(inp, k)
    ensures ok ==> act == k.m[..k.maxa + 1] && pact == k.ind && pgo == k.pgo
  {
    var opt := new Optimizer(rows, gotos, inp);
    ok := opt.CallOpt();
    act, pact, pgo, k := [], [], [], opt.View();
    if ok {
      act, pact, pgo := opt.amem[..opt.maxa + 1], opt.indgo[..], opt.pgo[..];
    }
  }

  /** The rows of all states and nonterminals with the accessing symbols. */
  method CollectRows(st: Stagen, actions: seq<seq<int>>)
    returns (rows: seq<seq<Entry>>, gotos: seq<GotoRow>, chk: seq<int>, defs: seq<int>, chunks: seq<seq<Exc>>,
             lastreds: seq<int>,
             ghost cols: seq<seq<int>>)
    requires st.Shape() && AllWorked(st.g, st.lalr.View(), st.overlay.amem[..], st.indgo)
    requires st.g.ntokens <= NTERMS && st.g.nnonter <= NNONTERM
    requires |actions| == |st.lalr.kernels| && forall i | 0 <= i < |actions| ::
               GoodRow(st.g, st.lalr.View(), i, actions[i])
    ensures RowsOf(st.g, st.lalr.View(), actions, rows, gotos, chk, defs, chunks, lastreds, cols)
    ensures ValidInput(Input(rows, gotos, chk))
  {
    var g := st.g;
    ghost var a := st.lalr.View();
    rows, defs, chunks, lastreds := WriteActions(g, a, actions);
    gotos, cols := WriteGotos(g, st.lalr.kernels, st.overlay.amem, st.indgo, a);
    chk := AccessingSymbols(g, st.lalr.tstates, st.lalr.ntstates, st.lalr.mstates, st.lalr.acc, |st.lalr.kernels|);
    RowsAreValid(g, a, actions, rows, gotos, chk, defs, chunks, lastreds, cols);
  }

  ghost predicate RowsOf(g: Grammar, a: Auto, actions: seq<seq<int>>, rows: seq<seq<Entry>>, gotos: seq<GotoRow>,
                         chk: seq<int>,
                         defs: seq<int>, chunks: seq<seq<Exc>>, lastreds: seq<int>, cols: seq<seq<int>>) {
    && |rows| == |defs| == |chunks| == |lastreds| == |actions| == |a.kernels|
    && (forall i | 0 <= i < |actions| :: Encodes(actions[i], lastreds[i], rows[i], defs[i], chunks[i], i)
                                         && Increasing(rows[i]))
    && (forall i | 0 <= i < |actions| :: lastreds[i] >= 0 && (lastreds[i] != 0 ==> Recognised(g, a, i, lastreds[i])))
    && |gotos| == |cols| == g.nnonter + 1
    && (forall c | 1 <= c <= g.nnonter :: IsColumn(g, a, c, cols[c]) && GotoRowOf(cols[c], gotos[c]))
    && ChkOf(a, chk)
  }

  lemma RowsAreValid(g: Grammar, a: Auto, actions: seq<seq<int>>, rows: seq<seq<Entry>>, gotos: seq<GotoRow>,
                     chk: seq<int>,
                     defs: seq<int>, chunks: seq<seq<Exc>>, lastreds: seq<int>, cols: seq<seq<int>>)
    requires RowsOf(g, a, actions, rows, gotos, chk, defs, chunks, lastreds, cols)
    requires g.ntokens <= NTERMS && g.nnonter <= NNONTERM && forall i | 0 <= i < |actions| ::
               GoodRow(g, a, i, actions[i])
    ensures ValidInput(Input(rows, gotos, chk))
  {
    forall i | 0 <= i < |rows| ensures ValidShifts(rows[i], chk) {
      ShiftsValid(g, a, i, actions[i], lastreds[i], rows[i], defs[i], chunks[i], chk);
    }
    forall c | 1 <= c < |gotos| ensures ValidGotos(c, gotos[c], chk) {
      GotosValid(g, a, c, cols[c], gotos[c], chk);
    }
  }

  /** The arrays of the parser for the automaton of st, given the action row of every state. */
  method BuildTables(st: Stagen, actions: seq<seq<int>>)
    returns (ok: bool, t: Tables, ghost p: Plain, ghost inp: Input, ghost k: Packing, ghost chunks: seq<seq<Exc>>)
    requires st.Shape() && AllWorked(st.g, st.lalr.View(), st.overlay.amem[..], st.indgo)
    requires st.g.ntokens <= NTERMS && st.g.nnonter <= NNONTERM
    requires |actions| == |st.lalr.kernels| && forall i | 0 <= i < |actions| ::
               GoodRow(st.g, st.lalr.View(), i, actions[i])
    ensures ok ==> p.actions == actions && GoodPlain(st.g, st.lalr.View(), p)
                   && Made(p, st.g.ntokens, t, inp, k, chunks)
  {
    ghost var cols;
    var rows, gotos, chk, defs, chs, lastreds;
    rows, gotos, chk, defs, chs, lastreds, cols := CollectRows(st, actions);
    inp := Input(rows, gotos, chk);
    var act, pact, pgo;
    ok, act, pact, pgo, k := Pack(rows, gotos, inp);
    var prods := st.g.prods;
    var r1 := seq(|prods|, r requires 0 <= r < |prods| => if r == 0 then 0 else prods[r].lhs);
    var r2 := seq(|prods|, r requires 0 <= r < |prods| => if r == 0 then 0 else |prods[r].rhs|);
    p := Plain(actions, lastreds, cols, r1, r2);
    chunks := chs;
    t := Tables(act, pact, pgo, chk, defs, Flatten(chs), r1, r2);
    if ok {
      TablesAreMade(st.g, st.lalr.View(), p, t, inp, k, chs);
    }
  }

  lemma TablesAreMade(g: Grammar, a: Auto, p: Plain, t: Tables, inp: Input, k: Packing, chunks: seq<seq<Exc>>)
    requires g.Valid() && GoodAuto(g, a) && Inv(inp, k) && YaccPack.Complete(inp, k)
    requires RowsOf(g, a, p.actions, inp.rows, inp.gotos, inp.chk, t.def, chunks, p.lastred, p.cols)
    requires forall i | 0 <= i < |p.actions| :: GoodRow(g, a, i, p.actions[i])
    requires t.act == k.m[..k.maxa + 1] && t.pact == k.ind && t.pgo == k.pgo && t.chk == inp.chk
             && t.exca == Flatten(chunks)
    requires t.r1 == p.r1 && t.r2 == p.r2 && |p.r1| == |p.r2| == |g.prods| && p.r1[0] == 0 && p.r2[0] == 0
    requires forall r | 1 <= r < |g.prods| :: p.r1[r] == g.prods[r].lhs && p.r2[r] == |g.prods[r].rhs|
    ensures GoodPlain(g, a, p) && Made(p, g.ntokens, t, inp, k, chunks)
  {
    PlainValid(g, a, p);
    ArraysReadable(inp, k);
    assert t.Readable();
  }

  /** What the packed arrays say about state s is what the automaton says: the goto test finds exactly where the state
      goes on a nonterminal; the shift test succeeds exactly on the shifts of the action row, which go where the
      automaton goes, and fails where it goes only if the row has something else for the token. */
  lemma LookupsFollowAutomaton(g: Grammar, a: Auto, p: Plain, t: Tables, inp: Input, k: Packing,
                               chunks: seq<seq<Exc>>, s: nat)
    requires GoodPlain(g, a, p) && Made(p, g.ntokens, t, inp, k, chunks) && s < |a.kernels|
    ensures forall n, j | 1 <= n <= g.nnonter && GoesTo(g, a, s, N(n), j) && Goto(g, KSet(a, s), N(n)) != {} ::
              GotoTest(t, s, n) == Some(j)
    ensures forall c, j | 1 <= c <= g.ntokens :: ShiftTest(t, s, c) == Some(j) <==> IsShift(j) && p.actions[s][c] == j
    ensures forall c, j | 1 <= c <= g.ntokens && ShiftTest(t, s, c) == Some(j) :: GoesTo(g, a, s, T(c), j)
    ensures forall c, j | 1 <= c <= g.ntokens && GoesTo(g, a, s, T(c), j) ::
              if IsShift(p.actions[s][c]) then ShiftTest(t, s, c) == Some(j) else ShiftTest(t, s, c) == None
  {
    hide GoodAuto, Goto, KSet;
    forall n, j | 1 <= n <= g.nnonter && GoesTo(g, a, s, N(n), j) && Goto(g, KSet(a, s), N(n)) != {}
      ensures GotoTest(t, s, n) == Some(j)
    {
      assert IsColumn(g, a, n, p.cols[n]);
      OneGoto(g, a, s, N(n), j, p.cols[n][s]);
      GotoAgrees(p, g.ntokens, t, inp, k, chunks, s, n);
    }
    forall c | 1 <= c <= g.ntokens
      ensures ShiftTest(t, s, c) == if IsShift(p.actions[s][c]) then Some(p.actions[s][c]) else None
    {
      ShiftAgrees(p, g.ntokens, t, inp, k, chunks, s, c);
    }
    assert GoodRow(g, a, s, p.actions[s]);
    forall c, j | 1 <= c <= g.ntokens && GoesTo(g, a, s, T(c), j) && IsShift(p.actions[s][c])
      ensures p.actions[s][c] == j
    {
      OneGoto(g, a, s, T(c), j, p.actions[s][c]);
    }
  }
}
