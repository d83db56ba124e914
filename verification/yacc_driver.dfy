/**
 The parser driver: yyparse in units.c reads the packed arrays; a plain machine
 reads the action matrix and the goto matrix they were made from. Step by step
 and over whole runs the two are the same machine.
 */
module YaccDriver {
  import opened YaccPack
  import opened YaccAction

  const YYFLAG: int := -1000
  const YYEOFCODE: int := 1

  /** The arrays of a generated parser; act is cut at YYLAST. */
  datatype Tables = Tables(act: seq<int>, pact: seq<int>, pgo: seq<int>, chk: seq<int>, def: seq<int>,
                           exca: seq<Exc>, r1: seq<int>, r2: seq<int>)
  {
    ghost predicate Readable() {
      && |pact| == |chk| == |def|
      && (forall p | 0 <= p < |act| :: 0 <= act[p] < |chk|)
      && |r1| == |r2| && (forall r | 0 <= r < |r1| :: 0 <= r1[r] < |pgo| && r2[r] >= 0)
    }
  }

  // ---- Lookups in the packed arrays ---------------------------------------------------------

  /** The test before "valid shift". */
  function ShiftTest(t: Tables, s: int, c: int): Option<int>
    requires t.Readable() && 0 <= s < |t.pact|
  {
    var n := t.pact[s];
    if n <= YYFLAG then None
    else if n + c < 0 || n + c >= |t.act| then None
    else if t.chk[t.act[n + c]] == c then Some(t.act[n + c]) else None
  }

  /** The same for the error token during recovery; there is no test for a simple state here. */
  function ErrorTest(t: Tables, s: int): Option<int>
    requires t.Readable() && 0 <= s < |t.pact|
  {
    var n := t.pact[s] + YYERRCODE;
    if 0 <= n < |t.act| && t.chk[t.act[n]] == YYERRCODE then Some(t.act[n]) else None
  }

  /** The goto table: an entry of the row if its accessing symbol is a, otherwise the row's default. */
  function GotoTest(t: Tables, s: int, a: int): Option<int>
    requires t.Readable() && 0 <= s < |t.pact| && 0 <= a < |t.pgo|
  {
    var g := t.pgo[a];
    if g < 0 || g >= |t.act| then None
    else
      var j := g + s + 1;
      Some(if j >= |t.act| || t.chk[t.act[j]] != -a then t.act[g] else t.act[j])
  }

  /** The arrays t come from packing inp. */
  ghost predicate FromPacking(t: Tables, inp: Input, k: Packing) {
    && Inv(inp, k) && Complete(inp, k)
    && t.act == k.m[..k.maxa + 1] && t.pact == k.ind && t.pgo == k.pgo && t.chk == inp.chk
    && t.Readable()
  }

  lemma PlacedOffset(inp: Input, k: Packing, s: int)
    requires Inv(inp, k) && Complete(inp, k) && 0 <= s < |inp.rows|
    ensures inp.rows[s] == [] ==> k.ind[s] == YYFLAG
    ensures inp.rows[s] != [] ==> s in k.sdone && k.ind[s] > YYFLAG
  {
    if inp.rows[s] != [] {
      assert ValidShifts(inp.rows[s], inp.chk);
      assert inp.rows[s][0] in inp.rows[s];
      assert ShiftsIn(k.m, k.ind[s], inp.rows[s]);
    }
  }

  /** Packing preserves the shifts: the test succeeds exactly on the entries of the state's own row. */
  lemma ShiftLookupExact(t: Tables, inp: Input, k: Packing, s: int, c: int, target: int)
    requires FromPacking(t, inp, k)
    requires 0 <= s < |inp.rows| && c >= 1
    ensures ShiftTest(t, s, c) == Some(target) <==> Entry(c, target) in inp.rows[s]
  {
    PlacedOffset(inp, k, s);
    assert ValidShifts(inp.rows[s], inp.chk);
    var p := k.ind[s] + c;
    if Entry(c, target) in inp.rows[s] {
      assert ShiftsIn(k.m, k.ind[s], inp.rows[s]);
      assert k.m[k.ind[s] + Entry(c, target).index] == target;
      assert Explained(inp, k, p);
    }
    if ShiftTest(t, s, c) == Some(target) {
      assert t.act[p] == k.m[p] == target;
      assert Explained(inp, k, p);
      var o :| FromShift(inp, k, o, p, c, target);
      assert inp.rows[o] == inp.rows[s];
    }
  }

  lemma ErrorLookup(t: Tables, inp: Input, k: Packing, s: int)
    requires FromPacking(t, inp, k) && 0 <= s < |inp.rows|
    ensures ErrorTest(t, s) == ShiftTest(t, s, YYERRCODE)
  {
    PlacedOffset(inp, k, s);
  }

  /** A listed goto is read from its own cell. */
  lemma GotoException(t: Tables, inp: Input, k: Packing, s: int, a: int, target: int)
    requires FromPacking(t, inp, k) && 0 <= s < |inp.rows| && 1 <= a < |inp.gotos|
    requires inp.gotos[a].dflt != 0 && Entry(s, target) in inp.gotos[a].entries
    ensures GotoTest(t, s, a) == Some(target)
  {
    var r, g := inp.gotos[a], k.pgo[a];
    assert ValidGotos(a, r, inp.chk) && GotosIn(k.m, g, r);
    assert Explained(inp, k, g);
    assert k.m[g + Entry(s, target).index + 1] == target;
    assert Explained(inp, k, g + s + 1);
  }

  /** A cell with a's accessing symbol at a's offset is an entry of a's own row. */
  lemma GotoOwn(t: Tables, inp: Input, k: Packing, s: int, a: int)
    requires FromPacking(t, inp, k) && 0 <= s < |inp.rows| && 1 <= a < |inp.gotos| && inp.gotos[a].dflt != 0
    requires var j := k.pgo[a] + s + 1; 0 <= j < |t.act| && t.chk[t.act[j]] == -a
    ensures Entry(s, t.act[k.pgo[a] + s + 1]) in inp.gotos[a].entries
  {
    var j := k.pgo[a] + s + 1;
    assert t.act[j] == k.m[j];
    assert Explained(inp, k, j);
    assert FromGoto(inp, k, a, j, t.act[j]);
  }

  /** Packing preserves the gotos: an exception yields its own target, every other state the default. */
  lemma GotoLookupExact(t: Tables, inp: Input, k: Packing, s: int, a: int)
    requires FromPacking(t, inp, k)
    requires 0 <= s < |inp.rows| && 1 <= a < |inp.gotos| && inp.gotos[a].dflt != 0
    ensures forall target :: Entry(s, target) in inp.gotos[a].entries ==> GotoTest(t, s, a) == Some(target)
    ensures (forall target :: Entry(s, target) !in inp.gotos[a].entries) ==>
              GotoTest(t, s, a) == Some(inp.gotos[a].dflt)
  {
    forall target | Entry(s, target) in inp.gotos[a].entries ensures GotoTest(t, s, a) == Some(target) {
      GotoException(t, inp, k, s, a, target);
    }
    var r, g := inp.gotos[a], k.pgo[a];
    assert ValidGotos(a, r, inp.chk) && GotosIn(k.m, g, r);
    assert Explained(inp, k, g);
    var j := g + s + 1;
    if j < |t.act| && t.chk[t.act[j]] == -a {
      GotoOwn(t, inp, k, s, a);
    }
  }

  // ---- The uncompressed tables --------------------------------------------------------------

  /** actions[s][c] is the action row of state s before wract; cols[a][s] the goto of state s on a, 0 if none. */
  datatype Plain = Plain(actions: seq<seq<int>>, lastred: seq<int>, cols: seq<seq<int>>, r1: seq<int>, r2: seq<int>)
  {
    ghost predicate Valid(ntokens: nat) {
      && |actions| == |lastred| && YYERRCODE <= ntokens
      && (forall s | 0 <= s < |actions| :: |actions[s]| == ntokens + 1 && lastred[s] >= 0)
      && (forall s, c | 0 <= s < |actions| && 1 <= c <= ntokens :: IsShift(actions[s][c]) ==> actions[s][c] < |actions|)
      && (forall a | 1 <= a < |cols| :: |cols[a]| == |actions|
                                        && forall s | 0 <= s < |actions| :: 0 <= cols[a][s] < |actions|)
      && |r1| == |r2| && (forall r | 0 <= r < |r1| :: 0 <= r1[r] < |cols| && r2[r] >= 0)
      && (forall r | 1 <= r < |r1| :: r1[r] >= 1)
    }

    ghost predicate HasShift(s: int) requires 0 <= s < |actions| {
      exists c :: 1 <= c < |actions[s]| && IsShift(actions[s][c])
    }

    ghost predicate NeedsToken(s: int) requires 0 <= s < |actions| == |lastred| {
      exists c :: 1 <= c < |actions[s]| && Excepted(actions[s][c], lastred[s])
    }
  }

  /** r lists the column's gotos that differ from the most useful one. */
  ghost predicate Compresses(col: seq<int>, r: GotoRow) {
    && (forall e | e in r.entries :: 0 <= e.index < |col| && col[e.index] == e.target)
    && (forall s | 0 <= s < |col| && col[s] != 0 :: r.dflt != 0 && (col[s] == r.dflt || Entry(s, col[s]) in r.entries))
  }

  /** t was made from p: wract on every action row, go2out on every column, and callopt on the results. */
  ghost predicate Made(p: Plain, ntokens: nat, t: Tables, inp: Input, k: Packing, chunks: seq<seq<Exc>>) {
    && p.Valid(ntokens) && FromPacking(t, inp, k)
    && |inp.rows| == |chunks| == |p.actions| && t.exca == Flatten(chunks)
    && (forall s | 0 <= s < |p.actions| :: Encodes(p.actions[s], p.lastred[s], inp.rows[s], t.def[s], chunks[s], s))
    && |inp.gotos| == |p.cols| && (forall a | 1 <= a < |p.cols| :: Compresses(p.cols[a], inp.gotos[a]))
    && t.r1 == p.r1 && t.r2 == p.r2
  }

  // ---- The two machines -----------------------------------------------------------------------

  datatype Status = Running | Accepted | Aborted | Stuck

  /** The parser at label yynewstate; tok is -1 when no token has been fetched. */
  datatype Machine = Machine(stack: seq<int>, tok: int, pos: nat, errflag: int, nerrs: nat, status: Status)

  const YYMAXDEPTH: nat := 150

  function Push(m: Machine, s: int): Machine {
    if |m.stack| >= YYMAXDEPTH then m.(status := Aborted) else m.(stack := m.stack + [s])
  }

  function Lex(input: nat -> int, m: Machine): Machine {
    if m.tok < 0 then m.(tok := input(m.pos), pos := m.pos + 1) else m
  }

  function Shifted(m: Machine, s: int): Machine {
    Push(m.(tok := -1, errflag := if m.errflag > 0 then m.errflag - 1 else m.errflag), s)
  }

  predicate InRange(m: Machine, nstate: int) {
    m.status == Running ==> m.stack != [] && forall s | s in m.stack :: 0 <= s < nstate
  }

  /** Pop to a state where the error token is a legal shift. */
  function PackedRecover(t: Tables, m: Machine): Machine
    requires t.Readable() && forall s | s in m.stack :: 0 <= s < |t.pact|
    decreases |m.stack|
  {
    if m.stack == [] then m.(status := Aborted)
    else
      var s := m.stack[|m.stack| - 1];
      assert s in m.stack;
      match ErrorTest(t, s)
      case Some(e) => Push(m, e)
      case None =>
        var rest := m.(stack := m.stack[..|m.stack| - 1]);
        assert forall r | r in rest.stack :: r in m.stack;
        PackedRecover(t, rest)
  }

  function PackedError(t: Tables, m: Machine): Machine
    requires t.Readable() && forall s | s in m.stack :: 0 <= s < |t.pact|
  {
    if m.errflag == 3 then
      if m.tok == YYEOFCODE then m.(status := Aborted) else m.(tok := -1)
    else
      PackedRecover(t, m.(errflag := 3, nerrs := if m.errflag == 0 then m.nerrs + 1 else m.nerrs))
  }

  function PackedReduce(t: Tables, m: Machine, r: int): Machine
    requires t.Readable() && forall s | s in m.stack :: 0 <= s < |t.pact|
  {
    if r >= |t.r1| || r < 0 || |m.stack| <= t.r2[r] then m.(status := Stuck)
    else
      var rest := m.stack[..|m.stack| - t.r2[r]];
      assert rest[|rest| - 1] in m.stack;
      match GotoTest(t, rest[|rest| - 1], t.r1[r])
      case None => m.(status := Stuck)
      case Some(s) => Push(m.(stack := rest), s)
  }

  /** From yydefault on. */
  function PackedDefault(t: Tables, input: nat -> int, m: Machine): Machine
    requires t.Readable() && InRange(m, |t.pact|) && m.status == Running
  {
    var s := m.stack[|m.stack| - 1];
    assert s in m.stack;
    var m := if t.def[s] == -2 then Lex(input, m) else m;
    match DefaultAction(t.def[s], t.exca, s, m.tok)
    case None => m.(status := Stuck)
    case Some(n) =>
      if n < 0 then m.(status := Accepted) else if n == 0 then PackedError(t, m) else PackedReduce(t, m, n)
  }

  /** One trip of yyparse from yynewstate to the next yynewstate or to a return. */
  function PackedStep(t: Tables, input: nat -> int, m: Machine): Machine
    requires t.Readable() && InRange(m, |t.pact|) && m.status == Running
  {
    var s := m.stack[|m.stack| - 1];
    assert s in m.stack;
    if t.pact[s] <= YYFLAG then PackedDefault(t, input, m)
    else
      var m := Lex(input, m);
      match ShiftTest(t, s, m.tok)
      case Some(n) => Shifted(m, n)
      case None => PackedDefault(t, input, m)
  }

  ghost function PlainRecover(p: Plain, m: Machine): Machine
    requires forall s | s in m.stack :: 0 <= s < |p.actions| && |p.actions[s]| > YYERRCODE
    decreases |m.stack|
  {
    if m.stack == [] then m.(status := Aborted)
    else
      var s := m.stack[|m.stack| - 1];
      assert s in m.stack;
      if IsShift(p.actions[s][YYERRCODE]) then Push(m, p.actions[s][YYERRCODE])
      else
        var rest := m.(stack := m.stack[..|m.stack| - 1]);
        assert forall r | r in rest.stack :: r in m.stack;
        PlainRecover(p, rest)
  }

  ghost function PlainError(p: Plain, m: Machine): Machine
    requires forall s | s in m.stack :: 0 <= s < |p.actions| && |p.actions[s]| > YYERRCODE
  {
    if m.errflag == 3 then
      if m.tok == YYEOFCODE then m.(status := Aborted) else m.(tok := -1)
    else
      PlainRecover(p, m.(errflag := 3, nerrs := if m.errflag == 0 then m.nerrs + 1 else m.nerrs))
  }

  /** A reduction that finds no goto for the exposed state gets the plain machine stuck. */
  ghost function PlainReduce(p: Plain, ntokens: nat, m: Machine, r: int): Machine
    requires p.Valid(ntokens) && forall s | s in m.stack :: 0 <= s < |p.actions|
    requires r > 0
  {
    if r >= |p.r1| || |m.stack| <= p.r2[r] then m.(status := Stuck)
    else
      var rest := m.stack[..|m.stack| - p.r2[r]];
      assert rest[|rest| - 1] in m.stack;
      var s := p.cols[p.r1[r]][rest[|rest| - 1]];
      if s == 0 then m.(status := Stuck) else Push(m.(stack := rest), s)
  }

  ghost function PlainDefault(p: Plain, ntokens: nat, input: nat -> int, m: Machine): Machine
    requires p.Valid(ntokens) && InRange(m, |p.actions|) && m.status == Running
    requires (forall i :: 1 <= input(i) <= ntokens) && m.tok <= ntokens && m.tok != 0
  {
    var s := m.stack[|m.stack| - 1];
    assert s in m.stack;
    var m := if p.NeedsToken(s) then Lex(input, m) else m;
    var n := if p.NeedsToken(s) then Fallback(p.actions[s][m.tok], p.lastred[s]) else p.lastred[s];
    if n < 0 then m.(status := Accepted)
    else if n == 0 then PlainError(p, m)
    else PlainReduce(p, ntokens, m, n)
  }

  ghost function PlainStep(p: Plain, ntokens: nat, input: nat -> int, m: Machine): Machine
    requires p.Valid(ntokens) && InRange(m, |p.actions|) && m.status == Running
    requires (forall i :: 1 <= input(i) <= ntokens) && m.tok <= ntokens && m.tok != 0
  {
    var s := m.stack[|m.stack| - 1];
    assert s in m.stack;
    if !p.HasShift(s) then PlainDefault(p, ntokens, input, m)
    else
      var m := Lex(input, m);
      if IsShift(p.actions[s][m.tok]) then Shifted(m, p.actions[s][m.tok])
      else PlainDefault(p, ntokens, input, m)
  }

  // ---- Every step agrees -----------------------------------------------------------------------

  lemma ShiftAgrees(p: Plain, ntokens: nat, t: Tables, inp: Input, k: Packing, chunks: seq<seq<Exc>>, s: int, c: int)
    requires Made(p, ntokens, t, inp, k, chunks) && 0 <= s < |p.actions| && 1 <= c <= ntokens
    ensures ShiftTest(t, s, c) == if IsShift(p.actions[s][c]) then Some(p.actions[s][c]) else None
  {
    assert Encodes(p.actions[s], p.lastred[s], inp.rows[s], t.def[s], chunks[s], s);
    match ShiftTest(t, s, c)
    case Some(v) =>
      ShiftLookupExact(t, inp, k, s, c, v);
    case None =>
      ShiftLookupExact(t, inp, k, s, c, p.actions[s][c]);
  }

  lemma SimpleAgrees(p: Plain, ntokens: nat, t: Tables, inp: Input, k: Packing, chunks: seq<seq<Exc>>, s: int)
    requires Made(p, ntokens, t, inp, k, chunks) && 0 <= s < |p.actions|
    ensures t.pact[s] > YYFLAG <==> p.HasShift(s)
  {
    assert Encodes(p.actions[s], p.lastred[s], inp.rows[s], t.def[s], chunks[s], s);
    PlacedOffset(inp, k, s);
    if inp.rows[s] != [] {
      assert inp.rows[s][0] in inp.rows[s];
    }
  }

  lemma FallbackAgrees(p: Plain, ntokens: nat, t: Tables, inp: Input, k: Packing, chunks: seq<seq<Exc>>, s: int, c: int)
    requires Made(p, ntokens, t, inp, k, chunks) && 0 <= s < |p.actions|
    ensures t.def[s] == -2 <==> p.NeedsToken(s)
    ensures t.def[s] != -2 ==> t.def[s] == p.lastred[s]
    ensures t.def[s] == -2 && 1 <= c <= ntokens && !IsShift(p.actions[s][c]) ==>
              DefaultAction(-2, t.exca, s, c) == Some(Fallback(p.actions[s][c], p.lastred[s]))
  {
    assert Encodes(p.actions[s], p.lastred[s], inp.rows[s], t.def[s], chunks[s], s);
    if t.def[s] == -2 && 1 <= c <= ntokens && !IsShift(p.actions[s][c]) {
      forall i | 0 <= i < |chunks| ensures ValidChunk(chunks[i], i) {
        assert Encodes(p.actions[i], p.lastred[i], inp.rows[i], t.def[i], chunks[i], i);
      }
      ChunkInTable(chunks, s, c);
    }
  }

  lemma GotoAgrees(p: Plain, ntokens: nat, t: Tables, inp: Input, k: Packing, chunks: seq<seq<Exc>>, s: int, a: int)
    requires Made(p, ntokens, t, inp, k, chunks) && 0 <= s < |p.actions| && 1 <= a < |p.cols| && p.cols[a][s] != 0
    ensures GotoTest(t, s, a) == Some(p.cols[a][s])
  {
    var r := inp.gotos[a];
    assert Compresses(p.cols[a], r);
    GotoLookupExact(t, inp, k, s, a);
    if target :| Entry(s, target) in r.entries {
      assert p.cols[a][Entry(s, target).index] == target;
    }
  }

  lemma {:induction false} RecoverAgrees(p: Plain, ntokens: nat, t: Tables, inp: Input, k: Packing,
                                         chunks: seq<seq<Exc>>, m: Machine)
    requires Made(p, ntokens, t, inp, k, chunks)
    requires forall s | s in m.stack :: 0 <= s < |p.actions|
    ensures PackedRecover(t, m) == PlainRecover(p, m)
    decreases |m.stack|
  {
    if m.stack != [] {
      var s := m.stack[|m.stack| - 1];
      assert s in m.stack;
      ErrorLookup(t, inp, k, s);
      ShiftAgrees(p, ntokens, t, inp, k, chunks, s, YYERRCODE);
      var rest := m.(stack := m.stack[..|m.stack| - 1]);
      assert forall r | r in rest.stack :: r in m.stack;
      RecoverAgrees(p, ntokens, t, inp, k, chunks, rest);
    }
  }

  lemma ReduceAgrees(p: Plain, ntokens: nat, t: Tables, inp: Input, k: Packing, chunks: seq<seq<Exc>>,
                     m: Machine, r: int)
    requires Made(p, ntokens, t, inp, k, chunks)
    requires r > 0 && forall s | s in m.stack :: 0 <= s < |p.actions|
    ensures var plain := PlainReduce(p, ntokens, m, r);
            plain.status != Stuck ==> PackedReduce(t, m, r) == plain
  {
    if r < |p.r1| && |m.stack| > p.r2[r] {
      var rest := m.stack[..|m.stack| - p.r2[r]];
      assert rest[|rest| - 1] in m.stack;
      if p.cols[p.r1[r]][rest[|rest| - 1]] != 0 {
        GotoAgrees(p, ntokens, t, inp, k, chunks, rest[|rest| - 1], p.r1[r]);
      }
    }
  }

  lemma ErrorAgrees(p: Plain, ntokens: nat, t: Tables, inp: Input, k: Packing, chunks: seq<seq<Exc>>, m: Machine)
    requires Made(p, ntokens, t, inp, k, chunks)
    requires forall s | s in m.stack :: 0 <= s < |p.actions|
    ensures PackedError(t, m) == PlainError(p, m)
  {
    RecoverAgrees(p, ntokens, t, inp, k, chunks,
                  m.(errflag := 3, nerrs := if m.errflag == 0 then m.nerrs + 1 else m.nerrs));
  }

  lemma DefaultAgrees(p: Plain, ntokens: nat, t: Tables, inp: Input, k: Packing, chunks: seq<seq<Exc>>,
                      input: nat -> int, m: Machine)
    requires Made(p, ntokens, t, inp, k, chunks)
    requires InRange(m, |p.actions|) && m.status == Running
    requires (forall i :: 1 <= input(i) <= ntokens) && m.tok <= ntokens && m.tok != 0
    requires var s := m.stack[|m.stack| - 1];
             assert s in m.stack; !p.HasShift(s) || (m.tok > 0 && !IsShift(p.actions[s][m.tok]))
    ensures var plain := PlainDefault(p, ntokens, input, m);
            plain.status != Stuck ==> PackedDefault(t, input, m) == plain
  {
    hide PackedReduce, PlainReduce, PackedError, PlainError, Encodes, Compresses;
    var s := m.stack[|m.stack| - 1];
    assert s in m.stack;
    var m' := if p.NeedsToken(s) then Lex(input, m) else m;
    FallbackAgrees(p, ntokens, t, inp, k, chunks, s, m'.tok);
    var n := if p.NeedsToken(s) then Fallback(p.actions[s][m'.tok], p.lastred[s]) else p.lastred[s];
    if n == 0 {
      ErrorAgrees(p, ntokens, t, inp, k, chunks, m');
    } else if n > 0 {
      ReduceAgrees(p, ntokens, t, inp, k, chunks, m', n);
    }
  }

  /** One step of the packed parser is the plain machine's step, unless a reduction exposes a state with no goto. */
  lemma StepAgrees(p: Plain, ntokens: nat, t: Tables, inp: Input, k: Packing, chunks: seq<seq<Exc>>,
                   input: nat -> int, m: Machine)
    requires Made(p, ntokens, t, inp, k, chunks)
    requires InRange(m, |p.actions|) && m.status == Running
    requires (forall i :: 1 <= input(i) <= ntokens) && m.tok <= ntokens && m.tok != 0
    ensures var plain := PlainStep(p, ntokens, input, m);
            plain.status != Stuck ==> PackedStep(t, input, m) == plain
  {
    hide PackedDefault, PlainDefault, FromPacking, ShiftTest, Encodes, Compresses;
    var s := m.stack[|m.stack| - 1];
    assert s in m.stack;
    SimpleAgrees(p, ntokens, t, inp, k, chunks, s);
    if p.HasShift(s) {
      var m' := Lex(input, m);
      ShiftAgrees(p, ntokens, t, inp, k, chunks, s, m'.tok);
      if !IsShift(p.actions[s][m'.tok]) {
        DefaultAgrees(p, ntokens, t, inp, k, chunks, input, m');
      }
    } else {
      DefaultAgrees(p, ntokens, t, inp, k, chunks, input, m);
    }
  }

  // ---- Whole runs --------------------------------------------------------------------------------

  function Start(): Machine {
    Machine([0], -1, 0, 0, 0, Running)
  }

  ghost predicate Good(p: Plain, ntokens: nat, m: Machine) {
    InRange(m, |p.actions|) && m.tok <= ntokens && m.tok != 0
  }

  lemma {:induction false} PlainRecoverStays(p: Plain, ntokens: nat, m: Machine)
    requires p.Valid(ntokens)
    requires forall s | s in m.stack :: 0 <= s < |p.actions|
    ensures var m' := PlainRecover(p, m); m'.tok == m.tok && InRange(m', |p.actions|)
    decreases |m.stack|
  {
    if m.stack != [] {
      assert m.stack[|m.stack| - 1] in m.stack;
      var rest := m.(stack := m.stack[..|m.stack| - 1]);
      assert forall r | r in rest.stack :: r in m.stack;
      PlainRecoverStays(p, ntokens, rest);
    }
  }

  lemma PlainReduceStays(p: Plain, ntokens: nat, m: Machine, r: int)
    requires p.Valid(ntokens) && Good(p, ntokens, m) && m.status == Running && r > 0
    ensures Good(p, ntokens, PlainReduce(p, ntokens, m, r))
  {
    if r < |p.r1| && |m.stack| > p.r2[r] {
      var rest := m.stack[..|m.stack| - p.r2[r]];
      assert forall s | s in rest :: s in m.stack;
      assert rest[|rest| - 1] in m.stack;
    }
  }

  lemma PlainDefaultStays(p: Plain, ntokens: nat, input: nat -> int, m: Machine)
    requires p.Valid(ntokens) && Good(p, ntokens, m) && m.status == Running
    requires forall i :: 1 <= input(i) <= ntokens
    ensures Good(p, ntokens, PlainDefault(p, ntokens, input, m))
  {
    var s := m.stack[|m.stack| - 1];
    assert s in m.stack;
    var m' := if p.NeedsToken(s) then Lex(input, m) else m;
    var n := if p.NeedsToken(s) then Fallback(p.actions[s][m'.tok], p.lastred[s]) else p.lastred[s];
    PlainRecoverStays(p, ntokens, m'.(errflag := 3, nerrs := if m'.errflag == 0 then m'.nerrs + 1 else m'.nerrs));
    if n > 0 {
      PlainReduceStays(p, ntokens, m', n);
    }
  }

  lemma PlainStepStays(p: Plain, ntokens: nat, input: nat -> int, m: Machine)
    requires p.Valid(ntokens) && Good(p, ntokens, m) && m.status == Running
    requires forall i :: 1 <= input(i) <= ntokens
    ensures Good(p, ntokens, PlainStep(p, ntokens, input, m))
  {
    var s := m.stack[|m.stack| - 1];
    assert s in m.stack;
    PlainDefaultStays(p, ntokens, input, if p.HasShift(s) then Lex(input, m) else m);
  }

  /** The plain machine after at most n steps. */
  ghost function PlainRun(p: Plain, ntokens: nat, input: nat -> int, n: nat): (m: Machine)
    requires p.Valid(ntokens) && |p.actions| > 0 && forall i :: 1 <= input(i) <= ntokens
    ensures Good(p, ntokens, m)
  {
    if n == 0 then Start()
    else
      var m := PlainRun(p, ntokens, input, n - 1);
      if m.status != Running then m
      else
        PlainStepStays(p, ntokens, input, m);
        PlainStep(p, ntokens, input, m)
  }

  ghost function PackedRun(t: Tables, input: nat -> int, n: nat): Machine
    requires t.Readable()
  {
    if n == 0 then Start()
    else
      var m := PackedRun(t, input, n - 1);
      if m.status != Running || !InRange(m, |t.pact|) then m else PackedStep(t, input, m)
  }

  /** yyparse on the packed arrays makes, on every token stream, exactly the moves of the uncompressed tables. */
  lemma {:induction false} RunsAgree(p: Plain, ntokens: nat, t: Tables, inp: Input, k: Packing, chunks: seq<seq<Exc>>,
                                    input: nat -> int, n: nat)
    requires Made(p, ntokens, t, inp, k, chunks)
    requires forall i :: 1 <= input(i) <= ntokens
    requires PlainRun(p, ntokens, input, n).status != Stuck
    ensures PackedRun(t, input, n) == PlainRun(p, ntokens, input, n)
  {
    if n > 0 {
      RunsAgree(p, ntokens, t, inp, k, chunks, input, n - 1);
      var m := PlainRun(p, ntokens, input, n - 1);
      if m.status == Running {
        StepAgrees(p, ntokens, t, inp, k, chunks, input, m);
      }
    }
  }
}
