/**
 Errors in the parser's runs: what errflag and nerrs say, what recovery leaves on the stack, and what becomes of the
 tokens. Everything is said of the packed parser, in terms of the action rows its tables were made from.
 */
module YaccRecovery {
  import opened YaccPack
  import opened YaccAction
  import opened YaccDriver
  import opened YaccGrammar
  import opened YaccStates
  import opened YaccViable

  // ---- Where a step is -----------------------------------------------------------------------------------

  /** The number of tokens that have been shifted or thrown away. */
  function Next(m: Machine): int {
    if m.tok >= 0 then m.pos - 1 else m.pos
  }

  /** A token that has been fetched and not yet used is the next one. */
  predicate Fetched(input: nat -> int, m: Machine) {
    m.tok == -1 || (m.pos > 0 && m.tok == input(m.pos - 1))
  }

  predicate Going(m: Machine) {
    m.status == Running && m.stack != []
  }

  function Top(m: Machine): int
    requires m.stack != []
  {
    m.stack[|m.stack| - 1]
  }

  /** What the row of the state on top has for the next token. */
  ghost function Entry(p: Plain, input: nat -> int, m: Machine): int
    requires Going(m)
  {
    if 0 <= Top(m) < |p.actions| && 0 <= Next(m) && 0 <= input(Next(m)) < |p.actions[Top(m)]| then
      p.actions[Top(m)][input(Next(m))]
    else 0
  }

  ghost predicate Shifts(p: Plain, input: nat -> int, m: Machine) {
    Going(m) && IsShift(Entry(p, input, m))
  }

  /** An error is met: no shift, no reduction, and no acceptance. */
  ghost predicate Errs(p: Plain, input: nat -> int, m: Machine) {
    && Going(m) && !IsShift(Entry(p, input, m)) && 0 <= Top(m) < |p.lastred|
    && Fallback(Entry(p, input, m), p.lastred[Top(m)]) == 0
  }

  /** The next token is in hand, or is looked at. A state all of whose entries are errors looks at none. */
  ghost predicate Sees(p: Plain, m: Machine) {
    && Going(m) && 0 <= Top(m) < |p.actions| == |p.lastred|
    && (m.tok >= 0 || p.HasShift(Top(m)) || p.NeedsToken(Top(m)))
  }

  ghost predicate ShiftsError(p: Plain, s: int) {
    0 <= s < |p.actions| && YYERRCODE < |p.actions[s]| && IsShift(p.actions[s][YYERRCODE])
  }

  /** Of the states on the stack, the one at k is the uppermost that shifts the error token. */
  ghost predicate Uppermost(p: Plain, stack: seq<int>, k: nat) {
    k < |stack| && ShiftsError(p, stack[k]) && forall l | k < l < |stack| :: !ShiftsError(p, stack[l])
  }

  // ---- What a step does ------------------------------------------------------------------------------------

  /** The token is used up, and errflag goes down. */
  ghost predicate ShiftStep(p: Plain, input: nat -> int, m: Machine, m': Machine)
    requires Going(m)
  {
    && Next(m') == Next(m) + 1 && m'.tok == -1 && m'.nerrs == m.nerrs
    && m'.errflag == (if m.errflag == 0 then 0 else m.errflag - 1)
    && if |m.stack| < YYMAXDEPTH then m'.status == Running && m'.stack == m.stack + [Entry(p, input, m)]
       else m'.status == Aborted
  }

  /** No token has been shifted since the last error: the next one is thrown away, or the parser gives up at the end. */
  ghost predicate DiscardStep(p: Plain, input: nat -> int, m: Machine, m': Machine) {
    && 0 <= Next(m) && m'.errflag == 3 && m'.nerrs == m.nerrs && m'.stack == m.stack
    && (m'.status == Running || m'.status == Aborted)
    && (m'.status == Aborted <==> Sees(p, m) && input(Next(m)) == YYEOFCODE)
    && (m'.status == Running ==> m'.tok == -1 && Next(m') == Next(m) + if Sees(p, m) then 1 else 0)
  }

  /** The stack is cut back to the uppermost state that shifts the error token, and that is shifted; or the parser gives
      up, if there is none. */
  ghost predicate RecoverStep(p: Plain, m: Machine, m': Machine) {
    && m'.errflag == 3 && m'.nerrs == m.nerrs + (if m.errflag == 0 then 1 else 0) && Next(m') == Next(m)
    && (m'.status == Running || m'.status == Aborted)
    && (forall k: nat | Uppermost(p, m.stack, k) ::
          if k + 1 < YYMAXDEPTH then
            m'.status == Running && m'.stack == m.stack[..k + 1] + [p.actions[m.stack[k]][YYERRCODE]]
          else m'.status == Aborted)
    && ((forall k: nat :: !Uppermost(p, m.stack, k)) ==> m'.status == Aborted)
  }

  /** The row accepts under the next token. */
  ghost predicate Accepts(p: Plain, input: nat -> int, m: Machine) {
    && Going(m) && !IsShift(Entry(p, input, m)) && 0 <= Top(m) < |p.lastred|
    && Fallback(Entry(p, input, m), p.lastred[Top(m)]) < 0
  }

  /** Errors and tokens are as they were. */
  predicate QuietStep(m: Machine, m': Machine) {
    Next(m') == Next(m) && m'.errflag == m.errflag && m'.nerrs == m.nerrs
  }

  ghost predicate Step(p: Plain, input: nat -> int, m: Machine, m': Machine) {
    && (Shifts(p, input, m) ==> ShiftStep(p, input, m, m'))
    && (Errs(p, input, m) && m.errflag == 3 ==> DiscardStep(p, input, m, m'))
    && (Errs(p, input, m) && m.errflag != 3 ==> RecoverStep(p, m, m'))
    && (!Shifts(p, input, m) && !Errs(p, input, m) ==> QuietStep(m, m'))
    && (m'.status == Accepted <==> Accepts(p, input, m))
  }

  // ---- The plain machine does so -----------------------------------------------------------------------------

  ghost predicate Kept(p: Plain, ntokens: nat, input: nat -> int, m: Machine) {
    p.Valid(ntokens) && Good(p, ntokens, m) && Fetched(input, m) && 0 <= m.errflag <= 3
  }

  lemma UppermostOfRest(p: Plain, stack: seq<int>, k: nat)
    requires stack != [] && !ShiftsError(p, stack[|stack| - 1])
    ensures Uppermost(p, stack, k) <==> Uppermost(p, stack[..|stack| - 1], k)
  {
  }

  ghost predicate Rows(p: Plain, stack: seq<int>) {
    forall s | s in stack :: 0 <= s < |p.actions| && |p.actions[s]| > YYERRCODE
  }

  lemma RestRows(p: Plain, stack: seq<int>)
    requires Rows(p, stack) && stack != []
    ensures Rows(p, stack[..|stack| - 1])
    ensures 0 <= stack[|stack| - 1] < |p.actions| && |p.actions[stack[|stack| - 1]]| > YYERRCODE
  {
    var rest := stack[..|stack| - 1];
    assert stack == rest + [stack[|stack| - 1]];
    assert stack[|stack| - 1] in stack;
    assert forall s | s in rest :: s in stack;
  }

  lemma {:induction false} RecoverCounts(p: Plain, m: Machine)
    requires m.status == Running && Rows(p, m.stack)
    ensures var m' := PlainRecover(p, m);
            && m'.errflag == m.errflag && m'.nerrs == m.nerrs && m'.tok == m.tok && m'.pos == m.pos
            && (m'.status == Running || m'.status == Aborted)
    decreases |m.stack|
  {
    if m.stack != [] {
      RestRows(p, m.stack);
      RecoverCounts(p, m.(stack := m.stack[..|m.stack| - 1]));
    }
  }

  lemma {:induction false} RecoverFinds(p: Plain, m: Machine, k: nat)
    requires m.status == Running && Rows(p, m.stack) && Uppermost(p, m.stack, k)
    ensures PlainRecover(p, m) == Push(m.(stack := m.stack[..k + 1]), p.actions[m.stack[k]][YYERRCODE])
    decreases |m.stack|
  {
    RestRows(p, m.stack);
    var n := |m.stack| - 1;
    if k == n {
      assert m.stack[..k + 1] == m.stack;
    } else {
      assert !ShiftsError(p, m.stack[n]);
      RecoverFinds(p, m.(stack := m.stack[..n]), k);
      assert m.stack[..n][..k + 1] == m.stack[..k + 1];
    }
  }

  lemma {:induction false} RecoverFails(p: Plain, m: Machine)
    requires m.status == Running && Rows(p, m.stack) && forall k: nat :: !Uppermost(p, m.stack, k)
    ensures PlainRecover(p, m).status == Aborted
    decreases |m.stack|
  {
    if m.stack != [] {
      RestRows(p, m.stack);
      var n := |m.stack| - 1;
      assert !Uppermost(p, m.stack, n);
      forall k: nat ensures !Uppermost(p, m.stack[..n], k) {
        UppermostOfRest(p, m.stack, k);
      }
      RecoverFails(p, m.(stack := m.stack[..n]));
    }
  }

  lemma RecoverIs(p: Plain, m: Machine, e: Machine)
    requires m.status == Running && Rows(p, m.stack) && m.errflag != 3
    requires e == m.(errflag := 3, nerrs := if m.errflag == 0 then m.nerrs + 1 else m.nerrs)
    ensures RecoverStep(p, m, PlainRecover(p, e))
  {
    hide PlainRecover;
    RecoverCounts(p, e);
    forall k: nat | Uppermost(p, m.stack, k)
      ensures PlainRecover(p, e) == Push(e.(stack := m.stack[..k + 1]), p.actions[m.stack[k]][YYERRCODE])
    {
      RecoverFinds(p, e, k);
    }
    if forall k: nat :: !Uppermost(p, m.stack, k) {
      RecoverFails(p, e);
    }
  }

  /** Looking at the next token does not use it up. */
  lemma LexIs(input: nat -> int, m: Machine)
    requires Fetched(input, m) && forall i :: input(i) >= 1
    ensures var l := Lex(input, m);
            && Fetched(input, l) && 0 <= Next(l) == Next(m) && l.tok == input(Next(m))
            && l.stack == m.stack && l.errflag == m.errflag && l.nerrs == m.nerrs && l.status == m.status
  {
  }

  lemma TopRow(p: Plain, ntokens: nat, input: nat -> int, m: Machine)
    requires Kept(p, ntokens, input, m) && Going(m)
    ensures Rows(p, m.stack) && 0 <= Top(m) < |p.actions| == |p.lastred| && |p.actions[Top(m)]| == ntokens + 1
  {
    assert Top(m) in m.stack;
  }

  lemma ErrorIs(p: Plain, ntokens: nat, input: nat -> int, m: Machine, l: Machine)
    requires Kept(p, ntokens, input, m) && Going(m) && forall i :: 1 <= input(i) <= ntokens
    requires 0 <= Top(m) < |p.actions| == |p.lastred|
    requires l == if p.HasShift(Top(m)) || p.NeedsToken(Top(m)) then Lex(input, m) else m
    ensures Rows(p, l.stack)
    ensures m.errflag == 3 ==> DiscardStep(p, input, m, PlainError(p, l))
    ensures m.errflag != 3 ==> RecoverStep(p, m, PlainError(p, l))
    ensures Kept(p, ntokens, input, PlainError(p, l)) && PlainError(p, l).status != Accepted
  {
    hide PlainRecover, Plain.HasShift, Plain.NeedsToken;
    TopRow(p, ntokens, input, m);
    LexIs(input, m);
    if m.errflag != 3 {
      var e := l.(errflag := 3, nerrs := if l.errflag == 0 then l.nerrs + 1 else l.nerrs);
      RecoverIs(p, l, e);
      PlainRecoverStays(p, ntokens, e);
      RecoverCounts(p, e);
    }
  }

  /** What the default section answers is what the row has for the next token, looked at or not. */
  lemma AnswerIs(p: Plain, ntokens: nat, input: nat -> int, m: Machine)
    requires Kept(p, ntokens, input, m) && Going(m) && (forall i :: 1 <= input(i) <= ntokens) && !Shifts(p, input, m)
    ensures 0 <= Top(m) < |p.actions| == |p.lastred| && 0 <= Next(m) && 1 <= input(Next(m)) < |p.actions[Top(m)]|
    ensures Entry(p, input, m) == p.actions[Top(m)][input(Next(m))]
    ensures !p.NeedsToken(Top(m)) ==> Fallback(Entry(p, input, m), p.lastred[Top(m)]) == p.lastred[Top(m)]
  {
    TopRow(p, ntokens, input, m);
    LexIs(input, m);
  }

  lemma DefaultIs(p: Plain, ntokens: nat, input: nat -> int, m: Machine, x: Machine)
    requires Kept(p, ntokens, input, m) && Going(m) && (forall i :: 1 <= input(i) <= ntokens) && !Shifts(p, input, m)
    requires 0 <= Top(m) < |p.actions| && x == (if p.HasShift(Top(m)) then Lex(input, m) else m)
    requires Good(p, ntokens, x) && PlainDefault(p, ntokens, input, x).status != Stuck
    ensures Step(p, input, m, PlainDefault(p, ntokens, input, x))
            && Kept(p, ntokens, input, PlainDefault(p, ntokens, input, x))
  {
    hide PlainError, PlainReduce, Plain.HasShift, Plain.NeedsToken, DiscardStep, RecoverStep, Fallback;
    AnswerIs(p, ntokens, input, m);
    LexIs(input, m);
    var s := Top(m);
    assert s in m.stack;
    var l := if p.NeedsToken(s) then Lex(input, x) else x;
    assert l == if p.HasShift(s) || p.NeedsToken(s) then Lex(input, m) else m;
    var n := if p.NeedsToken(s) then Fallback(p.actions[s][l.tok], p.lastred[s]) else p.lastred[s];
    assert n == Fallback(Entry(p, input, m), p.lastred[s]);
    if n == 0 {
      ErrorIs(p, ntokens, input, m, l);
    } else if n > 0 {
      ReduceIs(p, ntokens, l, n);
    }
  }

  lemma ReduceIs(p: Plain, ntokens: nat, l: Machine, r: int)
    requires p.Valid(ntokens) && Good(p, ntokens, l) && l.status == Running && r > 0
    ensures var m' := PlainReduce(p, ntokens, l, r);
            && Good(p, ntokens, m') && m'.tok == l.tok && m'.pos == l.pos && m'.errflag == l.errflag
            && m'.nerrs == l.nerrs
            && m'.status != Accepted
  {
    PlainReduceStays(p, ntokens, l, r);
  }

  lemma StepIs(p: Plain, ntokens: nat, input: nat -> int, m: Machine)
    requires Kept(p, ntokens, input, m) && Going(m) && (forall i :: 1 <= input(i) <= ntokens)
    requires PlainStep(p, ntokens, input, m).status != Stuck
    ensures Step(p, input, m, PlainStep(p, ntokens, input, m))
            && Kept(p, ntokens, input, PlainStep(p, ntokens, input, m))
  {
    hide PlainDefault, Plain.NeedsToken, Fallback, DiscardStep, RecoverStep;
    TopRow(p, ntokens, input, m);
    LexIs(input, m);
    var s := Top(m);
    assert s in m.stack;
    if Shifts(p, input, m) {
      assert p.HasShift(s) by {
        assert IsShift(p.actions[s][input(Next(m))]);
      }
      PlainStepStays(p, ntokens, input, m);
    } else {
      DefaultIs(p, ntokens, input, m, if p.HasShift(s) then Lex(input, m) else m);
    }
  }

  // ---- Whole runs ---------------------------------------------------------------------------------------------

  /** The parser, reading input, is the plain machine of p. */
  ghost predicate Follows(t: Tables, p: Plain, ntokens: nat, input: nat -> int) {
    && t.Readable() && p.Valid(ntokens) && |p.actions| > 0 && (forall i :: 1 <= input(i) <= ntokens)
    && forall n: nat :: PackedRun(t, input, n) == PlainRun(p, ntokens, input, n)
                        && PackedRun(t, input, n).status != Stuck
  }

  lemma {:induction false} RunKept(t: Tables, p: Plain, ntokens: nat, input: nat -> int, n: nat)
    requires Follows(t, p, ntokens, input)
    ensures Kept(p, ntokens, input, PackedRun(t, input, n))
  {
    hide PackedStep, PlainStep;
    if n > 0 {
      RunKept(t, p, ntokens, input, n - 1);
      var m := PackedRun(t, input, n - 1);
      if m.status == Running {
        RunStep(t, p, ntokens, input, n - 1);
      }
    }
  }

  lemma RunStep(t: Tables, p: Plain, ntokens: nat, input: nat -> int, n: nat)
    requires Follows(t, p, ntokens, input) && PackedRun(t, input, n).status == Running
    requires Kept(p, ntokens, input, PackedRun(t, input, n))
    ensures Step(p, input, PackedRun(t, input, n), PackedRun(t, input, n + 1))
            && Kept(p, ntokens, input, PackedRun(t, input, n + 1))
  {
    hide PackedStep, PlainStep, Step;
    var m := PlainRun(p, ntokens, input, n);
    assert PlainRun(p, ntokens, input, n + 1) == PlainStep(p, ntokens, input, m);
    assert PackedRun(t, input, n + 1).status != Stuck;
    StepIs(p, ntokens, input, m);
  }

  /** The tokens that are shifted in the steps from i up to n. */
  ghost function ShiftsBetween(t: Tables, p: Plain, input: nat -> int, i: nat, n: nat): nat
    requires t.Readable() && i <= n
  {
    if i == n then 0
    else ShiftsBetween(t, p, input, i, n - 1) + if Shifts(p, input, PackedRun(t, input, n - 1)) then 1 else 0
  }

  /** The steps before n at which an error is met after there has been none, or three tokens have been shifted since. */
  ghost function NewErrors(t: Tables, p: Plain, input: nat -> int, n: nat): set<nat>
    requires t.Readable()
  {
    set i: nat | i < n && Errs(p, input, PackedRun(t, input, i)) && PackedRun(t, input, i).errflag == 0
  }

  /** Of the errors met before step n, the one at i is the last. */
  ghost predicate LastError(t: Tables, p: Plain, input: nat -> int, i: nat, n: nat)
    requires t.Readable()
  {
    && i < n && Errs(p, input, PackedRun(t, input, i))
    && forall j: nat | i < j < n :: !Errs(p, input, PackedRun(t, input, j))
  }

  /** The flag is 3 less the tokens shifted since the last error, but not below 0. */
  ghost predicate FlagIs(t: Tables, p: Plain, input: nat -> int, n: nat)
    requires t.Readable()
  {
    var e := PackedRun(t, input, n).errflag;
    && ((forall i: nat | i < n :: !Errs(p, input, PackedRun(t, input, i))) ==> e == 0)
    && forall i: nat | LastError(t, p, input, i, n) ::
         var k := ShiftsBetween(t, p, input, i + 1, n); e == if k < 3 then 3 - k else 0
  }

  /** A step, or none because the parser has stopped. */
  ghost predicate Moved(p: Plain, input: nat -> int, m: Machine, m': Machine) {
    && (m.status == Running ==> Going(m) && 0 <= m.errflag <= 3 && Step(p, input, m, m'))
    && (m.status != Running ==> m' == m)
  }

  lemma RunMoves(t: Tables, p: Plain, ntokens: nat, input: nat -> int, n: nat)
    requires Follows(t, p, ntokens, input)
    ensures t.Readable() && Moved(p, input, PackedRun(t, input, n), PackedRun(t, input, n + 1))
  {
    hide PackedStep, Step;
    RunKept(t, p, ntokens, input, n);
    if PackedRun(t, input, n).status == Running {
      RunStep(t, p, ntokens, input, n);
    }
  }

  lemma NotBoth(p: Plain, input: nat -> int, m: Machine)
    ensures !(Shifts(p, input, m) && Errs(p, input, m))
            && (m.status != Running ==> !Shifts(p, input, m) && !Errs(p, input, m))
  {
  }

  /** What a step does to errflag and nerrs. */
  lemma MovedCounts(p: Plain, input: nat -> int, m: Machine, m': Machine)
    requires Moved(p, input, m, m')
    ensures Shifts(p, input, m) ==> m'.errflag == if m.errflag == 0 then 0 else m.errflag - 1
    ensures Errs(p, input, m) ==> m'.errflag == 3
    ensures !Shifts(p, input, m) && !Errs(p, input, m) ==> m'.errflag == m.errflag
    ensures m'.nerrs == m.nerrs + if Errs(p, input, m) && m.errflag == 0 then 1 else 0
  {
    hide Shifts, Errs, Uppermost;
    NotBoth(p, input, m);
  }

  lemma FlagStep(t: Tables, p: Plain, input: nat -> int, n: nat)
    requires t.Readable() && FlagIs(t, p, input, n)
             && Moved(p, input, PackedRun(t, input, n), PackedRun(t, input, n + 1))
    ensures FlagIs(t, p, input, n + 1)
  {
    hide Shifts, Errs, Moved, PackedRun;
    var m := PackedRun(t, input, n);
    NotBoth(p, input, m);
    MovedCounts(p, input, m, PackedRun(t, input, n + 1));
    var n' := n + 1;
    forall i: nat | LastError(t, p, input, i, n')
      ensures var k := ShiftsBetween(t, p, input, i + 1, n + 1);
              PackedRun(t, input, n + 1).errflag == if k < 3 then 3 - k else 0
    {
      if i < n {
        assert !Errs(p, input, m);
        assert LastError(t, p, input, i, n);
      }
    }
  }

  lemma FlagAtStart(t: Tables, p: Plain, input: nat -> int)
    requires t.Readable()
    ensures FlagIs(t, p, input, 0) && NewErrors(t, p, input, 0) == {} && PackedRun(t, input, 0).nerrs == 0
  {
  }

  lemma {:induction false} FlagCounts(t: Tables, p: Plain, ntokens: nat, input: nat -> int, n: nat)
    requires Follows(t, p, ntokens, input)
    ensures t.Readable() && FlagIs(t, p, input, n)
  {
    hide Follows, FlagIs, Moved;
    RunMoves(t, p, ntokens, input, if n > 0 then n - 1 else 0);
    if n == 0 {
      FlagAtStart(t, p, input);
    } else {
      FlagCounts(t, p, ntokens, input, n - 1);
      FlagStep(t, p, input, n - 1);
    }
  }

  lemma {:induction false} ErrorsCounted(t: Tables, p: Plain, ntokens: nat, input: nat -> int, n: nat)
    requires Follows(t, p, ntokens, input)
    ensures t.Readable() && PackedRun(t, input, n).nerrs == |NewErrors(t, p, input, n)|
  {
    hide Follows, Moved, PackedRun, Errs, Shifts, NewErrors;
    RunMoves(t, p, ntokens, input, if n > 0 then n - 1 else 0);
    if n == 0 {
      FlagAtStart(t, p, input);
    } else {
      ErrorsCounted(t, p, ntokens, input, n - 1);
      var m := PackedRun(t, input, n - 1);
      MovedCounts(p, input, m, PackedRun(t, input, n));
      NewErrorsStep(t, p, input, n - 1);
    }
  }

  lemma NewErrorsStep(t: Tables, p: Plain, input: nat -> int, n: nat)
    requires t.Readable()
    ensures var m := PackedRun(t, input, n);
            |NewErrors(t, p, input, n + 1)| ==
              |NewErrors(t, p, input, n)| + if Errs(p, input, m) && m.errflag == 0 then 1 else 0
  {
    hide PackedRun, Errs;
    var m, was := PackedRun(t, input, n), NewErrors(t, p, input, n);
    assert NewErrors(t, p, input, n + 1) == if Errs(p, input, m) && m.errflag == 0 then was + {n} else was;
  }

  /** All that is said of errors, at step n of a run. */
  ghost predicate RecoversAt(t: Tables, p: Plain, input: nat -> int, n: nat) {
    && t.Readable() && FlagIs(t, p, input, n) && PackedRun(t, input, n).nerrs == |NewErrors(t, p, input, n)|
    && Moved(p, input, PackedRun(t, input, n), PackedRun(t, input, n + 1))
  }

  /** In every run errflag tells how many tokens have been shifted since the last error, nerrs how many errors have been
      met with errflag 0; recovery cuts the stack back to the uppermost state that shifts the error token, and gives up
      exactly if there is none; and a token is thrown away exactly if an error is met with errflag 3. */
  lemma ErrorsAreRecovered(g: Grammar, a: Auto, p: Plain, t: Tables, inp: Input, k: Packing, chunks: seq<seq<Exc>>,
                           input: nat -> int, n: nat)
    requires GoodPlain(g, a, p) && Made(p, g.ntokens, t, inp, k, chunks) && forall i :: 1 <= input(i) <= g.ntokens
    ensures RecoversAt(t, p, input, n)
  {
    hide FlagIs, Moved, GoodAuto;
    assert Follows(t, p, g.ntokens, input) by {
      forall n: nat
        ensures PackedRun(t, input, n) == PlainRun(p, g.ntokens, input, n) && PackedRun(t, input, n).status != Stuck
      {
        PackedParserIsExact(g, a, p, t, inp, k, chunks, input, n);
      }
    }
    FlagCounts(t, p, g.ntokens, input, n);
    ErrorsCounted(t, p, g.ntokens, input, n);
    RunMoves(t, p, g.ntokens, input, n);
  }
}
