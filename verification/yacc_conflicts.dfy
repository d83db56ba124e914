/**
 The reductions of a state in yacc's output: each complete item enters its production under every token of its
 lookahead set, and a token that is taken already is decided by the numbers of the productions or by precedence
 (precftn).
 */
module YaccConflicts {
  import opened YaccAction
  import opened YaccGrammar
  import opened YaccClosure

  const LASC := 1
  const RASC := 2
  const BASC := 3

  /** The words that declare precedence: of the tokens and of the productions. */
  datatype Prec = Prec(toklev: seq<nat>, levprd: seq<nat>)
  {
    predicate Covers(g: Grammar) {
      |toklev| > g.ntokens && |levprd| == |g.prods|
    }
  }

  function Assoc(i: nat): nat {
    i % 4
  }

  function Plevel(i: nat): nat {
    i / 16 % 64
  }

  /** What is put into a word of precedence, an associativity, two flags, a level and a type, is read back from it. */
  lemma WordIsRead(asc: nat, flags: nat, lev: nat, typ: nat)
    requires asc < 4 && flags < 4 && lev < 64
    ensures var i := asc + 4 * flags + 16 * lev + 1024 * typ; Assoc(i) == asc && Plevel(i) == lev
  {
    AssocIsRead(asc, flags + 4 * lev + 256 * typ);
    PlevelIsRead(asc + 4 * flags, lev, typ);
  }

  lemma AssocIsRead(asc: nat, rest: nat)
    requires asc < 4
    ensures Assoc(asc + 4 * rest) == asc
  {
  }

  lemma PlevelIsRead(low: nat, lev: nat, typ: nat)
    requires low < 16 && lev < 64
    ensures Plevel(low + 16 * (lev + 64 * typ)) == lev
  {
    var high := lev + 64 * typ;
    assert (low + 16 * high) / 16 == high;
  }

  /** precftn: the action v, not a reduction, against a reduction by r. */
  function Precedence(v: int, r: int, lt: nat, lp: nat): int {
    if Plevel(lt) == 0 || Plevel(lp) == 0 then v
    else
      var action := if Plevel(lt) == Plevel(lp) then Assoc(lt) else if Plevel(lt) > Plevel(lp) then RASC else LASC;
      if action == BASC then ERRCODE else if action == LASC then -r else v
  }

  /** What the declared levels decide: no level on one side, or a higher one of the token, or a tie without a say,
      keep the shift; a higher one of the production, or a tie to the left, reduces; a tie without associativity is an
      error. */
  lemma PrecedenceIs(v: int, r: int, lt: nat, lp: nat)
    ensures Keeps(lt, lp) ==> Precedence(v, r, lt, lp) == v
    ensures Reduces(lt, lp) ==> Precedence(v, r, lt, lp) == -r
    ensures !Keeps(lt, lp) && !Reduces(lt, lp) <==> Plevel(lt) == Plevel(lp) != 0 && Assoc(lt) == BASC
    ensures !Keeps(lt, lp) && !Reduces(lt, lp) ==> Precedence(v, r, lt, lp) == ERRCODE
    ensures !(Keeps(lt, lp) && Reduces(lt, lp))
  {
  }

  predicate Keeps(lt: nat, lp: nat) {
    || Plevel(lt) == 0 || Plevel(lp) == 0 || Plevel(lt) > Plevel(lp)
    || (Plevel(lt) == Plevel(lp) && Assoc(lt) != LASC && Assoc(lt) != BASC)
  }

  predicate Reduces(lt: nat, lp: nat) {
    Plevel(lt) != 0 && Plevel(lp) != 0 && (Plevel(lp) > Plevel(lt) || (Plevel(lt) == Plevel(lp) && Assoc(lt) == LASC))
  }

  /** The entry v of token k meets a reduction by r. */
  function Decide(v: int, r: int, k: nat, prec: Prec): int
    requires k < |prec.toklev| && 0 <= r < |prec.levprd|
  {
    if v == 0 then -r
    else if v < 0 then (if -v > r then -r else v)
    else Precedence(v, r, prec.toklev[k], prec.levprd[r])
  }

  /** Entry x of a working set asks for a reduction on token k. */
  predicate Asks(g: Grammar, x: Wset, k: nat) {
    x.item.prod < |g.prods| && x.item.dot == |g.prods[x.item.prod].rhs| && k in x.ws
  }

  /** The entry of token k after the first n entries of the working set. */
  function Decided(g: Grammar, w: seq<Wset>, n: nat, k: nat, v: int, prec: Prec): int
    requires n <= |w| && k <= g.ntokens && prec.Covers(g)
  {
    if n == 0 then v
    else
      var d := Decided(g, w, n - 1, k, v, prec);
      if Asks(g, w[n - 1], k) then Decide(d, w[n - 1].item.prod, k, prec) else d
  }

  // ---- What is decided --------------------------------------------------------------------------------

  /** The entry is what it was, the error action, or a reduction that was asked for. */
  lemma {:induction false} DecidedIs(g: Grammar, w: seq<Wset>, n: nat, k: nat, v: int, prec: Prec)
    requires n <= |w| && k <= g.ntokens && prec.Covers(g)
    ensures var d := Decided(g, w, n, k, v, prec);
            d == v || (d == ERRCODE && v > 0) || exists u :: 0 <= u < n && Asks(g, w[u], k) && w[u].item.prod == -d
  {
    if n > 0 {
      DecidedIs(g, w, n - 1, k, v, prec);
    }
  }

  /** Among reductions alone the production that comes first in the grammar wins, whatever order the items are in. */
  lemma {:induction false} EarliestWins(g: Grammar, w: seq<Wset>, n: nat, k: nat, prec: Prec)
    requires n <= |w| && k <= g.ntokens && prec.Covers(g) && forall u | 0 <= u < n && Asks(g, w[u], k) ::
               w[u].item.prod > 0
    ensures var d := Decided(g, w, n, k, 0, prec);
            && (d == 0 <==> forall u | 0 <= u < n :: !Asks(g, w[u], k))
            && (d != 0 ==> (exists u :: 0 <= u < n && Asks(g, w[u], k) && w[u].item.prod == -d)
                           && forall u | 0 <= u < n && Asks(g, w[u], k) :: -d <= w[u].item.prod)
  {
    if n > 0 {
      EarliestWins(g, w, n - 1, k, prec);
      var d := Decided(g, w, n, k, 0, prec);
      if Asks(g, w[n - 1], k) {
        assert w[n - 1].item.prod == -d || d == Decided(g, w, n - 1, k, 0, prec);
      }
    }
  }

  /** A shift stands exactly when precedence decides no reduction on its token otherwise. */
  lemma {:induction false} ShiftStands(g: Grammar, w: seq<Wset>, n: nat, k: nat, v: int, prec: Prec)
    requires n <= |w| && k <= g.ntokens && prec.Covers(g) && 0 < v < ERRCODE
    ensures Decided(g, w, n, k, v, prec) == v <==>
            forall u | 0 <= u < n && Asks(g, w[u], k) ::
                Precedence(v, w[u].item.prod, prec.toklev[k], prec.levprd[w[u].item.prod]) == v
  {
    if n > 0 {
      ShiftStands(g, w, n - 1, k, v, prec);
      DecidedIs(g, w, n - 1, k, v, prec);
      if Decided(g, w, n - 1, k, v, prec) != v {
        NeverBack(g, w, n - 1, k, v, prec);
      }
    }
  }

  /** Once the entry has changed it is never the shift again. */
  lemma NeverBack(g: Grammar, w: seq<Wset>, n: nat, k: nat, v: int, prec: Prec)
    requires n < |w| && k <= g.ntokens && prec.Covers(g) && 0 < v < ERRCODE && Decided(g, w, n, k, v, prec) != v
    ensures Decided(g, w, n + 1, k, v, prec) != v
  {
    DecidedIs(g, w, n, k, v, prec);
  }

  // ---- The loop ----------------------------------------------------------------------------------------

  /** precftn: a shift of token t stays exactly if the levels keep it, and gives way exactly if they reduce; else there
      is an error. The conflict is counted if one side has no level. */
  method Precftn(r: int, t: nat, temp1: seq<int>, prec: Prec) returns (temp: seq<int>, zzsrconf: nat)
    requires t < |temp1| && t < |prec.toklev| && 0 <= r < |prec.levprd|
    ensures |temp| == |temp1| && forall k | 0 <= k < |temp| && k != t :: temp[k] == temp1[k]
    ensures var lt, lp := prec.toklev[t], prec.levprd[r];
            temp[t] == if Keeps(lt, lp) then temp1[t] else if Reduces(lt, lp) then -r else ERRCODE
    ensures var lt, lp := prec.toklev[t], prec.levprd[r];
            0 < temp1[t] < ERRCODE && r > 0 ==>
              && (temp[t] == temp1[t] <==> Keeps(lt, lp)) && (temp[t] == -r <==> Reduces(lt, lp))
              && (temp[t] == ERRCODE <==> Plevel(lt) == Plevel(lp) != 0 && Assoc(lt) == BASC)
    ensures zzsrconf == if Undecided(t, r, prec) then 1 else 0
  {
    temp, zzsrconf := temp1, 0;
    var lp, lt := prec.levprd[r], prec.toklev[t];
    if Plevel(lt) == 0 || Plevel(lp) == 0 {
      zzsrconf := 1;
      return;
    }
    var action;
    if Plevel(lt) == Plevel(lp) {
      action := Assoc(lt);
    } else if Plevel(lt) > Plevel(lp) {
      action := RASC;
    } else {
      action := LASC;
    }
    if action == BASC {
      temp := temp[t := ERRCODE];
    } else if action == LASC {
      temp := temp[t := -r];
    }
  }

  /** The levels say nothing about token k against production r. */
  predicate Undecided(k: nat, r: int, prec: Prec)
    requires k < |prec.toklev| && 0 <= r < |prec.levprd|
  {
    Plevel(prec.toklev[k]) == 0 || Plevel(prec.levprd[r]) == 0
  }

  /** The tokens of ws below limit whose entry is a reduction, and those whose entry is not and on which the levels
      are silent. */
  ghost function RRTokens(ws: set<nat>, row: seq<int>, limit: nat): set<nat>
    requires limit <= |row|
  {
    set k: nat | 1 <= k < limit && k in ws && row[k] < 0
  }

  ghost function SRTokens(ws: set<nat>, row: seq<int>, limit: nat, r: int, prec: Prec): set<nat>
    requires limit <= |row| && limit <= |prec.toklev| && 0 <= r < |prec.levprd|
  {
    set k: nat | 1 <= k < limit && k in ws && row[k] > 0 && Undecided(k, r, prec)
  }

  /** One complete item: its production under the tokens of its lookahead set, and the conflicts that are counted. */
  method Reduction(g: Grammar, x: Wset, temp0: seq<int>, prec: Prec)
    returns (temp1: seq<int>, zzsrconf: nat, zzrrconf: nat)
    requires x.item.prod < |g.prods| && x.item.dot == |g.prods[x.item.prod].rhs| && prec.Covers(g)
             && |temp0| > g.ntokens
    ensures |temp1| == |temp0| && forall k | 0 <= k < |temp0| ::
              temp1[k] == if 1 <= k <= g.ntokens && k in x.ws then Decide(temp0[k], x.item.prod, k, prec) else temp0[k]
    ensures zzrrconf == |RRTokens(x.ws, temp0, g.ntokens + 1)|
    ensures zzsrconf == |SRTokens(x.ws, temp0, g.ntokens + 1, x.item.prod, prec)|
  {
    var lastred: int := x.item.prod;
    temp1, zzsrconf, zzrrconf := temp0, 0, 0;
    for k := 1 to g.ntokens + 1
      invariant zzrrconf == |RRTokens(x.ws, temp0, k)| && zzsrconf == |SRTokens(x.ws, temp0, k, lastred, prec)|
      invariant |temp1| == |temp0| && forall j | 0 <= j < |temp0| ::
                  temp1[j] == if 1 <= j < k && j in x.ws then Decide(temp0[j], lastred, j, prec) else temp0[j]
    {
      TokensStep(x.ws, temp0, k, lastred, prec);
      if k in x.ws {
        if temp1[k] == 0 {
          temp1 := temp1[k := -lastred];
        } else if temp1[k] < 0 {
          if -temp1[k] > lastred {
            temp1 := temp1[k := -lastred];
          }
          zzrrconf := zzrrconf + 1;
        } else {
          PrecedenceIs(temp1[k], lastred, prec.toklev[k], prec.levprd[lastred]);
          var counted;
          temp1, counted := Precftn(lastred, k, temp1, prec);
          zzsrconf := zzsrconf + counted;
        }
      }
    }
  }

  lemma TokensStep(ws: set<nat>, row: seq<int>, k: nat, r: int, prec: Prec)
    requires 1 <= k < |row| && k < |prec.toklev| && 0 <= r < |prec.levprd|
    ensures |RRTokens(ws, row, k + 1)| == |RRTokens(ws, row, k)| + if k in ws && row[k] < 0 then 1 else 0
    ensures |SRTokens(ws, row, k + 1, r, prec)| == |SRTokens(ws, row, k, r, prec)|
            + if k in ws && row[k] > 0 && Undecided(k, r, prec) then 1 else 0
  {
    hide Undecided;
    RRTokensStep(ws, row, k);
    var sr := SRTokens(ws, row, k, r, prec);
    assert SRTokens(ws, row, k + 1, r, prec) == if k in ws && row[k] > 0 && Undecided(k, r, prec) then sr + {k} else sr;
  }

  lemma RRTokensStep(ws: set<nat>, row: seq<int>, k: nat)
    requires 1 <= k < |row|
    ensures |RRTokens(ws, row, k + 1)| == |RRTokens(ws, row, k)| + if k in ws && row[k] < 0 then 1 else 0
  {
    var rr := RRTokens(ws, row, k);
    assert RRTokens(ws, row, k + 1) == if k in ws && row[k] < 0 then rr + {k} else rr;
  }

  // ---- Conflicts ---------------------------------------------------------------------------------------

  /** Production 0 is never complete. */
  ghost predicate RealProductions(g: Grammar, w: seq<Wset>) {
    forall u, k | 0 <= u < |w| && Asks(g, w[u], k) :: w[u].item.prod > 0
  }

  /** Before entry u asks for token k the token has gone to a reduction: an earlier entry has asked for it when it was
      free, or has won it from the shift. */
  ghost predicate Beaten(g: Grammar, w: seq<Wset>, u: nat, k: nat, v: int, prec: Prec)
    requires u <= |w| && k <= g.ntokens && prec.Covers(g)
  {
    exists x :: 0 <= x < u && Asks(g, w[x], k) && (v == 0 || Reduces(prec.toklev[k], prec.levprd[w[x].item.prod]))
  }

  lemma {:induction false} BeatenIsNegative(g: Grammar, w: seq<Wset>, n: nat, k: nat, v: int, prec: Prec)
    requires n <= |w| && k <= g.ntokens && prec.Covers(g) && RealProductions(g, w) && v >= 0
    ensures Decided(g, w, n, k, v, prec) < 0 <==> Beaten(g, w, n, k, v, prec)
    ensures Decided(g, w, n, k, v, prec) > 0 <==> v > 0 && !Beaten(g, w, n, k, v, prec)
  {
    if n > 0 {
      BeatenIsNegative(g, w, n - 1, k, v, prec);
      DecidedIs(g, w, n - 1, k, v, prec);
      if Asks(g, w[n - 1], k) {
        PrecedenceIs(Decided(g, w, n - 1, k, v, prec), w[n - 1].item.prod, prec.toklev[k],
                     prec.levprd[w[n - 1].item.prod]);
      }
    }
  }

  /** The reduce/reduce conflicts among the first n entries: an entry asks for a token that has gone to a reduction. */
  ghost function RRConflicts(g: Grammar, w: seq<Wset>, n: nat, row: seq<int>, prec: Prec): set<(nat, nat)>
    requires n <= |w| && |row| > g.ntokens && prec.Covers(g)
  {
    set u: nat, k: nat | u < n && 1 <= k <= g.ntokens && Asks(g, w[u], k) && Beaten(g, w, u, k, row[k], prec) :: (u, k)
  }

  /** The shift/reduce conflicts that are counted: an entry asks for a token that is still shifted, and the levels are
      silent. */
  ghost function SRConflicts(g: Grammar, w: seq<Wset>, n: nat, row: seq<int>, prec: Prec): set<(nat, nat)>
    requires n <= |w| && |row| > g.ntokens && prec.Covers(g)
  {
    set u: nat, k: nat | u < n && 1 <= k <= g.ntokens && Asks(g, w[u], k) && row[k] > 0
      && !Beaten(g, w, u, k, row[k], prec) && Undecided(k, w[u].item.prod, prec) :: (u, k)
  }

  ghost function Tagged(u: nat, s: set<nat>): set<(nat, nat)> {
    set k | k in s :: (u, k)
  }

  lemma {:induction false} TaggedSize(u: nat, s: set<nat>)
    ensures |Tagged(u, s)| == |s|
  {
    if k :| k in s {
      TaggedSize(u, s - {k});
      assert Tagged(u, s) == Tagged(u, s - {k}) + {(u, k)};
    }
  }

  /** Entry u adds the conflicts on its own tokens. */
  lemma ConflictsStep(g: Grammar, w: seq<Wset>, u: nat, row: seq<int>, now: seq<int>, prec: Prec)
    requires u < |w| && |row| > g.ntokens && prec.Covers(g) && RealProductions(g, w) && w[u].item.prod < |g.prods|
    requires |now| == |row| && forall k | 1 <= k <= g.ntokens ::
               row[k] >= 0 && now[k] == Decided(g, w, u, k, row[k], prec)
    ensures var asked := if w[u].item.dot == |g.prods[w[u].item.prod].rhs| then w[u].ws else {};
            && |RRConflicts(g, w, u + 1, row, prec)| == |RRConflicts(g, w, u, row, prec)|
               + |RRTokens(asked, now, g.ntokens + 1)|
            && |SRConflicts(g, w, u + 1, row, prec)| ==
                 |SRConflicts(g, w, u, row, prec)| + |SRTokens(asked, now, g.ntokens + 1, w[u].item.prod, prec)|
  {
    hide Beaten, Decided, Undecided, RealProductions, RRTokens, SRTokens, RRConflicts, SRConflicts;
    forall k | 1 <= k <= g.ntokens
      ensures now[k] < 0 <==> Beaten(g, w, u, k, row[k], prec)
      ensures now[k] > 0 <==> row[k] > 0 && !Beaten(g, w, u, k, row[k], prec)
    {
      BeatenIsNegative(g, w, u, k, row[k], prec);
    }
    var asked := if w[u].item.dot == |g.prods[w[u].item.prod].rhs| then w[u].ws else {};
    var rr, sr := RRTokens(asked, now, g.ntokens + 1), SRTokens(asked, now, g.ntokens + 1, w[u].item.prod, prec);
    RRStep(g, w, u, row, now, asked, prec);
    SRStep(g, w, u, row, now, asked, prec);
    TaggedSize(u, rr);
    TaggedSize(u, sr);
  }

  lemma RRStep(g: Grammar, w: seq<Wset>, u: nat, row: seq<int>, now: seq<int>, asked: set<nat>, prec: Prec)
    requires u < |w| && |row| == |now| > g.ntokens && prec.Covers(g) && forall k :: k in asked <==> Asks(g, w[u], k)
    requires forall k | 1 <= k <= g.ntokens :: now[k] < 0 <==> Beaten(g, w, u, k, row[k], prec)
    ensures RRConflicts(g, w, u + 1, row, prec) == RRConflicts(g, w, u, row, prec)
            + Tagged(u, RRTokens(asked, now, g.ntokens + 1))
    ensures RRConflicts(g, w, u, row, prec) !! Tagged(u, RRTokens(asked, now, g.ntokens + 1))
  {
    hide Beaten, Asks;
    var mine := RRTokens(asked, now, g.ntokens + 1);
    var was, next := RRConflicts(g, w, u, row, prec), RRConflicts(g, w, u + 1, row, prec);
    forall x: nat, k: nat ensures (x, k) in next <==> (x, k) in was || (x, k) in Tagged(u, mine) {
      assert (x, k) in Tagged(u, mine) <==> x == u && k in mine;
    }
  }

  lemma SRStep(g: Grammar, w: seq<Wset>, u: nat, row: seq<int>, now: seq<int>, asked: set<nat>, prec: Prec)
    requires u < |w| && |row| == |now| > g.ntokens && prec.Covers(g) && forall k :: k in asked <==> Asks(g, w[u], k)
    requires w[u].item.prod < |g.prods|
    requires forall k | 1 <= k <= g.ntokens :: now[k] > 0 <==> row[k] > 0 && !Beaten(g, w, u, k, row[k], prec)
    ensures SRConflicts(g, w, u + 1, row, prec) ==
            SRConflicts(g, w, u, row, prec) + Tagged(u, SRTokens(asked, now, g.ntokens + 1, w[u].item.prod, prec))
    ensures SRConflicts(g, w, u, row, prec) !! Tagged(u, SRTokens(asked, now, g.ntokens + 1, w[u].item.prod, prec))
  {
    hide Beaten, Undecided;
    var mine := SRTokens(asked, now, g.ntokens + 1, w[u].item.prod, prec);
    var was, next := SRConflicts(g, w, u, row, prec), SRConflicts(g, w, u + 1, row, prec);
    forall x: nat, k: nat ensures (x, k) in next <==> (x, k) in was || (x, k) in Tagged(u, mine) {
      assert (x, k) in Tagged(u, mine) <==> x == u && k in mine;
    }
  }

  /** The reductions of a state, and the conflicts that are counted. */
  method Reductions(g: Grammar, work: WorkSet, temp0: seq<int>, prec: Prec)
    returns (temp1: seq<int>, zzsrconf: nat, zzrrconf: nat)
    requires work.Shape() && prec.Covers(g) && |temp0| > g.ntokens && RealProductions(g, work.View())
    requires forall u | 0 <= u < work.cwp :: work.View()[u].item.prod < |g.prods|
    requires forall k | 1 <= k <= g.ntokens :: temp0[k] >= 0
    ensures |temp1| == |temp0| && forall k | 1 <= k <= g.ntokens ::
              temp1[k] == Decided(g, work.View(), work.cwp, k, temp0[k], prec)
    ensures forall k | 0 <= k < |temp0| && !(1 <= k <= g.ntokens) :: temp1[k] == temp0[k]
    ensures zzsrconf == |SRConflicts(g, work.View(), work.cwp, temp0, prec)|
    ensures zzrrconf == |RRConflicts(g, work.View(), work.cwp, temp0, prec)|
  {
    hide Decide, Beaten, Undecided, RealProductions, RRTokens, SRTokens;
    temp1, zzsrconf, zzrrconf := temp0, 0, 0;
    for u := 0 to work.cwp
      invariant |temp1| == |temp0| && forall k | 1 <= k <= g.ntokens ::
                  temp1[k] == Decided(g, work.View(), u, k, temp0[k], prec)
      invariant forall k | 0 <= k < |temp0| && !(1 <= k <= g.ntokens) :: temp1[k] == temp0[k]
      invariant zzsrconf == |SRConflicts(g, work.View(), u, temp0, prec)|
      invariant zzrrconf == |RRConflicts(g, work.View(), u, temp0, prec)|
    {
      var x := work.wsets[u];
      assert work.View()[u] == x;
      ConflictsStep(g, work.View(), u, temp0, temp1, prec);
      if x.item.dot == |g.prods[x.item.prod].rhs| {
        var sr, rr;
        temp1, sr, rr := Reduction(g, x, temp1, prec);
        zzsrconf, zzrrconf := zzsrconf + sr, zzrrconf + rr;
      } else {
        NoneAsked(temp1, g.ntokens + 1, x.item.prod, prec);
      }
    }
  }

  lemma NoneAsked(row: seq<int>, limit: nat, r: int, prec: Prec)
    requires limit <= |row| && limit <= |prec.toklev| && 0 <= r < |prec.levprd|
    ensures RRTokens({}, row, limit) == {} && SRTokens({}, row, limit, r, prec) == {}
  {
  }

  // ---- No conflicts -----------------------------------------------------------------------------------

  /** No two of the first n entries ask for token k, and none does if it is taken already. */
  ghost predicate Alone(g: Grammar, w: seq<Wset>, n: nat, k: nat, v: int)
    requires n <= |w|
  {
    forall u | 0 <= u < n && Asks(g, w[u], k) :: v == 0 && forall x | 0 <= x < n && Asks(g, w[x], k) :: x == u
  }

  /** Where nothing competes, the entry is what was there or the one reduction that is asked for. */
  lemma {:induction false} DecidedAlone(g: Grammar, w: seq<Wset>, n: nat, k: nat, v: int, prec: Prec)
    requires n <= |w| && k <= g.ntokens && prec.Covers(g) && Alone(g, w, n, k, v)
    ensures (forall u | 0 <= u < n :: !Asks(g, w[u], k)) ==> Decided(g, w, n, k, v, prec) == v
    ensures forall u | 0 <= u < n && Asks(g, w[u], k) :: Decided(g, w, n, k, v, prec) + w[u].item.prod == 0
  {
    if n > 0 {
      DecidedAlone(g, w, n - 1, k, v, prec);
    }
  }

  /** Nothing is counted where nothing competes. */
  lemma AloneIsQuiet(g: Grammar, w: seq<Wset>, row: seq<int>, prec: Prec)
    requires |row| > g.ntokens && prec.Covers(g) && forall k | 1 <= k <= g.ntokens :: Alone(g, w, |w|, k, row[k])
    ensures RRConflicts(g, w, |w|, row, prec) == {} && SRConflicts(g, w, |w|, row, prec) == {}
  {
  }

  /** Where nothing is counted, a free token is asked for once at most, and a shift meets only reductions on which
      the levels speak, and none after one that has won. */
  lemma QuietIsSettled(g: Grammar, w: seq<Wset>, row: seq<int>, prec: Prec, k: nat)
    requires |row| > g.ntokens && prec.Covers(g) && 1 <= k <= g.ntokens && row[k] >= 0
    requires RRConflicts(g, w, |w|, row, prec) == {} && SRConflicts(g, w, |w|, row, prec) == {}
    ensures row[k] == 0 ==> Alone(g, w, |w|, k, 0)
    ensures forall u | 0 <= u < |w| && Asks(g, w[u], k) && row[k] > 0 :: !Undecided(k, w[u].item.prod, prec)
    ensures forall u, x | 0 <= x < u < |w| && Asks(g, w[u], k) && Asks(g, w[x], k) && row[k] > 0 ::
              !Reduces(prec.toklev[k], prec.levprd[w[x].item.prod])
  {
    hide Reduces, Undecided;
    forall u | 0 <= u < |w| && Asks(g, w[u], k) ensures !Beaten(g, w, u, k, row[k], prec) {
      assert (u, k) !in RRConflicts(g, w, |w|, row, prec);
    }
    forall u | 0 <= u < |w| && Asks(g, w[u], k) && row[k] > 0 ensures !Undecided(k, w[u].item.prod, prec) {
      assert (u, k) !in SRConflicts(g, w, |w|, row, prec);
    }
  }
}
