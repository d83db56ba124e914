/**
 The table optimizer of yacc (callopt, nxti, stin, gin): the shift row of every
 state and the goto row of every nonterminal are overlaid first-fit in one array.
 Nothing in the array says which row an entry belongs to; the parser recovers it
 from the accessing symbol of the entry's target (yychk).
 */
module YaccPack {

  const ACTSIZE: nat := 30000
  const NTERMS: int := 255
  const NNONTERM: int := 300
  const YYFLAG1: int := -1000

  /** One pair of the temporary file: a token (or state) number and the target state. */
  datatype Entry = Entry(index: int, target: int)

  /** The gotos of one nonterminal: exceptions, then the default (0 when there are no gotos). */
  datatype GotoRow = GotoRow(entries: seq<Entry>, dflt: int)

  /** What is to be packed; chk[t] is the accessing symbol of state t, a token or minus a nonterminal. */
  datatype Input = Input(rows: seq<seq<Entry>>, gotos: seq<GotoRow>, chk: seq<int>)

  ghost predicate Increasing(row: seq<Entry>) {
    forall k, l :: 0 <= k < l < |row| ==> row[k].index < row[l].index
  }

  ghost predicate ValidShifts(row: seq<Entry>, chk: seq<int>) {
    && Increasing(row)
    && forall e | e in row :: 1 <= e.index <= NTERMS && 0 < e.target < |chk| && chk[e.target] == e.index
  }

  ghost predicate ValidGotos(a: int, r: GotoRow, chk: seq<int>) {
    && (r.dflt == 0 ==> r.entries == [])
    && (r.dflt != 0 ==> 0 < r.dflt < |chk| && chk[r.dflt] == -a)
    && Increasing(r.entries)
    && forall e | e in r.entries :: 0 <= e.index < |chk| && 0 < e.target < |chk| && chk[e.target] == -a
  }

  /** What output, go2out and others leave behind: every target of a row is accessed by the row's own symbol. */
  ghost predicate ValidInput(inp: Input) {
    && |inp.chk| == |inp.rows| > 0 && inp.chk[0] == YYFLAG1
    && 0 < |inp.gotos| <= NNONTERM + 1
    && (forall i | 0 <= i < |inp.rows| :: ValidShifts(inp.rows[i], inp.chk))
    && (forall a | 1 <= a < |inp.gotos| :: ValidGotos(a, inp.gotos[a], inp.chk))
  }

  /** The arrays of the optimizer, with the rows placed so far. */
  datatype Packing = Packing(m: seq<int>, ind: seq<int>, pgo: seq<int>, maxa: int, sdone: set<int>, gdone: set<int>)

  ghost predicate ShiftsIn(m: seq<int>, n: int, row: seq<Entry>) {
    forall e | e in row :: 0 <= n + e.index < |m| && m[n + e.index] == e.target
  }

  ghost predicate GotosIn(m: seq<int>, g: int, r: GotoRow) {
    && 0 <= g < |m|
    && (r.dflt != 0 ==> m[g] == r.dflt)
    && forall e | e in r.entries :: 0 <= g + e.index + 1 < |m| && m[g + e.index + 1] == e.target
  }

  ghost predicate FromShift(inp: Input, k: Packing, i: int, p: int, c: int, t: int) {
    i in k.sdone && 0 <= i < |inp.rows| && i < |k.ind| && k.ind[i] + c == p && Entry(c, t) in inp.rows[i]
  }

  ghost predicate FromGoto(inp: Input, k: Packing, a: int, p: int, t: int) {
    && a in k.gdone && 1 <= a < |inp.gotos| && a < |k.pgo|
    && ((p == k.pgo[a] && t == inp.gotos[a].dflt) || Entry(p - k.pgo[a] - 1, t) in inp.gotos[a].entries)
  }

  /** A nonzero cell belongs to a placed row of its target's accessing symbol. */
  ghost predicate Explained(inp: Input, k: Packing, p: int)
    requires 0 <= p < |k.m|
  {
    var t := k.m[p];
    t != 0 ==>
      && p <= k.maxa
      && 0 < t < |inp.chk|
      && (if inp.chk[t] > 0 then exists i :: FromShift(inp, k, i, p, inp.chk[t], t)
          else FromGoto(inp, k, -inp.chk[t], p, t))
  }

  ghost predicate Inv(inp: Input, k: Packing) {
    && ValidInput(inp)
    && |k.m| == ACTSIZE && |k.ind| == |inp.rows| && |k.pgo| == |inp.gotos|
    && 0 <= k.maxa < ACTSIZE
    && (forall i | i in k.sdone :: 0 <= i < |inp.rows| && inp.rows[i] != [] && ShiftsIn(k.m, k.ind[i], inp.rows[i]))
    && (forall i | 0 <= i < |inp.rows| && i !in k.sdone :: k.ind[i] == YYFLAG1)
    && (forall a | a in k.gdone :: 1 <= a < |inp.gotos| && GotosIn(k.m, k.pgo[a], inp.gotos[a]))
    && (forall p | 0 <= p < |k.m| :: Explained(inp, k, p))
    && (forall i, j | i in k.sdone && j in k.sdone && k.ind[i] == k.ind[j] :: inp.rows[i] == inp.rows[j])
  }

  // ---- When a row may be placed --------------------------------------------------------

  ghost predicate Fits(m: seq<int>, n: int, row: seq<Entry>) {
    forall e | e in row :: 0 <= n + e.index < |m| && (m[n + e.index] == 0 || m[n + e.index] == e.target)
  }

  /** stin accepts offset n: no other value is overwritten, and an offset in use is shared only
      when every entry is already there and the two rows have the same length. */
  ghost predicate Acceptable(inp: Input, k: Packing, i: int, n: int)
    requires 0 <= i < |inp.rows| && |k.ind| == |inp.rows|
  {
    && Fits(k.m, n, inp.rows[i])
    && forall j | 0 <= j < |k.ind| && k.ind[j] == n ::
         ShiftsIn(k.m, n, inp.rows[i]) && |inp.rows[j]| == |inp.rows[i]|
  }

  /** gin accepts position p: the default's cell and the cells of all exceptions are zero. */
  ghost predicate GotoFits(m: seq<int>, p: int, r: GotoRow) {
    && 0 <= p < |m| && m[p] == 0
    && forall e | e in r.entries :: 0 <= p + e.index + 1 < |m| && m[p + e.index + 1] == 0
  }

  /** m' is m with row written at offset n and nothing else changed. */
  ghost predicate Written(m: seq<int>, m': seq<int>, n: int, row: seq<Entry>) {
    && |m'| == |m|
    && ShiftsIn(m', n, row)
    && forall p | 0 <= p < |m| && (forall e | e in row :: n + e.index != p) :: m'[p] == m[p]
  }

  // ---- Two rows at one offset are one row ---------------------------------------------------

  lemma {:induction false} CardOfIncreasing(row: seq<Entry>)
    requires Increasing(row)
    ensures |set e | e in row| == |row|
  {
    if row == [] {
      assert (set e | e in row) == {};
    } else {
      var rest := row[1..];
      assert forall k, l :: 0 <= k < l < |rest| ==> rest[k].index < rest[l].index by {
        forall k, l | 0 <= k < l < |rest| ensures rest[k].index < rest[l].index {
          assert rest[k] == row[k + 1] && rest[l] == row[l + 1];
        }
      }
      CardOfIncreasing(rest);
      assert forall k | 0 <= k < |rest| :: rest[k] == row[k + 1] && row[0].index < rest[k].index;
      assert row[0] !in rest;
      assert (set e | e in row) == {row[0]} + (set e | e in rest);
    }
  }

  lemma SubsetOfSameSize<T>(a: set<T>, b: set<T>)
    requires a <= b && |a| == |b|
    ensures a == b
  {
    assert b == a + (b - a);
    assert |b - a| == 0;
  }

  lemma {:induction false} SameElementsSameRow(a: seq<Entry>, b: seq<Entry>)
    requires Increasing(a) && Increasing(b) && |a| == |b|
    requires forall e | e in a :: e in b
    ensures a == b
  {
    CardOfIncreasing(a);
    CardOfIncreasing(b);
    var sa, sb := set e | e in a, set e | e in b;
    SubsetOfSameSize(sa, sb);
    assert forall e :: e in b <==> e in sb;
    assert forall e | e in b :: e in sa;
    forall k | 0 <= k < |a| ensures a[k] == b[k] {
      SameAt(a, b, k);
    }
  }

  lemma {:induction false} SameAt(a: seq<Entry>, b: seq<Entry>, k: nat)
    requires Increasing(a) && Increasing(b) && |a| == |b|
    requires (forall e | e in a :: e in b) && (forall e | e in b :: e in a)
    requires k < |a|
    ensures a[k] == b[k]
  {
    if k > 0 {
      forall l | 0 <= l < k ensures a[l] == b[l] {
        SameAt(a, b, l);
      }
    }
    assert a[k] in b && b[k] in a;
    var x :| 0 <= x < |b| && b[x] == a[k];
    var y :| 0 <= y < |a| && a[y] == b[k];
    assert x >= k && y >= k;
    assert b[k].index <= a[k].index && a[k].index <= b[k].index;
  }

  /** A row whose entries are all present at the offset of a placed row of the same length is that row:
      each entry's target names its token, so no row at another offset can have put it there. */
  lemma OverlaidRowsAreEqual(inp: Input, k: Packing, i: int, j: int)
    requires Inv(inp, k)
    requires 0 <= i < |inp.rows| && j in k.sdone
    requires ShiftsIn(k.m, k.ind[j], inp.rows[i])
    requires |inp.rows[i]| == |inp.rows[j]|
    ensures inp.rows[i] == inp.rows[j]
  {
    forall e | e in inp.rows[i] ensures e in inp.rows[j] {
      var p := k.ind[j] + e.index;
      assert ValidShifts(inp.rows[i], inp.chk);
      assert k.m[p] == e.target;
      assert Explained(inp, k, p);
      var o :| FromShift(inp, k, o, p, inp.chk[e.target], e.target);
      assert k.ind[o] == k.ind[j];
      assert inp.rows[o] == inp.rows[j];
    }
    assert ValidShifts(inp.rows[i], inp.chk) && ValidShifts(inp.rows[j], inp.chk);
    SameElementsSameRow(inp.rows[i], inp.rows[j]);
  }

  // ---- Placing keeps the invariant ----------------------------------------------------------

  /** Everything k holds is still held by k'. */
  ghost predicate Extends(k: Packing, k': Packing) {
    && |k'.m| == |k.m| && |k'.ind| == |k.ind| && |k'.pgo| == |k.pgo|
    && k.maxa <= k'.maxa < ACTSIZE
    && k.sdone <= k'.sdone && k.gdone <= k'.gdone
    && (forall p | 0 <= p < |k.m| && k.m[p] != 0 :: k'.m[p] == k.m[p])
    && (forall i | i in k.sdone && 0 <= i < |k.ind| :: k'.ind[i] == k.ind[i])
    && (forall a | a in k.gdone && 0 <= a < |k.pgo| :: k'.pgo[a] == k.pgo[a])
  }

  lemma RowsStay(inp: Input, k: Packing, k': Packing)
    requires Inv(inp, k) && Extends(k, k')
    ensures forall i | i in k.sdone :: ShiftsIn(k'.m, k'.ind[i], inp.rows[i])
    ensures forall a | a in k.gdone :: GotosIn(k'.m, k'.pgo[a], inp.gotos[a])
  {
    forall i | i in k.sdone ensures ShiftsIn(k'.m, k'.ind[i], inp.rows[i]) {
      assert ValidShifts(inp.rows[i], inp.chk) && ShiftsIn(k.m, k.ind[i], inp.rows[i]);
    }
    forall a | a in k.gdone ensures GotosIn(k'.m, k'.pgo[a], inp.gotos[a]) {
      assert ValidGotos(a, inp.gotos[a], inp.chk) && GotosIn(k.m, k.pgo[a], inp.gotos[a]);
    }
  }

  lemma StaysExplained(inp: Input, k: Packing, k': Packing, p: int)
    requires Inv(inp, k) && Extends(k, k')
    requires 0 <= p < |k.m| && k'.m[p] == k.m[p]
    ensures Explained(inp, k', p)
  {
    assert Explained(inp, k, p);
    var t := k.m[p];
    if t != 0 && inp.chk[t] > 0 {
      var o :| FromShift(inp, k, o, p, inp.chk[t], t);
      assert FromShift(inp, k', o, p, inp.chk[t], t);
    }
  }

  lemma SharePlace(inp: Input, k: Packing, i: int, j: int, k': Packing)
    requires Inv(inp, k)
    requires 0 <= i < |inp.rows| && inp.rows[i] != [] && i !in k.sdone && j in k.sdone
    requires ShiftsIn(k.m, k.ind[j], inp.rows[i]) && |inp.rows[i]| == |inp.rows[j]|
    requires k' == k.(ind := k.ind[i := k.ind[j]], sdone := k.sdone + {i})
    ensures Inv(inp, k')
  {
    OverlaidRowsAreEqual(inp, k, i, j);
    RowsStay(inp, k, k');
    forall p | 0 <= p < |k'.m| ensures Explained(inp, k', p) {
      StaysExplained(inp, k, k', p);
    }
  }

  lemma FreshExtends(inp: Input, k: Packing, i: int, n: int, k': Packing)
    requires Inv(inp, k)
    requires 0 <= i < |inp.rows| && i !in k.sdone
    requires Fits(k.m, n, inp.rows[i]) && Written(k.m, k'.m, n, inp.rows[i])
    requires k.maxa <= k'.maxa < ACTSIZE
    requires k'.ind == k.ind[i := n] && k'.pgo == k.pgo && k'.sdone == k.sdone + {i} && k'.gdone == k.gdone
    ensures Extends(k, k')
  {
    forall p | 0 <= p < |k.m| && k.m[p] != 0 ensures k'.m[p] == k.m[p] {
      if e :| e in inp.rows[i] && n + e.index == p {
        assert k'.m[n + e.index] == e.target;
      }
    }
  }

  lemma FreshPlace(inp: Input, k: Packing, i: int, n: int, k': Packing)
    requires Inv(inp, k)
    requires 0 <= i < |inp.rows| && inp.rows[i] != [] && i !in k.sdone
    requires Fits(k.m, n, inp.rows[i]) && n !in k.ind
    requires Written(k.m, k'.m, n, inp.rows[i])
    requires k.maxa <= k'.maxa < ACTSIZE && forall e | e in inp.rows[i] :: n + e.index <= k'.maxa
    requires k'.ind == k.ind[i := n] && k'.pgo == k.pgo && k'.sdone == k.sdone + {i} && k'.gdone == k.gdone
    ensures Inv(inp, k')
  {
    FreshExtends(inp, k, i, n, k');
    RowsStay(inp, k, k');
    forall p | 0 <= p < |k'.m| ensures Explained(inp, k', p) {
      if e :| e in inp.rows[i] && n + e.index == p {
        assert ValidShifts(inp.rows[i], inp.chk);
        assert k'.m[n + e.index] == e.target;
        assert FromShift(inp, k', i, p, e.index, e.target);
      } else {
        StaysExplained(inp, k, k', p);
      }
    }
    forall j | j in k.sdone ensures k'.ind[j] != n {
      assert k.ind[j] in k.ind;
    }
  }

  /** m' is m with the goto row r written at g and nothing else changed. */
  ghost predicate GotosWritten(m: seq<int>, m': seq<int>, g: int, r: GotoRow) {
    && |m'| == |m|
    && GotosIn(m', g, r) && m'[g] == r.dflt
    && forall p | 0 <= p < |m| && p != g && (forall e | e in r.entries :: g + e.index + 1 != p) :: m'[p] == m[p]
  }

  lemma GotoExtends(inp: Input, k: Packing, a: int, g: int, k': Packing)
    requires Inv(inp, k)
    requires 1 <= a < |inp.gotos| && a !in k.gdone
    requires GotoFits(k.m, g, inp.gotos[a]) && GotosWritten(k.m, k'.m, g, inp.gotos[a])
    requires k.maxa <= k'.maxa < ACTSIZE
    requires k'.ind == k.ind && k'.pgo == k.pgo[a := g] && k'.sdone == k.sdone && k'.gdone == k.gdone + {a}
    ensures Extends(k, k')
  {
    var r := inp.gotos[a];
    forall p | 0 <= p < |k.m| && k.m[p] != 0 ensures k'.m[p] == k.m[p] {
      assert forall e | e in r.entries :: g + e.index + 1 != p;
    }
  }

  lemma GotosAreValid(inp: Input, k: Packing, k': Packing, a: int)
    requires Inv(inp, k) && Extends(k, k') && 1 <= a < |inp.gotos|
    ensures ValidGotos(a, inp.gotos[a], inp.chk) && |k'.m| == |k.m| && |k'.pgo| == |inp.gotos|
  {
    hide Explained, ValidGotos;
  }

  /** The cell at the offset of a placed goto row holds its default. */
  lemma DefaultExplains(inp: Input, a: int, k': Packing, g: int)
    requires 1 <= a < |inp.gotos| && ValidGotos(a, inp.gotos[a], inp.chk)
    requires a in k'.gdone && |k'.pgo| == |inp.gotos| && k'.pgo[a] == g
    requires 0 <= g < |k'.m| && g <= k'.maxa && k'.m[g] == inp.gotos[a].dflt
    ensures Explained(inp, k', g)
  {
    assert FromGoto(inp, k', a, g, inp.gotos[a].dflt);
  }

  lemma EntryExplains(inp: Input, a: int, k': Packing, g: int, e: Entry)
    requires 1 <= a < |inp.gotos| && ValidGotos(a, inp.gotos[a], inp.chk) && e in inp.gotos[a].entries
    requires a in k'.gdone && |k'.pgo| == |inp.gotos| && k'.pgo[a] == g
    requires 0 <= g + e.index + 1 < |k'.m| && g + e.index + 1 <= k'.maxa && k'.m[g + e.index + 1] == e.target
    ensures Explained(inp, k', g + e.index + 1)
  {
    var p := g + e.index + 1;
    assert Entry(p - g - 1, e.target) == e;
    assert FromGoto(inp, k', a, p, e.target);
  }

  lemma GotoExplained(inp: Input, k: Packing, a: int, g: int, k': Packing, p: int)
    requires Inv(inp, k) && Extends(k, k') && 0 <= p < |k.m|
    requires 1 <= a < |inp.gotos| && a in k'.gdone && k'.pgo[a] == g
    requires GotosWritten(k.m, k'.m, g, inp.gotos[a])
    requires g <= k'.maxa && forall e | e in inp.gotos[a].entries :: g + e.index + 1 <= k'.maxa
    ensures Explained(inp, k', p)
  {
    hide Inv, Explained, Extends;
    GotosAreValid(inp, k, k', a);
    var r := inp.gotos[a];
    if p == g {
      DefaultExplains(inp, a, k', g);
    } else if e :| e in r.entries && g + e.index + 1 == p {
      EntryExplains(inp, a, k', g, e);
    } else {
      assert k'.m[p] == k.m[p];
      StaysExplained(inp, k, k', p);
    }
  }

  lemma GotoPlace(inp: Input, k: Packing, a: int, g: int, k': Packing)
    requires Inv(inp, k)
    requires 1 <= a < |inp.gotos| && a !in k.gdone
    requires GotoFits(k.m, g, inp.gotos[a]) && GotosWritten(k.m, k'.m, g, inp.gotos[a])
    requires k.maxa <= k'.maxa < ACTSIZE && g <= k'.maxa
    requires forall e | e in inp.gotos[a].entries :: g + e.index + 1 <= k'.maxa
    requires k'.ind == k.ind && k'.pgo == k.pgo[a := g] && k'.sdone == k.sdone && k'.gdone == k.gdone + {a}
    ensures Inv(inp, k')
  {
    GotoExtends(inp, k, a, g, k');
    RowsStay(inp, k, k');
    forall p | 0 <= p < |k'.m| ensures Explained(inp, k', p) {
      GotoExplained(inp, k, a, g, k', p);
    }
  }

  // ---- The optimizer ------------------------------------------------------------------------

  const NOMORE: int := -1000

  datatype Verdict = Fit | Misfit | Overflow

  ghost function Below(n: nat): (s: set<int>)
    ensures forall i :: i in s <==> 0 <= i < n
  {
    if n == 0 then {} else Below(n - 1) + {n - 1}
  }

  /** The largest index of a row, 0 if it has none. */
  ghost predicate Largest(row: seq<Entry>, j: int) {
    j >= 0 && (forall e | e in row :: e.index <= j) && (j == 0 || exists e | e in row :: e.index == j)
  }

  ghost predicate Least(row: seq<Entry>, k: int) {
    (forall e | e in row :: k <= e.index) && exists e | e in row :: e.index == k
  }

  /** The weight of a row: its cells, two for each entry, and twice the largest index. */
  ghost predicate Weighs(row: seq<Entry>, w: int) {
    exists j :: Largest(row, j) && w == 2 * |row| + 2 * j
  }

  /** The largest offset worth trying: no least index of a shift row and no largest one of a goto row is bigger, and
      it is one of them, or 0. */
  ghost predicate Farthest(rows: seq<seq<Entry>>, gotos: seq<GotoRow>, r: int, a: int, n: int) {
    && n >= 0 && r <= |rows| && a <= |gotos|
    && (forall i, k | 0 <= i < r && Least(rows[i], k) :: k <= n)
    && (forall b, j | 1 <= b < a && Largest(gotos[b].entries, j) :: j <= n)
    && (n == 0 || (exists i :: 0 <= i < r && Least(rows[i], n)) || exists b ::
          1 <= b < a && Largest(gotos[b].entries, n))
  }

  /** The smallest index that is found is the least; a row without entries has none. */
  lemma LeastIs(row: seq<Entry>, k: int, j: int)
    requires k <= 32000 && (forall e | e in row :: k <= e.index <= j && e.index <= NTERMS)
    requires (k == 32000 || exists e | e in row :: e.index == k) && Largest(row, j)
    ensures k <= j <==> Least(row, k)
    ensures forall l :: Least(row, l) ==> l == k
  {
    if row != [] {
      assert row[0] in row;
    }
  }

  lemma WeightIs(row: seq<Entry>, j: int)
    requires Largest(row, j)
    ensures Weighs(row, 2 * |row| + 2 * j) && (row == [] ==> j == 0) && j >= 0
  {
    if row != [] {
      assert row[0] in row;
    }
  }

  lemma NothingFar(rows: seq<seq<Entry>>, gotos: seq<GotoRow>)
    requires |gotos| > 0
    ensures Farthest(rows, gotos, 0, 1, 0)
  {
  }

  lemma FartherRow(rows: seq<seq<Entry>>, gotos: seq<GotoRow>, i: nat, k: int, j: int, was: int)
    requires i < |rows| && Farthest(rows, gotos, i, 1, was) && Largest(rows[i], j)
    requires k <= 32000 && forall e | e in rows[i] :: k <= e.index <= j && 1 <= e.index <= NTERMS
    requires k == 32000 || exists e | e in rows[i] :: e.index == k
    ensures Farthest(rows, gotos, i + 1, 1, if k <= j && k > was then k else was)
  {
    hide Least, Largest;
    LeastIs(rows[i], k, j);
  }

  lemma FartherGoto(rows: seq<seq<Entry>>, gotos: seq<GotoRow>, a: nat, j: int, was: int)
    requires 1 <= a < |gotos| && Farthest(rows, gotos, |rows|, a, was) && Largest(gotos[a].entries, j)
    ensures Farthest(rows, gotos, |rows|, a + 1, if j > was then j else was)
  {
    hide Least;
    forall l | Largest(gotos[a].entries, l) ensures l == j {
      LargestIsOne(gotos[a].entries, l, j);
    }
  }

  ghost predicate AllWeigh(rows: seq<seq<Entry>>, gotos: seq<GotoRow>, ty: seq<int>, gg: seq<int>, sdone: set<int>,
                           gdone: set<int>) {
    && |ty| == |rows| && |gg| == |gotos|
    && (forall i | 0 <= i < |rows| && i !in sdone :: Weighs(rows[i], ty[i]))
    && (forall a | 1 <= a < |gotos| && a !in gdone :: Weighs(gotos[a].entries, gg[a] - 1))
  }

  lemma InputSizes(inp: Input, k: Packing)
    requires Inv(inp, k)
    ensures |inp.rows| > 0 && 0 < |inp.gotos| <= NNONTERM + 1
  {
  }

  lemma NothingPlaced(inp: Input, k: Packing)
    requires ValidInput(inp) && |k.m| == ACTSIZE && |k.ind| == |inp.rows| && |k.pgo| == |inp.gotos|
    requires (forall p | 0 <= p < ACTSIZE :: k.m[p] == 0) && (forall i | 0 <= i < |k.ind| :: k.ind[i] == YYFLAG1)
    requires k.maxa == 0 && k.sdone == {} && k.gdone == {}
    ensures Inv(inp, k)
  {
  }

  lemma LessWeigh(rows: seq<seq<Entry>>, gotos: seq<GotoRow>, ty: seq<int>, gg: seq<int>, sdone: set<int>,
                  gdone: set<int>, i: int)
    requires AllWeigh(rows, gotos, ty, gg, sdone, gdone)
    ensures 0 <= i < |rows| ==> AllWeigh(rows, gotos, ty[i := 0], gg, sdone + {i}, gdone)
    ensures 1 <= i < |gotos| ==> AllWeigh(rows, gotos, ty, gg[i := 0], sdone, gdone + {i})
  {
    hide Weighs;
  }

  lemma LargestIsOne(row: seq<Entry>, j: int, k: int)
    requires Largest(row, j) && Largest(row, k)
    ensures j == k
  {
  }

  class Optimizer {
    ghost const inp: Input
    const rows: seq<seq<Entry>>
    const gotos: seq<GotoRow>
    const amem: array<int>
    const indgo: array<int>
    const pgo: array<int>
    const tystate: array<int>   // weight of each state still to be placed, 0 once placed
    const ggreed: array<int>    // the same for nonterminals
    var maxa: int
    var maxoff: int
    ghost var sdone: set<int>
    ghost var gdone: set<int>

    ghost function View(): Packing
      reads this, amem, indgo, pgo
    {
      Packing(amem[..], indgo[..], pgo[..], maxa, sdone, gdone)
    }

    ghost predicate Shape()
      reads this
    {
      && rows == inp.rows && gotos == inp.gotos
      && amem != indgo && amem != pgo && amem != tystate && amem != ggreed
      && indgo != pgo && indgo != tystate && indgo != ggreed
      && pgo != tystate && pgo != ggreed && tystate != ggreed
      && amem.Length == ACTSIZE && indgo.Length == |rows| && pgo.Length == |gotos|
      && tystate.Length == |rows| && ggreed.Length == |gotos|
      && maxoff >= 0
    }

    ghost predicate Valid()
      reads this, amem, indgo, pgo, tystate, ggreed
    {
      && Shape()
      && Inv(inp, View())
      && (forall i | 0 <= i < |rows| :: tystate[i] >= 0 && (tystate[i] == 0 <==> rows[i] == [] || i in sdone))
      && (forall a | 1 <= a < |gotos| :: ggreed[a] >= 0 && (ggreed[a] == 0 <==> a in gdone))
    }

    /** The weights of the rows that are still to be placed, and the offsets worth trying. */
    ghost predicate Weighed()
      reads this, tystate, ggreed
      requires tystate.Length == |rows| && ggreed.Length == |gotos|
    {
      AllWeigh(rows, gotos, tystate[..], ggreed[..], sdone, gdone) && Farthest(rows, gotos, |rows|, |gotos|, maxoff)
    }

    /** Weights of the rows and the largest offset worth trying. */
    constructor (rows: seq<seq<Entry>>, gotos: seq<GotoRow>, ghost inp: Input)
      requires ValidInput(inp) && inp.rows == rows && inp.gotos == gotos
      ensures Valid() && Weighed() && sdone == {} && gdone == {} && this.inp == inp
      ensures fresh(amem) && fresh(indgo) && fresh(pgo) && fresh(tystate) && fresh(ggreed)
    {
      hide Inv, Weighs, Farthest, ValidShifts, ValidGotos;
      this.inp, this.rows, this.gotos := inp, rows, gotos;
      amem := new int[ACTSIZE](_ => 0);
      indgo := new int[|rows|](_ => YYFLAG1);
      pgo := new int[|gotos|](_ => 0);
      tystate := new int[|rows|](_ => 0);
      ggreed := new int[|gotos|](_ => 0);
      maxa, maxoff, sdone, gdone := 0, 0, {}, {};
      new;
      NothingFar(rows, gotos);
      WeighRows();
      WeighGotos();
      NothingPlaced(inp, View());
    }

    method WeighRows()
      requires Shape() && ValidInput(inp) && Farthest(rows, gotos, 0, 1, maxoff)
      modifies this`maxoff, tystate
      ensures Shape() && Farthest(rows, gotos, |rows|, 1, maxoff)
      ensures forall j | 0 <= j < |rows| ::
                tystate[j] >= 0 && (tystate[j] == 0 <==> rows[j] == []) && Weighs(rows[j], tystate[j])
    {
      hide Weighs, Farthest, Largest;
      for i := 0 to |rows|
        invariant Shape() && Farthest(rows, gotos, i, 1, maxoff)
        invariant forall j | 0 <= j < i ::
                    tystate[j] >= 0 && (tystate[j] == 0 <==> rows[j] == []) && Weighs(rows[j], tystate[j])
      {
        assert ValidShifts(rows[i], inp.chk);
        var k, j := Spread(rows[i]);
        ghost var was := maxoff;
        if k <= j && k > maxoff {
          maxoff := k;
        }
        tystate[i] := 2 * |rows[i]| + 2 * j;
        FartherRow(rows, gotos, i, k, j, was);
        WeightIs(rows[i], j);
      }
    }

    method WeighGotos()
      requires Shape() && |gotos| > 0 && Farthest(rows, gotos, |rows|, 1, maxoff)
      modifies this`maxoff, ggreed
      ensures Shape() && Farthest(rows, gotos, |rows|, |gotos|, maxoff)
      ensures forall b | 1 <= b < |gotos| :: ggreed[b] > 0 && Weighs(gotos[b].entries, ggreed[b] - 1)
    {
      hide Weighs, Farthest, Largest;
      for a := 1 to |gotos|
        invariant Shape() && Farthest(rows, gotos, |rows|, a, maxoff)
        invariant forall b | 1 <= b < a :: ggreed[b] > 0 && Weighs(gotos[b].entries, ggreed[b] - 1)
      {
        var k, j := Spread(gotos[a].entries);
        ghost var was := maxoff;
        ggreed[a] := 1 + 2 * |gotos[a].entries| + 2 * j;
        if j > maxoff {
          maxoff := j;
        }
        FartherGoto(rows, gotos, a, j, was);
        WeightIs(gotos[a].entries, j);
      }
    }

    /** Smallest index of a row (32000 when there is none) and its largest index (at least 0). */
    method Spread(row: seq<Entry>) returns (k: int, j: int)
      ensures j >= 0 && k <= 32000 && forall e | e in row :: k <= e.index <= j
      ensures (k == 32000 || exists e | e in row :: e.index == k) && (j == 0 || exists e | e in row :: e.index == j)
      ensures Largest(row, j)
    {
      k, j := 32000, 0;
      for r := 0 to |row|
        invariant j >= 0 && k <= 32000 && forall l | 0 <= l < r :: k <= row[l].index <= j
        invariant (k == 32000 || exists e | e in row :: e.index == k) && (j == 0 || exists e | e in row :: e.index == j)
      {
        if row[r].index > j {
          j := row[r].index;
        }
        if row[r].index < k {
          k := row[r].index;
        }
      }
    }

    /** The next row to place: a heaviest one, a state rather than a nonterminal on a tie, then the last one. */
    method Nxti() returns (i: int)
      requires Valid()
      ensures i == NOMORE ==> (forall s | 0 <= s < |rows| :: tystate[s] == 0)
                              && (forall a | 1 <= a < |gotos| :: ggreed[a] == 0)
      ensures i != NOMORE && i >= 0 ==>
                && i < |rows| && tystate[i] > 0
                && (forall s | 0 <= s < |rows| :: tystate[s] <= tystate[i])
                && (forall a | 1 <= a < |gotos| :: ggreed[a] <= tystate[i])
                && (forall s | i < s < |rows| :: tystate[s] < tystate[i])
      ensures i != NOMORE && i < 0 ==>
                && -i < |gotos| && ggreed[-i] > 0
                && (forall s | 0 <= s < |rows| :: tystate[s] < ggreed[-i])
                && (forall a | 1 <= a < |gotos| :: ggreed[a] <= ggreed[-i])
                && (forall a | -i < a < |gotos| :: ggreed[a] < ggreed[-i])
    {
      hide Inv;
      InputSizes(inp, View());
      var max, maxi := 0, 0;
      for a := 1 to |gotos|
        invariant max >= 0 && (max > 0 ==> 1 <= -maxi < a && max == ggreed[-maxi])
        invariant forall b | 1 <= b < a :: ggreed[b] <= max && (b > -maxi ==> ggreed[b] < max)
        invariant -NNONTERM <= maxi <= 0
      {
        if ggreed[a] >= max {
          max, maxi := ggreed[a], -a;
        }
      }
      for s := 0 to |rows|
        invariant max >= 0 && -NNONTERM <= maxi < |rows|
        invariant forall b | 1 <= b < |gotos| :: ggreed[b] <= max
        invariant forall t | 0 <= t < s :: tystate[t] <= max
        invariant max > 0 && maxi < 0 ==> -maxi < |gotos| && max == ggreed[-maxi]
                                          && (forall t | 0 <= t < s :: tystate[t] < max)
                                          && forall b | -maxi < b < |gotos| :: ggreed[b] < max
        invariant max > 0 && maxi >= 0 ==> maxi < s && max == tystate[maxi]
                                           && forall t | maxi < t < s :: tystate[t] < max
      {
        if tystate[s] >= max {
          max, maxi := tystate[s], s;
        }
      }
      i := if max == 0 then NOMORE else maxi;
    }

    /** Can row go at offset n, and how many of its cells are still zero there? */
    method Probe(row: seq<Entry>, n: int) returns (v: Verdict, flag: nat)
      requires amem.Length == ACTSIZE
      requires forall e | e in row :: e.target != 0
      ensures v == Overflow ==> exists e | e in row :: n + e.index >= ACTSIZE
      ensures v == Misfit ==> !Fits(amem[..], n, row)
      ensures v == Fit ==> Fits(amem[..], n, row) && (flag == 0 <==> ShiftsIn(amem[..], n, row))
    {
      flag := 0;
      for r := 0 to |row|
        invariant forall l | 0 <= l < r ::
                    0 <= n + row[l].index < ACTSIZE
                    && (amem[n + row[l].index] == 0 || amem[n + row[l].index] == row[l].target)
        invariant flag == 0 <==> forall l | 0 <= l < r ::
                    0 <= n + row[l].index < ACTSIZE && amem[n + row[l].index] == row[l].target
      {
        var s := row[r].index + n;
        assert row[r] in row;
        if s < 0 {
          return Misfit, flag;
        }
        if s >= ACTSIZE {
          return Overflow, flag;
        }
        if amem[s] == 0 {
          flag := flag + 1;
        } else if amem[s] != row[r].target {
          return Misfit, flag;
        }
      }
      v := Fit;
    }

    /** The first state already at offset n, or nstate. */
    method SharedWith(n: int) returns (j: nat)
      requires indgo.Length == |rows|
      ensures j <= |rows| && (j < |rows| ==> indgo[j] == n) && forall l | 0 <= l < j :: indgo[l] != n
    {
      j := 0;
      while j < |rows| && indgo[j] != n
        invariant j <= |rows| && forall l | 0 <= l < j :: indgo[l] != n
      {
        j := j + 1;
      }
    }

    method WriteRow(row: seq<Entry>, n: int)
      requires amem.Length == ACTSIZE && 0 <= maxa < ACTSIZE && Increasing(row)
      requires forall e | e in row :: 0 <= n + e.index < ACTSIZE
      modifies amem, this`maxa
      ensures Written(old(amem[..]), amem[..], n, row)
      ensures old(maxa) <= maxa < ACTSIZE && forall e | e in row :: n + e.index <= maxa
    {
      for r := 0 to |row|
        invariant old(maxa) <= maxa < ACTSIZE
        invariant forall l | 0 <= l < r :: n + row[l].index <= maxa && amem[n + row[l].index] == row[l].target
        invariant forall p | 0 <= p < ACTSIZE && (forall e | e in row :: n + e.index != p) :: amem[p] == old(amem[p])
      {
        assert row[r] in row;
        var s := row[r].index + n;
        if s > maxa {
          maxa := s;
        }
        amem[s] := row[r].target;
      }
    }

    /** Place state i at offset n if that is acceptable. */
    method TryPlace(i: int, n: int) returns (v: Verdict)
      requires Shape() && Inv(inp, View()) && 0 <= i < |rows| && rows[i] != [] && i !in sdone
      modifies this`maxa, this`sdone, amem, indgo
      ensures v != Fit ==> View() == old(View())
      ensures v == Misfit ==> !Acceptable(inp, old(View()), i, n)
      ensures v == Overflow ==> exists e | e in rows[i] :: n + e.index >= ACTSIZE
      ensures v == Fit ==> Inv(inp, View()) && sdone == old(sdone) + {i} && indgo[..] == old(indgo[..])[i := n]
      ensures v == Fit ==> Acceptable(inp, old(View()), i, n) && Written(old(amem[..]), amem[..], n, rows[i])
    {
      ghost var k := View();
      assert ValidShifts(rows[i], inp.chk);
      var flag;
      v, flag := Probe(rows[i], n);
      if v == Fit {
        var j := SharedWith(n);
        if j == |rows| {
          assert n !in k.ind;
          WriteRow(rows[i], n);
          indgo[i] := n;
          sdone := sdone + {i};
          FreshPlace(inp, k, i, n, View());
        } else if flag == 0 && |rows[i]| == |rows[j]| {
          SharedIsDone(k, i, j, n);
          indgo[i] := n;
          sdone := sdone + {i};
          SharePlace(inp, k, i, j, View());
          SharedAcceptable(k, i, j);
        } else {
          assert k.ind[j] == n;
          v := Misfit;
        }
      }
    }

    /** Enter state i into the array at the first acceptable offset. */
    method Stin(i: int) returns (ok: bool)
      requires Valid() && 0 <= i < |rows| && tystate[i] > 0
      modifies this`maxa, this`sdone, amem, indgo, tystate
      ensures !ok ==> forall n | -maxoff <= n < ACTSIZE :: !Acceptable(inp, old(View()), i, n)
      ensures ok ==> Valid() && sdone == old(sdone) + {i} && tystate[..] == old(tystate[..])[i := 0]
      ensures ok ==> indgo[..] == old(indgo[..])[i := indgo[i]] && Written(old(amem[..]), amem[..], indgo[i], rows[i])
      ensures ok ==> -maxoff <= indgo[i] < ACTSIZE && Acceptable(inp, old(View()), i, indgo[i])
      ensures ok ==> forall n | -maxoff <= n < indgo[i] :: !Acceptable(inp, old(View()), i, n)
    {
      ghost var k := View();
      tystate[i] := 0;
      var n := -maxoff;
      while n < ACTSIZE
        invariant -maxoff <= n
        invariant View() == k
        invariant forall l | -maxoff <= l < n :: !Acceptable(inp, k, i, l)
        invariant tystate[..] == old(tystate[..])[i := 0]
      {
        var v := TryPlace(i, n);
        match v {
          case Fit =>
            assert forall s | 0 <= s < |rows| :: tystate[s] == old(tystate[..])[i := 0][s];
            return true;
          case Overflow =>
            forall l | n <= l < ACTSIZE ensures !Acceptable(inp, k, i, l) {
              var e :| e in rows[i] && n + e.index >= ACTSIZE;
              assert l + e.index >= ACTSIZE;
            }
            return false;
          case Misfit =>
        }
        n := n + 1;
      }
      ok := false;
    }

    lemma SharedIsDone(k: Packing, i: int, j: int, n: int)
      requires Inv(inp, k) && 0 <= i < |inp.rows| && 0 <= j < |inp.rows|
      requires inp.rows[i] != [] && k.ind[j] == n && Fits(k.m, n, inp.rows[i])
      ensures j in k.sdone
    {
      assert inp.rows[i][0] in inp.rows[i];
      assert ValidShifts(inp.rows[i], inp.chk);
    }

    lemma SharedAcceptable(k: Packing, i: int, j: int)
      requires Inv(inp, k) && 0 <= i < |inp.rows| && j in k.sdone
      requires ShiftsIn(k.m, k.ind[j], inp.rows[i]) && |inp.rows[i]| == |inp.rows[j]| && inp.rows[i] != []
      ensures Acceptable(inp, k, i, k.ind[j])
    {
      forall l | 0 <= l < |k.ind| && k.ind[l] == k.ind[j] ensures |inp.rows[l]| == |inp.rows[i]| {
        SharedIsDone(k, i, l, k.ind[j]);
      }
    }

    /** Enter the gotos of nonterminal a at the first position whose cells are all zero. */
    method Gin(a: int) returns (ok: bool)
      requires Valid() && 1 <= a < |gotos| && ggreed[a] > 0
      modifies this`maxa, this`gdone, amem, pgo, ggreed
      ensures !ok ==> forall q | 0 <= q < ACTSIZE :: !GotoFits(old(amem[..]), q, gotos[a])
      ensures ok ==> Valid() && gdone == old(gdone) + {a} && ggreed[..] == old(ggreed[..])[a := 0]
      ensures ok ==> pgo[..] == old(pgo[..])[a := pgo[a]] && GotosWritten(old(amem[..]), amem[..], pgo[a], gotos[a])
      ensures ok ==> GotoFits(old(amem[..]), pgo[a], gotos[a])
      ensures ok ==> forall q | 0 <= q < pgo[a] :: !GotoFits(old(amem[..]), q, gotos[a])
    {
      ghost var k := View();
      var r := gotos[a];
      assert ValidGotos(a, r, inp.chk);
      ggreed[a] := 0;
      for p := 0 to ACTSIZE
        invariant View() == k.(maxa := maxa) && k.maxa <= maxa < ACTSIZE
        invariant forall q | 0 <= q < p :: !GotoFits(k.m, q, r)
        invariant forall b | 0 <= b < |gotos| :: ggreed[b] == if b == a then 0 else old(ggreed[b])
      {
        if amem[p] == 0 {
          var v := GotoProbe(r, p);
          if v == Overflow {
            forall q | p <= q < ACTSIZE ensures !GotoFits(k.m, q, r) {
              var e :| e in r.entries && p + e.index + 1 >= ACTSIZE;
              assert q + e.index + 1 >= ACTSIZE;
            }
            return false;
          }
          if v == Fit {
            WriteGotos(r, p);
            pgo[a] := p;
            gdone := gdone + {a};
            GotoPlace(inp, k, a, p, View());
            return true;
          }
        }
      }
      ok := false;
    }

    /** Are the cells of the exceptions of r zero at position p? maxa moves even when the answer is no. */
    method GotoProbe(r: GotoRow, p: int) returns (v: Verdict)
      requires amem.Length == ACTSIZE && 0 <= p < ACTSIZE && amem[p] == 0 && 0 <= maxa < ACTSIZE
      requires forall e | e in r.entries :: e.index >= 0
      modifies this`maxa
      ensures old(maxa) <= maxa < ACTSIZE
      ensures v == Overflow ==> exists e | e in r.entries :: p + e.index + 1 >= ACTSIZE
      ensures v == Misfit ==> !GotoFits(amem[..], p, r)
      ensures v == Fit ==> GotoFits(amem[..], p, r) && forall e | e in r.entries :: p + e.index + 1 <= maxa
    {
      for l := 0 to |r.entries|
        invariant old(maxa) <= maxa < ACTSIZE
        invariant forall q | 0 <= q < l :: p + r.entries[q].index + 1 <= maxa && amem[p + r.entries[q].index + 1] == 0
      {
        assert r.entries[l] in r.entries;
        var s := p + r.entries[l].index + 1;
        if s >= ACTSIZE {
          return Overflow;
        }
        if amem[s] != 0 {
          return Misfit;
        }
        if s > maxa {
          maxa := s;
        }
      }
      v := Fit;
    }

    method WriteGotos(r: GotoRow, p: int)
      requires amem.Length == ACTSIZE && 0 <= maxa < ACTSIZE && Increasing(r.entries)
      requires 0 <= p < ACTSIZE
      requires forall e | e in r.entries :: 0 <= e.index && p + e.index + 1 < ACTSIZE
      modifies amem, this`maxa
      ensures GotosWritten(old(amem[..]), amem[..], p, r)
      ensures old(maxa) <= maxa < ACTSIZE && p <= maxa
    {
      amem[p] := r.dflt;
      if p > maxa {
        maxa := p;
      }
      for l := 0 to |r.entries|
        invariant amem[p] == r.dflt && old(maxa) <= maxa < ACTSIZE && p <= maxa
        invariant forall q | 0 <= q < l :: amem[p + r.entries[q].index + 1] == r.entries[q].target
        invariant forall q | 0 <= q < ACTSIZE && q != p && (forall e | e in r.entries :: p + e.index + 1 != q) ::
                    amem[q] == old(amem[q])
      {
        assert r.entries[l] in r.entries;
        amem[p + r.entries[l].index + 1] := r.entries[l].target;
      }
    }

    /** Place every row, heaviest first. The array written out is amem[..maxa+1]. */
    method CallOpt() returns (ok: bool)
      requires Valid() && Weighed()
      modifies this`maxa, this`sdone, this`gdone, amem, indgo, pgo, tystate, ggreed
      ensures ok ==> Valid() && Complete(inp, View())
    {
      hide Inv, Explained, ValidInput, ValidShifts, ValidGotos, AllWeigh, Farthest;
      var i := Nxti();
      while i != NOMORE
        invariant Valid() && Weighed()
        invariant i != NOMORE ==> (i >= 0 ==> i < |rows| && tystate[i] > 0)
                                  && (i < 0 ==> -i < |gotos| && ggreed[-i] > 0)
        invariant i == NOMORE ==> (forall s | 0 <= s < |rows| :: tystate[s] == 0)
                                  && (forall a | 1 <= a < |gotos| :: ggreed[a] == 0)
        decreases Below(|rows|) - sdone, Below(|gotos|) - gdone
      {
        LessWeigh(rows, gotos, tystate[..], ggreed[..], sdone, gdone, if i >= 0 then i else -i);
        if i >= 0 {
          ok := Stin(i);
          assert i in Below(|rows|);
        } else {
          ok := Gin(-i);
          assert -i in Below(|gotos|);
        }
        if !ok {
          return;
        }
        i := Nxti();
      }
      ok := true;
    }
  }

  /** Every nonempty shift row and every goto row has been placed. */
  ghost predicate Complete(inp: Input, k: Packing) {
    && (forall i | 0 <= i < |inp.rows| && inp.rows[i] != [] :: i in k.sdone)
    && (forall a | 1 <= a < |inp.gotos| :: a in k.gdone)
  }
}
