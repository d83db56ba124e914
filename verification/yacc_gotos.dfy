/**
 go2gen and go2out: the column of gotos of each nonterminal, and the row of
 exceptions and default it is written as.
 */
module YaccGotos {
  import opened YaccPack
  import opened YaccAction
  import opened YaccDriver
  import opened YaccGrammar
  import opened YaccFirst
  import opened YaccClosure
  import opened YaccKernels
  import opened YaccStates
  import opened YaccStagen

  // ---- Left corners -----------------------------------------------------------------------------

  ghost predicate LeftClosed(g: Grammar, s: set<nat>) {
    forall p, y | 0 <= p < |g.prods| && g.prods[p].rhs != [] && g.prods[p].rhs[0] == N(y) && y in s ::
        g.prods[p].lhs in s
  }

  /** c is a left corner of x: x belongs to every left-closed set that contains c. */
  ghost predicate LeftCorner(g: Grammar, x: nat, c: nat) {
    forall s: set<nat> :: LeftClosed(g, s) && c in s ==> x in s
  }

  lemma LeftStep(g: Grammar, p: nat, y: nat, c: nat)
    requires p < |g.prods| && g.prods[p].rhs != [] && g.prods[p].rhs[0] == N(y) && LeftCorner(g, y, c)
    ensures LeftCorner(g, g.prods[p].lhs, c)
  {
  }

  /** The kernel has an item before a nonterminal with left corner c. */
  ghost predicate KernelReaches(g: Grammar, k: set<Item>, c: nat) {
    exists it, d :: it in k && Before(g, it, d) && LeftCorner(g, d, c)
  }

  lemma ClosureReaches(g: Grammar, k: set<Item>, c: nat, it: Item, d: nat)
    requires g.Valid() && (forall i | i in k :: ItemOk(g, i)) && !KernelReaches(g, k, c)
    requires InClosure(g, k, it) && Before(g, it, d)
    ensures !LeftCorner(g, d, c)
  {
    var s := set i | i in AllItems(g) && (forall e :: Before(g, i, e) ==> !LeftCorner(g, e, c));
    assert Closed(g, s) by {
      forall i, e, p | i in s && Before(g, i, e) && 0 <= p < |g.prods| && g.prods[p].lhs == e ensures Item(p, 0) in s {
        forall y | Before(g, Item(p, 0), y) ensures !LeftCorner(g, y, c) {
          if LeftCorner(g, y, c) {
            LeftStep(g, p, y, c);
          }
        }
      }
    }
    forall i | i in k ensures i in s {
      assert i in AllItems(g);
    }
    assert it in s;
  }

  lemma ReachesClosure(g: Grammar, k: set<Item>, c: nat, x: nat, it: Item)
    requires g.Valid() && c <= g.nnonter && LeftCorner(g, x, c)
    requires InClosure(g, k, it) && Before(g, it, x)
    ensures Goto(g, k, N(c)) != {}
  {
    var found := exists i :: InClosure(g, k, i) && Before(g, i, c);
    var s := set y | y in UpTo(g.nnonter) && (found || forall i :: InClosure(g, k, i) ==> !Before(g, i, y));
    assert c in s;
    assert LeftClosed(g, s) by {
      forall p, y | 0 <= p < |g.prods| && g.prods[p].rhs != [] && g.prods[p].rhs[0] == N(y) && y in s
        ensures g.prods[p].lhs in s
      {
        forall i | !found && InClosure(g, k, i) ensures !Before(g, i, g.prods[p].lhs) {
          if Before(g, i, g.prods[p].lhs) {
            ClosureStep(g, k, i, g.prods[p].lhs, p);
          }
          assert Before(g, Item(p, 0), y);
        }
      }
    }
    assert x in s;
    var i :| InClosure(g, k, i) && Before(g, i, c);
    InGoto(g, k, N(c), i);
  }

  /** A state has a goto on c exactly when its kernel alone says so. */
  lemma GotoIffKernelReaches(g: Grammar, k: set<Item>, c: nat)
    requires g.Valid() && c <= g.nnonter && forall i | i in k :: ItemOk(g, i)
    ensures Goto(g, k, N(c)) != {} <==> KernelReaches(g, k, c)
  {
    if Goto(g, k, N(c)) != {} {
      var e :| e in Goto(g, k, N(c));
      var it :| it in AllItems(g) && Moves(g, it, N(c)) && InClosure(g, k, it) && e == Advance(it);
      assert LeftCorner(g, c, c);
      if !KernelReaches(g, k, c) {
        ClosureReaches(g, k, c, it, c);
      }
    }
    if KernelReaches(g, k, c) {
      var it, d :| it in k && Before(g, it, d) && LeftCorner(g, d, c);
      ReachesClosure(g, k, c, d, it);
    }
  }

  ghost function Unset(temp1: seq<int>): (s: set<int>)
    ensures forall n :: n in s <==> 0 <= n < |temp1| && temp1[n] == 0
  {
    Marked(temp1, 0)
  }

  /** The first loop of go2gen: nonterminals with a goto on c in the closure of an item before them. */
  method LeftCorners(g: Grammar, c: nat, temp1: array<int>)
    requires g.Valid() && 1 <= c <= g.nnonter && temp1.Length == g.nnonter + 1
    modifies temp1
    ensures forall x | 0 <= x <= g.nnonter :: temp1[x] != 0 <==> LeftCorner(g, x, c)
  {
    for n := 0 to temp1.Length
      invariant forall m | 0 <= m < n :: temp1[m] == 0
    {
      temp1[n] := 0;
    }
    temp1[c] := 1;
    var work := true;
    while work
      invariant temp1[c] != 0
      invariant forall x | 0 <= x <= g.nnonter && temp1[x] != 0 :: LeftCorner(g, x, c)
      invariant !work ==> forall p | 0 <= p < |g.prods| :: LeftDone(g, temp1[..], p)
      decreases Unset(temp1[..]), work
    {
      ghost var was := temp1[..];
      work := false;
      for p := 0 to |g.prods|
        invariant temp1[c] != 0
        invariant forall x | 0 <= x <= g.nnonter && temp1[x] != 0 :: LeftCorner(g, x, c)
        invariant forall x | 0 <= x <= g.nnonter && was[x] != 0 :: temp1[x] != 0
        invariant work ==> exists x :: 0 <= x <= g.nnonter && was[x] == 0 && temp1[x] != 0
        invariant !work ==> temp1[..] == was && forall q | 0 <= q < p :: LeftDone(g, temp1[..], q)
      {
        if g.prods[p].rhs != [] && g.prods[p].rhs[0].N? {
          assert g.InRange(g.prods[p].rhs[0]);
          if temp1[g.prods[p].rhs[0].n] != 0 && temp1[g.prods[p].lhs] == 0 {
            LeftStep(g, p, g.prods[p].rhs[0].n, c);
            assert was[g.prods[p].lhs] == 0;
            work := true;
            temp1[g.prods[p].lhs] := 1;
          }
        }
      }
      if work {
        ghost var x :| 0 <= x <= g.nnonter && was[x] == 0 && temp1[x] != 0;
        UnsetShrinks(was, temp1[..], x);
      }
    }
    forall x | 0 <= x <= g.nnonter && LeftCorner(g, x, c) ensures temp1[x] != 0 {
      MarkedIsClosed(g, temp1[..], c, x);
    }
  }

  lemma UnsetShrinks(a: seq<int>, b: seq<int>, x: int)
    requires |a| == |b| && forall n | 0 <= n < |a| && a[n] != 0 :: b[n] != 0
    requires 0 <= x < |a| && a[x] == 0 && b[x] != 0
    ensures Unset(b) < Unset(a)
  {
    var sa, sb := Unset(a), Unset(b);
    forall n | n in sb ensures n in sa {
      assert b[n] == 0;
    }
    assert x in sa && x !in sb;
  }

  ghost predicate LeftDone(g: Grammar, temp1: seq<int>, p: nat)
    requires p < |g.prods|
  {
    g.prods[p].rhs != [] && g.prods[p].rhs[0].N? && g.prods[p].rhs[0].n < |temp1| && temp1[g.prods[p].rhs[0].n] != 0 ==>
      g.prods[p].lhs < |temp1| && temp1[g.prods[p].lhs] != 0
  }

  lemma MarkedIsClosed(g: Grammar, temp1: seq<int>, c: nat, x: nat)
    requires |temp1| == g.nnonter + 1 && c <= g.nnonter && temp1[c] != 0 && LeftCorner(g, x, c) && x <= g.nnonter
    requires forall p | 0 <= p < |g.prods| :: LeftDone(g, temp1, p)
    ensures temp1[x] != 0
  {
    var s := set y | y in UpTo(g.nnonter) && temp1[y] != 0;
    assert LeftClosed(g, s) by {
      forall p, y | 0 <= p < |g.prods| && g.prods[p].rhs != [] && g.prods[p].rhs[0] == N(y) && y in s
        ensures g.prods[p].lhs in s
      {
        assert LeftDone(g, temp1, p);
      }
    }
  }

  // ---- The column of a nonterminal ----------------------------------------------------------------

  /** col[i] is the goto of state i on c, 0 if it has none. */
  ghost predicate IsColumn(g: Grammar, a: Auto, c: nat, col: seq<int>) {
    && |col| == |a.kernels|
    && forall i {:trigger col[i]} | 0 <= i < |a.kernels| ::
         if Goto(g, KSet(a, i), N(c)) != {} then col[i] != 0 && GoesTo(g, a, i, N(c), col[i]) else col[i] == 0
  }

  method HasLeftCorner(g: Grammar, k: seq<KItem>, temp1: array<int>, ghost c: nat) returns (found: bool)
    requires temp1.Length == g.nnonter + 1 && g.Valid() && forall j | 0 <= j < |k| :: ItemOk(g, k[j].item)
    requires forall x | 0 <= x <= g.nnonter :: temp1[x] != 0 <==> LeftCorner(g, x, c)
    ensures found <==> KernelReaches(g, ItemsOf(k), c)
  {
    for j := 0 to |k|
      invariant forall i, d | 0 <= i < j && Before(g, k[i].item, d) :: !LeftCorner(g, d, c)
    {
      var it := k[j].item;
      if it.dot < |g.prods[it.prod].rhs| && g.prods[it.prod].rhs[it.dot].N? {
        assert g.InRange(g.prods[it.prod].rhs[it.dot]);
        if temp1[g.prods[it.prod].rhs[it.dot].n] != 0 {
          assert it in ItemsOf(k) && Before(g, it, g.prods[it.prod].rhs[it.dot].n);
          return true;
        }
      }
    }
    found := false;
  }

  /** go2gen: read the gotos on c out of the overlaid array, only where the kernel shows there is one. */
  method Go2gen(g: Grammar, kernels: seq<seq<KItem>>, amem: array<int>, indgo: seq<int>, c: nat, ghost a: Auto)
    returns (col: seq<int>)
    requires g.Valid() && GoodAuto(g, a) && a.kernels == kernels && AllWorked(g, a, amem[..], indgo)
             && 1 <= c <= g.nnonter
    ensures IsColumn(g, a, c, col)
  {
    hide LeftCorner, Goto;
    var temp1 := new int[g.nnonter + 1];
    LeftCorners(g, c, temp1);
    col := [];
    for i := 0 to |kernels|
      invariant |col| == i
      invariant forall x | 0 <= x <= g.nnonter :: temp1[x] != 0 <==> LeftCorner(g, x, c)
      invariant forall j | 0 <= j < i ::
                  if Goto(g, KSet(a, j), N(c)) != {} then col[j] != 0 && GoesTo(g, a, j, N(c), col[j]) else col[j] == 0
    {
      GoodStateAt(g, a, i);
      var found := HasLeftCorner(g, kernels[i], temp1, c);
      GotoIffKernelReaches(g, KSet(a, i), c);
      if found {
        assert Stored(g, a, amem[..], indgo[i], i);
        col := col + [amem[indgo[i] + c]];
      } else {
        col := col + [0];
      }
    }
  }

  // ---- The row written for a column ---------------------------------------------------------------

  method CountFrom(col: seq<int>, j: nat, v: int) returns (count: nat)
    requires j <= |col|
    ensures count == Count(col[j..], v)
  {
    count := 0;
    for k := j to |col|
      invariant count == Count(col[j..k], v)
    {
      assert col[j..k + 1][..k - j] == col[j..k];
      if col[k] == v {
        count := count + 1;
      }
    }
    assert col[j..|col|] == col[j..];
  }

  lemma {:induction false} CountSplit(a: seq<int>, b: seq<int>, v: int)
    ensures Count(a + b, v) == Count(a, v) + Count(b, v)
  {
    if b == [] {
      assert a + b == a;
    } else {
      assert (a + b)[..|a + b| - 1] == a + b[..|b| - 1];
      CountSplit(a, b[..|b| - 1], v);
    }
  }

  lemma {:induction false} CountAbsent(a: seq<int>, v: int)
    requires v !in a
    ensures Count(a, v) == 0
  {
    if a != [] {
      CountAbsent(a[..|a| - 1], v);
    }
  }

  /** The most frequent state of the column, -1 if the column is empty. */
  method BestGoto(col: seq<int>) returns (best: int)
    requires forall j | 0 <= j < |col| :: col[j] >= 0
    ensures best == -1 <==> forall j | 0 <= j < |col| :: col[j] == 0
    ensures best != -1 ==> best > 0 && best in col && forall v | v != 0 :: Count(col, v) <= Count(col, best)
  {
    hide Count;
    best := -1;
    var times := 0;
    for j := 0 to |col|
      invariant best == -1 ==> times == 0 && forall k | 0 <= k < j :: col[k] == 0
      invariant best != -1 ==> best > 0 && best in col && times == Count(col, best)
      invariant forall k | 0 <= k < j && col[k] != 0 :: Count(col, col[k]) <= times
    {
      assert col == col[..j] + col[j..];
      CountSplit(col[..j], col[j..], col[j]);
      if col[j] != 0 && col[j] != best {
        var count := CountFrom(col, j, col[j]);
        if col[j] !in col[..j] {
          CountAbsent(col[..j], col[j]);
          assert col[j..][0] == col[j];
          CountPositive(col[j..], 0);
        } else {
          ghost var k :| 0 <= k < j && col[k] == col[j];
        }
        if count > times {
          assert col[j] !in col[..j];
          best, times := col[j], count;
        }
      }
    }
    forall v | v != 0 && best != -1 ensures Count(col, v) <= Count(col, best) {
      if v !in col {
        CountAbsent(col, v);
      } else {
        var k :| 0 <= k < |col| && col[k] == v;
      }
    }
  }

  /** go2out for one column: its most frequent state becomes the default, the others are listed. */
  method Go2out(col: seq<int>) returns (r: GotoRow)
    requires forall j | 0 <= j < |col| :: col[j] >= 0
    ensures Compresses(col, r) && Increasing(r.entries)
    ensures (r.dflt == 0 <==> forall j | 0 <= j < |col| :: col[j] == 0) && (r.dflt == 0 ==> r.entries == [])
    ensures r.dflt != 0 ==> r.dflt in col && forall v | v != 0 :: Count(col, v) <= Count(col, r.dflt)
    ensures forall e | e in r.entries :: e.target != 0 && e.target != r.dflt
  {
    var best := BestGoto(col);
    var entries: seq<Entry> := [];
    for j := 0 to |col|
      invariant Increasing(entries) && (entries != [] ==> exists k :: 0 <= k < j && col[k] != 0)
      invariant forall e | e in entries :: 0 <= e.index < j && col[e.index] == e.target && e.target != 0
                                           && e.target != best
      invariant forall k | 0 <= k < j && col[k] != 0 && col[k] != best :: Entry(k, col[k]) in entries
    {
      if col[j] != 0 && col[j] != best {
        ghost var was := entries;
        entries := entries + [Entry(j, col[j])];
        assert forall e :: e in entries <==> e in was || e == Entry(j, col[j]);
      }
    }
    r := GotoRow(entries, if best == -1 then 0 else best);
  }
}
