/**
 The actions of one state (wract in yacc): a row over the tokens becomes a shift
 row, a default reduction and a chunk of the exception table, and the default
 section of the parser reads the row back.
 */
module YaccAction {
  import opened YaccPack

  const ERRCODE: int := 8190
  const ACCEPTCODE: int := 8191
  const YYERRCODE: int := 2

  /** One pair of yyexca: (-1, state) opens a chunk, (token, action) fills it, (-2, default) closes it. */
  datatype Exc = Exc(key: int, val: int)

  // ---- How the parser reads the tables back -------------------------------------------------

  /** The first pair (-1, s) at or after p; the parser's first search loop. */
  function FindChunk(x: seq<Exc>, s: int, p: nat): (q: nat)
    requires p <= |x|
    ensures p <= q <= |x| && (q < |x| ==> x[q] == Exc(-1, s)) && forall r | p <= r < q :: x[r] != Exc(-1, s)
    decreases |x| - p
  {
    if p == |x| || x[p] == Exc(-1, s) then p else FindChunk(x, s, p + 1)
  }

  /** The first pair at or after p that is for token c or closes the chunk; the second search loop. */
  function FindToken(x: seq<Exc>, c: int, p: nat): (q: nat)
    requires p <= |x|
    ensures p <= q <= |x| && (q < |x| ==> x[q].key < 0 || x[q].key == c)
    ensures forall r | p <= r < q :: x[r].key >= 0 && x[r].key != c
    decreases |x| - p
  {
    if p == |x| || x[p].key < 0 || x[p].key == c then p else FindToken(x, c, p + 1)
  }

  /** The default section: yydef, or the exception table when it is -2. None is a run off the table's end. */
  function DefaultAction(def: int, x: seq<Exc>, s: int, c: int): (r: Option<int>) {
    if def != -2 then Some(def)
    else
      var p := FindChunk(x, s, 0);
      if p == |x| then None
      else
        var q := FindToken(x, c, p + 1);
        if q == |x| then None else Some(x[q].val)
  }

  datatype Option<T> = None | Some(value: T)

  // ---- What an entry of the action row stands for -------------------------------------------

  ghost predicate IsShift(v: int) {
    v > 0 && v != ACCEPTCODE && v != ERRCODE
  }

  /** The default section's answer for an entry that is not a shift: -1 accepts, 0 is an error, r > 0 reduces. */
  ghost function Fallback(v: int, lastred: int): int {
    if v == ACCEPTCODE then -1 else if v == ERRCODE then 0 else if v < 0 then -v else lastred
  }

  ghost predicate ValidChunk(ch: seq<Exc>, s: int) {
    ch == [] ||
    (|ch| >= 2 && ch[0] == Exc(-1, s) && ch[|ch| - 1].key == -2 && forall k | 1 <= k < |ch| - 1 :: ch[k].key >= 1)
  }

  /** The tables written for state s say exactly what its action row says. */
  ghost predicate Encodes(row: seq<int>, lastred: int, shifts: seq<Entry>, def: int, ch: seq<Exc>, s: int) {
    && ValidChunk(ch, s) && (ch == [] <==> def != -2) && (def != -2 ==> def == lastred)
    && (def == -2 <==> exists c :: 1 <= c < |row| && Excepted(row[c], lastred))
    && (forall e | e in shifts :: 1 <= e.index < |row| && row[e.index] == e.target && IsShift(e.target))
    && (forall c | 1 <= c < |row| && IsShift(row[c]) :: Entry(c, row[c]) in shifts)
    && (forall c | 1 <= c < |row| && !IsShift(row[c]) ::
          DefaultAction(def, ch, s, c) == Some(Fallback(row[c], lastred)))
  }

  ghost function Count(row: seq<int>, v: int): nat {
    if row == [] then 0 else Count(row[..|row| - 1], v) + (if row[|row| - 1] == v then 1 else 0)
  }

  // ---- wract --------------------------------------------------------------------------------

  method CountOf(temp1: array<int>, ntokens: nat, tred: int) returns (count: nat)
    requires ntokens < temp1.Length
    ensures count == Count(temp1[1..ntokens + 1], -tred)
  {
    count := 0;
    for p := 1 to ntokens + 1
      invariant count == Count(temp1[1..p], -tred)
    {
      assert temp1[1..p + 1][..p - 1] == temp1[1..p];
      if temp1[p] + tred == 0 {
        count := count + 1;
      }
    }
  }

  /** The most frequent reduction of the row, or 0 when the row reduces nowhere or shifts `error'. */
  method BestReduction(temp1: array<int>, ntokens: nat) returns (lastred: int)
    requires YYERRCODE <= ntokens < temp1.Length
    ensures temp1[YYERRCODE] > 0 ==> lastred == 0
    ensures lastred == 0 || (lastred > 0 && exists c :: 1 <= c <= ntokens && temp1[c] == -lastred)
    ensures temp1[YYERRCODE] <= 0 ==>
              forall c | 1 <= c <= ntokens && temp1[c] < 0 ::
                lastred > 0 && Count(temp1[1..ntokens + 1], temp1[c]) <= Count(temp1[1..ntokens + 1], -lastred)
  {
    ghost var row := temp1[1..ntokens + 1];
    var ntimes := 0;
    lastred := 0;
    for j := 1 to ntokens + 1
      invariant lastred == 0 || (lastred > 0 && exists c :: 1 <= c <= ntokens && temp1[c] == -lastred)
      invariant (lastred == 0 ==> ntimes == 0) && (lastred > 0 ==> ntimes == Count(row, -lastred) > 0)
      invariant forall c | 1 <= c < j && temp1[c] < 0 :: Count(row, temp1[c]) <= ntimes
    {
      if temp1[j] < 0 && temp1[j] + lastred != 0 {
        var count := CountOf(temp1, ntokens, -temp1[j]);
        if count > ntimes {
          lastred, ntimes := -temp1[j], count;
        }
      }
    }
    forall c | 1 <= c <= ntokens && temp1[c] < 0 ensures Count(row, temp1[c]) > 0 {
      assert row[c - 1] == temp1[c];
      CountPositive(row, c - 1);
    }
    if temp1[YYERRCODE] > 0 {
      lastred := 0;
    }
  }

  lemma {:induction false} CountPositive(row: seq<int>, k: nat)
    requires k < |row|
    ensures Count(row, row[k]) > 0
  {
    if k < |row| - 1 {
      assert row[..|row| - 1][k] == row[k];
      CountPositive(row[..|row| - 1], k);
    }
  }

  /** Write the tables of state s from temp1, whose entries equal to the default are cleared on the way. */
  method Wract(temp1: array<int>, ntokens: nat, s: int)
    returns (shifts: seq<Entry>, def: int, ch: seq<Exc>, lastred: int)
    requires YYERRCODE <= ntokens < temp1.Length
    modifies temp1
    ensures Encodes(old(temp1[..ntokens + 1]), lastred, shifts, def, ch, s)
    ensures Increasing(shifts)
    ensures lastred == 0 || (lastred > 0 && exists c :: 1 <= c <= ntokens && old(temp1[c]) == -lastred)
    ensures old(temp1[YYERRCODE]) > 0 ==> lastred == 0
    ensures old(temp1[YYERRCODE]) <= 0 ==>
              forall c | 1 <= c <= ntokens && old(temp1[c]) < 0 ::
                lastred > 0
                && Count(old(temp1[1..ntokens + 1]), old(temp1[c])) <= Count(old(temp1[1..ntokens + 1]), -lastred)
  {
    ghost var row := temp1[..ntokens + 1];
    lastred := BestReduction(temp1, ntokens);
    ClearDefault(temp1, ntokens, lastred);
    shifts, ch := Emit(temp1, ntokens, s, row, lastred);
    def := lastred;
    if ch != [] {
      def := -2;
      ghost var open := ch;
      assert open[1] in open && Excepted(row[open[1].key], lastred);
      ch := ch + [Exc(-2, lastred)];
      forall c | 1 <= c <= ntokens && !IsShift(row[c])
        ensures DefaultAction(def, ch, s, c) == Some(Fallback(row[c], lastred))
      {
        ClosedChunk(open, ch, row, lastred, s, c);
      }
    }
  }

  method ClearDefault(temp1: array<int>, ntokens: nat, lastred: int)
    requires ntokens < temp1.Length
    modifies temp1
    ensures forall c | 1 <= c <= ntokens :: temp1[c] == if old(temp1[c]) == -lastred then 0 else old(temp1[c])
  {
    for p := 1 to ntokens + 1
      invariant forall c | p <= c <= ntokens :: temp1[c] == old(temp1[c])
      invariant forall c | 1 <= c < p :: temp1[c] == if old(temp1[c]) == -lastred then 0 else old(temp1[c])
    {
      if temp1[p] + lastred == 0 {
        temp1[p] := 0;
      }
    }
  }

  /** The shifts go to the temporary file, everything else that is left to the exception table. */
  method Emit(temp1: array<int>, ntokens: nat, s: int, ghost row: seq<int>, ghost lastred: int)
    returns (shifts: seq<Entry>, ch: seq<Exc>)
    requires ntokens < temp1.Length && |row| == ntokens + 1 && lastred >= 0
    requires forall c | 1 <= c <= ntokens :: temp1[c] == if row[c] == -lastred then 0 else row[c]
    ensures Increasing(shifts)
    ensures forall e | e in shifts :: 1 <= e.index < |row| && row[e.index] == e.target && IsShift(e.target)
    ensures forall c | 1 <= c < |row| && IsShift(row[c]) :: Entry(c, row[c]) in shifts
    ensures ch == [] || OpenChunk(ch, s, |row|)
    ensures forall c | 1 <= c < |row| && Excepted(row[c], lastred) :: Exc(c, Fallback(row[c], lastred)) in ch
    ensures forall e | e in ch && e.key >= 1 :: e.key < |row| && Excepted(row[e.key], lastred)
                                                && e.val == Fallback(row[e.key], lastred)
  {
    shifts, ch := [], [];
    for c := 1 to ntokens + 1
      invariant ShiftsUpTo(shifts, row, c) && ChunkUpTo(ch, row, lastred, s, c)
    {
      var p1 := temp1[c];
      if p1 < 0 || p1 == ACCEPTCODE || p1 == ERRCODE {
        var pair := Exc(c, if p1 < 0 then -p1 else if p1 == ACCEPTCODE then -1 else 0);
        ghost var was := ch;
        ch := (if ch == [] then [Exc(-1, s)] else ch) + [pair];
        ChunkGrows(was, ch, row, lastred, s, c);
      } else if p1 != 0 {
        ghost var was := shifts;
        shifts := shifts + [Entry(c, p1)];
        ShiftsGrow(was, shifts, row, c);
      }
    }
  }

  ghost predicate ShiftsUpTo(shifts: seq<Entry>, row: seq<int>, c: int)
    requires 1 <= c <= |row|
  {
    && Increasing(shifts)
    && (forall e | e in shifts :: 1 <= e.index < c && row[e.index] == e.target && IsShift(e.target))
    && (forall d | 1 <= d < c && IsShift(row[d]) :: Entry(d, row[d]) in shifts)
  }

  ghost predicate ChunkUpTo(ch: seq<Exc>, row: seq<int>, lastred: int, s: int, c: int)
    requires 1 <= c <= |row|
  {
    && (ch == [] || OpenChunk(ch, s, c))
    && (forall d | 1 <= d < c && Excepted(row[d], lastred) :: Exc(d, Fallback(row[d], lastred)) in ch)
    && (forall e | e in ch && e.key >= 1 :: e.key < c && Excepted(row[e.key], lastred)
                                            && e.val == Fallback(row[e.key], lastred))
  }

  lemma ShiftsGrow(a: seq<Entry>, b: seq<Entry>, row: seq<int>, c: int)
    requires 1 <= c < |row| && ShiftsUpTo(a, row, c) && IsShift(row[c])
    requires b == a + [Entry(c, row[c])]
    ensures ShiftsUpTo(b, row, c + 1)
  {
    assert forall e :: e in b <==> e in a || e == Entry(c, row[c]);
  }

  lemma ChunkGrows(a: seq<Exc>, b: seq<Exc>, row: seq<int>, lastred: int, s: int, c: int)
    requires 1 <= c < |row| && ChunkUpTo(a, row, lastred, s, c) && Excepted(row[c], lastred)
    requires b == (if a == [] then [Exc(-1, s)] else a) + [Exc(c, Fallback(row[c], lastred))]
    ensures ChunkUpTo(b, row, lastred, s, c + 1)
  {
    assert forall e :: e in b <==> e in a || e == Exc(c, Fallback(row[c], lastred)) || (a == [] && e == Exc(-1, s));
  }

  /** Entries that need a pair of their own in the exception table. */
  ghost predicate Excepted(v: int, lastred: int) {
    v != 0 && v != -lastred && !IsShift(v)
  }

  ghost predicate OpenChunk(ch: seq<Exc>, s: int, c: int) {
    |ch| >= 2 && ch[0] == Exc(-1, s) && forall k | 1 <= k < |ch| :: 1 <= ch[k].key < c
  }

  lemma ClosedChunk(open: seq<Exc>, ch: seq<Exc>, row: seq<int>, lastred: int, s: int, c: int)
    requires OpenChunk(open, s, |row|) && ch == open + [Exc(-2, lastred)] && lastred >= 0
    requires 1 <= c < |row| && !IsShift(row[c])
    requires Excepted(row[c], lastred) ==> Exc(c, Fallback(row[c], lastred)) in open
    requires forall e | e in open && e.key >= 1 :: e.key < |row| && Excepted(row[e.key], lastred)
                                                   && e.val == Fallback(row[e.key], lastred)
    ensures DefaultAction(-2, ch, s, c) == Some(Fallback(row[c], lastred))
  {
    assert FindChunk(ch, s, 0) == 0;
    var q := FindToken(ch, c, 1);
    assert ch[|ch| - 1] == Exc(-2, lastred);
    assert q < |ch|;
    if Excepted(row[c], lastred) {
      var r :| 0 <= r < |open| && open[r] == Exc(c, Fallback(row[c], lastred));
      assert ch[r] == open[r];
      assert q <= r;
      assert ch[q] == open[q] && open[q] in open;
    } else {
      forall r | 1 <= r < |open| ensures ch[r].key >= 0 && ch[r].key != c {
        assert ch[r] == open[r] && open[r] in open;
      }
      assert q == |open|;
    }
  }

  // ---- The exception table of all states ----------------------------------------------------

  function Flatten(chunks: seq<seq<Exc>>): seq<Exc> {
    if chunks == [] then [] else Flatten(chunks[..|chunks| - 1]) + chunks[|chunks| - 1]
  }

  lemma {:induction false} NoForeignChunk(chunks: seq<seq<Exc>>, s: int, p: nat)
    requires forall i | 0 <= i < |chunks| :: ValidChunk(chunks[i], i)
    requires p < |Flatten(chunks)| && Flatten(chunks)[p] == Exc(-1, s)
    ensures 0 <= s < |chunks|
  {
    var n := |chunks| - 1;
    var init := Flatten(chunks[..n]);
    if p < |init| {
      NoForeignChunk(chunks[..n], s, p);
    } else {
      assert Flatten(chunks)[p] == chunks[n][p - |init|];
      assert ValidChunk(chunks[n], n);
    }
  }

  lemma FindsAppended(a: seq<Exc>, b: seq<Exc>, s: int, c: int)
    requires DefaultAction(-2, a, s, c).Some?
    ensures DefaultAction(-2, a + b, s, c) == DefaultAction(-2, a, s, c)
  {
    var p, p' := FindChunk(a, s, 0), FindChunk(a + b, s, 0);
    assert (a + b)[p] == a[p];
    assert p' <= p;
    assert (a + b)[p'] == a[p'];
    assert p == p';
    var q, q' := FindToken(a, c, p + 1), FindToken(a + b, c, p + 1);
    assert (a + b)[q] == a[q];
    assert q' <= q;
    assert (a + b)[q'] == a[q'];
  }

  lemma FindsPrepended(a: seq<Exc>, b: seq<Exc>, s: int, c: int)
    requires forall r | 0 <= r < |a| :: a[r] != Exc(-1, s)
    requires DefaultAction(-2, b, s, c).Some?
    ensures DefaultAction(-2, a + b, s, c) == DefaultAction(-2, b, s, c)
  {
    var p, p' := FindChunk(b, s, 0), FindChunk(a + b, s, 0);
    assert (a + b)[|a| + p] == b[p];
    assert p' >= |a| by {
      assert forall r | 0 <= r < |a| :: (a + b)[r] == a[r];
    }
    assert b[p' - |a|] == (a + b)[p'];
    assert p' == |a| + p by {
      assert p' <= |a| + p;
    }
    var q, q' := FindToken(b, c, p + 1), FindToken(a + b, c, p' + 1);
    assert (a + b)[|a| + q] == b[q];
    assert q' <= |a| + q;
    assert b[q' - |a|] == (a + b)[q'];
    assert q <= q' - |a|;
  }

  /** Searching the whole table finds the chunk of the state asked for. */
  lemma {:induction false} ChunkInTable(chunks: seq<seq<Exc>>, s: nat, c: int)
    requires forall i | 0 <= i < |chunks| :: ValidChunk(chunks[i], i)
    requires s < |chunks| && DefaultAction(-2, chunks[s], s, c).Some?
    ensures DefaultAction(-2, Flatten(chunks), s, c) == DefaultAction(-2, chunks[s], s, c)
  {
    var n := |chunks| - 1;
    var init := Flatten(chunks[..n]);
    if s < n {
      ChunkInTable(chunks[..n], s, c);
      FindsAppended(init, chunks[n], s, c);
    } else {
      forall r | 0 <= r < |init| ensures init[r] != Exc(-1, s) {
        if init[r] == Exc(-1, s) {
          NoForeignChunk(chunks[..n], s, r);
        }
      }
      FindsPrepended(init, chunks[n], s, c);
    }
  }
}
