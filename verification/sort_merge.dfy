/**
 mergefiles and mergeout of sort.c: sorted temporary files are merged, at most ten at a time,
 through further temporary files. A file is a sequence of lines, a line the number of its key.
 */
module SortMerge {
  import opened SortKey
  import opened SortOrder
  import opened SortRsort

  const NMERGE: nat := 10

  /** The keys of the lines. */
  function KeySet(keys: seq<seq<int>>, m: multiset<nat>): set<seq<int>> {
    set x | x in m && x < |keys| :: keys[x]
  }

  predicate Increasing(keys: seq<seq<int>>, s: seq<nat>) {
    forall i, j | 0 <= i < j < |s| && s[i] < |keys| && s[j] < |keys| :: Kcmp(keys[s[i]], keys[s[j]]) < 0
  }

  /** out is the lines in the order of their keys, or one line of each key under -u. */
  ghost predicate Merged(keys: seq<seq<int>>, lines: multiset<nat>, out: seq<nat>, u: bool) {
    && Sorted(keys, out)
    && if u then Increasing(keys, out) && KeySet(keys, multiset(out)) == KeySet(keys, lines) && multiset(out) <= lines
       else multiset(out) == lines
  }

  predicate Runs(keys: seq<seq<int>>, runs: seq<seq<nat>>) {
    forall x | 0 <= x < |runs| :: Refers(keys, runs[x]) && Sorted(keys, runs[x])
  }

  /** The lines of the first n runs that have not been read. */
  function Left(runs: seq<seq<nat>>, pos: seq<nat>, n: nat): multiset<nat>
    requires n <= |runs| == |pos| && forall x | 0 <= x < |runs| :: pos[x] <= |runs[x]|
  {
    if n == 0 then multiset{} else Left(runs, pos, n - 1) + Rest(runs[n - 1], pos[n - 1])
  }

  function Rest(run: seq<nat>, p: nat): multiset<nat>
    requires p <= |run|
  {
    multiset(run[p..])
  }

  function Lines(runs: seq<seq<nat>>): multiset<nat> {
    if runs == [] then multiset{} else Lines(runs[..|runs| - 1]) + multiset(runs[|runs| - 1])
  }

  lemma {:induction false} AllLeft(runs: seq<seq<nat>>, pos: seq<nat>, n: nat)
    requires n <= |runs| == |pos| && forall x | 0 <= x < |runs| :: pos[x] == 0
    ensures Left(runs, pos, n) == Lines(runs[..n])
  {
    if n > 0 {
      AllLeft(runs, pos, n - 1);
      assert runs[..n][..n - 1] == runs[..n - 1] && runs[n - 1][0..] == runs[n - 1];
    }
  }

  lemma SliceOne(run: seq<nat>, p: nat)
    requires p < |run|
    ensures Rest(run, p) == Rest(run, p + 1) + multiset{run[p]}
  {
    assert run[p..] == [run[p]] + run[p + 1..];
  }

  /** Reading the next line of run m. */
  lemma {:induction false} ReadOne(runs: seq<seq<nat>>, pos: seq<nat>, n: nat, m: nat)
    requires n <= |runs| == |pos| && (forall x | 0 <= x < |runs| :: pos[x] <= |runs[x]|) && m < |runs|
             && pos[m] < |runs[m]|
    ensures var pos' := pos[m := pos[m] + 1];
            Left(runs, pos, n) == if m < n then Left(runs, pos', n) + multiset{runs[m][pos[m]]} else Left(runs, pos', n)
  {
    hide Rest;
    if n > 0 {
      ReadOne(runs, pos, n - 1, m);
      if m == n - 1 {
        SliceOne(runs[m], pos[m]);
      }
    }
  }

  lemma {:induction false} LeftHas(runs: seq<seq<nat>>, pos: seq<nat>, n: nat, y: nat) returns (x: nat, k: nat)
    requires n <= |runs| == |pos| && (forall x | 0 <= x < |runs| :: pos[x] <= |runs[x]|) && y in Left(runs, pos, n)
    ensures x < n && pos[x] <= k < |runs[x]| && runs[x][k] == y
  {
    if y in Left(runs, pos, n - 1) {
      x, k := LeftHas(runs, pos, n - 1, y);
    } else {
      x := n - 1;
      var j :| 0 <= j < |runs[x][pos[x]..]| && runs[x][pos[x]..][j] == y;
      k := pos[x] + j;
    }
  }

  predicate Positions(runs: seq<seq<nat>>, pos: seq<nat>) {
    |runs| == |pos| && forall x | 0 <= x < |runs| :: pos[x] <= |runs[x]|
  }

  /** The key at the head of a run: of the next line, or of the last one; any key if the run is empty. */
  function HeadKey(keys: seq<seq<int>>, run: seq<nat>, p: nat): seq<int> {
    if p < |run| && run[p] < |keys| then keys[run[p]]
    else if run != [] && run[|run| - 1] < |keys| then keys[run[|run| - 1]]
    else if keys != [] then keys[0] else []
  }

  function HeadKeys(keys: seq<seq<int>>, runs: seq<seq<nat>>, pos: seq<nat>): (h: seq<seq<int>>)
    requires Positions(runs, pos)
    ensures |h| == |runs| && forall x | 0 <= x < |runs| :: h[x] == HeadKey(keys, runs[x], pos[x])
  {
    seq(|runs|, x requires 0 <= x < |runs| => HeadKey(keys, runs[x], pos[x]))
  }

  lemma HeadKeyIn(keys: seq<seq<int>>, run: seq<nat>, p: nat)
    ensures keys != [] ==> HeadKey(keys, run, p) in keys
    ensures keys == [] ==> HeadKey(keys, run, p) == []
  {
  }

  lemma HeadKeysGood(keys: seq<seq<int>>, runs: seq<seq<nat>>, pos: seq<nat>)
    requires GoodKeys(keys) && Positions(runs, pos)
    ensures GoodKeys(HeadKeys(keys, runs, pos))
  {
    var h := HeadKeys(keys, runs, pos);
    forall x, y | 0 <= x < |h| && 0 <= y < |h|
      ensures Unmixed(h[x], h[y]) && forall k | 0 <= k < |h[x]| :: 0 <= h[x][k] <= 255
    {
      HeadKeyIn(keys, runs[x], pos[x]);
      HeadKeyIn(keys, runs[y], pos[y]);
      if keys != [] {
        var i :| 0 <= i < |keys| && keys[i] == h[x];
        var j :| 0 <= j < |keys| && keys[j] == h[y];
        assert Unmixed(keys[i], keys[j]);
      }
    }
  }

  // ---- The state of a merge -----------------------------------------------------------------------------

  /** mm are the runs that have lines left. */
  predicate Active(mm: seq<nat>, runs: seq<seq<nat>>, pos: seq<nat>) {
    && Positions(runs, pos) && (forall i, j | 0 <= i < j < |mm| :: mm[i] != mm[j])
    && (forall i | 0 <= i < |mm| :: mm[i] < |runs| && pos[mm[i]] < |runs[mm[i]]|)
    && (forall x | 0 <= x < |runs| && pos[x] < |runs[x]| :: x in mm)
  }

  /** Of these lines out has been written; everything that is left comes after it. */
  ghost predicate Halfway(keys: seq<seq<int>>, lines: multiset<nat>, left: multiset<nat>, out: seq<nat>, u: bool) {
    && Refers(keys, out) && Sorted(keys, out)
    && (if u then Increasing(keys, out) && KeySet(keys, multiset(out)) + KeySet(keys, left) == KeySet(keys, lines)
                  && multiset(out) + left <= lines
        else multiset(out) + left == lines)
    && (out != [] ==> forall y | y in left :: Le(keys, out[|out| - 1], y))
  }

  ghost predicate Going(keys: seq<seq<int>>, runs: seq<seq<nat>>, pos: seq<nat>, out: seq<nat>, u: bool) {
    Positions(runs, pos) && Halfway(keys, Lines(runs), Left(runs, pos, |runs|), out, u)
  }

  /** The next line of run m comes before all lines that are left. */
  ghost predicate Least(keys: seq<seq<int>>, runs: seq<seq<nat>>, pos: seq<nat>, m: nat) {
    && Positions(runs, pos) && m < |runs| && pos[m] < |runs[m]|
    && forall y | y in Left(runs, pos, |runs|) :: Le(keys, runs[m][pos[m]], y)
  }

  lemma LeastHead(keys: seq<seq<int>>, runs: seq<seq<nat>>, pos: seq<nat>, mm: seq<nat>)
    requires GoodKeys(keys) && Runs(keys, runs) && Active(mm, runs, pos) && mm != []
    requires forall i | 0 <= i < |mm| :: Le(HeadKeys(keys, runs, pos), mm[0], mm[i])
    ensures Least(keys, runs, pos, mm[0])
  {
    var m := mm[0];
    var l := runs[m][pos[m]];
    assert Refers(keys, runs[m]);
    forall y | y in Left(runs, pos, |runs|) ensures Le(keys, l, y) {
      var x, k := LeftHas(runs, pos, |runs|, y);
      assert x in mm;
      var i :| 0 <= i < |mm| && mm[i] == x;
      assert Le(HeadKeys(keys, runs, pos), mm[0], mm[i]);
      assert Refers(keys, runs[x]) && Sorted(keys, runs[x]);
      var z := runs[x][pos[x]];
      assert Le(keys, l, z);
      if pos[x] < k {
        KcmpTransitive(keys[l], keys[z], keys[y]);
      }
    }
  }

  /** What is written for line l: nothing if it has the key of the last line and -u is given. */
  function Written(keys: seq<seq<int>>, out: seq<nat>, l: nat, u: bool): seq<nat> {
    if u && out != [] && out[|out| - 1] < |keys| && l < |keys| && Kcmp(keys[out[|out| - 1]], keys[l]) == 0 then out
       else out + [l]
  }

  // ---- The order in which lines are read ------------------------------------------------------------------

  /** Of the lines read, those that came from run x. */
  function Picked(src: seq<nat>, read: seq<nat>, x: nat): seq<nat>
    requires |src| == |read|
  {
    if src == [] then []
    else
      var n := |src| - 1;
      Picked(src[..n], read[..n], x) + if src[n] == x then [read[n]] else []
  }

  /** The lines have been read from the runs, in the order of each run, as far as pos. */
  ghost predicate ReadFrom(runs: seq<seq<nat>>, pos: seq<nat>, src: seq<nat>, read: seq<nat>) {
    && Positions(runs, pos) && |src| == |read| && (forall i | 0 <= i < |src| :: src[i] < |runs|)
    && forall x | 0 <= x < |runs| :: Picked(src, read, x) == runs[x][..pos[x]]
  }

  /** What is written of the lines read. */
  function WrittenOf(keys: seq<seq<int>>, read: seq<nat>, u: bool): seq<nat> {
    if read == [] then [] else Written(keys, WrittenOf(keys, read[..|read| - 1], u), read[|read| - 1], u)
  }

  lemma PickedSnoc(src: seq<nat>, read: seq<nat>, m: nat, l: nat, x: nat)
    requires |src| == |read|
    ensures Picked(src + [m], read + [l], x) == Picked(src, read, x) + if m == x then [l] else []
  {
    assert (src + [m])[..|src|] == src && (read + [l])[..|read|] == read;
  }

  lemma ReadOn(runs: seq<seq<nat>>, pos: seq<nat>, src: seq<nat>, read: seq<nat>, m: nat)
    requires ReadFrom(runs, pos, src, read) && m < |runs| && pos[m] < |runs[m]|
    ensures ReadFrom(runs, pos[m := pos[m] + 1], src + [m], read + [runs[m][pos[m]]])
  {
    hide Picked;
    forall x | 0 <= x < |runs|
      ensures Picked(src + [m], read + [runs[m][pos[m]]], x) == runs[x][..pos[m := pos[m] + 1][x]]
    {
      PickedSnoc(src, read, m, runs[m][pos[m]], x);
      if x == m {
        assert runs[m][..pos[m] + 1] == runs[m][..pos[m]] + [runs[m][pos[m]]];
      }
    }
  }

  lemma WrittenOn(keys: seq<seq<int>>, read: seq<nat>, l: nat, u: bool)
    ensures WrittenOf(keys, read + [l], u) == Written(keys, WrittenOf(keys, read, u), l, u)
  {
    assert (read + [l])[..|read|] == read;
  }

  /** Without -u, what is read is written. */
  lemma {:induction false} AllWritten(keys: seq<seq<int>>, read: seq<nat>)
    ensures WrittenOf(keys, read, false) == read
  {
    if read != [] {
      AllWritten(keys, read[..|read| - 1]);
    }
  }

  lemma {:induction false} WrittenAreRead(keys: seq<seq<int>>, read: seq<nat>, u: bool)
    ensures forall l | l in WrittenOf(keys, read, u) :: l in read
  {
    if read != [] {
      WrittenAreRead(keys, read[..|read| - 1], u);
      assert forall l | l in read[..|read| - 1] :: l in read;
    }
  }

  /** Of the lines with one key, the first that is read is written. */
  lemma {:induction false} FirstIsWritten(keys: seq<seq<int>>, read: seq<nat>, q: nat)
    requires q < |read| && forall i | 0 <= i < |read| :: read[i] < |keys|
    requires forall i | 0 <= i < q :: Kcmp(keys[read[i]], keys[read[q]]) != 0
    ensures read[q] in WrittenOf(keys, read, true)
    decreases |read|
  {
    hide Kcmp;
    var n := |read| - 1;
    if q < n {
      FirstIsWritten(keys, read[..n], q);
    } else {
      WrittenAreRead(keys, read[..n], true);
      var out := WrittenOf(keys, read[..n], true);
      if out != [] {
        assert out[|out| - 1] in out;
        var i :| 0 <= i < n && read[..n][i] == out[|out| - 1];
      }
    }
  }

  /** out is what is written of the lines of the runs, read each in its order. */
  ghost predicate Interleaved(keys: seq<seq<int>>, runs: seq<seq<nat>>, pos: seq<nat>, out: seq<nat>, u: bool) {
    exists src, read :: ReadFrom(runs, pos, src, read) && out == WrittenOf(keys, read, u)
  }

  lemma NothingRead(keys: seq<seq<int>>, runs: seq<seq<nat>>, pos: seq<nat>, u: bool)
    requires Positions(runs, pos) && forall x | 0 <= x < |runs| :: pos[x] == 0
    ensures Interleaved(keys, runs, pos, [], u)
  {
    assert ReadFrom(runs, pos, [], []) && WrittenOf(keys, [], u) == [];
  }

  lemma InterleavedOn(keys: seq<seq<int>>, runs: seq<seq<nat>>, pos: seq<nat>, out: seq<nat>, u: bool, m: nat)
    requires Interleaved(keys, runs, pos, out, u) && Positions(runs, pos) && m < |runs| && pos[m] < |runs[m]|
    ensures Interleaved(keys, runs, pos[m := pos[m] + 1], Written(keys, out, runs[m][pos[m]], u), u)
  {
    hide ReadFrom, Written;
    var src, read :| ReadFrom(runs, pos, src, read) && out == WrittenOf(keys, read, u);
    ReadOn(runs, pos, src, read, m);
    WrittenOn(keys, read, runs[m][pos[m]], u);
  }

  /** Every line of the runs has been read: each run is there whole, in its order. */
  ghost predicate Interleaving(keys: seq<seq<int>>, runs: seq<seq<nat>>, out: seq<nat>, u: bool) {
    exists src, read :: |src| == |read| && (forall x | 0 <= x < |runs| :: Picked(src, read, x) == runs[x])
      && (forall i | 0 <= i < |src| :: src[i] < |runs|) && out == WrittenOf(keys, read, u)
  }

  lemma AllRead(keys: seq<seq<int>>, runs: seq<seq<nat>>, pos: seq<nat>, out: seq<nat>, u: bool)
    requires Interleaved(keys, runs, pos, out, u) && Active([], runs, pos)
    ensures Interleaving(keys, runs, out, u)
  {
    hide Picked;
    var src, read :| ReadFrom(runs, pos, src, read) && out == WrittenOf(keys, read, u);
    forall x | 0 <= x < |runs| ensures Picked(src, read, x) == runs[x] {
      assert runs[x][..|runs[x]|] == runs[x];
    }
  }

  lemma SameKey(keys: seq<seq<int>>, x: nat, y: nat)
    requires GoodKeys(keys) && x < |keys| && y < |keys| && Kcmp(keys[x], keys[y]) == 0
    ensures keys[x] == keys[y]
  {
    FieldsInOrder(keys[x], [], keys[y], []);
  }

  lemma LastIsGreatest(keys: seq<seq<int>>, out: seq<nat>, l: nat)
    requires GoodKeys(keys) && Refers(keys, out) && Sorted(keys, out) && out != [] && Le(keys, out[|out| - 1], l)
    ensures Sorted(keys, out + [l])
    ensures Increasing(keys, out) && Kcmp(keys[out[|out| - 1]], keys[l]) != 0 ==> Increasing(keys, out + [l])
  {
    var r, n := out + [l], |out|;
    forall i | 0 <= i < n ensures Le(keys, r[i], l) {
      if i < n - 1 {
        KcmpTransitive(keys[out[i]], keys[out[n - 1]], keys[l]);
      }
    }
    if Increasing(keys, out) && Kcmp(keys[out[n - 1]], keys[l]) != 0 {
      forall i | 0 <= i < n ensures Kcmp(keys[r[i]], keys[l]) < 0 {
        if i < n - 1 {
          Strict(keys, out[i], out[n - 1], l);
        }
      }
    }
  }

  lemma Strict(keys: seq<seq<int>>, x: nat, y: nat, z: nat)
    requires GoodKeys(keys) && x < |keys| && y < |keys| && z < |keys| && Kcmp(keys[x], keys[y]) < 0
             && Kcmp(keys[y], keys[z]) < 0
    ensures Kcmp(keys[x], keys[z]) < 0
  {
    KcmpTransitive(keys[x], keys[y], keys[z]);
    if Kcmp(keys[x], keys[z]) == 0 {
      SameKey(keys, x, z);
      KcmpFlips(keys[x], keys[y]);
    }
  }

  lemma KeySetPlus(keys: seq<seq<int>>, m: multiset<nat>, l: nat)
    requires l < |keys|
    ensures KeySet(keys, m + multiset{l}) == KeySet(keys, m) + {keys[l]}
  {
  }

  lemma KeySetHas(keys: seq<seq<int>>, out: seq<nat>, i: nat)
    requires i < |out| && out[i] < |keys|
    ensures keys[out[i]] in KeySet(keys, multiset(out))
  {
    assert out[i] in multiset(out);
  }

  /** A line with the key of the last one is dropped. */
  lemma DropLine(keys: seq<seq<int>>, lines: multiset<nat>, left: multiset<nat>, out: seq<nat>, l: nat)
    requires GoodKeys(keys) && Halfway(keys, lines, left + multiset{l}, out, true) && l < |keys|
    requires out != [] && Kcmp(keys[out[|out| - 1]], keys[l]) == 0
    ensures Halfway(keys, lines, left, out, true)
  {
    hide GoodKeys, Kcmp, Increasing, Sorted, KeySet;
    KeySetPlus(keys, left, l);
    SameKey(keys, out[|out| - 1], l);
    KeySetHas(keys, out, |out| - 1);
    assert forall y | y in left :: y in left + multiset{l};
  }

  /** The least line is written. */
  lemma KeepLine(keys: seq<seq<int>>, lines: multiset<nat>, left: multiset<nat>, out: seq<nat>, l: nat, u: bool)
    requires GoodKeys(keys) && Halfway(keys, lines, left + multiset{l}, out, u) && l < |keys|
    requires u && out != [] ==> Kcmp(keys[out[|out| - 1]], keys[l]) != 0
    requires forall y | y in left :: Le(keys, l, y)
    ensures Halfway(keys, lines, left, out + [l], u)
  {
    hide GoodKeys, Kcmp, Increasing, Sorted, KeySet, Le;
    KeySetPlus(keys, left, l);
    KeySetPlus(keys, multiset(out), l);
    assert multiset(out + [l]) == multiset(out) + multiset{l};
    assert multiset(out + [l]) + left == multiset(out) + (left + multiset{l});
    if out == [] {
      OneLine(keys, l);
      assert [] + [l] == [l];
    } else {
      assert l in left + multiset{l};
      LastIsGreatest(keys, out, l);
    }
  }

  lemma OneLine(keys: seq<seq<int>>, l: nat)
    ensures Sorted(keys, [l]) && Increasing(keys, [l])
  {
  }

  /** The least line is read, and written or not. */
  lemma WriteLeast(keys: seq<seq<int>>, runs: seq<seq<nat>>, pos: seq<nat>, out: seq<nat>, u: bool, m: nat)
    requires GoodKeys(keys) && Runs(keys, runs) && Going(keys, runs, pos, out, u) && Least(keys, runs, pos, m)
    ensures Going(keys, runs, pos[m := pos[m] + 1], Written(keys, out, runs[m][pos[m]], u), u)
    ensures |Left(runs, pos[m := pos[m] + 1], |runs|)| < |Left(runs, pos, |runs|)|
  {
    hide GoodKeys, Halfway, Left, Kcmp, Le;
    var l, left' := runs[m][pos[m]], Left(runs, pos[m := pos[m] + 1], |runs|);
    ReadOne(runs, pos, |runs|, m);
    assert Refers(keys, runs[m]);
    assert forall y | y in left' :: y in Left(runs, pos, |runs|);
    LastRefers(keys, Lines(runs), Left(runs, pos, |runs|), out, u);
    if u && out != [] && Kcmp(keys[out[|out| - 1]], keys[l]) == 0 {
      DropLine(keys, Lines(runs), left', out, l);
    } else {
      KeepLine(keys, Lines(runs), left', out, l, u);
    }
  }

  lemma LastRefers(keys: seq<seq<int>>, lines: multiset<nat>, left: multiset<nat>, out: seq<nat>, u: bool)
    requires Halfway(keys, lines, left, out, u)
    ensures out != [] ==> out[|out| - 1] < |keys|
  {
  }

  // ---- mergefiles -----------------------------------------------------------------------------------------

  /** mmp[0] has the least head, and the others are in order. */
  predicate HeadsSorted(keys: seq<seq<int>>, runs: seq<seq<nat>>, pos: seq<nat>, mm: seq<nat>)
    requires Positions(runs, pos)
  {
    Sorted(HeadKeys(keys, runs, pos), mm)
  }

  lemma SortedHeadsLeast(keys: seq<seq<int>>, runs: seq<seq<nat>>, pos: seq<nat>, mm: seq<nat>)
    requires GoodKeys(keys) && Runs(keys, runs) && Active(mm, runs, pos) && mm != [] && HeadsSorted(keys, runs, pos, mm)
    ensures Least(keys, runs, pos, mm[0])
  {
    KcmpSelf(HeadKeys(keys, runs, pos)[mm[0]]);
    LeastHead(keys, runs, pos, mm);
  }

  /** After the next line of mm[0]: it is still the first run. */
  lemma StillFirst(keys: seq<seq<int>>, runs: seq<seq<nat>>, pos: seq<nat>, mm: seq<nat>)
    requires GoodKeys(keys) && Active(mm, runs, pos) && mm != [] && HeadsSorted(keys, runs, pos, mm)
    requires pos[mm[0]] + 1 < |runs[mm[0]]|
    requires var h := HeadKeys(keys, runs, pos[mm[0] := pos[mm[0]] + 1]); |mm| > 1 ==> Kcmp(h[mm[0]], h[mm[1]]) <= 0
    ensures var pos' := pos[mm[0] := pos[mm[0]] + 1]; Active(mm, runs, pos') && HeadsSorted(keys, runs, pos', mm)
  {
    var pos' := pos[mm[0] := pos[mm[0]] + 1];
    var h, h' := HeadKeys(keys, runs, pos), HeadKeys(keys, runs, pos');
    HeadKeysGood(keys, runs, pos');
    forall i, j | 0 <= i < j < |mm| ensures Le(h', mm[i], mm[j]) {
      assert h'[mm[j]] == h[mm[j]];
      if i > 0 {
        assert h'[mm[i]] == h[mm[i]] && Le(h, mm[i], mm[j]);
      } else if j > 1 {
        assert h'[mm[1]] == h[mm[1]] && Le(h, mm[1], mm[j]);
        KcmpTransitive(h'[mm[0]], h'[mm[1]], h'[mm[j]]);
      }
    }
  }

  /** After the last line of mm[0]: the last run takes its place. */
  lemma RunEnds(runs: seq<seq<nat>>, pos: seq<nat>, mm: seq<nat>)
    requires Active(mm, runs, pos) && mm != [] && pos[mm[0]] + 1 == |runs[mm[0]]|
    ensures Active(mm[0 := mm[|mm| - 1]][..|mm| - 1], runs, pos[mm[0] := pos[mm[0]] + 1])
  {
    var mm', pos' := mm[0 := mm[|mm| - 1]][..|mm| - 1], pos[mm[0] := pos[mm[0]] + 1];
    forall x | 0 <= x < |runs| && pos'[x] < |runs[x]| ensures x in mm' {
      assert x in mm;
      var i :| 0 <= i < |mm| && mm[i] == x;
      assert i > 0;
      assert mm'[if i == |mm| - 1 then 0 else i] == x;
    }
  }

  lemma RunGoesOn(runs: seq<seq<nat>>, pos: seq<nat>, mm: seq<nat>)
    requires Active(mm, runs, pos) && mm != [] && pos[mm[0]] + 1 < |runs[mm[0]]|
    ensures Active(mm, runs, pos[mm[0] := pos[mm[0]] + 1])
  {
  }

  lemma ActiveStays(mm: seq<nat>, mm': seq<nat>, runs: seq<seq<nat>>, pos: seq<nat>)
    requires Active(mm, runs, pos) && multiset(mm') == multiset(mm)
    ensures Active(mm', runs, pos)
  {
    forall i | 0 <= i < |mm'| ensures mm'[i] < |runs| && pos[mm'[i]] < |runs[mm'[i]]| {
      assert mm'[i] in multiset(mm);
    }
    forall x | x in mm ensures x in mm' {
      assert x in multiset(mm');
    }
    Distinct(mm, mm');
  }

  lemma {:induction false} Distinct(s: seq<nat>, t: seq<nat>)
    requires (forall i, j | 0 <= i < j < |s| :: s[i] != s[j]) && multiset(s) == multiset(t)
    ensures forall i, j | 0 <= i < j < |t| :: t[i] != t[j]
  {
    forall i, j | 0 <= i < j < |t| ensures t[i] != t[j] {
      MultisetWithout(t, j);
      assert t[i] in t[..j] + t[j + 1..] by {
        assert (t[..j] + t[j + 1..])[i] == t[i];
      }
      if t[i] == t[j] {
        Twice(s, t[i]);
      }
    }
  }

  lemma {:induction false} Twice(s: seq<nat>, x: nat)
    requires forall i, j | 0 <= i < j < |s| :: s[i] != s[j]
    ensures multiset(s)[x] <= 1
  {
    if s != [] {
      var n := |s| - 1;
      assert s == s[..n] + [s[n]];
      Twice(s[..n], x);
      if s[n] == x {
        assert x !in s[..n];
        assert multiset(s[..n])[x] == 0;
      }
    }
  }

  lemma HeadsTotal(keys: seq<seq<int>>, runs: seq<seq<nat>>, pos: seq<nat>, mm: seq<nat>)
    requires Active(mm, runs, pos)
    ensures Refers(HeadKeys(keys, runs, pos), mm)
  {
  }

  /** The inner loop: lines are taken from the first run until another run has a lesser one. */
  method Drain(keys: seq<seq<int>>, runs: seq<seq<nat>>, mmp: array<nat>, nn0: nat, pos0: seq<nat>,
               out0: seq<nat>, u: bool)
    returns (nn: nat, pos: seq<nat>, out: seq<nat>)
    requires GoodKeys(keys) && Runs(keys, runs) && 0 < nn0 <= mmp.Length && Positions(runs, pos0)
             && Active(mmp[..nn0], runs, pos0)
    requires HeadsSorted(keys, runs, pos0, mmp[..nn0]) && Going(keys, runs, pos0, out0, u)
    requires Interleaved(keys, runs, pos0, out0, u)
    modifies mmp
    ensures Interleaved(keys, runs, pos, out, u)
    ensures nn <= mmp.Length && Positions(runs, pos) && Active(mmp[..nn], runs, pos) && Going(keys, runs, pos, out, u)
    ensures |Left(runs, pos, |runs|)| < |Left(runs, pos0, |runs|)|
  {
    hide GoodKeys, Runs, Active, HeadsSorted, Going, Left, Kcmp, Halfway, Least, Interleaved, Written;
    nn, pos, out := nn0, pos0, out0;
    ActivePositions(mmp[..nn], runs, pos);
    while true
      invariant nn == nn0 && Positions(runs, pos) && Active(mmp[..nn], runs, pos)
                && HeadsSorted(keys, runs, pos, mmp[..nn]) && Going(keys, runs, pos, out, u)
                && Interleaved(keys, runs, pos, out, u)
      invariant |Left(runs, pos, |runs|)| <= |Left(runs, pos0, |runs|)|
      decreases |Left(runs, pos, |runs|)|
    {
      ActiveFirst(mmp[..nn], runs, pos);
      SortedHeadsLeast(keys, runs, pos, mmp[..nn]);
      WriteLeast(keys, runs, pos, out, u, mmp[0]);
      InterleavedOn(keys, runs, pos, out, u, mmp[0]);
      var m := mmp[0];
      ghost var mm, was := mmp[..nn], pos;
      out := Written(keys, out, runs[m][pos[m]], u);
      pos := pos[m := pos[m] + 1];
      if pos[m] == |runs[m]| {
        RunEnds(runs, was, mm);
        nn := nn - 1;
        mmp[0] := mmp[nn];
        assert mmp[..nn] == mm[0 := mm[|mm| - 1]][..|mm| - 1];
        break;
      }
      RunGoesOn(runs, was, mm);
      ActivePositions(mm, runs, pos);
      if nn > 1 && Kcmp(HeadKeys(keys, runs, pos)[mmp[0]], HeadKeys(keys, runs, pos)[mmp[1]]) > 0 {
        break;
      }
      StillFirst(keys, runs, was, mm);
    }
  }

  lemma ActiveFirst(mm: seq<nat>, runs: seq<seq<nat>>, pos: seq<nat>)
    requires Active(mm, runs, pos) && mm != []
    ensures Positions(runs, pos) && mm[0] < |runs| && pos[mm[0]] < |runs[mm[0]]|
  {
  }

  lemma ActivePositions(mm: seq<nat>, runs: seq<seq<nat>>, pos: seq<nat>)
    requires Active(mm, runs, pos)
    ensures Positions(runs, pos) && forall i | 0 <= i < |mm| :: mm[i] < |runs|
  {
  }

  lemma Finished(keys: seq<seq<int>>, runs: seq<seq<nat>>, pos: seq<nat>, out: seq<nat>, u: bool)
    requires Active([], runs, pos) && Going(keys, runs, pos, out, u)
    ensures Merged(keys, Lines(runs), out, u) && Refers(keys, out)
  {
    NothingLeft(runs, pos, |runs|);
  }

  lemma {:induction false} NothingLeft(runs: seq<seq<nat>>, pos: seq<nat>, n: nat)
    requires Active([], runs, pos) && n <= |runs|
    ensures Left(runs, pos, n) == multiset{}
  {
    if n > 0 {
      NothingLeft(runs, pos, n - 1);
      assert runs[n - 1][pos[n - 1]..] == [];
    }
  }

  lemma StartGoing(keys: seq<seq<int>>, runs: seq<seq<nat>>, pos: seq<nat>, u: bool)
    requires Positions(runs, pos) && forall x | 0 <= x < |runs| :: pos[x] == 0
    ensures Going(keys, runs, pos, [], u)
  {
    AllLeft(runs, pos, |runs|);
    assert runs[..|runs|] == runs;
  }

  /** mergefiles: the runs become one run. */
  method Mergefiles(srt: Sorter, keys: seq<seq<int>>, runs: seq<seq<nat>>, u: bool) returns (out: seq<nat>)
    requires srt.Clean() && GoodKeys(keys) && Runs(keys, runs)
    modifies srt.count
    ensures srt.Clean() && Merged(keys, Lines(runs), out, u) && Refers(keys, out)
    ensures Interleaving(keys, runs, out, u)
  {
    hide GoodKeys, Runs, Active, HeadsSorted, Going, Left, Kcmp, Halfway, Merged, Refers, Sorted, Interleaved,
      Interleaving;
    var mmp := new nat[|runs|];
    var nn: nat;
    var pos := seq(|runs|, _ => 0);
    nn := Heads(mmp, runs, pos);
    out := [];
    StartGoing(keys, runs, pos, u);
    NothingRead(keys, runs, pos, u);
    while true
      invariant srt.Clean() && fresh(mmp) && nn <= mmp.Length && Positions(runs, pos) && Active(mmp[..nn], runs, pos)
                && Going(keys, runs, pos, out, u) && Interleaved(keys, runs, pos, out, u)
      decreases |Left(runs, pos, |runs|)|
    {
      ActivePositions(mmp[..nn], runs, pos);
      HeadKeysGood(keys, runs, pos);
      HeadsTotal(keys, runs, pos, mmp[..nn]);
      ghost var mm := mmp[..nn];
      Sort4(srt, HeadKeys(keys, runs, pos), mmp, nn);
      ActiveStays(mm, mmp[..nn], runs, pos);
      if nn == 0 {
        break;
      }
      IsHeadsSorted(keys, runs, pos, mmp[..nn]);
      nn, pos, out := Drain(keys, runs, mmp, nn, pos, out, u);
    }
    assert mmp[..nn] == [];
    Finished(keys, runs, pos, out, u);
    AllRead(keys, runs, pos, out, u);
  }

  lemma IsHeadsSorted(keys: seq<seq<int>>, runs: seq<seq<nat>>, pos: seq<nat>, mm: seq<nat>)
    requires Positions(runs, pos) && Sorted(HeadKeys(keys, runs, pos), mm)
    ensures HeadsSorted(keys, runs, pos, mm)
  {
  }

  /** The runs that are not empty. */
  method Heads(mmp: array<nat>, runs: seq<seq<nat>>, pos: seq<nat>) returns (nn: nat)
    requires mmp.Length == |runs| == |pos| && forall x | 0 <= x < |runs| :: pos[x] == 0
    modifies mmp
    ensures nn <= mmp.Length && Active(mmp[..nn], runs, pos)
  {
    nn := 0;
    for i := 0 to |runs|
      invariant nn <= i && (forall k | 0 <= k < nn :: mmp[k] < i && runs[mmp[k]] != [])
      invariant forall j, k | 0 <= j < k < nn :: mmp[j] != mmp[k]
      invariant forall x | 0 <= x < i && runs[x] != [] :: x in mmp[..nn]
    {
      mmp[nn] := i;
      if runs[i] != [] {
        assert mmp[..nn + 1] == mmp[..nn] + [i];
        nn := nn + 1;
      }
    }
  }

  // ---- mergeout -------------------------------------------------------------------------------------------

  lemma {:induction false} LinesPlus(a: seq<seq<nat>>, b: seq<seq<nat>>)
    ensures Lines(a + b) == Lines(a) + Lines(b)
  {
    if b == [] {
      assert a + b == a;
    } else {
      assert (a + b)[..|a + b| - 1] == a + b[..|b| - 1];
      LinesPlus(a, b[..|b| - 1]);
    }
  }

  /** What the files from i on hold is what there was, or one line of each key of it. */
  ghost predicate Holds(keys: seq<seq<int>>, files: seq<seq<nat>>, lines: multiset<nat>, u: bool) {
    && Runs(keys, files)
    && if u then KeySet(keys, Lines(files)) == KeySet(keys, lines) && Lines(files) <= lines else Lines(files) == lines
  }

  lemma KeySetUnion(keys: seq<seq<int>>, a: multiset<nat>, b: multiset<nat>)
    ensures KeySet(keys, a + b) == KeySet(keys, a) + KeySet(keys, b)
  {
  }

  /** Ten files are merged into one that goes to the end. */
  lemma MergedTen(keys: seq<seq<int>>, files: seq<seq<nat>>, lines: multiset<nat>, n: nat, out: seq<nat>, u: bool)
    requires Holds(keys, files, lines, u) && n <= |files| && Merged(keys, Lines(files[..n]), out, u)
             && Refers(keys, out)
    ensures Holds(keys, files[n..] + [out], lines, u)
  {
    hide KeySet, Sorted, Refers, Increasing, Lines;
    var a, b := files[..n], files[n..];
    assert files == a + b;
    LinesPlus(a, b);
    LinesPlus(b, [out]);
    LinesOne(out);
    if u {
      KeySetUnion(keys, Lines(a), Lines(b));
      KeySetUnion(keys, Lines(b), multiset(out));
    }
  }

  lemma LinesOne(out: seq<nat>)
    ensures Lines([out]) == multiset(out)
  {
    assert [out][..0] == [];
  }

  lemma MergedAll(keys: seq<seq<int>>, files: seq<seq<nat>>, lines: multiset<nat>, out: seq<nat>, u: bool)
    requires Holds(keys, files, lines, u) && Merged(keys, Lines(files), out, u)
    ensures Merged(keys, lines, out, u)
  {
    hide KeySet, Sorted, Refers, Increasing;
  }

  /** mergeout: the temporary files, ten at a time into new ones, until ten or fewer go to the output. */
  method Mergeout(srt: Sorter, keys: seq<seq<int>>, files0: seq<seq<nat>>, u: bool) returns (out: seq<nat>)
    requires srt.Clean() && GoodKeys(keys) && Runs(keys, files0)
    modifies srt.count
    ensures srt.Clean() && Merged(keys, Lines(files0), out, u)
  {
    hide GoodKeys, Runs, Merged, Holds, Lines;
    var files := files0;
    out := [];
    StartHolds(keys, files0, u);
    NothingMerged(keys, files0, u);
    var i: nat := 0;
    assert files[0..] == files0;
    while i < |files|
      invariant srt.Clean() && i <= |files| && (i < |files| ==> Holds(keys, files[i..], Lines(files0), u))
      invariant i == |files| ==> Merged(keys, Lines(files0), out, u)
      decreases |files| - i
    {
      var n := |files| - i;
      HoldsRuns(keys, files[i..], Lines(files0), if n > NMERGE then NMERGE else n, u);
      if n > NMERGE {
        n := NMERGE;
        assert files[i..][..n] == files[i..i + n];
        var merged := Mergefiles(srt, keys, files[i..i + n], u);
        MergedTen(keys, files[i..], Lines(files0), n, merged, u);
        assert files[i..][n..] + [merged] == (files + [merged])[i + n..];
        files := files + [merged];
      } else {
        assert files[i..i + n] == files[i..] && files[i..][..n] == files[i..];
        out := Mergefiles(srt, keys, files[i..i + n], u);
        MergedAll(keys, files[i..], Lines(files0), out, u);
      }
      i := i + n;
    }
  }

  lemma NothingMerged(keys: seq<seq<int>>, files: seq<seq<nat>>, u: bool)
    ensures files == [] ==> Merged(keys, Lines(files), [], u)
  {
  }

  lemma HoldsRuns(keys: seq<seq<int>>, files: seq<seq<nat>>, lines: multiset<nat>, n: nat, u: bool)
    requires Holds(keys, files, lines, u) && n <= |files|
    ensures Runs(keys, files[..n])
  {
  }

  lemma StartHolds(keys: seq<seq<int>>, files: seq<seq<nat>>, u: bool)
    requires Runs(keys, files)
    ensures Holds(keys, files, Lines(files), u)
  {
  }
}
