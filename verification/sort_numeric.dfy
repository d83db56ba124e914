/**
 sort -n and sort -g as a whole: lines whose keys are sorted are in the order of the numbers in them.
 */
module SortNumeric {
  import opened SortNumber
  import opened SortKey
  import opened SortDokey
  import opened SortOrder

  predicate AllRepresentable(lines: seq<seq<int>>, g: bool) {
    forall x | 0 <= x < |lines| :: Representable(Normalized(Parse(lines[x], g)))
  }

  /** What dokey_gn writes for each line. */
  function NumericKeys(lines: seq<seq<int>>, g: bool, r: bool): (keys: seq<seq<int>>)
    ensures |keys| == |lines| && forall x | 0 <= x < |lines| :: keys[x] == KeyOf(Normalized(Parse(lines[x], g)), r)
  {
    seq(|lines|, x requires 0 <= x < |lines| => KeyOf(Normalized(Parse(lines[x], g)), r))
  }

  lemma KeyBytes(n: Number, r: bool, k: nat)
    requires Normal(n) && k < |KeyOf(n, r)|
    ensures 0 <= KeyOf(n, r)[k] <= 255
  {
    if n.Number? && 3 <= k < |KeyOf(n, r)| - 1 {
      assert KeyOf(n, r)[k] == Byte(0x30 + n.ds[k - 3], r != n.neg);
    }
  }

  /** The keys of numbers are fit for sort4: bytes, and none a proper prefix of another. */
  lemma NumericKeysAreGood(lines: seq<seq<int>>, g: bool, r: bool)
    ensures GoodKeys(NumericKeys(lines, g, r))
  {
    hide Parse, Normalized, KeyOf, Kcmp, NumeralValue;
    var keys := NumericKeys(lines, g, r);
    forall x, y | 0 <= x < |keys| && 0 <= y < |keys| ensures Unmixed(keys[x], keys[y]) {
      NumericKeysEmbedOrder(lines[x], lines[y], g, r);
    }
    forall x, k | 0 <= x < |keys| && 0 <= k < |keys[x]| ensures 0 <= keys[x][k] <= 255 {
      ParsedDigits(lines[x], g);
      NormalizedIsEqual(Parse(lines[x], g));
      KeyBytes(Normalized(Parse(lines[x], g)), r, k);
    }
  }

  /** Sorted by the keys is sorted by the numbers, backwards under -r. */
  lemma SortedIsNumeric(lines: seq<seq<int>>, out: seq<nat>, g: bool, r: bool, i: nat, j: nat)
    requires AllRepresentable(lines, g) && Refers(NumericKeys(lines, g, r), out)
             && Sorted(NumericKeys(lines, g, r), out) && i < j < |out|
    ensures if r then NumeralValue(Parse(lines[out[j]], g)) <= NumeralValue(Parse(lines[out[i]], g))
            else NumeralValue(Parse(lines[out[i]], g)) <= NumeralValue(Parse(lines[out[j]], g))
  {
    hide Parse, Normalized, KeyOf, Kcmp, NumeralValue;
    assert Le(NumericKeys(lines, g, r), out[i], out[j]);
    NumericKeysEmbedOrder(lines[out[i]], lines[out[j]], g, r);
  }
}
