/**
 The key of a line with several fields (buildkey of sort.c): the keys of its fields, one after the other.
 */
module SortFields {
  import opened SortNumber
  import opened SortKey
  import opened SortDokey
  import opened SortNumeric
  import opened SortOrder

  /** The keys of the fields as buildkey lets them be written. */
  function Joined(fields: seq<seq<int>>): seq<int> {
    if fields == [] then [] else fields[0] + Joined(fields[1..])
  }

  /** The first field in which two lines differ decides. */
  function FieldOrder(a: seq<seq<int>>, b: seq<seq<int>>): int
    requires |a| == |b|
  {
    if a == [] then 0 else if a[0] != b[0] then Kcmp(a[0], b[0]) else FieldOrder(a[1..], b[1..])
  }

  /** Field by field, neither key is a proper prefix of the other. */
  predicate AllUnmixed(a: seq<seq<int>>, b: seq<seq<int>>) {
    |a| == |b| && forall i | 0 <= i < |a| :: Unmixed(a[i], b[i])
  }

  lemma PrefixSplit(a: seq<int>, x: seq<int>, b: seq<int>, y: seq<int>)
    requires IsPrefix(a + x, b + y)
    ensures IsPrefix(a, b) || IsPrefix(b, a)
    ensures a == b ==> IsPrefix(x, y)
  {
    var s := (b + y)[..|a + x|];
    if |a| <= |b| {
      assert b[..|a|] == s[..|a|] == a;
    } else {
      assert a[..|b|] == s[..|b|] == b;
    }
    if a == b {
      assert y[..|x|] == s[|a|..] == x;
    }
  }

  /** Keys that do not run into each other still do not with others behind them. */
  lemma ConcatUnmixed(a: seq<int>, x: seq<int>, b: seq<int>, y: seq<int>)
    requires Unmixed(a, b) && (a == b ==> Unmixed(x, y))
    ensures Unmixed(a + x, b + y)
  {
    if IsPrefix(a + x, b + y) {
      PrefixSplit(a, x, b, y);
    }
    if IsPrefix(b + y, a + x) {
      PrefixSplit(b, y, a, x);
    }
  }

  /** Nor do the keys of whole lines, and kcmp orders them by the first field in which they differ. */
  lemma {:induction false} JoinedInOrder(a: seq<seq<int>>, b: seq<seq<int>>)
    requires AllUnmixed(a, b)
    ensures Unmixed(Joined(a), Joined(b)) && Kcmp(Joined(a), Joined(b)) == FieldOrder(a, b)
  {
    if a != [] {
      JoinedInOrder(a[1..], b[1..]);
      ConcatUnmixed(a[0], Joined(a[1..]), b[0], Joined(b[1..]));
      FieldsInOrder(a[0], Joined(a[1..]), b[0], Joined(b[1..]));
    }
  }

  predicate Bytes(s: seq<int>) {
    forall k | 0 <= k < |s| :: 0 <= s[k] <= 255
  }

  lemma {:induction false} JoinedBytes(fields: seq<seq<int>>)
    requires forall i | 0 <= i < |fields| :: Bytes(fields[i])
    ensures Bytes(Joined(fields))
  {
    if fields != [] {
      JoinedBytes(fields[1..]);
    }
  }

  /** The keys of lines whose fields have keys that are bytes and do not run into each other are fit for sort4. */
  lemma JoinedAreGood(lines: seq<seq<seq<int>>>)
    requires forall x, y | 0 <= x < |lines| && 0 <= y < |lines| :: AllUnmixed(lines[x], lines[y])
    requires forall x, i | 0 <= x < |lines| && 0 <= i < |lines[x]| :: Bytes(lines[x][i])
    ensures GoodKeys(seq(|lines|, x requires 0 <= x < |lines| => Joined(lines[x])))
  {
    hide AllUnmixed, Unmixed, Bytes, Joined;
    var keys := seq(|lines|, x requires 0 <= x < |lines| => Joined(lines[x]));
    forall x, y | 0 <= x < |keys| && 0 <= y < |keys| ensures Unmixed(keys[x], keys[y]) {
      JoinedInOrder(lines[x], lines[y]);
    }
    forall x, k | 0 <= x < |keys| && 0 <= k < |keys[x]| ensures 0 <= keys[x][k] <= 255 {
      JoinedBytes(lines[x]);
      ByteAt(keys[x], k);
    }
  }

  lemma ByteAt(s: seq<int>, k: nat)
    requires Bytes(s) && k < |s|
    ensures 0 <= s[k] <= 255
  {
  }

  // ---- The kinds of fields --------------------------------------------------------------------------------

  /** Text as it is or reversed (dokey_ and dokey_r), or a number (dokey_gn). */
  datatype Field = Text(r: bool, t: seq<int>) | Numeric(r: bool, g: bool, t: seq<int>)

  function TextKey(t: seq<int>, r: bool): (k: seq<int>)
    ensures |k| == |t| + 1
  {
    seq(|t|, i requires 0 <= i < |t| => Byte(t[i], r)) + [Byte(0, r)]
  }

  function FieldKey(f: Field): seq<int> {
    match f
    case Text(r, t) => TextKey(t, r)
    case Numeric(r, g, t) => KeyOf(Normalized(Parse(t, g)), r)
  }

  /** Bytes, and in text no NUL. */
  predicate Proper(f: Field) {
    f.Text? ==> forall i | 0 <= i < |f.t| :: 1 <= f.t[i] <= 255
  }

  /** The same kind of field in two lines. */
  predicate SameKind(f: Field, h: Field) {
    match f
    case Text(r, _) => h.Text? && h.r == r
    case Numeric(r, g, _) => h.Numeric? && h.r == r && h.g == g
  }

  lemma TextEnds(t: seq<int>, r: bool)
    requires forall i | 0 <= i < |t| :: 1 <= t[i] <= 255
    ensures EndsAt(TextKey(t, r), Byte(0, r)) && Bytes(TextKey(t, r))
  {
  }

  /** Text is ordered byte by byte, and a text before all that go on from it; or backwards. */
  lemma {:induction false} TextInOrder(a: seq<int>, b: seq<int>, r: bool)
    requires (forall i | 0 <= i < |a| :: 1 <= a[i] <= 255) && forall i | 0 <= i < |b| :: 1 <= b[i] <= 255
    ensures Kcmp(TextKey(a, r), TextKey(b, r)) == if r then -DigitOrder(a, b) else DigitOrder(a, b)
  {
    if a != [] && b != [] {
      assert TextKey(a, r) == [Byte(a[0], r)] + TextKey(a[1..], r);
      assert TextKey(b, r) == [Byte(b[0], r)] + TextKey(b[1..], r);
      KcmpCons(Byte(a[0], r), TextKey(a[1..], r), Byte(b[0], r), TextKey(b[1..], r));
      TextInOrder(a[1..], b[1..], r);
    } else if a == [] && b == [] {
      assert TextKey(a, r) == TextKey(b, r) == [Byte(0, r)];
      KcmpSelf([Byte(0, r)]);
    }
  }

  lemma FieldsUnmixed(f: Field, h: Field)
    requires SameKind(f, h) && Proper(f) && Proper(h)
    ensures Unmixed(FieldKey(f), FieldKey(h)) && Bytes(FieldKey(f))
  {
    hide Parse, Normalized, KeyOf, TextKey;
    match f {
      case Text(r, t) =>
        TextEnds(t, r);
        TextEnds(h.t, r);
        if IsPrefix(TextKey(t, r), TextKey(h.t, r)) {
          EndedIsNoPrefix(TextKey(t, r), TextKey(h.t, r), Byte(0, r));
        }
        if IsPrefix(TextKey(h.t, r), TextKey(t, r)) {
          EndedIsNoPrefix(TextKey(h.t, r), TextKey(t, r), Byte(0, r));
        }
      case Numeric(r, g, t) =>
        NumericKeysEmbedOrder(t, h.t, g, r);
        ParsedDigits(t, g);
        NormalizedIsEqual(Parse(t, g));
        NumberBytes(Normalized(Parse(t, g)), r);
    }
  }

  lemma NumberBytes(n: Number, r: bool)
    requires Normal(n)
    ensures Bytes(KeyOf(n, r))
  {
    forall k | 0 <= k < |KeyOf(n, r)| ensures 0 <= KeyOf(n, r)[k] <= 255 {
      KeyBytes(n, r, k);
    }
  }

  // ---- Lines ------------------------------------------------------------------------------------------------

  /** Lines with the same fields, in each of which they have text or numbers. */
  predicate SameFields(lines: seq<seq<Field>>) {
    && (forall x, i | 0 <= x < |lines| && 0 <= i < |lines[x]| :: Proper(lines[x][i]))
    && (forall x, y | 0 <= x < |lines| && 0 <= y < |lines| :: |lines[x]| == |lines[y]|)
    && forall x, y, i | 0 <= x < |lines| && 0 <= y < |lines| && 0 <= i < |lines[x]| && i < |lines[y]| ::
         SameKind(lines[x][i], lines[y][i])
  }

  function FieldKeys(fields: seq<Field>): (keys: seq<seq<int>>)
    ensures |keys| == |fields| && forall i | 0 <= i < |keys| :: keys[i] == FieldKey(fields[i])
  {
    seq(|fields|, i requires 0 <= i < |fields| => FieldKey(fields[i]))
  }

  function LineKeys(lines: seq<seq<Field>>): (keys: seq<seq<int>>)
    ensures |keys| == |lines| && forall x | 0 <= x < |keys| :: keys[x] == Joined(FieldKeys(lines[x]))
  {
    seq(|lines|, x requires 0 <= x < |lines| => Joined(FieldKeys(lines[x])))
  }

  /** The keys of lines with any number of fields are fit for sort4. */
  lemma LineKeysAreGood(lines: seq<seq<Field>>)
    requires SameFields(lines)
    ensures GoodKeys(LineKeys(lines))
  {
    hide Unmixed, Bytes, Joined, FieldKey, Proper, SameKind, GoodKeys;
    var keys := seq(|lines|, x requires 0 <= x < |lines| => FieldKeys(lines[x]));
    forall x, y | 0 <= x < |keys| && 0 <= y < |keys| ensures AllUnmixed(keys[x], keys[y]) {
      forall i | 0 <= i < |keys[x]| ensures Unmixed(keys[x][i], keys[y][i]) {
        FieldsUnmixed(lines[x][i], lines[y][i]);
      }
    }
    forall x, i | 0 <= x < |keys| && 0 <= i < |keys[x]| ensures Bytes(keys[x][i]) {
      FieldsUnmixed(lines[x][i], lines[x][i]);
    }
    JoinedAreGood(keys);
    assert LineKeys(lines) == seq(|keys|, x requires 0 <= x < |keys| => Joined(keys[x]));
  }

  /** Sorted lines are in the order of the first field in which their keys differ. */
  lemma SortedByFields(lines: seq<seq<Field>>, out: seq<nat>, i: nat, j: nat)
    requires SameFields(lines) && Refers(LineKeys(lines), out) && Sorted(LineKeys(lines), out) && i < j < |out|
    ensures |lines[out[i]]| == |lines[out[j]]| && FieldOrder(FieldKeys(lines[out[i]]), FieldKeys(lines[out[j]])) <= 0
  {
    hide Unmixed, Joined, FieldKey, Proper, SameKind, Kcmp;
    var a, b := lines[out[i]], lines[out[j]];
    forall k | 0 <= k < |a| ensures Unmixed(FieldKeys(a)[k], FieldKeys(b)[k]) {
      FieldsUnmixed(a[k], b[k]);
    }
    JoinedInOrder(FieldKeys(a), FieldKeys(b));
    assert Le(LineKeys(lines), out[i], out[j]);
  }

  // ---- buildkey -----------------------------------------------------------------------------------------------

  /** dokey_ and dokey_r: text and its end byte are appended to the key. */
  method DokeyText(key: array<int>, klen: nat, t: seq<int>, r: bool) returns (len: nat)
    requires klen + |t| + 1 <= key.Length
    modifies key
    ensures len == klen + |t| + 1 && key[..len] == old(key[..klen]) + TextKey(t, r)
  {
    for i := 0 to |t|
      invariant key[..klen] == old(key[..klen]) && forall k | 0 <= k < i :: key[klen + k] == Byte(t[k], r)
    {
      key[klen + i] := Byte(t[i], r);
    }
    key[klen + |t|] := Byte(0, r);
    len := klen + |t| + 1;
    assert key[klen..len] == TextKey(t, r);
    assert key[..len] == key[..klen] + key[klen..len];
  }

  /** The room that buildkey asks for. */
  function Room(fields: seq<Field>): nat {
    if fields == [] then 0 else |fields[0].t| + 4 + Room(fields[1..])
  }

  lemma {:induction false} JoinedSnoc(keys: seq<seq<int>>, k: seq<int>)
    ensures Joined(keys + [k]) == Joined(keys) + k
  {
    if keys == [] {
      assert keys + [k] == [k] && [k][1..] == [];
      assert k + [] == k;
    } else {
      assert (keys + [k])[1..] == keys[1..] + [k];
      JoinedSnoc(keys[1..], k);
    }
  }

  /** buildkey: the keys of the fields, the last of which may be the whole line. */
  method Buildkey(key: array<int>, fields: seq<Field>) returns (len: nat)
    requires Room(fields) <= key.Length
    modifies key
    ensures len <= key.Length && key[..len] == Joined(FieldKeys(fields))
  {
    hide Parse, Normalized, KeyOf, TextKey, FieldKey, Joined;
    len := 0;
    NoFields();
    for i := 0 to |fields|
      invariant len + Room(fields[i..]) <= key.Length && key[..len] == Joined(FieldKeys(fields[..i]))
    {
      var f := fields[i];
      MoreFields(fields, i);
      ghost var was := key[..len];
      match f {
        case Text(r, t) => len := DokeyText(key, len, t, r);
        case Numeric(r, g, t) => len := DokeyGn(key, len, t, r, g);
      }
      KeyIs(f);
    }
    assert fields[..|fields|] == fields;
  }

  lemma NoFields()
    ensures Joined([]) == []
  {
  }

  lemma KeyIs(f: Field)
    ensures FieldKey(f) == match f case Text(r, t) => TextKey(t,
                                                              r) case Numeric(r, g,
                                                                  t) => KeyOf(Normalized(Parse(t, g)), r)
  {
  }

  lemma MoreFields(fields: seq<Field>, i: nat)
    requires i < |fields|
    ensures Room(fields[i..]) == |fields[i].t| + 4 + Room(fields[i + 1..])
    ensures Joined(FieldKeys(fields[..i + 1])) == Joined(FieldKeys(fields[..i])) + FieldKey(fields[i])
  {
    hide Joined;
    assert fields[i..][1..] == fields[i + 1..];
    assert FieldKeys(fields[..i + 1]) == FieldKeys(fields[..i]) + [FieldKey(fields[i])];
    JoinedSnoc(FieldKeys(fields[..i]), FieldKey(fields[i]));
  }
}
