/**
 cleanname (lib9/cleanname.c): a path name is rewritten in place into its shortest form.
 */
module CleanName {

  type Name = seq<char>

  // ---- What a path name means -----------------------------------------------------------------------

  /** The first element of s, up to a slash or the end. */
  function Element(s: seq<char>): (e: Name)
    ensures |e| <= |s| && s[..|e|] == e && '/' !in e && (|e| < |s| ==> s[|e|] == '/')
  {
    if s == [] || s[0] == '/' then [] else [s[0]] + Element(s[1..])
  }

  /** A directory tree is walked from here by names: the place is the list of names from the root on. */
  function Walk(place: seq<Name>, s: seq<char>): seq<Name>
    decreases |s|
  {
    if s == [] then place
    else if s[0] == '/' then Walk(place, s[1..])
    else Walk(Visit(place, Element(s)), s[|Element(s)|..])
  }

  /** One element: . stays, .. goes to the parent, which the root is of itself. */
  function Visit(place: seq<Name>, e: Name): seq<Name> {
    if e == "." then place
    else if e == ".." then (if place == [] then [] else place[..|place| - 1])
    else place + [e]
  }

  predicate Rooted(s: seq<char>) {
    s != [] && s[0] == '/'
  }

  /** The place that s names, seen from the directory cwd, when no name is a link. */
  function Resolve(cwd: seq<Name>, s: seq<char>): seq<Name> {
    Walk(if Rooted(s) then [] else cwd, s)
  }

  // ---- The form that cleanname gives ------------------------------------------------------------------

  /** Go up so many directories, or to the root, and down by these names. */
  datatype Path = Path(rooted: bool, ups: nat, names: seq<Name>)

  predicate Proper(e: Name) {
    e != [] && '/' !in e && e != "." && e != ".."
  }

  predicate Valid(p: Path) {
    (p.rooted ==> p.ups == 0) && forall i | 0 <= i < |p.names| :: Proper(p.names[i])
  }

  function Up(p: Path): Path {
    if p.names != [] then p.(names := p.names[..|p.names| - 1])
    else if p.rooted then p
    else p.(ups := p.ups + 1)
  }

  function Enter(p: Path, e: Name): Path {
    if e == "." then p else if e == ".." then Up(p) else p.(names := p.names + [e])
  }

  function Fold(p: Path, s: seq<char>): Path
    decreases |s|
  {
    if s == [] then p
    else if s[0] == '/' then Fold(p, s[1..])
    else Fold(Enter(p, Element(s)), s[|Element(s)|..])
  }

  function Normal(s: seq<char>): Path {
    Fold(Path(Rooted(s), 0, []), s)
  }

  function Join(es: seq<Name>): seq<char> {
    if es == [] then []
    else if |es| == 1 then es[0]
    else Join(es[..|es| - 1]) + ['/'] + es[|es| - 1]
  }

  function Dots(n: nat): (r: seq<Name>)
    ensures |r| == n && forall i | 0 <= i < n :: r[i] == ".."
  {
    if n == 0 then [] else Dots(n - 1) + [".."]
  }

  function All(p: Path): seq<Name> {
    Dots(p.ups) + p.names
  }

  /** What has been written for a path: the empty path is the empty string. */
  function Written(p: Path): seq<char> {
    (if p.rooted then "/" else "") + Join(All(p))
  }

  /** The empty string is written as a dot. */
  function Clean(s: seq<char>): seq<char> {
    var w := Written(Normal(s));
    if w == [] then "." else w
  }

  // ---- Folding and walking ------------------------------------------------------------------------------

  /** From a place: up, and down by the names. */
  function Apply(p: Path, cwd: seq<Name>): seq<Name> {
    Base(p, cwd) + p.names
  }

  lemma EnterValid(p: Path, e: Name)
    requires Valid(p) && e != [] && '/' !in e
    ensures Valid(Enter(p, e))
  {
  }

  /** The directory a path starts from after going up. */
  function Base(p: Path, cwd: seq<Name>): seq<Name> {
    var base := if p.rooted then [] else cwd;
    if p.ups <= |base| then base[..|base| - p.ups] else []
  }

  lemma BaseUp(p: Path, cwd: seq<Name>)
    requires !p.rooted
    ensures Base(p.(ups := p.ups + 1), cwd) == if Base(p, cwd) == [] then [] else Base(p, cwd)[..|Base(p, cwd)| - 1]
  {
  }

  lemma BaseSame(p: Path, names: seq<Name>, cwd: seq<Name>)
    ensures Base(p.(names := names), cwd) == Base(p, cwd) && (p.rooted && p.ups == 0 ==> Base(p, cwd) == [])
  {
  }

  lemma EnterApplies(p: Path, e: Name, cwd: seq<Name>)
    requires p.rooted ==> p.ups == 0
    ensures Apply(Enter(p, e), cwd) == Visit(Apply(p, cwd), e)
  {
    hide Base;
    var b := Base(p, cwd);
    if e == ".." {
      var n := |p.names| - 1;
      BaseSame(p, if n >= 0 then p.names[..n] else [], cwd);
      if n >= 0 {
        assert (b + p.names)[..|b| + n] == b + p.names[..n];
      } else if !p.rooted {
        BaseUp(p, cwd);
        assert b + [] == b && Base(Up(p), cwd) + [] == Base(Up(p), cwd);
      } else {
        assert b + [] == [];
      }
    } else if e != "." {
      BaseSame(p, p.names + [e], cwd);
      assert b + (p.names + [e]) == b + p.names + [e];
    }
  }

  lemma {:induction false} FoldApplies(p: Path, s: seq<char>, cwd: seq<Name>)
    requires Valid(p)
    ensures Valid(Fold(p, s)) && Fold(p, s).rooted == p.rooted && Apply(Fold(p, s), cwd) == Walk(Apply(p, cwd), s)
    decreases |s|
  {
    if s != [] {
      if s[0] == '/' {
        FoldApplies(p, s[1..], cwd);
      } else {
        EnterValid(p, Element(s));
        EnterApplies(p, Element(s), cwd);
        FoldApplies(Enter(p, Element(s)), s[|Element(s)|..], cwd);
      }
    }
  }

  /** The normal form of a name resolves as the name does. */
  lemma NormalResolves(s: seq<char>, cwd: seq<Name>)
    ensures Valid(Normal(s)) && Normal(s).rooted == Rooted(s) && Apply(Normal(s), cwd) == Resolve(cwd, s)
  {
    var base := if Rooted(s) then [] else cwd;
    assert base[..|base|] + [] == base;
    FoldApplies(Path(Rooted(s), 0, []), s, cwd);
  }

  // ---- Reading back what was written --------------------------------------------------------------------

  lemma {:induction false} ElementAt(e: Name, rest: seq<char>)
    requires '/' !in e && (rest == [] || rest[0] == '/')
    ensures Element(e + rest) == e
  {
    if e != [] {
      assert (e + rest)[1..] == e[1..] + rest;
      assert e[0] in e && forall c | c in e[1..] :: c in e;
      ElementAt(e[1..], rest);
    } else {
      assert e + rest == rest;
    }
  }

  lemma {:induction false} FoldElement(p: Path, e: Name, rest: seq<char>)
    requires e != [] && '/' !in e && (rest == [] || rest[0] == '/')
    ensures Fold(p, e + rest) == Fold(Enter(p, e), rest)
  {
    ElementAt(e, rest);
    assert (e + rest)[|e|..] == rest;
    assert e[0] in e;
  }

  function EnterAll(p: Path, es: seq<Name>): Path {
    if es == [] then p else Enter(EnterAll(p, es[..|es| - 1]), es[|es| - 1])
  }

  /** Folding a joined list enters its elements one by one. */
  lemma {:induction false} FoldJoin(p: Path, es: seq<Name>, rest: seq<char>)
    requires (forall i | 0 <= i < |es| :: es[i] != [] && '/' !in es[i]) && (rest == [] || rest[0] == '/')
    ensures Fold(p, Join(es) + rest) == Fold(EnterAll(p, es), rest)
  {
    if es == [] {
      assert Join(es) + rest == rest;
    } else if |es| == 1 {
      assert es[..0] == [];
      FoldElement(p, es[0], rest);
    } else {
      var n := |es| - 1;
      var tail := ['/'] + (es[n] + rest);
      assert Join(es) + rest == Join(es[..n]) + tail;
      FoldJoin(p, es[..n], tail);
      assert tail[1..] == es[n] + rest;
      FoldElement(EnterAll(p, es[..n]), es[n], rest);
    }
  }

  lemma {:induction false} EnterDots(n: nat)
    ensures EnterAll(Path(false, 0, []), Dots(n)) == Path(false, n, [])
  {
    if n > 0 {
      EnterDots(n - 1);
      assert Dots(n)[..n - 1] == Dots(n - 1);
    }
  }

  lemma EnterProper(p: Path, e: Name)
    requires Proper(e)
    ensures Enter(p, e) == p.(names := p.names + [e])
  {
  }

  lemma {:induction false} EnterNames(p: Path, ds: seq<Name>, names: seq<Name>)
    requires p.names == [] && EnterAll(Path(p.rooted, 0, []), ds) == p
             && forall i | 0 <= i < |names| :: Proper(names[i])
    ensures EnterAll(Path(p.rooted, 0, []), ds + names) == p.(names := names)
  {
    hide Proper, Enter;
    if names == [] {
      assert ds + names == ds;
    } else {
      var n := |names| - 1;
      EnterProper(p.(names := names[..n]), names[n]);
      EnterNames(p, ds, names[..n]);
      assert (ds + names)[..|ds| + n] == ds + names[..n];
      assert names[..n] + [names[n]] == names;
    }
  }

  lemma EnterAllOf(p: Path)
    requires Valid(p)
    ensures EnterAll(Path(p.rooted, 0, []), All(p)) == p
  {
    EnterDots(p.ups);
    EnterNames(p.(names := []), Dots(p.ups), p.names);
  }

  lemma {:induction false} JoinHead(es: seq<Name>)
    requires es != [] && forall i | 0 <= i < |es| :: es[i] != [] && '/' !in es[i]
    ensures Join(es) != [] && Join(es)[0] != '/'
  {
    if |es| == 1 {
      assert es[0][0] in es[0];
    } else {
      JoinHead(es[..|es| - 1]);
    }
  }

  lemma FoldDot(p: Path)
    ensures Fold(p, ".") == p
  {
    var s := ".";
    assert s[1..] == [];
    assert Element(s) == ['.'] + Element(s[1..]);
    assert s[|Element(s)|..] == [];
  }

  /** A valid path is read back from what is written for it. */
  lemma NormalOfWritten(p: Path)
    requires Valid(p)
    ensures Normal(if Written(p) == [] then "." else Written(p)) == p
  {
    var es := All(p);
    assert forall i | 0 <= i < |es| :: es[i] != [] && '/' !in es[i];
    EnterAllOf(p);
    FoldJoin(Path(p.rooted, 0, []), es, []);
    assert Join(es) + [] == Join(es);
    if es != [] {
      JoinHead(es);
    }
    if p.rooted {
      assert Written(p)[1..] == Join(es);
    } else if es == [] {
      assert |All(p)| == p.ups + |p.names|;
      assert Written(p) == [] && p == Path(Rooted("."), 0, []);
      FoldDot(p);
    } else {
      assert Written(p) == Join(es);
    }
  }

  // ---- What a clean name looks like ---------------------------------------------------------------------

  /** The elements with single slashes between them. */
  function Slashed(es: seq<Name>): seq<char>
    requires es != []
  {
    if |es| == 1 then es[0] else es[0] + "/" + Slashed(es[1..])
  }

  /** A slash or none, and elements with single slashes between them: none is empty or a dot, and going up comes first
      and never from the root. Or just a dot, or a slash. */
  ghost predicate Tidy(s: seq<char>) {
    || s == "." || s == "/"
    || exists rooted: bool, es: seq<Name> :: es != [] && s == (if rooted then "/" + Slashed(es) else Slashed(es))
         && TidyElements(rooted, es)
  }

  predicate TidyElements(rooted: bool, es: seq<Name>) {
    forall i | 0 <= i < |es| ::
      && es[i] != "" && es[i] != "." && '/' !in es[i]
      && (es[i] == ".." ==> !rooted && forall j | 0 <= j < i :: es[j] == "..")
  }

  lemma {:induction false} JoinIsSlashed(es: seq<Name>)
    requires es != []
    ensures Join(es) == Slashed(es)
  {
    if |es| > 1 {
      JoinIsSlashed(es[..|es| - 1]);
      SlashedSnoc(es[..|es| - 1], es[|es| - 1]);
      assert es[..|es| - 1] + [es[|es| - 1]] == es;
    }
  }

  lemma {:induction false} SlashedSnoc(es: seq<Name>, e: Name)
    requires es != []
    ensures Slashed(es + [e]) == Slashed(es) + ['/'] + e
  {
    if |es| == 1 {
      assert (es + [e])[1..] == [e];
    } else {
      SlashedSnoc(es[1..], e);
      assert (es + [e])[1..] == es[1..] + [e];
    }
  }

  lemma PathIsTidy(p: Path)
    requires Valid(p)
    ensures Tidy(if Written(p) == [] then "." else Written(p))
  {
    var es := All(p);
    if es != [] {
      JoinIsSlashed(es);
      assert TidyElements(p.rooted, es);
      assert Written(p) == if p.rooted then "/" + Slashed(es) else Slashed(es);
      JoinHead(es);
    } else {
      assert Written(p) == if p.rooted then "/" else "";
    }
  }

  /** Whatever the name is. */
  lemma CleanIsTidy(s: seq<char>)
    ensures Tidy(Clean(s)) && Clean(s) != ""
  {
    hide Tidy;
    CleanIsNormal(s);
    PathIsTidy(Normal(s));
  }

  // ---- What Clean promises ------------------------------------------------------------------------------

  lemma CleanIsNormal(s: seq<char>)
    ensures Normal(Clean(s)) == Normal(s) && Valid(Normal(s))
  {
    NormalResolves(s, []);
    NormalOfWritten(Normal(s));
  }

  /** The clean name names the same place, from everywhere. */
  lemma CleanResolves(s: seq<char>, cwd: seq<Name>)
    ensures Resolve(cwd, Clean(s)) == Resolve(cwd, s)
  {
    CleanIsNormal(s);
    NormalResolves(s, cwd);
    NormalResolves(Clean(s), cwd);
  }

  lemma CleanIsIdempotent(s: seq<char>)
    ensures Clean(Clean(s)) == Clean(s)
  {
    CleanIsNormal(s);
  }

  /** Some name that is in neither list. */
  function Fresh(a: seq<Name>): (e: Name)
    ensures Proper(e) && e !in a && forall i | 0 <= i < |a| :: |a[i]| < |e|
  {
    if a == [] then "xxx" else
      var e := Fresh(a[..|a| - 1]);
      var l := a[|a| - 1];
      if |l| < |e| then e else seq(|l| + 3, _ => 'x')
  }

  function Copies(n: nat, e: Name): (r: seq<Name>)
    ensures |r| == n && forall i | 0 <= i < n :: r[i] == e
  {
    seq(n, _ => e)
  }

  /** Going up less far leaves a name that the other path cannot have there. */
  lemma ShorterUp(p: Path, q: Path, e: Name, n: nat)
    requires Valid(p) && Valid(q) && !p.rooted && !q.rooted && p.ups < q.ups < n && e !in q.names
    ensures Apply(p, Copies(n, e)) != Apply(q, Copies(n, e))
  {
    var x, y, k := Apply(p, Copies(n, e)), Apply(q, Copies(n, e)), n - q.ups;
    assert x[k] == e;
    if k < |y| {
      assert y[k] == q.names[0];
    }
  }

  lemma RootDiffers(p: Path, q: Path, e: Name, n: nat)
    requires Valid(p) && Valid(q) && p.rooted && !q.rooted && q.ups < n && e !in p.names
    ensures Apply(p, Copies(n, e)) != Apply(q, Copies(n, e))
  {
    var x, y := Apply(p, Copies(n, e)), Apply(q, Copies(n, e));
    assert y[0] == e;
    assert x == p.names by {
      assert [] + p.names == p.names;
    }
    assert x != [] ==> x[0] in p.names;
  }

  lemma SameUpDiffers(p: Path, q: Path, cwd: seq<Name>)
    requires p != q && p.rooted == q.rooted && p.ups == q.ups
    ensures Apply(p, cwd) != Apply(q, cwd)
  {
    var base := if p.rooted then [] else cwd;
    var b := if p.ups <= |base| then base[..|base| - p.ups] else [];
    assert (b + p.names)[|b|..] == p.names && (b + q.names)[|b|..] == q.names;
  }

  /** Two different normal forms resolve differently from somewhere. */
  lemma NormalsDiffer(p: Path, q: Path) returns (cwd: seq<Name>)
    requires Valid(p) && Valid(q) && p != q
    ensures Apply(p, cwd) != Apply(q, cwd)
  {
    var both := p.names + q.names;
    var e, n := Fresh(both), p.ups + q.ups + 1;
    assert (forall x | x in p.names :: x in both) && forall x | x in q.names :: x in both;
    cwd := Copies(n, e);
    if p.rooted && !q.rooted {
      RootDiffers(p, q, e, n);
    } else if q.rooted && !p.rooted {
      RootDiffers(q, p, e, n);
    } else if p.ups < q.ups {
      ShorterUp(p, q, e, n);
    } else if q.ups < p.ups {
      ShorterUp(q, p, e, n);
    } else {
      SameUpDiffers(p, q, cwd);
    }
  }

  /** Two names are cleaned to the same name exactly when they name the same place from everywhere. */
  lemma CleanDecides(s: seq<char>, t: seq<char>)
    ensures Clean(s) == Clean(t) <==> forall cwd :: Resolve(cwd, s) == Resolve(cwd, t)
  {
    if Clean(s) == Clean(t) {
      forall cwd ensures Resolve(cwd, s) == Resolve(cwd, t) {
        CleanResolves(s, cwd);
        CleanResolves(t, cwd);
      }
    } else {
      CleanIsNormal(s);
      CleanIsNormal(t);
      var cwd := NormalsDiffer(Normal(s), Normal(t));
      NormalResolves(s, cwd);
      NormalResolves(t, cwd);
      assert Resolve(cwd, s) != Resolve(cwd, t);
    }
  }

  // ---- The shortest name --------------------------------------------------------------------------------

  /** The slash that the next element needs in front. */
  function Gap(p: Path): nat {
    if All(p) == [] then 0 else 1
  }

  lemma WrittenEnter(p: Path, e: Name)
    requires Valid(p) && e != []
    ensures |Written(Enter(p, e))| <= |Written(p)| + Gap(p) + |e|
  {
    if e == ".." {
      if p.names != [] {
        assert All(Up(p)) == All(p)[..|All(p)| - 1];
      } else if !p.rooted {
        assert Join(Dots(p.ups + 1)[..p.ups]) == Join(Dots(p.ups)) && All(p) == Dots(p.ups);
        assert All(Up(p)) == Dots(p.ups + 1);
      }
    } else if e != "." {
      assert All(Enter(p, e)) == All(p) + [e];
      assert (All(p) + [e])[..|All(p)|] == All(p);
    }
  }

  lemma {:induction false} FoldLength(p: Path, s: seq<char>)
    requires Valid(p)
    ensures |Written(Fold(p, s))| <= |Written(p)| + |s| + if Rooted(s) then 0 else Gap(p)
    ensures Rooted(s) && All(p) == [] ==> |Written(Fold(p, s))| <= |Written(p)| + |s| - 1
    decreases |s|
  {
    hide Written, All, Valid;
    if s != [] {
      if s[0] == '/' {
        FoldLength(p, s[1..]);
      } else {
        var e := Element(s);
        EnterValid(p, e);
        WrittenEnter(p, e);
        FoldLength(Enter(p, e), s[|e|..]);
      }
    }
  }

  /** No other name for the same place is shorter. */
  lemma CleanIsShortest(s: seq<char>, t: seq<char>)
    requires t != "" && forall cwd :: Resolve(cwd, t) == Resolve(cwd, s)
    ensures |Clean(s)| <= |t|
  {
    CleanDecides(s, t);
    var p := Path(Rooted(t), 0, []);
    assert All(p) == [];
    FoldLength(p, t);
  }

  // ---- cleanname in place -------------------------------------------------------------------------------

  predicate Sep(c: char) {
    c == '/' || c == '\0'
  }

  /** A path with one name more. */
  lemma WrittenMore(p: Path, e: Name)
    ensures Written(p.(names := p.names + [e])) == Written(p) + (if All(p) == [] then e else ['/'] + e)
  {
    hide Join;
    var es := All(p);
    assert All(p.(names := p.names + [e])) == es + [e];
    JoinSnoc(es, e);
    var root := if p.rooted then "/" else "";
    if es == [] {
      EmptyJoin();
      assert root + e == root + [] + e;
    } else {
      assert root + (Join(es) + ['/'] + e) == root + Join(es) + (['/'] + e);
    }
  }

  lemma EmptyJoin()
    ensures Join([]) == []
  {
  }

  lemma JoinSnoc(es: seq<Name>, e: Name)
    ensures Join(es + [e]) == if es == [] then e else Join(es) + ['/'] + e
  {
    assert (es + [e])[..|es|] == es;
  }

  lemma WrittenUp(p: Path)
    requires !p.rooted && p.names == []
    ensures Written(p.(ups := p.ups + 1)) == Written(p) + (if p.ups == 0 then ".." else "/..")
  {
    WrittenMore(p, "..");
    assert Dots(p.ups + 1) + [] == Dots(p.ups) + ([] + [".."]);
    assert All(p.(ups := p.ups + 1)) == All(p.(names := p.names + [".."]));
    assert ['/'] + ".." == "/..";
  }

  /** What is written for the directory that .. cannot leave. */
  function Floor(p: Path): nat {
    |Written(p.(names := []))|
  }

  lemma {:induction false} FloorBelow(p: Path)
    requires Valid(p)
    ensures Floor(p) <= |Written(p)| && (p.names == [] <==> |Written(p)| == Floor(p))
    ensures var base := if p.rooted then 1 else 0; base <= |Written(p)| && (All(p) == [] <==> |Written(p)| == base)
    decreases |p.names|, p.ups
  {
    if p.names != [] {
      var n := |p.names| - 1;
      var r := p.(names := p.names[..n]);
      FloorBelow(r);
      WrittenMore(r, p.names[n]);
      assert p.names == r.names + [p.names[n]];
    } else if p.ups > 0 {
      FloorBelow(p.(ups := p.ups - 1));
      WrittenUp(p.(ups := p.ups - 1));
    }
  }

  /** The last name: what is before it, and that it has no slash in it. */
  lemma LastName(p: Path)
    requires Valid(p) && p.names != []
    ensures var r, e := Up(p), p.names[|p.names| - 1];
            && Valid(r) && Proper(e) && Floor(r) == Floor(p) <= |Written(r)|
            && Written(p) == Written(r) + (if All(r) == [] then e else ['/'] + e)
            && (r.names != [] <==> |Written(r)| > Floor(p)) && (All(r) == [] ==> |Written(r)| == Floor(p))
  {
    var r := Up(p);
    assert p.names == r.names + [p.names[|p.names| - 1]];
    WrittenMore(r, p.names[|p.names| - 1]);
    FloorBelow(r);
  }

  /** The last name is dropped: q goes back to the slash before it, but not past what .. cannot leave. */
  method Backtrack(name: array<char>, q0: nat, dotdot: nat, ghost p: Path) returns (q: nat)
    requires Valid(p) && p.names != [] && q0 <= name.Length && name[..q0] == Written(p) && dotdot == Floor(p)
    ensures q < q0 && name[..q] == Written(Up(p))
  {
    LastName(p);
    FloorBelow(p);
    ghost var r, e := Up(p), p.names[|p.names| - 1];
    ghost var w := |Written(r)|;
    ghost var start := if All(r) == [] then w else w + 1;
    assert forall k | start <= k < q0 :: name[..q0][k] == e[k - start];
    q := q0 - 1;
    while q > dotdot && name[q] != '/'
      invariant w <= q < q0
      decreases q
    {
      assert name[q] == name[..q0][q];
      q := q - 1;
    }
    assert name[q] == name[..q0][q];
    assert q == w;
    assert name[..q] == name[..q0][..q];
  }

  /** The string with its terminating NUL. */
  function At(s: seq<char>, k: nat): char {
    if k < |s| then s[k] else '\0'
  }

  /** From p on the array holds the string. */
  predicate Unread(v: seq<char>, s: seq<char>, p: nat) {
    p <= |s| < |v| && forall k | p <= k <= |s| :: v[k] == At(s, k)
  }

  /** The array is as it was from p on. */
  predicate Kept(v: seq<char>, w: seq<char>, p: nat) {
    |v| == |w| && forall k | p <= k < |v| :: w[k] == v[k]
  }

  lemma ElementChars(s: seq<char>, p: nat)
    requires p <= |s| && '\0' !in s
    ensures var e := Element(s[p..]);
            && p + |e| <= |s| && e == s[p..p + |e|] && Sep(At(s, p + |e|)) && (p + |e| < |s| ==> s[p + |e|] == '/')
            && forall k | 0 <= k < |e| :: At(s, p + k) == e[k] && !Sep(e[k])
  {
    var u := s[p..];
    var e := Element(u);
    assert u[..|e|] == s[p..p + |e|];
    assert |e| < |u| ==> u[|e|] == s[p + |e|];
    forall k | 0 <= k < |e| ensures At(s, p + k) == e[k] && !Sep(e[k]) {
      assert e[k] == s[p + k] && s[p + k] in s && e[k] in e;
    }
  }

  /** The element at p is e if e is there and a separator follows. */
  lemma ElementIs(s: seq<char>, p: nat, e: Name)
    requires p + |e| <= |s| && '/' !in e && (forall k | 0 <= k < |e| :: s[p + k] == e[k])
             && (p + |e| < |s| ==> s[p + |e|] == '/')
    ensures Element(s[p..]) == e
  {
    assert s[p..] == e + s[p + |e|..];
    ElementAt(e, s[p + |e|..]);
  }

  lemma Appended(v: seq<char>, w: seq<char>, q: nat, x: seq<char>)
    requires q + |x| <= |w| && q <= |v| && (forall k | 0 <= k < q :: w[k] == v[k])
             && forall k | 0 <= k < |x| :: w[q + k] == x[k]
    ensures w[..q + |x|] == v[..q] + x
  {
  }

  /** The element at p is moved down to q, character by character; the separator behind it is moved too, and q stops
      on it. */
  method CopyElement(name: array<char>, ghost s: seq<char>, p0: nat, q0: nat) returns (p: nat, q: nat)
    requires q0 <= p0 && Unread(name[..], s, p0) && '\0' !in s
    modifies name
    ensures p == p0 + |Element(s[p0..])| <= |s| && q == q0 + |Element(s[p0..])|
            && name[..q] == old(name[..q0]) + Element(s[p0..])
    ensures Kept(old(name[..]), name[..], p)
  {
    hide Element;
    ghost var v, e := name[..], Element(s[p0..]);
    ElementChars(s, p0);
    p, q := p0, q0;
    name[q] := name[p];
    while name[q] != '/' && name[q] != '\0'
      invariant p == p0 + (q - q0) && q0 <= q <= q0 + |e| && name[q] == v[p]
      invariant (forall k | 0 <= k < q0 :: name[k] == v[k]) && forall k | q0 <= k < q :: name[k] == e[k - q0]
      invariant forall k | p <= k < name.Length && k != q :: name[k] == v[k]
      decreases q0 + |e| - q
    {
      Next(v, s, e, p0, q - q0);
      p, q := p + 1, q + 1;
      name[q] := name[p];
    }
    Next(v, s, e, p0, q - q0);
    Appended(v, name[..], q0, e);
  }

  lemma Next(v: seq<char>, s: seq<char>, e: Name, p: nat, i: nat)
    requires Unread(v, s, p) && i <= |e| && p + |e| <= |s| && Sep(At(s, p + |e|))
             && forall k | 0 <= k < |e| :: At(s, p + k) == e[k] && !Sep(e[k])
    ensures Sep(v[p + i]) <==> i == |e|
    ensures i < |e| ==> v[p + i] == e[i]
  {
    assert v[p + i] == At(s, p + i);
    if i < |e| {
      assert At(s, p + i) == e[i];
    }
  }

  /** What holds at the head of the loop: p is at an element or a slash, and q behind what has been written. */
  ghost predicate Rewriting(v: seq<char>, s: seq<char>, p: nat, q: nat, dotdot: nat, st: Path) {
    && Unread(v, s, p) && q <= p && (if st.rooted then 1 else 0) <= q && Valid(st)
    && v[..q] == Written(st) && dotdot == Floor(st) && Fold(st, s[p..]) == Normal(s)
    && (q > (if st.rooted then 1 else 0) ==> q < p || v[p] == '/' || p == |s|)
  }

  /** What the tests of the loop say about the element at p. */
  lemma DotIs(v: seq<char>, s: seq<char>, p: nat)
    requires Unread(v, s, p) && p < |s| && '\0' !in s && v[p] != '/'
    ensures Element(s[p..]) != [] && '/' !in Element(s[p..])
    ensures (v[p] == '.' && Sep(v[p + 1])) <==> Element(s[p..]) == "."
    ensures v[p] == '.' && v[p + 1] == '.' ==> p + 2 <= |s|
    ensures (v[p] == '.' && v[p + 1] == '.' && Sep(v[p + 2])) <==> Element(s[p..]) == ".."
  {
    ElementChars(s, p);
    var e := Element(s[p..]);
    assert v[p] == At(s, p) && v[p + 1] == At(s, p + 1) && s[p] in s;
    assert p + 1 < |s| ==> s[p + 1] in s;
    if v[p] == '.' && Sep(v[p + 1]) {
      ElementIs(s, p, ".");
    }
    if v[p] == '.' && v[p + 1] == '.' {
      assert p + 2 <= |s|;
      assert v[p + 2] == At(s, p + 2);
      assert p + 2 < |s| ==> s[p + 2] in s;
      if Sep(v[p + 2]) {
        ElementIs(s, p, "..");
      }
    }
    if e == "." {
      assert At(s, p + 0) == '.' && v[p + 1] == At(s, p + |e|);
    }
    if e == ".." {
      assert At(s, p + 0) == '.' && At(s, p + 1) == e[1] && v[p + 2] == At(s, p + |e|);
    }
    assert Sep(At(s, p + |e|)) && !Sep(At(s, p));
  }

  lemma FoldStep(st: Path, s: seq<char>, p: nat)
    requires p < |s| && s[p] != '/'
    ensures Fold(st, s[p..]) == Fold(Enter(st, Element(s[p..])), s[p + |Element(s[p..])|..])
  {
    assert s[p..][|Element(s[p..])|..] == s[p + |Element(s[p..])|..];
  }

  /** The element at p is dealt with in the path; the array is rewritten from q on, but not from p' on. */
  lemma ElementDone(v: seq<char>, w: seq<char>, s: seq<char>, p: nat, q: nat, dotdot: nat, st: Path, p': nat, q': nat,
                    dotdot': nat, st': Path)
    requires Rewriting(v, s, p, q, dotdot, st) && p < |s| && '\0' !in s && v[p] != '/'
    requires p' == p + |Element(s[p..])| && st' == Enter(st, Element(s[p..])) && q' <= p' && Kept(v, w, p')
    requires w[..q'] == Written(st') && dotdot' == Floor(st') && (if st.rooted then 1 else 0) <= q'
    ensures Rewriting(w, s, p', q', dotdot', st') && st'.rooted == st.rooted && p' > p
  {
    hide Written, Floor, Valid, Fold, Element, Normal;
    DotIs(v, s, p);
    ElementChars(s, p);
    assert v[p] == At(s, p);
    FoldStep(st, s, p);
    EnterValid(st, Element(s[p..]));
    forall k | p' <= k <= |s| ensures w[k] == At(s, k) {
      assert v[k] == At(s, k);
    }
  }

  /** The element .. has been read: backtrack, or write it if there is nowhere to go back to. */
  method DotDot(name: array<char>, p: nat, q0: nat, dotdot0: nat, rooted: bool, ghost st: Path)
    returns (q: nat, dotdot: nat)
    requires Valid(st) && rooted == st.rooted && q0 <= p < name.Length && name[..q0] == Written(st)
             && dotdot0 == Floor(st)
    requires !rooted ==> if q0 == 0 then 2 <= p else q0 + 3 <= p
    modifies name
    ensures q <= p && name[..q] == Written(Up(st)) && dotdot == Floor(Up(st)) && (rooted ==> q >= 1)
    ensures Kept(old(name[..]), name[..], p)
  {
    hide Written, Floor, Valid;
    q, dotdot := q0, dotdot0;
    FloorBelow(st);
    UpValid(st);
    if q > dotdot {
      LastName(st);
      q := Backtrack(name, q, dotdot, st);
    } else if !rooted {
      WrittenUp(st);
      FloorUp(st);
      if q != 0 {
        name[q] := '/';
        q := q + 1;
      }
      name[q], name[q + 1] := '.', '.';
      q := q + 2;
      dotdot := q;
      Appended(old(name[..]), name[..], q0, if q0 == 0 then ".." else "/..");
    } else {
      assert Up(st) == st;
    }
  }

  lemma UpValid(p: Path)
    requires Valid(p)
    ensures Valid(Up(p)) && Up(p).rooted == p.rooted
    ensures |Written(Up(p))| >= if p.rooted then 1 else 0
  {
    FloorBelow(Up(p));
  }

  lemma FloorUp(p: Path)
    requires Valid(p) && !p.rooted && p.names == []
    ensures Floor(Up(p)) == |Written(Up(p))| && (|Written(p)| == 0 <==> p.ups == 0)
  {
    FloorBelow(p);
    FloorBelow(Up(p));
  }

  /** A real element: a slash, unless it is the first, and the element. */
  method NextName(name: array<char>, ghost s: seq<char>, p0: nat, q0: nat, rooted: bool, ghost st: Path)
    returns (p: nat, q: nat)
    requires Valid(st) && rooted == st.rooted && p0 < |s| && q0 <= p0 && Unread(name[..], s, p0)
             && name[..q0] == Written(st)
    requires '\0' !in s && Proper(Element(s[p0..])) && (q0 > (if rooted then 1 else 0) ==> q0 < p0)
    modifies name
    ensures p == p0 + |Element(s[p0..])| <= |s| && q <= p && name[..q] == Written(Enter(st, Element(s[p0..])))
    ensures q > q0 && Kept(old(name[..]), name[..], p)
  {
    hide Written, Valid, Element;
    ghost var v, e := name[..], Element(s[p0..]);
    FloorBelow(st);
    WrittenMore(st, e);
    q := q0;
    if q != (if rooted then 1 else 0) {
      name[q] := '/';
      q := q + 1;
      Appended(v, name[..], q0, "/");
    }
    ghost var w := name[..q];
    assert Unread(name[..], s, p0) && Kept(v, name[..], p0);
    p, q := CopyElement(name, s, p0, q);
    assert name[..q] == w + e;
    Regrouped(v[..q0], e);
  }

  lemma Regrouped(x: seq<char>, e: Name)
    ensures (x + "/") + e == x + (['/'] + e)
  {
  }

  /** One element. */
  method OneElement(name: array<char>, ghost s: seq<char>, p0: nat, q0: nat, dotdot0: nat, ghost st0: Path,
                    rooted: bool)
    returns (p: nat, q: nat, dotdot: nat, ghost st: Path)
    requires Rewriting(name[..], s, p0, q0, dotdot0, st0) && p0 < |s| && '\0' !in s && name[p0] != '/'
             && rooted == st0.rooted
    modifies name
    ensures Rewriting(name[..], s, p, q, dotdot, st) && p0 < p && st.rooted == rooted
            && Kept(old(name[..]), name[..], p)
  {
    hide Written, Floor, Valid, Fold, Element, Normal;
    ghost var v, e := name[..], Element(s[p0..]);
    DotIs(v, s, p0);
    FloorBelow(st0);
    p, q, dotdot := p0, q0, dotdot0;
    st := Enter(st0, e);
    if name[p] == '.' && Sep(name[p + 1]) {
      p := p + 1;
    } else if name[p] == '.' && name[p + 1] == '.' && Sep(name[p + 2]) {
      p := p + 2;
      q, dotdot := DotDot(name, p, q, dotdot, rooted, st0);
    } else {
      p, q := NextName(name, s, p, q, rooted, st0);
      SameFloor(st0, e);
    }
    ElementDone(v, name[..], s, p0, q0, dotdot0, st0, p, q, dotdot, st);
  }

  lemma SameFloor(p: Path, e: Name)
    requires Proper(e)
    ensures Floor(Enter(p, e)) == Floor(p)
  {
  }

  /** The whole of cleanname; the result is the place of the terminating NUL. */
  method Cleanname(name: array<char>, ghost s: seq<char>) returns (len: nat)
    requires Unread(name[..], s, 0) && '\0' !in s
    requires s == [] ==> name.Length >= 2
    modifies name
    ensures len < name.Length && name[len] == '\0' && name[..len] == Clean(s) && len > 0 && Tidy(name[..len])
    ensures s != [] ==> len <= |s| && name[|s| + 1..] == old(name[|s| + 1..])
  {
    hide Written, Floor, Valid, Fold, Element, Normal, Tidy;
    CleanIsTidy(s);
    ghost var v := name[..];
    var rooted := name[0] == '/';
    var base: nat := if rooted then 1 else 0;
    var p: nat, q: nat, dotdot: nat := base, base, base;
    ghost var st := Path(rooted, 0, []);
    StartRewriting(name[..], s);
    while name[p] != '\0'
      invariant Rewriting(name[..], s, p, q, dotdot, st) && st.rooted == rooted && Kept(v, name[..], p)
      decreases |s| - p
    {
      NotAtEnd(name[..], s, p);
      if name[p] == '/' {
        SkipSlash(name[..], s, p, q, dotdot, st);
        p := p + 1;
      } else {
        p, q, dotdot, st := OneElement(name, s, p, q, dotdot, st, rooted);
      }
    }
    AllRead(name[..], s, p, q, dotdot, st);
    if q == 0 {
      name[q] := '.';
      q := q + 1;
    }
    name[q] := '\0';
    len := q;
    assert name[..len] == if Written(Normal(s)) == [] then "." else Written(Normal(s));
  }

  lemma NotAtEnd(v: seq<char>, s: seq<char>, p: nat)
    requires Unread(v, s, p) && v[p] != '\0'
    ensures p < |s|
  {
  }

  lemma StartRewriting(v: seq<char>, s: seq<char>)
    requires Unread(v, s, 0)
    ensures var b := if v[0] == '/' then 1 else 0;
            Rewriting(v, s, b, b, b, Path(v[0] == '/', 0, [])) && Rooted(s) == (v[0] == '/')
  {
    assert v[0] == At(s, 0);
    var b, st := if Rooted(s) then 1 else 0, Path(Rooted(s), 0, []);
    assert All(st) == [] && st.(names := []) == st;
    assert Written(st) == v[..b];
    assert b == 0 ==> s[0..] == s;
    assert Fold(st, s[b..]) == Fold(st, s);
  }

  lemma SkipSlash(v: seq<char>, s: seq<char>, p: nat, q: nat, dotdot: nat, st: Path)
    requires Rewriting(v, s, p, q, dotdot, st) && p < |s| && v[p] == '/'
    ensures Rewriting(v, s, p + 1, q, dotdot, st)
  {
    assert v[p] == At(s, p);
    assert s[p..][1..] == s[p + 1..];
  }

  lemma AllRead(v: seq<char>, s: seq<char>, p: nat, q: nat, dotdot: nat, st: Path)
    requires Rewriting(v, s, p, q, dotdot, st) && v[p] == '\0' && '\0' !in s
    ensures p == |s| && Written(Normal(s)) == v[..q] && q <= |s|
  {
    assert v[p] == At(s, p);
    assert forall k | 0 <= k < |s| :: s[k] in s;
    assert s[|s|..] == [];
  }
}
