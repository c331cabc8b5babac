/**
 The interpreter version probe (scripts/setup-trading-tools-python-probe.py): comparison of
 releases, the clauses of a version specifier, and the release part of the sort key. The
 section names of PEP 440 are used for the clauses.
 */
module VersionSpec {
  import opened Wrappers
  import opened Orders

  type Release = seq<nat>

  // Rank 0, 1, 2 for an alpha, beta, candidate with its serial; (3, 0) is a final release.
  type Pre = (nat, nat)

  const FINAL: Pre := (3, 0)

  datatype Version = Version(release: Release, pre: Pre)

  // ---------- Comparing ----------

  // Trailing zeros removed.
  function Strip(r: Release): (s: Release)
    ensures s <= r
    ensures s != [] ==> s[|s| - 1] != 0
    ensures forall i :: |s| <= i < |r| ==> r[i] == 0
  {
    if r != [] && r[|r| - 1] == 0 then Strip(r[..|r| - 1]) else r
  }

  // The loop that builds the release part of the sort key.
  method StripRelease(raw: Release) returns (release: Release)
    ensures release == Strip(raw)
  {
    release := raw;
    while release != [] && release[|release| - 1] == 0
      invariant Strip(release) == Strip(raw)
      decreases |release|
    {
      release := release[..|release| - 1];
    }
  }

  function Pad(r: Release, width: nat): (s: Release)
    requires |r| <= width
    ensures |s| == width && forall i :: 0 <= i < width ==> s[i] == At(r, i)
  {
    r + seq(width - |r|, i requires 0 <= i < width - |r| => 0)
  }

  function Max(a: nat, b: nat): nat {
    if a > b then a else b
  }

  function CompareReleases(a: Release, b: Release): int {
    var sa, sb := Strip(a), Strip(b);
    var width := Max(|sa|, |sb|);
    Lex<int>(CompareInts, Pad(sa, width), Pad(sb, width))
  }

  function ComparePre(a: Pre, b: Pre): int {
    if a.0 != b.0 then CompareInts(a.0, b.0) else CompareInts(a.1, b.1)
  }

  function Compare(a: Version, b: Version): int {
    if CompareReleases(a.release, b.release) != 0 then CompareReleases(a.release, b.release)
    else ComparePre(a.pre, b.pre)
  }

  // ---------- The order is that of the zero-extended releases ----------

  function At(r: Release, i: nat): nat {
    if i < |r| then r[i] else 0
  }

  ghost predicate SameUpTo(a: Release, b: Release, n: nat) {
    forall i :: 0 <= i < n ==> At(a, i) == At(b, i)
  }

  // `a` is smaller at the first place where the two differ.
  ghost predicate Before(a: Release, b: Release) {
    exists i: nat :: SameUpTo(a, b, i) && At(a, i) < At(b, i)
  }

  ghost predicate Same(a: Release, b: Release) {
    forall i: nat :: At(a, i) == At(b, i)
  }

  lemma {:induction false} LexFirstDifference(a: seq<int>, b: seq<int>) returns (n: nat)
    requires |a| == |b|
    ensures n <= |a| && forall j :: 0 <= j < n ==> a[j] == b[j]
    ensures Lex<int>(CompareInts, a, b) == if n == |a| then 0 else CompareInts(a[n], b[n])
    ensures n < |a| ==> a[n] != b[n]
  {
    n := 0;
    if a != [] && a[0] == b[0] {
      var m := LexFirstDifference(a[1..], b[1..]);
      n := m + 1;
      forall j | 0 <= j < n ensures a[j] == b[j] {
        assert j > 0 ==> a[j] == a[1..][j - 1] && b[j] == b[1..][j - 1];
      }
    }
  }

  lemma StripKeepsAt(r: Release, i: nat)
    ensures At(Strip(r), i) == At(r, i)
  {}

  lemma ReleaseOrder(a: Release, b: Release)
    ensures CompareReleases(a, b) < 0 <==> Before(a, b)
    ensures CompareReleases(a, b) == 0 <==> Same(a, b)
    ensures CompareReleases(a, b) > 0 <==> Before(b, a)
    ensures -1 <= CompareReleases(a, b) <= 1
  {
    var sa, sb := Strip(a), Strip(b);
    var width := Max(|sa|, |sb|);
    var pa, pb := Pad(sa, width), Pad(sb, width);
    var n := LexFirstDifference(pa, pb);
    forall i: nat ensures i < width ==> At(a, i) == pa[i] && At(b, i) == pb[i]
                  ensures i >= width ==> At(a, i) == At(b, i) == 0 {
      StripKeepsAt(a, i);
      StripKeepsAt(b, i);
    }
    if n < width {
      assert SameUpTo(a, b, n) && SameUpTo(b, a, n);
      assert At(a, n) != At(b, n);
      if Before(a, b) { OneWay(a, b, n); }
      if Before(b, a) { OneWay(b, a, n); }
    } else {
      assert Lex<int>(CompareInts, pa, pb) == 0;
      assert Same(a, b);
      NotBeforeSame(a, b);
      NotBeforeSame(b, a);
    }
  }

  lemma NotBeforeSame(a: Release, b: Release)
    requires Same(a, b)
    ensures !Before(a, b)
  {}

  lemma OneWay(a: Release, b: Release, n: nat)
    requires Before(a, b) && SameUpTo(a, b, n) && At(a, n) != At(b, n)
    ensures At(a, n) < At(b, n)
  {
    var i: nat :| SameUpTo(a, b, i) && At(a, i) < At(b, i);
    assert i < n ==> At(a, i) == At(b, i);
    assert n < i ==> At(a, n) == At(b, n);
  }

  // Releases are the same exactly when stripping makes them equal.
  lemma SameIsStripEqual(a: Release, b: Release)
    ensures Same(a, b) <==> Strip(a) == Strip(b)
  {
    var sa, sb := Strip(a), Strip(b);
    if sa == sb {
      forall i: nat ensures At(a, i) == At(b, i) {
        StripKeepsAt(a, i);
        StripKeepsAt(b, i);
      }
    }
    if Same(a, b) {
      forall i: nat ensures At(sa, i) == At(sb, i) {
        StripKeepsAt(a, i);
        StripKeepsAt(b, i);
      }
      assert |sa| > 0 ==> At(sa, |sa| - 1) != 0;
      assert |sb| > 0 ==> At(sb, |sb| - 1) != 0;
      assert |sa| == |sb|;
      forall i | 0 <= i < |sa| ensures sa[i] == sb[i] {
        assert At(sa, i) == At(sb, i);
      }
    }
  }

  lemma BeforeTransitive(a: Release, b: Release, c: Release)
    requires Before(a, b) && Before(b, c)
    ensures Before(a, c)
  {
    var i: nat :| SameUpTo(a, b, i) && At(a, i) < At(b, i);
    var j: nat :| SameUpTo(b, c, j) && At(b, j) < At(c, j);
    var k := if i < j then i else j;
    forall x | 0 <= x < k ensures At(a, x) == At(c, x) {
      assert At(a, x) == At(b, x) == At(c, x);
    }
    assert SameUpTo(a, c, k);
    assert i < j ==> At(b, i) == At(c, i);
    assert j < i ==> At(a, j) == At(b, j);
  }

  ghost predicate AtMostAs(a: Version, b: Version) {
    Before(a.release, b.release) || (Same(a.release, b.release) && ComparePre(a.pre, b.pre) <= 0)
  }

  lemma CompareAtMost(a: Version, b: Version)
    ensures Compare(a, b) <= 0 <==> AtMostAs(a, b)
  {
    ReleaseOrder(a.release, b.release);
    if Before(a.release, b.release) { NotBoth(a.release, b.release); }
  }

  lemma AtMostTransitive(a: Version, b: Version, c: Version)
    requires AtMostAs(a, b) && AtMostAs(b, c)
    ensures AtMostAs(a, c)
  {
    if Before(a.release, b.release) && Before(b.release, c.release) {
      BeforeTransitive(a.release, b.release, c.release);
    } else if Same(a.release, b.release) {
      SameMoves(a.release, b.release, c.release);
    } else {
      SameMoves(c.release, b.release, a.release);
    }
  }

  // Comparison is a total preorder whose ties are the versions with the same stripped
  // release and the same pre-release part.
  lemma CompareIsPreorder(a: Version, b: Version, c: Version)
    ensures Compare(a, b) == -Compare(b, a)
    ensures Compare(a, b) == 0 <==> Strip(a.release) == Strip(b.release) && a.pre == b.pre
    ensures Compare(a, b) <= 0 && Compare(b, c) <= 0 ==> Compare(a, c) <= 0
  {
    CompareTies(a, b);
    CompareAtMost(a, b);
    CompareAtMost(b, c);
    CompareAtMost(a, c);
    if Compare(a, b) <= 0 && Compare(b, c) <= 0 {
      AtMostTransitive(a, b, c);
    }
  }

  lemma CompareTies(a: Version, b: Version)
    ensures Compare(a, b) == -Compare(b, a)
    ensures Compare(a, b) == 0 <==> Strip(a.release) == Strip(b.release) && a.pre == b.pre
  {
    ReleaseOrder(a.release, b.release);
    ReleaseOrder(b.release, a.release);
    SameIsStripEqual(a.release, b.release);
  }

  lemma SameMoves(a: Release, b: Release, c: Release)
    requires Same(a, b)
    ensures Before(b, c) ==> Before(a, c)
    ensures Before(c, b) ==> Before(c, a)
    ensures Same(b, c) ==> Same(a, c)
  {
    if Before(b, c) {
      var i: nat :| SameUpTo(b, c, i) && At(b, i) < At(c, i);
      assert SameUpTo(a, c, i) && At(a, i) < At(c, i);
    }
    if Before(c, b) {
      var i: nat :| SameUpTo(c, b, i) && At(c, i) < At(b, i);
      assert SameUpTo(c, a, i) && At(c, i) < At(a, i);
    }
  }

  // Comparing releases agrees with comparing the stripped tuples, the form of the sort key.
  lemma AgreesWithStrippedTuples(a: Release, b: Release)
    ensures CompareReleases(a, b) == Lex<int>(CompareInts, Strip(a), Strip(b))
  {
    var sa, sb := Strip(a), Strip(b);
    PaddingKeepsLex(sa, sb, Max(|sa|, |sb|));
  }

  lemma {:induction false} PaddingKeepsLex(a: Release, b: Release, width: nat)
    requires |a| <= width && |b| <= width && (|a| == width || |b| == width)
    requires a != [] ==> a[|a| - 1] != 0
    requires b != [] ==> b[|b| - 1] != 0
    ensures Lex<int>(CompareInts, Pad(a, width), Pad(b, width)) == Lex<int>(CompareInts, a, b)
  {
    var pa, pb := Pad(a, width), Pad(b, width);
    if a != [] && b != [] {
      assert pa[1..] == Pad(a[1..], width - 1) && pb[1..] == Pad(b[1..], width - 1);
      PaddingKeepsLex(a[1..], b[1..], width - 1);
    } else if width > 0 {
      // One side is all padding; the other ends in a positive component.
      var n := LexFirstDifference(pa, pb);
      assert pa[width - 1] != pb[width - 1];
      assert if a == [] then pa[n] == 0 else pb[n] == 0;
    }
  }

  // ---------- Clauses ----------

  datatype Operator = AtLeast | Above | AtMost | Below | Equals | Differs | Compatible

  // The labels `a`, `b` and `rc`.
  datatype PreLabel = Alpha | Beta | Candidate

  // A parsed clause; the label comes with its serial, when one is written.
  datatype Clause = Clause(op: Operator, release: Release, label_: Option<PreLabel>, serial: Option<nat>, wildcard: bool)

  datatype ClauseError = InvalidPreRelease | WildcardNotAllowed | TooFewComponents

  function WantedPre(c: Clause): Pre {
    if c.label_.Some? && c.serial.Some? then (Rank(c.label_.value), c.serial.value) else FINAL
  }

  function Rank(label_: PreLabel): nat {
    match label_
    case Alpha => 0
    case Beta => 1
    case Candidate => 2
  }

  // One component less, and the last one that is left is one more.
  function Upper(release: Release): (upper: Release)
    requires |release| >= 2
    ensures |upper| == |release| - 1 && upper[|upper| - 1] == release[|upper| - 1] + 1
    ensures forall i :: 0 <= i < |upper| - 1 ==> upper[i] == release[i]
  {
    var n := |release| - 2;
    release[..n] + [release[n] + 1]
  }

  function CheckClause(v: Version, c: Clause): (r: Result<bool, ClauseError>)
    ensures r.Err? <==>
              || (c.label_.Some? && c.serial.None?)
              || (c.wildcard && c.op !in {Equals, Differs})
              || (!c.wildcard && c.op == Compatible && |c.release| < 2)
    ensures r == Err(InvalidPreRelease) <==> c.label_.Some? && c.serial.None?
    ensures r == Err(WildcardNotAllowed) ==> c.wildcard
    ensures r == Err(TooFewComponents) ==> !c.wildcard
    ensures r.Ok? && c.wildcard ==> (r.value <==> (c.op == Equals <==> c.release <= v.release))
  {
    var wanted := Version(c.release, WantedPre(c));
    var order := Compare(v, wanted);
    if c.label_.Some? && c.serial.None? then Err(InvalidPreRelease)
    else if c.wildcard && c.op in {Equals, Differs} then
      var equal := c.release <= v.release;
      Ok(if c.op == Equals then equal else !equal)
    else if c.wildcard then Err(WildcardNotAllowed)
    else match c.op
      case AtLeast => Ok(order >= 0)
      case Above => Ok(order > 0)
      case AtMost => Ok(order <= 0)
      case Below => Ok(order < 0)
      case Equals => Ok(order == 0)
      case Differs => Ok(order != 0)
      case Compatible =>
        if |c.release| < 2 then Err(TooFewComponents)
        else Ok(order >= 0 && Compare(v, Version(Upper(c.release), FINAL)) < 0)
  }

  predicate Passes(v: Version, c: Clause) {
    CheckClause(v, c) == Ok(true)
  }

  predicate WellFormed(c: Clause) {
    !c.wildcard && (c.label_.Some? ==> c.serial.Some?)
  }

  // Exactly one of below, equal, above holds, and the other clauses follow from them.
  lemma Trichotomy(v: Version, c: Clause)
    requires WellFormed(c)
    ensures var below, equal, above := Passes(v, c.(op := Below)), Passes(v, c.(op := Equals)), Passes(v, c.(op := Above));
            && (below || equal || above)
            && !(below && equal) && !(equal && above) && !(below && above)
            && Passes(v, c.(op := AtLeast)) == (above || equal)
            && Passes(v, c.(op := AtMost)) == (below || equal)
            && Passes(v, c.(op := Differs)) == !equal
    ensures Passes(v, c.(op := Equals)) <==> Strip(v.release) == Strip(c.release) && v.pre == WantedPre(c)
  {
    CompareIsPreorder(v, Version(c.release, WantedPre(c)), v);
  }

  // The pre-release a clause asks for, and the order of pre-releases: alphas, betas,
  // candidates, each by serial, then the final release.
  lemma WantedPreExactly(c: Clause)
    requires WellFormed(c)
    ensures match c.label_
            case None => WantedPre(c) == (3, 0)
            case Some(Alpha) => WantedPre(c) == (0, c.serial.value)
            case Some(Beta) => WantedPre(c) == (1, c.serial.value)
            case Some(Candidate) => WantedPre(c) == (2, c.serial.value)
  {}

  // `a` is before `b`: at the first place where the zero-extended releases differ, or, when
  // they do not, in the pre-release part.
  ghost predicate Precedes(a: Version, b: Version) {
    || Before(a.release, b.release)
    || (Same(a.release, b.release) && (a.pre.0 < b.pre.0 || (a.pre.0 == b.pre.0 && a.pre.1 < b.pre.1)))
  }

  lemma CompareIsPrecedes(a: Version, b: Version)
    ensures Compare(a, b) < 0 <==> Precedes(a, b)
    ensures Compare(a, b) > 0 <==> Precedes(b, a)
  {
    CompareMeans(a, b);
    CompareMeans(b, a);
    CompareTies(a, b);
  }

  // What each operator asks of the interpreter.
  lemma ClausesExactly(v: Version, c: Clause)
    requires WellFormed(c)
    ensures var wanted := Version(c.release, WantedPre(c));
            Passes(v, c) <==>
            match c.op
            case AtLeast => !Precedes(v, wanted)
            case Above => Precedes(wanted, v)
            case AtMost => !Precedes(wanted, v)
            case Below => Precedes(v, wanted)
            case Equals => !Precedes(v, wanted) && !Precedes(wanted, v)
            case Differs => Precedes(v, wanted) || Precedes(wanted, v)
            case Compatible =>
              |c.release| >= 2 && !Precedes(v, wanted) && Precedes(v, Version(Upper(c.release), (3, 0)))
  {
    CompareIsPrecedes(v, Version(c.release, WantedPre(c)));
    if |c.release| >= 2 { CompareIsPrecedes(v, Version(Upper(c.release), (3, 0))); }
  }

  // The zero-extended release starts with the prefix.
  ghost predicate Starts(r: Release, prefix: Release) {
    SameUpTo(r, prefix, |prefix|)
  }

  lemma CompatibleBounds(r: Release, v: Release)
    requires |v| >= 2 && !Before(r, v)
    ensures Before(r, Upper(v)) <==> Starts(r, v[..|v| - 1])
  {
    var prefix, upper := v[..|v| - 1], Upper(v);
    var last := |prefix| - 1;
    assert forall i: nat :: i < last ==> At(upper, i) == At(prefix, i) == At(v, i);
    assert At(upper, last) == At(prefix, last) + 1 && At(prefix, last) == At(v, last);
    if Starts(r, prefix) {
      assert SameUpTo(r, upper, last) && At(r, last) < At(upper, last);
    }
    if Before(r, upper) {
      var i: nat :| SameUpTo(r, upper, i) && At(r, i) < At(upper, i);
      assert i <= last;
      forall x | 0 <= x < i ensures At(r, x) == At(v, x) { assert At(r, x) == At(upper, x); }
      assert SameUpTo(r, v, i);
      assert At(r, i) >= At(v, i);
      assert i == last;
    }
  }

  lemma UpperIsAbove(r: Release, v: Release)
    requires |v| >= 2 && Same(r, Upper(v))
    ensures Before(v, r)
  {
    var last := |v| - 2;
    assert forall i: nat :: i < last ==> At(Upper(v), i) == At(v, i);
    assert SameUpTo(v, r, last) && At(r, last) == At(Upper(v), last) > At(v, last);
  }

  lemma CompareMeans(a: Version, b: Version)
    ensures Compare(a, b) < 0 <==>
              Before(a.release, b.release) || (Same(a.release, b.release) && ComparePre(a.pre, b.pre) < 0)
    ensures Before(b.release, a.release) ==> Compare(a, b) > 0
  {
    ReleaseOrder(a.release, b.release);
  }

  // 'Compatible release', for every interpreter: at least V and the same prefix, or a
  // pre-release of the next prefix, which PEP 440 excludes but the code lets through.
  lemma CompatibleExactly(v: Version, c: Clause)
    requires WellFormed(c) && |c.release| >= 2
    ensures Passes(v, c.(op := Compatible)) <==>
              || (Passes(v, c.(op := AtLeast)) && Starts(v.release, c.release[..|c.release| - 1]))
              || (Strip(v.release) == Strip(Upper(c.release)) && ComparePre(v.pre, FINAL) < 0)
  {
    var wanted, upper := Version(c.release, WantedPre(c)), Version(Upper(c.release), FINAL);
    assert Passes(v, c.(op := Compatible)) <==> Compare(v, wanted) >= 0 && Compare(v, upper) < 0;
    assert Passes(v, c.(op := AtLeast)) <==> Compare(v, wanted) >= 0;
    CompareMeans(v, upper);
    CompareMeans(v, wanted);
    SameIsStripEqual(v.release, upper.release);
    CompatibleReleases(v.release, c.release);
  }

  lemma CompatibleReleases(r: Release, v: Release)
    requires |v| >= 2
    ensures Same(r, Upper(v)) ==> Before(v, r) && !Before(r, Upper(v)) && !Before(r, v)
    ensures !Before(r, v) ==> (Before(r, Upper(v)) <==> Starts(r, v[..|v| - 1]))
  {
    if Same(r, Upper(v)) {
      UpperIsAbove(r, v);
      NotBeforeSame(r, Upper(v));
      NotBoth(v, r);
    }
    if !Before(r, v) {
      CompatibleBounds(r, v);
    }
  }

  lemma NotBoth(a: Release, b: Release)
    requires Before(a, b)
    ensures !Before(b, a) && !Same(a, b)
  {
    var i: nat :| SameUpTo(a, b, i) && At(a, i) < At(b, i);
    if Before(b, a) { OneWay(b, a, i); }
  }

  // `==V'.*`, V' one component shorter than V.
  function PrefixClause(c: Clause): Clause
    requires |c.release| >= 1
  {
    c.(op := Equals, release := c.release[..|c.release| - 1], wildcard := true)
  }

  lemma StartsIsPrefix(r: Release, prefix: Release)
    ensures prefix <= r <==> Starts(r, prefix) && |prefix| <= |r|
  {
    if Starts(r, prefix) && |prefix| <= |r| {
      forall i | 0 <= i < |prefix| ensures prefix[i] == r[i] {
        assert At(r, i) == At(prefix, i);
      }
    }
  }

  lemma UpperDoesNotStart(r: Release, v: Release)
    requires |v| >= 2 && Same(r, Upper(v))
    ensures !Starts(r, v[..|v| - 1])
  {
    var last := |v| - 2;
    assert At(r, last) == At(Upper(v), last) == v[last] + 1;
    assert At(v[..|v| - 1], last) == v[last];
  }

  // The code's reading of `~=V` and `>=V` with `==V'.*` differ exactly for a pre-release of
  // the next prefix, and for a release shorter than V' that equals it but for zeros.
  lemma ReadingsDifferExactly(v: Version, c: Clause)
    requires WellFormed(c) && |c.release| >= 2
    ensures (Passes(v, c.(op := Compatible)) <==> Passes(v, c.(op := AtLeast)) && Passes(v, PrefixClause(c))) <==>
              && !(Strip(v.release) == Strip(Upper(c.release)) && ComparePre(v.pre, FINAL) < 0)
              && !(Passes(v, c.(op := AtLeast)) && |v.release| < |c.release| - 1 && Starts(v.release, c.release[..|c.release| - 1]))
  {
    var prefix := c.release[..|c.release| - 1];
    CompatibleExactly(v, c);
    StartsIsPrefix(v.release, prefix);
    SameIsStripEqual(v.release, Upper(c.release));
    if Same(v.release, Upper(c.release)) { UpperDoesNotStart(v.release, c.release); }
  }

  // For a final three-component interpreter and a clause of two to four components this is
  // the reading of PEP 440: `~=V` is `>=V` together with `==V'.*`, V' one component shorter.
  lemma CompatibleIsPrefixMatch(v: Version, c: Clause)
    requires WellFormed(c) && v.pre == FINAL && |v.release| == 3 && 2 <= |c.release| <= 4
    ensures Passes(v, c.(op := Compatible)) <==> Passes(v, c.(op := AtLeast)) && Passes(v, PrefixClause(c))
  {
    ReadingsDifferExactly(v, c);
  }

  // With a pre-release interpreter the two readings differ.
  lemma PreReleaseSlipsThrough()
    ensures var v := Version([3, 9, 0], (0, 1));
            var c := Clause(Compatible, [3, 8, 2], None, None, false);
            Passes(v, c) && !Passes(v, Clause(Equals, [3, 8], None, None, true))
  {
    var v := Version([3, 9, 0], (0, 1));
    var c := Clause(Compatible, [3, 8, 2], None, None, false);
    assert Upper([3, 8, 2]) == [3, 9];
    assert [3, 9, 0][..2] == [3, 9];
    assert Strip([3, 9, 0]) == [3, 9];
    CompatibleExactly(v, c);
  }

  // And with five components the wildcard asks for more digits than an interpreter has.
  lemma FiveComponentsDiffer()
    ensures var v := Version([3, 8, 2], FINAL);
            var c := Clause(Compatible, [3, 8, 2, 0, 0], None, None, false);
            Passes(v, c) && !Passes(v, Clause(Equals, [3, 8, 2, 0], None, None, true))
  {
    var v := Version([3, 8, 2], FINAL);
    var c := Clause(Compatible, [3, 8, 2, 0, 0], None, None, false);
    assert c.release[..4] == [3, 8, 2, 0];
    assert Starts(v.release, [3, 8, 2, 0]);
    CompareIsPreorder(v, Version(c.release, FINAL), v);
    assert [3, 8, 2, 0, 0][..4] == [3, 8, 2, 0] && [3, 8, 2, 0][..3] == [3, 8, 2];
    assert Strip([3, 8, 2, 0, 0]) == [3, 8, 2];
    CompatibleExactly(v, c);
  }
}
