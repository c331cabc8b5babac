/** Character and line helpers: trimming, splitting at a separator, joining. */
module Text {

  // Unicode White_Space, what Rust's `trim` removes.
  predicate IsWhiteSpace(c: char) {
    var n := c as int;
    9 <= n <= 13 || n == 0x20 || n == 0x85 || n == 0xA0 || n == 0x1680 || 0x2000 <= n <= 0x200A
    || n == 0x2028 || n == 0x2029 || n == 0x202F || n == 0x205F || n == 0x3000
  }

  // What JavaScript's `trim` removes: the same set with U+FEFF and without U+0085.
  predicate IsScriptSpace(c: char) {
    (IsWhiteSpace(c) && c as int != 0x85) || c as int == 0xFEFF
  }

  function TrimStart(s: string, space: char -> bool): (t: string)
    ensures |t| <= |s| && t == s[|s| - |t|..]
    ensures t != [] ==> !space(t[0])
    ensures forall i :: 0 <= i < |s| - |t| ==> space(s[i])
  {
    if s != [] && space(s[0]) then TrimStart(s[1..], space) else s
  }

  function TrimEnd(s: string, space: char -> bool): (t: string)
    ensures t <= s
    ensures t != [] ==> !space(t[|t| - 1])
    ensures forall i :: |t| <= i < |s| ==> space(s[i])
  {
    if s != [] && space(s[|s| - 1]) then TrimEnd(s[..|s| - 1], space) else s
  }

  function Trim(s: string, space: char -> bool): string {
    TrimEnd(TrimStart(s, space), space)
  }

  ghost predicate All(s: string, space: char -> bool) {
    forall i :: 0 <= i < |s| ==> space(s[i])
  }

  // Trimming takes the spaces around a text off and nothing else.
  lemma TrimExactly(s: string, space: char -> bool) returns (from: nat, to: nat)
    ensures from <= to <= |s| && Trim(s, space) == s[from..to]
    ensures forall i :: (0 <= i < from || to <= i < |s|) ==> space(s[i])
    ensures from < to ==> !space(s[from]) && !space(s[to - 1])
  {
    from := StartCut(s, space);
    to := EndCut(s, from, space);
  }

  lemma StartCut(s: string, space: char -> bool) returns (from: nat)
    ensures from <= |s| && TrimStart(s, space) == s[from..]
    ensures forall i :: 0 <= i < from ==> space(s[i])
    ensures from < |s| ==> !space(s[from])
  {
    from := |s| - |TrimStart(s, space)|;
  }

  lemma EndCut(s: string, from: nat, space: char -> bool) returns (to: nat)
    requires from <= |s|
    ensures from <= to <= |s| && TrimEnd(s[from..], space) == s[from..to]
    ensures forall i :: to <= i < |s| ==> space(s[i])
    ensures from < to ==> !space(s[to - 1])
  {
    var rest := s[from..];
    to := from + |TrimEnd(rest, space)|;
    assert forall i :: from <= i < |s| ==> s[i] == rest[i - from];
  }

  lemma TrimIs(before: string, text: string, after: string, space: char -> bool)
    requires All(before, space) && All(after, space) && text != "" && !space(text[0]) && !space(text[|text| - 1])
    ensures Trim(before + text + after, space) == text
  {
    TrimStartIs(before, text + after, space);
    Associative(before, text, after);
    TrimEndIs(text, after, space);
  }

  lemma {:induction false} TrimStartIs(before: string, rest: string, space: char -> bool)
    requires All(before, space) && rest != "" && !space(rest[0])
    ensures TrimStart(before + rest, space) == rest
  {
    if before == "" {
      assert before + rest == rest;
    } else {
      assert (before + rest)[1..] == before[1..] + rest && before[0] in before;
      TrimStartIs(before[1..], rest, space);
    }
  }

  lemma {:induction false} TrimEndIs(text: string, after: string, space: char -> bool)
    requires All(after, space) && text != "" && !space(text[|text| - 1])
    ensures TrimEnd(text + after, space) == text
  {
    if after == "" {
      assert text + after == text;
    } else {
      var n := |after| - 1;
      assert (text + after)[..|text + after| - 1] == text + after[..n] && after[n] in after;
      TrimEndIs(text, after[..n], space);
    }
  }

  // The spaces one by one: what Rust's `trim` and JavaScript's `trim` remove.
  lemma SpacesExactly(c: char)
    ensures IsWhiteSpace(c) <==>
              c in "\t\n\U{B}\U{C}\r \U{85}\U{A0}\U{1680}\U{2000}\U{2001}\U{2002}\U{2003}\U{2004}\U{2005}\U{2006}\U{2007}\U{2008}\U{2009}\U{200A}\U{2028}\U{2029}\U{202F}\U{205F}\U{3000}"
    ensures IsScriptSpace(c) <==>
              c in "\t\n\U{B}\U{C}\r \U{A0}\U{1680}\U{2000}\U{2001}\U{2002}\U{2003}\U{2004}\U{2005}\U{2006}\U{2007}\U{2008}\U{2009}\U{200A}\U{2028}\U{2029}\U{202F}\U{205F}\U{3000}\U{FEFF}"
  {}

  // The pieces of `s` between separators; one more piece than separators.
  function Split<T(==)>(s: seq<T>, sep: T): (parts: seq<seq<T>>)
    ensures parts != []
    ensures forall part :: part in parts ==> sep !in part
  {
    if s == [] then [[]]
    else
      var rest := Split(s[1..], sep);
      if s[0] == sep then [[]] + rest else [[s[0]] + rest[0]] + rest[1..]
  }

  function Join<T>(parts: seq<seq<T>>, sep: T): seq<T>
    requires parts != []
  {
    if |parts| == 1 then parts[0] else parts[0] + [sep] + Join(parts[1..], sep)
  }

  lemma {:induction false} SplitPlain<T>(s: seq<T>, sep: T)
    requires sep !in s
    ensures Split(s, sep) == [s]
  {
    if s != [] {
      SplitPlain(s[1..], sep);
      assert [s[0]] + s[1..] == s;
    }
  }

  lemma {:induction false} SplitAfterPart<T>(part: seq<T>, tail: seq<T>, sep: T)
    requires sep !in part
    ensures Split(part + [sep] + tail, sep) == [part] + Split(tail, sep)
  {
    var s := part + [sep] + tail;
    if part == [] {
      assert s[1..] == tail;
    } else {
      assert s[1..] == part[1..] + [sep] + tail;
      SplitAfterPart(part[1..], tail, sep);
      assert [part[0]] + part[1..] == part;
    }
  }

  // Joining loses nothing: the pieces come back.
  lemma {:induction false} SplitJoin<T>(parts: seq<seq<T>>, sep: T)
    requires parts != []
    requires forall part :: part in parts ==> sep !in part
    ensures Split(Join(parts, sep), sep) == parts
  {
    if |parts| == 1 {
      SplitPlain(parts[0], sep);
    } else {
      SplitJoin(parts[1..], sep);
      SplitAfterPart(parts[0], Join(parts[1..], sep), sep);
    }
  }

  lemma {:induction false} JoinSplit<T>(s: seq<T>, sep: T)
    ensures Join(Split(s, sep), sep) == s
  {
    if s != [] {
      JoinSplit(s[1..], sep);
      var rest := Split(s[1..], sep);
      if s[0] == sep {
        assert ([[]] + rest)[1..] == rest;
      } else {
        var parts := [[s[0]] + rest[0]] + rest[1..];
        assert parts[1..] == rest[1..];
      }
    }
  }

  // Splitting more text only continues the last piece.
  lemma {:induction false} SplitMore<T>(a: seq<T>, b: seq<T>, sep: T)
    ensures var parts := Split(a, sep);
            Split(a + b, sep) == parts[..|parts| - 1] + Split(parts[|parts| - 1] + b, sep)
    decreases |a|
  {
    var parts := Split(a, sep);
    JoinSplit(a, sep);
    if |parts| == 1 {
      assert [] + Split(a + b, sep) == Split(a + b, sep);
    } else {
      var tail := Join(parts[1..], sep);
      assert a == parts[0] + [sep] + tail;
      SplitMore(tail, b, sep);
      SplitMoreAfterPart(parts[0], tail, b, sep);
    }
  }

  lemma SplitMoreAfterPart<T>(part: seq<T>, tail: seq<T>, b: seq<T>, sep: T)
    requires sep !in part
    requires var rest := Split(tail, sep);
             Split(tail + b, sep) == rest[..|rest| - 1] + Split(rest[|rest| - 1] + b, sep)
    ensures var parts := Split(part + [sep] + tail, sep);
            Split(part + [sep] + tail + b, sep) == parts[..|parts| - 1] + Split(parts[|parts| - 1] + b, sep)
  {
    SplitAfterPart(part, tail, sep);
    assert part + [sep] + tail + b == part + [sep] + (tail + b);
    SplitAfterPart(part, tail + b, sep);
    var rest := Split(tail, sep);
    ContinueLast(part, rest, Split(rest[|rest| - 1] + b, sep));
  }

  lemma ContinueLast<T>(first: T, rest: seq<T>, more: seq<T>)
    requires rest != []
    ensures var all := [first] + rest;
            all[|all| - 1] == rest[|rest| - 1] && [first] + (rest[..|rest| - 1] + more) == all[..|all| - 1] + more
  {}

  lemma Associative<T>(a: seq<T>, b: seq<T>, c: seq<T>)
    ensures (a + b) + c == a + (b + c)
  {}

  lemma {:induction false} JoinConcat<T>(a: seq<seq<T>>, b: seq<seq<T>>, sep: T)
    requires a != [] && b != []
    ensures Join(a + b, sep) == Join(a, sep) + [sep] + Join(b, sep)
  {
    if |a| == 1 {
      assert (a + b)[1..] == b;
    } else {
      assert (a + b)[1..] == a[1..] + b;
      JoinConcat(a[1..], b, sep);
      var front := a[0] + [sep];
      Associative(front, Join(a[1..], sep), [sep]);
      Associative(front, Join(a[1..], sep) + [sep], Join(b, sep));
    }
  }

  // Splitting invents no element.
  lemma {:induction false} SplitElements<T>(s: seq<T>, sep: T, x: T)
    requires x !in s
    ensures forall part :: part in Split(s, sep) ==> x !in part
  {
    if s != [] {
      SplitElements(s[1..], sep, x);
      assert Split(s[1..], sep)[0] in Split(s[1..], sep);
    }
  }

  // Joined text is as injective as its pieces.
  lemma JoinInjective<T>(a: seq<seq<T>>, b: seq<seq<T>>, sep: T)
    requires a != [] && b != []
    requires forall part :: part in a || part in b ==> sep !in part
    requires Join(a, sep) == Join(b, sep)
    ensures a == b
  {
    SplitJoin(a, sep);
    SplitJoin(b, sep);
  }

  function Map<T, U>(f: T -> U, s: seq<T>): (image: seq<U>)
    ensures |image| == |s| && forall i :: 0 <= i < |s| ==> image[i] == f(s[i])
  {
    seq(|s|, i requires 0 <= i < |s| => f(s[i]))
  }

  lemma MapFirst<T, U>(f: T -> U, s: seq<T>)
    requires s != []
    ensures Map(f, s) == [f(s[0])] + Map(f, s[1..])
  {}

  function Filter<T>(p: T -> bool, s: seq<T>): (kept: seq<T>)
    ensures forall x :: x in kept ==> x in s && p(x)
    ensures forall x :: x in s && p(x) ==> x in kept
  {
    if s == [] then [] else (if p(s[0]) then [s[0]] else []) + Filter(p, s[1..])
  }

  lemma {:induction false} FilterConcat<T>(p: T -> bool, a: seq<T>, b: seq<T>)
    ensures Filter(p, a + b) == Filter(p, a) + Filter(p, b)
  {
    if a == [] {
      assert a + b == b;
    } else {
      assert (a + b)[1..] == a[1..] + b;
      FilterConcat(p, a[1..], b);
    }
  }

  function Flat<T, U>(f: T -> seq<U>, s: seq<T>): seq<U> {
    if s == [] then [] else f(s[0]) + Flat(f, s[1..])
  }

  lemma {:induction false} FlatConcat<T, U>(f: T -> seq<U>, a: seq<T>, b: seq<T>)
    ensures Flat(f, a + b) == Flat(f, a) + Flat(f, b)
  {
    if a == [] {
      assert a + b == b;
    } else {
      assert (a + b)[1..] == a[1..] + b;
      FlatConcat(f, a[1..], b);
      Associative(f(a[0]), Flat(f, a[1..]), Flat(f, b));
    }
  }

  lemma {:induction false} FilterAll<T>(p: T -> bool, s: seq<T>)
    ensures (forall x :: x in s ==> p(x)) ==> Filter(p, s) == s
    ensures (forall x :: x in s ==> !p(x)) ==> Filter(p, s) == []
  {
    if s != [] { FilterAll(p, s[1..]); }
  }

  // Filtering first or last is the same when the predicates correspond.
  lemma {:induction false} FlatOfFiltered<T, U>(f: T -> seq<U>, p: T -> bool, q: U -> bool, s: seq<T>)
    requires forall x, y :: x in s && y in f(x) ==> (q(y) <==> p(x))
    ensures Flat(f, Filter(p, s)) == Filter(q, Flat(f, s))
  {
    if s != [] {
      FlatOfFiltered(f, p, q, s[1..]);
      FilterConcat(q, f(s[0]), Flat(f, s[1..]));
      FilterAll(q, f(s[0]));
      var rest := Filter(p, s[1..]);
      if p(s[0]) {
        assert Filter(p, s) == [s[0]] + rest && ([s[0]] + rest)[1..] == rest;
        assert Filter(q, f(s[0])) == f(s[0]) by { assert forall y :: y in f(s[0]) ==> q(y); }
      } else {
        assert Filter(p, s) == [] + rest == rest;
        assert Filter(q, f(s[0])) == [] by { assert forall y :: y in f(s[0]) ==> !q(y); }
        assert [] + Filter(q, Flat(f, s[1..])) == Filter(q, Flat(f, s[1..]));
      }
    }
  }
}
