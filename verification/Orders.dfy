/** Three-way comparisons, their lexicographic extension, and sorting. */
module Orders {

  // A comparison that returns a negative number, zero or a positive number, with zero for
  // equals only.
  ghost predicate Ordering<T(!new)>(cmp: (T, T) -> int) {
    && (forall x, y :: cmp(x, y) == 0 <==> x == y)
    && (forall x, y :: cmp(x, y) == -cmp(y, x))
    && (forall x, y, z :: cmp(x, y) <= 0 && cmp(y, z) <= 0 ==> cmp(x, z) <= 0)
  }

  function CompareInts(a: int, b: int): int {
    if a < b then -1 else if a > b then 1 else 0
  }

  // The first difference decides; a proper prefix comes first.
  function Lex<T>(cmp: (T, T) -> int, a: seq<T>, b: seq<T>): int {
    if a == [] then (if b == [] then 0 else -1)
    else if b == [] then 1
    else if cmp(a[0], b[0]) != 0 then cmp(a[0], b[0])
    else Lex(cmp, a[1..], b[1..])
  }

  // At `i` the two differ for the first time, downwards.
  ghost predicate Undercuts<T>(cmp: (T, T) -> int, a: seq<T>, b: seq<T>, i: int) {
    0 <= i < |a| && i < |b| && a[..i] == b[..i] && cmp(a[i], b[i]) < 0
  }

  lemma UndercutsLater<T>(cmp: (T, T) -> int, a: seq<T>, b: seq<T>, i: int)
    requires a != [] && b != [] && a[0] == b[0] && 0 <= i
    ensures Undercuts(cmp, a, b, i + 1) <==> Undercuts(cmp, a[1..], b[1..], i)
  {
    if i < |a| - 1 && i < |b| - 1 {
      assert a[..i + 1] == [a[0]] + a[1..][..i] && b[..i + 1] == [b[0]] + b[1..][..i];
      if a[..i + 1] == b[..i + 1] { assert a[1..][..i] == a[..i + 1][1..] == b[..i + 1][1..] == b[1..][..i]; }
    }
  }

  // What the lexicographic comparison says: a proper prefix, or smaller at the first
  // difference.
  lemma {:induction false} LexExactly<T(!new)>(cmp: (T, T) -> int, a: seq<T>, b: seq<T>)
    requires Ordering(cmp)
    ensures Lex(cmp, a, b) < 0 <==> a < b || exists i :: Undercuts(cmp, a, b, i)
  {
    if a != [] && b != [] {
      if a[0] == b[0] {
        LexExactly(cmp, a[1..], b[1..]);
        PrefixAfterHead(a, b);
        if exists i :: Undercuts(cmp, a, b, i) {
          var i :| Undercuts(cmp, a, b, i);
          UndercutsLater(cmp, a, b, i - 1);
        }
        if exists i :: Undercuts(cmp, a[1..], b[1..], i) {
          var i :| Undercuts(cmp, a[1..], b[1..], i);
          UndercutsLater(cmp, a, b, i);
        }
      } else {
        if a[..0] == b[..0] { assert Undercuts(cmp, a, b, 0) <==> cmp(a[0], b[0]) < 0; }
      }
    }
  }

  lemma PrefixAfterHead<T>(a: seq<T>, b: seq<T>)
    requires a != [] && b != [] && a[0] == b[0]
    ensures a < b <==> a[1..] < b[1..]
  {
    assert a == [a[0]] + a[1..] && b == [b[0]] + b[1..];
    if a[1..] < b[1..] { assert b[1..][..|a| - 1] == a[1..] && b[..|a|] == [b[0]] + b[1..][..|a| - 1]; }
    if a < b { assert b[..|a|] == a && b[1..][..|a| - 1] == b[..|a|][1..]; }
  }

  // In a sorted list nothing stands before a smaller element.
  lemma {:induction false} SortedPairs<T>(cmp: (T, T) -> int, s: seq<T>, i: nat, j: nat)
    requires Sorted(cmp, s) && i < j < |s|
    ensures cmp(s[i], s[j]) <= 0
  {
    if i == 0 {
      assert s[j] == s[1..][j - 1];
    } else {
      SortedPairs(cmp, s[1..], i - 1, j - 1);
    }
  }

  lemma {:induction false} LexZero<T(!new)>(cmp: (T, T) -> int, a: seq<T>, b: seq<T>)
    requires Ordering(cmp)
    ensures Lex(cmp, a, b) == 0 <==> a == b
    ensures Lex(cmp, a, b) == -Lex(cmp, b, a)
  {
    if a != [] && b != [] {
      LexZero(cmp, a[1..], b[1..]);
      assert a == [a[0]] + a[1..] && b == [b[0]] + b[1..];
    }
  }

  lemma {:induction false} LexTransitive<T(!new)>(cmp: (T, T) -> int, a: seq<T>, b: seq<T>, c: seq<T>)
    requires Ordering(cmp)
    requires Lex(cmp, a, b) <= 0 && Lex(cmp, b, c) <= 0
    ensures Lex(cmp, a, c) <= 0
  {
    if a != [] && b != [] && c != [] {
      assert cmp(a[0], b[0]) <= 0 && cmp(b[0], c[0]) <= 0;
      assert cmp(a[0], c[0]) <= 0;
      if cmp(a[0], c[0]) == 0 {
        assert cmp(b[0], a[0]) <= 0;
        LexTransitive(cmp, a[1..], b[1..], c[1..]);
      }
    }
  }

  lemma LexOrdering<T(!new)>(cmp: (T, T) -> int, lex: (seq<T>, seq<T>) -> int)
    requires Ordering(cmp)
    requires forall a, b :: lex(a, b) == Lex(cmp, a, b)
    ensures Ordering(lex)
  {
    forall a, b ensures (lex(a, b) == 0 <==> a == b) && lex(a, b) == -lex(b, a) {
      LexZero(cmp, a, b);
    }
    forall a, b, c | lex(a, b) <= 0 && lex(b, c) <= 0 ensures lex(a, c) <= 0 {
      LexTransitive(cmp, a, b, c);
    }
  }

  ghost predicate Below<T>(cmp: (T, T) -> int, x: T, s: seq<T>) {
    forall y :: y in s ==> cmp(x, y) <= 0
  }

  ghost predicate Sorted<T>(cmp: (T, T) -> int, s: seq<T>) {
    s != [] ==> Below(cmp, s[0], s[1..]) && Sorted(cmp, s[1..])
  }

  lemma BelowTransitive<T(!new)>(cmp: (T, T) -> int, x: T, y: T, s: seq<T>)
    requires Ordering(cmp) && cmp(x, y) <= 0 && Below(cmp, y, s)
    ensures Below(cmp, x, [y] + s)
  {
    forall z | z in [y] + s ensures cmp(x, z) <= 0 {}
  }

  lemma Other<T(!new)>(cmp: (T, T) -> int, x: T, y: T)
    requires Ordering(cmp) && cmp(x, y) >= 0
    ensures cmp(y, x) <= 0
    ensures cmp(y, x) >= 0 ==> x == y
  {}

  function Insert<T>(cmp: (T, T) -> int, x: T, s: seq<T>): (t: seq<T>)
    ensures multiset(t) == multiset(s) + multiset{x}
  {
    if s == [] then [x]
    else if cmp(x, s[0]) <= 0 then
      assert multiset([x] + s) == multiset{x} + multiset(s);
      [x] + s
    else
      assert s == [s[0]] + s[1..];
      [s[0]] + Insert(cmp, x, s[1..])
  }

  function Sort<T>(cmp: (T, T) -> int, s: seq<T>): (t: seq<T>)
    ensures multiset(t) == multiset(s)
  {
    if s == [] then []
    else
      assert s == [s[0]] + s[1..];
      Insert(cmp, s[0], Sort(cmp, s[1..]))
  }

  lemma {:induction false} InsertSorted<T(!new)>(cmp: (T, T) -> int, x: T, s: seq<T>)
    requires Ordering(cmp) && Sorted(cmp, s)
    ensures Sorted(cmp, Insert(cmp, x, s))
  {
    if s != [] {
      var t := Insert(cmp, x, s);
      if cmp(x, s[0]) <= 0 {
        BelowTransitive(cmp, x, s[0], s[1..]);
        assert s == [s[0]] + s[1..] && t[1..] == s;
      } else {
        InsertSorted(cmp, x, s[1..]);
        var rest := Insert(cmp, x, s[1..]);
        Other(cmp, x, s[0]);
        assert t[1..] == rest;
        forall y | y in rest ensures cmp(s[0], y) <= 0 {
          assert y in multiset(rest);
        }
      }
    }
  }

  lemma {:induction false} SortSorts<T(!new)>(cmp: (T, T) -> int, s: seq<T>)
    requires Ordering(cmp)
    ensures Sorted(cmp, Sort(cmp, s))
  {
    if s != [] {
      SortSorts(cmp, s[1..]);
      InsertSorted(cmp, s[0], Sort(cmp, s[1..]));
    }
  }

  lemma SameFirst<T(!new)>(cmp: (T, T) -> int, x: T, xs: seq<T>, y: T, ys: seq<T>)
    requires Ordering(cmp) && Below(cmp, x, xs) && Below(cmp, y, ys)
    requires (x == y || x in ys) && (y == x || y in xs)
    ensures x == y
  {
    Other(cmp, y, x);
  }

  lemma TailElements<T>(s: seq<T>)
    requires s != []
    ensures multiset(s[1..]) == multiset(s) - multiset{s[0]}
    ensures forall x :: x in s ==> x == s[0] || x in s[1..]
  {
    assert s == [s[0]] + s[1..];
  }

  lemma FirstsAreThere<T>(a: seq<T>, b: seq<T>)
    requires multiset(a) == multiset(b) && a != []
    ensures |a| == |b| && b != [] && (b[0] == a[0] || b[0] in a[1..]) && (a[0] == b[0] || a[0] in b[1..])
  {
    assert |multiset(a)| == |a| && |multiset(b)| == |b|;
    assert a[0] in multiset(b) && b[0] in multiset(a);
    TailElements(a);
    TailElements(b);
  }

  lemma SameHeadAndTail<T>(a: seq<T>, b: seq<T>)
    requires a != [] && b != [] && a[0] == b[0] && a[1..] == b[1..]
    ensures a == b
  {
    assert a == [a[0]] + a[1..] && b == [b[0]] + b[1..];
  }

  // There is only one sorted arrangement.
  lemma {:induction false} SortedUnique<T(!new)>(cmp: (T, T) -> int, a: seq<T>, b: seq<T>)
    requires Ordering(cmp) && Sorted(cmp, a) && Sorted(cmp, b) && multiset(a) == multiset(b)
    ensures a == b
  {
    if a == [] {
      assert |multiset(a)| == |a| && |multiset(b)| == |b|;
    } else {
      FirstsAreThere(a, b);
      SameFirst(cmp, a[0], a[1..], b[0], b[1..]);
      TailElements(a);
      TailElements(b);
      SortedUnique(cmp, a[1..], b[1..]);
      SameHeadAndTail(a, b);
    }
  }

  // The sorted list depends on the elements only, not on their order.
  lemma SortIgnoresOrder<T(!new)>(cmp: (T, T) -> int, a: seq<T>, b: seq<T>)
    requires Ordering(cmp)
    ensures Sort(cmp, a) == Sort(cmp, b) <==> multiset(a) == multiset(b)
  {
    SortSorts(cmp, a);
    SortSorts(cmp, b);
    if multiset(a) == multiset(b) {
      SortedUnique(cmp, Sort(cmp, a), Sort(cmp, b));
    }
  }
}
