/**
 Sorting and deduplication by a key, as a stable library sort performs them: elements with
 equal keys keep their order, and of neighbours with equal keys the first stays.
 */
module KeyedSort {
  import opened Orders

  function By<T, K>(cmp: (K, K) -> int, key: T -> K): (T, T) -> int {
    (x: T, y: T) => cmp(key(x), key(y))
  }

  // The elements with one key, in order.
  function Class<T(!new), K(==)>(key: T -> K, k: K, s: seq<T>): (c: seq<T>)
    ensures forall x :: x in c <==> x in s && key(x) == k
  {
    if s == [] then [] else (if key(s[0]) == k then [s[0]] else []) + Class(key, k, s[1..])
  }

  ghost predicate SortedBy<T, K>(cmp: (K, K) -> int, key: T -> K, s: seq<T>) {
    s != [] ==> (forall y :: y in s[1..] ==> cmp(key(s[0]), key(y)) <= 0) && SortedBy(cmp, key, s[1..])
  }

  lemma ClassFirst<T(!new), K>(key: T -> K, k: K, x: T, s: seq<T>)
    ensures Class(key, k, [x] + s) == (if key(x) == k then [x] else []) + Class(key, k, s)
  {
    assert ([x] + s)[1..] == s;
  }

  lemma {:induction false} ClassConcat<T(!new), K>(key: T -> K, k: K, a: seq<T>, b: seq<T>)
    ensures Class(key, k, a + b) == Class(key, k, a) + Class(key, k, b)
  {
    if a == [] {
      assert a + b == b;
    } else {
      assert a + b == [a[0]] + (a[1..] + b) && a == [a[0]] + a[1..];
      ClassFirst(key, k, a[0], a[1..] + b);
      ClassConcat(key, k, a[1..], b);
    }
  }

  // ---------- Sorting is stable ----------

  lemma InsertElements<T>(cmp: (T, T) -> int, x: T, s: seq<T>)
    ensures forall y :: y in Insert(cmp, x, s) <==> y == x || y in s
  {
    var t := Insert(cmp, x, s);
    assert forall y :: y in t <==> y in multiset(t);
    assert forall y :: y in s <==> y in multiset(s);
  }

  lemma SwappedHeads<T(!new), K(!new)>(key: T -> K, k: K, x: T, y: T, s: seq<T>)
    requires key(x) != key(y)
    ensures Class(key, k, [x] + ([y] + s)) == Class(key, k, [y] + ([x] + s))
  {
    ClassFirst(key, k, x, [y] + s);
    ClassFirst(key, k, y, [x] + s);
    ClassFirst(key, k, y, s);
    ClassFirst(key, k, x, s);
    var c := Class(key, k, s);
    if key(x) == k {
      assert [] + c == c && [] + ([x] + c) == [x] + c;
    } else if key(y) == k {
      assert [] + c == c && [] + ([y] + c) == [y] + c;
    }
  }

  lemma {:induction false} InsertKeepsClass<T(!new), K(!new)>(cmp: (K, K) -> int, key: T -> K, k: K, x: T, s: seq<T>)
    requires Ordering(cmp)
    ensures Class(key, k, Insert(By(cmp, key), x, s)) == Class(key, k, [x] + s)
  {
    if s != [] && By(cmp, key)(x, s[0]) > 0 {
      var rest := s[1..];
      var inserted := Insert(By(cmp, key), x, rest);
      InsertKeepsClass(cmp, key, k, x, rest);
      ClassFirst(key, k, s[0], inserted);
      ClassFirst(key, k, s[0], [x] + rest);
      SwappedHeads(key, k, x, s[0], rest);
      assert s == [s[0]] + rest;
    }
  }

  lemma {:induction false} SortKeepsClass<T(!new), K(!new)>(cmp: (K, K) -> int, key: T -> K, k: K, s: seq<T>)
    requires Ordering(cmp)
    ensures Class(key, k, Sort(By(cmp, key), s)) == Class(key, k, s)
  {
    if s != [] {
      var sorted := Sort(By(cmp, key), s[1..]);
      SortKeepsClass(cmp, key, k, s[1..]);
      InsertKeepsClass(cmp, key, k, s[0], sorted);
      ClassFirst(key, k, s[0], sorted);
      ClassFirst(key, k, s[0], s[1..]);
      assert s == [s[0]] + s[1..];
    }
  }

  lemma {:induction false} InsertSortedBy<T(!new), K(!new)>(cmp: (K, K) -> int, key: T -> K, x: T, s: seq<T>)
    requires Ordering(cmp) && SortedBy(cmp, key, s)
    ensures SortedBy(cmp, key, Insert(By(cmp, key), x, s))
  {
    if s != [] {
      var rest := s[1..];
      if By(cmp, key)(x, s[0]) <= 0 {
        assert ([x] + s)[1..] == s && s == [s[0]] + rest;
        forall y | y in s ensures cmp(key(x), key(y)) <= 0 {
          assert y == s[0] || y in rest;
        }
      } else {
        InsertSortedBy(cmp, key, x, rest);
        var inserted := Insert(By(cmp, key), x, rest);
        InsertElements(By(cmp, key), x, rest);
        assert cmp(key(s[0]), key(x)) <= 0;
        assert ([s[0]] + inserted)[1..] == inserted;
      }
    }
  }

  lemma {:induction false} SortSortsBy<T(!new), K(!new)>(cmp: (K, K) -> int, key: T -> K, s: seq<T>)
    requires Ordering(cmp)
    ensures SortedBy(cmp, key, Sort(By(cmp, key), s))
  {
    if s != [] {
      SortSortsBy(cmp, key, s[1..]);
      InsertSortedBy(cmp, key, s[0], Sort(By(cmp, key), s[1..]));
    }
  }

  // ---------- A sorted list is known by its classes ----------

  lemma HeadIsInClass<T(!new), K>(key: T -> K, s: seq<T>)
    requires s != []
    ensures Class(key, key(s[0]), s) != []
  {}

  lemma NoClasses<T(!new), K(!new)>(key: T -> K, s: seq<T>)
    requires forall k :: |Class(key, k, s)| == 0
    ensures s == []
  {
    if s != [] { HeadIsInClass(key, s); }
  }

  lemma HeadIsLeast<T(!new), K(!new)>(cmp: (K, K) -> int, key: T -> K, k: K, s: seq<T>)
    requires Ordering(cmp) && SortedBy(cmp, key, s) && Class(key, k, s) != []
    ensures s != [] && cmp(key(s[0]), k) <= 0
  {
    var x := Class(key, k, s)[0];
    assert x in Class(key, k, s);
    assert x == s[0] || x in s[1..];
  }

  lemma SameHeadKey<T(!new), K(!new)>(cmp: (K, K) -> int, key: T -> K, a: seq<T>, b: seq<T>)
    requires Ordering(cmp) && SortedBy(cmp, key, a) && SortedBy(cmp, key, b) && a != [] && b != []
    requires forall k :: |Class(key, k, a)| == |Class(key, k, b)|
    ensures key(a[0]) == key(b[0])
  {
    HeadIsInClass(key, a);
    HeadIsInClass(key, b);
    HeadIsLeast(cmp, key, key(a[0]), b);
    HeadIsLeast(cmp, key, key(b[0]), a);
  }

  lemma ClassesOfTails<T(!new), K>(key: T -> K, k: K, a: seq<T>, b: seq<T>)
    requires a != [] && b != [] && key(a[0]) == key(b[0])
    ensures |Class(key, k, a)| == |Class(key, k, b)| ==> |Class(key, k, a[1..])| == |Class(key, k, b[1..])|
    ensures Class(key, k, a) == Class(key, k, b) ==>
              Class(key, k, a[1..]) == Class(key, k, b[1..]) && (key(a[0]) == k ==> a[0] == b[0])
  {
    var ca, cb := Class(key, k, a[1..]), Class(key, k, b[1..]);
    if key(a[0]) == k {
      assert ([a[0]] + ca)[1..] == ca && ([b[0]] + cb)[1..] == cb;
      assert Class(key, k, a) == [a[0]] + ca && Class(key, k, b) == [b[0]] + cb;
    } else {
      assert [] + ca == ca && [] + cb == cb;
    }
  }

  // As many elements of each key: the same keys, place by place.
  lemma {:induction false} KeysByClassSizes<T(!new), K(!new)>(cmp: (K, K) -> int, key: T -> K, a: seq<T>, b: seq<T>)
    requires Ordering(cmp) && SortedBy(cmp, key, a) && SortedBy(cmp, key, b)
    requires forall k :: |Class(key, k, a)| == |Class(key, k, b)|
    ensures |a| == |b| && forall i :: 0 <= i < |a| ==> key(a[i]) == key(b[i])
    decreases |a|
  {
    if a == [] {
      assert forall k :: |Class(key, k, a)| == 0;
      NoClasses(key, b);
    } else if b == [] {
      assert forall k :: |Class(key, k, b)| == 0;
      NoClasses(key, a);
    } else {
      SameHeadKey(cmp, key, a, b);
      forall k ensures |Class(key, k, a[1..])| == |Class(key, k, b[1..])| {
        ClassesOfTails(key, k, a, b);
      }
      KeysByClassSizes(cmp, key, a[1..], b[1..]);
      assert forall i :: 0 < i < |a| ==> a[i] == a[1..][i - 1] && b[i] == b[1..][i - 1];
    }
  }

  // The same classes: the same list.
  lemma {:induction false} SortedByClasses<T(!new), K(!new)>(cmp: (K, K) -> int, key: T -> K, a: seq<T>, b: seq<T>)
    requires Ordering(cmp) && SortedBy(cmp, key, a) && SortedBy(cmp, key, b)
    requires forall k :: Class(key, k, a) == Class(key, k, b)
    ensures a == b
    decreases |a|
  {
    KeysByClassSizes(cmp, key, a, b);
    if a != [] {
      ClassesOfTails(key, key(a[0]), a, b);
      forall k ensures Class(key, k, a[1..]) == Class(key, k, b[1..]) {
        ClassesOfTails(key, k, a, b);
      }
      SortedByClasses(cmp, key, a[1..], b[1..]);
      assert a == [a[0]] + a[1..] && b == [b[0]] + b[1..];
    }
  }

  // ---------- Deduplication ----------

  function SkipSame<T(!new), K(==)>(key: T -> K, k: K, s: seq<T>): (t: seq<T>)
    ensures |t| <= |s| && t == s[|s| - |t|..]
    ensures t != [] ==> key(t[0]) != k
  {
    if s != [] && key(s[0]) == k then SkipSame(key, k, s[1..]) else s
  }

  // Of neighbours with equal keys the first stays.
  function Dedup<T(!new), K(==)>(key: T -> K, s: seq<T>): seq<T>
    decreases |s|
  {
    if s == [] then [] else [s[0]] + Dedup(key, SkipSame(key, key(s[0]), s[1..]))
  }

  function FirstOf<T>(s: seq<T>): seq<T> {
    if s == [] then [] else [s[0]]
  }

  lemma {:induction false} SkippedClass<T(!new), K>(key: T -> K, skipped: K, k: K, s: seq<T>)
    requires k != skipped
    ensures Class(key, k, SkipSame(key, skipped, s)) == Class(key, k, s)
  {
    if s != [] && key(s[0]) == skipped {
      SkippedClass(key, skipped, k, s[1..]);
    }
  }

  lemma {:induction false} SkippedIsSorted<T(!new), K>(cmp: (K, K) -> int, key: T -> K, k: K, s: seq<T>)
    requires SortedBy(cmp, key, s)
    ensures SortedBy(cmp, key, SkipSame(key, k, s))
    ensures forall x :: x in SkipSame(key, k, s) ==> x in s
  {
    if s != [] && key(s[0]) == k { SkippedIsSorted(cmp, key, k, s[1..]); }
  }

  lemma SkippedKeyIsGone<T(!new), K(!new)>(cmp: (K, K) -> int, key: T -> K, k: K, s: seq<T>)
    requires Ordering(cmp) && SortedBy(cmp, key, s) && forall x :: x in s ==> cmp(k, key(x)) <= 0
    ensures Class(key, k, SkipSame(key, k, s)) == []
  {
    var t := SkipSame(key, k, s);
    SkippedIsSorted(cmp, key, k, s);
    forall x | x in t ensures key(x) != k {
      assert t[0] in s && (x == t[0] || x in t[1..]);
    }
    NoElements(Class(key, k, t));
  }

  lemma NoElements<T(!new)>(s: seq<T>)
    requires forall x :: x !in s
    ensures s == []
  {
    if s != [] { var x := Head(s); }
  }

  lemma Head<T(!new)>(s: seq<T>) returns (x: T)
    requires s != []
    ensures x in s
  {
    x := s[0];
  }

  lemma {:induction false} DedupClass<T(!new), K(!new)>(cmp: (K, K) -> int, key: T -> K, k: K, s: seq<T>)
    requires Ordering(cmp) && SortedBy(cmp, key, s)
    ensures Class(key, k, Dedup(key, s)) == FirstOf(Class(key, k, s))
    decreases |s|
  {
    if s != [] {
      var k0, rest := key(s[0]), s[1..];
      var skipped := SkipSame(key, k0, rest);
      SkippedIsSorted(cmp, key, k0, rest);
      DedupClass(cmp, key, k, skipped);
      ClassFirst(key, k, s[0], Dedup(key, skipped));
      if k == k0 {
        SkippedKeyIsGone(cmp, key, k0, rest);
      } else {
        SkippedClass(key, k0, k, rest);
      }
    }
  }

  // ---------- Arrangements ----------

  // Two elements with one key are the same element.
  ghost predicate OneOfEach<T(!new), K>(key: T -> K, s: seq<T>) {
    forall x, y :: x in s && y in s && key(x) == key(y) ==> x == y
  }

  lemma {:induction false} ClassMultiset<T(!new), K>(key: T -> K, k: K, s: seq<T>, x: T)
    ensures multiset(Class(key, k, s))[x] == if key(x) == k then multiset(s)[x] else 0
  {
    if s != [] {
      ClassMultiset(key, k, s[1..], x);
      assert s == [s[0]] + s[1..];
    }
  }

  lemma ClassSize<T(!new), K>(key: T -> K, k: K, a: seq<T>, b: seq<T>)
    requires multiset(a) == multiset(b)
    ensures |Class(key, k, a)| == |Class(key, k, b)|
  {
    var ca, cb := Class(key, k, a), Class(key, k, b);
    forall x ensures multiset(ca)[x] == multiset(cb)[x] {
      ClassMultiset(key, k, a, x);
      ClassMultiset(key, k, b, x);
    }
    assert multiset(ca) == multiset(cb);
    assert |ca| == |multiset(ca)| && |cb| == |multiset(cb)|;
  }

  // With one element of each key the classes do not depend on the arrangement.
  lemma ClassOfArrangement<T(!new), K>(key: T -> K, k: K, a: seq<T>, b: seq<T>)
    requires multiset(a) == multiset(b) && OneOfEach(key, a)
    ensures Class(key, k, a) == Class(key, k, b)
  {
    ClassSize(key, k, a, b);
    var ca, cb := Class(key, k, a), Class(key, k, b);
    forall i | 0 <= i < |ca| ensures ca[i] == cb[i] {
      assert ca[i] in ca && cb[i] in cb;
      assert cb[i] in multiset(b);
    }
  }

  lemma MovedToFront<T>(s: seq<T>, x: T) returns (t: seq<T>)
    requires x in s
    ensures multiset(t) == multiset(s) && t != [] && t[0] == x
  {
    var i :| 0 <= i < |s| && s[i] == x;
    t := [x] + (s[..i] + s[i + 1..]);
    assert s == s[..i] + [x] + s[i + 1..];
  }
}
