/** Python's ordering of `str` values (code point by code point, a proper prefix
    first) and the sorted list that `list.sort()` leaves behind. */
module Sorting {

  /** `a <= b` on Python strings. */
  predicate StrLe(a: string, b: string)
    decreases |a|
  {
    a == [] || (b != [] && (a[0] < b[0] || (a[0] == b[0] && StrLe(a[1..], b[1..]))))
  }

  lemma {:induction false} StrLeReflexive(a: string)
    ensures StrLe(a, a)
    decreases |a|
  {
    if a != [] {
      StrLeReflexive(a[1..]);
    }
  }

  lemma {:induction false} StrLeTotal(a: string, b: string)
    ensures StrLe(a, b) || StrLe(b, a)
    decreases |a|
  {
    if a != [] && b != [] && a[0] == b[0] {
      StrLeTotal(a[1..], b[1..]);
    }
  }

  lemma {:induction false} StrLeTransitive(a: string, b: string, c: string)
    requires StrLe(a, b) && StrLe(b, c)
    ensures StrLe(a, c)
    decreases |a|
  {
    if a != [] && b != [] && c != [] && a[0] == b[0] == c[0] {
      StrLeTransitive(a[1..], b[1..], c[1..]);
    }
  }

  lemma {:induction false} StrLeAntisymmetric(a: string, b: string)
    requires StrLe(a, b) && StrLe(b, a)
    ensures a == b
    decreases |a|
  {
    if a != [] && b != [] {
      StrLeAntisymmetric(a[1..], b[1..]);
      assert a == [a[0]] + a[1..] && b == [b[0]] + b[1..];
    }
  }

  predicate IsSorted(s: seq<string>) {
    forall i, j :: 0 <= i < j < |s| ==> StrLe(s[i], s[j])
  }

  /** Inserts `x` into a sorted sequence before the first element not below it. */
  function Insert(x: string, s: seq<string>): (r: seq<string>)
    requires IsSorted(s)
    ensures IsSorted(r)
    ensures multiset(r) == multiset(s) + multiset{x}
  {
    if s == [] then [x]
    else if StrLe(x, s[0]) then
      LeastFirst(x, s);
      [x] + s
    else
      SortedTail(s);
      var rest := Insert(x, s[1..]);
      assert s == [s[0]] + s[1..];
      InsertAfterHead(x, s, rest);
      [s[0]] + rest
  }

  /** A sorted sequence stays sorted with an element below all of it in front. */
  lemma ConsSorted(h: string, t: seq<string>)
    requires IsSorted(t)
    requires forall e :: e in multiset(t) ==> StrLe(h, e)
    ensures IsSorted([h] + t)
  {
    forall i, j | 0 <= i < j < |[h] + t| ensures StrLe(([h] + t)[i], ([h] + t)[j]) {
      assert ([h] + t)[j] == t[j - 1] && t[j - 1] in multiset(t);
      if i > 0 {
        assert ([h] + t)[i] == t[i - 1];
      }
    }
  }

  /** An element not above the head of a sorted sequence can go in front. */
  lemma LeastFirst(x: string, s: seq<string>)
    requires s != [] && IsSorted(s) && StrLe(x, s[0])
    ensures IsSorted([x] + s)
  {
    forall e | e in multiset(s) ensures StrLe(x, e) {
      SortedHeadIsLeast(s, e);
      StrLeTransitive(x, s[0], e);
    }
    ConsSorted(x, s);
  }

  /** When `x` goes after the head, the head stays in front of the rest. */
  lemma InsertAfterHead(x: string, s: seq<string>, rest: seq<string>)
    requires s != [] && IsSorted(s) && !StrLe(x, s[0])
    requires IsSorted(rest) && multiset(rest) == multiset(s[1..]) + multiset{x}
    ensures IsSorted([s[0]] + rest)
  {
    StrLeTotal(x, s[0]);
    MultisetOfTail(s);
    forall e | e in multiset(rest) ensures StrLe(s[0], e) {
      if e != x {
        assert e in multiset(s[1..]);
      } else {
        assert e == x;
      }
      assert e in multiset(s) || e == x;
      if e in multiset(s) {
        SortedHeadIsLeast(s, e);
      }
    }
    ConsSorted(s[0], rest);
  }

  /** `sorted(s)`: the ascending permutation of `s`. */
  function Sort(s: seq<string>): (r: seq<string>)
    ensures IsSorted(r)
    ensures multiset(r) == multiset(s)
  {
    if s == [] then []
    else
      assert s == [s[0]] + s[1..];
      Insert(s[0], Sort(s[1..]))
  }

  /** The head of a sorted sequence is below each of its elements. */
  lemma SortedHeadIsLeast(s: seq<string>, x: string)
    requires IsSorted(s) && x in multiset(s)
    ensures StrLe(s[0], x)
  {
    var i :| 0 <= i < |s| && s[i] == x;
    if i == 0 { StrLeReflexive(x); }
  }

  lemma MultisetOfTail(s: seq<string>)
    requires s != []
    ensures multiset(s[1..]) == multiset(s) - multiset{s[0]}
  {
    assert s == [s[0]] + s[1..];
  }

  lemma SortedTail(s: seq<string>)
    requires s != [] && IsSorted(s)
    ensures IsSorted(s[1..])
  {
    forall i, j | 0 <= i < j < |s[1..]| ensures StrLe(s[1..][i], s[1..][j]) {
      assert s[1..][i] == s[i + 1] && s[1..][j] == s[j + 1];
    }
  }

  /** Two sorted permutations of each other start with the same element. */
  lemma SameHead(a: seq<string>, b: seq<string>)
    requires a != [] && IsSorted(a) && IsSorted(b) && multiset(a) == multiset(b)
    ensures b != [] && a[0] == b[0]
  {
    assert a[0] in multiset(b);
    assert b[0] in multiset(a);
    SortedHeadIsLeast(b, a[0]);
    SortedHeadIsLeast(a, b[0]);
    StrLeAntisymmetric(a[0], b[0]);
  }

  lemma SameTailMultiset(a: seq<string>, b: seq<string>)
    requires a != [] && b != [] && a[0] == b[0] && multiset(a) == multiset(b)
    ensures multiset(a[1..]) == multiset(b[1..])
  {
    MultisetOfTail(a);
    MultisetOfTail(b);
  }

  /** There is only one sorted permutation, so `Sort` is exactly what Python's
      (stable) sort produces. */
  lemma {:induction false} SortedPermutationUnique(a: seq<string>, b: seq<string>)
    requires IsSorted(a) && IsSorted(b)
    requires multiset(a) == multiset(b)
    ensures a == b
    decreases |a|
  {
    if a == [] {
      assert |b| == |multiset(b)| == 0;
    } else {
      SameHead(a, b);
      SameTailMultiset(a, b);
      SortedTail(a);
      SortedTail(b);
      SortedPermutationUnique(a[1..], b[1..]);
      assert a == [a[0]] + a[1..];
      assert b == [b[0]] + b[1..];
    }
  }
}
