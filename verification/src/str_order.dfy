/** Python's ordering of strings (code point by code point, a proper
    prefix first) and the stable `sorted(xs, key=...)` by a string key. */
module StrOrder {

  /** Python's `a < b` on strings. */
  predicate Less(a: string, b: string)
    decreases |a|
  {
    if |a| == 0 then |b| > 0
    else |b| > 0 && (a[0] < b[0] || (a[0] == b[0] && Less(a[1..], b[1..])))
  }

  /** Python's `a <= b` on strings. */
  predicate LessEq(a: string, b: string) {
    !Less(b, a)
  }

  lemma {:induction false} LessIrreflexive(a: string)
    ensures !Less(a, a)
    decreases |a|
  {
    if |a| > 0 {
      LessIrreflexive(a[1..]);
    }
  }

  lemma {:induction false} LessTransitive(a: string, b: string, c: string)
    requires Less(a, b) && Less(b, c)
    ensures Less(a, c)
    decreases |a|
  {
    if |a| > 0 && a[0] == b[0] && b[0] == c[0] {
      LessTransitive(a[1..], b[1..], c[1..]);
    }
  }

  /** Two different strings are ordered one way or the other. */
  lemma {:induction false} LessTotal(a: string, b: string)
    ensures a == b || Less(a, b) || Less(b, a)
    decreases |a|
  {
    if |a| > 0 && |b| > 0 && a[0] == b[0] {
      LessTotal(a[1..], b[1..]);
      if a[1..] == b[1..] {
        assert a == [a[0]] + a[1..] && b == [b[0]] + b[1..];
      }
    }
  }

  /** `a < b <= c` gives `a <= c`. */
  lemma LessBeforeLessEq(a: string, b: string, c: string)
    requires Less(a, b) && LessEq(b, c)
    ensures LessEq(a, c)
  {
    if Less(c, a) {
      LessTransitive(c, a, b);
      LessTotal(b, c);
      if b != c {
        LessTransitive(b, c, b);
      }
      LessIrreflexive(b);
    }
  }

  /** `key` never decreases along `xs`. */
  predicate SortedBy<T>(xs: seq<T>, key: T -> string) {
    forall i, j :: 0 <= i < j < |xs| ==> LessEq(key(xs[i]), key(xs[j]))
  }

  /** Inserts `x` after every leading item whose key is not larger than
      its own. */
  function InsertBy<T>(x: T, xs: seq<T>, key: T -> string): (r: seq<T>)
    ensures multiset(r) == multiset(xs) + multiset{x}
  {
    if |xs| == 0 then [x]
    else if Less(key(x), key(xs[0])) then [x] + xs
    else
      assert xs == [xs[0]] + xs[1..];
      [xs[0]] + InsertBy(x, xs[1..], key)
  }

  /** Every key in `xs` is at least `k`. */
  predicate AllAtLeast<T>(k: string, xs: seq<T>, key: T -> string) {
    forall i :: 0 <= i < |xs| ==> LessEq(k, key(xs[i]))
  }

  lemma {:induction false} InsertByAtLeast<T>(k: string, x: T, xs: seq<T>, key: T -> string)
    requires LessEq(k, key(x)) && AllAtLeast(k, xs, key)
    ensures AllAtLeast(k, InsertBy(x, xs, key), key)
  {
    if |xs| > 0 && !Less(key(x), key(xs[0])) {
      InsertByAtLeast(k, x, xs[1..], key);
    }
  }

  /** A sorted list with an item in front that is not larger than its head
      is sorted. */
  lemma ConsSorted<T>(y: T, xs: seq<T>, key: T -> string)
    requires SortedBy(xs, key) && AllAtLeast(key(y), xs, key)
    ensures SortedBy([y] + xs, key)
  {
  }

  /** Insertion keeps a list sorted. */
  lemma {:induction false} InsertBySorted<T>(x: T, xs: seq<T>, key: T -> string)
    requires SortedBy(xs, key)
    ensures SortedBy(InsertBy(x, xs, key), key)
  {
    if |xs| == 0 {
    } else if Less(key(x), key(xs[0])) {
      forall i | 0 <= i < |xs| ensures LessEq(key(x), key(xs[i])) {
        LessIrreflexive(key(xs[0]));
        LessBeforeLessEq(key(x), key(xs[0]), key(xs[i]));
      }
      ConsSorted(x, xs, key);
    } else {
      assert SortedBy(xs[1..], key);
      InsertBySorted(x, xs[1..], key);
      InsertByAtLeast(key(xs[0]), x, xs[1..], key);
      ConsSorted(xs[0], InsertBy(x, xs[1..], key), key);
    }
  }

  /** Python's stable `sorted(xs, key=key)`. */
  function SortBy<T>(xs: seq<T>, key: T -> string): (r: seq<T>)
    ensures SortedBy(r, key)
    ensures multiset(r) == multiset(xs)
  {
    if |xs| == 0 then []
    else
      assert xs == xs[..|xs| - 1] + [xs[|xs| - 1]];
      var sorted := SortBy(xs[..|xs| - 1], key);
      InsertBySorted(xs[|xs| - 1], sorted, key);
      InsertBy(xs[|xs| - 1], sorted, key)
  }

  /** Sorting keeps exactly the items it was given. */
  lemma SortByMembers<T>(xs: seq<T>, key: T -> string)
    ensures forall x :: x in SortBy(xs, key) <==> x in xs
  {
    var r := SortBy(xs, key);
    assert forall x :: x in r <==> x in multiset(r);
    assert forall x :: x in xs <==> x in multiset(xs);
  }
}
