/** Python list idioms over `seq`: negative-index slicing, filtering,
    occurrence counting and insertion-ordered frequency dictionaries. */
module Seqs {
  import opened Wrappers
  import opened Dicts

  /** Python's `random.choice(xs)` driven by an injected draw: raises
      `IndexError` on an empty list, otherwise returns a member. */
  function Pick<T>(xs: seq<T>, draw: nat): (r: Result<T>)
    ensures r.Raise? <==> |xs| == 0
    ensures r.Raise? ==> r.exc == IndexError
    ensures r.Ok? ==> r.value in xs
  {
    if |xs| == 0 then Raise(IndexError) else Ok(xs[draw % |xs|])
  }

  /** One `random.choice` from every group, in group order. */
  function OneEach<T>(groups: seq<seq<T>>, draws: seq<nat>): (r: seq<T>)
    requires forall i :: 0 <= i < |groups| ==> |groups[i]| > 0
    ensures |r| == |groups|
    ensures forall i :: 0 <= i < |groups| ==> r[i] in groups[i]
  {
    if |groups| == 0 then []
    else
      var d := if |draws| > 0 then draws[0] else 0;
      [groups[0][d % |groups[0]|]] + OneEach(groups[1..], if |draws| > 0 then draws[1..] else [])
  }

  /** Every member of a list is the outcome of some draw. */
  lemma PickCovers<T>(xs: seq<T>, i: nat)
    requires i < |xs|
    ensures Pick(xs, i) == Ok(xs[i])
  {
    assert i % |xs| == i;
  }

  predicate Distinct<T(==)>(xs: seq<T>) {
    forall i, j :: 0 <= i < j < |xs| ==> xs[i] != xs[j]
  }

  /** `x` and `y` are items of `xs` at or after position `k`, `x` at an
      earlier position than `y`. */
  ghost predicate Before<T>(x: T, y: T, xs: seq<T>, k: nat) {
    exists a, b :: k <= a < b < |xs| && x == xs[a] && y == xs[b]
  }

  /** Every two items of `r` come from `xs` at or after position `k`, in
      the order of `xs`. */
  ghost predicate InOrderFrom<T>(r: seq<T>, xs: seq<T>, k: nat) {
    forall i, j :: 0 <= i < j < |r| ==> Before(r[i], r[j], xs, k)
  }

  /** The numbers from `k` up to `n` at which `on` holds, ascending. */
  function Chosen(on: nat -> bool, k: nat, n: nat): (ix: seq<nat>)
    requires k <= n
    ensures forall i :: 0 <= i < |ix| ==> k <= ix[i] < n && on(ix[i])
    ensures forall j :: k <= j < n && on(j) ==> j in ix
    ensures forall i, j :: 0 <= i < j < |ix| ==> ix[i] < ix[j]
    ensures |ix| <= n - k
    decreases n - k
  {
    if k == n then []
    else
      var rest := Chosen(on, k + 1, n);
      if on(k) then
        var ix := [k] + rest;
        assert forall i :: 0 < i < |ix| ==> ix[i] == rest[i - 1];
        ix
      else rest
  }

  /** The items `xs[j]` for `j` from `k` on at which `on` holds, in the
      order of `xs`. */
  function Select<T>(xs: seq<T>, on: nat -> bool, k: nat): (r: seq<T>)
    requires k <= |xs|
    ensures forall j :: k <= j < |xs| && on(j) ==> xs[j] in r
    ensures forall m :: m in r ==> exists j :: k <= j < |xs| && on(j) && m == xs[j]
    ensures InOrderFrom(r, xs, k)
    ensures |r| <= |xs| - k
    ensures |r| == |Chosen(on, k, |xs|)| && forall i :: 0 <= i < |r| ==> r[i] == xs[Chosen(on, k, |xs|)[i]]
  {
    var ix := Chosen(on, k, |xs|);
    var r := seq(|ix|, i requires 0 <= i < |ix| => xs[ix[i]]);
    SelectedAll(xs, on, k, ix, r);
    SelectedOnly(xs, on, k, ix, r);
    SelectedInOrder(xs, k, ix, r);
    r
  }

  /** Selecting from `k` on is item `k` when it is picked, then the
      selection from `k + 1` on. */
  lemma SelectStep<T>(xs: seq<T>, on: nat -> bool, k: nat)
    requires k < |xs|
    ensures Select(xs, on, k) == (if on(k) then [xs[k]] else []) + Select(xs, on, k + 1)
  {
    var ix := Chosen(on, k, |xs|);
    var rest := Chosen(on, k + 1, |xs|);
    var r := Select(xs, on, k);
    var s := Select(xs, on, k + 1);
    if on(k) {
      assert ix == [k] + rest;
      forall i | 0 <= i < |r| ensures r[i] == ([xs[k]] + s)[i] {
        if i > 0 {
          assert ix[i] == rest[i - 1];
        }
      }
    } else {
      assert ix == rest;
    }
  }

  /** Selecting from a list without repeats: an item is selected exactly
      when its position is picked, and none is selected twice. */
  lemma SelectDistinct<T>(xs: seq<T>, on: nat -> bool, k: nat)
    requires k <= |xs| && Distinct(xs)
    ensures forall j :: k <= j < |xs| ==> (xs[j] in Select(xs, on, k) <==> on(j))
    ensures Distinct(Select(xs, on, k))
  {
    var r := Select(xs, on, k);
    var ix := Chosen(on, k, |xs|);
    forall j | k <= j < |xs| && xs[j] in r ensures on(j) {
      var i :| 0 <= i < |r| && r[i] == xs[j];
      assert k <= ix[i] < |xs| && on(ix[i]) && xs[ix[i]] == xs[j];
      assert ix[i] == j;
    }
    forall a, b | 0 <= a < b < |r| ensures r[a] != r[b] {
      assert ix[a] < ix[b];
    }
  }

  lemma SelectedAll<T>(xs: seq<T>, on: nat -> bool, k: nat, ix: seq<nat>, r: seq<T>)
    requires k <= |xs| && ix == Chosen(on, k, |xs|)
    requires |r| == |ix| && forall i :: 0 <= i < |ix| ==> r[i] == xs[ix[i]]
    ensures forall j :: k <= j < |xs| && on(j) ==> xs[j] in r
  {
    forall j | k <= j < |xs| && on(j) ensures xs[j] in r {
      var i :| 0 <= i < |ix| && ix[i] == j;
      assert r[i] == xs[j];
    }
  }

  lemma SelectedOnly<T>(xs: seq<T>, on: nat -> bool, k: nat, ix: seq<nat>, r: seq<T>)
    requires k <= |xs| && ix == Chosen(on, k, |xs|)
    requires |r| == |ix| && forall i :: 0 <= i < |ix| ==> r[i] == xs[ix[i]]
    ensures forall m :: m in r ==> exists j :: k <= j < |xs| && on(j) && m == xs[j]
  {
    forall m | m in r ensures exists j :: k <= j < |xs| && on(j) && m == xs[j] {
      var i :| 0 <= i < |r| && r[i] == m;
      assert on(ix[i]);
    }
  }

  lemma SelectedInOrder<T>(xs: seq<T>, k: nat, ix: seq<nat>, r: seq<T>)
    requires forall i :: 0 <= i < |ix| ==> k <= ix[i] < |xs|
    requires forall i, j :: 0 <= i < j < |ix| ==> ix[i] < ix[j]
    requires |r| == |ix| && forall i :: 0 <= i < |ix| ==> r[i] == xs[ix[i]]
    ensures InOrderFrom(r, xs, k)
  {
    forall i, j | 0 <= i < j < |r| ensures Before(r[i], r[j], xs, k) {
      var a, b := ix[i], ix[j];
      assert k <= a < b < |xs| && r[i] == xs[a] && r[j] == xs[b];
    }
  }

  /** `xs` without its `i`-th item. */
  function RemoveAt<T>(xs: seq<T>, i: nat): (r: seq<T>)
    requires i < |xs|
    ensures |r| == |xs| - 1
    ensures forall x :: x in r ==> x in xs
  {
    xs[..i] + xs[i + 1..]
  }

  /** Removing the `i`-th item removes exactly one occurrence of it. */
  lemma RemoveAtMultiset<T>(xs: seq<T>, i: nat)
    requires i < |xs|
    ensures multiset(RemoveAt(xs, i)) == multiset(xs) - multiset{xs[i]}
    ensures multiset(xs) == multiset(RemoveAt(xs, i)) + multiset{xs[i]}
  {
    assert xs == xs[..i] + [xs[i]] + xs[i + 1..];
  }

  /** Python's `random.sample(pop, k)` driven by injected draws: raises
      `ValueError` unless `0 <= k <= len(pop)`, otherwise picks `k` items
      without replacement. */
  function Sample<T>(pop: seq<T>, k: int, draws: seq<nat>): (r: Result<seq<T>>)
    ensures r.Ok? <==> 0 <= k <= |pop|
    ensures r.Raise? ==> r.exc == ValueError
    ensures r.Ok? ==> |r.value| == k
    ensures r.Ok? ==> forall x :: x in r.value ==> x in pop
  {
    if k < 0 || k > |pop| then Raise(ValueError) else Ok(Picks(pop, k, draws))
  }

  /** The `k` picks of a valid sample: each draw, taken modulo the size of
      what is left, picks and removes one item. */
  function Picks<T>(pop: seq<T>, k: nat, draws: seq<nat>): (r: seq<T>)
    requires k <= |pop|
    ensures |r| == k
    ensures forall x :: x in r ==> x in pop
  {
    if k == 0 then []
    else
      var i := (if |draws| > 0 then draws[0] else 0) % |pop|;
      [pop[i]] + Picks(RemoveAt(pop, i), k - 1, if |draws| > 0 then draws[1..] else [])
  }

  /** A sample never repeats an item more often than the population does. */
  lemma SampleSubMultiset<T>(pop: seq<T>, k: int, draws: seq<nat>)
    requires 0 <= k <= |pop|
    ensures multiset(Sample(pop, k, draws).value) <= multiset(pop)
  {
    PicksSubMultiset(pop, k, draws);
  }

  lemma {:induction false} PicksSubMultiset<T>(pop: seq<T>, k: nat, draws: seq<nat>)
    requires k <= |pop|
    ensures multiset(Picks(pop, k, draws)) <= multiset(pop)
  {
    if k > 0 {
      var i := (if |draws| > 0 then draws[0] else 0) % |pop|;
      var rest := RemoveAt(pop, i);
      var more := if |draws| > 0 then draws[1..] else [];
      PicksSubMultiset(rest, k - 1, more);
      ConsSubMultiset(pop, i, Picks(rest, k - 1, more));
    }
  }

  /** Putting back the item taken out keeps a sub-multiset a sub-multiset. */
  lemma ConsSubMultiset<T>(pop: seq<T>, i: nat, sub: seq<T>)
    requires i < |pop| && multiset(sub) <= multiset(RemoveAt(pop, i))
    ensures multiset([pop[i]] + sub) <= multiset(pop)
  {
    RemoveAtMultiset(pop, i);
    assert multiset([pop[i]] + sub) == multiset{pop[i]} + multiset(sub);
  }

  /** Python's `[x for x in xs if keep(x)]`. */
  function Filter<T(!new)>(xs: seq<T>, keep: T -> bool): (r: seq<T>)
    ensures |r| <= |xs|
    ensures forall x :: x in r <==> x in xs && keep(x)
  {
    if |xs| == 0 then []
    else (if keep(xs[0]) then [xs[0]] else []) + Filter(xs[1..], keep)
  }

  /** Filtering keeps everything when everything passes. */
  lemma {:induction false} FilterAll<T(!new)>(xs: seq<T>, keep: T -> bool)
    requires forall x :: x in xs ==> keep(x)
    ensures Filter(xs, keep) == xs
  {
    if |xs| > 0 {
      assert forall x :: x in xs[1..] ==> x in xs;
      FilterAll(xs[1..], keep);
      assert xs == [xs[0]] + xs[1..];
    }
  }

  /** Filtering distributes over concatenation. */
  lemma {:induction false} FilterConcat<T(!new)>(xs: seq<T>, ys: seq<T>, keep: T -> bool)
    ensures Filter(xs + ys, keep) == Filter(xs, keep) + Filter(ys, keep)
  {
    if |xs| > 0 {
      assert (xs + ys)[1..] == xs[1..] + ys;
      FilterConcat(xs[1..], ys, keep);
    } else {
      assert xs + ys == ys;
    }
  }

  /** A subset is no larger than its superset. */
  lemma {:induction false} SubsetCard<T>(a: set<T>, b: set<T>)
    requires a <= b
    ensures |a| <= |b|
  {
    if a != {} {
      var x :| x in a;
      SubsetCard(a - {x}, b - {x});
    }
  }

  /** In a list without duplicates every item occurs at most once. */
  lemma {:induction false} DistinctMultiset<T>(xs: seq<T>, x: T)
    requires Distinct(xs)
    ensures multiset(xs)[x] <= 1
  {
    if |xs| > 0 {
      assert xs == [xs[0]] + xs[1..];
      assert Distinct(xs[1..]);
      DistinctMultiset(xs[1..], x);
      if xs[0] == x {
        assert x !in xs[1..];
      }
    }
  }

  /** A sub-multiset of a list without duplicates has no duplicates: a sample
      of distinct items is distinct. */
  lemma SubMultisetDistinct<T>(r: seq<T>, pop: seq<T>)
    requires Distinct(pop)
    requires multiset(r) <= multiset(pop)
    ensures Distinct(r)
  {
    forall i, j | 0 <= i < j < |r|
      ensures r[i] != r[j]
    {
      if r[i] == r[j] {
        var x := r[i];
        assert r == r[..j] + [r[j]] + r[j + 1..];
        assert x in r[..j];
        assert multiset(r)[x] >= 2;
        DistinctMultiset(pop, x);
      }
    }
  }

  /** Python's `xs[-k:]` for an integer `k`.  `k == 0` gives the whole list
      (`xs[-0:] == xs[0:]`), a positive `k` the last `min(k, |xs|)` items, and a
      negative `k` drops the first `min(-k, |xs|)` items. */
  function PySuffix<T>(xs: seq<T>, k: int): (r: seq<T>)
    ensures k == 0 ==> r == xs
    ensures k > 0 ==> |r| == (if k < |xs| then k else |xs|)
    ensures k < 0 ==> |r| == (if -k < |xs| then |xs| + k else 0)
    ensures r == xs[|xs| - |r|..]
  {
    if k == 0 then xs
    else if k > 0 then (if k < |xs| then xs[|xs| - k..] else xs)
    else (if -k < |xs| then xs[-k..] else [])
  }

  /** Python's `xs[:k]` for an integer `k`: a negative `k` drops the last
      `min(-k, |xs|)` items. */
  function PyPrefix<T>(xs: seq<T>, k: int): (r: seq<T>)
    ensures k >= 0 ==> |r| == (if k < |xs| then k else |xs|)
    ensures k < 0 ==> |r| == (if -k < |xs| then |xs| + k else 0)
    ensures r == xs[..|r|]
  {
    if k >= 0 then (if k < |xs| then xs[..k] else xs)
    else (if -k < |xs| then xs[..|xs| + k] else [])
  }

  /** Python's `xs[:n]` for `n >= 0`. */
  function Take<T>(xs: seq<T>, n: nat): (r: seq<T>)
    ensures |r| == if n < |xs| then n else |xs|
    ensures r == xs[..|r|]
  {
    if n < |xs| then xs[..n] else xs
  }

  /** `[x for x in xs if x not in avoid]`. */
  function Without<T(==,!new)>(xs: seq<T>, avoid: set<T>): (r: seq<T>)
    ensures |r| <= |xs|
    ensures forall x :: x in r <==> x in xs && x !in avoid
  {
    if |xs| == 0 then []
    else if xs[0] in avoid then Without(xs[1..], avoid)
    else [xs[0]] + Without(xs[1..], avoid)
  }

  /** The number of occurrences of `x` in `xs` (Python `xs.count(x)`). */
  function Count<T(==)>(xs: seq<T>, x: T): (n: nat)
    ensures n <= |xs|
    ensures n > 0 <==> x in xs
  {
    if |xs| == 0 then 0 else (if xs[0] == x then 1 else 0) + Count(xs[1..], x)
  }

  lemma {:induction false} CountConcat<T>(xs: seq<T>, ys: seq<T>, x: T)
    ensures Count(xs + ys, x) == Count(xs, x) + Count(ys, x)
  {
    if |xs| > 0 {
      assert (xs + ys)[0] == xs[0] && (xs + ys)[1..] == xs[1..] + ys;
      CountConcat(xs[1..], ys, x);
    } else {
      assert xs + ys == ys;
    }
  }

  lemma CountAppend<T>(xs: seq<T>, y: T, x: T)
    ensures Count(xs + [y], x) == Count(xs, x) + (if y == x then 1 else 0)
  {
    if |xs| > 0 {
      assert (xs + [y])[1..] == xs[1..] + [y];
      CountAppend(xs[1..], y, x);
    } else {
      assert (xs + [y])[1..] == [];
    }
  }

  /** An insertion-ordered frequency dictionary `{key: count}`. */
  type Freq<T> = Dict<T, nat>

  function Total<T>(m: Freq<T>): nat {
    if |m| == 0 then 0 else Total(m[..|m| - 1]) + m[|m| - 1].1
  }

  /** Adds one to the count of every entry whose key is `k`. */
  function Incr<T(==)>(m: Freq<T>, k: T): (r: Freq<T>)
    ensures |r| == |m|
    ensures forall i :: 0 <= i < |m| ==> r[i].0 == m[i].0
    ensures forall i :: 0 <= i < |m| ==> r[i].1 == m[i].1 + (if m[i].0 == k then 1 else 0)
  {
    if |m| == 0 then []
    else
      var last := m[|m| - 1];
      Incr(m[..|m| - 1], k) + [if last.0 == k then (k, last.1 + 1) else last]
  }

  /** `d[k] = d.get(k, 0) + 1` on an insertion-ordered dictionary: an existing
      key keeps its place, a new key goes last. */
  function Bump<T(==)>(m: Freq<T>, k: T): Freq<T>
  {
    if k in Keys(m) then Incr(m, k) else m + [(k, 1)]
  }

  /** The frequency dictionary the source builds by scanning `xs` in order. */
  function Tally<T(==)>(xs: seq<T>): Freq<T>
  {
    if |xs| == 0 then [] else Bump(Tally(xs[..|xs| - 1]), xs[|xs| - 1])
  }

  /** What a well-formed tally of `xs` is: distinct keys, exactly the values
      of `xs`, each with its number of occurrences. */
  ghost predicate IsTallyOf<T(!new)>(m: Freq<T>, xs: seq<T>) {
    Distinct(Keys(m))
    && (forall x :: x in Keys(m) <==> x in xs)
    && (forall i :: 0 <= i < |m| ==> m[i].1 == Count(xs, m[i].0))
  }

  lemma {:induction false} TotalIncr<T>(m: Freq<T>, k: T)
    ensures Total(Incr(m, k)) == Total(m) + Count(Keys(m), k)
  {
    if |m| > 0 {
      var init := m[..|m| - 1];
      TotalIncr(init, k);
      var r := Incr(m, k);
      assert r[..|r| - 1] == Incr(init, k);
      assert Keys(m) == Keys(init) + [m[|m| - 1].0];
      CountAppend(Keys(init), m[|m| - 1].0, k);
    }
  }

  lemma {:induction false} TotalAppend<T>(m: Freq<T>, e: (T, nat))
    ensures Total(m + [e]) == Total(m) + e.1
  {
    assert (m + [e])[..|m|] == m;
  }

  lemma DistinctCount<T>(xs: seq<T>, x: T)
    requires Distinct(xs)
    requires x in xs
    ensures Count(xs, x) == 1
    decreases |xs|
  {
    if xs[0] != x {
      DistinctCount(xs[1..], x);
    } else {
      assert x !in xs[1..];
    }
  }

  lemma {:induction false} BumpFacts<T>(m: Freq<T>, k: T)
    requires Distinct(Keys(m))
    ensures Distinct(Keys(Bump(m, k)))
    ensures forall x :: x in Keys(Bump(m, k)) <==> x in Keys(m) || x == k
    ensures forall i :: 0 <= i < |Bump(m, k)| ==>
      Bump(m, k)[i].1 == (if i < |m| then m[i].1 else 0) + (if Bump(m, k)[i].0 == k then 1 else 0)
    ensures Total(Bump(m, k)) == Total(m) + 1
  {
    if k in Keys(m) {
      BumpPresent(m, k);
    } else {
      BumpAbsent(m, k);
    }
  }

  lemma BumpPresent<T>(m: Freq<T>, k: T)
    requires Distinct(Keys(m))
    requires k in Keys(m)
    ensures Bump(m, k) == Incr(m, k)
    ensures Keys(Incr(m, k)) == Keys(m)
    ensures Total(Incr(m, k)) == Total(m) + 1
  {
    var b := Incr(m, k);
    assert forall i | 0 <= i < |m| :: Keys(b)[i] == Keys(m)[i];
    TotalIncr(m, k);
    DistinctCount(Keys(m), k);
  }

  lemma BumpAbsent<T>(m: Freq<T>, k: T)
    requires Distinct(Keys(m))
    requires k !in Keys(m)
    ensures Bump(m, k) == m + [(k, 1)]
    ensures Keys(m + [(k, 1)]) == Keys(m) + [k]
    ensures Distinct(Keys(m) + [k])
    ensures Total(m + [(k, 1)]) == Total(m) + 1
  {
    TotalAppend(m, (k, 1));
    assert Keys(m + [(k, 1)]) == Keys(m) + [k];
  }

  lemma {:induction false} TallyCorrect<T(!new)>(xs: seq<T>)
    ensures IsTallyOf(Tally(xs), xs)
    ensures Total(Tally(xs)) == |xs|
  {
    if |xs| > 0 {
      var init := xs[..|xs| - 1];
      var y := xs[|xs| - 1];
      assert xs == init + [y];
      TallyCorrect(init);
      var m := Tally(init);
      BumpFacts(m, y);
      var b := Bump(m, y);
      forall i | 0 <= i < |b|
        ensures b[i].1 == Count(xs, b[i].0)
      {
        CountAppend(init, y, b[i].0);
        if i >= |m| {
          assert b[i].0 == y;
          assert y !in Keys(m);
          assert y !in init;
        } else {
          assert b[i].0 == m[i].0 by { assert Keys(b)[i] == b[i].0; }
        }
      }
    }
  }

  /** The first key whose count equals `v`, scanning in insertion order. */
  function FirstWithCount<T(==)>(m: Freq<T>, v: nat): (k: T)
    requires exists i :: 0 <= i < |m| && m[i].1 == v
    ensures exists i :: 0 <= i < |m| && m[i] == (k, v) && (forall j :: 0 <= j < i ==> m[j].1 != v)
  {
    if m[0].1 == v then
      m[0].0
    else
      var k := FirstWithCount(m[1..], v);
      var i :| 0 <= i < |m[1..]| && m[1..][i] == (k, v) && (forall j :: 0 <= j < i ==> m[1..][j].1 != v);
      assert m[i + 1] == (k, v);
      k
  }

  /** `max(d.values())` for a non-empty dictionary. */
  function MaxCount<T>(m: Freq<T>): (v: nat)
    requires |m| > 0
    ensures exists i :: 0 <= i < |m| && m[i].1 == v
    ensures forall i :: 0 <= i < |m| ==> m[i].1 <= v
  {
    if |m| == 1 then m[0].1
    else
      var v := MaxCount(m[..|m| - 1]);
      if m[|m| - 1].1 > v then m[|m| - 1].1 else v
  }

  /** Python's `list(range(a, b))`. */
  function Range(a: int, b: int): (r: seq<int>)
    ensures |r| == if b > a then b - a else 0
    ensures forall k :: 0 <= k < |r| ==> r[k] == a + k
    ensures forall x :: x in r <==> a <= x < b
  {
    var r := seq(if b > a then b - a else 0, k => a + k);
    forall x | a <= x < b ensures x in r {
      assert r[x - a] == x;
    }
    r
  }

  /** Adjacent ranges concatenate into one. */
  lemma RangeAppend(a: int, b: int, c: int)
    requires a <= b <= c
    ensures Range(a, b) + Range(b, c) == Range(a, c)
  {
  }

  /** Strictly increasing integers. */
  predicate Ascending(xs: seq<int>) {
    forall i, j :: 0 <= i < j < |xs| ==> xs[i] < xs[j]
  }

  /** The results `f(a, b)` that are present, for each later item `b` in
      order. */
  function RowPairs<A, R>(a: A, later: seq<A>, f: (A, A) -> Option<R>): seq<R>
  {
    if |later| == 0 then []
    else
      var h := f(a, later[0]);
      (if h.Some? then [h.value] else []) + RowPairs(a, later[1..], f)
  }

  /** The results of pairing every item with every later item: Python's
      `for i, x in enumerate(xs): for y in xs[i + 1:]: ...`. */
  function AllPairs<A, R>(xs: seq<A>, f: (A, A) -> Option<R>): seq<R>
  {
    if |xs| == 0 then [] else RowPairs(xs[0], xs[1..], f) + AllPairs(xs[1..], f)
  }

  lemma {:induction false} RowPairsMembers<A, R>(a: A, later: seq<A>, f: (A, A) -> Option<R>, x: R)
    ensures x in RowPairs(a, later, f) <==> exists k :: 0 <= k < |later| && f(a, later[k]) == Some(x)
  {
    if |later| > 0 {
      RowPairsMembers(a, later[1..], f, x);
      if exists k :: 1 <= k < |later| && f(a, later[k]) == Some(x) {
        var k :| 1 <= k < |later| && f(a, later[k]) == Some(x);
        assert later[1..][k - 1] == later[k];
      }
    }
  }

  /** A result is produced exactly for the pairs i < j whose `f` is present. */
  lemma {:induction false} AllPairsMembers<A, R>(xs: seq<A>, f: (A, A) -> Option<R>, x: R)
    ensures x in AllPairs(xs, f) <==> exists i, j :: 0 <= i < j < |xs| && f(xs[i], xs[j]) == Some(x)
  {
    if |xs| > 0 {
      var tail := xs[1..];
      AllPairsMembers(tail, f, x);
      RowPairsMembers(xs[0], tail, f, x);
      if x in AllPairs(xs, f) {
        if x in RowPairs(xs[0], tail, f) {
          var k :| 0 <= k < |tail| && f(xs[0], tail[k]) == Some(x);
          assert f(xs[0], xs[k + 1]) == Some(x);
        } else {
          var i, j :| 0 <= i < j < |tail| && f(tail[i], tail[j]) == Some(x);
          assert f(xs[i + 1], xs[j + 1]) == Some(x);
        }
      }
      if exists i, j :: 0 <= i < j < |xs| && f(xs[i], xs[j]) == Some(x) {
        var i, j :| 0 <= i < j < |xs| && f(xs[i], xs[j]) == Some(x);
        if i == 0 {
          assert f(xs[0], tail[j - 1]) == Some(x);
        } else {
          assert f(tail[i - 1], tail[j - 1]) == Some(x);
        }
      }
    }
  }

  /** Two repeat-free lists with no common item concatenate without repeats. */
  lemma DistinctConcat<T>(a: seq<T>, b: seq<T>)
    requires Distinct(a) && Distinct(b)
    requires forall x :: x in a ==> x !in b
    ensures Distinct(a + b)
  {
    var c := a + b;
    forall i, j | 0 <= i < j < |c| ensures c[i] != c[j] {
      if i < |a| && j >= |a| {
        assert c[i] in a && c[j] == b[j - |a|];
      }
    }
  }

  /** `key` never decreases along `xs`. */
  predicate SortedBy<T>(xs: seq<T>, key: T -> int) {
    forall i, j :: 0 <= i < j < |xs| ==> key(xs[i]) <= key(xs[j])
  }

  /** Inserts `x` after every item whose key is not larger than its own. */
  function InsertBy<T(!new)>(x: T, xs: seq<T>, key: T -> int): (r: seq<T>)
    requires SortedBy(xs, key)
    ensures SortedBy(r, key)
    ensures |r| == |xs| + 1
    ensures forall y :: y in r <==> y == x || y in xs
  {
    if |xs| == 0 then [x]
    else if key(x) < key(xs[0]) then [x] + xs
    else
      var rest := InsertBy(x, xs[1..], key);
      assert forall y :: y in rest ==> key(xs[0]) <= key(y);
      [xs[0]] + rest
  }

  /** Python's stable `xs.sort(key=key)`: items with equal keys keep their
      order, which is what inserting them one by one, each after its equals,
      produces. */
  function SortBy<T(!new)>(xs: seq<T>, key: T -> int): (r: seq<T>)
    ensures SortedBy(r, key)
    ensures |r| == |xs|
  {
    if |xs| == 0 then [] else InsertBy(xs[|xs| - 1], SortBy(xs[..|xs| - 1], key), key)
  }

  lemma {:induction false} InsertByMultiset<T(!new)>(x: T, xs: seq<T>, key: T -> int)
    requires SortedBy(xs, key)
    ensures multiset(InsertBy(x, xs, key)) == multiset(xs) + multiset{x}
  {
    if |xs| > 0 && key(xs[0]) <= key(x) {
      InsertByMultiset(x, xs[1..], key);
      assert xs == [xs[0]] + xs[1..];
    }
  }

  /** Sorting only rearranges. */
  lemma {:induction false} SortByMultiset<T(!new)>(xs: seq<T>, key: T -> int)
    ensures multiset(SortBy(xs, key)) == multiset(xs)
  {
    if |xs| > 0 {
      var init := xs[..|xs| - 1];
      SortByMultiset(init, key);
      InsertByMultiset(xs[|xs| - 1], SortBy(init, key), key);
      assert xs == init + [xs[|xs| - 1]];
    }
  }

  /** An item whose key is not below any other goes to the end. */
  lemma {:induction false} InsertByLast<T(!new)>(x: T, xs: seq<T>, key: T -> int)
    requires SortedBy(xs, key)
    requires forall i :: 0 <= i < |xs| ==> key(xs[i]) <= key(x)
    ensures InsertBy(x, xs, key) == xs + [x]
  {
    if |xs| > 0 {
      InsertByLast(x, xs[1..], key);
      assert [xs[0]] + (xs[1..] + [x]) == xs + [x];
    }
  }

  /** Sorting a list that is already in order changes nothing. */
  lemma {:induction false} SortBySorted<T(!new)>(xs: seq<T>, key: T -> int)
    requires SortedBy(xs, key)
    ensures SortBy(xs, key) == xs
  {
    if |xs| > 0 {
      var init := xs[..|xs| - 1];
      SortBySorted(init, key);
      InsertByLast(xs[|xs| - 1], init, key);
      assert init + [xs[|xs| - 1]] == xs;
    }
  }

  /** The present results `f(x)`, in order. */
  function Choose<A, R>(xs: seq<A>, f: A -> Option<R>): seq<R>
  {
    if |xs| == 0 then []
    else (if f(xs[0]).Some? then [f(xs[0]).value] else []) + Choose(xs[1..], f)
  }

  lemma {:induction false} ChooseMembers<A, R>(xs: seq<A>, f: A -> Option<R>, x: R)
    ensures x in Choose(xs, f) <==> exists k :: 0 <= k < |xs| && f(xs[k]) == Some(x)
  {
    if |xs| > 0 {
      ChooseMembers(xs[1..], f, x);
      if exists k :: 1 <= k < |xs| && f(xs[k]) == Some(x) {
        var k :| 1 <= k < |xs| && f(xs[k]) == Some(x);
        assert xs[1..][k - 1] == xs[k];
      }
    }
  }

  /** The concatenation of a list of lists. */
  function Flatten<T(!new)>(xss: seq<seq<T>>): (r: seq<T>)
    ensures forall x :: x in r <==> exists i :: 0 <= i < |xss| && x in xss[i]
  {
    if |xss| == 0 then []
    else
      var rest := Flatten(xss[1..]);
      assert forall i :: 1 <= i < |xss| ==> xss[i] == xss[1..][i - 1];
      xss[0] + rest
  }

  /** Runs `f` on each item in order and concatenates the lists it
      returns, stopping at the first one that raises. */
  function CollectFlat<A, T(!new)>(xs: seq<A>, f: A -> Result<seq<T>>): (r: Result<seq<T>>)
    ensures r.Raise? <==> exists i :: 0 <= i < |xs| && f(xs[i]).Raise?
    ensures r.Raise? ==> exists i :: 0 <= i < |xs| && f(xs[i]) == Raise(r.exc)
    ensures r.Ok? ==> forall x :: x in r.value <==> exists i :: 0 <= i < |xs| && x in f(xs[i]).value
  {
    if |xs| == 0 then Ok([])
    else
      var rest := xs[1..];
      assert forall i :: 1 <= i < |xs| ==> xs[i] == rest[i - 1];
      match f(xs[0])
      case Raise(e) => Raise(e)
      case Ok(first) =>
        var more := CollectFlat(rest, f);
        if more.Raise? then Raise(more.exc) else Ok(first + more.value)
  }

  /** `f(j, xs[j], xs[j + 1])` for each adjacent pair from `i` on, keeping
      the results that are present, stopping at the first that raises. */
  function Adjacent<A, T>(xs: seq<A>, i: nat, f: (nat, A, A) -> Result<Option<T>>): Result<seq<T>>
    decreases |xs| - i
  {
    if i + 1 >= |xs| then Ok([])
    else
      var h :- f(i, xs[i], xs[i + 1]);
      var rest :- Adjacent(xs, i + 1, f);
      Ok((if h.Some? then [h.value] else []) + rest)
  }

  /** The pass over adjacent pairs raises exactly when `f` raises on one. */
  lemma {:induction false} AdjacentRaise<A, T>(xs: seq<A>, i: nat, f: (nat, A, A) -> Result<Option<T>>)
    ensures Adjacent(xs, i, f).Raise? <==>
              exists j :: i <= j && j + 1 < |xs| && f(j, xs[j], xs[j + 1]).Raise?
    decreases |xs| - i
  {
    if i + 1 < |xs| {
      AdjacentRaise(xs, i + 1, f);
    }
  }

  /** A completed pass keeps exactly the present results. */
  lemma {:induction false} AdjacentMembers<A, T>(xs: seq<A>, i: nat, f: (nat, A, A) -> Result<Option<T>>, x: T)
    requires Adjacent(xs, i, f).Ok?
    ensures x in Adjacent(xs, i, f).value <==>
              exists j :: i <= j && j + 1 < |xs| && f(j, xs[j], xs[j + 1]) == Ok(Some(x))
    decreases |xs| - i
  {
    if i + 1 < |xs| {
      var h := f(i, xs[i], xs[i + 1]).value;
      AdjacentMembers(xs, i + 1, f, x);
      assert Adjacent(xs, i, f).value == (if h.Some? then [h.value] else []) + Adjacent(xs, i + 1, f).value;
    }
  }

  /** Pair `(p, q)` comes at or after pair `(i, j)` in the order of the
      loops `for p: for q in p + 1 ..`. */
  predicate PairAtOrAfter(i: int, j: int, p: int, q: int) {
    p > i || (p == i && q >= j)
  }

  /** `f(xs[p], xs[q])` for every pair `p < q` from pair `(i, j)` on, in the
      order of the loops `for p: for q in p + 1 ..`, keeping the results
      that are present and stopping at the first that raises. */
  function PairChecks<A, T>(xs: seq<A>, i: nat, j: nat, f: (A, A) -> Result<Option<T>>): Result<seq<T>>
    decreases |xs| - i, |xs| - j
  {
    if i >= |xs| then Ok([])
    else if j >= |xs| then PairChecks(xs, i + 1, i + 2, f)
    else
      var h :- f(xs[i], xs[j]);
      var rest :- PairChecks(xs, i, j + 1, f);
      Ok((if h.Some? then [h.value] else []) + rest)
  }

  /** The pair pass raises exactly when `f` raises on a pair it reaches. */
  lemma {:induction false} PairChecksRaise<A, T>(xs: seq<A>, i: nat, j: nat, f: (A, A) -> Result<Option<T>>)
    requires i < j
    ensures PairChecks(xs, i, j, f).Raise? <==>
              exists p, q :: 0 <= p < q < |xs| && PairAtOrAfter(i, j, p, q) && f(xs[p], xs[q]).Raise?
    decreases |xs| - i, |xs| - j
  {
    if i >= |xs| {
    } else if j >= |xs| {
      PairChecksRaise(xs, i + 1, i + 2, f);
      assert forall p, q :: 0 <= p < q < |xs| ==> (PairAtOrAfter(i, j, p, q) <==> PairAtOrAfter(i + 1, i + 2, p, q));
    } else {
      PairChecksRaise(xs, i, j + 1, f);
      assert forall p, q :: 0 <= p < q < |xs| ==>
        (PairAtOrAfter(i, j, p, q) <==> (p == i && q == j) || PairAtOrAfter(i, j + 1, p, q));
    }
  }

  /** A completed pair pass keeps exactly the present results. */
  lemma {:induction false} PairChecksMembers<A, T>(xs: seq<A>, i: nat, j: nat, f: (A, A) -> Result<Option<T>>, x: T)
    requires i < j && PairChecks(xs, i, j, f).Ok?
    ensures x in PairChecks(xs, i, j, f).value <==>
              exists p, q :: 0 <= p < q < |xs| && PairAtOrAfter(i, j, p, q) && f(xs[p], xs[q]) == Ok(Some(x))
    decreases |xs| - i, |xs| - j
  {
    if i >= |xs| {
    } else if j >= |xs| {
      PairChecksMembers(xs, i + 1, i + 2, f, x);
      assert forall p, q :: 0 <= p < q < |xs| ==> (PairAtOrAfter(i, j, p, q) <==> PairAtOrAfter(i + 1, i + 2, p, q));
    } else {
      var h := f(xs[i], xs[j]).value;
      PairChecksMembers(xs, i, j + 1, f, x);
      assert PairChecks(xs, i, j, f).value == (if h.Some? then [h.value] else []) + PairChecks(xs, i, j + 1, f).value;
      assert forall p, q :: 0 <= p < q < |xs| ==>
        (PairAtOrAfter(i, j, p, q) <==> (p == i && q == j) || PairAtOrAfter(i, j + 1, p, q));
    }
  }

  /** The results of `f` on the items, concatenated; an item on which `f`
      raises contributes nothing. */
  function Joined<X, A>(xs: seq<X>, f: X -> Result<seq<A>>): seq<A> {
    if |xs| == 0 then [] else (if f(xs[0]).Ok? then f(xs[0]).value else []) + Joined(xs[1..], f)
  }

  /** The index of the first item on which `f` raises, or `|xs|` when there
      is none. */
  function FirstRaise<X, A>(xs: seq<X>, f: X -> Result<seq<A>>): (k: nat)
    ensures k <= |xs|
    ensures forall i :: 0 <= i < k ==> f(xs[i]).Ok?
    ensures k < |xs| ==> f(xs[k]).Raise?
  {
    if |xs| == 0 || f(xs[0]).Raise? then 0
    else
      var k := FirstRaise(xs[1..], f);
      assert forall i :: 1 <= i < k + 1 ==> xs[i] == xs[1..][i - 1];
      1 + k
  }

  /** `acc.extend(f(x))` for each item in order; the first item on which
      `f` raises stops the loop, keeping what was appended so far. */
  function Extend<X, A>(acc: seq<A>, xs: seq<X>, f: X -> Result<seq<A>>): (Option<Exc>, seq<A>)
    decreases |xs|
  {
    if |xs| == 0 then (None, acc)
    else
      match f(xs[0])
      case Raise(e) => (Some(e), acc)
      case Ok(v) => Extend(acc + v, xs[1..], f)
  }

  /** The results of the first `k` items: those of the first, then those of
      the next `k - 1`. */
  lemma JoinedFront<X, A>(xs: seq<X>, k: nat, f: X -> Result<seq<A>>)
    requires 0 < k <= |xs|
    ensures Joined(xs[..k], f) == (if f(xs[0]).Ok? then f(xs[0]).value else []) + Joined(xs[1..][..k - 1], f)
  {
    var pre := xs[..k];
    assert pre[0] == xs[0] && pre[1..] == xs[1..][..k - 1];
  }

  /** Extending stops at the first item that raises, with that item's
      exception, after appending the results of every earlier item. */
  lemma {:induction false} ExtendJoins<X, A>(acc: seq<A>, xs: seq<X>, f: X -> Result<seq<A>>)
    ensures var k := FirstRaise(xs, f);
            Extend(acc, xs, f) == (if k < |xs| then Some(f(xs[k]).exc) else None, acc + Joined(xs[..k], f))
    decreases |xs|
  {
    var k := FirstRaise(xs, f);
    if k == 0 {
      assert xs[..k] == [] && acc + [] == acc;
    } else {
      var v := f(xs[0]).value;
      assert k == 1 + FirstRaise(xs[1..], f);
      ExtendJoins(acc + v, xs[1..], f);
      JoinedFront(xs, k, f);
      assert k < |xs| ==> xs[k] == xs[1..][k - 1];
      assert acc + v + Joined(xs[1..][..k - 1], f) == acc + (v + Joined(xs[1..][..k - 1], f));
    }
  }

  /** An item of the joined results comes from some item on which `f`
      completes. */
  lemma {:induction false} JoinedMembers<X, A>(xs: seq<X>, f: X -> Result<seq<A>>, a: A)
    ensures a in Joined(xs, f) <==> exists i :: 0 <= i < |xs| && f(xs[i]).Ok? && a in f(xs[i]).value
  {
    if |xs| > 0 {
      var rest := xs[1..];
      JoinedMembers(rest, f, a);
      assert forall i :: 1 <= i < |xs| ==> xs[i] == rest[i - 1];
    }
  }

  /** `h(a, b)` for each later item `b`, concatenated. */
  function RowFlat<A, R>(a: A, later: seq<A>, h: (A, A) -> seq<R>): seq<R>
  {
    if |later| == 0 then [] else h(a, later[0]) + RowFlat(a, later[1..], h)
  }

  /** `h(x, y)` for every item `x` and later item `y`, concatenated in loop
      order. */
  function PairsFlat<A, R>(xs: seq<A>, h: (A, A) -> seq<R>): seq<R>
  {
    if |xs| == 0 then [] else RowFlat(xs[0], xs[1..], h) + PairsFlat(xs[1..], h)
  }

  lemma {:induction false} RowFlatMembers<A, R>(a: A, later: seq<A>, h: (A, A) -> seq<R>, x: R)
    ensures x in RowFlat(a, later, h) <==> exists k :: 0 <= k < |later| && x in h(a, later[k])
  {
    if |later| > 0 {
      var tail := later[1..];
      RowFlatMembers(a, tail, h, x);
      assert RowFlat(a, later, h) == h(a, later[0]) + RowFlat(a, tail, h);
      forall k | 1 <= k < |later| ensures later[k] == tail[k - 1] { }
    }
  }

  lemma {:induction false} PairsFlatMembers<A, R>(xs: seq<A>, h: (A, A) -> seq<R>, x: R)
    ensures x in PairsFlat(xs, h) <==> exists i, j :: 0 <= i < j < |xs| && x in h(xs[i], xs[j])
  {
    if |xs| > 0 {
      var tail := xs[1..];
      PairsFlatMembers(tail, h, x);
      RowFlatMembers(xs[0], tail, h, x);
      if x in PairsFlat(xs, h) {
        if x in RowFlat(xs[0], tail, h) {
          var k :| 0 <= k < |tail| && x in h(xs[0], tail[k]);
          assert x in h(xs[0], xs[k + 1]);
        } else {
          var i, j :| 0 <= i < j < |tail| && x in h(tail[i], tail[j]);
          assert x in h(xs[i + 1], xs[j + 1]);
        }
      }
      if exists i, j :: 0 <= i < j < |xs| && x in h(xs[i], xs[j]) {
        var i, j :| 0 <= i < j < |xs| && x in h(xs[i], xs[j]);
        if i == 0 {
          assert x in h(xs[0], tail[j - 1]);
        } else {
          assert x in h(tail[i - 1], tail[j - 1]);
        }
      }
    }
  }

  // ---------------------------------------------------------------------
  // Which index pairs a pairwise scan reports

  /** Pair `a` comes before pair `b` in row order. */
  predicate PairBefore(a: (nat, nat), b: (nat, nat)) {
    a.0 < b.0 || (a.0 == b.0 && a.1 < b.1)
  }

  /** The pairs (p, q), p < q < n, from (i, j) on in row order at which
      `at` reports something. */
  function HitPairs<R>(n: nat, i: nat, j: nat, at: (nat, nat) -> Option<R>): seq<(nat, nat)>
    decreases n - i, n - j
  {
    if i >= n then []
    else if j >= n then HitPairs(n, i + 1, i + 2, at)
    else (if at(i, j).Some? then [(i, j)] else []) + HitPairs(n, i, j + 1, at)
  }

  /** Every pair of `ps` is a reporting pair p < q < n at or after (i, j). */
  ghost predicate PairsSound<R>(ps: seq<(nat, nat)>, n: nat, i: nat, j: nat, at: (nat, nat) -> Option<R>) {
    forall k :: 0 <= k < |ps| ==>
      ps[k].0 < ps[k].1 < n && PairAtOrAfter(i, j, ps[k].0, ps[k].1) && at(ps[k].0, ps[k].1).Some?
  }

  /** The pairs of `ps` are in row order, so none appears twice. */
  ghost predicate PairsOrdered(ps: seq<(nat, nat)>) {
    forall k, l :: 0 <= k < l < |ps| ==> PairBefore(ps[k], ps[l])
  }

  /** Every pair `HitPairs` lists is a reporting pair at or after (i, j). */
  lemma {:induction false} HitPairsSound<R>(n: nat, i: nat, j: nat, at: (nat, nat) -> Option<R>)
    requires i < j
    ensures PairsSound(HitPairs(n, i, j, at), n, i, j, at)
    decreases n - i, n - j
  {
    var ps := HitPairs(n, i, j, at);
    if i >= n {
    } else if j >= n {
      HitPairsSound(n, i + 1, i + 2, at);
      assert ps == HitPairs(n, i + 1, i + 2, at);
    } else {
      HitPairsSound(n, i, j + 1, at);
      HitPairsStepSound(n, i, j, at);
    }
  }

  /** One step along a row keeps the listed pairs sound. */
  lemma HitPairsStepSound<R>(n: nat, i: nat, j: nat, at: (nat, nat) -> Option<R>)
    requires i < j < n && PairsSound(HitPairs(n, i, j + 1, at), n, i, j + 1, at)
    ensures PairsSound(HitPairs(n, i, j, at), n, i, j, at)
  {
    var ps := HitPairs(n, i, j, at);
    var rest := HitPairs(n, i, j + 1, at);
    if at(i, j).Some? {
      assert ps == [(i, j)] + rest;
      forall k | 0 < k < |ps| ensures ps[k] == rest[k - 1] {
      }
    } else {
      assert ps == rest;
      forall k | 0 <= k < |ps| ensures PairAtOrAfter(i, j, ps[k].0, ps[k].1) {
        assert PairAtOrAfter(i, j + 1, rest[k].0, rest[k].1);
      }
    }
  }

  /** Every reporting pair p < q < n at or after (i, j) is listed. */
  lemma {:induction false} HitPairsComplete<R>(n: nat, i: nat, j: nat, at: (nat, nat) -> Option<R>, p: nat, q: nat)
    requires i < j && p < q < n && PairAtOrAfter(i, j, p, q) && at(p, q).Some?
    ensures (p, q) in HitPairs(n, i, j, at)
    decreases n - i, n - j
  {
    if j >= n {
      HitPairsComplete(n, i + 1, i + 2, at, p, q);
    } else if p != i || q != j {
      HitPairsComplete(n, i, j + 1, at, p, q);
    }
  }

  /** The pairs are listed in row order, so none twice. */
  lemma {:induction false} HitPairsOrdered<R>(n: nat, i: nat, j: nat, at: (nat, nat) -> Option<R>)
    requires i < j
    ensures PairsOrdered(HitPairs(n, i, j, at))
    decreases n - i, n - j
  {
    if i >= n {
    } else if j >= n {
      HitPairsOrdered(n, i + 1, i + 2, at);
    } else {
      HitPairsOrdered(n, i, j + 1, at);
      var rest := HitPairs(n, i, j + 1, at);
      if at(i, j).Some? {
        HitPairsSound(n, i, j + 1, at);
        forall k | 0 <= k < |rest| ensures PairBefore((i, j), rest[k]) {
          assert PairAtOrAfter(i, j + 1, rest[k].0, rest[k].1);
        }
        ConsOrdered((i, j), rest);
      }
    }
  }

  lemma ConsOrdered(x: (nat, nat), rest: seq<(nat, nat)>)
    requires PairsOrdered(rest) && forall k :: 0 <= k < |rest| ==> PairBefore(x, rest[k])
    ensures PairsOrdered([x] + rest)
  {
    var ps := [x] + rest;
    forall k, l | 0 <= k < l < |ps| ensures PairBefore(ps[k], ps[l]) {
      assert ps[l] == rest[l - 1];
      if k > 0 {
        assert ps[k] == rest[k - 1];
      }
    }
  }

  /** `rs` are the reports of the pairs `ps`, one for one. */
  ghost predicate ReportsFor<R>(rs: seq<R>, ps: seq<(nat, nat)>, at: (nat, nat) -> Option<R>) {
    |rs| == |ps| && forall k :: 0 <= k < |ps| ==> at(ps[k].0, ps[k].1) == Some(rs[k])
  }

  lemma ReportsForConcat<R>(r1: seq<R>, p1: seq<(nat, nat)>, r2: seq<R>, p2: seq<(nat, nat)>,
                            at: (nat, nat) -> Option<R>)
    requires ReportsFor(r1, p1, at) && ReportsFor(r2, p2, at)
    ensures ReportsFor(r1 + r2, p1 + p2, at)
  {
    var rs, ps := r1 + r2, p1 + p2;
    forall k | 0 <= k < |ps| ensures at(ps[k].0, ps[k].1) == Some(rs[k]) {
      if k >= |p1| {
        assert ps[k] == p2[k - |p1|] && rs[k] == r2[k - |r1|];
      }
    }
  }

  /** `f` applied to the items at two positions, or nothing for a position
      outside `xs`. */
  function At<A, R>(xs: seq<A>, f: (A, A) -> Option<R>): (nat, nat) -> Option<R> {
    (p: nat, q: nat) => if p < |xs| && q < |xs| then f(xs[p], xs[q]) else None
  }

  /** The reports of row `i` from column `j` on, then of all later rows. */
  function RowAndRest<A, R>(xs: seq<A>, i: nat, j: nat, f: (A, A) -> Option<R>): seq<R>
    requires i < j <= |xs|
  {
    RowPairs(xs[i], xs[j..], f) + AllPairs(xs[i + 1..], f)
  }

  /** Row `i` from column `j` on, then all later rows, report in the order `HitPairs` lists them. */
  ghost predicate RowReports<A, R>(xs: seq<A>, i: nat, j: nat, f: (A, A) -> Option<R>)
    requires i < j <= |xs|
  {
    ReportsFor(RowAndRest(xs, i, j, f), HitPairs(|xs|, i, j, At(xs, f)), At(xs, f))
  }

  lemma {:induction false} RowAndRestReport<A, R>(xs: seq<A>, i: nat, j: nat, f: (A, A) -> Option<R>)
    requires i < j <= |xs|
    ensures RowReports(xs, i, j, f)
    decreases |xs| - i, |xs| - j
  {
    if j == |xs| {
      if i + 1 < |xs| {
        RowAndRestReport(xs, i + 1, i + 2, f);
      }
      RowEndReport(xs, i, f);
    } else {
      RowAndRestReport(xs, i, j + 1, f);
      RowStepReport(xs, i, j, f);
    }
  }

  lemma RowEndReport<A, R>(xs: seq<A>, i: nat, f: (A, A) -> Option<R>)
    requires i < |xs|
    requires i + 1 < |xs| ==> RowReports(xs, i + 1, i + 2, f)
    ensures RowReports(xs, i, |xs|, f)
  {
    var at := At(xs, f);
    assert RowPairs(xs[i], xs[|xs|..], f) == [];
    assert HitPairs(|xs|, i, |xs|, at) == HitPairs(|xs|, i + 1, i + 2, at);
    if i + 1 < |xs| {
      assert xs[i + 1..][0] == xs[i + 1] && xs[i + 1..][1..] == xs[i + 2..];
      assert AllPairs(xs[i + 1..], f) == RowPairs(xs[i + 1], xs[i + 2..], f) + AllPairs(xs[i + 2..], f);
    } else {
      assert AllPairs(xs[i + 1..], f) == [];
      assert HitPairs(|xs|, i + 1, i + 2, at) == [];
    }
  }

  lemma RowStepReport<A, R>(xs: seq<A>, i: nat, j: nat, f: (A, A) -> Option<R>)
    requires i < j < |xs|
    requires RowReports(xs, i, j + 1, f)
    ensures RowReports(xs, i, j, f)
  {
    var at := At(xs, f);
    assert xs[j..][0] == xs[j] && xs[j..][1..] == xs[j + 1..];
    var later := RowAndRest(xs, i, j + 1, f);
    var h := f(xs[i], xs[j]);
    assert at(i, j) == h;
    if h.Some? {
      assert RowAndRest(xs, i, j, f) == [h.value] + later;
      assert HitPairs(|xs|, i, j, at) == [(i, j)] + HitPairs(|xs|, i, j + 1, at);
      assert ReportsFor([h.value], [(i, j)], at);
      ReportsForConcat([h.value], [(i, j)], later, HitPairs(|xs|, i, j + 1, at), at);
    } else {
      assert RowAndRest(xs, i, j, f) == later;
      assert HitPairs(|xs|, i, j, at) == HitPairs(|xs|, i, j + 1, at);
    }
  }

  /** `AllPairs` reports the reporting pairs i < j of `xs` in row order,
      one report per pair. */
  lemma AllPairsReports<A, R>(xs: seq<A>, f: (A, A) -> Option<R>)
    ensures ReportsFor(AllPairs(xs, f), HitPairs(|xs|, 0, 1, At(xs, f)), At(xs, f))
  {
    if |xs| > 0 {
      RowAndRestReport(xs, 0, 1, f);
      assert AllPairs(xs, f) == RowAndRest(xs, 0, 1, f);
    } else {
      assert HitPairs(|xs|, 0, 1, At(xs, f)) == [];
    }
  }

  /** A pairwise check with its raising cases read as "nothing to report". */
  function OkPart<A, T>(f: (A, A) -> Result<Option<T>>): (A, A) -> Option<T> {
    (a: A, b: A) => if f(a, b).Ok? then f(a, b).value else None
  }

  lemma {:induction false} PairChecksRows<A, T>(xs: seq<A>, i: nat, j: nat, f: (A, A) -> Result<Option<T>>)
    requires i < j <= |xs| && PairChecks(xs, i, j, f).Ok?
    ensures PairChecks(xs, i, j, f).value == RowPairs(xs[i], xs[j..], OkPart(f)) + AllPairs(xs[i + 1..], OkPart(f))
    decreases |xs| - i, |xs| - j
  {
    var g := OkPart(f);
    if j == |xs| {
      assert RowPairs(xs[i], xs[j..], g) == [];
      if i + 1 < |xs| {
        PairChecksRows(xs, i + 1, i + 2, f);
        assert xs[i + 1..][0] == xs[i + 1] && xs[i + 1..][1..] == xs[i + 2..];
        assert AllPairs(xs[i + 1..], g) == RowPairs(xs[i + 1], xs[i + 2..], g) + AllPairs(xs[i + 2..], g);
      } else {
        assert AllPairs(xs[i + 1..], g) == [];
      }
    } else {
      var h := f(xs[i], xs[j]);
      assert h.Ok? && PairChecks(xs, i, j + 1, f).Ok?;
      PairChecksRows(xs, i, j + 1, f);
      assert xs[j..][0] == xs[j] && xs[j..][1..] == xs[j + 1..];
      assert g(xs[i], xs[j]) == h.value;
      assert RowPairs(xs[i], xs[j..], g) ==
               (if h.value.Some? then [h.value.value] else []) + RowPairs(xs[i], xs[j + 1..], g);
    }
  }

  /** A pairwise check that raises nowhere reports what `AllPairs` does. */
  lemma PairChecksAllPairs<A, T>(xs: seq<A>, f: (A, A) -> Result<Option<T>>)
    requires PairChecks(xs, 0, 1, f).Ok?
    ensures PairChecks(xs, 0, 1, f).value == AllPairs(xs, OkPart(f))
  {
    if |xs| > 0 {
      PairChecksRows(xs, 0, 1, f);
      assert AllPairs(xs, OkPart(f)) == RowPairs(xs[0], xs[1..], OkPart(f)) + AllPairs(xs[0 + 1..], OkPart(f));
    }
  }

  /** The reporting pairs p < q < n. */
  ghost function HitSet<R>(n: nat, at: (nat, nat) -> Option<R>): set<(nat, nat)> {
    set p: nat, q: nat | p < q < n && at(p, q).Some? :: (p, q)
  }

  /** `HitPairs` from (0, 1) lists every reporting pair exactly once, so
      it is as long as there are reporting pairs. */
  lemma HitPairsEnumerate<R>(n: nat, at: (nat, nat) -> Option<R>)
    ensures (set x | x in HitPairs(n, 0, 1, at)) == HitSet(n, at)
    ensures Distinct(HitPairs(n, 0, 1, at))
    ensures |HitSet(n, at)| == |HitPairs(n, 0, 1, at)|
  {
    var ps := HitPairs(n, 0, 1, at);
    HitPairsSound(n, 0, 1, at);
    HitPairsOrdered(n, 0, 1, at);
    forall x | x in HitSet(n, at) ensures x in ps {
      HitPairsComplete(n, 0, 1, at, x.0, x.1);
    }
    forall x | x in ps ensures x in HitSet(n, at) {
      var k :| 0 <= k < |ps| && ps[k] == x;
    }
    forall k, l | 0 <= k < l < |ps| ensures ps[k] != ps[l] {
      assert PairBefore(ps[k], ps[l]);
    }
    DistinctCard(ps);
  }

  /** A list without duplicates has as many members as items. */
  lemma {:induction false} DistinctCard<T>(xs: seq<T>)
    requires Distinct(xs)
    ensures |set x | x in xs| == |xs|
  {
    if |xs| > 0 {
      var tail := xs[1..];
      assert Distinct(tail);
      DistinctCard(tail);
      assert xs[0] !in tail;
      assert (set x | x in xs) == {xs[0]} + (set x | x in tail);
    }
  }
}
