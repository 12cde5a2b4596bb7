/** `core/cache_manager.py`: namespaced caches of timestamped values with
    a default lifetime of an hour, periodic clean-up, and the `cached`
    wrapper that consults the cache before calling a function.

    The clock is a parameter (`now`, in seconds); locks are left out, since
    every operation here is one atomic step.  A stored value is any JSON
    value, and `Null` is Python's `None`. */
module CacheManager {
  import opened Wrappers
  import opened Json
  import opened Dicts
  import Seqs

  /** A cached value and the time it was stored. */
  datatype Entry = Entry(value: Value, stamp: real)

  type Space = Dict<string, Entry>

  /** `_caches` and `_last_cleanup`. */
  datatype Cache = Cache(spaces: Dict<string, Space>, lastCleanup: real)

  /** Namespaces and the keys within each are distinct. */
  predicate Valid(c: Cache) {
    Dicts.Valid(c.spaces) && forall i :: 0 <= i < |c.spaces| ==> Dicts.Valid(c.spaces[i].1)
  }

  const DefaultExpire: int := 3600
  const CleanupInterval: real := 600.0

  /** A new manager created at `now`. */
  function Init(now: real): (c: Cache)
    ensures Valid(c) && c.spaces == []
  {
    Cache([], now)
  }

  /** `expire_time or self._default_expire`: a missing or zero lifetime
      means an hour. */
  function ExpireOr(expire: Option<int>): (e: int)
    ensures expire.None? || expire == Some(0) ==> e == DefaultExpire
    ensures expire.Some? && expire.value != 0 ==> e == expire.value
  {
    if expire.None? || expire.value == 0 then DefaultExpire else expire.value
  }

  /** The entries of a namespace; an unknown namespace is empty. */
  function SpaceOf(c: Cache, ns: string): Space {
    Get(c.spaces, ns).GetOr([])
  }

  /** Looking a namespace up through `get_cache` creates it. */
  function WithSpace(c: Cache, ns: string, sp: Space): (r: Cache)
    requires Valid(c) && Dicts.Valid(sp)
    ensures Valid(r)
    ensures SpaceOf(r, ns) == sp && ns in Keys(r.spaces)
    ensures forall n :: n != ns ==> Get(r.spaces, n) == Get(c.spaces, n)
    ensures Keys(r.spaces) == if ns in Keys(c.spaces) then Keys(c.spaces) else Keys(c.spaces) + [ns]
    ensures r.lastCleanup == c.lastCleanup
  {
    var spaces := Put(c.spaces, ns, sp);
    forall i | 0 <= i < |spaces| ensures Dicts.Valid(spaces[i].1) {
      var n := spaces[i].0;
      GetEntry(spaces, i);
      if n != ns {
        var v := Get(c.spaces, n).value;
        assert (n, v) in c.spaces;
      }
    }
    Cache(spaces, c.lastCleanup)
  }

  lemma SpaceValid(c: Cache, ns: string)
    requires Valid(c)
    ensures Dicts.Valid(SpaceOf(c, ns))
  {
    if Get(c.spaces, ns).Some? {
      var v := Get(c.spaces, ns).value;
      assert (ns, v) in c.spaces;
    }
  }

  /** Whether an entry stored at `stamp` is still served at `now`. */
  predicate Live(stamp: real, expire: int, now: real) {
    now - stamp < expire as real
  }

  /** `get`: the stored value while it is younger than the lifetime, else
      `None`; an expired entry is deleted on the way.  The namespace exists
      afterwards either way. */
  function GetValue(c: Cache, ns: string, key: string, expire: Option<int>, now: real): (r: (Value, Cache))
    requires Valid(c)
    ensures Valid(r.1) && ns in Keys(r.1.spaces)
    ensures forall n :: n != ns ==> Get(r.1.spaces, n) == Get(c.spaces, n)
    ensures var e := Get(SpaceOf(c, ns), key);
            && (e.Some? && Live(e.value.stamp, ExpireOr(expire), now) ==> r.0 == e.value.value && SpaceOf(r.1, ns) == SpaceOf(c, ns))
            && (e.Some? && !Live(e.value.stamp, ExpireOr(expire), now) ==> r.0 == Null && Get(SpaceOf(r.1, ns), key).None?)
            && (e.None? ==> r.0 == Null && SpaceOf(r.1, ns) == SpaceOf(c, ns))
    ensures forall k :: k != key ==> Get(SpaceOf(r.1, ns), k) == Get(SpaceOf(c, ns), k)
    ensures r.1.lastCleanup == c.lastCleanup
  {
    var sp := SpaceOf(c, ns);
    SpaceValid(c, ns);
    match Get(sp, key)
    case Some(e) =>
      if Live(e.stamp, ExpireOr(expire), now) then (e.value, WithSpace(c, ns, sp))
      else (Null, WithSpace(c, ns, Delete(sp, key)))
    case None => (Null, WithSpace(c, ns, sp))
  }

  /** `set`: stores the value with the current time. */
  function SetValue(c: Cache, ns: string, key: string, v: Value, now: real): (r: Cache)
    requires Valid(c)
    ensures Valid(r)
    ensures Get(SpaceOf(r, ns), key) == Some(Entry(v, now))
    ensures forall k :: k != key ==> Get(SpaceOf(r, ns), k) == Get(SpaceOf(c, ns), k)
    ensures forall n :: n != ns ==> Get(r.spaces, n) == Get(c.spaces, n)
    ensures r.lastCleanup == c.lastCleanup
  {
    SpaceValid(c, ns);
    WithSpace(c, ns, Put(SpaceOf(c, ns), key, Entry(v, now)))
  }

  /** What was set is what is got, for as long as it lives. */
  lemma SetThenGet(c: Cache, ns: string, key: string, v: Value, t: real, expire: Option<int>, now: real)
    requires Valid(c)
    requires Live(t, ExpireOr(expire), now)
    ensures GetValue(SetValue(c, ns, key, v, t), ns, key, expire, now).0 == v
  {
  }

  /** Once its lifetime has passed, a set value is gone. */
  lemma SetThenExpire(c: Cache, ns: string, key: string, v: Value, t: real, expire: Option<int>, now: real)
    requires Valid(c)
    requires !Live(t, ExpireOr(expire), now)
    ensures GetValue(SetValue(c, ns, key, v, t), ns, key, expire, now).0 == Null
    ensures Get(SpaceOf(GetValue(SetValue(c, ns, key, v, t), ns, key, expire, now).1, ns), key).None?
  {
  }

  /** `delete`: without a key the whole namespace is emptied, otherwise
      only that key is removed. */
  function DeleteKey(c: Cache, ns: string, key: Option<string>): (r: Cache)
    requires Valid(c)
    ensures Valid(r) && ns in Keys(r.spaces)
    ensures Keys(r.spaces) == if ns in Keys(c.spaces) then Keys(c.spaces) else Keys(c.spaces) + [ns]
    ensures key.None? ==> SpaceOf(r, ns) == []
    ensures key.Some? ==> Get(SpaceOf(r, ns), key.value).None?
    ensures key.Some? ==> forall k :: k != key.value ==> Get(SpaceOf(r, ns), k) == Get(SpaceOf(c, ns), k)
    ensures forall n :: n != ns ==> Get(r.spaces, n) == Get(c.spaces, n)
    ensures r.lastCleanup == c.lastCleanup
  {
    SpaceValid(c, ns);
    match key
    case None => WithSpace(c, ns, [])
    case Some(k) => WithSpace(c, ns, Delete(SpaceOf(c, ns), k))
  }

  /** The entries of `sp` still alive at `now`. */
  function Unexpired(sp: Space, expire: int, now: real): (r: Space)
    requires Dicts.Valid(sp)
    ensures Dicts.Valid(r)
    ensures forall k :: Get(r, k) == if Get(sp, k).Some? && Live(Get(sp, k).value.stamp, expire, now) then Get(sp, k) else None
  {
    var keep := (e: (string, Entry)) => Live(e.1.stamp, expire, now);
    RetainValid(sp, keep);
    forall k ensures Get(Retain(sp, keep), k) == if Get(sp, k).Some? && Live(Get(sp, k).value.stamp, expire, now) then Get(sp, k) else None {
      RetainGet(sp, keep, k);
    }
    Retain(sp, keep)
  }

  /** Clears the expired entries of each namespace of `names` in turn. */
  function ClearEach(c: Cache, names: seq<string>, expire: int, now: real): (r: Cache)
    requires Valid(c)
    ensures Valid(r) && r.lastCleanup == c.lastCleanup
    ensures forall n :: n in names ==> n in Keys(r.spaces) && SpaceOf(r, n) == Unexpired(SpaceOf(c, n), expire, now)
    ensures forall n :: n !in names ==> Get(r.spaces, n) == Get(c.spaces, n)
    ensures forall n :: n in Keys(r.spaces) <==> n in Keys(c.spaces) || n in names
    decreases |names|
  {
    if |names| == 0 then c
    else
      var ns := names[0];
      SpaceValid(c, ns);
      var c1 := WithSpace(c, ns, Unexpired(SpaceOf(c, ns), expire, now));
      var r := ClearEach(c1, names[1..], expire, now);
      forall n | n in names ensures SpaceOf(r, n) == Unexpired(SpaceOf(c, n), expire, now) {
        if n !in names[1..] {
          assert n == ns;
        } else if n == ns {
          UnexpiredTwice(SpaceOf(c, ns), expire, now);
        }
      }
      r
  }

  /** Clearing a namespace twice at the same moment clears it once. */
  lemma UnexpiredTwice(sp: Space, expire: int, now: real)
    requires Dicts.Valid(sp)
    ensures Unexpired(Unexpired(sp, expire, now), expire, now) == Unexpired(sp, expire, now)
  {
    var once := Unexpired(sp, expire, now);
    var keep := (e: (string, Entry)) => Live(e.1.stamp, expire, now);
    assert forall e :: e in once ==> keep(e);
    Seqs.FilterAll(once, keep);
    RetainIsFilter(once, keep);
  }

  /** `Retain` on a dictionary is the list filter on its entries. */
  lemma {:induction false} RetainIsFilter<K(!new), V(!new)>(d: Dict<K, V>, keep: ((K, V)) -> bool)
    ensures Retain(d, keep) == Seqs.Filter(d, keep)
  {
    if |d| > 0 {
      RetainIsFilter(d[1..], keep);
    }
  }

  /** `clear_expired`: the named namespace, or every namespace when none is
      named (an empty name counts as none), keeps exactly its entries that
      are younger than the lifetime. */
  function ClearExpired(c: Cache, ns: Option<string>, expire: Option<int>, now: real): (r: Cache)
    requires Valid(c)
    ensures Valid(r) && r.lastCleanup == c.lastCleanup
    ensures ns.Some? && ns.value != "" ==>
              && SpaceOf(r, ns.value) == Unexpired(SpaceOf(c, ns.value), ExpireOr(expire), now)
              && forall n :: n != ns.value ==> Get(r.spaces, n) == Get(c.spaces, n)
    ensures ns.None? || ns == Some("") ==>
              && Keys(r.spaces) == Keys(c.spaces)
              && forall n :: n in Keys(c.spaces) ==> SpaceOf(r, n) == Unexpired(SpaceOf(c, n), ExpireOr(expire), now)
  {
    var names := if ns.Some? && ns.value != "" then [ns.value] else Keys(c.spaces);
    var r := ClearEach(c, names, ExpireOr(expire), now);
    assert ns.None? || ns == Some("") ==> Keys(r.spaces) == Keys(c.spaces) by {
      if ns.None? || ns == Some("") {
        KeysSameOrder(c, r, names, ExpireOr(expire), now);
      }
    }
    r
  }

  /** Re-storing existing namespaces keeps their order. */
  lemma {:induction false} KeysSameOrder(c: Cache, r: Cache, names: seq<string>, expire: int, now: real)
    requires Valid(c) && forall n :: n in names ==> n in Keys(c.spaces)
    requires r == ClearEach(c, names, expire, now)
    ensures Keys(r.spaces) == Keys(c.spaces)
    decreases |names|
  {
    if |names| > 0 {
      var ns := names[0];
      SpaceValid(c, ns);
      var c1 := WithSpace(c, ns, Unexpired(SpaceOf(c, ns), expire, now));
      KeysSameOrder(c1, r, names[1..], expire, now);
    }
  }

  /** `auto_cleanup`: clears every namespace and records the time, but
      only when more than ten minutes have passed since the last time. */
  function AutoCleanup(c: Cache, now: real): (r: Cache)
    requires Valid(c)
    ensures Valid(r)
    ensures now - c.lastCleanup <= CleanupInterval ==> r == c
    ensures now - c.lastCleanup > CleanupInterval ==>
              && r.lastCleanup == now
              && Keys(r.spaces) == Keys(c.spaces)
              && forall n :: n in Keys(c.spaces) ==> SpaceOf(r, n) == Unexpired(SpaceOf(c, n), DefaultExpire, now)
  {
    if now - c.lastCleanup > CleanupInterval then ClearExpired(c, None, None, now).(lastCleanup := now)
    else c
  }

  /** `get_stats`. */
  datatype Stats = Stats(namespaces: nat, totalItems: nat, details: Dict<string, nat>)

  function SumSizes(spaces: Dict<string, Space>): nat {
    if |spaces| == 0 then 0 else |spaces[0].1| + SumSizes(spaces[1..])
  }

  function SumNat(xs: seq<nat>): nat {
    if |xs| == 0 then 0 else xs[0] + SumNat(xs[1..])
  }

  function GetStats(c: Cache): (s: Stats)
    ensures s.namespaces == |s.details| == |c.spaces|
    ensures Keys(s.details) == Keys(c.spaces)
    ensures forall i :: 0 <= i < |c.spaces| ==> s.details[i].1 == |c.spaces[i].1|
    ensures s.totalItems == SumNat(Values(s.details))
  {
    var details := seq(|c.spaces|, i requires 0 <= i < |c.spaces| => (c.spaces[i].0, |c.spaces[i].1|));
    SumSizesDetails(c.spaces, details);
    Stats(|c.spaces|, SumSizes(c.spaces), details)
  }

  lemma {:induction false} SumSizesDetails(spaces: Dict<string, Space>, details: Dict<string, nat>)
    requires |details| == |spaces| && forall i :: 0 <= i < |spaces| ==> details[i].1 == |spaces[i].1|
    ensures SumSizes(spaces) == SumNat(Values(details))
  {
    if |spaces| > 0 {
      assert Values(details)[1..] == Values(details[1..]);
      SumSizesDetails(spaces[1..], details[1..]);
    }
  }

  /** Whether the periodic clean-up at `now` keeps an entry stored at
      `stamp`: it runs only once ten minutes have passed, and then drops
      what is an hour old. */
  predicate SurvivesCleanup(c: Cache, stamp: real, now: real) {
    now - c.lastCleanup > CleanupInterval ==> Live(stamp, DefaultExpire, now)
  }

  /** Whether `cached` serves the stored entry under `key`: it exists, is
      not `None`, outlives the clean-up and is younger than the lifetime. */
  predicate Hit(c: Cache, ns: string, key: string, expire: int, now: real) {
    var e := Get(SpaceOf(c, ns), key);
    && e.Some? && e.value.value != Null
    && SurvivesCleanup(c, e.value.stamp, now)
    && Live(e.value.stamp, ExpireOr(Some(expire)), now)
  }

  /** `cached`: after the periodic clean-up, a live cached value that is
      not `None` is served and left in place; otherwise the function's
      result `computed` is returned and stored under `key` with the stamp
      `now`.  The clean-up is the only other change. */
  function Cached(c: Cache, ns: string, key: string, expire: int, now: real, computed: Value): (r: (Value, Cache))
    requires Valid(c)
    ensures Valid(r.1)
    ensures Hit(c, ns, key, expire, now) ==>
              r.0 == Get(SpaceOf(c, ns), key).value.value && Get(SpaceOf(r.1, ns), key) == Get(SpaceOf(c, ns), key)
    ensures !Hit(c, ns, key, expire, now) ==>
              r.0 == computed && Get(SpaceOf(r.1, ns), key) == Some(Entry(computed, now))
    ensures forall k :: k != key ==> Get(SpaceOf(r.1, ns), k) == Get(SpaceOf(AutoCleanup(c, now), ns), k)
    ensures forall n :: n != ns ==> Get(r.1.spaces, n) == Get(AutoCleanup(c, now).spaces, n)
    ensures r.1.lastCleanup == if now - c.lastCleanup > CleanupInterval then now else c.lastCleanup
  {
    var a := AutoCleanup(c, now);
    CleanupKeeps(c, now, ns, key);
    var (hit, after) := GetValue(a, ns, key, Some(expire), now);
    if hit != Null then (hit, after) else (computed, SetValue(after, ns, key, computed, now))
  }

  /** The entry the clean-up leaves under `key`: the stored one if it
      survives, else none. */
  lemma CleanupKeeps(c: Cache, now: real, ns: string, key: string)
    requires Valid(c)
    ensures var e := Get(SpaceOf(c, ns), key);
            Get(SpaceOf(AutoCleanup(c, now), ns), key) == if e.Some? && SurvivesCleanup(c, e.value.stamp, now) then e else None
  {
    var a := AutoCleanup(c, now);
    if now - c.lastCleanup > CleanupInterval && ns !in Keys(c.spaces) {
      assert Get(a.spaces, ns).None?;
    }
  }

  /** The wrapper never serves `None`: a call either returns what the
      function computed, or a value that is not `None`. */
  lemma CachedNeverServesNone(c: Cache, ns: string, key: string, expire: int, now: real, computed: Value)
    requires Valid(c)
    ensures Cached(c, ns, key, expire, now, computed).0 == Null ==> computed == Null
  {
  }

  /** A stored `None` is never a hit: the function is called again and
      its new result is returned. */
  lemma StoredNoneRecomputed(c: Cache, ns: string, key: string, expire: int, now: real, t: real, computed: Value)
    requires Valid(c)
    requires Get(SpaceOf(c, ns), key) == Some(Entry(Null, t))
    ensures Cached(c, ns, key, expire, now, computed).0 == computed
  {
    var a := AutoCleanup(c, now);
    assert ns in Keys(c.spaces);
    assert Get(SpaceOf(a, ns), key).None? || Get(SpaceOf(a, ns), key) == Some(Entry(Null, t));
  }

  /** `clear_cache`: empties the named namespace, or every namespace. */
  function ClearCache(c: Cache, ns: Option<string>): (r: Cache)
    requires Valid(c)
    ensures Valid(r)
    ensures ns.Some? && ns.value != "" ==> SpaceOf(r, ns.value) == []
    ensures ns.Some? && ns.value != "" ==> forall n :: n != ns.value ==> Get(r.spaces, n) == Get(c.spaces, n)
    ensures ns.None? || ns == Some("") ==> Keys(r.spaces) == Keys(c.spaces)
    ensures ns.None? || ns == Some("") ==> forall n :: n in Keys(c.spaces) ==> SpaceOf(r, n) == []
    ensures r.lastCleanup == c.lastCleanup
  {
    if ns.Some? && ns.value != "" then DeleteKey(c, ns.value, None)
    else DeleteEach(c, Keys(c.spaces))
  }

  function DeleteEach(c: Cache, names: seq<string>): (r: Cache)
    requires Valid(c)
    ensures Valid(r)
    ensures forall n :: n in names ==> SpaceOf(r, n) == []
    ensures forall n :: n !in names ==> Get(r.spaces, n) == Get(c.spaces, n)
    ensures (forall n :: n in names ==> n in Keys(c.spaces)) ==> Keys(r.spaces) == Keys(c.spaces)
    ensures r.lastCleanup == c.lastCleanup
    decreases |names|
  {
    if |names| == 0 then c else DeleteEach(DeleteKey(c, names[0], None), names[1..])
  }
}
