/** Python's insertion-ordered `dict`, as a sequence of entries.

    A key that is stored again keeps its position; a new key goes to the
    end; deleting a key closes the gap.  Lookups return `None` for a
    missing key, which is where Python raises `KeyError` or `.get` falls
    back to its default. */
module Dicts {
  import opened Wrappers

  type Dict<K, V> = seq<(K, V)>

  /** No key appears twice. */
  predicate Valid<K(==), V>(d: Dict<K, V>) {
    forall i, j :: 0 <= i < j < |d| ==> d[i].0 != d[j].0
  }

  /** `list(d.keys())`. */
  function Keys<K, V>(d: Dict<K, V>): (ks: seq<K>)
    ensures |ks| == |d|
    ensures forall i :: 0 <= i < |d| ==> ks[i] == d[i].0
  {
    seq(|d|, i requires 0 <= i < |d| => d[i].0)
  }

  /** `list(d.values())`. */
  function Values<K, V>(d: Dict<K, V>): (vs: seq<V>)
    ensures |vs| == |d|
    ensures forall i :: 0 <= i < |d| ==> vs[i] == d[i].1
  {
    seq(|d|, i requires 0 <= i < |d| => d[i].1)
  }

  /** The position of the first entry with key `k`. */
  function Find<K(==), V>(d: Dict<K, V>, k: K): (r: Option<nat>)
    ensures r.None? <==> k !in Keys(d)
    ensures r.Some? ==> r.value < |d| && d[r.value].0 == k
    ensures r.Some? ==> forall i :: 0 <= i < r.value ==> d[i].0 != k
  {
    if |d| == 0 then None
    else if d[0].0 == k then Some(0)
    else
      var t := Find(d[1..], k);
      assert Keys(d) == [d[0].0] + Keys(d[1..]);
      if t.None? then None else Some(t.value + 1)
  }

  /** `d.get(k)`. */
  function Get<K(==), V>(d: Dict<K, V>, k: K): (r: Option<V>)
    ensures r.Some? <==> k in Keys(d)
    ensures r.Some? ==> (k, r.value) in d
  {
    match Find(d, k)
    case None => None
    case Some(i) => Some(d[i].1)
  }

  /** In a valid dictionary the entry for a key is the only one. */
  lemma GetEntry<K, V>(d: Dict<K, V>, i: nat)
    requires Valid(d) && i < |d|
    ensures Get(d, d[i].0) == Some(d[i].1)
  {
    var f := Find(d, d[i].0);
    assert f.Some?;
    assert f.value == i;
  }

  /** Lookups depend only on the keys' positions. */
  lemma {:induction false} FindByKeys<K, V>(d: Dict<K, V>, e: Dict<K, V>, k: K)
    requires Keys(d) == Keys(e)
    ensures Find(d, k) == Find(e, k)
  {
    if |d| > 0 {
      assert d[0].0 == Keys(d)[0] == e[0].0;
      if d[0].0 != k {
        assert Keys(d[1..]) == Keys(d)[1..] == Keys(e)[1..] == Keys(e[1..]);
        FindByKeys(d[1..], e[1..], k);
      }
    }
  }

  /** An entry appended under another key does not disturb a lookup. */
  lemma {:induction false} FindAppend<K, V>(d: Dict<K, V>, e: (K, V), k: K)
    requires e.0 != k
    ensures Find(d + [e], k) == Find(d, k)
  {
    if |d| == 0 {
      assert Find([e][1..], k) == None;
    } else if d[0].0 != k {
      assert (d + [e])[1..] == d[1..] + [e];
      FindAppend(d[1..], e, k);
    }
  }

  /** `d[k] = v`. */
  function Put<K(==,!new), V>(d: Dict<K, V>, k: K, v: V): (r: Dict<K, V>)
    ensures Keys(r) == if k in Keys(d) then Keys(d) else Keys(d) + [k]
    ensures Valid(d) ==> Valid(r)
    ensures Get(r, k) == Some(v)
    ensures forall k' :: k' != k ==> Get(r, k') == Get(d, k')
  {
    match Find(d, k)
    case Some(i) =>
      var r := d[i := (k, v)];
      assert Keys(r) == Keys(d);
      forall k' ensures Find(r, k') == Find(d, k') { FindByKeys(r, d, k'); }
      r
    case None =>
      var r := d + [(k, v)];
      assert Keys(r) == Keys(d) + [k];
      forall k' | k' != k ensures Find(r, k') == Find(d, k') { FindAppend(d, (k, v), k'); }
      assert Find(r, k) == Some(|d|);
      r
  }

  /** Removing entry `i` leaves every other key's lookup as it was. */
  lemma GetAfterRemove<K, V>(d: Dict<K, V>, i: nat, k: K)
    requires Valid(d) && i < |d| && k != d[i].0
    ensures Get(d[..i] + d[i + 1..], k) == Get(d, k)
  {
    var r := d[..i] + d[i + 1..];
    assert forall j :: 0 <= j < |r| ==> r[j] == (if j < i then d[j] else d[j + 1]);
    assert Valid(r);
    var f := Find(d, k);
    if f.Some? {
      var j := f.value;
      var m := if j < i then j else j - 1;
      assert r[m] == d[j];
      GetEntry(d, j);
      GetEntry(r, m);
    } else {
      assert k !in Keys(r);
    }
  }

  /** `del d[k]` (a missing key leaves the dictionary as it is, where
      Python raises `KeyError`; callers test membership first). */
  function Delete<K(==,!new), V>(d: Dict<K, V>, k: K): (r: Dict<K, V>)
    requires Valid(d)
    ensures Valid(r)
    ensures |r| == if k in Keys(d) then |d| - 1 else |d|
    ensures Get(r, k) == None
    ensures forall k' :: k' != k ==> Get(r, k') == Get(d, k')
  {
    match Find(d, k)
    case None => d
    case Some(i) =>
      var r := d[..i] + d[i + 1..];
      assert forall j :: 0 <= j < |r| ==> r[j] == (if j < i then d[j] else d[j + 1]);
      assert k !in Keys(r);
      forall k' | k' != k ensures Get(r, k') == Get(d, k') {
        GetAfterRemove(d, i, k');
      }
      r
  }

  /** `{k: v for k, v in d.items() if keep((k, v))}`. */
  function Retain<K(!new), V(!new)>(d: Dict<K, V>, keep: ((K, V)) -> bool): (r: Dict<K, V>)
    ensures |r| <= |d|
    ensures forall e :: e in r <==> e in d && keep(e)
  {
    if |d| == 0 then []
    else (if keep(d[0]) then [d[0]] else []) + Retain(d[1..], keep)
  }

  /** In a valid dictionary an entry is what its key looks up. */
  lemma EntryGet<K, V>(d: Dict<K, V>, k: K, v: V)
    requires Valid(d) && (k, v) in d
    ensures Get(d, k) == Some(v)
  {
    var i :| 0 <= i < |d| && d[i] == (k, v);
    GetEntry(d, i);
  }

  /** Dropping entries keeps the keys distinct. */
  lemma {:induction false} RetainValid<K(!new), V(!new)>(d: Dict<K, V>, keep: ((K, V)) -> bool)
    requires Valid(d)
    ensures Valid(Retain(d, keep))
  {
    if |d| > 0 {
      var rest := Retain(d[1..], keep);
      RetainValid(d[1..], keep);
      if keep(d[0]) {
        var r := [d[0]] + rest;
        forall i, j | 0 <= i < j < |r| ensures r[i].0 != r[j].0 {
          if i == 0 {
            assert r[j] in d[1..];
            var m :| 0 <= m < |d[1..]| && d[1..][m] == r[j];
            assert d[m + 1] == r[j];
          } else {
            assert r[i] == rest[i - 1] && r[j] == rest[j - 1];
          }
        }
      }
    }
  }

  /** A key keeps its value when its entry passes, and is gone otherwise. */
  lemma RetainGet<K(!new), V(!new)>(d: Dict<K, V>, keep: ((K, V)) -> bool, k: K)
    requires Valid(d)
    ensures Get(Retain(d, keep), k) == if Get(d, k).Some? && keep((k, Get(d, k).value)) then Get(d, k) else None
  {
    var r := Retain(d, keep);
    RetainValid(d, keep);
    match Get(d, k)
    case Some(v) =>
      if keep((k, v)) {
        EntryGet(r, k, v);
      } else if Get(r, k).Some? {
        EntryGet(d, k, Get(r, k).value);
      }
    case None =>
      if Get(r, k).Some? {
        EntryGet(d, k, Get(r, k).value);
      }
  }

  /** The position of the last entry with key `k` in a list of entries. */
  function LastWith<K(==), V>(es: seq<(K, V)>, k: K): (r: Option<nat>)
    ensures r.None? <==> forall i :: 0 <= i < |es| ==> es[i].0 != k
    ensures r.Some? ==> r.value < |es| && es[r.value].0 == k
    ensures r.Some? ==> forall j :: r.value < j < |es| ==> es[j].0 != k
  {
    if |es| == 0 then None
    else if es[|es| - 1].0 == k then Some(|es| - 1)
    else LastWith(es[..|es| - 1], k)
  }

  /** `d.update(es)`: the entries are stored in turn, so for a key listed
      more than once the last entry wins. */
  function Update<K(==,!new), V>(d: Dict<K, V>, es: seq<(K, V)>): (r: Dict<K, V>)
    ensures Valid(d) ==> Valid(r)
    ensures |d| <= |r| && Keys(r)[..|d|] == Keys(d)
  {
    if |es| == 0 then d
    else Put(Update(d, es[..|es| - 1]), es[|es| - 1].0, es[|es| - 1].1)
  }

  /** After an update a key holds the value of its last entry, and keeps
      its old value when no entry names it. */
  lemma {:induction false} UpdateGet<K(!new), V>(d: Dict<K, V>, es: seq<(K, V)>, k: K)
    ensures Get(Update(d, es), k) == match LastWith(es, k)
                                     case Some(i) => Some(es[i].1)
                                     case None => Get(d, k)
  {
    if |es| > 0 {
      var front := es[..|es| - 1];
      UpdateGet(d, front, k);
      if es[|es| - 1].0 != k {
        assert LastWith(es, k) == LastWith(front, k);
        match LastWith(front, k)
        case Some(i) => assert front[i] == es[i];
        case None =>
      }
    }
  }

  /** An update keeps the old keys and adds exactly the keys its entries
      name. */
  lemma UpdateKeys<K(!new), V>(d: Dict<K, V>, es: seq<(K, V)>, k: K)
    ensures k in Keys(Update(d, es)) <==> k in Keys(d) || exists i :: 0 <= i < |es| && es[i].0 == k
  {
    UpdateGet(d, es, k);
  }
}
