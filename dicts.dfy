/**
 * A Python `dict` with string keys, as an association list in insertion order: assigning to a
 * present key replaces its value in place, assigning to a new key appends it. Iterating
 * `d.items()` walks the list front to back.
 */
module Dicts {
  import opened Wrappers
  import opened Seqs

  type Dict<V> = seq<(string, V)>

  ghost predicate UniqueKeys<V>(d: Dict<V>) {
    forall i, j | 0 <= i < j < |d| :: d[i].0 != d[j].0
  }

  /** The position of key `k`, if present. */
  function IndexOf<V>(d: Dict<V>, k: string): (r: Option<nat>)
    ensures r.Some? ==> r.value < |d| && d[r.value].0 == k
  {
    if d == [] then None
    else if d[0].0 == k then Some(0)
    else match IndexOf(d[1..], k)
      case None => None
      case Some(i) => Some(i + 1)
  }

  /** `IndexOf` finds the first occurrence of the key, and misses only an absent key. */
  lemma {:induction false} IndexOfSpec<V>(d: Dict<V>, k: string)
    ensures var r := IndexOf(d, k);
      && (r.Some? ==> forall j | 0 <= j < r.value :: d[j].0 != k)
      && (r.None? ==> forall j | 0 <= j < |d| :: d[j].0 != k)
  {
    if d != [] && d[0].0 != k {
      IndexOfSpec(d[1..], k);
      var r := IndexOf(d, k);
      if r.Some? {
        assert forall j | 1 <= j < r.value :: d[j] == d[1..][j - 1];
      } else {
        assert forall j | 1 <= j < |d| :: d[j] == d[1..][j - 1];
      }
    }
  }

  /** `d.get(k)` */
  function Get<V>(d: Dict<V>, k: string): Option<V>
  {
    match IndexOf(d, k)
    case None => None
    case Some(i) => Some(d[i].1)
  }

  /** `d.get(k, default)` */
  function GetOr<V>(d: Dict<V>, k: string, default: V): V {
    match Get(d, k)
    case Some(v) => v
    case None => default
  }

  /** `d.get(k)` finds a value exactly when the key is present, and with unique keys it is that entry's value. */
  lemma GetSpec<V>(d: Dict<V>, k: string)
    ensures Get(d, k).Some? <==> exists j | 0 <= j < |d| :: d[j].0 == k
    ensures UniqueKeys(d) ==> forall j | 0 <= j < |d| && d[j].0 == k :: Get(d, k) == Some(d[j].1)
  {
    IndexOfSpec(d, k);
  }

  /** `d[k] = v` */
  function Put<V>(d: Dict<V>, k: string, v: V): Dict<V>
  {
    match IndexOf(d, k)
    case Some(i) => d[i := (k, v)]
    case None => d + [(k, v)]
  }

  /**
   * After `d[k] = v`, `k` maps to `v` and every other key to what it mapped to before; an
   * assignment to a present key keeps every position, one to a new key appends it.
   */
  lemma PutSpec<V>(d: Dict<V>, k: string, v: V)
    ensures Get(Put(d, k, v), k) == Some(v)
    ensures forall k' | k' != k :: Get(Put(d, k, v), k') == Get(d, k')
    ensures UniqueKeys(d) ==> UniqueKeys(Put(d, k, v))
    ensures Get(d, k).Some? ==> |Put(d, k, v)| == |d| && forall j | 0 <= j < |d| :: Put(d, k, v)[j].0 == d[j].0
    ensures Get(d, k).None? ==> Put(d, k, v) == d + [(k, v)]
  {
    var r := Put(d, k, v);
    IndexOfSpec(d, k);
    match IndexOf(d, k)
    case Some(i) =>
      SameKeyPositions(d, r, k);
      forall k' | k' != k ensures Get(r, k') == Get(d, k') {
        SameKeyPositions(d, r, k');
        var j := IndexOf(d, k');
        if j.Some? { assert j.value != i && r[j.value] == d[j.value]; }
      }
      if UniqueKeys(d) {
        forall a, b | 0 <= a < b < |r| ensures r[a].0 != r[b].0 {
          assert r[a].0 == d[a].0 && r[b].0 == d[b].0;
        }
      }
    case None =>
      assert r[|d|].0 == k && forall j | 0 <= j < |d| :: r[j] == d[j];
      IndexOfExact(r, k, |d|);
      forall k' | k' != k ensures Get(r, k') == Get(d, k') {
        AppendOtherKey(d, k, v, k');
      }
  }

  /** Reading key `k2` after `d[k] = v`. */
  lemma PutGet<V>(d: Dict<V>, k: string, v: V, k2: string)
    ensures Get(Put(d, k, v), k2) == if k2 == k then Some(v) else Get(d, k2)
  {
    PutSpec(d, k, v);
  }

  /** The first position holding the key is what `IndexOf` returns. */
  lemma IndexOfExact<V>(d: Dict<V>, k: string, i: nat)
    requires i < |d| && d[i].0 == k && forall j | 0 <= j < i :: d[j].0 != k
    ensures IndexOf(d, k) == Some(i)
  {
    IndexOfSpec(d, k);
    var r := IndexOf(d, k);
    assert r.Some? && !(r.value < i) && !(i < r.value);
  }

  /** Two lists holding `k` at the same positions find it at the same position. */
  lemma SameKeyPositions<V>(d: Dict<V>, e: Dict<V>, k: string)
    requires |d| == |e|
    requires forall j | 0 <= j < |d| :: (d[j].0 == k) == (e[j].0 == k)
    ensures IndexOf(d, k) == IndexOf(e, k)
  {
    IndexOfSpec(d, k);
    IndexOfSpec(e, k);
    var a, b := IndexOf(d, k), IndexOf(e, k);
    if a.Some? && b.Some? {
      assert !(a.value < b.value) && !(b.value < a.value);
    }
  }

  lemma AppendOtherKey<V>(d: Dict<V>, k: string, v: V, k': string)
    requires k' != k
    ensures IndexOf(d + [(k, v)], k') == IndexOf(d, k')
  {
    var e := d + [(k, v)];
    IndexOfSpec(d, k');
    IndexOfSpec(e, k');
    var a, b := IndexOf(d, k'), IndexOf(e, k');
    if a.Some? {
      assert e[a.value] == d[a.value];
      assert b.Some? && !(b.value < a.value) && !(a.value < b.value);
    }
  }

  /** The test on an entry that its key satisfies `keep`. */
  function KeyPasses<V>(keep: string -> bool): ((string, V)) -> bool {
    (e: (string, V)) => keep(e.0)
  }

  /**
   * `{k: v for k, v in d.items() if keep(k)}`: the entries whose key satisfies `keep`, in their
   * order in `d`.
   */
  function FilterKeys<V>(d: Dict<V>, keep: string -> bool): (r: Dict<V>)
    ensures |r| <= |d|
  {
    Select(d, KeyPasses(keep))
  }

  /** The comprehension keeps exactly the entries whose key passes, and keys stay unique. */
  lemma FilterKeysSpec<V>(d: Dict<V>, keep: string -> bool)
    ensures var r := FilterKeys(d, keep);
      && (forall j | 0 <= j < |r| :: keep(r[j].0) && r[j] in d)
      && (forall j | 0 <= j < |d| && keep(d[j].0) :: d[j] in r)
      && (UniqueKeys(d) ==> UniqueKeys(r))
  {
    var r := FilterKeys(d, keep);
    forall j | 0 <= j < |r| ensures keep(r[j].0) && r[j] in d {
      SelectMembers(d, KeyPasses(keep), r[j]);
    }
    forall j | 0 <= j < |d| && keep(d[j].0) ensures d[j] in r {
      SelectMembers(d, KeyPasses(keep), d[j]);
    }
    if UniqueKeys(d) {
      FilterKeysUnique(d, keep);
    }
  }

  /** Filtering a dict with unique keys leaves the keys unique. */
  lemma {:induction false} FilterKeysUnique<V>(d: Dict<V>, keep: string -> bool)
    requires UniqueKeys(d)
    ensures UniqueKeys(FilterKeys(d, keep))
  {
    if d != [] {
      var tail := d[1..];
      assert forall j | 1 <= j < |d| :: d[j] == tail[j - 1];
      FilterKeysUnique(tail, keep);
      var rest := FilterKeys(tail, keep);
      if keep(d[0].0) {
        var r := [d[0]] + rest;
        assert FilterKeys(d, keep) == r;
        forall a, b | 0 <= a < b < |r| ensures r[a].0 != r[b].0 {
          if a == 0 {
            SelectMembers(tail, KeyPasses(keep), r[b]);
            var m :| 0 <= m < |tail| && tail[m] == r[b];
            assert d[m + 1] == r[b];
          } else {
            assert r[a] == rest[a - 1] && r[b] == rest[b - 1];
          }
        }
      } else {
        assert FilterKeys(d, keep) == rest;
      }
    }
  }
}
