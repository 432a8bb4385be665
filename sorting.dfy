/**
 * Python's `list.sort(key=..., reverse=...)` and `sorted(...)`, by what they promise: a stable
 * sort. It is given as an insertion sort under a comparator `le`, where `le(a, b)` says that `a`
 * may stand before `b` (`key(a) <= key(b)`, or `key(a) >= key(b)` for `reverse=True`, which
 * Python keeps stable too).
 */
module Sorting {
  import opened Seqs

  /** `le` is a total preorder: any two elements compare, and comparison chains. */
  ghost predicate TotalPreorder<T(!new)>(le: (T, T) -> bool) {
    && (forall a, b :: le(a, b) || le(b, a))
    && (forall a, b, c :: le(a, b) && le(b, c) ==> le(a, c))
  }

  ghost predicate SortedBy<T>(s: seq<T>, le: (T, T) -> bool) {
    forall i, j | 0 <= i < j < |s| :: le(s[i], s[j])
  }

  /** Puts `x` before the first element it may precede. */
  function Insert<T>(x: T, s: seq<T>, le: (T, T) -> bool): (r: seq<T>)
    ensures multiset(r) == multiset(s) + multiset{x}
  {
    if s == [] then [x]
    else if le(x, s[0]) then [x] + s
    else
      assert s == [s[0]] + s[1..];
      [s[0]] + Insert(x, s[1..], le)
  }

  /** The stable sort of `s` under `le`. */
  function SortBy<T>(s: seq<T>, le: (T, T) -> bool): (r: seq<T>)
    ensures multiset(r) == multiset(s)
    ensures |r| == |s|
  {
    if s == [] then []
    else
      assert s == [s[0]] + s[1..];
      Insert(s[0], SortBy(s[1..], le), le)
  }

  lemma {:induction false} InsertSorted<T(!new)>(x: T, s: seq<T>, le: (T, T) -> bool)
    requires TotalPreorder(le) && SortedBy(s, le)
    ensures SortedBy(Insert(x, s, le), le)
  {
    if s != [] && !le(x, s[0]) {
      InsertSorted(x, s[1..], le);
      var r := Insert(x, s, le);
      var t := Insert(x, s[1..], le);
      assert r == [s[0]] + t;
      forall j | 0 < j < |r| ensures le(s[0], r[j]) {
        assert r[j] in multiset(t);
        assert r[j] in multiset(s[1..]) + multiset{x};
        if r[j] != x {
          assert r[j] in s[1..];
        }
      }
    }
  }

  /** The result of `SortBy` is ordered under `le`. */
  lemma {:induction false} SortBySorted<T(!new)>(s: seq<T>, le: (T, T) -> bool)
    requires TotalPreorder(le)
    ensures SortedBy(SortBy(s, le), le)
  {
    if s != [] {
      SortBySorted(s[1..], le);
      InsertSorted(s[0], SortBy(s[1..], le), le);
    }
  }

  /** Elements that cannot precede `x` are skipped over, the rest does not move. */
  lemma {:induction false} InsertSelect<T>(x: T, s: seq<T>, le: (T, T) -> bool, p: T -> bool)
    requires forall j | 0 <= j < |s| && p(s[j]) :: le(x, s[j]) || !p(x)
    ensures Select(Insert(x, s, le), p) == (if p(x) then [x] else []) + Select(s, p)
  {
    if s == [] {
      SelectCons(x, [], p);
      assert [x] + [] == [x];
    } else if le(x, s[0]) {
      SelectCons(x, s, p);
    } else {
      InsertSelect(x, s[1..], le, p);
      assert s == [s[0]] + s[1..];
      SelectPast(s[0], Insert(x, s[1..], le), s[1..], if p(x) then [x] else [], p);
    }
  }

  lemma SelectCons<T>(a: T, s: seq<T>, p: T -> bool)
    ensures Select([a] + s, p) == (if p(a) then [a] else []) + Select(s, p)
  {
    assert ([a] + s)[1..] == s;
  }

  /** `a` in front of two lists whose selections differ by `mid` in front, when `a` and `mid` are not both picked. */
  lemma SelectPast<T>(a: T, t: seq<T>, rest: seq<T>, mid: seq<T>, p: T -> bool)
    requires Select(t, p) == mid + Select(rest, p)
    requires !p(a) || mid == []
    ensures Select([a] + t, p) == mid + Select([a] + rest, p)
  {
    SelectCons(a, t, p);
    SelectCons(a, rest, p);
    if !p(a) {
      assert [] + Select(t, p) == Select(t, p);
      assert [] + Select(rest, p) == Select(rest, p);
    } else {
      assert mid + Select([a] + rest, p) == Select([a] + rest, p);
    }
  }

  /**
   * Stability: elements that `p` picks out, all equivalent under `le`, keep their relative
   * order.
   */
  lemma {:induction false} SortByStable<T(!new)>(s: seq<T>, le: (T, T) -> bool, p: T -> bool)
    requires TotalPreorder(le)
    requires forall a, b :: p(a) && p(b) ==> le(a, b)
    ensures Select(SortBy(s, le), p) == Select(s, p)
  {
    if s != [] {
      SortByStable(s[1..], le, p);
      InsertSelect(s[0], SortBy(s[1..], le), le, p);
      assert Select(s, p) == (if p(s[0]) then [s[0]] else []) + Select(s[1..], p);
    }
  }
}
