/**
 * Filtering a list: a comprehension with an `if` (`[x for x in s if p(x)]`), and a loop that
 * appends one result for each element it does not skip.
 */
module Seqs {
  import opened Wrappers

  /** The elements of `s` that satisfy `p`, in order. */
  function Select<T>(s: seq<T>, p: T -> bool): (r: seq<T>)
    ensures |r| <= |s|
    ensures forall j | 0 <= j < |r| :: p(r[j])
  {
    if s == [] then [] else (if p(s[0]) then [s[0]] else []) + Select(s[1..], p)
  }

  /** Elements that all satisfy `p` are all kept. */
  lemma {:induction false} SelectAll<T>(s: seq<T>, p: T -> bool)
    requires forall j | 0 <= j < |s| :: p(s[j])
    ensures Select(s, p) == s
  {
    if s != [] {
      assert forall j | 0 <= j < |s[1..]| :: s[1..][j] == s[j + 1];
      SelectAll(s[1..], p);
      assert [s[0]] + s[1..] == s;
    }
  }

  /** Elements none of which satisfies `p` are all dropped. */
  lemma {:induction false} SelectNone<T>(s: seq<T>, p: T -> bool)
    requires forall j | 0 <= j < |s| :: !p(s[j])
    ensures Select(s, p) == []
  {
    if s != [] {
      assert forall j | 0 <= j < |s[1..]| :: s[1..][j] == s[j + 1];
      SelectNone(s[1..], p);
    }
  }

  /** An element is selected exactly when it occurs in `s` and satisfies `p`. */
  lemma {:induction false} SelectMembers<T>(s: seq<T>, p: T -> bool, x: T)
    ensures x in Select(s, p) <==> x in s && p(x)
  {
    if s != [] {
      SelectMembers(s[1..], p, x);
      assert x in s <==> x == s[0] || x in s[1..];
    }
  }

  /** Selection keeps as many copies of each selected element as `s` has. */
  lemma {:induction false} SelectMultiset<T>(s: seq<T>, p: T -> bool, x: T)
    ensures multiset(Select(s, p))[x] == if p(x) then multiset(s)[x] else 0
  {
    if s != [] {
      SelectMultiset(s[1..], p, x);
      assert s == [s[0]] + s[1..];
    }
  }

  lemma {:induction false} SelectAppend<T>(a: seq<T>, b: seq<T>, p: T -> bool)
    ensures Select(a + b, p) == Select(a, p) + Select(b, p)
  {
    if a == [] {
      assert a + b == b;
    } else {
      assert (a + b)[1..] == a[1..] + b;
      SelectAppend(a[1..], b, p);
    }
  }

  /** The results `f` gives for the elements of `xs`, in order. */
  function Each<A, B>(f: A -> B, xs: seq<A>): (ys: seq<B>)
    ensures |ys| == |xs|
    ensures forall i | 0 <= i < |xs| :: ys[i] == f(xs[i])
  {
    seq(|xs|, i requires 0 <= i < |xs| => f(xs[i]))
  }

  /** The results of a concatenation are the results of each part, in order. */
  lemma EachAppend<A, B>(f: A -> B, a: seq<A>, b: seq<A>)
    ensures Each(f, a + b) == Each(f, a) + Each(f, b)
  {
    var l, r := Each(f, a + b), Each(f, a) + Each(f, b);
    forall i | 0 <= i < |a + b| ensures l[i] == r[i] {
      if i < |a| {
        assert (a + b)[i] == a[i];
      } else {
        assert (a + b)[i] == b[i - |a|];
      }
    }
  }

  /**
   * The results `f` gives for the elements of `xs`, in order, None meaning that the element
   * is skipped.
   */
  function FilterMap<A, B>(f: A -> Option<B>, xs: seq<A>): (ys: seq<B>)
    ensures |ys| <= |xs|
  {
    if xs == [] then []
    else FilterMap(f, xs[..|xs| - 1]) + Kept(f(xs[|xs| - 1]))
  }

  /** The result of one element as a list: empty when it is skipped. */
  function Kept<B>(o: Option<B>): (s: seq<B>)
    ensures |s| <= 1
  {
    if o.Some? then [o.value] else []
  }

  /** One more element adds its result, if any, at the end: the step of the loop. */
  lemma FilterMapStep<A, B>(f: A -> Option<B>, xs: seq<A>, i: nat)
    requires i < |xs|
    ensures FilterMap(f, xs[..i + 1]) == FilterMap(f, xs[..i]) + Kept(f(xs[i]))
  {
    assert xs[..i + 1][..i] == xs[..i];
  }

  /** The results of a concatenation are the results of each part, in order. */
  lemma {:induction false} FilterMapAppend<A, B>(f: A -> Option<B>, a: seq<A>, b: seq<A>)
    ensures FilterMap(f, a + b) == FilterMap(f, a) + FilterMap(f, b)
    decreases |b|
  {
    if b == [] {
      assert a + b == a;
    } else {
      var n := |b| - 1;
      assert (a + b)[..|a + b| - 1] == a + b[..n] && (a + b)[|a + b| - 1] == b[n];
      FilterMapAppend(f, a, b[..n]);
    }
  }

  /** With nothing skipped, the i-th result is that of the i-th element. */
  lemma {:induction false} FilterMapAllKept<A, B>(f: A -> Option<B>, xs: seq<A>)
    requires forall i | 0 <= i < |xs| :: f(xs[i]).Some?
    ensures |FilterMap(f, xs)| == |xs|
    ensures forall i | 0 <= i < |xs| :: FilterMap(f, xs)[i] == f(xs[i]).value
  {
    if xs != [] {
      var init := xs[..|xs| - 1];
      assert forall i | 0 <= i < |init| :: init[i] == xs[i];
      FilterMapAllKept(f, init);
    }
  }

  /** With everything skipped, there is no result. */
  lemma {:induction false} FilterMapNoneKept<A, B>(f: A -> Option<B>, xs: seq<A>)
    requires forall i | 0 <= i < |xs| :: f(xs[i]).None?
    ensures FilterMap(f, xs) == []
  {
    if xs != [] {
      var init := xs[..|xs| - 1];
      assert forall i | 0 <= i < |init| :: init[i] == xs[i];
      FilterMapNoneKept(f, init);
    }
  }
}
