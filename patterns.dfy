/**
 * The one regular-expression shape the scripts search data lines for: a literal key, then
 * `\s+`, then a captured run `(C+)` of characters from a class C that holds no whitespace.
 * Because C and `\s` are disjoint, greedy matching never backtracks, so the capture is the
 * maximal run of C right after the maximal run of whitespace.
 */
module Patterns {
  import opened Wrappers
  import opened Strings

  /** The group that `lit\s+(C+)` captures when matched at position `i` of `s`. */
  function MatchAt(s: string, lit: string, cls: Class, i: nat): Option<string>
    requires i <= |s|
  {
    if !OccursAt(s, lit, i) then None
    else
      var j := i + |lit|;
      var w := Run(s, j, Space);
      if w == 0 then None
      else
        var g := Run(s, j + w, cls);
        if g == 0 then None else Some(s[j + w..j + w + g])
  }

  /** The leftmost position at or after `from` where the pattern matches. */
  function FirstMatch(s: string, lit: string, cls: Class, from: nat): (r: Option<nat>)
    requires from <= |s|
    ensures r.Some? ==> from <= r.value <= |s| && MatchAt(s, lit, cls, r.value).Some?
    decreases |s| - from
  {
    if MatchAt(s, lit, cls, from).Some? then Some(from)
    else if from == |s| then None
    else FirstMatch(s, lit, cls, from + 1)
  }

  /** The match found is the leftmost one from `from` on; None means there is none. */
  lemma {:induction false} FirstMatchSpec(s: string, lit: string, cls: Class, from: nat)
    requires from <= |s|
    ensures var r := FirstMatch(s, lit, cls, from);
      r.Some? ==> forall j | from <= j < r.value :: MatchAt(s, lit, cls, j).None?
    ensures FirstMatch(s, lit, cls, from).None? ==> forall i | from <= i <= |s| :: MatchAt(s, lit, cls, i).None?
    decreases |s| - from
  {
    if MatchAt(s, lit, cls, from).None? && from < |s| {
      FirstMatchSpec(s, lit, cls, from + 1);
    }
  }

  /**
   * `re.search(lit + r"\s+(C+)", s).group(1)`: the capture of the leftmost match, None when
   * nothing matches.
   */
  function Search(s: string, lit: string, cls: Class): Option<string> {
    match FirstMatch(s, lit, cls, 0)
    case None => None
    case Some(i) => MatchAt(s, lit, cls, i)
  }

  /**
   * Search fails exactly when the pattern matches nowhere, and otherwise returns the capture of
   * a match with no match to its left.
   */
  lemma SearchSpec(s: string, lit: string, cls: Class)
    ensures Search(s, lit, cls).None? <==> forall i | 0 <= i <= |s| :: MatchAt(s, lit, cls, i).None?
    ensures Search(s, lit, cls).Some? ==>
      exists i | 0 <= i <= |s| :: MatchAt(s, lit, cls, i) == Search(s, lit, cls)
                                  && forall j | 0 <= j < i :: MatchAt(s, lit, cls, j).None?
  {
    FirstMatchSpec(s, lit, cls, 0);
    if Search(s, lit, cls).Some? {
      var i := FirstMatch(s, lit, cls, 0).value;
      assert MatchAt(s, lit, cls, i) == Search(s, lit, cls);
    }
  }

  /** Without the literal there is no match. */
  lemma SearchWithoutKey(s: string, lit: string, cls: Class)
    requires !Contains(s, lit)
    ensures Search(s, lit, cls).None?
  {
    FindSpec(s, lit);
    SearchSpec(s, lit, cls);
  }

  /** A captured group is a nonempty run of the class. */
  lemma SearchCapture(s: string, lit: string, cls: Class)
    requires Search(s, lit, cls).Some?
    ensures var g := Search(s, lit, cls).value; g != [] && forall k | 0 <= k < |g| :: In(g[k], cls)
  {
    MatchCapture(s, lit, cls, FirstMatch(s, lit, cls, 0).value);
  }

  lemma MatchCapture(s: string, lit: string, cls: Class, i: nat)
    requires i <= |s| && MatchAt(s, lit, cls, i).Some?
    ensures var g := MatchAt(s, lit, cls, i).value; g != [] && forall k | 0 <= k < |g| :: In(g[k], cls)
  {
    var j := i + |lit|;
    var w := Run(s, j, Space);
    RunSpec(s, j + w, cls);
    var n := Run(s, j + w, cls);
    var g := s[j + w..j + w + n];
    assert forall k | 0 <= k < n :: g[k] == s[j + w + k];
  }

  /**
   * Where the literal stands at position 0, followed by whitespace and a run of the class that
   * ends at the end of the text or before a character outside it, the capture is that run.
   */
  lemma SearchFindsWritten(s: string, lit: string, cls: Class, w: nat, g: nat)
    requires OccursAt(s, lit, 0)
    requires w > 0 && |lit| + w + g <= |s| && g > 0
    requires forall k | |lit| <= k < |lit| + w :: IsSpace(s[k])
    requires forall k | |lit| + w <= k < |lit| + w + g :: In(s[k], cls) && !IsSpace(s[k])
    requires |lit| + w + g == |s| || !In(s[|lit| + w + g], cls)
    ensures Search(s, lit, cls) == Some(s[|lit| + w..|lit| + w + g])
  {
    MatchAtWritten(s, lit, cls, w, g);
    assert FirstMatch(s, lit, cls, 0) == Some(0);
  }

  lemma MatchAtWritten(s: string, lit: string, cls: Class, w: nat, g: nat)
    requires OccursAt(s, lit, 0)
    requires w > 0 && |lit| + w + g <= |s| && g > 0
    requires forall k | |lit| <= k < |lit| + w :: IsSpace(s[k])
    requires forall k | |lit| + w <= k < |lit| + w + g :: In(s[k], cls) && !IsSpace(s[k])
    requires |lit| + w + g == |s| || !In(s[|lit| + w + g], cls)
    ensures MatchAt(s, lit, cls, 0) == Some(s[|lit| + w..|lit| + w + g])
  {
    var j := |lit|;
    assert forall k | j <= k < j + w :: In(s[k], Space);
    assert !In(s[j + w], Space) by {
      assert !IsSpace(s[j + w]);
    }
    RunExact(s, j, Space, w);
    RunExact(s, j + w, cls, g);
  }
}
