/**
 * File paths as text, the way `pathlib` takes them apart: components separated by `/`, the
 * final component (`name`), that name without its last suffix (`stem`), and the `/` join.
 * Resolution against the file system (`resolve`, `expanduser`) is not part of this model.
 */
module Paths {
  import opened Wrappers
  import opened Strings

  /**
   * `Path(p).name`: the last component of the path that `p` spells, empty when it has none.
   * Empty and `.` components are not components, so `a/`, `a/.` and `a` all name `a`.
   */
  function Name(p: string): (r: string)
    ensures Free(r, '/') && r != "."
  {
    PathName(ParsePath(p))
  }

  /** The position of the last `c` in `s`, if any (`s.rfind(c)`). */
  function LastIndex(s: string, c: char): (r: Option<nat>)
    ensures r.Some? ==> r.value < |s| && s[r.value] == c && forall j | r.value < j < |s| :: s[j] != c
    ensures r.None? ==> Free(s, c)
  {
    var n := RunBack(s, |s|, AllBut(c));
    RunBackSpec(s, |s|, AllBut(c));
    if n == |s| then None else Some(|s| - n - 1)
  }

  /**
   * `Path(...).stem` of a name: the name without its last suffix. The last `.` starts a suffix
   * only when it is neither the first nor the last character.
   */
  function Stem(name: string): (r: string)
    ensures |r| <= |name| && r == name[..|r|]
  {
    match LastIndex(name, '.')
    case Some(i) => if 0 < i < |name| - 1 then name[..i] else name
    case None => name
  }

  /** A name with a nonempty base and a nonempty dot-free extension has that base as its stem. */
  lemma StemOfSuffixed(name: string, i: nat)
    requires 0 < i < |name| - 1 && name[i] == '.' && Free(name[i + 1..], '.')
    ensures Stem(name) == name[..i]
  {
    assert forall m | i < m < |name| :: name[m] == name[i + 1..][m - i - 1];
    RunBackExact(name, |name|, AllBut('.'), |name| - i - 1);
  }

  /** The name of a path whose text after a `/` is one component is that component. */
  lemma NameOfJoined(s: string, i: nat)
    requires i < |s| && s[i] == '/' && Component(s[i + 1..])
    ensures Name(s) == s[i + 1..]
  {
    assert s == s[..i] + "/" + s[i + 1..];
    ComponentsAppend(s[..i], s[i + 1..]);
    ComponentsOne(s[i + 1..]);
  }

  /** A trailing `/` or `/.` does not change the name. */
  lemma NameSkipsDot(s: string)
    ensures Name(s + "/") == Name(s)
    ensures Name(s + "/.") == Name(s)
  {
    ComponentsOfDot();
    assert s + "/" == s + "/" + "";
    assert s + "/." == s + "/" + ".";
    ComponentsAppend(s, "");
    ComponentsAppend(s, ".");
    assert Components(s) + [] == Components(s);
  }

  // ---------------------------------------------------------------------------------------
  // Joining paths: the `/` operator of `PurePosixPath`

  /** A `PurePosixPath`: whether it starts at the root, and its components. */
  datatype PurePath = PurePath(rooted: bool, parts: seq<string>)

  /** A component as `pathlib` keeps one: non-empty, not `.`, without `/`. */
  predicate Component(s: string) {
    s != [] && s != "." && Free(s, '/')
  }

  /** The components of a path text: split at every `/`, empty and `.` components dropped. */
  function Components(s: string): (ps: seq<string>)
    ensures forall i | 0 <= i < |ps| :: Component(ps[i])
    decreases |s|
  {
    if s == [] then []
    else if s[0] == '/' then Components(s[1..])
    else
      var b := Run(s, 0, AllBut('/'));
      RunSpec(s, 0, AllBut('/'));
      assert b > 0;
      var w := s[..b];
      assert Free(w, '/') by {
        forall k | 0 <= k < b ensures w[k] != '/' { assert In(s[k], AllBut('/')); }
      }
      (if w == "." then [] else [w]) + Components(s[b..])
  }

  /** A text holding a single component splits into that component alone. */
  lemma ComponentsOne(w: string)
    requires Component(w)
    ensures Components(w) == [w]
  {
    forall j | 0 <= j < |w| ensures In(w[j], AllBut('/')) { }
    RunExact(w, 0, AllBut('/'), |w|);
    assert w[..|w|] == w && w[|w|..] == [];
  }

  /** A component, a separator and more text: the component, then the components of the rest. */
  lemma ComponentsThen(w: string, t: string)
    requires Component(w)
    ensures Components(w + "/" + t) == [w] + Components(t)
  {
    var s := w + "/" + t;
    forall j | 0 <= j < |w| ensures In(s[j], AllBut('/')) { assert s[j] == w[j]; }
    assert s[|w|] == '/';
    RunExact(s, 0, AllBut('/'), |w|);
    assert s[..|w|] == w;
    assert s[|w|..] == "/" + t;
    assert ("/" + t)[1..] == t;
  }

  /** The components of two texts joined by `/` are those of the first, then those of the second. */
  lemma {:induction false} ComponentsAppend(a: string, b: string)
    ensures Components(a + "/" + b) == Components(a) + Components(b)
    decreases |a|
  {
    var s := a + "/" + b;
    if a == [] {
      assert s[1..] == b;
    } else if a[0] == '/' {
      SplitConcat(a, "/", b, 1);
      ComponentsAppend(a[1..], b);
    } else {
      var r := Run(a, 0, AllBut('/'));
      RunSpec(a, 0, AllBut('/'));
      SplitConcat(a, "/", b, r);
      forall j | 0 <= j < r ensures In(s[j], AllBut('/')) { assert s[j] == a[j]; }
      RunExact(s, 0, AllBut('/'), r);
      ComponentsFirst(a);
      ComponentsFirst(s);
      ComponentsAppend(a[r..], b);
      var head := if a[..r] == "." then [] else [a[..r]];
      ConcatAssoc(head, Components(a[r..]), Components(b));
    }
  }

  /** Cutting `a + m + b` at a position `r` inside `a`. */
  lemma SplitConcat<T>(a: seq<T>, m: seq<T>, b: seq<T>, r: nat)
    requires r <= |a|
    ensures (a + m + b)[..r] == a[..r] && (a + m + b)[r..] == a[r..] + m + b
    ensures r < |a| ==> (a + m + b)[r] == a[r]
    ensures r == |a| && m != [] ==> (a + m + b)[r] == m[0]
  {
  }

  lemma ConcatAssoc<T>(a: seq<T>, b: seq<T>, c: seq<T>)
    ensures a + (b + c) == (a + b) + c
  {
  }

  /** A text that does not start with `/` begins with the component (or `.`) up to its first `/`. */
  lemma ComponentsFirst(s: string)
    requires s != [] && s[0] != '/'
    ensures var r := Run(s, 0, AllBut('/'));
      0 < r <= |s| && Components(s) == (if s[..r] == "." then [] else [s[..r]]) + Components(s[r..])
  {
  }

  /** Neither an empty text nor `.` contributes a component. */
  lemma ComponentsOfDot()
    ensures Components("") == [] && Components(".") == []
  {
    RunExact(".", 0, AllBut('/'), 1);
    assert "."[..1] == "." && "."[1..] == [];
  }

  /**
   * `p / s`: a text that starts at the root replaces the path; any other text adds its
   * components to those of `p`.
   */
  function Join(p: PurePath, s: string): PurePath {
    if s != [] && s[0] == '/' then PurePath(true, Components(s))
    else PurePath(p.rooted, p.parts + Components(s))
  }

  /** The components separated by `/`. */
  function JoinedParts(ps: seq<string>): string {
    if ps == [] then [] else if |ps| == 1 then ps[0] else ps[0] + "/" + JoinedParts(ps[1..])
  }

  /** `str(p)`: `/` and the components for a rooted path, `.` for an empty relative one. */
  function PathText(p: PurePath): string {
    if p.rooted then "/" + JoinedParts(p.parts)
    else if p.parts == [] then "."
    else JoinedParts(p.parts)
  }

  /** `PurePosixPath(s)`: rooted when the text starts with `/`, and the text's components. */
  function ParsePath(s: string): PurePath {
    PurePath(s != [] && s[0] == '/', Components(s))
  }

  /** `p.name`: the last component, empty for a path without components. */
  function PathName(p: PurePath): string {
    if p.parts == [] then [] else p.parts[|p.parts| - 1]
  }

  /** Splitting the text of components gives back the components. */
  lemma {:induction false} JoinedPartsRoundTrip(ps: seq<string>)
    requires forall i | 0 <= i < |ps| :: Component(ps[i])
    ensures Components(JoinedParts(ps)) == ps
  {
    if ps == [] {
    } else if |ps| == 1 {
      ComponentsOne(ps[0]);
    } else {
      JoinedPartsRoundTrip(ps[1..]);
      ComponentsThen(ps[0], JoinedParts(ps[1..]));
      assert ps == [ps[0]] + ps[1..];
    }
  }

  /**
   * The text of a path determines it: splitting `str(p)` gives back its components, and it
   * starts with `/` exactly when the path is rooted.
   */
  lemma PathTextRoundTrip(p: PurePath)
    requires forall i | 0 <= i < |p.parts| :: Component(p.parts[i])
    ensures Components(PathText(p)) == p.parts
    ensures p.rooted <==> PathText(p)[0] == '/'
  {
    JoinedPartsRoundTrip(p.parts);
    if p.rooted {
      assert ("/" + JoinedParts(p.parts))[1..] == JoinedParts(p.parts);
    } else if p.parts != [] {
      JoinedPartsStart(p.parts);
    }
  }

  /** The text of components starts with the first character of the first one. */
  lemma JoinedPartsStart(ps: seq<string>)
    requires ps != [] && Component(ps[0])
    ensures JoinedParts(ps) != [] && JoinedParts(ps)[0] == ps[0][0]
  {
  }
}
