/** The few Python `str` operations the scripts rely on, over `seq<char>`. */
module Strings {
  import opened Wrappers

  /** The whitespace of Python's `str.isspace()` (what `split()`, `strip()` and `\s` use), as ranges. */
  const SpaceRanges: seq<(char, char)> := [
    (' ', ' '),
    ('\t', '\r'),            // \t \n \v \f \r
    ('\U{1C}', '\U{1F}'),     // file, group, record and unit separators
    ('\U{85}', '\U{85}'), ('\U{A0}', '\U{A0}'), ('\U{1680}', '\U{1680}'),
    ('\U{2000}', '\U{200A}'), ('\U{2028}', '\U{2029}'), ('\U{202F}', '\U{202F}'),
    ('\U{205F}', '\U{205F}'), ('\U{3000}', '\U{3000}')]

  /** The line boundaries of Python's `str.splitlines()`, as ranges. */
  const LineBreakRanges: seq<(char, char)> := [
    ('\n', '\r'),            // \n \v \f \r
    ('\U{1C}', '\U{1E}'), ('\U{85}', '\U{85}'), ('\U{2028}', '\U{2029}')]

  predicate InRanges(c: char, rs: seq<(char, char)>) {
    rs != [] && (rs[0].0 <= c <= rs[0].1 || InRanges(c, rs[1..]))
  }

  predicate IsSpace(c: char) { InRanges(c, SpaceRanges) }

  predicate IsLineBreak(c: char) { InRanges(c, LineBreakRanges) }

  lemma {:induction false} NotInRanges(c: char, rs: seq<(char, char)>)
    requires forall i | 0 <= i < |rs| :: c < rs[i].0 || rs[i].1 < c
    ensures !InRanges(c, rs)
  {
    if rs != [] {
      NotInRanges(c, rs[1..]);
    }
  }

  lemma SpaceIsSpace()
    ensures IsSpace(' ')
  {
  }

  /** Characters below the tab or between `!` and `~` are not whitespace. */
  lemma PrintableNotSpace(c: char)
    requires c < '\t' || '!' <= c <= '~'
    ensures !IsSpace(c) && !IsLineBreak(c)
  {
    NotInRanges(c, SpaceRanges);
    NotInRanges(c, LineBreakRanges);
  }

  predicate IsDigit(c: char) { '0' <= c <= '9' }

  predicate IsAlpha(c: char) { 'a' <= c <= 'z' || 'A' <= c <= 'Z' }

  function ToLower(c: char): char {
    if 'A' <= c <= 'Z' then (c as int + 32) as char else c
  }

  function ToUpper(c: char): char {
    if 'a' <= c <= 'z' then (c as int - 32) as char else c
  }

  /** `s.lower()` */
  function Lower(s: string): (r: string)
    ensures |r| == |s| && forall i | 0 <= i < |s| :: r[i] == ToLower(s[i])
  {
    seq(|s|, i requires 0 <= i < |s| => ToLower(s[i]))
  }

  /** `s.upper()` */
  function Upper(s: string): (r: string)
    ensures |r| == |s| && forall i | 0 <= i < |s| :: r[i] == ToUpper(s[i])
  {
    seq(|s|, i requires 0 <= i < |s| => ToUpper(s[i]))
  }

  predicate NoSpace(s: string) { forall i | 0 <= i < |s| :: !IsSpace(s[i]) }

  /** A word of printable ASCII characters holds no whitespace. */
  lemma PrintableWord(s: string)
    requires forall i | 0 <= i < |s| :: '!' <= s[i] <= '~'
    ensures NoSpace(s)
  {
    forall i | 0 <= i < |s| ensures !IsSpace(s[i]) {
      PrintableNotSpace(s[i]);
    }
  }

  predicate AllSpace(s: string) { forall i | 0 <= i < |s| :: IsSpace(s[i]) }

  predicate AllDigits(s: string) { forall i | 0 <= i < |s| :: IsDigit(s[i]) }

  predicate AllAlpha(s: string) { forall i | 0 <= i < |s| :: IsAlpha(s[i]) }

  predicate StartsWith(s: string, p: string) { |p| <= |s| && s[..|p|] == p }

  predicate EndsWith(s: string, p: string) { |p| <= |s| && s[|s| - |p|..] == p }

  predicate OccursAt(s: string, p: string, i: nat) { i + |p| <= |s| && s[i..i + |p|] == p }

  /** The first index at or after `from` where `p` occurs in `s`. */
  function FindFrom(s: string, p: string, from: nat): (r: Option<nat>)
    requires from <= |s|
    ensures r.Some? ==> from <= r.value && r.value + |p| <= |s|
    decreases |s| - from
  {
    if from + |p| > |s| then None
    else if s[from..from + |p|] == p then Some(from)
    else FindFrom(s, p, from + 1)
  }

  /** `FindFrom` returns an occurrence, the first one at or after `from`, and None only when there is none. */
  lemma {:induction false} FindFromSpec(s: string, p: string, from: nat)
    requires from <= |s|
    ensures var r := FindFrom(s, p, from);
      && (r.Some? ==> OccursAt(s, p, r.value) && forall j | from <= j < r.value :: !OccursAt(s, p, j))
      && (r.None? ==> forall j | from <= j <= |s| :: !OccursAt(s, p, j))
    decreases |s| - from
  {
    if from + |p| <= |s| && s[from..from + |p|] != p {
      FindFromSpec(s, p, from + 1);
    }
  }

  /** `s.find(p)`, with None for -1. */
  function Find(s: string, p: string): (r: Option<nat>)
    ensures r.Some? ==> r.value + |p| <= |s|
  {
    FindFrom(s, p, 0)
  }

  /** `s.find(p)` is the first occurrence of `p`, and None only when `p` does not occur. */
  lemma FindSpec(s: string, p: string)
    ensures var r := Find(s, p);
      && (r.Some? ==> OccursAt(s, p, r.value) && forall j | 0 <= j < r.value :: !OccursAt(s, p, j))
      && (r.None? ==> forall j | 0 <= j <= |s| :: !OccursAt(s, p, j))
  {
    FindFromSpec(s, p, 0);
  }

  /** `p in s` */
  predicate Contains(s: string, p: string) { Find(s, p).Some? }

  lemma ContainsAt(s: string, p: string, i: nat)
    requires OccursAt(s, p, i)
    ensures Contains(s, p)
  {
    FindSpec(s, p);
  }

  lemma {:induction false} ContainsConcat(a: string, p: string, b: string)
    ensures Contains(a + p + b, p)
  {
    assert (a + p + b)[|a|..|a| + |p|] == p;
    ContainsAt(a + p + b, p, |a|);
  }

  /** `c` does not occur in `s`. */
  predicate Free(s: string, c: char) {
    forall i | 0 <= i < |s| :: s[i] != c
  }

  lemma FreeConcat(a: string, b: string, c: char)
    ensures Free(a + b, c) <==> Free(a, c) && Free(b, c)
  {
    if Free(a, c) && Free(b, c) {
      forall i | 0 <= i < |a + b| ensures (a + b)[i] != c {
        if i < |a| { assert (a + b)[i] == a[i]; } else { assert (a + b)[i] == b[i - |a|]; }
      }
    }
    if Free(a + b, c) {
      forall i | 0 <= i < |a| ensures a[i] != c { assert (a + b)[i] == a[i]; }
      forall i | 0 <= i < |b| ensures b[i] != c { assert (a + b)[|a| + i] == b[i]; }
    }
  }

  /** A text without the first character of `p` does not contain `p`. */
  lemma FreeNotContains(s: string, p: string)
    requires p != [] && Free(s, p[0])
    ensures !Contains(s, p)
  {
    forall j | 0 <= j <= |s| ensures !OccursAt(s, p, j) {
      if j < |s| {
        assert j + |p| > |s| || s[j..j + |p|][0] == s[j];
      }
    }
    FindSpec(s, p);
  }

  /** `s.split(sep, 1)`: the text before the first `sep`, and the rest after it if there is one. */
  function SplitOnce(s: string, sep: string): (r: (string, Option<string>))
    ensures r.1.None? ==> r.0 == s && !Contains(s, sep)
    ensures r.1.Some? ==> s == r.0 + sep + r.1.value && Find(s, sep) == Some(|r.0|)
  {
    FindSpec(s, sep);
    match Find(s, sep)
    case None => (s, None)
    case Some(i) =>
      assert s == s[..i] + sep + s[i + |sep|..];
      (s[..i], Some(s[i + |sep|..]))
  }

  /** Splitting at the first separator: the parts are what stood before and after it. */
  lemma SplitOnceFirst(a: string, sep: string, b: string)
    requires forall i | 0 <= i < |a| :: !OccursAt(a + sep + b, sep, i)
    ensures SplitOnce(a + sep + b, sep) == (a, Some(b))
  {
    var s := a + sep + b;
    assert s[|a|..|a| + |sep|] == sep;
    assert OccursAt(s, sep, |a|);
    FindSpec(s, sep);
    var f := Find(s, sep);
    assert f.Some? && !(f.value < |a|) && !(|a| < f.value);
    assert s[..|a|] == a && s[|a| + |sep|..] == b;
  }

  // ---------------------------------------------------------------------------------------
  // Runs of characters

  /** The classes of characters that the scripts scan runs of. */
  datatype Class =
    | Space                  // whitespace
    | NonSpace
    | NonLineBreak
    | Only(c: char)
    | AllBut(c: char)
    | NonExponent            // anything but `e` and `E`
    | Digit                  // [0-9]
    | DigitOrDot             // [0-9.]
    | FloatChar              // [0-9.e+-]

  predicate In(c: char, k: Class) {
    match k
    case Space => IsSpace(c)
    case NonSpace => !IsSpace(c)
    case NonLineBreak => !IsLineBreak(c)
    case Only(x) => c == x
    case AllBut(x) => c != x
    case NonExponent => c != 'e' && c != 'E'
    case Digit => IsDigit(c)
    case DigitOrDot => IsDigit(c) || c == '.'
    case FloatChar => IsDigit(c) || c == '.' || c == 'e' || c == '+' || c == '-'
  }

  /** The number of characters from position `i` on that satisfy `p`. */
  function Run(s: string, i: nat, p: Class): (n: nat)
    requires i <= |s|
    ensures i + n <= |s|
    decreases |s| - i
  {
    if i < |s| && In(s[i], p) then 1 + Run(s, i + 1, p) else 0
  }

  /** A run is maximal: its characters satisfy `p`, and the next one, if any, does not. */
  lemma {:induction false} RunSpec(s: string, i: nat, p: Class)
    requires i <= |s|
    ensures var n := Run(s, i, p); i + n == |s| || !In(s[i + n], p)
    ensures forall j | i <= j < i + Run(s, i, p) :: In(s[j], p)
    decreases |s| - i
  {
    if i < |s| && In(s[i], p) {
      RunSpec(s, i + 1, p);
    }
  }

  /** A run is at least as long as any stretch of `p` characters it starts. */
  lemma {:induction false} RunCovers(s: string, i: nat, p: Class, k: nat)
    requires i + k <= |s|
    requires forall j | i <= j < i + k :: In(s[j], p)
    ensures Run(s, i, p) >= k
    decreases k
  {
    if k > 0 {
      RunCovers(s, i + 1, p, k - 1);
    }
  }

  /** A stretch of `p` characters that ends at the end of `s` or before a non-`p` one is a run. */
  lemma RunExact(s: string, i: nat, p: Class, k: nat)
    requires i + k <= |s|
    requires forall j | i <= j < i + k :: In(s[j], p)
    requires i + k == |s| || !In(s[i + k], p)
    ensures Run(s, i, p) == k
  {
    RunSpec(s, i, p);
    var n := Run(s, i, p);
    assert !(n < k) && !(k < n);
  }

  /** Texts that agree from `j` and from `i` on have the same runs there. */
  predicate SameFrom(s: string, j: nat, t: string, i: nat) {
    j <= |s| && i <= |t| && |s| - j == |t| - i && forall k | j <= k < |s| :: s[k] == t[k - j + i]
  }

  lemma {:induction false} RunSame(s: string, j: nat, t: string, i: nat, p: Class)
    requires SameFrom(s, j, t, i)
    ensures Run(s, j, p) == Run(t, i, p)
    decreases |t| - i
  {
    if i < |t| {
      assert s[j] == t[i];
      SameLater(s, j, t, i, 1);
      RunSame(s, j + 1, t, i + 1, p);
    }
  }

  lemma SameLater(s: string, j: nat, t: string, i: nat, d: nat)
    requires SameFrom(s, j, t, i) && i + d <= |t|
    ensures SameFrom(s, j + d, t, i + d)
  {
  }

  /** The number of characters that satisfy `p` just before position `j`, counting backwards. */
  function RunBack(s: string, j: nat, p: Class): (n: nat)
    requires j <= |s|
    ensures n <= j
  {
    if j > 0 && In(s[j - 1], p) then 1 + RunBack(s, j - 1, p) else 0
  }

  /** A backward run is maximal: its characters satisfy `p`, and the one before, if any, does not. */
  lemma {:induction false} RunBackSpec(s: string, j: nat, p: Class)
    requires j <= |s|
    ensures var n := RunBack(s, j, p); n == j || !In(s[j - n - 1], p)
    ensures forall k | j - RunBack(s, j, p) <= k < j :: In(s[k], p)
  {
    if j > 0 && In(s[j - 1], p) {
      RunBackSpec(s, j - 1, p);
    }
  }

  /** A stretch of `p` characters that starts `s` or follows a non-`p` one is a backward run. */
  lemma RunBackExact(s: string, j: nat, p: Class, k: nat)
    requires k <= j <= |s|
    requires forall m | j - k <= m < j :: In(s[m], p)
    requires k == j || !In(s[j - k - 1], p)
    ensures RunBack(s, j, p) == k
  {
    RunBackSpec(s, j, p);
    var n := RunBack(s, j, p);
    assert !(n < k) && !(k < n);
  }

  // ---------------------------------------------------------------------------------------
  // Whitespace: strip() and split()

  /** `s.strip()`: `s` without its leading and trailing whitespace. */
  function Strip(s: string): string {
    var a := Run(s, 0, Space);
    var e := |s| - RunBack(s, |s|, Space);
    if e <= a then [] else s[a..e]
  }

  /** What `strip()` leaves is empty exactly for blank text, and otherwise has no whitespace at its ends. */
  lemma StripSpec(s: string)
    ensures var r := Strip(s); r == [] || (!IsSpace(r[0]) && !IsSpace(r[|r| - 1]))
    ensures Strip(s) == [] <==> AllSpace(s)
  {
    var a := Run(s, 0, Space);
    var e := |s| - RunBack(s, |s|, Space);
    RunSpec(s, 0, Space);
    RunBackSpec(s, |s|, Space);
    if AllSpace(s) {
      RunExact(s, 0, Space, |s|);
    }
    if e <= a {
      forall j | 0 <= j < |s| ensures IsSpace(s[j]) {
      }
    }
  }

  /** `strip()` removes exactly the whitespace around a text that has none at its ends. */
  lemma StripAround(l: string, t: string, r: string)
    requires AllSpace(l) && AllSpace(r)
    requires t == [] || (!IsSpace(t[0]) && !IsSpace(t[|t| - 1]))
    ensures Strip(l + t + r) == t
  {
    var s := l + t + r;
    if t == [] {
      assert forall j | 0 <= j < |s| :: s[j] == if j < |l| then l[j] else r[j - |l|];
      StripSpec(s);
    } else {
      assert forall j | 0 <= j < |l| :: s[j] == l[j];
      assert s[|l|] == t[0];
      RunExact(s, 0, Space, |l|);
      assert forall m | |l| + |t| <= m < |s| :: s[m] == r[m - |l| - |t|];
      assert s[|l| + |t| - 1] == t[|t| - 1];
      RunBackExact(s, |s|, Space, |r|);
      assert s[|l|..|l| + |t|] == t;
    }
  }

  /** A text without whitespace at its ends is left alone by `strip()`. */
  lemma StripTrimmed(s: string)
    requires s == [] || (!IsSpace(s[0]) && !IsSpace(s[|s| - 1]))
    ensures Strip(s) == s
  {
    assert [] + s + [] == s;
    StripAround([], s, []);
  }

  /** `s.split()`: the maximal runs of non-whitespace characters, in order. */
  function Split(s: string): seq<string>
    decreases |s|
  {
    if s == [] then []
    else if IsSpace(s[0]) then Split(s[1..])
    else
      var b := Run(s, 0, NonSpace);
      [s[..b]] + Split(s[b..])
  }

  /** Nonempty texts without whitespace: what `split()` returns. */
  predicate Words(ws: seq<string>) {
    forall i | 0 <= i < |ws| :: ws[i] != [] && NoSpace(ws[i])
  }

  lemma WordsCons(w: string, ws: seq<string>)
    requires w != [] && NoSpace(w) && Words(ws)
    ensures Words([w] + ws)
  {
    assert forall k | 0 < k <= |ws| :: ([w] + ws)[k] == ws[k - 1];
  }

  /** Every word `split()` returns is nonempty and free of whitespace. */
  lemma {:induction false} SplitWords(s: string)
    ensures Words(Split(s))
    decreases |s|
  {
    if s != [] {
      if IsSpace(s[0]) {
        SplitWords(s[1..]);
      } else {
        var b := Run(s, 0, NonSpace);
        RunSpec(s, 0, NonSpace);
        assert forall k | 0 <= k < b :: s[..b][k] == s[k];
        SplitWords(s[b..]);
        WordsCons(s[..b], Split(s[b..]));
      }
    }
  }

  /** Leading whitespace does not change the words. */
  lemma SplitLeadingSpace(c: char, t: string)
    requires IsSpace(c)
    ensures Split([c] + t) == Split(t)
  {
    assert ([c] + t)[1..] == t;
  }

  /** A word followed by a space and more text splits into that word and the words of the rest. */
  lemma SplitWordThen(w: string, rest: string)
    requires w != [] && NoSpace(w)
    ensures Split(w + " " + rest) == [w] + Split(rest)
  {
    var s := w + " " + rest;
    SpaceIsSpace();
    assert s[0] == w[0];
    assert forall j | 0 <= j < |w| :: s[j] == w[j];
    assert s[|w|] == ' ';
    RunExact(s, 0, NonSpace, |w|);
    assert s[..|w|] == w;
    assert s[|w|..] == [' '] + rest;
    SplitLeadingSpace(' ', rest);
  }

  /** A single word splits into itself. */
  lemma SplitOneWord(w: string)
    requires w != [] && NoSpace(w)
    ensures Split(w) == [w]
  {
    RunExact(w, 0, NonSpace, |w|);
    assert w[..|w|] == w;
    assert w[|w|..] == [];
  }

  /** `" ".join(ws)` */
  function JoinWords(ws: seq<string>): string {
    if ws == [] then [] else if |ws| == 1 then ws[0] else ws[0] + " " + JoinWords(ws[1..])
  }

  /** Splitting the space-joined words gives the words back. */
  lemma {:induction false} SplitJoinWords(ws: seq<string>)
    requires Words(ws)
    ensures Split(JoinWords(ws)) == ws
  {
    if |ws| == 1 {
      SplitOneWord(ws[0]);
    } else if |ws| > 1 {
      SplitWordThen(ws[0], JoinWords(ws[1..]));
      SplitJoinWords(ws[1..]);
    }
  }

  /** Joined words begin with the first word's first letter and end with the last word's last. */
  lemma {:induction false} JoinWordsEnds(ws: seq<string>)
    requires ws != [] && Words(ws)
    ensures var l := JoinWords(ws); l != [] && l[0] == ws[0][0] && l[|l| - 1] == Last(ws[|ws| - 1])
  {
    if |ws| > 1 {
      JoinWordsEnds(ws[1..]);
    }
  }

  function Last(s: string): char
    requires s != []
  {
    s[|s| - 1]
  }

  /** `s.rstrip(c)` for a single character `c`. */
  function TrimRightChar(s: string, c: char): (r: string)
    ensures |r| <= |s| && r == s[..|r|]
    ensures r == [] || r[|r| - 1] != c
    ensures forall i | |r| <= i < |s| :: s[i] == c
  {
    RunBackSpec(s, |s|, Only(c));
    s[..|s| - RunBack(s, |s|, Only(c))]
  }

  /** `s.replace(pat, rep)`: every non-overlapping occurrence, scanning left to right. */
  function ReplaceAll(s: string, pat: string, rep: string): (r: string)
    requires pat != []
    ensures !Contains(s, pat) ==> r == s
    decreases |s|
  {
    if StartsWith(s, pat) then
      assert OccursAt(s, pat, 0);
      rep + ReplaceAll(s[|pat|..], pat, rep)
    else if s == [] then []
    else
      NoOccurrenceInTail(s, pat);
      [s[0]] + ReplaceAll(s[1..], pat, rep)
  }

  lemma NoOccurrenceInTail(s: string, p: string)
    requires s != []
    ensures !Contains(s, p) ==> !Contains(s[1..], p)
  {
    if Contains(s[1..], p) {
      FindSpec(s[1..], p);
      ContainsAt(s, p, Find(s[1..], p).value + 1);
      var j := Find(s[1..], p).value;
      assert s[j + 1..j + 1 + |p|] == s[1..][j..j + |p|];
      assert OccursAt(s, p, j + 1);
    }
  }

  // ---------------------------------------------------------------------------------------
  // Lines

  /** The lines of `s` from position `i` on. */
  function LinesFrom(s: string, i: nat): seq<string>
    requires i <= |s|
    decreases |s| - i
  {
    if i == |s| then []
    else
      var e := i + Run(s, i, NonLineBreak);
      if e == |s| then [s[i..]]
      else
        var next := if s[e] == '\r' && e + 1 < |s| && s[e + 1] == '\n' then e + 2 else e + 1;
        [s[i..e]] + LinesFrom(s, next)
  }

  /** `s.splitlines()`: `\r\n` counts as one boundary and a final boundary adds no empty line. */
  function SplitLines(s: string): seq<string> {
    LinesFrom(s, 0)
  }

  predicate NoLineBreak(s: string) { forall j | 0 <= j < |s| :: !IsLineBreak(s[j]) }

  lemma {:induction false} LinesFromNoBreak(s: string, i: nat)
    requires i <= |s|
    ensures forall k | 0 <= k < |LinesFrom(s, i)| :: NoLineBreak(LinesFrom(s, i)[k])
    decreases |s| - i
  {
    if i < |s| {
      var e := i + Run(s, i, NonLineBreak);
      RunSpec(s, i, NonLineBreak);
      var l := s[i..e];
      assert forall j | 0 <= j < |l| :: l[j] == s[i + j];
      if e < |s| {
        var next := if s[e] == '\r' && e + 1 < |s| && s[e + 1] == '\n' then e + 2 else e + 1;
        LinesFromNoBreak(s, next);
        var rest := LinesFrom(s, next);
        assert forall k | 0 < k <= |rest| :: ([l] + rest)[k] == rest[k - 1];
      } else {
        assert s[i..] == l;
      }
    }
  }

  /** No line that `splitlines()` returns holds a line boundary. */
  lemma SplitLinesNoBreak(s: string)
    ensures forall k | 0 <= k < |SplitLines(s)| :: NoLineBreak(SplitLines(s)[k])
  {
    LinesFromNoBreak(s, 0);
  }

  // ---------------------------------------------------------------------------------------
  // Decimal numerals

  function DigitChar(d: nat): (c: char)
    requires d < 10
    ensures IsDigit(c)
  {
    ('0' as int + d) as char
  }

  /** `str(n)` for a natural number. */
  function DecimalString(n: nat): (r: string)
    ensures r != [] && AllDigits(r)
  {
    if n < 10 then [DigitChar(n)] else DecimalString(n / 10) + [DigitChar(n % 10)]
  }
}
