/**
 * The instruction-mix report: the committed-instruction count and, per instruction class, the
 * count and percentage that gem5 writes on its `committedInstType::` lines; then the classes with
 * a nonzero count other than `total`, most frequent first, each with its percentage or, when
 * the stats line gave none, one derived from the instruction count.
 */
module InstClasses {
  import opened Wrappers
  import opened Strings
  import opened Numbers
  import opened Patterns
  import opened Dicts
  import opened Seqs
  import opened Sorting

  // ---------------------------------------------------------------------------------------
  // The instruction count

  /** `int(m.group(1))` for the first match of `commitStats0\.numInsts\s+(\d+)`, None without one. */
  function NumInst(text: string): Option<nat> {
    match Search(text, "commitStats0.numInsts", Digit)
    case None => None
    case Some(g) =>
      SearchCapture(text, "commitStats0.numInsts", Digit);
      Some(DigitsValue(g))
  }

  /**
   * No match anywhere means no count; otherwise the count is the value of the digits captured
   * by the leftmost match.
   */
  lemma NumInstSpec(text: string)
    ensures NumInst(text).None? <==> forall i | 0 <= i <= |text| :: MatchAt(text, "commitStats0.numInsts", Digit, i).None?
    ensures NumInst(text).Some? ==>
      exists i | 0 <= i <= |text| ::
        (forall j | 0 <= j < i :: MatchAt(text, "commitStats0.numInsts", Digit, j).None?)
        && MatchAt(text, "commitStats0.numInsts", Digit, i).Some?
        && AllDigits(MatchAt(text, "commitStats0.numInsts", Digit, i).value)
        && NumInst(text) == Some(DigitsValue(MatchAt(text, "commitStats0.numInsts", Digit, i).value))
    ensures !Contains(text, "commitStats0.numInsts") ==> NumInst(text).None?
  {
    SearchSpec(text, "commitStats0.numInsts", Digit);
    if NumInst(text).Some? {
      SearchCapture(text, "commitStats0.numInsts", Digit);
    }
    if !Contains(text, "commitStats0.numInsts") {
      SearchWithoutKey(text, "commitStats0.numInsts", Digit);
    }
  }

  /** A text that starts with the key, whitespace and digits has those digits as its count. */
  lemma NumInstWritten(text: string, w: nat, g: nat)
    requires OccursAt(text, "commitStats0.numInsts", 0)
    requires w > 0 && g > 0 && 21 + w + g <= |text|
    requires forall k | 21 <= k < 21 + w :: IsSpace(text[k])
    requires forall k | 21 + w <= k < 21 + w + g :: IsDigit(text[k])
    requires 21 + w + g == |text| || !IsDigit(text[21 + w + g])
    ensures AllDigits(text[21 + w..21 + w + g])
    ensures NumInst(text) == Some(DigitsValue(text[21 + w..21 + w + g]))
  {
    assert |"commitStats0.numInsts"| == 21;
    forall k | 21 + w <= k < 21 + w + g ensures !IsSpace(text[k]) {
      PrintableNotSpace(text[k]);
    }
    SearchFindsWritten(text, "commitStats0.numInsts", Digit, w, g);
    var digits := text[21 + w..21 + w + g];
    assert forall k | 0 <= k < |digits| :: digits[k] == text[21 + w + k];
  }

  // ---------------------------------------------------------------------------------------
  // One class line

  /** `system.cpu.commitStats0.committedInstType`, the stat name before the `::`. */
  const ClassHead: string := "system.cpu.commitStats0.committedInstType"
  /** What a class line starts with. */
  const ClassPrefix: string := ClassHead + "::"

  /** A class's count and, when its line carries one, its percentage. */
  datatype Entry = Entry(count: int, pct: Option<real>)

  /** `float(parts[2].rstrip("%"))` when a third token exists and ends with `%`, else None. */
  function PctOf(parts: seq<string>): Option<real> {
    if |parts| >= 3 && EndsWith(parts[2], "%") then ParseReal(TrimRightChar(parts[2], '%'))
    else None
  }

  /**
   * The entry a class line's tokens give: the name after the first `::` of the first token,
   * `int(parts[1])`, and the percentage. None for a line that is skipped: a missing or
   * non-integer second token. A missing first token or `::` would raise IndexError in the
   * script; `ClassLineNeverRaises` shows that neither happens on a class line, and they give
   * None here.
   */
  function ClassWords(parts: seq<string>): Option<(string, Entry)> {
    if parts == [] then None
    else match SplitOnce(parts[0], "::").1
      case None => None
      case Some(name) =>
        if |parts| < 2 then None
        else match ParseInt(parts[1])
          case None => None
          case Some(count) => Some((name, Entry(count, PctOf(parts))))
  }

  /** What one line of the stats text contributes: nothing unless it starts with the prefix. */
  function ClassLine(line: string): Option<(string, Entry)> {
    if StartsWith(line, ClassPrefix) then ClassWords(Split(line)) else None
  }

  lemma ClassHeadFree()
    ensures Free(ClassHead, ':') && NoSpace(ClassPrefix)
  {
    PrintableWord(ClassPrefix);
  }

  /** A line that starts with text without whitespace has a first token that starts with it too. */
  lemma FirstWordPrefix(line: string, p: string)
    requires StartsWith(line, p) && p != [] && NoSpace(p)
    ensures Split(line) != [] && StartsWith(Split(line)[0], p)
  {
    assert forall j | 0 <= j < |p| :: line[j] == p[j];
    assert forall j | 0 <= j < |p| :: In(line[j], NonSpace);
    RunCovers(line, 0, NonSpace, |p|);
    var b := Run(line, 0, NonSpace);
    assert !IsSpace(line[0]);
    assert Split(line) == [line[..b]] + Split(line[b..]);
    assert line[..b][..|p|] == line[..|p|];
  }

  /** Splitting `head + "::" + rest` at its first `::`, where `head` has no colon. */
  lemma SplitAtFree(head: string, rest: string)
    requires Free(head, ':')
    ensures SplitOnce(head + "::" + rest, "::") == (head, Some(rest))
  {
    var s := head + "::" + rest;
    forall i | 0 <= i < |head| ensures !OccursAt(s, "::", i) {
      assert s[i] == head[i];
    }
    SplitOnceFirst(head, "::", rest);
  }

  /**
   * On a class line neither `parts[0]` nor `.split("::", 1)[1]` can raise: the first token
   * starts with the prefix, so it exists and holds `::`, and the name is what follows the prefix.
   */
  lemma ClassLineNeverRaises(line: string)
    requires StartsWith(line, ClassPrefix)
    ensures var parts := Split(line);
      && parts != [] && StartsWith(parts[0], ClassPrefix)
      && SplitOnce(parts[0], "::") == (ClassHead, Some(parts[0][|ClassPrefix|..]))
  {
    ClassHeadFree();
    FirstWordPrefix(line, ClassPrefix);
    var w := Split(line)[0];
    assert w == ClassHead + "::" + w[|ClassPrefix|..];
    SplitAtFree(ClassHead, w[|ClassPrefix|..]);
  }

  /** Only lines that start with the prefix contribute, and what a line gives is its first token after the prefix. */
  lemma ClassLineName(line: string)
    ensures ClassLine(line).Some? ==> StartsWith(line, ClassPrefix)
    ensures ClassLine(line).Some? ==> Split(line)[0] == ClassPrefix + ClassLine(line).value.0
  {
    if ClassLine(line).Some? {
      ClassLineNeverRaises(line);
      var w := Split(line)[0];
      assert w == ClassPrefix + w[|ClassPrefix|..];
    }
  }

  /** A line of words whose first word starts with the prefix reads through its tokens. */
  lemma ClassLineOfWords(ws: seq<string>)
    requires Words(ws) && ws != [] && StartsWith(ws[0], ClassPrefix)
    ensures ClassLine(JoinWords(ws)) == ClassWords(ws)
  {
    SplitJoinWords(ws);
    JoinWordsStarts(ws);
    var l := JoinWords(ws);
    assert l[..|ClassPrefix|] == ws[0][..|ClassPrefix|];
  }

  lemma {:induction false} JoinWordsStarts(ws: seq<string>)
    requires ws != []
    ensures |ws[0]| <= |JoinWords(ws)| && JoinWords(ws)[..|ws[0]|] == ws[0]
  {
    if |ws| > 1 {
      var l := JoinWords(ws);
      assert l == ws[0] + (" " + JoinWords(ws[1..]));
    }
  }

  /** Stripping trailing percent signs from digits followed by one gives the digits back. */
  lemma TrimPercent(d: string)
    requires d != [] && AllDigits(d)
    ensures TrimRightChar(d + "%", '%') == d
  {
    var s := d + "%";
    var r := TrimRightChar(s, '%');
    assert s[|s| - 1] == '%' && s[|d| - 1] == d[|d| - 1];
    assert |r| == |d|;
    assert s[..|d|] == d;
  }

  /**
   * `prefix+name count pct%`: the name, the count and the percentage read back; without a
   * third token, or with one that does not end with `%`, there is no percentage.
   */
  lemma ClassWordsRoundTrip(name: string, count: nat, p: nat, rest: seq<string>)
    ensures rest == [] || !EndsWith(rest[0], "%") ==>
      ClassWords([ClassPrefix + name, DecimalString(count)] + rest) == Some((name, Entry(count, None)))
    ensures ClassWords([ClassPrefix + name, DecimalString(count), DecimalString(p) + "%"] + rest)
         == Some((name, Entry(count, Some(p as real))))
  {
    ClassHeadFree();
    SplitAtFree(ClassHead, name);
    assert ClassPrefix + name == ClassHead + "::" + name;
    DecimalParsesAsInt(count);
    var c := DecimalString(p) + "%";
    assert EndsWith(c, "%") by { assert c[|c| - 1..] == "%"; }
    TrimPercent(DecimalString(p));
    DecimalParsesAsReal(p);
    var ws := [ClassPrefix + name, DecimalString(count), c] + rest;
    assert ws[2] == c;
    if rest != [] {
      assert ([ClassPrefix + name, DecimalString(count)] + rest)[2] == rest[0];
    }
  }

  /** A class line whose second token is missing or not an integer is skipped. */
  lemma ClassWordsSkipped(parts: seq<string>)
    requires |parts| < 2 || ParseInt(parts[1]).None?
    ensures ClassWords(parts).None?
  {
  }

  // ---------------------------------------------------------------------------------------
  // Filling the dictionary

  /** What `read` makes of a line assigns key `k`. */
  predicate Writes<V>(read: string -> Option<(string, V)>, line: string, k: string) {
    read(line).Some? && read(line).value.0 == k
  }

  /**
   * `classes[name] = (count, pct)` for each line that `read` accepts, in order: the dictionary
   * after the lines. The script's loop is `Fill(text.splitlines(), ClassLine)`.
   */
  function Fill<V>(lines: seq<string>, read: string -> Option<(string, V)>): Dict<V> {
    if lines == [] then []
    else
      var d := Fill(lines[..|lines| - 1], read);
      match read(lines[|lines| - 1])
      case None => d
      case Some((k, v)) => Put(d, k, v)
  }

  /** One more line: its entry, if any, is put into the dictionary of the lines before it. */
  lemma FillStep<V>(lines: seq<string>, read: string -> Option<(string, V)>, i: nat)
    requires i < |lines|
    ensures read(lines[i]).None? ==> Fill(lines[..i + 1], read) == Fill(lines[..i], read)
    ensures read(lines[i]).Some? ==>
      Fill(lines[..i + 1], read) == Put(Fill(lines[..i], read), read(lines[i]).value.0, read(lines[i]).value.1)
  {
    assert lines[..i + 1][..i] == lines[..i];
  }

  /** A key is present exactly when some line writes it, and it holds what the last such line wrote. */
  lemma FillGet<V>(lines: seq<string>, read: string -> Option<(string, V)>, k: string)
    ensures Get(Fill(lines, read), k).None? <==> forall j | 0 <= j < |lines| :: !Writes(read, lines[j], k)
    ensures forall j | 0 <= j < |lines| && Writes(read, lines[j], k) ::
      (forall j' | j < j' < |lines| :: !Writes(read, lines[j'], k)) ==> Get(Fill(lines, read), k) == Some(read(lines[j]).value.1)
  {
    FillAbsent(lines, read, k);
    forall j | 0 <= j < |lines| && Writes(read, lines[j], k) &&
      (forall j' | j < j' < |lines| :: !Writes(read, lines[j'], k))
      ensures Get(Fill(lines, read), k) == Some(read(lines[j]).value.1)
    {
      FillLast(lines, read, k, j);
    }
  }

  lemma {:induction false} FillAbsent<V>(lines: seq<string>, read: string -> Option<(string, V)>, k: string)
    ensures Get(Fill(lines, read), k).None? <==> forall j | 0 <= j < |lines| :: !Writes(read, lines[j], k)
  {
    if lines != [] {
      var n := |lines| - 1;
      var init := lines[..n];
      FillAbsent(init, read, k);
      assert forall j | 0 <= j < n :: init[j] == lines[j];
      var d := Fill(init, read);
      match read(lines[n])
      case None =>
      case Some((k', v)) =>
        PutGet(d, k', v, k);
    }
  }

  lemma {:induction false} FillLast<V>(lines: seq<string>, read: string -> Option<(string, V)>, k: string, j: nat)
    requires j < |lines| && Writes(read, lines[j], k)
    requires forall j' | j < j' < |lines| :: !Writes(read, lines[j'], k)
    ensures Get(Fill(lines, read), k) == Some(read(lines[j]).value.1)
  {
    var n := |lines| - 1;
    var init := lines[..n];
    var d := Fill(init, read);
    if j == n {
      var (k', v) := read(lines[n]).value;
      assert Fill(lines, read) == Put(d, k', v);
      PutGet(d, k', v, k);
    } else {
      assert init[j] == lines[j];
      assert forall j' | j < j' < n :: init[j'] == lines[j'];
      FillLast(init, read, k, j);
      match read(lines[n])
      case None =>
      case Some((k', v)) =>
        PutGet(d, k', v, k);
    }
  }

  /** Keys are unique: a repeated name replaces its entry instead of adding one. */
  lemma {:induction false} FillUnique<V>(lines: seq<string>, read: string -> Option<(string, V)>)
    ensures UniqueKeys(Fill(lines, read))
  {
    if lines != [] {
      var n := |lines| - 1;
      FillUnique(lines[..n], read);
      match read(lines[n])
      case None =>
      case Some((k, v)) => PutSpec(Fill(lines[..n], read), k, v);
    }
  }

  /**
   * `parse`: the instruction count, and the class dictionary filled line by line from the
   * lines of the text.
   */
  method Parse(text: string) returns (numInst: Option<nat>, classes: Dict<Entry>)
    ensures numInst == NumInst(text)
    ensures classes == Fill(SplitLines(text), ClassLine)
  {
    numInst := NumInst(text);
    classes := [];
    var lines := SplitLines(text);
    for i := 0 to |lines|
      invariant classes == Fill(lines[..i], ClassLine)
    {
      var entry := ReadClassLine(lines[i]);
      FillStep(lines, ClassLine, i);
      if entry.Some? {
        classes := Put(classes, entry.value.0, entry.value.1);
      }
    }
    assert lines[..|lines|] == lines;
  }

  /** The body of the loop of `parse` for one line: None where it moves on to the next line. */
  method ReadClassLine(line: string) returns (r: Option<(string, Entry)>)
    ensures r == ClassLine(line)
  {
    if !StartsWith(line, ClassPrefix) {
      return None;
    }
    var parts := Split(line);
    ClassLineNeverRaises(line);
    var name := SplitOnce(parts[0], "::").1.value;
    if |parts| < 2 {
      return None;
    }
    var count := ParseInt(parts[1]);
    if count.None? {
      return None;
    }
    var pct: Option<real> := None;
    if |parts| >= 3 && EndsWith(parts[2], "%") {
      pct := ParseReal(TrimRightChar(parts[2], '%'));
    }
    return Some((name, Entry(count.value, pct)));
  }

  // ---------------------------------------------------------------------------------------
  // The report

  /** The comprehension's condition: a nonzero count, and not the `total` class. */
  predicate Reported(kv: (string, Entry)) { kv.1.count != 0 && kv.0 != "total" }

  /** `key=lambda kv: kv[1][0], reverse=True`: higher counts first. */
  predicate CountGe(a: (string, Entry), b: (string, Entry)) { a.1.count >= b.1.count }

  lemma CountGeTotal()
    ensures TotalPreorder(CountGe)
  {
  }

  /** The items `main` reports, in the order it reports them. */
  function Items(classes: Dict<Entry>): seq<(string, Entry)> {
    SortBy(Select(classes, Reported), CountGe)
  }

  /**
   * The reported items are exactly the classes with a nonzero count other than `total`, each
   * once, with counts non-increasing; classes with equal counts keep their dictionary order.
   */
  lemma ItemsSpec(classes: Dict<Entry>, c: int)
    ensures forall kv :: kv in Items(classes) <==> kv in classes && Reported(kv)
    ensures forall kv :: multiset(Items(classes))[kv] == if Reported(kv) then multiset(classes)[kv] else 0
    ensures forall i, j | 0 <= i < j < |Items(classes)| :: Items(classes)[i].1.count >= Items(classes)[j].1.count
    ensures Select(Items(classes), (kv: (string, Entry)) => kv.1.count == c) == Select(Select(classes, Reported), (kv: (string, Entry)) => kv.1.count == c)
  {
    var s := Select(classes, Reported);
    CountGeTotal();
    SortBySorted(s, CountGe);
    forall kv ensures kv in Items(classes) <==> kv in classes && Reported(kv) {
      SelectMembers(classes, Reported, kv);
      assert kv in Items(classes) <==> kv in multiset(Items(classes));
    }
    forall kv ensures multiset(Items(classes))[kv] == if Reported(kv) then multiset(classes)[kv] else 0 {
      SelectMultiset(classes, Reported, kv);
    }
    SortByStable(s, CountGe, (kv: (string, Entry)) => kv.1.count == c);
  }

  /**
   * The percentage `main` prints for an entry: the line's own, else `count / num_inst * 100`
   * when the instruction count is known and nonzero. Otherwise `pct` stays None and
   * formatting it with `:.2f` raises TypeError.
   */
  function ShownPct(numInst: Option<nat>, e: Entry): Result<real, PyError> {
    if e.pct.Some? then Ok(e.pct.value)
    else if numInst.Some? && numInst.value != 0 then Ok(e.count as real / numInst.value as real * 100.0)
    else Err(TypeError)
  }

  /** The fallback is the count's share of all committed instructions, in percent. */
  lemma ShownPctSpec(numInst: Option<nat>, e: Entry)
    ensures ShownPct(numInst, e).Ok? <==> e.pct.Some? || (numInst.Some? && numInst.value != 0)
    ensures ShownPct(numInst, e).Err? ==> ShownPct(numInst, e).error == TypeError
    ensures e.pct.Some? ==> ShownPct(numInst, e) == Ok(e.pct.value)
    ensures e.pct.None? && numInst.Some? && numInst.value != 0 ==>
      ShownPct(numInst, e).value * numInst.value as real == e.count as real * 100.0
    ensures e.pct.None? && numInst.Some? && numInst.value != 0 && 0 <= e.count <= numInst.value ==>
      0.0 <= ShownPct(numInst, e).value <= 100.0
  {
    if e.pct.None? && numInst.Some? && numInst.value != 0 {
      var n := numInst.value as real;
      var c := e.count as real;
      assert c / n * 100.0 * n == c * 100.0;
      if 0 <= e.count <= numInst.value {
        assert c / n <= 1.0;
      }
    }
  }

  /** One printed line of the report: name, count and percentage. */
  datatype Row = Row(name: string, count: int, pct: real)

  /**
   * The report's rows for `items`, or the error of the first item whose percentage cannot be
   * formatted; the lines printed before that error are `Shown` below.
   */
  function Rows(numInst: Option<nat>, items: seq<(string, Entry)>): Result<seq<Row>, PyError> {
    if items == [] then Ok([])
    else
      var n := |items| - 1;
      match Rows(numInst, items[..n])
      case Err(e) => Err(e)
      case Ok(rows) =>
        match ShownPct(numInst, items[n].1)
        case Err(e) => Err(e)
        case Ok(p) => Ok(rows + [Row(items[n].0, items[n].1.count, p)])
  }

  /** Every item gets a row when none lacks a percentage that can be formatted, and the rows follow the items. */
  lemma {:induction false} RowsSpec(numInst: Option<nat>, items: seq<(string, Entry)>)
    ensures Rows(numInst, items).Ok? <==> forall k | 0 <= k < |items| :: ShownPct(numInst, items[k].1).Ok?
    ensures Rows(numInst, items).Ok? ==> var rows := Rows(numInst, items).value;
      && |rows| == |items|
      && forall k | 0 <= k < |items| ::
        rows[k] == Row(items[k].0, items[k].1.count, ShownPct(numInst, items[k].1).value)
  {
    if items != [] {
      var n := |items| - 1;
      RowsSpec(numInst, items[..n]);
      assert forall k | 0 <= k < n :: items[..n][k] == items[k];
    }
  }

  /** Once a prefix of the items raises, so do all the items. */
  lemma {:induction false} RowsStops(numInst: Option<nat>, items: seq<(string, Entry)>, i: nat)
    requires i <= |items| && Rows(numInst, items[..i]).Err?
    ensures Rows(numInst, items) == Rows(numInst, items[..i])
    decreases |items| - i
  {
    if i < |items| {
      assert items[..i + 1][..i] == items[..i];
      RowsStops(numInst, items, i + 1);
    } else {
      assert items[..i] == items;
    }
  }

  /** The number of leading items whose percentage can be formatted: the lines printed. */
  function Shown(numInst: Option<nat>, items: seq<(string, Entry)>): (n: nat)
    ensures n <= |items|
  {
    if items == [] || ShownPct(numInst, items[0].1).Err? then 0 else 1 + Shown(numInst, items[1..])
  }

  /** `Shown` is the position of the first item that raises, or all the items when none does. */
  lemma {:induction false} ShownSpec(numInst: Option<nat>, items: seq<(string, Entry)>, i: nat)
    requires i <= |items|
    ensures Shown(numInst, items) == i <==>
      (forall k | 0 <= k < i :: ShownPct(numInst, items[k].1).Ok?)
      && (i < |items| ==> ShownPct(numInst, items[i].1).Err?)
  {
    if items != [] && ShownPct(numInst, items[0].1).Ok? {
      assert forall k | 0 <= k < |items| - 1 :: items[1..][k] == items[k + 1];
      if i > 0 {
        ShownSpec(numInst, items[1..], i - 1);
      } else {
        ShownSpec(numInst, items[1..], 0);
      }
    }
  }

  /**
   * The per-item loop of `main`: each item's percentage, falling back to the instruction count's
   * share. The lines printed are the rows of the items before the first that raises.
   */
  method Report(numInst: Option<nat>, classes: Dict<Entry>) returns (printed: seq<Row>, out: Result<seq<Row>, PyError>)
    ensures out == Rows(numInst, Items(classes))
    ensures Rows(numInst, Items(classes)[..Shown(numInst, Items(classes))]) == Ok(printed)
  {
    var items := Items(classes);
    var rows: seq<Row> := [];
    for i := 0 to |items|
      invariant Rows(numInst, items[..i]) == Ok(rows)
    {
      assert items[..i + 1][..i] == items[..i];
      var (name, entry) := items[i];
      var pct := entry.pct;
      if pct.None? && numInst.Some? && numInst.value != 0 {
        pct := Some(entry.count as real / numInst.value as real * 100.0);
      }
      if pct.None? {
        RowsStops(numInst, items, i + 1);
        ShownAtError(numInst, items, i);
        return rows, Err(TypeError);
      }
      rows := rows + [Row(name, entry.count, pct.value)];
    }
    assert items[..|items|] == items;
    ShownAll(numInst, items);
    return rows, Ok(rows);
  }

  /** An item that raises after a prefix with rows is where the printed lines end. */
  lemma ShownAtError(numInst: Option<nat>, items: seq<(string, Entry)>, i: nat)
    requires i < |items| && Rows(numInst, items[..i]).Ok? && Rows(numInst, items[..i + 1]).Err?
    ensures Shown(numInst, items) == i
  {
    RowsSpec(numInst, items[..i]);
    RowsSpec(numInst, items[..i + 1]);
    assert forall k | 0 <= k < i :: items[..i][k] == items[k];
    assert forall k | 0 <= k <= i :: items[..i + 1][k] == items[k];
    ShownSpec(numInst, items, i);
  }

  /** A report with rows printed a line for every item. */
  lemma ShownAll(numInst: Option<nat>, items: seq<(string, Entry)>)
    requires Rows(numInst, items).Ok?
    ensures Shown(numInst, items) == |items|
  {
    RowsSpec(numInst, items);
    ShownSpec(numInst, items, |items|);
  }
}
