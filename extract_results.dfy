/**
 * The results scanner of the superscalar section: a listing of `=== results/stats_...txt`
 * header lines, each followed by one data line, becomes one record per header with its width
 * and thread count, four metrics read off the data line (0.0 when absent), sorted by
 * (width, threads), and written as a CSV table.
 */
module ExtractResults {
  import opened Wrappers
  import opened Strings
  import opened Numbers
  import opened Patterns
  import opened Sorting
  import opened Csv
  import opened Seqs

  // ---------------------------------------------------------------------------------------
  // Matching a header line

  /** The rest of `s` after the prefix `p`, None when `s` does not start with `p`. */
  function AfterPrefix(s: string, p: string): (r: Option<string>)
    ensures r.Some? <==> StartsWith(s, p)
    ensures r.Some? ==> s == p + r.value
  {
    if StartsWith(s, p) then
      assert s == s[..|p|] + s[|p|..];
      Some(s[|p|..])
    else None
  }

  /** The longest prefix of `s` made of characters of the class, and what follows it. */
  function TakeRun(s: string, cls: Class): (r: (string, string))
    ensures s == r.0 + r.1
  {
    var n := Run(s, 0, cls);
    assert s == s[..n] + s[n..];
    (s[..n], s[n..])
  }

  /** The run taken is maximal. */
  lemma TakeRunSpec(s: string, cls: Class)
    ensures var (a, b) := TakeRun(s, cls);
      (forall k | 0 <= k < |a| :: In(a[k], cls)) && (b == [] || !In(b[0], cls))
  {
    RunSpec(s, 0, cls);
  }

  /** A text that starts with `p` is `p` followed by the rest. */
  lemma StartsWithRest(s: string, p: string)
    requires StartsWith(s, p)
    ensures s == p + s[|p|..]
  {
    assert s == s[..|p|] + s[|p|..];
  }

  lemma AfterPrefixConcat(p: string, rest: string)
    ensures AfterPrefix(p + rest, p) == Some(rest)
  {
    assert (p + rest)[..|p|] == p;
  }

  /** A run of the class followed by a character outside it splits there. */
  lemma TakeRunConcat(a: string, rest: string, cls: Class)
    requires forall k | 0 <= k < |a| :: In(a[k], cls)
    requires rest == [] || !In(rest[0], cls)
    ensures TakeRun(a + rest, cls) == (a, rest)
  {
    var s := a + rest;
    assert forall k | 0 <= k < |a| :: s[k] == a[k];
    assert |a| < |s| ==> s[|a|] == rest[0];
    RunExact(s, 0, cls, |a|);
    assert s[..|a|] == a && s[|a|..] == rest;
  }

  /**
   * `re.match(r'===\s*results/stats_o3_w(\d+)_t(\d+)_m\d+\.txt', line)`, with groups 1 and 2
   * as integers. The match is anchored at the start only, so anything may follow `.txt`.
   */
  function Header(line: string): Option<(nat, nat)> {
    match AfterPrefix(line, "===")
    case None => None
    case Some(r0) =>
      match AfterPrefix(TakeRun(r0, Space).1, "results/stats_o3_w")
      case None => None
      case Some(r1) => FileNumbers(r1)
  }

  /** `(\d+)` followed by the literal `lit` at the start of `s`: the digits and what follows `lit`. */
  function NumberThen(s: string, lit: string): (r: Option<(string, string)>)
    ensures r.Some? ==> r.value.0 != [] && AllDigits(r.value.0)
  {
    var (d, rest) := TakeRun(s, Digit);
    if d == [] then None
    else match AfterPrefix(rest, lit)
      case None => None
      case Some(after) => TakeRunSpec(s, Digit); Some((d, after))
  }

  /** A match of `(\d+)lit` is the digits, the literal and the rest, in that order. */
  lemma NumberThenShape(s: string, lit: string)
    requires NumberThen(s, lit).Some?
    ensures var (d, after) := NumberThen(s, lit).value; s == d + (lit + after)
  {
  }

  /** Digits followed by a literal that does not start with a digit match `(\d+)lit`. */
  lemma NumberThenConcat(d: string, lit: string, after: string)
    requires d != [] && AllDigits(d) && lit != [] && !IsDigit(lit[0])
    ensures NumberThen(d + (lit + after), lit) == Some((d, after))
  {
    TakeRunConcat(d, lit + after, Digit);
    AfterPrefixConcat(lit, after);
  }

  /** `(\d+)_t(\d+)_m\d+\.txt` at the start of `s`: the first two numbers. */
  function FileNumbers(s: string): Option<(nat, nat)> {
    match NumberThen(s, "_t")
    case None => None
    case Some((w, r3)) =>
      match NumberThen(r3, "_m")
      case None => None
      case Some((t, r5)) =>
        match NumberThen(r5, ".txt")
        case None => None
        case Some(_) => Some((DigitsValue(w), DigitsValue(t)))
  }

  /** The file-name part of a header line: three numbers separated by `_t` and `_m`, `.txt`, anything. */
  function NumbersText(w: string, t: string, m: string, rest: string): string {
    w + ("_t" + (t + ("_m" + (m + (".txt" + rest)))))
  }

  /** The text of a header line: `===`, whitespace, the file name with its three numbers, anything. */
  function HeaderText(ws: string, w: string, t: string, m: string, rest: string): string {
    "===" + (ws + ("results/stats_o3_w" + NumbersText(w, t, m, rest)))
  }

  lemma FileNumbersRoundTrip(w: string, t: string, m: string, rest: string)
    requires w != [] && AllDigits(w) && t != [] && AllDigits(t) && m != [] && AllDigits(m)
    ensures FileNumbers(NumbersText(w, t, m, rest)) == Some((DigitsValue(w), DigitsValue(t)))
  {
    var x5 := "_m" + (m + (".txt" + rest));
    NumberThenConcat(w, "_t", t + x5);
    NumberThenConcat(t, "_m", m + (".txt" + rest));
    NumberThenConcat(m, ".txt", rest);
  }

  /** Every such text is a header, and the groups read back as the width and thread count. */
  lemma HeaderRoundTrip(ws: string, w: string, t: string, m: string, rest: string)
    requires AllSpace(ws)
    requires w != [] && AllDigits(w) && t != [] && AllDigits(t) && m != [] && AllDigits(m)
    ensures Header(HeaderText(ws, w, t, m, rest)) == Some((DigitsValue(w), DigitsValue(t)))
  {
    var x2 := NumbersText(w, t, m, rest);
    var x1 := "results/stats_o3_w" + x2;
    AfterPrefixConcat("===", ws + x1);
    PrintableNotSpace('r');
    assert x1[0] == 'r';
    TakeRunConcat(ws, x1, Space);
    AfterPrefixConcat("results/stats_o3_w", x2);
    FileNumbersRoundTrip(w, t, m, rest);
  }

  /** `=== results/stats_o3_w<W>_t<T>_m<M>.txt` gives width W and T threads. */
  lemma HeaderOfNumbers(w: nat, t: nat, m: nat, rest: string)
    ensures Header(HeaderText(" ", DecimalString(w), DecimalString(t), DecimalString(m), rest)) == Some((w, t))
  {
    SpaceIsSpace();
    HeaderRoundTrip(" ", DecimalString(w), DecimalString(t), DecimalString(m), rest);
    DigitsValueOfDecimal(w);
    DigitsValueOfDecimal(t);
  }

  lemma FileNumbersShape(s: string)
    requires FileNumbers(s).Some?
    ensures exists w, t, m, rest ::
      && w != [] && AllDigits(w) && t != [] && AllDigits(t) && m != [] && AllDigits(m)
      && s == NumbersText(w, t, m, rest) && FileNumbers(s) == Some((DigitsValue(w), DigitsValue(t)))
  {
    var (w, r3) := NumberThen(s, "_t").value;
    var (t, r5) := NumberThen(r3, "_m").value;
    var (m, rest) := NumberThen(r5, ".txt").value;
    NumberThenShape(s, "_t");
    NumberThenShape(r3, "_m");
    NumberThenShape(r5, ".txt");
    assert s == NumbersText(w, t, m, rest);
  }

  /** Only such texts are headers: a header line has that shape, whatever follows `.txt`. */
  lemma HeaderShape(line: string)
    requires Header(line).Some?
    ensures exists ws, w, t, m, rest ::
      && AllSpace(ws) && w != [] && AllDigits(w) && t != [] && AllDigits(t) && m != [] && AllDigits(m)
      && line == HeaderText(ws, w, t, m, rest) && Header(line) == Some((DigitsValue(w), DigitsValue(t)))
  {
    var r0 := AfterPrefix(line, "===").value;
    var (ws, a) := TakeRun(r0, Space);
    TakeRunSpec(r0, Space);
    var r1 := AfterPrefix(a, "results/stats_o3_w").value;
    FileNumbersShape(r1);
    var w, t, m, rest :| && w != [] && AllDigits(w) && t != [] && AllDigits(t) && m != [] && AllDigits(m)
      && r1 == NumbersText(w, t, m, rest) && FileNumbers(r1) == Some((DigitsValue(w), DigitsValue(t)));
    assert line == HeaderText(ws, w, t, m, rest);
  }

  // ---------------------------------------------------------------------------------------
  // Reading a data line

  /**
   * `float(m.group(1)) if m else 0.0` for `m = re.search(lit + r'\s+(C+)', data)`: 0.0 without
   * a match, ValueError when the captured text is not a float.
   */
  function Metric(data: string, lit: string, cls: Class): Result<real, PyError> {
    match Search(data, lit, cls)
    case None => Ok(0.0)
    case Some(g) =>
      match ParseReal(g)
      case None => Err(ValueError)
      case Some(v) => Ok(v)
  }

  /** A data line that does not mention the metric's key records 0.0 for it. */
  lemma MetricAbsent(data: string, lit: string, cls: Class)
    requires !Contains(data, lit)
    ensures Metric(data, lit, cls) == Ok(0.0)
  {
    SearchWithoutKey(data, lit, cls);
  }

  /**
   * The leftmost match decides: the text it captures is parsed, or raises ValueError if it is
   * not a float.
   */
  lemma MetricFound(data: string, lit: string, cls: Class, i: nat)
    requires i <= |data| && MatchAt(data, lit, cls, i).Some?
    requires forall j | 0 <= j < i :: MatchAt(data, lit, cls, j).None?
    ensures var g := MatchAt(data, lit, cls, i).value;
      Metric(data, lit, cls) == if ParseReal(g).Some? then Ok(ParseReal(g).value) else Err(ValueError)
  {
    SearchSpec(data, lit, cls);
    var k :| 0 <= k <= |data| && MatchAt(data, lit, cls, k) == Search(data, lit, cls)
                                && forall j | 0 <= j < k :: MatchAt(data, lit, cls, j).None?;
    assert !(k < i) && !(i < k);
  }

  /** A data line that starts with the key, whitespace and a value reads that value. */
  lemma MetricWritten(data: string, lit: string, cls: Class, w: nat, g: nat)
    requires OccursAt(data, lit, 0)
    requires w > 0 && |lit| + w + g <= |data| && g > 0
    requires forall k | |lit| <= k < |lit| + w :: IsSpace(data[k])
    requires forall k | |lit| + w <= k < |lit| + w + g :: In(data[k], cls) && !IsSpace(data[k])
    requires |lit| + w + g == |data| || !In(data[|lit| + w + g], cls)
    ensures var v := ParseReal(data[|lit| + w..|lit| + w + g]);
      Metric(data, lit, cls) == if v.Some? then Ok(v.value) else Err(ValueError)
  {
    SearchFindsWritten(data, lit, cls, w, g);
  }

  /** One extracted record. */
  datatype Record = Record(width: nat, threads: nat, simSeconds: real, ipc: real,
                           l1dMissRate: real, l1iMissRate: real)

  /** The four metrics of a data line, in the order the script reads them. */
  function SimSeconds(data: string): Result<real, PyError> { Metric(data, "sim_seconds", FloatChar) }
  function IpcTotal(data: string): Result<real, PyError> { Metric(data, "ipc_total", DigitOrDot) }
  function L1dMiss(data: string): Result<real, PyError> {
    Metric(data, "dcache.overall_miss_rate::total", DigitOrDot)
  }
  function L1iMiss(data: string): Result<real, PyError> {
    Metric(data, "icache.overall_miss_rate::total", DigitOrDot)
  }

  /** The record of a header and its data line; the first metric that raises ends it. */
  function RecordOf(width: nat, threads: nat, data: string): (r: Result<Record, PyError>)
    ensures r.Ok? <==> SimSeconds(data).Ok? && IpcTotal(data).Ok? && L1dMiss(data).Ok? && L1iMiss(data).Ok?
    ensures r.Ok? ==> r.value == Record(width, threads, SimSeconds(data).value, IpcTotal(data).value,
                                        L1dMiss(data).value, L1iMiss(data).value)
    ensures r.Err? ==> r.error == ValueError
  {
    match SimSeconds(data)
    case Err(e) => Err(e)
    case Ok(sim) =>
      match IpcTotal(data)
      case Err(e) => Err(e)
      case Ok(ipc) =>
        match L1dMiss(data)
        case Err(e) => Err(e)
        case Ok(l1d) =>
          match L1iMiss(data)
          case Err(e) => Err(e)
          case Ok(l1i) => Ok(Record(width, threads, sim, ipc, l1d, l1i))
  }

  // ---------------------------------------------------------------------------------------
  // The scanning loop

  /** `[r] + rs` on success; an exception stays as it is. */
  function AppendTo(rs: seq<Record>, res: Result<seq<Record>, PyError>): Result<seq<Record>, PyError> {
    match res
    case Ok(more) => Ok(rs + more)
    case Err(e) => Err(e)
  }

  /**
   * The records collected from position `i` on, for any way `hdr` of recognising a header and
   * any way `rec` of reading the line after it, both applied to stripped lines: a header
   * followed by a line takes that line as its data and moves on by two; a header on the last
   * line, or any other line, moves on by one. The script's loop is `Scan(lines, 0, Header, RecordOf)`.
   */
  function Scan(lines: seq<string>, i: nat, hdr: string -> Option<(nat, nat)>,
                rec: (nat, nat, string) -> Result<Record, PyError>): Result<seq<Record>, PyError>
    requires i <= |lines|
    decreases |lines| - i
  {
    if i == |lines| then Ok([])
    else match hdr(Strip(lines[i]))
      case None => Scan(lines, i + 1, hdr, rec)
      case Some((w, t)) =>
        if i + 1 < |lines| then
          match rec(w, t, Strip(lines[i + 1]))
          case Err(e) => Err(e)
          case Ok(r) => AppendTo([r], Scan(lines, i + 2, hdr, rec))
        else Scan(lines, i + 1, hdr, rec)
  }

  /** The records of a results listing, in file order. */
  function Records(lines: seq<string>): Result<seq<Record>, PyError> {
    Scan(lines, 0, Header, RecordOf)
  }

  lemma AppendToNil(res: Result<seq<Record>, PyError>)
    ensures AppendTo([], res) == res
  {
    if res.Ok? {
      assert [] + res.value == res.value;
    }
  }

  lemma AppendToAppend(a: seq<Record>, b: seq<Record>, res: Result<seq<Record>, PyError>)
    ensures AppendTo(a, AppendTo(b, res)) == AppendTo(a + b, res)
  {
    if res.Ok? {
      assert a + (b + res.value) == a + b + res.value;
    }
  }

  /** The sort key `(width, threads)`, compared lexicographically. */
  predicate KeyLe(a: Record, b: Record) {
    a.width < b.width || (a.width == b.width && a.threads <= b.threads)
  }

  lemma KeyLeTotal()
    ensures TotalPreorder(KeyLe)
  {
  }

  /** `results.sort(key=lambda x: (x['width'], x['threads']))` applied to a successful scan. */
  function Sorted(res: Result<seq<Record>, PyError>): Result<seq<Record>, PyError> {
    match res
    case Ok(rs) => Ok(SortBy(rs, KeyLe))
    case Err(e) => Err(e)
  }

  /** Records of one (width, threads) pair. */
  predicate SameKey(x: Record, e: Record) { e.width == x.width && e.threads == x.threads }

  /**
   * The loop of `extract_results`, for any header matcher and record reader: an index that
   * moves by one or two, records appended in file order, the first exception propagated.
   */
  method Collect(lines: seq<string>, hdr: string -> Option<(nat, nat)>,
                 rec: (nat, nat, string) -> Result<Record, PyError>) returns (out: Result<seq<Record>, PyError>)
    ensures out == Scan(lines, 0, hdr, rec)
  {
    var results: seq<Record> := [];
    var i := 0;
    AppendToNil(Scan(lines, 0, hdr, rec));
    while i < |lines|
      invariant i <= |lines|
      invariant Scan(lines, 0, hdr, rec) == AppendTo(results, Scan(lines, i, hdr, rec))
      decreases |lines| - i
    {
      var line := Strip(lines[i]);
      var header := hdr(line);
      if header.Some? {
        var (width, threads) := header.value;
        if i + 1 < |lines| {
          var data := Strip(lines[i + 1]);
          var r := rec(width, threads, data);
          if r.Err? {
            return Err(r.error);
          }
          AppendToAppend(results, [r.value], Scan(lines, i + 2, hdr, rec));
          results := results + [r.value];
          i := i + 2;
        } else {
          i := i + 1;
        }
      } else {
        i := i + 1;
      }
    }
    assert results + [] == results;
    return Ok(results);
  }

  /** `extract_results` up to the CSV: the records of the listing, sorted by (width, threads). */
  method Extract(lines: seq<string>) returns (out: Result<seq<Record>, PyError>)
    ensures out == Sorted(Records(lines))
  {
    var results := Collect(lines, Header, RecordOf);
    if results.Err? {
      return Err(results.error);
    }
    return Ok(SortBy(results.value, KeyLe));
  }

  /**
   * What the sort promises: the records come out ordered by (width, threads), as a permutation
   * of the scanned ones, and records with the same key keep their scanned order.
   */
  lemma SortedSpec(res: Result<seq<Record>, PyError>, x: Record)
    ensures Sorted(res).Ok? <==> res.Ok?
    ensures res.Err? ==> Sorted(res) == res
    ensures res.Ok? ==> SortedBy(Sorted(res).value, KeyLe)
    ensures res.Ok? ==> multiset(Sorted(res).value) == multiset(res.value)
    ensures res.Ok? ==> Select(Sorted(res).value, e => SameKey(x, e)) == Select(res.value, e => SameKey(x, e))
  {
    if res.Ok? {
      KeyLeTotal();
      SortBySorted(res.value, KeyLe);
      SortByStable(res.value, KeyLe, e => SameKey(x, e));
    }
  }

  /** `rec` keeps the width and thread count it is given. */
  ghost predicate KeepsKey(rec: (nat, nat, string) -> Result<Record, PyError>) {
    forall w, t, l :: rec(w, t, l).Ok? ==> rec(w, t, l).value.width == w && rec(w, t, l).value.threads == t
  }

  /** The record `rec` reads at a header at position `j` whose next line exists. */
  predicate ReadAt(lines: seq<string>, j: nat, hdr: string -> Option<(nat, nat)>,
                   rec: (nat, nat, string) -> Result<Record, PyError>, r: Record) {
    && j + 1 < |lines| && hdr(Strip(lines[j])) == Some((r.width, r.threads))
    && rec(r.width, r.threads, Strip(lines[j + 1])) == Ok(r)
  }

  /** Some header at or after `i`, with the line after it, reads as `r`. */
  ghost predicate ReadFrom(lines: seq<string>, i: nat, hdr: string -> Option<(nat, nat)>,
                           rec: (nat, nat, string) -> Result<Record, PyError>, r: Record) {
    exists j | i <= j :: ReadAt(lines, j, hdr, rec, r)
  }

  lemma ReadFromEarlier(lines: seq<string>, i: nat, d: nat, hdr: string -> Option<(nat, nat)>,
                        rec: (nat, nat, string) -> Result<Record, PyError>, r: Record)
    requires ReadFrom(lines, i + d, hdr, rec, r)
    ensures ReadFrom(lines, i, hdr, rec, r)
  {
    var j :| i + d <= j && ReadAt(lines, j, hdr, rec, r);
    assert i <= j;
  }

  /** Records read from `i + d` on are read from `i` on. */
  lemma ReadFromAllEarlier(lines: seq<string>, i: nat, d: nat, hdr: string -> Option<(nat, nat)>,
                           rec: (nat, nat, string) -> Result<Record, PyError>, more: seq<Record>)
    requires forall k | 0 <= k < |more| :: ReadFrom(lines, i + d, hdr, rec, more[k])
    ensures forall k | 0 <= k < |more| :: ReadFrom(lines, i, hdr, rec, more[k])
  {
    forall k | 0 <= k < |more| ensures ReadFrom(lines, i, hdr, rec, more[k]) {
      ReadFromEarlier(lines, i, d, hdr, rec, more[k]);
    }
  }

  /**
   * Every record comes from a header at some position `j` whose next line exists and is its
   * data line, with the header's width and thread count.
   */
  lemma {:induction false} ScanFromHeaders(lines: seq<string>, i: nat, hdr: string -> Option<(nat, nat)>,
                                            rec: (nat, nat, string) -> Result<Record, PyError>)
    requires i <= |lines| && Scan(lines, i, hdr, rec).Ok? && KeepsKey(rec)
    ensures var rs := Scan(lines, i, hdr, rec).value;
      forall k | 0 <= k < |rs| :: ReadFrom(lines, i, hdr, rec, rs[k])
    decreases |lines| - i
  {
    var rs := Scan(lines, i, hdr, rec).value;
    if i < |lines| {
      var d: nat := if hdr(Strip(lines[i])).Some? && i + 1 < |lines| then 2 else 1;
      ScanFromHeaders(lines, i + d, hdr, rec);
      var more := Scan(lines, i + d, hdr, rec).value;
      ReadFromAllEarlier(lines, i, d, hdr, rec, more);
      if d == 2 {
        var (w, t) := hdr(Strip(lines[i])).value;
        var r := rec(w, t, Strip(lines[i + 1])).value;
        assert rs == [r] + more;
        assert ReadAt(lines, i, hdr, rec, r);
        assert forall k | 0 < k < |rs| :: rs[k] == more[k - 1];
      } else {
        assert rs == more;
      }
    }
  }

  lemma RecordOfKeepsKey()
    ensures KeepsKey(RecordOf)
  {
  }

  /** Each record of the listing comes from a header line and the line after it. */
  lemma RecordsFromHeaders(lines: seq<string>)
    requires Records(lines).Ok?
    ensures var rs := Records(lines).value;
      forall k | 0 <= k < |rs| :: ReadFrom(lines, 0, Header, RecordOf, rs[k])
  {
    RecordOfKeepsKey();
    ScanFromHeaders(lines, 0, Header, RecordOf);
  }

  /** Each record consumes two lines, so there are at most half as many records as lines. */
  lemma {:induction false} ScanCount(lines: seq<string>, i: nat, hdr: string -> Option<(nat, nat)>,
                                      rec: (nat, nat, string) -> Result<Record, PyError>)
    requires i <= |lines| && Scan(lines, i, hdr, rec).Ok?
    ensures 2 * |Scan(lines, i, hdr, rec).value| <= |lines| - i
    decreases |lines| - i
  {
    if i < |lines| {
      match hdr(Strip(lines[i]))
      case None => ScanCount(lines, i + 1, hdr, rec);
      case Some(_) =>
        if i + 1 < |lines| {
          ScanCount(lines, i + 2, hdr, rec);
        } else {
          ScanCount(lines, i + 1, hdr, rec);
        }
    }
  }

  /** Without a header from position `i` on, nothing is collected. */
  lemma {:induction false} ScanNoHeaders(lines: seq<string>, i: nat, hdr: string -> Option<(nat, nat)>,
                                          rec: (nat, nat, string) -> Result<Record, PyError>)
    requires i <= |lines|
    requires forall j | i <= j < |lines| :: hdr(Strip(lines[j])).None?
    ensures Scan(lines, i, hdr, rec) == Ok([])
    decreases |lines| - i
  {
    if i < |lines| {
      ScanNoHeaders(lines, i + 1, hdr, rec);
    }
  }

  /** A listing without header lines gives no records. */
  lemma RecordsNoHeaders(lines: seq<string>)
    requires forall j | 0 <= j < |lines| :: Header(Strip(lines[j])).None?
    ensures Records(lines) == Ok([])
  {
    ScanNoHeaders(lines, 0, Header, RecordOf);
  }

  /**
   * The line after a header is read as data even when it is a header itself: two headers
   * followed by a plain line give one record, the first header's, with the second as data.
   */
  lemma ScanHeaderAsData(h1: string, h2: string, d: string, w: nat, t: nat,
                         hdr: string -> Option<(nat, nat)>, rec: (nat, nat, string) -> Result<Record, PyError>)
    requires hdr(Strip(h1)) == Some((w, t)) && hdr(Strip(h2)).Some? && hdr(Strip(d)).None?
    requires rec(w, t, Strip(h2)).Ok?
    ensures Scan([h1, h2, d], 0, hdr, rec) == Ok([rec(w, t, Strip(h2)).value])
  {
    var lines := [h1, h2, d];
    var r := rec(w, t, Strip(h2)).value;
    assert Scan(lines, 3, hdr, rec) == Ok([]);
    assert Scan(lines, 2, hdr, rec) == Ok([]);
    assert [r] + [] == [r];
  }

  lemma HeaderAsData(h1: string, h2: string, d: string, w: nat, t: nat)
    requires Header(Strip(h1)) == Some((w, t)) && Header(Strip(h2)).Some? && Header(Strip(d)).None?
    requires RecordOf(w, t, Strip(h2)).Ok?
    ensures Records([h1, h2, d]) == Ok([RecordOf(w, t, Strip(h2)).value])
  {
    ScanHeaderAsData(h1, h2, d, w, t, Header, RecordOf);
  }

  /** A header on the last line, with no line after it to read, gives nothing. */
  lemma ScanLastLine(lines: seq<string>, hdr: string -> Option<(nat, nat)>,
                     rec: (nat, nat, string) -> Result<Record, PyError>)
    requires lines != []
    ensures Scan(lines, |lines| - 1, hdr, rec) == Ok([])
  {
  }

  // ---------------------------------------------------------------------------------------
  // The CSV table

  const Fieldnames: seq<string> := ["width", "threads", "sim_seconds", "ipc", "l1d_miss_rate", "l1i_miss_rate"]

  /** A record as a CSV line, one cell per field name. */
  function Project(r: Record): (cells: seq<Cell>)
    ensures |cells| == |Fieldnames|
  {
    [Num(r.width as real), Num(r.threads as real), Num(r.simSeconds), Num(r.ipc),
     Num(r.l1dMissRate), Num(r.l1iMissRate)]
  }

  /** A cell holding a natural number. */
  function NatOf(c: Cell): Option<nat> {
    if c.Num? && c.x >= 0.0 && c.x.Floor as real == c.x then Some(c.x.Floor) else None
  }

  /** Reads a CSV line back into a record. */
  function RecordOfCells(cells: seq<Cell>): Option<Record> {
    if |cells| != 6 || NatOf(cells[0]).None? || NatOf(cells[1]).None? then None
    else if !(cells[2].Num? && cells[3].Num? && cells[4].Num? && cells[5].Num?) then None
    else Some(Record(NatOf(cells[0]).value, NatOf(cells[1]).value, cells[2].x, cells[3].x, cells[4].x, cells[5].x))
  }

  /** The projection loses nothing. */
  lemma ProjectRoundTrip(r: Record)
    ensures RecordOfCells(Project(r)) == Some(r)
  {
  }

  /** What `DictWriter` writes: the header line, then one line per record in order. */
  function Table(rs: seq<Record>): (t: seq<seq<Cell>>)
    ensures |t| == |rs| + 1 && t[0] == HeaderLine(Fieldnames)
    ensures forall i | 0 <= i < |rs| :: RecordOfCells(t[i + 1]) == Some(rs[i])
  {
    forall i | 0 <= i < |rs| ensures RecordOfCells(Project(rs[i])) == Some(rs[i]) {
      ProjectRoundTrip(rs[i]);
    }
    [HeaderLine(Fieldnames)] + seq(|rs|, i requires 0 <= i < |rs| => Project(rs[i]))
  }
}
