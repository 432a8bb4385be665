/**
 * The OpenMP thread sweep of the multicore section: one gem5 run per thread count, each run's
 * `stats.txt` read into a map of integer counters, the CPU with the most cycles, the speedup
 * against the first run, the instructions per cycle of that CPU, and one result line per run.
 */
module ThreadSweep {
  import opened Wrappers
  import opened Strings
  import opened Numbers
  import opened Dicts
  import opened Seqs

  /** The thread counts swept, in order (`threads_list`). */
  const ThreadsList: seq<nat> := [1, 2, 4, 8, 16, 32, 64]

  /** The matrix size handed to the program (`taille_matrice`). */
  const MatrixSize: nat := 64

  /** The gem5 installation every command names. */
  const Gem5: string := "/home/g/gbusnot/ES201/tools/TP5/gem5-stable"

  // ---------------------------------------------------------------------------------------
  // The command of one run

  /** The text before the first thread count in the command line. */
  function CommandHead(): string {
    Gem5 + "/build/ARM/gem5.fast " + Gem5 + "/configs/example/se.py -n "
  }

  /** The text after the first thread count. */
  function CommandTail(n: nat): (r: string)
    ensures r != [] && r[0] == ' '
  {
    " -c " + Gem5 + "/../test_omp -o '" + DecimalString(n) + " " + DecimalString(MatrixSize) + "'"
  }

  /** The shell command of the run with `n` threads. */
  function Command(n: nat): string {
    CommandHead() + DecimalString(n) + CommandTail(n)
  }

  /** Different thread counts give different commands. */
  lemma CommandInjective(a: nat, b: nat)
    ensures Command(a) == Command(b) <==> a == b
  {
    if Command(a) == Command(b) {
      SameHeadDigits(CommandHead(), DecimalString(a), CommandTail(a), DecimalString(b), CommandTail(b));
      DecimalParsesAsInt(a);
      DecimalParsesAsInt(b);
    }
  }

  /** Behind a common head, digit strings each followed by a space-led text are equal. */
  lemma SameHeadDigits(h: string, d: string, x: string, e: string, y: string)
    requires AllDigits(d) && AllDigits(e) && x != [] && x[0] == ' ' && y != [] && y[0] == ' '
    requires h + d + x == h + e + y
    ensures d == e
  {
    assert h + d + x == h + (d + x) && h + e + y == h + (e + y);
    assert d + x == (h + (d + x))[|h|..] && e + y == (h + (e + y))[|h|..];
    DigitsBeforeSpace(d, x, e, y);
  }

  /** Two digit strings each followed by a space-led text: equal texts have equal digits. */
  lemma DigitsBeforeSpace(d: string, x: string, e: string, y: string)
    requires AllDigits(d) && AllDigits(e) && x != [] && x[0] == ' ' && y != [] && y[0] == ' '
    requires d + x == e + y
    ensures d == e
  {
    var m := if |d| <= |e| then |d| else |e|;
    assert (d + x)[m] == (e + y)[m];
    assert d == (d + x)[..|d|] && e == (e + y)[..|e|];
  }

  // ---------------------------------------------------------------------------------------
  // Reading a stats dump: parse_stats

  /** A line that mentions both `numCycles` and `cpu` records a cycle counter. */
  predicate IsCycleLine(line: string) {
    Contains(line, "numCycles") && Contains(line, "cpu")
  }

  /** A line that, once stripped, starts with `sim_insts ` gives the instruction count. */
  predicate IsSimInstsLine(line: string) {
    StartsWith(Strip(line), "sim_insts ")
  }

  /**
   * `parties = ligne.split()` then `int(parties[1])` and `parties[0]`: the index is checked
   * first, so a one-word line raises IndexError and a non-integer second word ValueError.
   */
  function KeyAndCount(line: string): (r: Result<(string, int), PyError>)
    ensures r.Ok? <==> |Split(line)| >= 2 && ParseInt(Split(line)[1]).Some?
    ensures r.Ok? ==> r.value == (Split(line)[0], ParseInt(Split(line)[1]).value)
    ensures r.Err? ==> r.error == if |Split(line)| < 2 then IndexError else ValueError
  {
    var parts := Split(line);
    if |parts| < 2 then Err(IndexError)
    else match ParseInt(parts[1])
      case None => Err(ValueError)
      case Some(n) => Ok((parts[0], n))
  }

  /** The cycle counter a line sets under key `k`. */
  predicate CycleKey(line: string, k: string) {
    IsCycleLine(line) && KeyAndCount(line).Ok? && KeyAndCount(line).value.0 == k
  }

  /** The first rule of a line: a cycle line stores its counter under its first word. */
  function CycleStep(res: Dict<int>, line: string): Result<Dict<int>, PyError> {
    if !IsCycleLine(line) then Ok(res)
    else match KeyAndCount(line)
      case Err(e) => Err(e)
      case Ok((k, n)) => Ok(Put(res, k, n))
  }

  /** The second rule: the first `sim_insts` line stores its count, later ones are ignored. */
  function SimStep(res: Dict<int>, line: string): Result<Dict<int>, PyError> {
    if !(IsSimInstsLine(line) && Get(res, "sim_insts").None?) then Ok(res)
    else match KeyAndCount(line)
      case Err(e) => Err(e)
      case Ok((_, n)) => Ok(Put(res, "sim_insts", n))
  }

  /** Both rules, in the order the loop body applies them to one line. */
  function StatsStep(res: Dict<int>, line: string): Result<Dict<int>, PyError> {
    match CycleStep(res, line)
    case Err(e) => Err(e)
    case Ok(r) => SimStep(r, line)
  }

  /** The map built from the lines in order, or the exception of the first line that raises. */
  function ParseLines(lines: seq<string>): Result<Dict<int>, PyError> {
    if lines == [] then Ok([])
    else match ParseLines(lines[..|lines| - 1])
      case Err(e) => Err(e)
      case Ok(res) => StatsStep(res, lines[|lines| - 1])
  }

  /** What `parse_stats` returns for the file's lines, None when there is no such file. */
  function ParseFile(file: Option<seq<string>>): Result<Dict<int>, PyError> {
    match file
    case None => Err(FileNotFoundError)
    case Some(lines) => ParseLines(lines)
  }

  /** `parse_stats(stats_file)`, line by line; an exception ends the parse. */
  method ParseStats(file: Option<seq<string>>) returns (r: Result<Dict<int>, PyError>)
    ensures r == ParseFile(file)
  {
    if file.None? {
      return Err(FileNotFoundError);
    }
    var lines := file.value;
    var res: Dict<int> := [];
    for i := 0 to |lines|
      invariant ParseLines(lines[..i]) == Ok(res)
    {
      assert lines[..i + 1][..i] == lines[..i];
      var step := StatsStep(res, lines[i]);
      if step.Err? {
        ParseLinesStops(lines, i + 1);
        return step;
      }
      res := step.value;
    }
    assert lines[..|lines|] == lines;
    return Ok(res);
  }

  /** Once a line raises, the lines after it are never read. */
  lemma {:induction false} ParseLinesStops(lines: seq<string>, i: nat)
    requires i <= |lines| && ParseLines(lines[..i]).Err?
    ensures ParseLines(lines) == ParseLines(lines[..i])
    decreases |lines| - i
  {
    if i < |lines| {
      assert lines[..i + 1][..i] == lines[..i];
      ParseLinesStops(lines, i + 1);
    } else {
      assert lines[..i] == lines;
    }
  }

  /** A parsed dump holds each key once. */
  lemma {:induction false} ParseLinesUnique(lines: seq<string>)
    requires ParseLines(lines).Ok?
    ensures UniqueKeys(ParseLines(lines).value)
  {
    if lines != [] {
      var init, l := lines[..|lines| - 1], lines[|lines| - 1];
      ParseLinesUnique(init);
      var r0 := ParseLines(init).value;
      if IsCycleLine(l) {
        PutSpec(r0, KeyAndCount(l).value.0, KeyAndCount(l).value.1);
      }
      var r1 := CycleStep(r0, l).value;
      if IsSimInstsLine(l) && Get(r1, "sim_insts").None? {
        PutSpec(r1, "sim_insts", KeyAndCount(l).value.1);
      }
    }
  }

  /** The parse succeeds when every line either rule reads has a second word that is an integer. */
  lemma {:induction false} ParseLinesOk(lines: seq<string>)
    requires forall i | 0 <= i < |lines| && (IsCycleLine(lines[i]) || IsSimInstsLine(lines[i])) ::
      KeyAndCount(lines[i]).Ok?
    ensures ParseLines(lines).Ok?
  {
    if lines != [] {
      ParseLinesOk(lines[..|lines| - 1]);
    }
  }

  /** A failed parse is the fault of a line one of the rules reads, and its exception is that line's. */
  lemma {:induction false} ParseLinesErr(lines: seq<string>)
    requires ParseLines(lines).Err?
    ensures exists i | 0 <= i < |lines| ::
      (IsCycleLine(lines[i]) || IsSimInstsLine(lines[i])) && KeyAndCount(lines[i]) == Err(ParseLines(lines).error)
  {
    var n := |lines| - 1;
    var init := lines[..n];
    if ParseLines(init).Err? {
      ParseLinesErr(init);
      var i :| 0 <= i < |init| && (IsCycleLine(init[i]) || IsSimInstsLine(init[i]))
        && KeyAndCount(init[i]) == Err(ParseLines(init).error);
      assert init[i] == lines[i];
    } else {
      assert IsCycleLine(lines[n]) || IsSimInstsLine(lines[n]);
    }
  }

  /** The first rule sets its own key and leaves every other key as it was. */
  lemma CycleStepGet(res: Dict<int>, line: string, k: string)
    requires CycleStep(res, line).Ok?
    ensures Get(CycleStep(res, line).value, k) ==
      if CycleKey(line, k) then Some(KeyAndCount(line).value.1) else Get(res, k)
  {
    if IsCycleLine(line) {
      PutSpec(res, KeyAndCount(line).value.0, KeyAndCount(line).value.1);
    }
  }

  /** The second rule only ever sets `sim_insts`, and only while it is absent. */
  lemma SimStepGet(res: Dict<int>, line: string, k: string)
    requires SimStep(res, line).Ok?
    ensures Get(SimStep(res, line).value, k) ==
      if k == "sim_insts" && IsSimInstsLine(line) && Get(res, "sim_insts").None?
      then Some(KeyAndCount(line).value.1) else Get(res, k)
  {
    if IsSimInstsLine(line) && Get(res, "sim_insts").None? {
      PutSpec(res, "sim_insts", KeyAndCount(line).value.1);
    }
  }

  /**
   * A cycle counter other than `sim_insts` is in the map exactly when some cycle line names it,
   * and its value is the one on the last such line.
   */
  lemma {:induction false} ParseLinesCycles(lines: seq<string>, k: string)
    requires k != "sim_insts" && ParseLines(lines).Ok?
    ensures var r := ParseLines(lines).value;
      Get(r, k).None? <==> forall i | 0 <= i < |lines| :: !CycleKey(lines[i], k)
    ensures var r := ParseLines(lines).value;
      Get(r, k).Some? ==> exists i | 0 <= i < |lines| ::
        CycleKey(lines[i], k) && KeyAndCount(lines[i]).value.1 == Get(r, k).value
        && forall j | i < j < |lines| :: !CycleKey(lines[j], k)
  {
    if lines == [] {
      assert ParseLines(lines) == Ok([]);
    } else {
      var n := |lines| - 1;
      var init, l := lines[..n], lines[n];
      ParseLinesCycles(init, k);
      var r0 := ParseLines(init).value;
      assert ParseLines(lines) == StatsStep(r0, l);
      StatsStepGet(r0, l, k);
      var r := ParseLines(lines).value;
      assert forall i | 0 <= i < n :: init[i] == lines[i];
      if CycleKey(l, k) {
        assert Get(r, k) == Some(KeyAndCount(lines[n]).value.1);
        assert CycleKey(lines[n], k) && KeyAndCount(lines[n]).value.1 == Get(r, k).value;
      } else {
        assert Get(r, k) == Get(r0, k);
        if Get(r, k).Some? {
          var i :| 0 <= i < n && CycleKey(init[i], k) && KeyAndCount(init[i]).value.1 == Get(r0, k).value
            && forall j | i < j < n :: !CycleKey(init[j], k);
          assert CycleKey(lines[i], k) && KeyAndCount(lines[i]).value.1 == Get(r, k).value;
          forall j | i < j < |lines| ensures !CycleKey(lines[j], k) {
            if j < n {
              assert !CycleKey(init[j], k) && init[j] == lines[j];
            } else {
              assert j == n;
              assert lines[j] == l;
            }
          }
        } else {
          forall i | 0 <= i < |lines| ensures !CycleKey(lines[i], k) {
            if i < n {
              assert !CycleKey(init[i], k) && init[i] == lines[i];
            } else {
              assert i == n;
              assert lines[i] == l;
            }
          }
        }
      }
    }
  }

  /** For a key other than `sim_insts`, a line sets its own cycle counter and nothing else. */
  lemma StatsStepGet(res: Dict<int>, line: string, k: string)
    requires k != "sim_insts" && StatsStep(res, line).Ok?
    ensures Get(StatsStep(res, line).value, k) ==
      if CycleKey(line, k) then Some(KeyAndCount(line).value.1) else Get(res, k)
  {
    CycleStepGet(res, line, k);
    SimStepGet(CycleStep(res, line).value, line, k);
  }

  /**
   * When no cycle line is keyed `sim_insts`, the instruction count is the one on the first
   * `sim_insts` line, and absent when there is none.
   */
  lemma {:induction false} ParseLinesSimInsts(lines: seq<string>)
    requires ParseLines(lines).Ok?
    requires forall i | 0 <= i < |lines| :: !CycleKey(lines[i], "sim_insts")
    ensures var r := ParseLines(lines).value;
      Get(r, "sim_insts").None? <==> forall i | 0 <= i < |lines| :: !IsSimInstsLine(lines[i])
    ensures var r := ParseLines(lines).value;
      Get(r, "sim_insts").Some? ==> exists i | 0 <= i < |lines| ::
        IsSimInstsLine(lines[i]) && KeyAndCount(lines[i]).Ok?
        && KeyAndCount(lines[i]).value.1 == Get(r, "sim_insts").value
        && forall j | 0 <= j < i :: !IsSimInstsLine(lines[j])
  {
    if lines != [] {
      var n := |lines| - 1;
      var init, l := lines[..n], lines[n];
      assert forall i | 0 <= i < n :: init[i] == lines[i];
      ParseLinesSimInsts(init);
      var r0 := ParseLines(init).value;
      assert ParseLines(lines) == StatsStep(r0, l);
      StatsStepSimInsts(r0, l);
      var r := ParseLines(lines).value;
      if Get(r0, "sim_insts").Some? {
        var i :| 0 <= i < n && IsSimInstsLine(init[i]) && KeyAndCount(init[i]).Ok?
          && KeyAndCount(init[i]).value.1 == Get(r0, "sim_insts").value
          && forall j | 0 <= j < i :: !IsSimInstsLine(init[j]);
        assert Get(r, "sim_insts") == Get(r0, "sim_insts");
        assert IsSimInstsLine(lines[i]) && KeyAndCount(lines[i]) == KeyAndCount(init[i]);
        assert forall j | 0 <= j < i :: init[j] == lines[j];
      } else if IsSimInstsLine(l) {
        assert Get(r, "sim_insts") == Some(KeyAndCount(lines[n]).value.1);
        assert IsSimInstsLine(lines[n]);
        forall j | 0 <= j < n ensures !IsSimInstsLine(lines[j]) {
          assert !IsSimInstsLine(init[j]) && init[j] == lines[j];
        }
      } else {
        assert Get(r, "sim_insts").None?;
        forall j | 0 <= j < |lines| ensures !IsSimInstsLine(lines[j]) {
          if j < n {
            assert !IsSimInstsLine(init[j]) && init[j] == lines[j];
          } else {
            assert j == n;
            assert lines[j] == l;
          }
        }
      }
    }
  }

  /** When the line's cycle rule does not touch `sim_insts`, only the second rule can set it. */
  lemma StatsStepSimInsts(res: Dict<int>, line: string)
    requires !CycleKey(line, "sim_insts") && StatsStep(res, line).Ok?
    ensures Get(StatsStep(res, line).value, "sim_insts") ==
      if IsSimInstsLine(line) && Get(res, "sim_insts").None?
      then Some(KeyAndCount(line).value.1) else Get(res, "sim_insts")
  {
    CycleStepGet(res, line, "sim_insts");
    SimStepGet(CycleStep(res, line).value, line, "sim_insts");
  }

  /**
   * The first-line rule for `sim_insts` can be overridden: after a `sim_insts` line with count
   * `m`, a line that mentions `cpu` and `numCycles` and whose first word is `sim_insts` replaces
   * the count with its own by the first rule.
   */
  lemma SimInstsOverwritten(a: string, b: string, m: int, n: int)
    requires IsSimInstsLine(a) && !IsCycleLine(a) && KeyAndCount(a).Ok? && KeyAndCount(a).value.1 == m
    requires IsCycleLine(b) && KeyAndCount(b) == Ok(("sim_insts", n))
    ensures ParseLines([a, b]) == Ok([("sim_insts", n)])
  {
    assert [a, b][..1] == [a] && [a][..0] == [];
    var d: Dict<int> := [("sim_insts", m)];
    assert ParseLines([a]) == StatsStep([], a);
    assert CycleStep([], a) == Ok([]);
    assert IndexOf<int>([], "sim_insts") == None;
    assert SimStep([], a) == Ok(Put([], "sim_insts", m));
    assert Put([], "sim_insts", m) == [] + [("sim_insts", m)] == d;
    assert ParseLines([a]) == Ok(d);
    assert ParseLines([a, b]) == StatsStep(d, b);
    assert IndexOf(d, "sim_insts") == Some(0);
    assert CycleStep(d, b) == Ok(Put(d, "sim_insts", n));
    var e: Dict<int> := [("sim_insts", n)];
    assert Put(d, "sim_insts", n) == d[0 := ("sim_insts", n)] == e;
    assert Get(e, "sim_insts").Some?;
    assert SimStep(e, b) == Ok(e);
  }

  // ---------------------------------------------------------------------------------------
  // One run: the busiest CPU, speedup and IPC

  /** `{k: v for k, v in resultats.items() if "numCycles" in k}` */
  function Cycles(res: Dict<int>): Dict<int> {
    FilterKeys(res, CycleName)
  }

  predicate CycleName(k: string) {
    Contains(k, "numCycles")
  }

  /**
   * `max(d, key=d.get)` as a position in `d`: the first entry whose value no entry exceeds,
   * since `max` replaces its candidate only on a strictly larger value. None for an empty map.
   */
  function ArgMax(d: Dict<int>): (r: Option<nat>)
    ensures r.None? <==> d == []
    ensures r.Some? ==> r.value < |d|
  {
    if d == [] then None
    else match ArgMax(d[1..])
      case None => Some(0)
      case Some(i) => if d[i + 1].1 > d[0].1 then Some(i + 1) else Some(0)
  }

  /** The entry `ArgMax` picks has the largest value, and every entry before it a smaller one. */
  lemma {:induction false} ArgMaxSpec(d: Dict<int>)
    requires d != []
    ensures var m := ArgMax(d).value;
      && (forall j | 0 <= j < |d| :: d[j].1 <= d[m].1)
      && (forall j | 0 <= j < m :: d[j].1 < d[m].1)
  {
    var t := d[1..];
    if t != [] {
      ArgMaxSpec(t);
      assert forall j | 1 <= j < |d| :: d[j] == t[j - 1];
    }
  }

  /** One line of the result file: `n,valeur_max,cpu_max,speedup,ipc_max`. */
  datatype Row = Row(threads: nat, cyclesMax: int, cpuMax: string, speedup: real, ipcMax: real)

  /** The header line of the result file. */
  const Header: string := "threads,cycles_max,cpu_max,speedup,ipc_max"

  /**
   * The body of the loop for the run with `n` threads, given its stats file and the cycle count
   * of the first run (None on the first run): the busiest CPU, the speedup (1.0 on the first run,
   * otherwise the first run's cycles over this run's), and `sim_insts` over the busiest CPU's
   * cycles. Each step that raises in the script is an error here.
   */
  function RunRow(n: nat, file: Option<seq<string>>, first: Option<int>): Result<Row, PyError> {
    match ParseFile(file)
    case Err(e) => Err(e)
    case Ok(res) =>
      var cycles := Cycles(res);
      match ArgMax(cycles)
      case None => Err(ValueError)
      case Some(m) =>
        var (cpu, vmax) := cycles[m];
        if first.Some? && vmax == 0 then Err(ZeroDivisionError)
        else
          var speedup := if first.None? then 1.0 else first.value as real / vmax as real;
          match Get(res, "sim_insts")
          case None => Err(KeyError)
          case Some(si) =>
            match Get(res, cpu)
            case None => Err(KeyError)
            case Some(c) =>
              if c == 0 then Err(ZeroDivisionError)
              else Ok(Row(n, vmax, cpu, speedup, si as real / c as real))
  }

  /**
   * The comprehension keeps exactly the entries of the map whose key names a cycle counter, in
   * map order.
   */
  lemma CyclesSpec(res: Dict<int>)
    ensures Cycles(res) == Select(res, KeyPasses(CycleName))
    ensures forall j | 0 <= j < |Cycles(res)| :: CycleName(Cycles(res)[j].0) && Cycles(res)[j] in res
    ensures forall j | 0 <= j < |res| && CycleName(res[j].0) :: res[j] in Cycles(res)
    ensures UniqueKeys(res) ==> UniqueKeys(Cycles(res))
  {
    FilterKeysSpec(res, CycleName);
  }

  /** A successful run read its stats file, and its speedup is 1.0 first, then first cycles over its own. */
  lemma RunRowOk(n: nat, file: Option<seq<string>>, first: Option<int>)
    requires RunRow(n, file, first).Ok?
    ensures var row := RunRow(n, file, first).value;
      && file.Some? && ParseLines(file.value).Ok?
      && row.threads == n && row.cyclesMax != 0
      && (first.None? ==> row.speedup == 1.0)
      && (first.Some? ==> row.speedup == first.value as real / row.cyclesMax as real)
  {
    RunRowBusiest(n, file, first);
  }

  /**
   * The CPU of a successful run is the first, in map order, of the cycle counters with the most
   * cycles, and its IPC is `sim_insts` over those cycles.
   */
  lemma RunRowBusiest(n: nat, file: Option<seq<string>>, first: Option<int>)
    requires RunRow(n, file, first).Ok?
    ensures file.Some? && ParseLines(file.value).Ok?
    ensures var res := ParseLines(file.value).value; var cycles := Cycles(res);
      var row := RunRow(n, file, first).value;
      && (exists m | 0 <= m < |cycles| :: cycles[m] == (row.cpuMax, row.cyclesMax)
            && forall j | 0 <= j < m :: cycles[j].1 < row.cyclesMax)
      && (forall j | 0 <= j < |cycles| :: cycles[j].1 <= row.cyclesMax)
      && CycleName(row.cpuMax) && Get(res, row.cpuMax) == Some(row.cyclesMax)
      && Get(res, "sim_insts").Some? && row.cyclesMax != 0
      && row.ipcMax == Get(res, "sim_insts").value as real / row.cyclesMax as real
  {
    var res := ParseLines(file.value).value;
    var cycles := Cycles(res);
    var m := ArgMax(cycles).value;
    ArgMaxSpec(cycles);
    CyclesSpec(res);
    ParseLinesUnique(file.value);
    var k := cycles[m].0;
    assert cycles[m] in res;
    var j :| 0 <= j < |res| && res[j] == cycles[m];
    GetSpec(res, k);
  }

  /** Without a cycle counter in the dump, `max` of the empty comprehension raises ValueError. */
  lemma RunRowNoCycles(n: nat, lines: seq<string>, first: Option<int>)
    requires ParseLines(lines).Ok?
    requires forall j | 0 <= j < |ParseLines(lines).value| :: !CycleName(ParseLines(lines).value[j].0)
    ensures RunRow(n, Some(lines), first) == Err(ValueError)
  {
    CyclesSpec(ParseLines(lines).value);
  }

  /** On the first run, a dump with cycle counters but no `sim_insts` raises KeyError. */
  lemma RunRowNoSimInsts(n: nat, lines: seq<string>)
    requires ParseLines(lines).Ok?
    requires exists j | 0 <= j < |ParseLines(lines).value| :: CycleName(ParseLines(lines).value[j].0)
    requires Get(ParseLines(lines).value, "sim_insts").None?
    ensures RunRow(n, Some(lines), None) == Err(KeyError)
  {
    var res := ParseLines(lines).value;
    CyclesSpec(res);
    var j :| 0 <= j < |res| && CycleName(res[j].0);
    assert res[j] in Cycles(res);
  }

  /** A dump that cannot be read or parsed ends the run with the parse's exception. */
  lemma RunRowParseError(n: nat, file: Option<seq<string>>, first: Option<int>)
    requires ParseFile(file).Err?
    ensures RunRow(n, file, first) == Err(ParseFile(file).error)
  {
  }

  // ---------------------------------------------------------------------------------------
  // The sweep

  /** What the sweep leaves: the result lines written, and the exception that ended it, if any. */
  datatype Outcome = Outcome(rows: seq<Row>, err: Option<PyError>)

  /** `numAppCycles[0]` once there is a first run, None before (`speedUp == []`). */
  function FirstCycles(rows: seq<Row>): Option<int> {
    if rows == [] then None else Some(rows[0].cyclesMax)
  }

  /**
   * The first `k` runs of the sweep, ended by the first exception; `stats(i)` is the stats file
   * after the run with `ThreadsList[i]` threads, None when it does not exist.
   */
  function SweepUpTo(stats: nat -> Option<seq<string>>, k: nat): Outcome
    requires k <= |ThreadsList|
  {
    Runs(RunRow, stats, k)
  }

  /** The first `k` runs, each processed by `run` from its thread count, its file and the first cycle count. */
  function Runs(run: (nat, Option<seq<string>>, Option<int>) -> Result<Row, PyError>,
                stats: nat -> Option<seq<string>>, k: nat): Outcome
    requires k <= |ThreadsList|
  {
    if k == 0 then Outcome([], None)
    else
      var o := Runs(run, stats, k - 1);
      if o.err.Some? then o
      else match run(ThreadsList[k - 1], stats(k - 1), FirstCycles(o.rows))
        case Err(e) => Outcome(o.rows, Some(e))
        case Ok(row) => Outcome(o.rows + [row], None)
  }

  /** One more run, given what it returns, after runs that did not raise. */
  lemma SweepUpToNext(stats: nat -> Option<seq<string>>, k: nat, r: Result<Row, PyError>)
    requires k < |ThreadsList| && SweepUpTo(stats, k).err.None?
    requires r == RunRow(ThreadsList[k], stats(k), FirstCycles(SweepUpTo(stats, k).rows))
    ensures SweepUpTo(stats, k + 1) ==
      if r.Ok? then Outcome(SweepUpTo(stats, k).rows + [r.value], None)
      else Outcome(SweepUpTo(stats, k).rows, Some(r.error))
  {
    RunsNext(RunRow, stats, k, r);
  }

  lemma RunsNext(run: (nat, Option<seq<string>>, Option<int>) -> Result<Row, PyError>,
                 stats: nat -> Option<seq<string>>, k: nat, r: Result<Row, PyError>)
    requires k < |ThreadsList| && Runs(run, stats, k).err.None?
    requires r == run(ThreadsList[k], stats(k), FirstCycles(Runs(run, stats, k).rows))
    ensures Runs(run, stats, k + 1) ==
      if r.Ok? then Outcome(Runs(run, stats, k).rows + [r.value], None)
      else Outcome(Runs(run, stats, k).rows, Some(r.error))
  {
  }

  /** Once a run raises, no later run starts. */
  lemma SweepStops(stats: nat -> Option<seq<string>>, k: nat)
    requires k <= |ThreadsList| && SweepUpTo(stats, k).err.Some?
    ensures SweepUpTo(stats, |ThreadsList|) == SweepUpTo(stats, k)
  {
    RunsStop(RunRow, stats, k);
  }

  lemma {:induction false} RunsStop(run: (nat, Option<seq<string>>, Option<int>) -> Result<Row, PyError>,
                                    stats: nat -> Option<seq<string>>, k: nat)
    requires k <= |ThreadsList| && Runs(run, stats, k).err.Some?
    ensures Runs(run, stats, |ThreadsList|) == Runs(run, stats, k)
    decreases |ThreadsList| - k
  {
    if k < |ThreadsList| {
      assert Runs(run, stats, k + 1) == Runs(run, stats, k);
      RunsStop(run, stats, k + 1);
    }
  }

  /**
   * Rows in thread order with nonzero cycle counts, the first with speedup 1.0 and each later
   * one with the first row's cycles over its own.
   */
  predicate RowsInOrder(rows: seq<Row>) {
    && |rows| <= |ThreadsList|
    && (forall i | 0 <= i < |rows| :: rows[i].threads == ThreadsList[i] && rows[i].cyclesMax != 0)
    && (rows != [] ==> rows[0].speedup == 1.0)
    && (forall i | 0 < i < |rows| :: rows[i].speedup == rows[0].cyclesMax as real / rows[i].cyclesMax as real)
  }

  /** The rows of the sweep, all of them when nothing raised, follow the thread order and speedup rule. */
  lemma SweepUpToRows(stats: nat -> Option<seq<string>>, k: nat)
    requires k <= |ThreadsList|
    ensures var o := SweepUpTo(stats, k);
      && RowsInOrder(o.rows)
      && (o.err.None? ==> |o.rows| == k)
      && (o.err.Some? ==> |o.rows| < k)
  {
    forall n, file, first | RunRow(n, file, first).Ok?
      ensures RowRule(n, first, RunRow(n, file, first).value)
    {
      RunRowOk(n, file, first);
    }
    RunsRows(RunRow, stats, k);
  }

  /** A row for `n` threads has that count, nonzero cycles, and the speedup against `first`. */
  predicate RowRule(n: nat, first: Option<int>, row: Row) {
    && row.threads == n && row.cyclesMax != 0
    && (first.None? ==> row.speedup == 1.0)
    && (first.Some? ==> row.speedup == first.value as real / row.cyclesMax as real)
  }

  lemma {:induction false} RunsRows(run: (nat, Option<seq<string>>, Option<int>) -> Result<Row, PyError>,
                                    stats: nat -> Option<seq<string>>, k: nat)
    requires k <= |ThreadsList|
    requires forall n, file, first | run(n, file, first).Ok? :: RowRule(n, first, run(n, file, first).value)
    ensures var o := Runs(run, stats, k);
      && RowsInOrder(o.rows)
      && (o.err.None? ==> |o.rows| == k)
      && (o.err.Some? ==> |o.rows| < k)
  {
    if k > 0 {
      RunsRows(run, stats, k - 1);
      var o := Runs(run, stats, k - 1);
      if o.err.None? {
        var r := run(ThreadsList[k - 1], stats(k - 1), FirstCycles(o.rows));
        if r.Ok? {
          assert RowRule(ThreadsList[k - 1], FirstCycles(o.rows), r.value);
          RowsExtend(o.rows, r.value);
        }
      }
    }
  }

  /** A row that follows the pattern extends rows that do. */
  lemma RowsExtend(rows: seq<Row>, row: Row)
    requires RowsInOrder(rows) && |rows| < |ThreadsList|
    requires row.threads == ThreadsList[|rows|] && row.cyclesMax != 0
    requires FirstCycles(rows).None? ==> row.speedup == 1.0
    requires FirstCycles(rows).Some? ==> row.speedup == FirstCycles(rows).value as real / row.cyclesMax as real
    ensures RowsInOrder(rows + [row])
  {
    var all := rows + [row];
    assert forall i | 0 <= i < |rows| :: all[i] == rows[i];
    assert all[|rows|] == row && all[0] == (if rows == [] then row else rows[0]);
  }

  /**
   * The body of the loop for one run up to the result line: parse the dump, pick the busiest
   * CPU, the speedup and the IPC; `first` is `numAppCycles[0]`, None while `speedUp == []`.
   */
  method RunOnce(n: nat, file: Option<seq<string>>, first: Option<int>) returns (r: Result<Row, PyError>)
    ensures r == RunRow(n, file, first)
  {
    var parsed := ParseStats(file);
    if parsed.Err? {
      return Err(parsed.error);
    }
    var res := parsed.value;
    var cycles := Cycles(res);
    var m := ArgMax(cycles);
    if m.None? {
      return Err(ValueError);
    }
    var cpuMax, valeurMax := cycles[m.value].0, cycles[m.value].1;
    var speedup := 1.0;
    if first.Some? {
      if valeurMax == 0 {
        return Err(ZeroDivisionError);
      }
      speedup := first.value as real / valeurMax as real;
    }
    var simInsts := Get(res, "sim_insts");
    if simInsts.None? {
      return Err(KeyError);
    }
    var c := Get(res, cpuMax);
    if c.None? {
      return Err(KeyError);
    }
    if c.value == 0 {
      return Err(ZeroDivisionError);
    }
    return Ok(Row(n, valeurMax, cpuMax, speedup, simInsts.value as real / c.value as real));
  }

  /** The commands of the first `k` runs, one per thread count in order. */
  function Issued(k: nat): (cs: seq<string>)
    requires k <= |ThreadsList|
    ensures |cs| == k
    ensures forall j | 0 <= j < k :: cs[j] == Command(ThreadsList[j])
  {
    if k == 0 then [] else Issued(k - 1) + [Command(ThreadsList[k - 1])]
  }

  /**
   * The main loop: for each thread count, issue the command, then process the run; an
   * exception ends the sweep with the lines written so far. `commands` are the commands issued.
   */
  method Sweep(stats: nat -> Option<seq<string>>) returns (commands: seq<string>, rows: seq<Row>, err: Option<PyError>)
    ensures Outcome(rows, err) == SweepUpTo(stats, |ThreadsList|)
    ensures |commands| == |rows| + (if err.Some? then 1 else 0) <= |ThreadsList|
    ensures commands == Issued(|commands|)
  {
    commands, rows, err := [], [], None;
    var numAppCycles: seq<int> := [];
    for i := 0 to |ThreadsList|
      invariant SweepUpTo(stats, i) == Outcome(rows, None)
      invariant |commands| == |rows| == |numAppCycles| == i
      invariant commands == Issued(i)
      invariant forall k | 0 <= k < i :: numAppCycles[k] == rows[k].cyclesMax
    {
      var n := ThreadsList[i];
      commands := commands + [Command(n)];
      var first := if numAppCycles == [] then None else Some(numAppCycles[0]);
      assert first == FirstCycles(rows);
      var r := RunOnce(n, stats(i), first);
      SweepUpToNext(stats, i, r);
      if r.Err? {
        err := Some(r.error);
        SweepStops(stats, i + 1);
        return;
      }
      numAppCycles := numAppCycles + [r.value.cyclesMax];
      rows := rows + [r.value];
    }
  }
}
