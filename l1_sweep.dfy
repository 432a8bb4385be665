/**
 * The L1 cache-size sweep: reading gem5 `stats.txt` dumps into a key/value map, resolving
 * abstract metrics from it by exact key and then by key suffix, the benchmark list and the
 * size ladders, the gem5 command lines and output directories of a sweep, and the rows of the
 * result table.
 */
module L1Sweep {
  import opened Wrappers
  import opened Strings
  import opened Numbers
  import opened Dicts
  import opened Paths
  import opened Csv
  import opened Seqs

  // ---------------------------------------------------------------------------------------
  // Reading a stats dump

  /** What one line of a stats dump contributes: nothing, or a key and its value. */
  datatype LineEntry = Skip | Entry(key: string, value: real)

  /**
   * One line of `parse_stats`: after stripping, blank lines, `----` separators and the
   * `End Simulation` footer are skipped, and so is a line with fewer than two tokens or whose
   * second token is not a number; otherwise the first token is the key and the second its value.
   */
  function StatLine(line: string): LineEntry
  {
    var l := Strip(line);
    if l == [] || StartsWith(l, "----") || StartsWith(l, "End Simulation") then Skip
    else
      var parts := Split(l);
      if |parts| < 2 then Skip
      else match ParseReal(parts[1])
        case None => Skip
        case Some(v) => Entry(parts[0], v)
  }

  /** The lines that contribute, and what they contribute. */
  lemma StatLineSpec(line: string)
    ensures var l := Strip(line);
      (l == [] || StartsWith(l, "----") || StartsWith(l, "End Simulation") || |Split(l)| < 2) ==> StatLine(line).Skip?
    ensures var l := Strip(line); var parts := Split(l);
      StatLine(line).Entry? <==> !StartsWith(l, "----") && !StartsWith(l, "End Simulation")
                                 && |parts| >= 2 && ParseReal(parts[1]).Some?
    ensures var parts := Split(Strip(line));
      StatLine(line).Entry? ==> StatLine(line).key == parts[0] && ParseReal(parts[1]) == Some(StatLine(line).value)
  {
  }

  /** `stats[key] = value` for an entry line, nothing for any other line. */
  function Apply(stats: Dict<real>, e: LineEntry): Dict<real> {
    match e
    case Skip => stats
    case Entry(k, v) => Put(stats, k, v)
  }

  /** What each line contributes, line by line. */
  function Entries(lines: seq<string>): (es: seq<LineEntry>)
    ensures |es| == |lines|
  {
    Each(StatLine, lines)
  }

  /** The map built by applying the entries in order, starting from the empty map. */
  function Build(es: seq<LineEntry>): Dict<real> {
    if es == [] then [] else Apply(Build(es[..|es| - 1]), es[|es| - 1])
  }

  /** The map that `parse_stats` builds from the lines of an existing file. */
  function StatsOf(lines: seq<string>): Dict<real> {
    Build(Entries(lines))
  }

  /** The map of a stats file given by its lines; the empty map when there is no such file. */
  function StatsOfFile(file: Option<seq<string>>): Dict<real> {
    if file.Some? then StatsOf(file.value) else []
  }

  /**
   * `parse_stats(path)`: `file` is the lines of the dump, None when the file does not exist,
   * which gives the empty map.
   */
  method ParseStats(file: Option<seq<string>>) returns (stats: Dict<real>)
    ensures stats == StatsOfFile(file)
  {
    stats := [];
    if file.None? {
      return;
    }
    var lines := file.value;
    ghost var es := Entries(lines);
    var i := 0;
    while i < |lines|
      invariant 0 <= i <= |lines|
      invariant stats == Build(es[..i])
    {
      assert es[..i + 1][..i] == es[..i];
      stats := Apply(stats, StatLine(lines[i]));
      i := i + 1;
    }
    assert es[..i] == es;
  }

  /** A line made of a key, a number and any further words enters that key with that number. */
  lemma StatLineOfWords(ws: seq<string>, v: real)
    requires |ws| >= 2 && Words(ws)
    requires !StartsWith(JoinWords(ws), "----") && !StartsWith(JoinWords(ws), "End Simulation")
    requires ParseReal(ws[1]) == Some(v)
    ensures StatLine(JoinWords(ws)) == Entry(ws[0], v)
  {
    JoinWordsEnds(ws);
    assert ws[|ws| - 1] != [] && NoSpace(ws[|ws| - 1]) && ws[0] != [] && NoSpace(ws[0]);
    StripTrimmed(JoinWords(ws));
    SplitJoinWords(ws);
  }

  /** A parsed dump holds each key once. */
  lemma {:induction false} BuildUnique(es: seq<LineEntry>)
    ensures UniqueKeys(Build(es))
  {
    if es != [] {
      BuildUnique(es[..|es| - 1]);
      if es[|es| - 1].Entry? {
        PutSpec(Build(es[..|es| - 1]), es[|es| - 1].key, es[|es| - 1].value);
      }
    }
  }

  predicate Sets(e: LineEntry, k: string) {
    e.Entry? && e.key == k
  }

  /**
   * Key `k` is in the built map exactly when some entry sets it, and its value is the one set by
   * the last such entry: a later entry for the same key overwrites an earlier one.
   */
  lemma {:induction false} BuildGet(es: seq<LineEntry>, k: string)
    ensures Get(Build(es), k).None? <==> forall i | 0 <= i < |es| :: !Sets(es[i], k)
    ensures Get(Build(es), k).Some? ==>
      exists i | 0 <= i < |es| :: es[i] == Entry(k, Get(Build(es), k).value)
        && forall j | i < j < |es| :: !Sets(es[j], k)
  {
    if es != [] {
      var n := |es| - 1;
      var init := es[..n];
      BuildGet(init, k);
      ApplyGet(Build(init), es[n], k);
      assert forall i | 0 <= i < n :: init[i] == es[i];
      if Sets(es[n], k) {
        assert es[n] == Entry(k, Get(Build(es), k).value);
      } else if Get(Build(es), k).Some? {
        var i :| 0 <= i < n && init[i] == Entry(k, Get(Build(init), k).value)
          && forall j | i < j < n :: !Sets(init[j], k);
        assert es[i] == Entry(k, Get(Build(es), k).value);
      }
    }
  }

  /** Applying an entry sets its own key and leaves every other key as it was. */
  lemma ApplyGet(stats: Dict<real>, e: LineEntry, k: string)
    ensures Get(Apply(stats, e), k) == if Sets(e, k) then Some(e.value) else Get(stats, k)
  {
    if e.Entry? {
      PutSpec(stats, e.key, e.value);
    }
  }

  /** Every entry of a parsed dump comes from a line, and the last line setting a key wins. */
  lemma StatsOfGet(lines: seq<string>, k: string)
    ensures Get(StatsOf(lines), k).None? <==> forall i | 0 <= i < |lines| :: !Sets(StatLine(lines[i]), k)
    ensures Get(StatsOf(lines), k).Some? ==>
      exists i | 0 <= i < |lines| :: StatLine(lines[i]) == Entry(k, Get(StatsOf(lines), k).value)
        && forall j | i < j < |lines| :: !Sets(StatLine(lines[j]), k)
  {
    var es := Entries(lines);
    BuildGet(es, k);
    forall i | 0 <= i < |lines| ensures es[i] == StatLine(lines[i]) {
    }
  }

  /** A skipped entry changes nothing. */
  lemma {:induction false} BuildSkip(a: seq<LineEntry>, b: seq<LineEntry>)
    ensures Build(a + [Skip] + b) == Build(a + b)
    decreases |b|
  {
    var c, d := a + [Skip] + b, a + b;
    if b == [] {
      assert c[..|a|] == a && c[|a|] == Skip;
      assert d == a;
    } else {
      var n := |b| - 1;
      BuildSkip(a, b[..n]);
      assert c[..|c| - 1] == a + [Skip] + b[..n] && c[|c| - 1] == b[n];
      assert d[..|d| - 1] == a + b[..n] && d[|d| - 1] == b[n];
      BuildLast(c);
      BuildLast(d);
    }
  }

  lemma BuildLast(es: seq<LineEntry>)
    requires es != []
    ensures Build(es) == Apply(Build(es[..|es| - 1]), es[|es| - 1])
  {
  }

  /** A skipped line (blank, separator, footer, short or non-numeric) changes nothing. */
  lemma SkippedLineIgnored(a: seq<string>, line: string, b: seq<string>)
    requires StatLine(line).Skip?
    ensures StatsOf(a + [line] + b) == StatsOf(a + b)
  {
    EntriesAppend(a + [line], b);
    EntriesAppend(a, [line]);
    EntriesAppend(a, b);
    assert Entries([line]) == [Skip];
    BuildSkip(Entries(a), Entries(b));
  }

  lemma EntriesAppend(a: seq<string>, b: seq<string>)
    ensures Entries(a + b) == Entries(a) + Entries(b)
  {
    EachAppend(StatLine, a, b);
  }

  // ---------------------------------------------------------------------------------------
  // Resolving a metric: get_first

  /** The index of the first pattern that is a key of `stats`. */
  function FirstExact(stats: Dict<real>, ps: seq<string>): Option<nat> {
    if ps == [] then None
    else if Get(stats, ps[0]).Some? then Some(0)
    else match FirstExact(stats, ps[1..])
      case None => None
      case Some(i) => Some(i + 1)
  }

  /** `FirstExact` finds the earliest pattern that is a key, and None when there is none. */
  lemma {:induction false} FirstExactSpec(stats: Dict<real>, ps: seq<string>)
    ensures var r := FirstExact(stats, ps);
      && (r.Some? ==> r.value < |ps| && Get(stats, ps[r.value]).Some?)
      && (r.Some? ==> forall j | 0 <= j < r.value :: Get(stats, ps[j]).None?)
      && (r.None? ==> forall j | 0 <= j < |ps| :: Get(stats, ps[j]).None?)
  {
    if ps != [] && Get(stats, ps[0]).None? {
      FirstExactSpec(stats, ps[1..]);
      assert forall j | 0 < j < |ps| :: ps[j] == ps[1..][j - 1];
    }
  }

  /** The index, in map order, of the first key that ends with `p`. */
  function FirstSuffixKey(stats: Dict<real>, p: string): Option<nat> {
    if stats == [] then None
    else if EndsWith(stats[0].0, p) then Some(0)
    else match FirstSuffixKey(stats[1..], p)
      case None => None
      case Some(e) => Some(e + 1)
  }

  /** `FirstSuffixKey` finds the earliest key ending with `p`, and None when there is none. */
  lemma {:induction false} FirstSuffixKeySpec(stats: Dict<real>, p: string)
    ensures var r := FirstSuffixKey(stats, p);
      && (r.Some? ==> r.value < |stats| && EndsWith(stats[r.value].0, p))
      && (r.Some? ==> forall e | 0 <= e < r.value :: !EndsWith(stats[e].0, p))
      && (r.None? ==> forall e | 0 <= e < |stats| :: !EndsWith(stats[e].0, p))
  {
    if stats != [] && !EndsWith(stats[0].0, p) {
      FirstSuffixKeySpec(stats[1..], p);
      assert forall e | 0 < e < |stats| :: stats[e] == stats[1..][e - 1];
    }
  }

  /** The first pattern some key ends with, and the first such key: (pattern index, key index). */
  function FirstSuffix(stats: Dict<real>, ps: seq<string>): Option<(nat, nat)> {
    if ps == [] then None
    else match FirstSuffixKey(stats, ps[0])
      case Some(e) => Some((0, e))
      case None =>
        match FirstSuffix(stats, ps[1..])
        case None => None
        case Some((i, e)) => Some((i + 1, e))
  }

  /** `FirstSuffix` finds the earliest pattern some key ends with, and that pattern's first key. */
  lemma {:induction false} FirstSuffixSpec(stats: Dict<real>, ps: seq<string>)
    ensures var r := FirstSuffix(stats, ps);
      && (r.Some? ==> r.value.0 < |ps| && FirstSuffixKey(stats, ps[r.value.0]) == Some(r.value.1))
      && (r.Some? ==> forall j | 0 <= j < r.value.0 :: FirstSuffixKey(stats, ps[j]).None?)
      && (r.None? ==> forall j | 0 <= j < |ps| :: FirstSuffixKey(stats, ps[j]).None?)
  {
    if ps != [] && FirstSuffixKey(stats, ps[0]).None? {
      FirstSuffixSpec(stats, ps[1..]);
      assert forall j | 0 < j < |ps| :: ps[j] == ps[1..][j - 1];
    }
  }

  /**
   * `get_first(stats, patterns)`: the value of the first pattern that is a key; failing that,
   * the value of the first key (in map order) ending with the first pattern any key ends with.
   */
  function GetFirst(stats: Dict<real>, ps: seq<string>): Option<real> {
    FirstExactSpec(stats, ps);
    FirstSuffixSpec(stats, ps);
    match FirstExact(stats, ps)
    case Some(i) => Get(stats, ps[i])
    case None =>
      match FirstSuffix(stats, ps)
      case Some((i, e)) =>
        FirstSuffixKeySpec(stats, ps[i]);
        Some(stats[e].1)
      case None => None
  }

  /** The exact tier wins: the first pattern that is a key decides, whatever the suffixes say. */
  lemma GetFirstExact(stats: Dict<real>, ps: seq<string>, i: nat)
    requires i < |ps| && Get(stats, ps[i]).Some?
    requires forall j | 0 <= j < i :: Get(stats, ps[j]).None?
    ensures GetFirst(stats, ps) == Get(stats, ps[i])
  {
    FirstExactSpec(stats, ps);
    var f := FirstExact(stats, ps);
    assert f.Some?;
    assert !(f.value < i) && !(i < f.value);
  }

  /**
   * With no pattern an exact key, the value is that of key `e`, when the earliest pattern some
   * key ends with is `ps[i]` and `e` is the first key in map order ending with it.
   */
  lemma GetFirstSuffix(stats: Dict<real>, ps: seq<string>, i: nat, e: nat)
    requires forall j | 0 <= j < |ps| :: Get(stats, ps[j]).None?
    requires i < |ps| && e < |stats| && EndsWith(stats[e].0, ps[i])
    requires forall j, f | 0 <= j < i && 0 <= f < |stats| :: !EndsWith(stats[f].0, ps[j])
    requires forall f | 0 <= f < e :: !EndsWith(stats[f].0, ps[i])
    ensures GetFirst(stats, ps) == Some(stats[e].1)
  {
    FirstExactSpec(stats, ps);
    FirstSuffixSpec(stats, ps);
    FirstSuffixKeySpec(stats, ps[i]);
    var f := FirstSuffixKey(stats, ps[i]);
    assert f.Some? && !(f.value < e) && !(e < f.value);
    var s := FirstSuffix(stats, ps);
    assert s.Some?;
    FirstSuffixKeySpec(stats, ps[s.value.0]);
    assert !(s.value.0 < i);
    assert !(i < s.value.0) by {
      assert forall j | 0 <= j < s.value.0 :: FirstSuffixKey(stats, ps[j]).None?;
    }
  }

  /** Nothing is found exactly when no key equals or ends with any pattern. */
  lemma GetFirstNone(stats: Dict<real>, ps: seq<string>)
    ensures GetFirst(stats, ps).None? <==>
      forall j, f | 0 <= j < |ps| && 0 <= f < |stats| :: stats[f].0 != ps[j] && !EndsWith(stats[f].0, ps[j])
  {
    FirstExactSpec(stats, ps);
    FirstSuffixSpec(stats, ps);
    if GetFirst(stats, ps).None? {
      assert FirstExact(stats, ps).None?;
      forall j, f | 0 <= j < |ps| && 0 <= f < |stats|
        ensures stats[f].0 != ps[j] && !EndsWith(stats[f].0, ps[j])
      {
        FirstSuffixKeySpec(stats, ps[j]);
        assert FirstSuffixKey(stats, ps[j]).None?;
      }
    } else if FirstExact(stats, ps).Some? {
      var i := FirstExact(stats, ps).value;
      var f := IndexOf(stats, ps[i]).value;
      assert stats[f].0 == ps[i];
    } else {
      var (j, f) := FirstSuffix(stats, ps).value;
      FirstSuffixKeySpec(stats, ps[j]);
      assert EndsWith(stats[f].0, ps[j]);
    }
  }

  /**
   * The suffix tier follows the map's insertion order, not the order of the keys: with
   * `b.x` entered before `a.x`, pattern `x` resolves to the value of `b.x`.
   */
  lemma GetFirstFollowsInsertionOrder()
    ensures GetFirst([("b.x", 1.0), ("a.x", 2.0)], ["x"]) == Some(1.0)
  {
    var stats := [("b.x", 1.0), ("a.x", 2.0)];
    assert Get(stats, "x").None? by {
      assert stats[0].0 != "x" && stats[1].0 != "x";
    }
    assert EndsWith(stats[0].0, "x") by {
      assert stats[0].0[2..] == "x";
    }
    GetFirstSuffix(stats, ["x"], 0, 0);
  }

  // ---------------------------------------------------------------------------------------
  // compute_metrics

  const SimCyclesKeys: seq<string> := ["system.cpu.numCycles", "numCycles"]
  const IpcKeys: seq<string> := ["system.cpu.ipc", "ipc"]
  const CpiKeys: seq<string> := ["system.cpu.cpi", "cpi"]
  const ICacheMissKeys: seq<string> := [
    "system.cpu.icache.overallMissRate::total", "system.cpu.icache.MissRate::total",
    "system.cpu.icache.demandMissRate::total", "icache.overallMissRate::total",
    "icache.MissRate::total", "icache.demandMissRate::total"]
  const DCacheMissKeys: seq<string> := [
    "system.cpu.dcache.overallMissRate::total", "system.cpu.dcache.MissRate::total",
    "system.cpu.dcache.demandMissRate::total", "dcache.overallMissRate::total",
    "dcache.MissRate::total", "dcache.demandMissRate::total"]
  const L2MissKeys: seq<string> := [
    "system.l2cache.overallMissRate::total", "system.l2cache.MissRate::total",
    "system.l2cache.demandMissRate::total", "l2cache.overallMissRate::total",
    "l2cache.MissRate::total", "l2cache.demandMissRate::total"]
  const CondPredictedKeys: seq<string> :=
    ["system.cpu.branchPred.condPredicted", "system.cpu.branchPred.condPred"]
  const CondIncorrectKeys: seq<string> :=
    ["system.cpu.branchPred.condIncorrect", "system.cpu.branchPred.condMispred"]

  /** The metrics of one run; None where the dump does not provide the value. */
  datatype Metrics = Metrics(
    simSeconds: Option<real>, simTicks: Option<real>, simInsts: Option<real>,
    numCycles: Option<real>, ipc: Option<real>, cpi: Option<real>,
    iMissRate: Option<real>, dMissRate: Option<real>, l2MissRate: Option<real>,
    branchMispredRate: Option<real>)

  /**
   * `incorrect / pred` when both are known and `pred` is positive (`pred` truthy and
   * `pred > 0`), None otherwise.
   */
  function MispredRate(pred: Option<real>, incorrect: Option<real>): (r: Option<real>)
    ensures r.Some? <==> pred.Some? && incorrect.Some? && pred.value > 0.0
    ensures r.Some? ==> r.value * pred.value == incorrect.value
  {
    if pred.Some? && pred.value != 0.0 && incorrect.Some? && pred.value > 0.0
    then Some(incorrect.value / pred.value)
    else None
  }

  /** `compute_metrics(stats)` */
  function ComputeMetrics(stats: Dict<real>): Metrics {
    Metrics(
      Get(stats, "sim_seconds"), Get(stats, "sim_ticks"), Get(stats, "sim_insts"),
      GetFirst(stats, SimCyclesKeys), GetFirst(stats, IpcKeys), GetFirst(stats, CpiKeys),
      GetFirst(stats, ICacheMissKeys), GetFirst(stats, DCacheMissKeys), GetFirst(stats, L2MissKeys),
      MispredRate(GetFirst(stats, CondPredictedKeys), GetFirst(stats, CondIncorrectKeys)))
  }

  /** A missing or empty dump gives no metric at all. */
  lemma ComputeMetricsEmpty()
    ensures ComputeMetrics([]) == Metrics(None, None, None, None, None, None, None, None, None, None)
  {
    GetFirstNone([], SimCyclesKeys);
    GetFirstNone([], IpcKeys);
    GetFirstNone([], CpiKeys);
    GetFirstNone([], ICacheMissKeys);
    GetFirstNone([], DCacheMissKeys);
    GetFirstNone([], L2MissKeys);
    GetFirstNone([], CondPredictedKeys);
  }

  // ---------------------------------------------------------------------------------------
  // The benchmark list: parse_bench_list

  /** A benchmark to run: its name, the program and the program's options. */
  datatype Bench = Bench(name: string, path: string, options: seq<string>)

  /**
   * One `--bench` value: `spec[::args]`, where `spec` is `name:path` or a bare path whose stem
   * names the benchmark, and `args` is split into options by `tokenize` (`shlex.split`).
   */
  function BenchOf(v: string, tokenize: string -> seq<string>): Bench {
    var (spec, rest) := SplitOnce(v, "::");
    var args := if rest.Some? then rest.value else "";
    var options := if args != [] then tokenize(args) else [];
    match SplitOnce(spec, ":")
    case (name, Some(path)) => Bench(name, path, options)
    case (_, None) => Bench(Stem(Name(spec)), spec, options)
  }

  /** `BenchOf` with the tokenizer fixed, as the function applied to each value. */
  function BenchParser(tokenize: string -> seq<string>): string -> Bench {
    v => BenchOf(v, tokenize)
  }

  /** `parse_bench_list(values)`: one benchmark per value, in order. */
  method ParseBenchList(values: seq<string>, tokenize: string -> seq<string>) returns (benches: seq<Bench>)
    ensures |benches| == |values|
    ensures forall i | 0 <= i < |values| :: benches[i] == BenchOf(values[i], tokenize)
  {
    var parse := BenchParser(tokenize);
    benches := [];
    for i := 0 to |values|
      invariant benches == Each(parse, values[..i])
    {
      assert values[..i + 1] == values[..i] + [values[i]];
      EachAppend(parse, values[..i], [values[i]]);
      benches := benches + [BenchOf(values[i], tokenize)];
    }
    assert values[..|values|] == values;
  }

  /** `name:path` names the benchmark; `::args` after it gives its options, none when empty. */
  lemma BenchOfNamed(name: string, path: string, args: string, tokenize: string -> seq<string>)
    requires Free(name, ':') && Free(path, ':') && path != []
    ensures BenchOf(name + ":" + path, tokenize) == Bench(name, path, [])
    ensures BenchOf(name + ":" + path + "::" + args, tokenize)
              == Bench(name, path, if args == [] then [] else tokenize(args))
  {
    var spec := name + ":" + path;
    assert spec[|name|] == ':' && spec[|spec| - 1] == path[|path| - 1];
    assert forall i | 0 <= i < |spec| && i != |name| :: spec[i] != ':' by {
      forall i | 0 <= i < |spec| && i != |name| ensures spec[i] != ':' {
        if i < |name| { assert spec[i] == name[i]; } else { assert spec[i] == path[i - |name| - 1]; }
      }
    }
    assert !Contains(spec, "::") by {
      FindSpec(spec, "::");
      forall j | 0 <= j <= |spec| ensures !OccursAt(spec, "::", j) {
        if j + 2 <= |spec| {
          assert spec[j..j + 2][0] == spec[j] && spec[j..j + 2][1] == spec[j + 1];
        }
      }
    }
    SplitOnceFirst(name, ":", path);
    var v := spec + "::" + args;
    forall i | 0 <= i < |spec| ensures !OccursAt(v, "::", i) {
      if i + 2 <= |v| {
        assert v[i..i + 2][0] == spec[i] && v[i..i + 2][1] == v[i + 1];
        if i + 1 < |spec| {
          assert v[i + 1] == spec[i + 1];
          assert spec[i] == ':' ==> spec[i + 1] != ':';
        }
      }
    }
    SplitOnceFirst(spec, "::", args);
  }

  /** A bare path without `:` is named after its stem and has no options. */
  lemma BenchOfPath(path: string, tokenize: string -> seq<string>)
    requires Free(path, ':')
    ensures BenchOf(path, tokenize) == Bench(Stem(Name(path)), path, [])
  {
    FreeNotContains(path, "::");
    FreeNotContains(path, ":");
  }

  /** A bare path ending in `/.` names the same benchmark as the path without it. */
  lemma BenchOfTrailingDot(path: string, tokenize: string -> seq<string>)
    requires Free(path, ':')
    ensures BenchOf(path + "/.", tokenize).name == BenchOf(path, tokenize).name
  {
    assert Free("/.", ':');
    FreeConcat(path, "/.", ':');
    BenchOfPath(path, tokenize);
    BenchOfPath(path + "/.", tokenize);
    NameSkipsDot(path);
  }

  /** A program `dir/fft.riscv` given by path alone runs as benchmark `fft`. */
  lemma BenchOfRiscvPath(dir: string, base: string, tokenize: string -> seq<string>)
    requires base != [] && Free(base, '/') && Free(base, '.')
    requires Free(dir, ':') && Free(base, ':')
    ensures BenchOf(dir + "/" + base + ".riscv", tokenize).name == base
  {
    var file := base + ".riscv";
    var path := dir + "/" + file;
    assert path == dir + "/" + base + ".riscv";
    RiscvFileFree(base);
    FreeConcat(dir, "/", ':');
    FreeConcat(dir + "/", file, ':');
    BenchOfPath(path, tokenize);
    NameAfterSlash(dir, file);
    RiscvStem(base);
  }

  lemma RiscvFileFree(base: string)
    requires Free(base, '/') && Free(base, ':')
    ensures Free(base + ".riscv", '/') && Free(base + ".riscv", ':')
  {
    assert Free(".riscv", '/') && Free(".riscv", ':');
    FreeConcat(base, ".riscv", '/');
    FreeConcat(base, ".riscv", ':');
  }

  lemma NameAfterSlash(dir: string, file: string)
    requires Component(file)
    ensures Name(dir + "/" + file) == file
  {
    Around(dir, '/', file);
    NameOfJoined(dir + "/" + file, |dir|);
  }

  lemma RiscvStem(base: string)
    requires base != [] && Free(base, '.')
    ensures Stem(base + ".riscv") == base
  {
    Around(base, '.', "riscv");
    assert base + ".riscv" == base + ['.'] + "riscv";
    StemOfSuffixed(base + ".riscv", |base|);
  }

  /** Where `a`, the character and `b` stand in their concatenation. */
  lemma Around(a: string, c: char, b: string)
    ensures var s := a + [c] + b; s[|a|] == c && s[|a| + 1..] == b && s[..|a|] == a
  {
    var s := a + [c] + b;
    assert s[|a| + 1..] == b;
  }

  // ---------------------------------------------------------------------------------------
  // The size ladders: default_sizes

  const InvalidCpuMessage: string := "CPU invalido: use A7 ou A15"

  /** `default_sizes(cpu)`: the five L1 sizes swept for a CPU, chosen case-insensitively. */
  function DefaultSizes(cpu: string): (r: Result<seq<string>, PyError>)
    ensures r.Ok? <==> Upper(cpu) == "A7" || Upper(cpu) == "A15"
    ensures r.Err? ==> r.error == SystemExit(InvalidCpuMessage)
    ensures r.Ok? ==> |r.value| == 5
  {
    if Upper(cpu) == "A7" then Ok(["1kB", "2kB", "4kB", "8kB", "16kB"])
    else if Upper(cpu) == "A15" then Ok(["2kB", "4kB", "8kB", "16kB", "32kB"])
    else Err(SystemExit(InvalidCpuMessage))
  }

  function Pow2(k: nat): (r: nat)
    ensures r >= 1
  {
    if k == 0 then 1 else 2 * Pow2(k - 1)
  }

  /** The ladders double from 1 kB (A7) or 2 kB (A15): the i-th size is base times 2 to the i. */
  lemma DefaultSizesDouble(cpu: string)
    requires DefaultSizes(cpu).Ok?
    ensures var base := if Upper(cpu) == "A7" then 1 else 2;
      forall i | 0 <= i < 5 :: DefaultSizes(cpu).value[i] == DecimalString(base * Pow2(i)) + "kB"
  {
    assert Pow2(1) == 2 && Pow2(2) == 4 && Pow2(3) == 8 && Pow2(4) == 16;
    assert DecimalString(1) == "1" && DecimalString(2) == "2" && DecimalString(4) == "4";
    assert DecimalString(8) == "8";
    assert DecimalString(16) == DecimalString(1) + "6";
    assert DecimalString(32) == DecimalString(3) + "2";
  }

  /** `a7` and `A7` ask for the same ladder. */
  lemma DefaultSizesIgnoreCase(cpu: string)
    ensures DefaultSizes(cpu) == DefaultSizes(Upper(cpu))
  {
    assert Upper(Upper(cpu)) == Upper(cpu);
  }

  // ---------------------------------------------------------------------------------------
  // One gem5 run: run_gem5 and the output directory of run_sweep

  /**
   * The gem5 command line of `run_gem5`: seven fixed arguments, then `--options` and the
   * options when there are any.
   */
  function Gem5Args(gem5: string, outdir: string, cfg: string, cmd: string, l1i: string, l1d: string,
                    options: seq<string>): seq<string>
  {
    var fixed := [gem5, "-d", outdir, cfg, "--cmd=" + cmd, "--l1i=" + l1i, "--l1d=" + l1d];
    if options != [] then fixed + ["--options"] + options else fixed
  }

  /**
   * The command line starts with the fixed seven arguments; `--options` and the options follow
   * exactly when there are options.
   */
  lemma Gem5ArgsShape(gem5: string, outdir: string, cfg: string, cmd: string, l1i: string, l1d: string,
                      options: seq<string>)
    ensures var args := Gem5Args(gem5, outdir, cfg, cmd, l1i, l1d, options);
      && |args| >= 7
      && args[..7] == [gem5, "-d", outdir, cfg, "--cmd=" + cmd, "--l1i=" + l1i, "--l1d=" + l1d]
      && (options == [] <==> |args| == 7)
      && (options != [] ==> args[7] == "--options" && args[8..] == options)
  {
  }

  /** The options a gem5 command line passes to the program. */
  function ProgramOptions(args: seq<string>): seq<string> {
    if |args| > 7 && args[7] == "--options" then args[8..] else []
  }

  /** The program's options can be read back from the command line. */
  lemma Gem5ArgsOptions(gem5: string, outdir: string, cfg: string, cmd: string, l1i: string, l1d: string,
                        options: seq<string>)
    ensures ProgramOptions(Gem5Args(gem5, outdir, cfg, cmd, l1i, l1d, options)) == options
  {
  }

  /** `out_root / cpu / bench_name / f"l1_{size}"`, joined as `pathlib` joins paths. */
  function OutDir(outRoot: PurePath, cpu: string, bench: string, size: string): PurePath {
    Join(Join(Join(outRoot, cpu), bench), "l1_" + size)
  }

  /** A size without `/` makes `l1_<size>` one component. */
  lemma SizeComponent(size: string)
    requires Free(size, '/')
    ensures Component("l1_" + size) && ("l1_" + size)[0] != '/'
  {
    FreeConcat("l1_", size, '/');
  }

  /**
   * The run directory is the benchmark's directory with one more component, `l1_<size>`, and
   * so is named `l1_<size>`.
   */
  lemma OutDirNames(outRoot: PurePath, cpu: string, bench: string, size: string)
    requires Free(size, '/')
    ensures var parent := Join(Join(outRoot, cpu), bench);
      OutDir(outRoot, cpu, bench, size) == PurePath(parent.rooted, parent.parts + ["l1_" + size])
    ensures PathName(OutDir(outRoot, cpu, bench, size)) == "l1_" + size
  {
    SizeComponent(size);
    ComponentsOne("l1_" + size);
  }

  /**
   * Different benchmarks or sizes never share an output directory, provided each benchmark
   * name is a single component (non-empty, not `.`, without `/`) and sizes have no `/`. Two
   * `--bench` values with the same name do share one: the later run overwrites the earlier
   * one's output.
   */
  lemma OutDirInjective(outRoot: PurePath, cpu: string, b1: string, s1: string, b2: string, s2: string)
    requires Component(b1) && Component(b2)
    requires Free(s1, '/') && Free(s2, '/')
    requires OutDir(outRoot, cpu, b1, s1) == OutDir(outRoot, cpu, b2, s2)
    ensures b1 == b2 && s1 == s2
  {
    var p := Join(outRoot, cpu);
    ComponentsOne(b1);
    ComponentsOne(b2);
    OutDirNames(outRoot, cpu, b1, s1);
    OutDirNames(outRoot, cpu, b2, s2);
    var d1 := OutDir(outRoot, cpu, b1, s1).parts;
    var d2 := OutDir(outRoot, cpu, b2, s2).parts;
    assert d1 == p.parts + [b1] + ["l1_" + s1];
    assert d2 == p.parts + [b2] + ["l1_" + s2];
    assert d1[|p.parts|] == b1 && d2[|p.parts|] == b2;
    assert d1[|p.parts| + 1] == "l1_" + s1 && d2[|p.parts| + 1] == "l1_" + s2;
    assert ("l1_" + s1)[3..] == s1 && ("l1_" + s2)[3..] == s2;
  }

  /**
   * `pathlib` drops empty and `.` components, so a benchmark named `""` (from `--bench :prog`)
   * and one named `.` write into the same directory, `out_root/cpu/l1_<size>`.
   */
  lemma OutDirSkipsEmptyBench(outRoot: PurePath, cpu: string, size: string)
    ensures OutDir(outRoot, cpu, "", size) == OutDir(outRoot, cpu, ".", size)
    ensures OutDir(outRoot, cpu, "", size) == Join(Join(outRoot, cpu), "l1_" + size)
  {
    ComponentsOfDot();
    assert Join(outRoot, cpu).parts + [] == Join(outRoot, cpu).parts;
  }

  /**
   * A benchmark name that starts with `/` restarts the path at the root: the run directory
   * does not depend on `out_root` or the CPU.
   */
  lemma OutDirRootedBench(r1: PurePath, c1: string, r2: PurePath, c2: string, bench: string, size: string)
    requires bench != [] && bench[0] == '/'
    ensures OutDir(r1, c1, bench, size) == OutDir(r2, c2, bench, size)
    ensures OutDir(r1, c1, bench, size).rooted
  {
  }

  // ---------------------------------------------------------------------------------------
  // The sweep: run_sweep

  const NoBinariesMessage: string := "Nenhum bin\U{e1}rio encontrado (.riscv). Use --bench."

  /** One call of `run_gem5`, with its arguments. */
  datatype Invocation = Invocation(gem5: string, cfg: string, outdir: PurePath, cmd: string, l1i: string, l1d: string,
                                   options: seq<string>)

  /** The command line the call runs, the output directory written as `str(outdir)`. */
  function Args(inv: Invocation): seq<string> {
    Gem5Args(inv.gem5, PathText(inv.outdir), inv.cfg, inv.cmd, inv.l1i, inv.l1d, inv.options)
  }

  /** The invocation for one benchmark at one L1 size (the same size for instructions and data). */
  function RunFor(gem5: string, cfg: string, outRoot: PurePath, cpu: string, b: Bench, size: string): Invocation {
    Invocation(gem5, cfg, OutDir(outRoot, cpu, b.name, size), b.path, size, size, b.options)
  }

  /**
   * The command line of a call carries each of its arguments in its place: the output directory
   * as its text, the program as `--cmd`, the two L1 sizes, and the options after `--options`.
   */
  lemma ArgsOf(inv: Invocation)
    ensures var args := Args(inv);
      && |args| >= 7 && args[0] == inv.gem5 && args[1] == "-d" && args[2] == PathText(inv.outdir)
      && args[3] == inv.cfg && args[4] == "--cmd=" + inv.cmd && args[5] == "--l1i=" + inv.l1i
      && args[6] == "--l1d=" + inv.l1d && ProgramOptions(args) == inv.options
  {
    Gem5ArgsOptions(inv.gem5, PathText(inv.outdir), inv.cfg, inv.cmd, inv.l1i, inv.l1d, inv.options);
  }

  /** The runs for one benchmark, one per size, in the order of the sizes. */
  function RunsFor(gem5: string, cfg: string, outRoot: PurePath, cpu: string, b: Bench, sizes: seq<string>)
    : (rs: seq<Invocation>)
    ensures |rs| == |sizes|
  {
    seq(|sizes|, j requires 0 <= j < |sizes| => RunFor(gem5, cfg, outRoot, cpu, b, sizes[j]))
  }

  /** All the runs of a sweep, benchmark by benchmark. */
  function Planned(gem5: string, cfg: string, outRoot: PurePath, cpu: string, benches: seq<Bench>, sizes: seq<string>)
    : seq<Invocation>
  {
    if benches == [] then []
    else Planned(gem5, cfg, outRoot, cpu, benches[..|benches| - 1], sizes)
         + RunsFor(gem5, cfg, outRoot, cpu, benches[|benches| - 1], sizes)
  }

  /**
   * A sweep has |benches| times |sizes| runs, benchmark-major: run i * |sizes| + j is benchmark
   * i at size j.
   */
  lemma {:induction false} PlannedAt(gem5: string, cfg: string, outRoot: PurePath, cpu: string,
                                     benches: seq<Bench>, sizes: seq<string>, i: nat, j: nat)
    requires i < |benches| && j < |sizes|
    ensures |Planned(gem5, cfg, outRoot, cpu, benches, sizes)| == |benches| * |sizes|
    ensures i * |sizes| + j < |benches| * |sizes|
    ensures Planned(gem5, cfg, outRoot, cpu, benches, sizes)[i * |sizes| + j]
              == RunFor(gem5, cfg, outRoot, cpu, benches[i], sizes[j])
  {
    var m := |sizes|;
    var n := |benches| - 1;
    var init := benches[..n];
    var before := Planned(gem5, cfg, outRoot, cpu, init, sizes);
    var last := RunsFor(gem5, cfg, outRoot, cpu, benches[n], sizes);
    PlannedLength(gem5, cfg, outRoot, cpu, benches, sizes);
    PlannedLength(gem5, cfg, outRoot, cpu, init, sizes);
    assert Planned(gem5, cfg, outRoot, cpu, benches, sizes) == before + last;
    BlockAt(before, last, n, m, i, j);
    if i < n {
      assert init[i] == benches[i];
      PlannedAt(gem5, cfg, outRoot, cpu, init, sizes, i, j);
    } else {
      RunsForAt(gem5, cfg, outRoot, cpu, benches[n], sizes, j);
    }
  }

  /**
   * In `n` rows of `m` entries followed by one more row, entry `j` of row `i` is in the first
   * rows when `i < n` and in the last row when `i == n`.
   */
  lemma BlockAt<T>(before: seq<T>, last: seq<T>, n: nat, m: nat, i: nat, j: nat)
    requires |before| == n * m && |last| == m && i <= n && j < m
    ensures i * m + j < |before| + |last|
    ensures i < n ==> i * m + j < |before| && (before + last)[i * m + j] == before[i * m + j]
    ensures i == n ==> (before + last)[i * m + j] == last[j]
  {
    if i < n {
      MulBelow(i, n, m, j);
    }
  }

  /** Run `j` of a benchmark is its run at size `j`. */
  lemma RunsForAt(gem5: string, cfg: string, outRoot: PurePath, cpu: string, b: Bench, sizes: seq<string>, j: nat)
    requires j < |sizes|
    ensures RunsFor(gem5, cfg, outRoot, cpu, b, sizes)[j] == RunFor(gem5, cfg, outRoot, cpu, b, sizes[j])
  {
  }

  lemma MulStep(n: nat, m: nat)
    ensures (n + 1) * m == n * m + m
  {
  }

  /** Row i of n rows of m entries ends before row n starts. */
  lemma MulBelow(i: nat, n: nat, m: nat, j: nat)
    requires i < n && j < m
    ensures i * m + j < n * m
  {
    assert (i + 1) * m <= n * m;
  }

  lemma {:induction false} PlannedLength(gem5: string, cfg: string, outRoot: PurePath, cpu: string,
                                         benches: seq<Bench>, sizes: seq<string>)
    ensures |Planned(gem5, cfg, outRoot, cpu, benches, sizes)| == |benches| * |sizes|
  {
    if benches != [] {
      PlannedLength(gem5, cfg, outRoot, cpu, benches[..|benches| - 1], sizes);
      MulStep(|benches| - 1, |sizes|);
    }
  }

  /** The runs of one more benchmark follow the runs of the ones before it. */
  lemma PlannedStep(gem5: string, cfg: string, outRoot: PurePath, cpu: string,
                    benches: seq<Bench>, sizes: seq<string>, i: nat)
    requires i < |benches|
    ensures Planned(gem5, cfg, outRoot, cpu, benches[..i + 1], sizes)
              == Planned(gem5, cfg, outRoot, cpu, benches[..i], sizes) + RunsFor(gem5, cfg, outRoot, cpu, benches[i], sizes)
  {
    assert benches[..i + 1][..i] == benches[..i];
  }

  /** The runs of the first benchmarks come first. */
  lemma {:induction false} PlannedPrefix(gem5: string, cfg: string, outRoot: PurePath, cpu: string,
                                         benches: seq<Bench>, sizes: seq<string>, k: nat)
    requires k <= |benches|
    ensures IsPrefix(Planned(gem5, cfg, outRoot, cpu, benches[..k], sizes),
                     Planned(gem5, cfg, outRoot, cpu, benches, sizes))
    decreases |benches|
  {
    if k < |benches| {
      var init := benches[..|benches| - 1];
      assert benches[..k] == init[..k];
      PlannedPrefix(gem5, cfg, outRoot, cpu, init, sizes, k);
    } else {
      assert benches[..k] == benches;
    }
  }

  lemma PrefixOfPrefix<T>(a: seq<T>, b: seq<T>, c: seq<T>)
    requires IsPrefix(a, b) && IsPrefix(b, c)
    ensures IsPrefix(a, c)
  {
    assert c[..|a|] == c[..|b|][..|a|];
  }

  ghost predicate IsPrefix<T>(a: seq<T>, b: seq<T>) {
    |a| <= |b| && b[..|a|] == a
  }

  /**
   * `run_sweep`: with no benchmark it stops before running anything; otherwise it runs every
   * benchmark at every size, benchmark by benchmark, and stops at the first run whose exit
   * status (`exitCode(k)` for the k-th run) is not zero, as `subprocess.run(check=True)` raises.
   * `issued` is the runs started, in order.
   */
  method RunSweep(gem5: string, cfg: string, outRoot: PurePath, cpu: string, benches: seq<Bench>,
                  sizes: seq<string>, exitCode: nat -> int)
    returns (issued: seq<Invocation>, err: Option<PyError>)
    ensures benches == [] ==> issued == [] && err == Some(SystemExit(NoBinariesMessage))
    ensures benches != [] ==> IsPrefix(issued, Planned(gem5, cfg, outRoot, cpu, benches, sizes))
    ensures benches != [] && err.None? ==>
      issued == Planned(gem5, cfg, outRoot, cpu, benches, sizes)
      && forall k | 0 <= k < |issued| :: exitCode(k) == 0
    ensures benches != [] && err.Some? ==>
      && issued != []
      && exitCode(|issued| - 1) != 0
      && err == Some(CalledProcessError(exitCode(|issued| - 1)))
      && forall k | 0 <= k < |issued| - 1 :: exitCode(k) == 0
  {
    issued := [];
    if benches == [] {
      err := Some(SystemExit(NoBinariesMessage));
      return;
    }
    ghost var plan := Planned(gem5, cfg, outRoot, cpu, benches, sizes);
    var i := 0;
    while i < |benches|
      invariant 0 <= i <= |benches|
      invariant issued == Planned(gem5, cfg, outRoot, cpu, benches[..i], sizes)
      invariant forall k | 0 <= k < |issued| :: exitCode(k) == 0
    {
      ghost var done := issued;
      ghost var row := RunsFor(gem5, cfg, outRoot, cpu, benches[i], sizes);
      PlannedStep(gem5, cfg, outRoot, cpu, benches, sizes, i);
      PlannedPrefix(gem5, cfg, outRoot, cpu, benches, sizes, i + 1);
      var more;
      more, err := RunBench(gem5, cfg, outRoot, cpu, benches[i], sizes, exitCode, |issued|);
      issued := issued + more;
      if err.Some? {
        PrefixOfPrefix(issued, done + row, plan) by {
          assert (done + row)[..|issued|] == done + row[..|more|];
        }
        return;
      }
      i := i + 1;
    }
    assert benches[..i] == benches;
    err := None;
  }

  /**
   * The inner loop of `run_sweep`: the runs of one benchmark at each size in turn, stopping at
   * the first non-zero exit status; `start` is the number of runs started before this one.
   */
  method RunBench(gem5: string, cfg: string, outRoot: PurePath, cpu: string, b: Bench, sizes: seq<string>,
                  exitCode: nat -> int, start: nat)
    returns (issued: seq<Invocation>, err: Option<PyError>)
    ensures IsPrefix(issued, RunsFor(gem5, cfg, outRoot, cpu, b, sizes))
    ensures err.None? ==>
      issued == RunsFor(gem5, cfg, outRoot, cpu, b, sizes) && forall k | start <= k < start + |issued| :: exitCode(k) == 0
    ensures err.Some? ==>
      && issued != []
      && exitCode(start + |issued| - 1) != 0
      && err == Some(CalledProcessError(exitCode(start + |issued| - 1)))
      && forall k | start <= k < start + |issued| - 1 :: exitCode(k) == 0
  {
    ghost var row := RunsFor(gem5, cfg, outRoot, cpu, b, sizes);
    issued := [];
    var j := 0;
    while j < |sizes|
      invariant 0 <= j <= |sizes|
      invariant issued == row[..j]
      invariant forall k | start <= k < start + j :: exitCode(k) == 0
    {
      var code := exitCode(start + j);
      assert row[..j + 1] == row[..j] + [row[j]];
      issued := issued + [RunFor(gem5, cfg, outRoot, cpu, b, sizes[j])];
      if code != 0 {
        return issued, Some(CalledProcessError(code));
      }
      j := j + 1;
    }
    assert row[..j] == row;
    err := None;
  }

  // ---------------------------------------------------------------------------------------
  // Collecting results: collect_results and write_csv

  /** One `l1_*` run directory found under `out_root/cpu/<bench>/`, with its stats dump (None if absent). */
  datatype RunDir = RunDir(bench: string, dirName: string, stats: Option<seq<string>>)

  /** One result row: the benchmark, the L1 size and the metrics of its dump. */
  datatype Row = Row(bench: string, l1Size: string, metrics: Metrics)

  /** `l1_dir.name.replace("l1_", "")` */
  function L1Size(dirName: string): string {
    ReplaceAll(dirName, "l1_", "")
  }

  /** The size a run wrote into its directory name is the size that collecting reads back. */
  lemma L1SizeOfOutDir(outRoot: PurePath, cpu: string, bench: string, size: string)
    requires Free(size, '/') && !Contains(size, "l1_")
    ensures L1Size(PathName(OutDir(outRoot, cpu, bench, size))) == size
  {
    OutDirNames(outRoot, cpu, bench, size);
    var leaf := "l1_" + size;
    assert StartsWith(leaf, "l1_") && leaf[3..] == size;
  }

  /**
   * `collect_results(out_root, cpu)`: nothing when `out_root` does not exist; otherwise one row
   * per run directory, in the order they are visited (`dirs`, the sorted `l1_*` subdirectories
   * of each sorted benchmark directory).
   */
  method CollectResults(rootExists: bool, dirs: seq<RunDir>) returns (rows: seq<Row>)
    ensures rows == if rootExists then RowsOf(dirs) else []
  {
    rows := [];
    if !rootExists {
      return;
    }
    for i := 0 to |dirs|
      invariant rows == RowsOf(dirs[..i])
    {
      var row := CollectRow(dirs[i]);
      RowsOfStep(dirs, i);
      rows := rows + [row];
    }
    assert dirs[..|dirs|] == dirs;
  }

  /** The rows of one more directory end with that directory's row. */
  lemma RowsOfStep(dirs: seq<RunDir>, i: nat)
    requires i < |dirs|
    ensures RowsOf(dirs[..i + 1]) == RowsOf(dirs[..i]) + [RowOf(dirs[i])]
  {
    assert dirs[..i + 1][..i] == dirs[..i];
  }

  /** The rows of the run directories, in order. */
  function RowsOf(dirs: seq<RunDir>): (rows: seq<Row>)
    ensures |rows| == |dirs|
  {
    if dirs == [] then [] else RowsOf(dirs[..|dirs| - 1]) + [RowOf(dirs[|dirs| - 1])]
  }

  /** One row per run directory, the i-th row being that of the i-th directory. */
  lemma {:induction false} RowsOfAt(dirs: seq<RunDir>, i: nat)
    requires i < |dirs|
    ensures RowsOf(dirs)[i] == RowOf(dirs[i])
  {
    if i < |dirs| - 1 {
      RowsOfAt(dirs[..|dirs| - 1], i);
    }
  }

  /** The row of one run directory: parse its dump, then compute the metrics. */
  method CollectRow(d: RunDir) returns (row: Row)
    ensures row == RowOf(d)
  {
    var stats := ParseStats(d.stats);
    row := Row(d.bench, L1Size(d.dirName), ComputeMetrics(stats));
  }

  /** The row of one run directory: its benchmark, its size and the metrics of its dump. */
  function RowOf(d: RunDir): Row {
    Row(d.bench, L1Size(d.dirName), ComputeMetrics(StatsOfFile(d.stats)))
  }

  /** The columns of the result table, in order. */
  const Fieldnames: seq<string> := [
    "bench", "l1_size", "sim_seconds", "sim_ticks", "sim_insts", "num_cycles", "ipc", "cpi",
    "i_miss_rate", "d_miss_rate", "l2_miss_rate", "branch_mispred_rate"]

  function MetricCell(v: Option<real>): Cell {
    if v.Some? then Num(v.value) else Blank
  }

  /** The metrics in the order of their columns (the third to the last). */
  function MetricValues(m: Metrics): (vs: seq<Option<real>>)
    ensures |vs| == |Fieldnames| - 2
  {
    [m.simSeconds, m.simTicks, m.simInsts, m.numCycles, m.ipc, m.cpi, m.iMissRate, m.dMissRate,
     m.l2MissRate, m.branchMispredRate]
  }

  /**
   * `{k: r.get(k) for k in fieldnames}` as the cells of one CSV line: the row holds every
   * column, so each cell is the row's field of that column's name.
   */
  function Project(row: Row): (cells: seq<Cell>)
    ensures |cells| == |Fieldnames|
  {
    var vs := MetricValues(row.metrics);
    [Text(row.bench), Text(row.l1Size)] + seq(|vs|, i requires 0 <= i < |vs| => MetricCell(vs[i]))
  }

  function MetricOf(c: Cell): Option<Option<real>> {
    match c
    case Num(x) => Some(Some(x))
    case Blank => Some(None)
    case Text(_) => None
  }

  /** Reads a CSV line of the result table back into a row. */
  function RowOfCells(cells: seq<Cell>): Option<Row> {
    if |cells| != 12 || !cells[0].Text? || !cells[1].Text? then None
    else
      var vs := seq(10, i requires 0 <= i < 10 => MetricOf(cells[i + 2]));
      if !(forall i | 0 <= i < 10 :: vs[i].Some?) then None
      else Some(Row(cells[0].text, cells[1].text, Metrics(vs[0].value, vs[1].value, vs[2].value,
        vs[3].value, vs[4].value, vs[5].value, vs[6].value, vs[7].value, vs[8].value, vs[9].value)))
  }

  /** The projection loses nothing: every field lands in its own column and reads back. */
  lemma ProjectRoundTrip(row: Row)
    ensures RowOfCells(Project(row)) == Some(row)
  {
    var cells := Project(row);
    var vs := MetricValues(row.metrics);
    assert forall i | 0 <= i < 10 :: cells[i + 2] == MetricCell(vs[i]);
  }

  /**
   * `write_csv(rows, path)`: nothing at all for no rows (no file either); otherwise the header
   * line, then one projected line per row, in order.
   */
  method WriteCsv(rows: seq<Row>) returns (out: Option<seq<seq<Cell>>>)
    ensures out.None? <==> rows == []
    ensures out.Some? ==> |out.value| == |rows| + 1
    ensures out.Some? ==> out.value[0] == HeaderLine(Fieldnames)
    ensures out.Some? ==> forall i | 0 <= i < |rows| :: out.value[i + 1] == Project(rows[i])
  {
    if rows == [] {
      return None;
    }
    var lines := [HeaderLine(Fieldnames)];
    for i := 0 to |rows|
      invariant |lines| == i + 1
      invariant lines[0] == HeaderLine(Fieldnames)
      invariant forall k | 0 <= k < i :: lines[k + 1] == Project(rows[k])
    {
      lines := lines + [Project(rows[i])];
    }
    out := Some(lines);
  }
}
