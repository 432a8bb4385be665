# gem5 sweep and result-extraction scripts, modelled in Dafny

The repository drives the gem5 simulator through parameter sweeps, then turns gem5's
`stats.txt` dumps into tables. This project models the text-processing and derivation logic
around the simulator, and proves what that logic promises. There are five scripts.

- **L1 cache sweep** (`TP4/l1_sweep.py`)
  - Reads a stats dump into a key/value map. The map is an association list in insertion order.
  - Resolves abstract metrics from that map. It tries exact keys first, then key suffixes.
  - Computes the guarded branch-misprediction rate.
  - Parses the `--bench` list and the default L1 size ladders for Cortex-A7 and A15.
  - Builds the gem5 command line and the output-directory scheme of a sweep.
  - Runs the bench-major sweep, which stops at the first failing run.
  - Collects results from the run directories and projects the rows onto the CSV columns.
- **Energy efficiency** (`TP4/energy_efficiency.py`)
  - Holds the power table.
  - Filters result rows on their IPC and computes IPC / power.
  - Writes the efficiency table, with its empty guard.
  - Provides the L1-size sort key and classifies a benchmark name by CPU.
- **Multi-core speedup** (`TP5/Experiments/bash_runner_section2.py`)
  - An integer stats parser in which the first `sim_insts` line wins.
  - Selects the busiest CPU.
  - Computes the speedup relative to the first run and the IPC of the busiest CPU.
  - Models the sweep over 1…64 threads.
- **Result extraction** (`TP5/Experiments/extract_results.py`)
  - An index-driven scan that recognises `=== results/stats_o3_w<W>_t<T>_m<M>.txt` header lines and reads the line after each one.
  - Metrics missing from a data line default to 0.0.
  - Records are sorted stably by (width, threads).
- **Instruction classes** (`TP4/extract_inst_class_percentages.py`)
  - Reads `numInsts` and the per-class committed-instruction lines.
  - Filters out zero counts and `total`, then sorts by count, descending and stably.
  - Falls back to count / numInsts × 100 when a class has no percentage.

## How it is laid out

- **Shared modules:**
  - `wrappers.dfy`: Option, Result, and the Python exceptions the scripts can raise.
  - `strings.dfy`: `str.split()`, `strip()`, `startswith`, `in`, `rstrip`, `replace` and `splitlines()`, character by character.
  - `numbers.dfy`: `int()` and `float()` on decimal notation.
  - `dicts.dfy`: a Python dict as an insertion-ordered association list.
  - `seqs.dfy`: filtering and mapping.
  - `sorting.dfy`: a stable insertion sort, shown to sort, to permute and to be stable.
  - `patterns.dfy`: the `re.search(lit + r'\s+(C+)')` shape.
  - `paths.dfy`: `Path.name`, `Path.stem`, and `pathlib`'s `/` join of POSIX paths.
  - `csv.dfy`: cells and header lines.
- **One module per script:** `L1Sweep`, `EnergyEfficiency`, `ThreadSweep`, `ExtractResults` and `InstClasses`.
- **Scripts that loop:** loops that update state are methods with loop invariants. Each is proved equal to a specification function, and the lemmas state the script's properties about that function.

## Model

| member | source | states |
|---|---|---|
| L1Sweep.StatLineSpec | TP4/l1_sweep.py:31-41 | A stripped line contributes nothing when it is blank, starts with `----` or `End Simulation`, or has fewer than two tokens. It contributes an entry iff, in addition, its second token parses as a float. That entry is (first token, parsed second token). |
| L1Sweep.StatLineOfWords | TP4/l1_sweep.py:34-39 | A line made of whitespace-separated words whose second word is a number `v` gives exactly the entry (first word, `v`). |
| L1Sweep.ParseStats | TP4/l1_sweep.py:24-42 | The per-line loop builds exactly the map of the file's entries. A missing file gives the empty map. |
| L1Sweep.Entries | TP4/l1_sweep.py:30-41 | Each line of the dump yields one line outcome. |
| L1Sweep.EntriesAppend | TP4/l1_sweep.py:30-41 | Reading the lines of `a + b` one by one gives the outcomes of `a` followed by those of `b`. |
| L1Sweep.BuildUnique | TP4/l1_sweep.py:39 | The map built from any line outcomes holds each key at most once. |
| L1Sweep.BuildGet | TP4/l1_sweep.py:37-39 | A key is absent iff no entry sets it. Otherwise its value is that of the last entry that sets it, so a later duplicate overwrites an earlier one. |
| L1Sweep.ApplyGet | TP4/l1_sweep.py:39 | Storing one entry changes the value of its own key only. |
| L1Sweep.StatsOfGet | TP4/l1_sweep.py:24-42 | For a dump's lines: a key is absent iff no line sets it. Otherwise it holds the value of the last line that sets it. |
| L1Sweep.BuildSkip | TP4/l1_sweep.py:32-36 | A skipped line anywhere in the sequence leaves the map unchanged. |
| L1Sweep.SkippedLineIgnored | TP4/l1_sweep.py:32-41 | Inserting a line that is skipped anywhere in a dump leaves the parsed map unchanged, and no exception escapes. |
| L1Sweep.FirstExactSpec | TP4/l1_sweep.py:46-48 | The exact tier finds the first pattern, in list order, that is a key. It finds nothing iff no pattern is a key. |
| L1Sweep.FirstSuffixKeySpec | TP4/l1_sweep.py:50-52 | For one pattern, the suffix search finds the first key in map order that ends with it. It finds nothing iff no key does. |
| L1Sweep.FirstSuffixSpec | TP4/l1_sweep.py:49-52 | The suffix tier takes the earliest pattern that some key ends with, and within it the first such key in map order. |
| L1Sweep.GetFirstExact | TP4/l1_sweep.py:45-48 | When pattern `i` is a key and no earlier pattern is, `get_first` returns its value, whatever the suffix matches. |
| L1Sweep.GetFirstSuffix | TP4/l1_sweep.py:45-53 | When no pattern is a key, `get_first` returns the value of the first key in map order that ends with the earliest pattern any key ends with. |
| L1Sweep.GetFirstNone | TP4/l1_sweep.py:45-53 | `get_first` returns None iff no key equals or ends with any pattern. |
| L1Sweep.GetFirstFollowsInsertionOrder | TP4/l1_sweep.py:50-52 | Between two keys ending with the same pattern, the one inserted first wins, even when it is lexicographically larger. |
| L1Sweep.MispredRate | TP4/l1_sweep.py:105-117 | The rate exists iff both counters resolve and `pred > 0`. Then rate × pred = incorrect. |
| L1Sweep.ComputeMetricsEmpty | TP4/l1_sweep.py:56-119 | An empty map (as from a missing stats file) gives None for every metric. |
| L1Sweep.ParseBenchList | TP4/l1_sweep.py:130-144 | One benchmark per value, in the same order. |
| L1Sweep.BenchOfNamed | TP4/l1_sweep.py:133-137 | `name:path` gives that name and path with no options. `name:path::args` splits at the first `::` and tokenizes `args`; empty `args` give no options. |
| L1Sweep.BenchOfPath | TP4/l1_sweep.py:138-141 | A spec without `:` is a path, and the benchmark is named after the stem of the path's last component, empty and `.` components skipped. |
| L1Sweep.BenchOfTrailingDot | TP4/l1_sweep.py:138-141 | A path ending in `/.` names the same benchmark as the path without it. |
| L1Sweep.BenchOfRiscvPath | TP4/l1_sweep.py:138-141 | `dir/base.riscv` names the benchmark `base`. |
| L1Sweep.DefaultSizes | TP4/l1_sweep.py:303-308 | A ladder exists iff the upper-cased CPU is A7 or A15, and it has five sizes. Any other CPU raises SystemExit with the script's message. |
| L1Sweep.DefaultSizesDouble | TP4/l1_sweep.py:304-307 | Size `i` is `base·2^i` kB, with base 1 for A7 and 2 for A15. |
| L1Sweep.DefaultSizesIgnoreCase | TP4/l1_sweep.py:304-306 | The CPU name is compared case-insensitively. |
| L1Sweep.Gem5ArgsShape | TP4/l1_sweep.py:157-168 | The command line starts with the fixed seven arguments. `--options` and the options follow iff the options are non-empty. |
| L1Sweep.Gem5ArgsOptions | TP4/l1_sweep.py:157-168 | The program's options can be read back from the command line unchanged. |
| L1Sweep.ArgsOf | TP4/l1_sweep.py:157-168 | A `run_gem5` call's command line carries each of its arguments in its place: `str(outdir)` after `-d`, the program, both L1 sizes and the options. |
| L1Sweep.OutDirNames | TP4/l1_sweep.py:189 | For a size without `/`, a run's output directory is its benchmark's directory plus one component, `l1_<size>`, and that is its name. |
| L1Sweep.OutDirInjective | TP4/l1_sweep.py:189 | Distinct (benchmark, size) pairs of one sweep get distinct output directories when benchmark names are single path components and sizes have no `/`. |
| L1Sweep.OutDirSkipsEmptyBench | TP4/l1_sweep.py:189 | Benchmarks named `""` and `.` share one directory, `out_root/cpu/l1_<size>`, because the join drops such components. |
| L1Sweep.OutDirRootedBench | TP4/l1_sweep.py:189 | A benchmark name starting with `/` restarts the path: the directory is rooted and does not depend on `out_root` or the CPU. |
| L1Sweep.PlannedLength | TP4/l1_sweep.py:187-198 | A sweep plans exactly (number of benchmarks) × (number of sizes) runs. |
| L1Sweep.PlannedAt | TP4/l1_sweep.py:187-198 | With `m` sizes, run `i·m + j` is benchmark `i` at size `j`, so the order is bench-major. |
| L1Sweep.PlannedPrefix | TP4/l1_sweep.py:187-198 | The runs of the first `k` benchmarks are a prefix of the plan. |
| L1Sweep.RunsFor | TP4/l1_sweep.py:188-198 | One run per size for a benchmark. |
| L1Sweep.RunSweep | TP4/l1_sweep.py:172-198 | An empty benchmark list raises SystemExit before any run. Otherwise: the issued runs are a prefix of the plan; all planned runs are issued iff every exit code is 0; after the first non-zero exit code, CalledProcessError ends the sweep. |
| L1Sweep.RunBench | TP4/l1_sweep.py:188-198 | The inner loop over sizes issues a prefix of one benchmark's runs and stops at the first failing run. |
| L1Sweep.L1SizeOfOutDir | TP4/l1_sweep.py:189-213 | Collecting reads back, from a run directory's name, the size that the sweep wrote into it, for any benchmark name and any size with no `/` and no `l1_` (`replace` removes every `l1_`). |
| L1Sweep.CollectResults | TP4/l1_sweep.py:201-219 | A missing output root gives no rows. Otherwise there is one row per run directory, in visiting order. |
| L1Sweep.RowsOfAt | TP4/l1_sweep.py:206-218 | Row `i` is the row of run directory `i`. |
| L1Sweep.CollectRow | TP4/l1_sweep.py:213-218 | A row holds the benchmark, the size from the directory name, and the metrics of the parsed dump. |
| L1Sweep.Project | TP4/l1_sweep.py:225-244 | A row projects onto exactly the twelve columns. |
| L1Sweep.ProjectRoundTrip | TP4/l1_sweep.py:225-244 | The row can be read back from its projected cells. |
| L1Sweep.WriteCsv | TP4/l1_sweep.py:222-244 | No rows write nothing. Otherwise the table is the header line followed by each row's projection, in order. |
| EnergyEfficiency.PowerTable | TP4/energy_efficiency.py:20-41 | The power is 100.0 for A7, 500.0 for A15 and 1.0 for any other CPU. It is always positive. |
| EnergyEfficiency.ComputeEfficiency | TP4/energy_efficiency.py:39-65 | The loop with its `continue` filters returns the rows' efficiency records, in input order. |
| EnergyEfficiency.EfficiencyOfValues | TP4/energy_efficiency.py:45-62 | A row is kept iff its IPC is usable. The kept record carries the row's bench and l1_size (empty when absent), its IPC text and the power, with efficiency = float(ipc) / power. |
| EnergyEfficiency.IpcText | TP4/energy_efficiency.py:45-50 | A usable IPC is the float value of the row's `ipc` column. |
| EnergyEfficiency.NoneTextIsNotANumber | TP4/energy_efficiency.py:46 | The text `None` is not a float. |
| EnergyEfficiency.EfficienciesAllKept | TP4/energy_efficiency.py:44-63 | When every row has a usable IPC, each row gives exactly one record, in order. |
| EnergyEfficiency.EfficienciesNoneKept | TP4/energy_efficiency.py:44-52 | Rows without a usable IPC give no records. |
| EnergyEfficiency.EfficiencyCells | TP4/energy_efficiency.py:75 | A record has one cell per column of the efficiency table. |
| EnergyEfficiency.EfficiencyCellsRoundTrip | TP4/energy_efficiency.py:75-79 | A record can be read back from its cells. |
| EnergyEfficiency.WriteEfficiencyCsv | TP4/energy_efficiency.py:68-79 | No rows write nothing. Otherwise the table is the header line followed by one line per record, each of which reads back as that record. |
| EnergyEfficiency.SizeKey | TP4/energy_efficiency.py:82-87 | The unit part is made of lower-case ASCII letters. |
| EnergyEfficiency.SizeKeyOf | TP4/energy_efficiency.py:82-87 | A size written as a number and then letters (such as `16kB`) gives (that number, the letters lower-cased). |
| EnergyEfficiency.SizeKeyNoDigits | TP4/energy_efficiency.py:84-86 | A size without digits has number 0. |
| EnergyEfficiency.ExtractCpuSpec | TP4/energy_efficiency.py:196-202 | The result is A7 iff the name contains `A7` or `a7`. It is A15 iff the name contains neither of those but contains `A15` or `a15`. It is None iff the name contains none of the four. A recognised CPU has a power above the default. |
| ThreadSweep.CommandInjective | TP5/Experiments/bash_runner_section2.py:37-38 | Different thread counts give different gem5 command lines. |
| ThreadSweep.KeyAndCount | TP5/Experiments/bash_runner_section2.py:21-25 | The result is (first token, int(second token)). A line with fewer than two tokens raises IndexError; a non-integer second token raises ValueError. |
| ThreadSweep.ParseStats | TP5/Experiments/bash_runner_section2.py:16-26 | The per-line loop returns exactly the parse of the file. A missing file raises FileNotFoundError. |
| ThreadSweep.ParseLinesStops | TP5/Experiments/bash_runner_section2.py:19-25 | The first exception ends the parse: later lines do not matter. |
| ThreadSweep.ParseLinesUnique | TP5/Experiments/bash_runner_section2.py:17-25 | The parsed map holds each key at most once. |
| ThreadSweep.ParseLinesOk | TP5/Experiments/bash_runner_section2.py:19-25 | The parse succeeds when every cycle line and every `sim_insts` line has an integer second token. |
| ThreadSweep.ParseLinesErr | TP5/Experiments/bash_runner_section2.py:19-25 | A failed parse names the exception raised by some cycle line or `sim_insts` line. |
| ThreadSweep.CycleStepGet | TP5/Experiments/bash_runner_section2.py:20-22 | A line containing `numCycles` and `cpu` stores its count under its first token and changes nothing else. |
| ThreadSweep.SimStepGet | TP5/Experiments/bash_runner_section2.py:23-25 | A `sim_insts` line stores its count only while `sim_insts` is absent, and changes nothing else. |
| ThreadSweep.ParseLinesCycles | TP5/Experiments/bash_runner_section2.py:20-22 | A counter other than `sim_insts` is absent iff no cycle line sets it. Otherwise it holds the count of the last cycle line that sets it. |
| ThreadSweep.ParseLinesSimInsts | TP5/Experiments/bash_runner_section2.py:23-25 | `sim_insts` is absent iff no line starts with `sim_insts `. Otherwise it holds the count of the first such line. |
| ThreadSweep.SimInstsOverwritten | TP5/Experiments/bash_runner_section2.py:20-25 | A cycle line whose first token is `sim_insts` overrides the first-wins rule. |
| ThreadSweep.CyclesSpec | TP5/Experiments/bash_runner_section2.py:45 | The cycles subset is exactly the entries whose key contains `numCycles`, in map order. |
| ThreadSweep.ArgMax | TP5/Experiments/bash_runner_section2.py:50 | There is a busiest entry iff the map is non-empty. |
| ThreadSweep.ArgMaxSpec | TP5/Experiments/bash_runner_section2.py:50-51 | No entry exceeds the chosen one, and every earlier entry is strictly smaller: `max` keeps the first maximum. |
| ThreadSweep.RunRowOk | TP5/Experiments/bash_runner_section2.py:41-68 | A successful run records its thread count and a non-zero maximum. Its speedup is 1.0 on the first run and first-run cycles / this run's cycles afterwards. |
| ThreadSweep.RunRowBusiest | TP5/Experiments/bash_runner_section2.py:45-63 | `cpu_max` is the first cycles entry of maximal count, and no entry exceeds it. `ipc_max` = sim_insts / the cycles of `cpu_max`. |
| ThreadSweep.RunRowNoCycles | TP5/Experiments/bash_runner_section2.py:50 | A dump without cycle counters raises ValueError in `max`. |
| ThreadSweep.RunRowNoSimInsts | TP5/Experiments/bash_runner_section2.py:63 | On the first run, a dump with cycle counters but no `sim_insts` raises KeyError. |
| ThreadSweep.RunRowParseError | TP5/Experiments/bash_runner_section2.py:41 | An exception while parsing ends the run with that exception. |
| ThreadSweep.RunOnce | TP5/Experiments/bash_runner_section2.py:41-68 | The loop body computes exactly the run's row or its exception. |
| ThreadSweep.SweepStops | TP5/Experiments/bash_runner_section2.py:37-68 | The first exception ends the sweep. |
| ThreadSweep.SweepUpToRows | TP5/Experiments/bash_runner_section2.py:37-68 | Row `i` is `ThreadsList[i]`'s, so rows are in thread order. Row 0 has speedup 1.0 and every later row has first cycles / its cycles. All runs give rows iff nothing raised. |
| ThreadSweep.Issued | TP5/Experiments/bash_runner_section2.py:37-39 | The `j`-th command issued is the gem5 command for `ThreadsList[j]` threads. |
| ThreadSweep.Sweep | TP5/Experiments/bash_runner_section2.py:37-68 | The loop issues one command per run started. It writes exactly the rows of the sweep and ends with its exception, if any. |
| ExtractResults.HeaderRoundTrip | TP5/Experiments/extract_results.py:27-30 | A line `===`, whitespace, `results/stats_o3_w<W>_t<T>_m<M>.txt`, anything, is a header with width W and threads T. |
| ExtractResults.HeaderOfNumbers | TP5/Experiments/extract_results.py:27-30 | A header written from numbers returns those numbers. |
| ExtractResults.HeaderShape | TP5/Experiments/extract_results.py:27 | Every recognised header has that shape, and its numbers are those written in it. |
| ExtractResults.FileNumbersRoundTrip | TP5/Experiments/extract_results.py:27-30 | The file-name part yields its width and thread count. |
| ExtractResults.FileNumbersShape | TP5/Experiments/extract_results.py:27 | Any recognised file name has the form `<W>_t<T>_m<M>.txt…`. |
| ExtractResults.MetricAbsent | TP5/Experiments/extract_results.py:37-50 | A metric whose key is not on the data line is recorded as 0.0. |
| ExtractResults.MetricFound | TP5/Experiments/extract_results.py:37-50 | The leftmost match decides the metric: the float of its captured text, or ValueError when that text is not a float. |
| ExtractResults.MetricWritten | TP5/Experiments/extract_results.py:37-50 | A data line that starts with the key, whitespace and a value records that value. |
| ExtractResults.RecordOf | TP5/Experiments/extract_results.py:36-59 | A record exists iff all four metrics read. It carries the header's width and threads and the four metrics. Otherwise the error is ValueError. |
| ExtractResults.Collect | TP5/Experiments/extract_results.py:22-65 | The index-driven loop computes exactly the scan, for any header matcher and record reader. |
| ExtractResults.Extract | TP5/Experiments/extract_results.py:17-68 | The collected records, sorted. |
| ExtractResults.ScanFromHeaders | TP5/Experiments/extract_results.py:22-65 | Every record comes from a header whose next line exists, with that header's width and threads. |
| ExtractResults.RecordsFromHeaders | TP5/Experiments/extract_results.py:22-65 | The same, for the script's own header matcher and reader. |
| ExtractResults.ScanCount | TP5/Experiments/extract_results.py:52-61 | Each record consumes two lines. |
| ExtractResults.ScanNoHeaders | TP5/Experiments/extract_results.py:62-65 | Lines that are not headers give no records. |
| ExtractResults.RecordsNoHeaders | TP5/Experiments/extract_results.py:62-65 | A listing without headers gives no records. |
| ExtractResults.ScanHeaderAsData | TP5/Experiments/extract_results.py:33-61 | The line after a header is consumed as data even when it is itself a header. |
| ExtractResults.HeaderAsData | TP5/Experiments/extract_results.py:33-61 | The same, for the script's own header matcher and reader. |
| ExtractResults.ScanLastLine | TP5/Experiments/extract_results.py:62-63 | A header on the last line produces nothing. |
| ExtractResults.SortedSpec | TP5/Experiments/extract_results.py:68 | The sort keeps errors, sorts by (width, threads), and is a permutation. Records of one (width, threads) keep their file order. |
| ExtractResults.KeyLeTotal | TP5/Experiments/extract_results.py:68 | The (width, threads) comparison is a total preorder. |
| ExtractResults.ProjectRoundTrip | TP5/Experiments/extract_results.py:72-74 | A record can be read back from its six cells. |
| ExtractResults.Table | TP5/Experiments/extract_results.py:71-74 | The table is the header line followed by one line per record, each of which reads back as that record. |
| InstClasses.NumInstSpec | TP4/extract_inst_class_percentages.py:13-14 | `num_inst` is None iff no position carries `commitStats0.numInsts`, whitespace and digits. Otherwise it is the value of the digits captured at the leftmost such position. It is None when the text does not mention the key. |
| InstClasses.NumInstWritten | TP4/extract_inst_class_percentages.py:13-14 | A text that starts with the key, whitespace and digits gives the value of those digits. |
| InstClasses.FirstWordPrefix | TP4/extract_inst_class_percentages.py:17-18 | A line starting with the prefix has a first token that starts with it. |
| InstClasses.ClassLineNeverRaises | TP4/extract_inst_class_percentages.py:17-19 | Taking `parts[0]` and its text after the first `::`, on a line with the prefix, never raises. |
| InstClasses.ClassLineName | TP4/extract_inst_class_percentages.py:17-19 | Only lines with the prefix contribute. The class name is the first token's text after the prefix. |
| InstClasses.ClassLineOfWords | TP4/extract_inst_class_percentages.py:17-30 | A line read as a sequence of words gives the class read from those words. |
| InstClasses.ClassWordsRoundTrip | TP4/extract_inst_class_percentages.py:18-30 | `<prefix><name> <count>` gives (name, count, no pct). With a third token `<p>%`, the pct is `p`. |
| InstClasses.ClassWordsSkipped | TP4/extract_inst_class_percentages.py:20-23 | A missing or non-integer count skips the line without error. |
| InstClasses.TrimPercent | TP4/extract_inst_class_percentages.py:27 | `rstrip("%")` removes the trailing `%` of a number. |
| InstClasses.FillStep | TP4/extract_inst_class_percentages.py:16-30 | One more line either leaves the classes unchanged or stores its class. |
| InstClasses.FillGet | TP4/extract_inst_class_percentages.py:16-30 | A class is absent iff no line writes it. Otherwise it holds the last line's value, so a later duplicate overwrites an earlier one. |
| InstClasses.FillAbsent | TP4/extract_inst_class_percentages.py:16-30 | A class is absent iff no line writes it. |
| InstClasses.FillLast | TP4/extract_inst_class_percentages.py:16-30 | The last line that writes a class decides its value. |
| InstClasses.FillUnique | TP4/extract_inst_class_percentages.py:30 | Each class appears at most once. |
| InstClasses.Parse | TP4/extract_inst_class_percentages.py:11-31 | The loop returns exactly `num_inst` and the classes filled from the lines. |
| InstClasses.ReadClassLine | TP4/extract_inst_class_percentages.py:17-30 | The loop body reads exactly the line's class, or nothing. |
| InstClasses.ItemsSpec | TP4/extract_inst_class_percentages.py:38-39 | The reported items are exactly the classes with a non-zero count other than `total`, each once. Counts are non-increasing, and classes with equal counts keep dictionary order. |
| InstClasses.CountGeTotal | TP4/extract_inst_class_percentages.py:39 | The descending-count comparison is a total preorder. |
| InstClasses.ShownPctSpec | TP4/extract_inst_class_percentages.py:40-43 | A recorded pct is shown as is. A missing one is count / num_inst × 100 when num_inst is non-zero, and lies in [0, 100] when count ≤ num_inst. Otherwise formatting None raises TypeError. |
| InstClasses.RowsSpec | TP4/extract_inst_class_percentages.py:40-43 | The report succeeds iff every item has a shown pct. Then there is one line per item, in order. |
| InstClasses.RowsStops | TP4/extract_inst_class_percentages.py:40-43 | The first item that raises ends the report. |
| InstClasses.Report | TP4/extract_inst_class_percentages.py:40-43 | The printing loop computes exactly the report of the sorted items. The lines it prints are the rows of the items before the first that raises. |
| InstClasses.ShownSpec | TP4/extract_inst_class_percentages.py:40-43 | The number of printed lines is the position of the first item whose pct cannot be formatted, or the number of items. |
| Strings.SplitWords | TP4/l1_sweep.py:34 | `str.split()` yields non-empty tokens without whitespace. |
| Strings.SplitJoinWords | TP4/extract_inst_class_percentages.py:18 | Splitting words joined by single spaces gives back the words. |
| Strings.StripSpec | TP5/Experiments/extract_results.py:24 | `strip()` leaves no whitespace at either end, and leaves nothing iff the text is all whitespace. |
| Strings.StripAround | TP4/l1_sweep.py:31 | Stripping removes exactly the whitespace around a trimmed text. |
| Strings.SplitOnce | TP4/l1_sweep.py:133 | `split(sep, 1)` splits at the first occurrence of `sep`. Without one, the whole text is kept. |
| Strings.TrimRightChar | TP4/extract_inst_class_percentages.py:27 | `rstrip(c)` removes exactly the trailing run of `c`. |
| Strings.SplitLinesNoBreak | TP4/extract_inst_class_percentages.py:16 | `splitlines()` gives lines without line breaks. |
| Numbers.DigitsValueOfDecimal | TP5/Experiments/extract_results.py:29-30 | `int()` of a decimal numeral gives back the number. |
| Numbers.DigitsParseAsInt | TP4/extract_inst_class_percentages.py:21 | `int()` of digits is their value. |
| Numbers.ParseRealDecimal | TP4/l1_sweep.py:39 | `float()` of `digits.digits` is its decimal value. |
| Dicts.PutSpec | TP4/l1_sweep.py:39 | Assigning a key sets its value and changes no other key. A new key is appended at the end, and an existing key keeps its position. |
| Dicts.GetSpec | TP4/l1_sweep.py:47-48 | `k in d` iff some entry has key `k`, and then `d[k]` is that entry's value. |
| Dicts.FilterKeysSpec | TP5/Experiments/bash_runner_section2.py:45 | A dict comprehension with a key condition keeps exactly the entries whose key passes it, and keeps keys unique. |
| Sorting.SortBySorted | TP5/Experiments/extract_results.py:68 | `list.sort(key=…)` orders by the key. |
| Sorting.SortBy | TP5/Experiments/extract_results.py:68 | The sort is a permutation of its input. |
| Sorting.SortByStable | TP4/extract_inst_class_percentages.py:39 | The sort is stable: elements with equal keys keep their relative order. |
| Patterns.SearchSpec | TP4/extract_inst_class_percentages.py:13 | `re.search` finds nothing iff no position matches the pattern. Otherwise it returns the capture of a match with no match to its left. |
| Patterns.SearchFindsWritten | TP5/Experiments/extract_results.py:37 | The pattern at the start of a text captures the run written after the whitespace. |
| Paths.NameOfJoined | TP4/l1_sweep.py:140 | The name of a path whose text after a `/` is one component (non-empty, not `.`, no `/`) is that component. |
| Paths.NameSkipsDot | TP4/l1_sweep.py:140 | A trailing `/` or `/.` does not change a path's name. |
| Paths.ComponentsAppend | TP4/l1_sweep.py:189 | The components of `a/b` are those of `a` followed by those of `b`. |
| Paths.StemOfSuffixed | TP4/l1_sweep.py:140 | `Path.stem` drops the last suffix. |
| Paths.ComponentsOne | TP4/l1_sweep.py:189 | A single component (non-empty, not `.`, no `/`) is parsed as itself. |
| Paths.JoinedPartsRoundTrip | TP4/l1_sweep.py:189 | Parsing the `/`-joined text of components gives the components back. |
| Paths.PathTextRoundTrip | TP4/l1_sweep.py:189 | `str()` of a path parses back to its components, and it starts with `/` iff the path is rooted. |

## Left out

- Running gem5 is left out.
  - `subprocess.run` in `run_gem5` and in `run_bash` is not modelled.
  - `L1Sweep.RunSweep` takes each run's exit code as a parameter. `check=True` is modelled as raising CalledProcessError on a non-zero code.
  - `ThreadSweep.Sweep` takes the stats dump left after each run as a parameter. The command's output and exit status are ignored, as in the script.
- The filesystem and the environment are left out.
  - File existence is a flag or an `Option`, and files are given as their lines.
  - `mkdir`, `Path.resolve()`, `expanduser()` and the hard-coded root directories are not modelled.
  - `discover_binaries` (`rglob` over `*.riscv`) is not modelled.
  - In `collect_results`, the sorted directory traversal and its `is_dir` checks are an input sequence of run directories.
- Python floats are modelled as exact `real` numbers.
  - IEEE rounding is not modelled.
  - `float()` accepts decimal and exponent notation only. `nan`, `inf`, underscores and non-ASCII digits are not modelled.
  - `int()` and `float()` treat only ASCII digits as digits.
- Numeric output formatting is not modelled: `:.6f`, `:.3f`, `:.2f` and `str(power)`.
  - `EnergyEfficiency.ComputeEfficiency`: the efficiency and `power_mw` columns hold the numbers rather than their formatted text.
  - `ThreadSweep.Sweep`: `speedup` and `ipc_max` are kept unrounded.
- `shlex.split` is an abstract tokenizer parameter. CSV quoting and encoding are not modelled: a table is a sequence of typed cells.
- Not modelled:
  - plotting (`plot_from_csv`, `plot_efficiency`, and the commented-out plotting block of the thread-sweep script);
  - argument parsing and the `main` functions (`TP5/Experiments/plotResult_section2.py` is not part of this model);
  - every `print`;
  - `load_csv`, whose rows are an input.
- The stable in-place `list.sort` is modelled on values, as a stable insertion sort.
- `extract_inst_class_percentages.py` runs its report once per application in a fixed two-entry table. That loop and its file paths are not modelled; `InstClasses.Report` is one application's report.
- `ExtractResults.RecordOf`: a captured metric that `float()` rejects (the sim_seconds pattern accepts text such as `1.2.3`) is modelled as ValueError ending the scan, as the uncaught exception does.
- `ThreadSweep.ParseLinesSimInsts`: holds only when no cycle line's first token is `sim_insts`. `ThreadSweep.SimInstsOverwritten` shows that such a line overrides the first-wins rule, exactly as the script's first branch does.
- `L1Sweep.OutDirInjective` holds only for benchmark names that are one path component: non-empty, not `.`, without `/`. `pathlib` drops empty and `.` components and restarts at a component that starts with `/`; `L1Sweep.OutDirSkipsEmptyBench` and `L1Sweep.OutDirRootedBench` state those collisions.
- `Paths.Join` models `PurePosixPath`: it keeps `..` components and does not give a leading `//` its special POSIX meaning. `Paths.Name` is the last component of `PurePosixPath(p)`, with empty and `.` components skipped; `resolve()`, which would also collapse `..` and make a relative path absolute, is not modelled.
- `EnergyEfficiency.SizeKey`: `isdigit`, `isalpha` and `lower` are modelled on ASCII only. In Python `_size_key("16µB")` gives `(16, "µb")`, while the model drops `µ`; and `_size_key("²kB")` raises ValueError, because `²` is a digit to `isdigit` but not to `int`.
- `\d` in the scripts' regular expressions matches any Unicode decimal digit; `Patterns` matches `[0-9]` only.
- `int("1_000")` is accepted by Python but rejected by `Numbers.ParseInt`. Such a count makes `ThreadSweep.KeyAndCount` raise ValueError, and makes `InstClasses.ClassWords` skip the line.
- gem5 writes `nan` (and `inf`) for some statistics. Python's `float` reads them and `parse_stats` stores them, whereas `L1Sweep.StatLine` skips the line, so the key is absent. `L1Sweep.GetFirst` then resolves a later key or None where Python returns nan, and `L1Sweep.Project` writes a blank cell where Python writes `nan`.
- `L1Sweep.ComputeMetricsEmpty` states only the empty-map case of `compute_metrics`. For any other map, the metrics are stated through `GetFirst` and `MispredRate` with their own lemmas.
- Three behaviours of the code to note:
  - **`get_first`'s suffix tier** scans keys in insertion order, not sorted order. `GetFirstFollowsInsertionOrder` states this.
  - **A failing gem5 run** raises and ends the whole sweep, because of `check=True`. It does not skip to the next run.
  - **A class with no pct** raises TypeError at formatting when `num_inst` is None or 0. It is not printed with a blank pct.
