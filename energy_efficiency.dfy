/**
 * Energy efficiency of an L1 sweep: each result row's IPC divided by the power of the CPU
 * (a fixed table with a default), the sort key of L1 size labels, the CPU named in a benchmark
 * name, and the efficiency table written only when there is something to write.
 */
module EnergyEfficiency {
  import opened Wrappers
  import opened Strings
  import opened Numbers
  import opened Dicts
  import opened Csv
  import opened Seqs

  /** Power drawn at the highest frequency, in mW, by CPU. */
  const PowerConsumption: Dict<real> := [("A7", 100.0), ("A15", 500.0)]

  /** `POWER_CONSUMPTION.get(cpu, 1.0)` */
  function Power(cpu: string): real {
    GetOr(PowerConsumption, cpu, 1.0)
  }

  /** 100 mW for the A7, 500 mW for the A15 and 1 for any other name: always positive. */
  lemma PowerTable(cpu: string)
    ensures Power(cpu) == if cpu == "A7" then 100.0 else if cpu == "A15" then 500.0 else 1.0
    ensures Power(cpu) > 0.0
  {
    IndexOfSpec(PowerConsumption, cpu);
    assert PowerConsumption[0].0 == "A7" && PowerConsumption[1].0 == "A15";
  }

  lemma PowerPositive(cpu: string)
    ensures Power(cpu) > 0.0
  {
    PowerTable(cpu);
  }

  /** A row of the results table as `csv.DictReader` gives it: column name to text. */
  type CsvRow = Dict<string>

  /**
   * The row's IPC as a number: None when the `ipc` column is missing, empty, `None`, or not
   * a number `float` accepts.
   */
  function Ipc(row: CsvRow): Option<real> {
    match Get(row, "ipc")
    case None => None
    case Some(s) => if s == [] || s == "None" then None else ParseReal(s)
  }

  /** One row of the efficiency table. */
  datatype Efficiency = Efficiency(bench: string, l1Size: string, ipc: string, powerMw: real, efficiency: real)

  /**
   * The efficiency row of one result row at the given power, None when the row is dropped: the
   * row's benchmark and L1 size (empty when absent), its IPC text, the power and IPC / power.
   */
  function EfficiencyOf(row: CsvRow, power: real): Option<Efficiency>
    requires power > 0.0
  {
    match Ipc(row)
    case None => None
    case Some(x) =>
      Some(Efficiency(GetOr(row, "bench", ""), GetOr(row, "l1_size", ""), Get(row, "ipc").value, power, x / power))
  }

  /** `EfficiencyOf` at the power of a CPU, as the function applied to each row. */
  function EfficiencyFor(cpu: string): CsvRow -> Option<Efficiency> {
    PowerPositive(cpu);
    var power := Power(cpu);
    row => EfficiencyOf(row, power)
  }

  /**
   * `compute_efficiency(rows, cpu)`: the efficiency row of each row with a usable IPC, in order.
   */
  method ComputeEfficiency(rows: seq<CsvRow>, cpu: string) returns (results: seq<Efficiency>)
    ensures results == FilterMap(EfficiencyFor(cpu), rows)
  {
    PowerTable(cpu);
    var power := GetOr(PowerConsumption, cpu, 1.0);
    results := [];
    for i := 0 to |rows|
      invariant results == FilterMap(EfficiencyFor(cpu), rows[..i])
    {
      var row := rows[i];
      FilterMapStep(EfficiencyFor(cpu), rows, i);
      var ipcStr := Get(row, "ipc");
      if ipcStr.None? || ipcStr.value == [] || ipcStr.value == "None" {
        continue;
      }
      var ipc := ParseReal(ipcStr.value);
      if ipc.None? {
        continue;
      }
      var efficiency := ipc.value / power;
      var result := Efficiency(GetOr(row, "bench", ""), GetOr(row, "l1_size", ""), ipcStr.value, power, efficiency);
      results := results + [result];
    }
    assert rows[..|rows|] == rows;
  }

  /**
   * A row is dropped exactly when its IPC is unusable. A kept row carries the row's own
   * benchmark and L1 size (empty when absent), its `ipc` text and the power, and its efficiency
   * is the number that text states divided by that power.
   */
  lemma EfficiencyOfValues(row: CsvRow, power: real)
    requires power > 0.0
    ensures EfficiencyOf(row, power).Some? <==> Ipc(row).Some?
    ensures EfficiencyOf(row, power).Some? ==>
      var e := EfficiencyOf(row, power).value;
      e.bench == GetOr(row, "bench", "") && e.l1Size == GetOr(row, "l1_size", "") && Get(row, "ipc") == Some(e.ipc)
      && e.powerMw == power && ParseReal(e.ipc).Some? && e.efficiency == ParseReal(e.ipc).value / e.powerMw
  {
    if Ipc(row).Some? {
      IpcText(row);
    }
  }

  /** A usable IPC is what `float` makes of the `ipc` text. */
  lemma IpcText(row: CsvRow)
    requires Ipc(row).Some?
    ensures Get(row, "ipc").Some? && ParseReal(Get(row, "ipc").value) == Ipc(row)
  {
  }

  /** The text `None` is not a number either: the explicit check only names a case `float` rejects. */
  lemma NoneTextIsNotANumber()
    ensures ParseReal("None") == None
  {
    StripNone();
    assert SplitSign("None") == (false, "None");
    UnsignedNone();
  }

  lemma StripNone()
    ensures Strip("None") == "None"
  {
    PrintableNotSpace('N');
    PrintableNotSpace('e');
    StripTrimmed("None");
  }

  lemma UnsignedNone()
    ensures ParseUnsignedReal("None") == None
  {
    RunExact("None", 0, NonExponent, 3);
    assert "None"[..3] == "Non";
    RunExact("Non", 0, AllBut('.'), 3);
    assert !IsDigit("Non"[0]);
  }

  /** Each row with a usable IPC gives exactly one efficiency row, in input order. */
  lemma EfficienciesAllKept(rows: seq<CsvRow>, cpu: string)
    requires forall i | 0 <= i < |rows| :: Ipc(rows[i]).Some?
    ensures |FilterMap(EfficiencyFor(cpu), rows)| == |rows|
    ensures forall i | 0 <= i < |rows| :: FilterMap(EfficiencyFor(cpu), rows)[i] == EfficiencyOf(rows[i], Power(cpu)).value
  {
    PowerPositive(cpu);
    FilterMapAllKept(EfficiencyFor(cpu), rows);
  }

  /** Rows without a usable IPC give nothing. */
  lemma EfficienciesNoneKept(rows: seq<CsvRow>, cpu: string)
    requires forall i | 0 <= i < |rows| :: Ipc(rows[i]).None?
    ensures FilterMap(EfficiencyFor(cpu), rows) == []
  {
    PowerPositive(cpu);
    FilterMapNoneKept(EfficiencyFor(cpu), rows);
  }

  // ---------------------------------------------------------------------------------------
  // Writing the table

  const EfficiencyFieldnames: seq<string> := ["bench", "l1_size", "ipc", "power_mw", "efficiency"]

  /** The cells of one efficiency row in the order of the field names. */
  function EfficiencyCells(e: Efficiency): (cells: seq<Cell>)
    ensures |cells| == |EfficiencyFieldnames|
  {
    [Text(e.bench), Text(e.l1Size), Text(e.ipc), Num(e.powerMw), Num(e.efficiency)]
  }

  /** Reads a line of the efficiency table back. */
  function EfficiencyOfCells(cells: seq<Cell>): Option<Efficiency> {
    if |cells| == 5 && cells[0].Text? && cells[1].Text? && cells[2].Text? && cells[3].Num? && cells[4].Num?
    then Some(Efficiency(cells[0].text, cells[1].text, cells[2].text, cells[3].x, cells[4].x))
    else None
  }

  /** Every field lands in its own column and reads back. */
  lemma EfficiencyCellsRoundTrip(e: Efficiency)
    ensures EfficiencyOfCells(EfficiencyCells(e)) == Some(e)
  {
  }

  /**
   * `write_efficiency_csv(rows, path)`: nothing at all (no file either) for no rows; otherwise
   * the header, then one line per row in order.
   */
  method WriteEfficiencyCsv(rows: seq<Efficiency>) returns (out: Option<seq<seq<Cell>>>)
    ensures out.None? <==> rows == []
    ensures out.Some? ==> |out.value| == |rows| + 1 && out.value[0] == HeaderLine(EfficiencyFieldnames)
    ensures out.Some? ==> forall i | 0 <= i < |rows| :: EfficiencyOfCells(out.value[i + 1]) == Some(rows[i])
  {
    if rows == [] {
      return None;
    }
    var lines := [HeaderLine(EfficiencyFieldnames)];
    for i := 0 to |rows|
      invariant |lines| == i + 1 && lines[0] == HeaderLine(EfficiencyFieldnames)
      invariant forall k | 0 <= k < i :: lines[k + 1] == EfficiencyCells(rows[k])
    {
      lines := lines + [EfficiencyCells(rows[i])];
    }
    forall k | 0 <= k < |rows| ensures EfficiencyOfCells(lines[k + 1]) == Some(rows[k]) {
      EfficiencyCellsRoundTrip(rows[k]);
    }
    out := Some(lines);
  }

  // ---------------------------------------------------------------------------------------
  // Size labels and CPU names

  /**
   * `_size_key(size)`: the number written by all the digits of the label (0 when there are
   * none) and its letters in lower case, so that `16kB` sorts as (16, `kb`).
   */
  function SizeKey(size: string): (r: (nat, string))
    ensures forall i | 0 <= i < |r.1| :: 'a' <= r.1[i] <= 'z'
  {
    var digits := Select(size, IsDigit);
    var unit := Lower(Select(size, IsAlpha));
    var num := if digits != [] then DigitsValue(digits) else 0;
    (num, unit)
  }

  /** A label written as a number and a unit gives back that number and the unit in lower case. */
  lemma SizeKeyOf(n: nat, unit: string)
    requires AllAlpha(unit)
    ensures SizeKey(DecimalString(n) + unit) == (n, Lower(unit))
  {
    var d := DecimalString(n);
    SelectAppend(d, unit, IsDigit);
    SelectAppend(d, unit, IsAlpha);
    SelectAll(d, IsDigit);
    SelectAll(unit, IsAlpha);
    SelectNone(unit, IsDigit);
    SelectNone(d, IsAlpha);
    assert Select(d + unit, IsDigit) == d + [];
    assert Select(d + unit, IsAlpha) == [] + unit;
    assert d + [] == d && [] + unit == unit;
    DigitsValueOfDecimal(n);
  }

  /** A label without digits sorts as size 0. */
  lemma SizeKeyNoDigits(size: string)
    requires forall i | 0 <= i < |size| :: !IsDigit(size[i])
    ensures SizeKey(size).0 == 0
  {
    SelectNone(size, IsDigit);
  }

  /**
   * `_extract_cpu(bench)`: `A7` when the name holds `A7` or `a7`, checked first; otherwise
   * `A15` when it holds `A15` or `a15`; otherwise None.
   */
  function ExtractCpu(bench: string): Option<string> {
    if Contains(bench, "A7") || Contains(bench, "a7") then Some("A7")
    else if Contains(bench, "A15") || Contains(bench, "a15") then Some("A15")
    else None
  }

  /** The three outcomes and exactly when each occurs; a named CPU is one the power table knows. */
  lemma ExtractCpuSpec(bench: string)
    ensures ExtractCpu(bench) == Some("A7") <==> Contains(bench, "A7") || Contains(bench, "a7")
    ensures ExtractCpu(bench) == Some("A15") <==>
      !(Contains(bench, "A7") || Contains(bench, "a7")) && (Contains(bench, "A15") || Contains(bench, "a15"))
    ensures ExtractCpu(bench).None? <==>
      !Contains(bench, "A7") && !Contains(bench, "a7") && !Contains(bench, "A15") && !Contains(bench, "a15")
    ensures ExtractCpu(bench).Some? ==> Power(ExtractCpu(bench).value) > 1.0
  {
    if ExtractCpu(bench).Some? {
      PowerTable(ExtractCpu(bench).value);
    }
  }
}
