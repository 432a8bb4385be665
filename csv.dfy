/**
 * What `csv.DictWriter` writes, up to quoting and number formatting: a header line of the
 * field names, then one line of cells per row.
 */
module Csv {

  /** A CSV cell: text, a number, or empty (what `csv` writes for None). */
  datatype Cell = Text(text: string) | Num(x: real) | Blank

  /** The header line: one text cell per field name. */
  function HeaderLine(names: seq<string>): (cells: seq<Cell>)
    ensures |cells| == |names|
  {
    seq(|names|, i requires 0 <= i < |names| => Text(names[i]))
  }
}
