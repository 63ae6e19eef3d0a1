/** Models src/common/utils/csv-builder.util.ts: the CSV printer, with the
    quoting of section 2 of RFC 4180. */
module CsvBuilder {
  import opened Wrappers
  import opened Text

  const CRLF := "\r\n"

  /** A value as printed by `String(value)`; None stands for null and undefined. */
  type Value = Option<string>
  type Row = map<string, Value>

  datatype Column = Column(key: string, header: string)

  predicate IsBreak(c: char) { c == '\r' || c == '\n' }

  predicate NeedsQuotes(s: string) {
    exists i :: 0 <= i < |s| && (s[i] == '"' || s[i] == ',' || IsBreak(s[i]))
  }

  /** `s.replace(/"/g, '""')`. */
  function DoubleQuotes(s: string): string {
    if s == "" then ""
    else (if s[0] == '"' then "\"\"" else [s[0]]) + DoubleQuotes(s[1..])
  }

  function Escape(s: string): string {
    if NeedsQuotes(s) then "\"" + DoubleQuotes(s) + "\"" else s
  }

  function EscapeCsvValue(v: Value): string {
    match v
    case None => ""
    case Some(s) => Escape(s)
  }

  function EscapeAll(cells: seq<string>): seq<string> {
    seq(|cells|, i requires 0 <= i < |cells| => Escape(cells[i]))
  }

  function PrintLine(cells: seq<string>): string { Join(EscapeAll(cells), ",") }

  function Headers(columns: seq<Column>): seq<string> {
    seq(|columns|, i requires 0 <= i < |columns| => columns[i].header)
  }

  /** The text of a cell: `row[col.key]`, with nothing printed for null and undefined. */
  function CellText(row: Row, key: string): string {
    if key in row && row[key].Some? then row[key].value else ""
  }

  function RowTexts(row: Row, columns: seq<Column>): seq<string> {
    seq(|columns|, i requires 0 <= i < |columns| => CellText(row, columns[i].key))
  }

  function PrintRows(rows: seq<Row>, columns: seq<Column>): seq<string> {
    seq(|rows|, k requires 0 <= k < |rows| =>
      Join(seq(|columns|, i requires 0 <= i < |columns| =>
        EscapeCsvValue(if columns[i].key in rows[k] then rows[k][columns[i].key] else None)), ","))
  }

  /** The text `buildCsvBuffer` encodes. */
  function BuildCsv(rows: seq<Row>, columns: seq<Column>): string {
    [BOM] + Join([Join(seq(|columns|, i requires 0 <= i < |columns| => Escape(columns[i].header)), ",")]
                 + PrintRows(rows, columns), CRLF)
  }

  /** A row prints as the line of its cell texts. */
  lemma PrintRowsAreLines(rows: seq<Row>, columns: seq<Column>, k: nat)
    requires k < |rows|
    ensures |PrintRows(rows, columns)| == |rows|
    ensures PrintRows(rows, columns)[k] == PrintLine(RowTexts(rows[k], columns))
  {
    assert seq(|columns|, i requires 0 <= i < |columns| =>
        EscapeCsvValue(if columns[i].key in rows[k] then rows[k][columns[i].key] else None))
      == EscapeAll(RowTexts(rows[k], columns));
  }

  lemma BuildCsvIsLines(rows: seq<Row>, columns: seq<Column>)
    ensures BuildCsv(rows, columns) == [BOM] + Join([PrintLine(Headers(columns))] + PrintRows(rows, columns), CRLF)
  {
    assert seq(|columns|, i requires 0 <= i < |columns| => Escape(columns[i].header)) == EscapeAll(Headers(columns));
  }
}
