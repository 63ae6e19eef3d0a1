/** Models the delimited-text half of src/common/utils/smart-file-parser.util.ts. */
module SmartFileParser {
  import opened Wrappers
  import opened Text
  import opened CsvBuilder

  datatype ParseError =
    | EmptyFile
    | TooFewColumns(recognized: nat, minimum: int)

  datatype ParsedRow = ParsedRow(rowNumber: nat, fields: map<string, string>)

  datatype Parsed = Parsed(rows: seq<ParsedRow>, recognizedColumns: seq<string>, totalColumns: nat)

  /** The known headers, normalized, with the field each one fills. */
  type FieldMap = map<string, string>

  predicate Known(fields: FieldMap, header: string) { header in fields && fields[header] != "" }

  // --- Cells of a line --------------------------------------------------------

  /** The cells of the rest of a line, given the cell begun and whether quotes are open. */
  function Scan(rest: string, delimiter: char, current: string, inQuotes: bool): (cells: seq<string>)
    ensures cells != []
    decreases |rest|
  {
    if rest == "" then [current]
    else if inQuotes then
      if rest[0] != '"' then Scan(rest[1..], delimiter, current + [rest[0]], true)
      else if |rest| > 1 && rest[1] == '"' then Scan(rest[2..], delimiter, current + "\"", true)
      else Scan(rest[1..], delimiter, current, false)
    else if rest[0] == '"' then Scan(rest[1..], delimiter, current, true)
    else if rest[0] == delimiter then [current] + Scan(rest[1..], delimiter, "", false)
    else Scan(rest[1..], delimiter, current + [rest[0]], false)
  }

  function TrimAll(cells: seq<string>): seq<string> {
    seq(|cells|, i requires 0 <= i < |cells| => Trim(cells[i]))
  }

  function Cells(line: string, delimiter: char): seq<string> {
    TrimAll(Scan(line, delimiter, "", false))
  }

  method SplitDelimitedLine(line: string, delimiter: char) returns (cells: seq<string>)
    ensures cells == Cells(line, delimiter)
  {
    var result: seq<string> := [];
    var current, inQuotes := "", false;
    var i := 0;
    while i < |line|
      invariant 0 <= i <= |line|
      invariant Scan(line, delimiter, "", false) == result + Scan(line[i..], delimiter, current, inQuotes)
    {
      var c := line[i];
      assert line[i..][1..] == line[i + 1..];
      if inQuotes {
        if c == '"' {
          if i + 1 < |line| && line[i + 1] == '"' {
            assert line[i..][2..] == line[i + 2..];
            current := current + "\"";
            i := i + 1;
          } else {
            inQuotes := false;
          }
        } else {
          current := current + [c];
        }
      } else if c == '"' {
        inQuotes := true;
      } else if c == delimiter {
        result := result + [current];
        current := "";
      } else {
        current := current + [c];
      }
      i := i + 1;
    }
    result := result + [current];
    cells := TrimAll(result);
  }

  // --- The delimiter ------------------------------------------------------------

  function NormalizeAll(cells: seq<string>, norm: string -> string): seq<string> {
    seq(|cells|, i requires 0 <= i < |cells| => norm(cells[i]))
  }

  function KnownOnly(cells: seq<string>, fields: FieldMap): seq<string> {
    if cells == [] then []
    else (if Known(fields, cells[0]) then [cells[0]] else []) + KnownOnly(cells[1..], fields)
  }

  /** How many headers a delimiter recognizes. */
  function Score(headerLine: string, delimiter: char, fields: FieldMap, norm: string -> string): nat {
    |KnownOnly(NormalizeAll(Cells(headerLine, delimiter), norm), fields)|
  }

  const CANDIDATES: seq<char> := ['\t', ';', ',']

  /** The first candidate that no candidate beats. */
  ghost predicate IsBest(d: char, headerLine: string, fields: FieldMap, norm: string -> string) {
    exists k :: 0 <= k < |CANDIDATES| && d == CANDIDATES[k]
      && (forall j :: 0 <= j < |CANDIDATES| ==>
          Score(headerLine, CANDIDATES[j], fields, norm) <= Score(headerLine, d, fields, norm))
      && (forall j :: 0 <= j < k ==>
          Score(headerLine, CANDIDATES[j], fields, norm) < Score(headerLine, d, fields, norm))
  }

  function BestDelimiter(headerLine: string, fields: FieldMap, norm: string -> string): (d: char)
    ensures IsBest(d, headerLine, fields, norm)
  {
    hide Score;
    var tab := Score(headerLine, '\t', fields, norm);
    var semicolon := Score(headerLine, ';', fields, norm);
    var comma := Score(headerLine, ',', fields, norm);
    if tab >= semicolon && tab >= comma then assert CANDIDATES[0] == '\t'; '\t'
    else if semicolon >= comma then assert CANDIDATES[1] == ';'; ';'
    else assert CANDIDATES[2] == ','; ','
  }

  lemma BestIsUnique(d: char, e: char, headerLine: string, fields: FieldMap, norm: string -> string)
    requires IsBest(d, headerLine, fields, norm) && IsBest(e, headerLine, fields, norm)
    ensures d == e
  {}

  method DetectDelimiter(headerLine: string, fields: FieldMap, norm: string -> string) returns (best: char)
    ensures IsBest(best, headerLine, fields, norm)
  {
    var bestScore: int := -1;
    best := ',';
    ghost var at := -1;
    for k := 0 to |CANDIDATES|
      invariant k == 0 ==> bestScore == -1
      invariant k > 0 ==> 0 <= at < k && best == CANDIDATES[at] && bestScore == Score(headerLine, best, fields, norm)
      invariant forall j :: 0 <= j < k ==> Score(headerLine, CANDIDATES[j], fields, norm) <= bestScore
      invariant at < k
      invariant forall j :: 0 <= j < at ==> Score(headerLine, CANDIDATES[j], fields, norm) < bestScore
    {
      var cells := SplitDelimitedLine(headerLine, CANDIDATES[k]);
      var score := |KnownOnly(NormalizeAll(cells, norm), fields)|;
      if score > bestScore {
        best, bestScore := CANDIDATES[k], score;
        at := k;
      }
    }
  }

  // --- Rows ------------------------------------------------------------------------

  function FieldsByColumn(headers: seq<string>, fields: FieldMap): seq<Option<string>> {
    seq(|headers|, i requires 0 <= i < |headers| =>
      if Known(fields, headers[i]) then Some(fields[headers[i]]) else None)
  }

  /** The record of the first `n` columns of a data line. */
  function Record(columns: seq<Option<string>>, cells: seq<string>, n: nat): map<string, string>
    requires n <= |columns|
  {
    if n == 0 then map[]
    else
      var before := Record(columns, cells, n - 1);
      match columns[n - 1]
      case None => before
      case Some(field) => before[field := Trim(if n - 1 < |cells| then cells[n - 1] else "")]
  }

  function RowsOf(columns: seq<Option<string>>, dataRows: seq<seq<string>>): seq<ParsedRow> {
    seq(|dataRows|, k requires 0 <= k < |dataRows| => ParsedRow(k + 2, Record(columns, dataRows[k], |columns|)))
  }

  function MappedRows(headerCells: seq<string>, dataRows: seq<seq<string>>, fields: FieldMap, norm: string -> string,
                      minimum: int): Result<Parsed, ParseError>
  {
    var headers := NormalizeAll(headerCells, norm);
    var recognized := KnownOnly(headers, fields);
    if |recognized| < minimum then Err(TooFewColumns(|recognized|, minimum))
    else Ok(Parsed(RowsOf(FieldsByColumn(headers, fields), dataRows), recognized, |headerCells|))
  }

  method MapCellsToRows(headerCells: seq<string>, dataRows: seq<seq<string>>, fields: FieldMap,
                        norm: string -> string, minimum: int) returns (r: Result<Parsed, ParseError>)
    ensures r == MappedRows(headerCells, dataRows, fields, norm, minimum)
  {
    hide KnownOnly, Known, Trim;
    var headers := NormalizeAll(headerCells, norm);
    var columns := FieldsByColumn(headers, fields);
    var recognized := KnownOnly(headers, fields);
    if |recognized| < minimum {
      return Err(TooFewColumns(|recognized|, minimum));
    }
    hide FieldsByColumn, NormalizeAll;
    var rows: seq<ParsedRow> := [];
    for index := 0 to |dataRows|
      invariant rows == RowsOf(columns, dataRows[..index])
    {
      var cells := dataRows[index];
      var row: map<string, string> := map[];
      for column := 0 to |columns|
        invariant row == Record(columns, cells, column)
      {
        if columns[column].Some? {
          row := row[columns[column].value := Trim(if column < |cells| then cells[column] else "")];
        }
      }
      rows := rows + [ParsedRow(index + 2, row)];
    }
    assert dataRows[..|dataRows|] == dataRows;
    r := Ok(Parsed(rows, recognized, |headerCells|));
  }

  // --- Lines and the whole file -------------------------------------------------------

  predicate StartsCrLf(s: string) { |s| >= 2 && s[0] == '\r' && s[1] == '\n' }

  /** `content.split(/\r\n|\r|\n/)`. */
  function SplitLines(s: string): (lines: seq<string>)
    ensures lines != []
  {
    if s == "" then [""]
    else if IsBreak(s[0]) then
      [""] + SplitLines(if StartsCrLf(s) then s[2..] else s[1..])
    else
      var rest := SplitLines(s[1..]);
      [[s[0]] + rest[0]] + rest[1..]
  }

  function NonBlank(lines: seq<string>): seq<string> {
    if lines == [] then []
    else (if |Trim(lines[0])| > 0 then [lines[0]] else []) + NonBlank(lines[1..])
  }

  function CellsOfAll(lines: seq<string>, delimiter: char): seq<seq<string>> {
    seq(|lines|, k requires 0 <= k < |lines| => Cells(lines[k], delimiter))
  }

  function ParsedCsv(content: string, fields: FieldMap, norm: string -> string, minimum: int)
    : Result<Parsed, ParseError>
  {
    var lines := NonBlank(SplitLines(content));
    if lines == [] then Err(EmptyFile)
    else
      var delimiter := BestDelimiter(lines[0], fields, norm);
      MappedRows(Cells(lines[0], delimiter), CellsOfAll(lines[1..], delimiter), fields, norm, minimum)
  }

  method SplitEach(lines: seq<string>, delimiter: char) returns (dataRows: seq<seq<string>>)
    ensures dataRows == CellsOfAll(lines, delimiter)
  {
    dataRows := [];
    for k := 0 to |lines|
      invariant dataRows == CellsOfAll(lines[..k], delimiter)
    {
      var cells := SplitDelimitedLine(lines[k], delimiter);
      dataRows := dataRows + [cells];
    }
    assert lines[..|lines|] == lines;
  }

  method ParseSmartCsv(content: string, fields: FieldMap, norm: string -> string, minimum: int)
    returns (r: Result<Parsed, ParseError>)
    ensures r == ParsedCsv(content, fields, norm, minimum)
  {
    hide IsBest, Cells, MappedRows, CellsOfAll;
    var lines := NonBlank(SplitLines(content));
    if lines == [] {
      return Err(EmptyFile);
    }
    var delimiter := DetectDelimiter(lines[0], fields, norm);
    BestIsUnique(delimiter, BestDelimiter(lines[0], fields, norm), lines[0], fields, norm);
    var headerCells := SplitDelimitedLine(lines[0], delimiter);
    var dataRows := SplitEach(lines[1..], delimiter);
    r := MapCellsToRows(headerCells, dataRows, fields, norm, minimum);
  }
}
