/** What printing and parsing a table do together. */
module CsvRoundTrip {
  import opened Wrappers
  import opened Text
  import opened CsvBuilder
  import opened SmartFileParser

  // --- One cell, one line ---------------------------------------------------------

  predicate NoBreaks(s: string) { forall i :: 0 <= i < |s| ==> !IsBreak(s[i]) }

  lemma {:induction false} ScanPlain(s: string, rest: string, delimiter: char, current: string)
    requires '"' !in s && delimiter !in s
    ensures Scan(s + rest, delimiter, current, false) == Scan(rest, delimiter, current + s, false)
  {
    if s == "" {
      assert s + rest == rest && current + s == current;
    } else {
      assert (s + rest)[1..] == s[1..] + rest && current + [s[0]] + s[1..] == current + s;
      ScanPlain(s[1..], rest, delimiter, current + [s[0]]);
    }
  }

  lemma {:induction false} ScanQuoted(s: string, rest: string, delimiter: char, current: string)
    requires rest == "" || rest[0] != '"'
    ensures Scan(DoubleQuotes(s) + "\"" + rest, delimiter, current, true) == Scan(rest, delimiter, current + s, false)
  {
    var text := DoubleQuotes(s) + "\"" + rest;
    if s == "" {
      assert text == "\"" + rest && text[1..] == rest && current + s == current;
    } else {
      assert current + [s[0]] + s[1..] == current + s;
      ScanQuoted(s[1..], rest, delimiter, current + [s[0]]);
      var tail := DoubleQuotes(s[1..]) + "\"" + rest;
      if s[0] == '"' {
        assert text == "\"\"" + tail && text[2..] == tail;
      } else {
        assert text == [s[0]] + tail && text[1..] == tail;
      }
    }
  }

  lemma OpenQuote(tail: string, current: string)
    ensures Scan("\"" + tail, ',', current, false) == Scan(tail, ',', current, true)
  {
    assert ("\"" + tail)[1..] == tail;
  }

  /** Scanning a printed cell yields the cell, whatever it holds. */
  lemma ScanEscaped(s: string, rest: string, current: string)
    requires rest == "" || rest[0] != '"'
    ensures Scan(Escape(s) + rest, ',', current, false) == Scan(rest, ',', current + s, false)
  {
    hide DoubleQuotes;
    if NeedsQuotes(s) {
      var tail := DoubleQuotes(s) + "\"" + rest;
      assert Escape(s) + rest == "\"" + tail;
      ScanQuoted(s, rest, ',', current);
      OpenQuote(tail, current);
    } else {
      ScanPlain(s, rest, ',', current);
    }
  }

  /** Scanning a printed line yields its cells, the first behind what had been read before. */
  lemma {:induction false} ScanLine(cells: seq<string>, current: string)
    requires cells != []
    ensures Scan(PrintLine(cells), ',', current, false) == [current + cells[0]] + cells[1..]
  {
    var escaped := EscapeAll(cells);
    if |cells| == 1 {
      assert PrintLine(cells) == Escape(cells[0]) + "";
      ScanEscaped(cells[0], "", current);
    } else {
      assert escaped[1..] == EscapeAll(cells[1..]);
      var rest := "," + PrintLine(cells[1..]);
      assert PrintLine(cells) == Escape(cells[0]) + rest;
      ScanEscaped(cells[0], rest, current);
      assert rest[1..] == PrintLine(cells[1..]);
      ScanLine(cells[1..], "");
      assert "" + cells[1..][0] == cells[1];
      assert [cells[1]] + cells[2..] == cells[1..];
      assert cells[1..][1..] == cells[2..];
    }
  }

  lemma {:induction false} TrimStartPrefix(w: string, s: string)
    requires Blank(w)
    ensures TrimStart(w + s) == TrimStart(s)
  {
    if w == "" {
      assert w + s == s;
    } else {
      assert (w + s)[1..] == w[1..] + s;
      TrimStartPrefix(w[1..], s);
    }
  }

  /** The cells of a printed line are the original cells, trimmed; a leading byte-order mark is dropped. */
  lemma CellsOfPrintedLine(cells: seq<string>, mark: string)
    requires cells != [] && Blank(mark) && '"' !in mark && ',' !in mark
    ensures Cells(mark + PrintLine(cells), ',') == TrimAll(cells)
  {
    ScanPlain(mark, PrintLine(cells), ',', "");
    assert "" + mark == mark;
    ScanLine(cells, mark);
    TrimStartPrefix(mark, cells[0]);
    assert [cells[0]] + cells[1..] == cells;
  }

  // --- Lines -------------------------------------------------------------------------

  lemma {:induction false} SplitLinesAppend(a: string, b: string)
    ensures SplitLines(a + CRLF + b) == SplitLines(a) + SplitLines(b)
    decreases |a|
  {
    var s := a + CRLF + b;
    if a == "" {
      assert s == CRLF + b && s[2..] == b;
      assert SplitLines("") == [""] && SplitLines(s) == [""] + SplitLines(b);
    } else if StartsCrLf(a) {
      assert s[2..] == a[2..] + CRLF + b;
      SplitLinesAppend(a[2..], b);
    } else {
      assert s[1..] == a[1..] + CRLF + b;
      assert s[1] == if |a| > 1 then a[1] else '\r';
      SplitLinesAppend(a[1..], b);
    }
  }

  lemma {:induction false} SplitLinesPlain(a: string)
    requires NoBreaks(a)
    ensures SplitLines(a) == [a]
  {
    if a != "" {
      SplitLinesPlain(a[1..]);
      assert [a[0]] + a[1..] == a;
    }
  }

  lemma {:induction false} NonBlankAppend(x: seq<string>, y: seq<string>)
    ensures NonBlank(x + y) == NonBlank(x) + NonBlank(y)
  {
    if x == [] {
      assert x + y == y;
    } else {
      assert (x + y)[1..] == x[1..] + y;
      NonBlankAppend(x[1..], y);
    }
  }

  function LinesOf(text: string): seq<string> { NonBlank(SplitLines(text)) }

  function LinesOfAll(texts: seq<string>): seq<string> {
    if texts == [] then [] else LinesOf(texts[0]) + LinesOfAll(texts[1..])
  }

  lemma {:induction false} LinesOfJoin(texts: seq<string>)
    requires texts != []
    ensures LinesOf(Join(texts, CRLF)) == LinesOfAll(texts)
  {
    if |texts| == 1 {
      assert LinesOfAll(texts[1..]) == [];
    } else {
      SplitLinesAppend(texts[0], Join(texts[1..], CRLF));
      NonBlankAppend(SplitLines(texts[0]), SplitLines(Join(texts[1..], CRLF)));
      LinesOfJoin(texts[1..]);
    }
  }

  lemma LinesOfPlain(a: string)
    requires NoBreaks(a) && !Blank(a)
    ensures LinesOf(a) == [a]
  {
    SplitLinesPlain(a);
    TrimBlank(a);
    assert NonBlank([a]) == [a] + NonBlank([a][1..]);
  }

  // --- Printed lines are never blank, and break exactly where a cell does ---------------

  lemma {:induction false} EscapeNoBreaks(s: string)
    requires NoBreaks(s)
    ensures NoBreaks(Escape(s)) && NoBreaks(DoubleQuotes(s))
  {
    if s != "" { EscapeNoBreaks(s[1..]); }
  }

  lemma {:induction false} PrintLineNoBreaks(cells: seq<string>)
    requires forall i :: 0 <= i < |cells| ==> NoBreaks(cells[i])
    ensures NoBreaks(PrintLine(cells))
  {
    if cells != [] {
      EscapeNoBreaks(cells[0]);
      assert EscapeAll(cells)[1..] == EscapeAll(cells[1..]);
      PrintLineNoBreaks(cells[1..]);
    }
  }

  lemma PrintLineNotBlank(cells: seq<string>)
    requires |cells| >= 2
    ensures ',' in PrintLine(cells) && !Blank(PrintLine(cells))
  {
    var first := Escape(cells[0]);
    assert PrintLine(cells)[|first|] == ',';
  }

  ghost predicate BreakThenQuote(s: string) {
    exists q, r :: 0 <= q < r < |s| && IsBreak(s[q]) && s[r] == '"'
  }

  ghost predicate QuoteBreakQuote(s: string) {
    exists p, q, r :: 0 <= p < q < r < |s| && s[p] == '"' && IsBreak(s[q]) && s[r] == '"'
  }

  lemma {:induction false} QuoteIsLine(s: string)
    requires '"' in s
    ensures |LinesOf(s)| >= 1
    decreases |s|
  {
    var next := if IsBreak(s[0]) && StartsCrLf(s) then s[2..] else s[1..];
    if s[0] == '"' {
      assert SplitLines(s)[0][0] == '"';
      TrimBlank(SplitLines(s)[0]);
    } else {
      assert '"' in next;
      QuoteIsLine(next);
      if !IsBreak(s[0]) { LongerLine(s[0], SplitLines(next)); }
    }
  }

  lemma LongerLine(c: char, lines: seq<string>)
    requires lines != []
    ensures |NonBlank([[c] + lines[0]] + lines[1..])| >= |NonBlank(lines)|
  {
    TrimBlank(lines[0]);
    TrimBlank([c] + lines[0]);
    if !Blank(lines[0]) {
      var i :| 0 <= i < |lines[0]| && !IsSpace(lines[0][i]);
      assert ([c] + lines[0])[i + 1] == lines[0][i];
    }
    assert ([[c] + lines[0]] + lines[1..])[1..] == lines[1..];
  }

  lemma {:induction false} BreakThenQuoteIsLater(s: string)
    requires BreakThenQuote(s)
    ensures |NonBlank(SplitLines(s)[1..])| >= 1
    decreases |s|
  {
    var q, r :| 0 <= q < r < |s| && IsBreak(s[q]) && s[r] == '"';
    if IsBreak(s[0]) {
      var next := if StartsCrLf(s) then s[2..] else s[1..];
      assert '"' in next by { assert next[r - (|s| - |next|)] == '"'; }
      QuoteIsLine(next);
      assert SplitLines(s)[1..] == SplitLines(next);
    } else {
      assert s[1..][q - 1] == s[q] && s[1..][r - 1] == s[r];
      BreakThenQuoteIsLater(s[1..]);
      assert SplitLines(s)[1..] == SplitLines(s[1..])[1..];
    }
  }

  /** A text with a line break between two quotes falls into at least two lines. */
  lemma {:induction false} QuoteBreakQuoteIsTwoLines(s: string)
    requires QuoteBreakQuote(s)
    ensures |LinesOf(s)| >= 2
    decreases |s|
  {
    hide Trim, SplitLines, LinesOf;
    var p, q, r :| 0 <= p < q < r < |s| && s[p] == '"' && IsBreak(s[q]) && s[r] == '"';
    if p == 0 {
      BreakThenQuoteIsLater(s);
      QuoteFirst(s);
    } else {
      var next := if IsBreak(s[0]) && StartsCrLf(s) then s[2..] else s[1..];
      var d := |s| - |next|;
      assert next[p - d] == s[p] && next[q - d] == s[q] && next[r - d] == s[r];
      QuoteBreakQuoteIsTwoLines(next);
      MoreLines(s, next);
    }
  }

  lemma QuoteFirst(s: string)
    requires s != "" && s[0] == '"'
    ensures |LinesOf(s)| == 1 + |NonBlank(SplitLines(s)[1..])|
  {
    hide Trim;
    var line := SplitLines(s)[0];
    assert line[0] == '"';
    TrimBlank(line);
  }

  lemma MoreLines(s: string, next: string)
    requires s != "" && next == if IsBreak(s[0]) && StartsCrLf(s) then s[2..] else s[1..]
    ensures |LinesOf(s)| >= |LinesOf(next)|
  {
    hide Trim;
    if IsBreak(s[0]) {
      assert SplitLines(s)[1..] == SplitLines(next);
    } else {
      LongerLine(s[0], SplitLines(next));
    }
  }

  lemma {:induction false} DoubleQuotesKeepsBreaks(s: string)
    requires !NoBreaks(s)
    ensures !NoBreaks(DoubleQuotes(s))
  {
    if IsBreak(s[0]) {
      assert DoubleQuotes(s)[0] == s[0];
    } else {
      var i :| 0 <= i < |s| && IsBreak(s[i]);
      assert s[1..][i - 1] == s[i];
      DoubleQuotesKeepsBreaks(s[1..]);
      var rest := DoubleQuotes(s[1..]);
      var j :| 0 <= j < |rest| && IsBreak(rest[j]);
      var d := |DoubleQuotes(s)| - |rest|;
      assert DoubleQuotes(s)[j + d] == rest[j];
    }
  }

  lemma QuotedBreak(s: string, q: nat)
    requires 0 < q < |s| - 1 && s[0] == '"' && IsBreak(s[q]) && s[|s| - 1] == '"'
    ensures QuoteBreakQuote(s)
  {}

  lemma QuoteBreakQuoteInside(a: string, s: string, b: string)
    requires QuoteBreakQuote(s)
    ensures QuoteBreakQuote(a + s + b)
  {
    var p, q, r :| 0 <= p < q < r < |s| && s[p] == '"' && IsBreak(s[q]) && s[r] == '"';
    var t := a + s + b;
    assert t[|a| + p] == s[p] && t[|a| + q] == s[q] && t[|a| + r] == s[r];
  }

  lemma BrokenCellQuoted(s: string)
    requires !NoBreaks(s)
    ensures QuoteBreakQuote(Escape(s))
  {
    hide DoubleQuotes, QuoteBreakQuote;
    DoubleQuotesKeepsBreaks(s);
    var e := Escape(s);
    assert e == "\"" + DoubleQuotes(s) + "\"";
    var j :| 0 <= j < |DoubleQuotes(s)| && IsBreak(DoubleQuotes(s)[j]);
    assert e[0] == '"' && IsBreak(e[j + 1]) && e[|e| - 1] == '"';
    QuotedBreak(e, j + 1);
  }

  lemma PrintLineHead(cells: seq<string>)
    requires cells != []
    ensures PrintLine(cells) == Escape(cells[0]) + if |cells| == 1 then "" else "," + PrintLine(cells[1..])
  {
    hide Escape;
    assert EscapeAll(cells)[1..] == EscapeAll(cells[1..]);
    if |cells| == 1 { assert PrintLine(cells) == Escape(cells[0]) + ""; }
  }

  lemma {:induction false} BrokenCellBreaksLine(cells: seq<string>, i: nat)
    requires i < |cells| && !NoBreaks(cells[i])
    ensures QuoteBreakQuote(PrintLine(cells))
  {
    hide Escape, QuoteBreakQuote, NoBreaks;
    PrintLineHead(cells);
    hide PrintLine;
    var rest := if |cells| == 1 then "" else "," + PrintLine(cells[1..]);
    if i == 0 {
      BrokenCellQuoted(cells[0]);
      assert PrintLine(cells) == "" + Escape(cells[0]) + rest;
      QuoteBreakQuoteInside("", Escape(cells[0]), rest);
    } else {
      BrokenCellBreaksLine(cells[1..], i - 1);
      assert PrintLine(cells) == (Escape(cells[0]) + ",") + PrintLine(cells[1..]) + "";
      QuoteBreakQuoteInside(Escape(cells[0]) + ",", PrintLine(cells[1..]), "");
    }
  }

  // --- The table ---------------------------------------------------------------------------

  /** The headers of a table the parser knows: two or more, on one line, without the other
      delimiters, all known and filling different fields. */
  ghost predicate KnownHeaders(columns: seq<Column>, fields: FieldMap, norm: string -> string) {
    && |columns| >= 2
    && (forall i :: 0 <= i < |columns| ==>
          NoBreaks(columns[i].header) && '\t' !in columns[i].header && ';' !in columns[i].header
          && FieldOf(columns[i], fields, norm) != "")
    && (forall i, j :: 0 <= i < j < |columns| ==>
        FieldOf(columns[i], fields, norm) != FieldOf(columns[j], fields, norm))
  }

  function FieldOf(column: Column, fields: FieldMap, norm: string -> string): string {
    var h := norm(Trim(column.header));
    if h in fields then fields[h] else ""
  }

  ghost predicate UnbrokenRow(row: Row, columns: seq<Column>) {
    forall i :: 0 <= i < |columns| ==> NoBreaks(CellText(row, columns[i].key))
  }

  lemma {:induction false} ScanSingle(s: string, delimiter: char, current: string, inQuotes: bool)
    requires delimiter !in s
    ensures |Scan(s, delimiter, current, inQuotes)| == 1
    decreases |s|
  {
    if s != "" {
      if inQuotes && s[0] == '"' && |s| > 1 && s[1] == '"' {
        ScanSingle(s[2..], delimiter, current + "\"", true);
      } else if s[0] == '"' {
        ScanSingle(s[1..], delimiter, current, !inQuotes);
      } else {
        ScanSingle(s[1..], delimiter, current + [s[0]], inQuotes);
      }
    }
  }

  lemma {:induction false} KnownOnlyAtMost(cells: seq<string>, fields: FieldMap)
    ensures |KnownOnly(cells, fields)| <= |cells|
  {
    if cells != [] { KnownOnlyAtMost(cells[1..], fields); }
  }

  lemma {:induction false} KnownOnlyAll(cells: seq<string>, fields: FieldMap)
    requires forall i :: 0 <= i < |cells| ==> Known(fields, cells[i])
    ensures KnownOnly(cells, fields) == cells
  {
    if cells != [] {
      KnownOnlyAll(cells[1..], fields);
      assert [cells[0]] + cells[1..] == cells;
    }
  }

  lemma {:induction false} DoubleQuotesMembers(s: string, c: char)
    requires c !in s && c != '"'
    ensures c !in DoubleQuotes(s)
  {
    if s != "" { DoubleQuotesMembers(s[1..], c); }
  }

  lemma {:induction false} PrintLineWithout(cells: seq<string>, c: char)
    requires c != ',' && c != '"' && forall i :: 0 <= i < |cells| ==> c !in cells[i]
    ensures c !in PrintLine(cells)
  {
    if cells != [] {
      DoubleQuotesMembers(cells[0], c);
      assert EscapeAll(cells)[1..] == EscapeAll(cells[1..]);
      PrintLineWithout(cells[1..], c);
    }
  }

  function HeaderLine(columns: seq<Column>): string { [BOM] + PrintLine(Headers(columns)) }

  /** The parser picks the comma, and reads the headers back. */
  lemma CommaWins(columns: seq<Column>, fields: FieldMap, norm: string -> string)
    requires KnownHeaders(columns, fields, norm)
    ensures Cells(HeaderLine(columns), ',') == TrimAll(Headers(columns))
    ensures KnownOnly(NormalizeAll(TrimAll(Headers(columns)), norm), fields)
      == NormalizeAll(TrimAll(Headers(columns)), norm)
    ensures BestDelimiter(HeaderLine(columns), fields, norm) == ','
  {
    hide PrintLine, IsBest;
    var headers := Headers(columns);
    CellsOfPrintedLine(headers, [BOM]);
    KnownOnlyAll(NormalizeAll(TrimAll(headers), norm), fields);
    PrintLineWithout(headers, '\t');
    PrintLineWithout(headers, ';');
    forall d | d == '\t' || d == ';' ensures Score(HeaderLine(columns), d, fields, norm) <= 1 {
      ScanSingle(HeaderLine(columns), d, "", false);
      KnownOnlyAtMost(NormalizeAll(Cells(HeaderLine(columns), d), norm), fields);
    }
    assert Score(HeaderLine(columns), ',', fields, norm) == |columns|;
  }

  lemma HeaderLineIsLine(columns: seq<Column>, fields: FieldMap, norm: string -> string)
    requires KnownHeaders(columns, fields, norm)
    ensures LinesOf(HeaderLine(columns)) == [HeaderLine(columns)]
  {
    PrintLineNoBreaks(Headers(columns));
    PrintLineNotBlank(Headers(columns));
    var i :| 0 <= i < |PrintLine(Headers(columns))| && !IsSpace(PrintLine(Headers(columns))[i]);
    assert HeaderLine(columns)[i + 1] == PrintLine(Headers(columns))[i];
    LinesOfPlain(HeaderLine(columns));
  }

  function DataLines(rows: seq<Row>, columns: seq<Column>): seq<string> { LinesOfAll(PrintRows(rows, columns)) }

  lemma PrintedLines(rows: seq<Row>, columns: seq<Column>, fields: FieldMap, norm: string -> string)
    requires KnownHeaders(columns, fields, norm)
    ensures LinesOf(BuildCsv(rows, columns)) == [HeaderLine(columns)] + DataLines(rows, columns)
  {
    hide KnownHeaders, PrintLine, LinesOf;
    BuildCsvIsLines(rows, columns);
    var texts := [HeaderLine(columns)] + PrintRows(rows, columns);
    assert BuildCsv(rows, columns) == Join(texts, CRLF) by {
      var lines := [PrintLine(Headers(columns))] + PrintRows(rows, columns);
      assert lines[1..] == texts[1..];
    }
    LinesOfJoin(texts);
    HeaderLineIsLine(columns, fields, norm);
    assert texts[1..] == PrintRows(rows, columns);
  }

  lemma RowLines(row: Row, columns: seq<Column>)
    requires |columns| >= 2
    ensures UnbrokenRow(row, columns) ==>
      LinesOf(PrintLine(RowTexts(row, columns))) == [PrintLine(RowTexts(row, columns))]
    ensures !UnbrokenRow(row, columns) ==> |LinesOf(PrintLine(RowTexts(row, columns)))| >= 2
  {
    hide PrintLine, LinesOf;
    var cells := RowTexts(row, columns);
    if UnbrokenRow(row, columns) {
      PrintLineNoBreaks(cells);
      PrintLineNotBlank(cells);
      LinesOfPlain(PrintLine(cells));
    } else {
      var i :| 0 <= i < |columns| && !NoBreaks(CellText(row, columns[i].key));
      BrokenCellBreaksLine(cells, i);
      QuoteBreakQuoteIsTwoLines(PrintLine(cells));
    }
  }

  /** The parser sees one data line per row exactly when no cell holds a line break. */
  lemma {:induction false} DataLineCount(rows: seq<Row>, columns: seq<Column>)
    requires |columns| >= 2
    ensures |DataLines(rows, columns)| >= |rows|
    ensures (forall k :: 0 <= k < |rows| ==> UnbrokenRow(rows[k], columns)) ==>
      DataLines(rows, columns) == PrintRows(rows, columns)
    ensures |DataLines(rows, columns)| == |rows| ==> forall k :: 0 <= k < |rows| ==> UnbrokenRow(rows[k], columns)
  {
    hide PrintLine, LinesOf, UnbrokenRow;
    if rows == [] {
      assert PrintRows(rows, columns) == [];
    } else {
      var printed := PrintRows(rows, columns);
      assert printed[1..] == PrintRows(rows[1..], columns);
      PrintRowsAreLines(rows, columns, 0);
      RowLines(rows[0], columns);
      DataLineCount(rows[1..], columns);
      assert DataLines(rows, columns) == LinesOf(printed[0]) + DataLines(rows[1..], columns);
      assert [printed[0]] + printed[1..] == printed;
    }
  }

  // --- The round trip ----------------------------------------------------------------------

  function KnownFields(columns: seq<Column>, fields: FieldMap, norm: string -> string): seq<Option<string>> {
    seq(|columns|, i requires 0 <= i < |columns| => Some(FieldOf(columns[i], fields, norm)))
  }

  lemma ColumnsFound(columns: seq<Column>, fields: FieldMap, norm: string -> string)
    requires KnownHeaders(columns, fields, norm)
    ensures FieldsByColumn(NormalizeAll(TrimAll(Headers(columns)), norm), fields) == KnownFields(columns, fields, norm)
  {}

  /** A record holds exactly the first `n` cells, trimmed, under the fields of their columns. */
  ghost predicate RecordHolds(record: map<string, string>, cells: seq<string>, n: nat, columns: seq<Column>,
                              fields: FieldMap, norm: string -> string)
    requires n <= |columns| == |cells|
  {
    && (forall i :: 0 <= i < n ==>
          FieldOf(columns[i], fields, norm) in record && record[FieldOf(columns[i], fields, norm)] == Trim(cells[i]))
    && (forall f :: f in record ==> exists i :: 0 <= i < n && f == FieldOf(columns[i], fields, norm))
  }

  lemma {:induction false} RecordOfCells(columns: seq<Column>, cells: seq<string>, n: nat, fields: FieldMap,
                                         norm: string -> string)
    requires n <= |columns| == |cells|
    requires forall i, j :: 0 <= i < j < |columns| ==>
      FieldOf(columns[i], fields, norm) != FieldOf(columns[j], fields, norm)
    ensures RecordHolds(Record(KnownFields(columns, fields, norm), TrimAll(cells), n), cells, n, columns, fields, norm)
  {
    hide Trim, FieldOf, RecordHolds;
    var record := Record(KnownFields(columns, fields, norm), TrimAll(cells), n);
    if n == 0 {
      HoldsNothing(record, cells, columns, fields, norm);
    } else {
      var before := Record(KnownFields(columns, fields, norm), TrimAll(cells), n - 1);
      RecordOfCells(columns, cells, n - 1, fields, norm);
      TrimTwice(cells[n - 1]);
      assert record == before[FieldOf(columns[n - 1], fields, norm) := Trim(cells[n - 1])];
      hide Record, KnownFields, TrimAll;
      HoldsOneMore(before, record, cells, n, columns, fields, norm);
    }
  }

  lemma HoldsNothing(record: map<string, string>, cells: seq<string>, columns: seq<Column>, fields: FieldMap,
                     norm: string -> string)
    requires |columns| == |cells| && record == map[]
    ensures RecordHolds(record, cells, 0, columns, fields, norm)
  {}

  lemma HoldsOneMore(before: map<string, string>, record: map<string, string>, cells: seq<string>, n: nat,
                     columns: seq<Column>, fields: FieldMap, norm: string -> string)
    requires 0 < n <= |columns| == |cells| && RecordHolds(before, cells, n - 1, columns, fields, norm)
    requires record == before[FieldOf(columns[n - 1], fields, norm) := Trim(cells[n - 1])]
    requires forall i, j :: 0 <= i < j < |columns| ==>
      FieldOf(columns[i], fields, norm) != FieldOf(columns[j], fields, norm)
    ensures RecordHolds(record, cells, n, columns, fields, norm)
  {
    hide Trim, FieldOf;
    forall f | f in record ensures exists i :: 0 <= i < n && f == FieldOf(columns[i], fields, norm) {
      if f != FieldOf(columns[n - 1], fields, norm) { assert f in before; }
    }
  }

  /** Whatever the cells hold, the outcome has a row per data line; too high a minimum is the only error. */
  lemma ParsedTable(rows: seq<Row>, columns: seq<Column>, fields: FieldMap, norm: string -> string, minimum: int)
    requires KnownHeaders(columns, fields, norm)
    ensures ParsedCsv(BuildCsv(rows, columns), fields, norm, minimum) ==
      if |columns| < minimum then Err(TooFewColumns(|columns|, minimum))
      else Ok(Parsed(RowsOf(KnownFields(columns, fields, norm), CellsOfAll(DataLines(rows, columns), ',')),
                     NormalizeAll(TrimAll(Headers(columns)), norm), |columns|))
  {
    hide KnownHeaders, BestDelimiter, IsBest, Cells, RowsOf, KnownOnly, FieldsByColumn;
    PrintedLines(rows, columns, fields, norm);
    CommaWins(columns, fields, norm);
    ColumnsFound(columns, fields, norm);
    var lines := LinesOf(BuildCsv(rows, columns));
    assert lines[0] == HeaderLine(columns) && lines[1..] == DataLines(rows, columns);
  }

  /** Parsing a printed table gives the rows back, every cell trimmed, in order and numbered from 2. */
  lemma RoundTrip(rows: seq<Row>, columns: seq<Column>, fields: FieldMap, norm: string -> string, minimum: int)
    requires KnownHeaders(columns, fields, norm) && minimum <= |columns|
    requires forall k :: 0 <= k < |rows| ==> UnbrokenRow(rows[k], columns)
    ensures var r := ParsedCsv(BuildCsv(rows, columns), fields, norm, minimum);
      && r.Ok? && |r.value.rows| == |rows| && r.value.totalColumns == |columns|
      && r.value.recognizedColumns == NormalizeAll(TrimAll(Headers(columns)), norm)
      && forall k :: 0 <= k < |rows| ==>
           r.value.rows[k].rowNumber == k + 2
           && RecordHolds(r.value.rows[k].fields, RowTexts(rows[k], columns), |columns|, columns, fields, norm)
  {
    hide PrintLine, UnbrokenRow, LinesOfAll, Cells, ParsedCsv, BuildCsv, RecordHolds, Record;
    ParsedTable(rows, columns, fields, norm, minimum);
    DataLineCount(rows, columns);
    var r := ParsedCsv(BuildCsv(rows, columns), fields, norm, minimum);
    forall k | 0 <= k < |rows|
      ensures RecordHolds(r.value.rows[k].fields, RowTexts(rows[k], columns), |columns|, columns, fields, norm)
    {
      var cells := RowTexts(rows[k], columns);
      PrintRowsAreLines(rows, columns, k);
      CellsOfPrintedLine(cells, "");
      assert "" + PrintLine(cells) == PrintLine(cells);
      RecordOfCells(columns, cells, |columns|, fields, norm);
    }
  }

  /** The rows come back unchanged. */
  ghost predicate Unchanged(r: Result<Parsed, ParseError>, rows: seq<Row>, columns: seq<Column>, fields: FieldMap,
                            norm: string -> string)
  {
    r.Ok? && |r.value.rows| == |rows| &&
    forall k, i :: 0 <= k < |rows| && 0 <= i < |columns| ==>
      var f := FieldOf(columns[i], fields, norm);
      f in r.value.rows[k].fields && r.value.rows[k].fields[f] == CellText(rows[k], columns[i].key)
  }

  /** A cell the format carries: without line breaks and without outer white space. */
  predicate Plain(s: string) { NoBreaks(s) && Trim(s) == s }

  /** Printing and parsing is the identity exactly on tables of plain cells. */
  lemma RoundTripExactly(rows: seq<Row>, columns: seq<Column>, fields: FieldMap, norm: string -> string, minimum: int)
    requires KnownHeaders(columns, fields, norm) && minimum <= |columns|
    ensures Unchanged(ParsedCsv(BuildCsv(rows, columns), fields, norm, minimum), rows, columns, fields, norm)
      <==> forall k, i :: 0 <= k < |rows| && 0 <= i < |columns| ==> Plain(CellText(rows[k], columns[i].key))
  {
    hide ParsedCsv, BuildCsv, CellText, KnownHeaders, NoBreaks, DataLines;
    var r := ParsedCsv(BuildCsv(rows, columns), fields, norm, minimum);
    if forall k :: 0 <= k < |rows| ==> UnbrokenRow(rows[k], columns) {
      RoundTrip(rows, columns, fields, norm, minimum);
      forall k, i | 0 <= k < |rows| && 0 <= i < |columns|
        ensures var f := FieldOf(columns[i], fields, norm);
                f in r.value.rows[k].fields && r.value.rows[k].fields[f] == Trim(CellText(rows[k], columns[i].key))
      {
        assert RowTexts(rows[k], columns)[i] == CellText(rows[k], columns[i].key);
      }
    } else {
      ParsedTable(rows, columns, fields, norm, minimum);
      assert |columns| >= 2 by { TwoColumns(columns, fields, norm); }
      DataLineCount(rows, columns);
      assert |r.value.rows| == |DataLines(rows, columns)| != |rows|;
    }
  }

  lemma TwoColumns(columns: seq<Column>, fields: FieldMap, norm: string -> string)
    requires KnownHeaders(columns, fields, norm)
    ensures |columns| >= 2
  {}
}
