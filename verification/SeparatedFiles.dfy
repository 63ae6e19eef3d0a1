/** Reading a file written by someone else with any of the three separators, by
    src/common/utils/smart-file-parser.util.ts. */
module SeparatedFiles {
  import opened Wrappers
  import opened Text
  import opened CsvBuilder
  import opened SmartFileParser
  import opened CsvRoundTrip

  predicate IsSeparator(d: char) { d == '\t' || d == ';' || d == ',' }

  predicate IsLineBreak(brk: string) { brk == "\r\n" || brk == "\n" || brk == "\r" }

  /** The headers of such a file: two or more that are known, fill different fields and hold no quote, no break and
      none of the three separators, not all of them blank. */
  ghost predicate PlainHeaders(columns: seq<Column>, fields: FieldMap, norm: string -> string) {
    && KnownHeaders(columns, fields, norm)
    && (forall i :: 0 <= i < |columns| ==> '"' !in columns[i].header && ',' !in columns[i].header)
    && (exists i :: 0 <= i < |columns| && !Blank(columns[i].header))
  }

  function Separated(cells: seq<string>, d: char): string { Join(cells, [d]) }

  // --- One line ------------------------------------------------------------------------

  ghost predicate Carries(cells: seq<string>, d: char) {
    forall i :: 0 <= i < |cells| ==> NoBreaks(cells[i]) && '"' !in cells[i] && d !in cells[i]
  }

  lemma {:induction false} ScanSeparated(cells: seq<string>, d: char, current: string)
    requires cells != [] && d != '"' && Carries(cells, d)
    ensures Scan(Separated(cells, d), d, current, false) == [current + cells[0]] + cells[1..]
  {
    if |cells| == 1 {
      ScanPlain(cells[0], "", d, current);
      assert cells[0] + "" == cells[0];
    } else {
      var rest := Separated(cells[1..], d);
      assert Separated(cells, d) == cells[0] + ([d] + rest);
      ScanPlain(cells[0], [d] + rest, d, current);
      assert ([d] + rest)[1..] == rest;
      ScanSeparated(cells[1..], d, "");
      assert "" + cells[1] == cells[1] && [cells[1]] + cells[1..][1..] == cells[1..];
    }
  }

  lemma CellsSeparated(cells: seq<string>, d: char)
    requires cells != [] && d != '"' && Carries(cells, d)
    ensures Cells(Separated(cells, d), d) == TrimAll(cells)
  {
    ScanSeparated(cells, d, "");
    assert "" + cells[0] == cells[0] && [cells[0]] + cells[1..] == cells;
  }

  lemma {:induction false} SeparatedWithout(cells: seq<string>, d: char, c: char)
    requires c != d && forall i :: 0 <= i < |cells| ==> c !in cells[i]
    ensures c !in Separated(cells, d)
  {
    if |cells| > 1 { SeparatedWithout(cells[1..], d, c); }
  }

  lemma {:induction false} SeparatedNoBreaks(cells: seq<string>, d: char)
    requires IsSeparator(d) && forall i :: 0 <= i < |cells| ==> NoBreaks(cells[i])
    ensures NoBreaks(Separated(cells, d))
  {
    if |cells| > 1 { SeparatedNoBreaks(cells[1..], d); }
  }

  lemma BlankAppend(a: string, b: string)
    ensures Blank(a + b) <==> Blank(a) && Blank(b)
  {
    if Blank(a + b) {
      forall i | 0 <= i < |a| ensures IsSpace(a[i]) { assert (a + b)[i] == a[i]; }
      forall i | 0 <= i < |b| ensures IsSpace(b[i]) { assert (a + b)[|a| + i] == b[i]; }
    }
  }

  ghost predicate AllBlank(cells: seq<string>) { forall i :: 0 <= i < |cells| ==> Blank(cells[i]) }

  /** A line of two or more cells is blank exactly when they all are and tabs are between them. */
  lemma {:induction false} SeparatedBlank(cells: seq<string>, d: char)
    requires |cells| >= 1 && IsSeparator(d)
    ensures Blank(Separated(cells, d)) <==> AllBlank(cells) && (|cells| > 1 ==> d == '\t')
  {
    hide Blank;
    if |cells| > 1 {
      SeparatedBlank(cells[1..], d);
      BlankAppend(cells[0] + [d], Separated(cells[1..], d));
      BlankAppend(cells[0], [d]);
      BlankChar(d);
      assert AllBlank(cells) <==> Blank(cells[0]) && AllBlank(cells[1..]);
    }
  }

  lemma BlankChar(d: char)
    requires IsSeparator(d)
    ensures Blank([d]) <==> d == '\t'
  {
    assert Blank([d]) <==> IsSpace([d][0]);
  }

  // --- The separator is detected --------------------------------------------------------------

  lemma HeadersCarry(columns: seq<Column>, d: char, fields: FieldMap, norm: string -> string)
    requires PlainHeaders(columns, fields, norm) && IsSeparator(d)
    ensures Carries(Headers(columns), d) && |Headers(columns)| == |columns| >= 2
    ensures forall e :: IsSeparator(e) ==> forall i :: 0 <= i < |columns| ==> e !in Headers(columns)[i]
    ensures forall i :: 0 <= i < |columns| ==> Known(fields, norm(Trim(Headers(columns)[i])))
    ensures !AllBlank(Headers(columns))
  {
    hide Blank, NoBreaks;
    var i :| 0 <= i < |columns| && !Blank(columns[i].header);
    assert Headers(columns)[i] == columns[i].header;
  }

  lemma ScoresOf(columns: seq<Column>, d: char, e: char, fields: FieldMap, norm: string -> string)
    requires PlainHeaders(columns, fields, norm) && IsSeparator(d) && IsSeparator(e)
    ensures var s := Score(Separated(Headers(columns), d), e, fields, norm);
      if d == e then s == |columns| else s <= 1
    ensures KnownOnly(NormalizeAll(TrimAll(Headers(columns)), norm), fields)
      == NormalizeAll(TrimAll(Headers(columns)), norm)
  {
    hide PlainHeaders, Separated, Trim, Known;
    var headers := Headers(columns);
    HeadersCarry(columns, d, fields, norm);
    KnownOnlyAll(NormalizeAll(TrimAll(headers), norm), fields);
    if d == e {
      CellsSeparated(headers, d);
    } else {
      SeparatedWithout(headers, d, e);
      ScanSingle(Separated(headers, d), e, "", false);
      KnownOnlyAtMost(NormalizeAll(Cells(Separated(headers, d), e), norm), fields);
    }
  }

  /** Whichever of tab, semicolon and comma is between the headers is the one detected, and no other. */
  lemma SeparatorDetected(columns: seq<Column>, d: char, fields: FieldMap, norm: string -> string)
    requires PlainHeaders(columns, fields, norm) && (d == '\t' || d == ';' || d == ',')
    ensures forall e :: IsBest(e, Separated(Headers(columns), d), fields, norm) <==> e == d
    ensures BestDelimiter(Separated(Headers(columns), d), fields, norm) == d
  {
    hide PlainHeaders, Separated, Score, IsBest;
    var line := Separated(Headers(columns), d);
    ScoresOf(columns, d, '\t', fields, norm);
    ScoresOf(columns, d, ';', fields, norm);
    ScoresOf(columns, d, ',', fields, norm);
    HeadersCarry(columns, d, fields, norm);
    var best := BestDelimiter(line, fields, norm);
    assert best == d && IsBest(best, line, fields, norm);
    forall e ensures IsBest(e, line, fields, norm) <==> e == d {
      if IsBest(e, line, fields, norm) { BestIsUnique(e, best, line, fields, norm); }
    }
  }

  // --- The lines of the file ----------------------------------------------------------------------

  lemma {:induction false} SplitLinesStep(a: string, brk: string, b: string)
    requires NoBreaks(a) && IsLineBreak(brk) && (b != "" && brk == "\r" ==> b[0] != '\n')
    ensures SplitLines(a + brk + b) == [a] + SplitLines(b)
  {
    var s := a + brk + b;
    if a == "" {
      assert s == brk + b && s[|brk|..] == b;
    } else {
      assert s[1..] == a[1..] + brk + b;
      SplitLinesStep(a[1..], brk, b);
      assert [a[0]] + a[1..] == a;
    }
  }

  lemma {:induction false} SplitLinesJoin(lines: seq<string>, brk: string)
    requires lines != [] && IsLineBreak(brk) && forall i :: 0 <= i < |lines| ==> NoBreaks(lines[i])
    ensures SplitLines(Join(lines, brk)) == lines
  {
    if |lines| == 1 {
      SplitLinesPlain(lines[0]);
    } else {
      SplitLinesJoin(lines[1..], brk);
      SplitLinesStep(lines[0], brk, Join(lines[1..], brk));
      assert [lines[0]] + lines[1..] == lines;
    }
  }

  /** A file with such a header line and any further lines is read with its own separator, whatever its line breaks:
      one row per line that is not blank, in order. */
  lemma SeparatedFile(columns: seq<Column>, lines: seq<string>, d: char, brk: string, fields: FieldMap,
                      norm: string -> string, minimum: int)
    requires PlainHeaders(columns, fields, norm) && (d == '\t' || d == ';' || d == ',') && IsLineBreak(brk)
    requires forall i :: 0 <= i < |lines| ==> NoBreaks(lines[i])
    ensures ParsedCsv(Join([Separated(Headers(columns), d)] + lines, brk), fields, norm, minimum) ==
      if |columns| < minimum then Err(TooFewColumns(|columns|, minimum))
      else Ok(Parsed(RowsOf(KnownFields(columns, fields, norm), CellsOfAll(NonBlank(lines), d)),
                     NormalizeAll(TrimAll(Headers(columns)), norm), |columns|))
  {
    hide PlainHeaders, Separated, BestDelimiter, IsBest, Cells, RowsOf, KnownOnly, FieldsByColumn, IsLineBreak, Score;
    hide CellsOfAll, KnownFields, SplitLines;
    var header := Separated(Headers(columns), d);
    HeadersCarry(columns, d, fields, norm);
    SeparatedNoBreaks(Headers(columns), d);
    SplitLinesJoin([header] + lines, brk);
    SeparatedBlank(Headers(columns), d);
    TrimBlank(header);
    assert ([header] + lines)[1..] == lines;
    assert NonBlank([header] + lines) == [header] + NonBlank(lines);
    SeparatorDetected(columns, d, fields, norm);
    CellsSeparated(Headers(columns), d);
    ScoresOf(columns, d, d, fields, norm);
    PlainIsKnown(columns, fields, norm);
    ColumnsFound(columns, fields, norm);
  }

  lemma PlainIsKnown(columns: seq<Column>, fields: FieldMap, norm: string -> string)
    requires PlainHeaders(columns, fields, norm)
    ensures KnownHeaders(columns, fields, norm)
  {}

  // --- The rows come back ---------------------------------------------------------------------------

  /** Cells that a line carries, one per column. */
  ghost predicate CarriedRows(rows: seq<seq<string>>, n: nat, d: char) {
    forall k :: 0 <= k < |rows| ==> |rows[k]| == n && Carries(rows[k], d)
  }

  function Lines(rows: seq<seq<string>>, d: char): seq<string> {
    seq(|rows|, k requires 0 <= k < |rows| => Separated(rows[k], d))
  }

  /** The rows that are not blank lines: between tabs, those with a cell that is not blank. */
  ghost function Kept(rows: seq<seq<string>>, d: char): (kept: seq<seq<string>>)
    ensures |kept| <= |rows|
    ensures d != '\t' ==> kept == rows
    ensures (forall k :: 0 <= k < |rows| ==> !AllBlank(rows[k])) ==> kept == rows
  {
    if rows == [] then []
    else
      assert [rows[0]] + rows[1..] == rows;
      if d == '\t' && AllBlank(rows[0]) then Kept(rows[1..], d) else [rows[0]] + Kept(rows[1..], d)
  }

  lemma {:induction false} KeptLines(rows: seq<seq<string>>, n: nat, d: char)
    requires n >= 2 && IsSeparator(d) && CarriedRows(rows, n, d)
    ensures NonBlank(Lines(rows, d)) == Lines(Kept(rows, d), d) && CarriedRows(Kept(rows, d), n, d)
  {
    hide Carries, Separated, AllBlank, Lines, Trim;
    if rows == [] {
      NoLines(d);
    } else {
      KeptLines(rows[1..], n, d);
      SeparatedBlank(rows[0], d);
      TrimBlank(Separated(rows[0], d));
      LinesCons(rows[0], rows[1..], d);
      LinesCons(rows[0], Kept(rows[1..], d), d);
      assert [rows[0]] + rows[1..] == rows;
      NonBlankCons(Separated(rows[0], d), Lines(rows[1..], d));
    }
  }

  lemma NoLines(d: char)
    ensures Lines([], d) == [] && NonBlank([]) == []
  {}

  lemma LinesCons(row: seq<string>, rows: seq<seq<string>>, d: char)
    ensures Lines([row] + rows, d) == [Separated(row, d)] + Lines(rows, d)
  {
    hide Separated;
  }

  lemma NonBlankCons(line: string, lines: seq<string>)
    ensures NonBlank([line] + lines) == if Trim(line) != "" then [line] + NonBlank(lines) else NonBlank(lines)
  {
    hide Trim;
    assert ([line] + lines)[1..] == lines;
  }

  /** A table of cells without quotes, breaks and the separator comes back row by row, every cell trimmed under its
      field, with tab, semicolon or comma between the cells and any line breaks; only rows of nothing but blanks
      between tabs are dropped. */
  lemma SeparatedTable(columns: seq<Column>, rows: seq<seq<string>>, d: char, brk: string, fields: FieldMap,
                       norm: string -> string, minimum: int)
    requires PlainHeaders(columns, fields, norm) && (d == '\t' || d == ';' || d == ',') && IsLineBreak(brk)
    requires CarriedRows(rows, |columns|, d) && minimum <= |columns|
    ensures CarriedRows(Kept(rows, d), |columns|, d)
    ensures var r := ParsedCsv(Join([Separated(Headers(columns), d)] + Lines(rows, d), brk), fields, norm, minimum);
      && r.Ok? && |r.value.rows| == |Kept(rows, d)|
      && forall k :: 0 <= k < |Kept(rows, d)| ==>
           r.value.rows[k].rowNumber == k + 2
           && RecordHolds(r.value.rows[k].fields, Kept(rows, d)[k], |columns|, columns, fields, norm)
  {
    hide PlainHeaders, Separated, ParsedCsv, RecordHolds, Record, IsLineBreak, Kept, Cells, Carries, NonBlank, NoBreaks;
    HeadersCarry(columns, d, fields, norm);
    forall k | 0 <= k < |rows| ensures NoBreaks(Lines(rows, d)[k]) {
      CarriesNoBreaks(rows[k], d);
      SeparatedNoBreaks(rows[k], d);
    }
    SeparatedFile(columns, Lines(rows, d), d, brk, fields, norm, minimum);
    KeptLines(rows, |columns|, d);
    PlainIsKnown(columns, fields, norm);
    forall k | 0 <= k < |Kept(rows, d)|
      ensures var cells := Cells(Separated(Kept(rows, d)[k], d), d);
              RecordHolds(Record(KnownFields(columns, fields, norm), cells, |columns|), Kept(rows, d)[k], |columns|,
                          columns, fields, norm)
    {
      CellsSeparated(Kept(rows, d)[k], d);
      RecordOfCells(columns, Kept(rows, d)[k], |columns|, fields, norm);
    }
  }

  lemma CarriesNoBreaks(cells: seq<string>, d: char)
    requires Carries(cells, d)
    ensures forall i :: 0 <= i < |cells| ==> NoBreaks(cells[i])
  {}

  // --- Any file at all --------------------------------------------------------------------------------

  lemma SplitLinesBreak(s: string)
    requires s != "" && IsBreak(s[0])
    ensures SplitLines(s) == [""] + SplitLines(if StartsCrLf(s) then s[2..] else s[1..])
  {}

  lemma BlankCons(s: string)
    requires s != ""
    ensures Blank(s) <==> IsSpace(s[0]) && Blank(s[1..])
  {
    assert s == [s[0]] + s[1..];
    BlankAppend([s[0]], s[1..]);
    assert Blank([s[0]]) <==> IsSpace([s[0]][0]);
  }

  /** A text of nothing but white space has no lines, and every other one has some. */
  lemma {:induction false} NoLinesExactly(s: string)
    ensures NonBlank(SplitLines(s)) == [] <==> Blank(s)
    decreases |s|
  {
    hide Trim, Blank, NonBlank;
    if s == "" {
      TrimBlank("");
      NonBlankCons("", []);
      NoLines(',');
      assert [""] + [] == [""] && Blank("") by { BlankEmpty(); }
    } else if IsBreak(s[0]) {
      var next := if StartsCrLf(s) then s[2..] else s[1..];
      SplitLinesBreak(s);
      NoLinesExactly(next);
      TrimBlank("");
      BlankEmpty();
      NonBlankCons("", SplitLines(next));
      BlankCons(s);
      if StartsCrLf(s) {
        BlankCons(s[1..]);
        assert s[1..][1..] == s[2..];
      }
    } else {
      var rest := SplitLines(s[1..]);
      NoLinesExactly(s[1..]);
      assert [rest[0]] + rest[1..] == rest;
      NonBlankCons(rest[0], rest[1..]);
      NonBlankCons([s[0]] + rest[0], rest[1..]);
      TrimBlank(rest[0]);
      TrimBlank([s[0]] + rest[0]);
      BlankCons([s[0]] + rest[0]);
      assert ([s[0]] + rest[0])[1..] == rest[0];
      BlankCons(s);
    }
  }

  lemma BlankEmpty()
    ensures Blank("")
  {}

  /** A file is refused as empty exactly when it holds nothing but white space. */
  lemma EmptyExactly(content: string, fields: FieldMap, norm: string -> string, minimum: int)
    ensures ParsedCsv(content, fields, norm, minimum) == Err(EmptyFile) <==> Blank(content)
  {
    hide NonBlank, SplitLines, BestDelimiter, IsBest, Cells, Blank;
    NoLinesExactly(content);
  }

  /** The last of the first `n` columns that fills the field. */
  ghost predicate LastFilling(columns: seq<Option<string>>, n: nat, i: nat, field: string)
    requires n <= |columns|
  {
    i < n && columns[i] == Some(field) && forall k :: i < k < n ==> columns[k] != Some(field)
  }

  /** Whatever the number of cells, a record has exactly the fields of its columns, each with the trimmed cell of the
      last column that fills it, or empty when the line is too short. */
  lemma {:induction false} RecordExactly(columns: seq<Option<string>>, cells: seq<string>, n: nat, field: string)
    requires n <= |columns|
    ensures var record := Record(columns, cells, n);
      && (field in record <==> exists i: nat :: LastFilling(columns, n, i, field))
      && (forall i: nat :: LastFilling(columns, n, i, field) ==>
            record[field] == if i < |cells| then Trim(cells[i]) else "")
  {
    hide Trim;
    assert Trim("") == "" by { TrimNothing(); }
    if n > 0 {
      RecordExactly(columns, cells, n - 1, field);
      if columns[n - 1] == Some(field) {
        assert LastFilling(columns, n, n - 1, field);
      } else {
        var m: nat := n - 1;
        if i: nat :| LastFilling(columns, n, i, field) { assert LastFilling(columns, m, i, field); }
        if i: nat :| LastFilling(columns, m, i, field) { assert LastFilling(columns, n, i, field); }
        forall i: nat | LastFilling(columns, n, i, field) ensures LastFilling(columns, m, i, field) {}
      }
    }
  }

  lemma TrimNothing()
    ensures Trim("") == ""
  {}
}
