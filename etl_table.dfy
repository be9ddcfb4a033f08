/** The table format of the ETL script: a header line of column names and one
    line per record, values joined with commas; the naive comma parser that
    reads it; and the round trip between the two for clean values. */
module EtlTable {
  import opened Common

  // ---------------------------------------------------------------------------
  // Writing the table

  /** The values of a record in header order (a missing one joins as ''). */
  function RowValues(header: seq<string>, rec: Record): (v: seq<string>)
    ensures |v| == |header|
  {
    seq(|header|, i requires 0 <= i < |header| => Field(rec, header[i]))
  }

  /** `header.map(h => rec[h]).join(',')`. */
  function RowLine(header: seq<string>, rec: Record): string {
    Join(RowValues(header, rec), ",")
  }

  /** The header line followed by one line per record. */
  function Lines(header: seq<string>, recs: seq<Record>): (ls: seq<string>)
    ensures |ls| == |recs| + 1
  {
    [Join(header, ",")] + seq(|recs|, j requires 0 <= j < |recs| => RowLine(header, recs[j]))
  }

  // ---------------------------------------------------------------------------
  // Reading the table

  /** The cells of one row: trimmed, '' where the row is short or the value
      empty. */
  function RowCells(header: seq<string>, values: seq<string>): (c: seq<string>)
    ensures |c| == |header|
  {
    seq(|header|, i requires 0 <= i < |header| =>
      if i < |values| && values[i] != "" then Trim(values[i]) else "")
  }

  /** The record of one row under the header. */
  function RowRecord(header: seq<string>, line: string): (r: Record)
    ensures forall k :: k in r <==> k in header
  {
    ZipRecord(header, RowCells(header, Split(line, ',')))
  }

  function Trims(parts: seq<string>): (r: seq<string>)
    ensures |r| == |parts|
  {
    seq(|parts|, i requires 0 <= i < |parts| => Trim(parts[i]))
  }

  /** The records of the data lines under the header. */
  function RowsOf(header: seq<string>, rows: seq<string>): (rs: seq<Record>)
    ensures |rs| == |rows|
  {
    seq(|rows|, j requires 0 <= j < |rows| => RowRecord(header, rows[j]))
  }

  /** The naive `parseCsv(csvData)` of the ETL script: the first line, split
      and trimmed, is the header. */
  function ParseTable(s: string): (rs: seq<Record>)
    ensures |rs| == |SplitLines(Trim(s))| - 1
  {
    var lines := SplitLines(Trim(s));
    RowsOf(Trims(Split(lines[0], ',')), lines[1..])
  }

  /** One row's `header.forEach` loop. */
  method FillRecord(header: seq<string>, values: seq<string>) returns (record: Record)
    ensures record == ZipRecord(header, RowCells(header, values))
  {
    ghost var cells := RowCells(header, values);
    record := map[];
    for i := 0 to |header|
      invariant record == ZipRecord(header[..i], cells[..i])
    {
      assert header[..i + 1][..i] == header[..i];
      assert cells[..i + 1][..i] == cells[..i];
      record := record[header[i] := if i < |values| && values[i] != "" then Trim(values[i]) else ""];
    }
    assert header[..|header|] == header && cells[..|header|] == cells;
  }

  /** `lines.map(...)`: every data line fills one record. */
  method ParseRows(header: seq<string>, rows: seq<string>) returns (records: seq<Record>)
    ensures records == RowsOf(header, rows)
  {
    records := [];
    for j := 0 to |rows|
      invariant |records| == j
      invariant forall m :: 0 <= m < j ==> records[m] == RowRecord(header, rows[m])
    {
      var record := FillRecord(header, Split(rows[j], ','));
      records := records + [record];
    }
  }

  /** `parseCsv`: the header is split and trimmed, then each line fills its
      record. */
  method ParseCsv(s: string) returns (records: seq<Record>)
    ensures records == ParseTable(s)
  {
    var lines := SplitLines(Trim(s));
    var header := Trims(Split(lines[0], ','));
    records := ParseRows(header, lines[1..]);
  }

  /** No value of the record holds a comma. */
  predicate NoComma(rec: Record) {
    forall k :: k in rec ==> ',' !in rec[k]
  }

  /** The cells of a row never hold a comma: the values are pieces of a split
      on commas, trimmed. */
  lemma RowRecordNoComma(header: seq<string>, line: string)
    ensures NoComma(RowRecord(header, line))
  {
    var parts := Split(line, ',');
    var cells := RowCells(header, parts);
    forall i | 0 <= i < |cells| ensures ',' !in cells[i] {
      if i < |parts| && parts[i] != "" {
        StripStripped(parts[i], JsSpace);
      }
    }
    ZipRecordValues(header, cells);
  }

  lemma ParseTableNoComma(s: string)
    ensures forall j :: 0 <= j < |ParseTable(s)| ==> NoComma(ParseTable(s)[j])
  {
    var lines := SplitLines(Trim(s));
    var header := Trims(Split(lines[0], ','));
    forall j | 0 <= j < |ParseTable(s)| ensures NoComma(ParseTable(s)[j]) {
      RowRecordNoComma(header, lines[1..][j]);
    }
  }

  // ---------------------------------------------------------------------------
  // The write-then-read round trip

  /** A value that survives the trip: no separator, no line break, and no
      surrounding whitespace. */
  predicate CleanValue(v: string) {
    ',' !in v && '\n' !in v && '\r' !in v && IsStripped(v, JsSpace)
  }

  /** A header the trip can carry: at least two distinct clean names, the
      first non-empty. */
  predicate CleanHeader(h: seq<string>) {
    |h| >= 2 && NoDup(h) && h[0] != "" && forall i :: 0 <= i < |h| ==> CleanValue(h[i])
  }

  /** A record with exactly the header's keys and clean values. */
  ghost predicate CleanRow(h: seq<string>, rec: Record) {
    (forall k :: k in rec ==> k in h) && forall i :: 0 <= i < |h| ==> h[i] in rec && CleanValue(rec[h[i]])
  }

  lemma JoinClean(parts: seq<string>, sep: char)
    requires forall i :: 0 <= i < |parts| ==> CleanValue(parts[i])
    requires sep == ','
    ensures '\n' !in Join(parts, [sep]) && '\r' !in Join(parts, [sep])
  {
    if '\n' in Join(parts, [sep]) {
      JoinChars(parts, [sep], '\n');
    }
    if '\r' in Join(parts, [sep]) {
      JoinChars(parts, [sep], '\r');
    }
  }

  /** The parts of a record's line are its values. */
  lemma RowValuesClean(h: seq<string>, rec: Record)
    requires CleanRow(h, rec)
    ensures forall i :: 0 <= i < |h| ==> RowValues(h, rec)[i] == rec[h[i]] && CleanValue(RowValues(h, rec)[i])
  {
  }

  lemma LinesClean(h: seq<string>, recs: seq<Record>)
    requires CleanHeader(h)
    requires forall j :: 0 <= j < |recs| ==> CleanRow(h, recs[j])
    ensures forall m :: 0 <= m < |Lines(h, recs)| ==> '\n' !in Lines(h, recs)[m] && '\r' !in Lines(h, recs)[m]
  {
    var ls := Lines(h, recs);
    JoinClean(h, ',');
    forall m | 1 <= m < |ls| ensures '\n' !in ls[m] && '\r' !in ls[m] {
      RowValuesClean(h, recs[m - 1]);
      JoinClean(RowValues(h, recs[m - 1]), ',');
    }
  }

  /** The last character of a joined line of at least two parts is a
      character of the last part, or the separator when that part is empty. */
  lemma JoinLast(parts: seq<string>, sep: string)
    requires |parts| >= 2 && |sep| == 1
    ensures var s := Join(parts, sep);
      |s| > 0 && s[|s| - 1] == if parts[|parts| - 1] == "" then sep[0] else parts[|parts| - 1][|parts[|parts| - 1]| - 1]
  {
    var n := |parts| - 1;
    assert parts == parts[..n] + [parts[n]];
    JoinAppend(parts[..n], parts[n], sep);
  }

  lemma RowLineEnd(h: seq<string>, rec: Record)
    requires CleanHeader(h) && CleanRow(h, rec)
    ensures var l := RowLine(h, rec); |l| > 0 && !IsJsSpace(l[|l| - 1])
  {
    RowValuesClean(h, rec);
    JoinLast(RowValues(h, rec), ",");
  }

  lemma JoinEnds(ls: seq<string>, sep: string)
    requires |ls| > 0 && ls[0] != "" && ls[|ls| - 1] != ""
    requires !IsJsSpace(ls[0][0]) && !IsJsSpace(ls[|ls| - 1][|ls[|ls| - 1]| - 1])
    ensures IsStripped(Join(ls, sep), JsSpace)
  {
    JoinFirstChar(ls, sep);
    JoinLastChar(ls, sep);
  }

  /** The written text needs no trimming. */
  lemma TextStripped(h: seq<string>, recs: seq<Record>)
    requires CleanHeader(h) && |recs| >= 1
    requires forall j :: 0 <= j < |recs| ==> CleanRow(h, recs[j])
    ensures IsStripped(Join(Lines(h, recs), "\n"), JsSpace)
  {
    var ls := Lines(h, recs);
    var first := Join(h, ",");
    var last := RowLine(h, recs[|recs| - 1]);
    assert ls[0] == first && ls[|ls| - 1] == last;
    JoinFirstChar(h, ",");
    assert !IsJsSpace(h[0][0]) by {
      assert CleanValue(h[0]);
    }
    RowLineEnd(h, recs[|recs| - 1]);
    JoinEnds(ls, "\n");
  }

  lemma HeaderBack(h: seq<string>)
    requires CleanHeader(h)
    ensures Trims(Split(Join(h, ","), ',')) == h
  {
    SplitJoin(h, ',');
    forall i | 0 <= i < |h| ensures Trim(h[i]) == h[i] {
      StripOfStripped(h[i], JsSpace);
    }
  }

  lemma RowBack(h: seq<string>, rec: Record)
    requires CleanHeader(h) && CleanRow(h, rec)
    ensures RowRecord(h, RowLine(h, rec)) == rec
  {
    var vals := RowValues(h, rec);
    RowValuesClean(h, rec);
    SplitJoin(vals, ',');
    assert Split(RowLine(h, rec), ',') == vals;
    CleanCells(h, vals);
    ZipRowValues(h, rec);
  }

  /** Clean values pass through the cell step unchanged. */
  lemma CleanCells(h: seq<string>, vals: seq<string>)
    requires |vals| == |h|
    requires forall i :: 0 <= i < |vals| ==> CleanValue(vals[i])
    ensures RowCells(h, vals) == vals
  {
    forall i | 0 <= i < |h| ensures RowCells(h, vals)[i] == vals[i] {
      StripOfStripped(vals[i], JsSpace);
    }
  }

  /** A record with exactly the header's keys is rebuilt from its values. */
  lemma ZipRowValues(h: seq<string>, rec: Record)
    requires NoDup(h)
    requires forall k :: k in rec <==> k in h
    ensures ZipRecord(h, RowValues(h, rec)) == rec
  {
    var vals := RowValues(h, rec);
    var r := ZipRecord(h, vals);
    ZipRecordAll(h, vals);
    forall k | k in rec ensures r[k] == rec[k] {
      var i :| 0 <= i < |h| && h[i] == k;
      assert vals[i] == rec[k];
    }
  }

  /** Records with the header's keys and clean values, written with the
      header line and read back with the same script's parser, come back
      unchanged. */
  lemma WriteThenParse(h: seq<string>, recs: seq<Record>)
    requires CleanHeader(h) && |recs| >= 1
    requires forall j :: 0 <= j < |recs| ==> CleanRow(h, recs[j])
    ensures ParseTable(Join(Lines(h, recs), "\n")) == recs
  {
    var ls := Lines(h, recs);
    var t := Join(ls, "\n");
    TextStripped(h, recs);
    StripOfStripped(t, JsSpace);
    LinesClean(h, recs);
    SplitLinesJoin(ls);
    assert SplitLines(Trim(t)) == ls;
    HeaderBack(h);
    assert ls[1..] == seq(|recs|, j requires 0 <= j < |recs| => RowLine(h, recs[j]));
    forall j | 0 <= j < |recs| ensures RowsOf(h, ls[1..])[j] == recs[j] {
      RowBack(h, recs[j]);
    }
  }
}
