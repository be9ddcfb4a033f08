/** The shared CSV reader of the scripts: a line is scanned character by
    character with a quote flag, following the quoting rules of section 2 of
    RFC 4180 except that a quoted field cannot span lines (the text is split
    into lines first); the rows become records keyed by the header's fields. */
module CsvUtils {
  import opened Common

  // ---------------------------------------------------------------------------
  // One line

  /** The state of the line scan: the fields finished so far, the field being
      read, and whether the scan is inside quotes. */
  datatype Scan = Scan(fields: seq<string>, current: string, inQuotes: bool)

  /** The fields the scan produces from state st on the remaining text. A
      quote opens a quoted part; inside one, a doubled quote stands for one
      quote and a single quote closes it; a comma outside quotes ends a field;
      every field is trimmed when it ends. */
  function Run(rest: string, st: Scan): seq<string>
    decreases |rest|
  {
    if |rest| == 0 then st.fields + [Trim(st.current)]
    else if rest[0] == '"' && !st.inQuotes then Run(rest[1..], st.(inQuotes := true))
    else if rest[0] == '"' then
      if |rest| > 1 && rest[1] == '"' then Run(rest[2..], st.(current := st.current + "\""))
      else Run(rest[1..], st.(inQuotes := false))
    else if rest[0] == ',' && !st.inQuotes then Run(rest[1..], Scan(st.fields + [Trim(st.current)], "", false))
    else Run(rest[1..], st.(current := st.current + [rest[0]]))
  }

  /** `parseCsvLine(line)`. */
  function ParseCsvLine(line: string): seq<string> {
    Run(line, Scan([], "", false))
  }

  /** `parseCsvLine`: the character loop, proved to compute ParseCsvLine. */
  method ParseLine(line: string) returns (result: seq<string>)
    ensures result == ParseCsvLine(line)
  {
    var fields: seq<string> := [];
    var current := "";
    var inQuotes := false;
    var i := 0;
    while i < |line|
      invariant 0 <= i <= |line|
      invariant Run(line[i..], Scan(fields, current, inQuotes)) == ParseCsvLine(line)
    {
      var c := line[i];
      assert line[i..][1..] == line[i + 1..];
      if c == '"' && !inQuotes {
        inQuotes := true;
      } else if c == '"' && inQuotes {
        if i + 1 < |line| && line[i + 1] == '"' {
          assert line[i..][2..] == line[i + 2..];
          current := current + "\"";
          i := i + 1;
        } else {
          inQuotes := false;
        }
      } else if c == ',' && !inQuotes {
        fields := fields + [Trim(current)];
        current := "";
      } else {
        current := current + [c];
      }
      i := i + 1;
    }
    result := fields + [Trim(current)];
  }

  /** The commas that lie outside quotes, where a quote is taken to toggle the
      quoted state: an independent count of the field separators. */
  function CommasOutside(s: string, quoted: bool): nat
    decreases |s|
  {
    if |s| == 0 then 0
    else (if s[0] == ',' && !quoted then 1 else 0) + CommasOutside(s[1..], if s[0] == '"' then !quoted else quoted)
  }

  /** Each scan step either toggles the quote flag on one quote, consumes a
      doubled quote without toggling, or ends a field on an outside comma. */
  lemma {:induction false} RunCount(rest: string, st: Scan)
    ensures |Run(rest, st)| == |st.fields| + 1 + CommasOutside(rest, st.inQuotes)
    decreases |rest|
  {
    if |rest| == 0 {
    } else if rest[0] == '"' && !st.inQuotes {
      RunCount(rest[1..], st.(inQuotes := true));
    } else if rest[0] == '"' {
      if |rest| > 1 && rest[1] == '"' {
        RunCount(rest[2..], st.(current := st.current + "\""));
        assert rest[1..][1..] == rest[2..];
      } else {
        RunCount(rest[1..], st.(inQuotes := false));
      }
    } else if rest[0] == ',' && !st.inQuotes {
      RunCount(rest[1..], Scan(st.fields + [Trim(st.current)], "", false));
    } else {
      RunCount(rest[1..], st.(current := st.current + [rest[0]]));
    }
  }

  /** A line has exactly one more field than it has commas outside quotes. */
  lemma FieldCount(line: string)
    ensures |ParseCsvLine(line)| == 1 + CommasOutside(line, false)
  {
    RunCount(line, Scan([], "", false));
  }

  predicate AllStripped(fs: seq<string>) {
    forall i :: 0 <= i < |fs| ==> IsStripped(fs[i], JsSpace)
  }

  lemma {:induction false} RunStripped(rest: string, st: Scan)
    requires AllStripped(st.fields)
    ensures AllStripped(Run(rest, st))
    decreases |rest|
  {
    if |rest| == 0 {
      StripStripped(st.current, JsSpace);
    } else if rest[0] == '"' && !st.inQuotes {
      RunStripped(rest[1..], st.(inQuotes := true));
    } else if rest[0] == '"' {
      if |rest| > 1 && rest[1] == '"' {
        RunStripped(rest[2..], st.(current := st.current + "\""));
      } else {
        RunStripped(rest[1..], st.(inQuotes := false));
      }
    } else if rest[0] == ',' && !st.inQuotes {
      StripStripped(st.current, JsSpace);
      RunStripped(rest[1..], Scan(st.fields + [Trim(st.current)], "", false));
    } else {
      RunStripped(rest[1..], st.(current := st.current + [rest[0]]));
    }
  }

  /** Every field, quoted or not, comes out without surrounding whitespace. */
  lemma FieldsTrimmed(line: string)
    ensures forall i :: 0 <= i < |ParseCsvLine(line)| ==> IsStripped(ParseCsvLine(line)[i], JsSpace)
  {
    RunStripped(line, Scan([], "", false));
  }

  // ---------------------------------------------------------------------------
  // Writing a field and reading it back

  /** The inside of a quoted field: each quote doubled. */
  function Escape(f: string): (e: string)
    ensures |e| >= |f|
  {
    if |f| == 0 then ""
    else (if f[0] == '"' then "\"\"" else [f[0]]) + Escape(f[1..])
  }

  /** How a writer following section 2 of RFC 4180 puts a field on a line:
      quoted, with quotes doubled, when it holds a comma or a quote. */
  function EncodeField(f: string): string {
    if ',' in f || '"' in f then "\"" + Escape(f) + "\"" else f
  }

  function Encoded(fields: seq<string>): (r: seq<string>)
    ensures |r| == |fields|
  {
    seq(|fields|, i requires 0 <= i < |fields| => EncodeField(fields[i]))
  }

  function Trimmed(fields: seq<string>): (r: seq<string>)
    ensures |r| == |fields|
  {
    seq(|fields|, i requires 0 <= i < |fields| => Trim(fields[i]))
  }

  /** Inside quotes, an escaped field is read back character for character. */
  lemma {:induction false} EscapeRun(f: string, rest: string, st: Scan)
    requires st.inQuotes
    ensures Run(Escape(f) + rest, st) == Run(rest, st.(current := st.current + f))
    decreases |f|
  {
    if |f| > 0 {
      var st' := st.(current := st.current + [f[0]]);
      var t := Escape(f) + rest;
      if f[0] == '"' {
        assert t == "\"\"" + (Escape(f[1..]) + rest);
        assert t[2..] == Escape(f[1..]) + rest;
        assert st.current + "\"" == st.current + [f[0]];
      } else {
        assert t == [f[0]] + (Escape(f[1..]) + rest);
        assert t[1..] == Escape(f[1..]) + rest;
      }
      assert Run(t, st) == Run(Escape(f[1..]) + rest, st');
      EscapeRun(f[1..], rest, st');
      assert [f[0]] + f[1..] == f;
      assert st'.current + f[1..] == st.current + f;
      assert st'.(current := st'.current + f[1..]) == st.(current := st.current + f);
    } else {
      assert Escape(f) + rest == rest && st.current + f == st.current;
    }
  }

  /** A field as a writer encodes it, followed by a comma or the end of the
      line, adds exactly that field to the one being read. */
  lemma EncodedRun(f: string, rest: string, st: Scan)
    requires !st.inQuotes
    requires |rest| == 0 || rest[0] == ','
    ensures Run(EncodeField(f) + rest, st) == Run(rest, st.(current := st.current + f))
  {
    if ',' in f || '"' in f {
      var t := "\"" + Escape(f) + "\"" + rest;
      assert t[1..] == Escape(f) + ("\"" + rest);
      EscapeRun(f, "\"" + rest, st.(inQuotes := true));
      var u := "\"" + rest;
      assert u[1..] == rest;
    } else {
      PlainRun(f, rest, st);
    }
  }

  /** Text without quotes or commas is read as it stands. */
  lemma {:induction false} PlainRun(p: string, rest: string, st: Scan)
    requires !st.inQuotes && ',' !in p && '"' !in p
    ensures Run(p + rest, st) == Run(rest, st.(current := st.current + p))
    decreases |p|
  {
    if |p| > 0 {
      assert p[0] in p;
      assert (p + rest)[0] == p[0];
      assert (p + rest)[1..] == p[1..] + rest;
      assert Run(p + rest, st) == Run(p[1..] + rest, st.(current := st.current + [p[0]]));
      assert forall c :: c in p[1..] ==> c in p;
      var st' := st.(current := st.current + [p[0]]);
      PlainRun(p[1..], rest, st');
      assert [p[0]] + p[1..] == p;
      assert st'.current + p[1..] == st.current + p;
      assert st'.(current := st'.current + p[1..]) == st.(current := st.current + p);
    } else {
      assert p + rest == rest && st.current + p == st.current;
    }
  }

  lemma CommaRun(tail: string, st: Scan)
    requires !st.inQuotes
    ensures Run("," + tail, st) == Run(tail, Scan(st.fields + [Trim(st.current)], "", false))
  {
    assert ("," + tail)[1..] == tail;
  }

  /** One encoded field and its separating comma end that field. */
  lemma EncodedFieldThenComma(f: string, tail: string, done: seq<string>)
    ensures Run(EncodeField(f) + ("," + tail), Scan(done, "", false)) == Run(tail, Scan(done + [Trim(f)], "", false))
  {
    EncodedRun(f, "," + tail, Scan(done, "", false));
    assert "" + f == f;
    CommaRun(tail, Scan(done, f, false));
  }

  /** The last encoded field ends the line. */
  lemma EncodedFieldLast(f: string, done: seq<string>)
    ensures Run(EncodeField(f), Scan(done, "", false)) == done + [Trim(f)]
  {
    EncodedRun(f, "", Scan(done, "", false));
    assert EncodeField(f) + "" == EncodeField(f);
    assert "" + f == f;
  }

  lemma {:induction false} JoinRun(fields: seq<string>, done: seq<string>)
    requires |fields| >= 1
    ensures Run(Join(Encoded(fields), ","), Scan(done, "", false)) == done + Trimmed(fields)
    decreases |fields|
  {
    if |fields| == 1 {
      EncodedFieldLast(fields[0], done);
      assert Join(Encoded(fields), ",") == EncodeField(fields[0]);
    } else {
      var tail := Join(Encoded(fields[1..]), ",");
      EncodedJoinCons(fields);
      EncodedFieldThenComma(fields[0], tail, done);
      JoinRun(fields[1..], done + [Trim(fields[0])]);
      TrimmedCons(fields, done);
    }
  }

  lemma TrimmedCons(fields: seq<string>, done: seq<string>)
    requires |fields| > 0
    ensures done + [Trim(fields[0])] + Trimmed(fields[1..]) == done + Trimmed(fields)
  {
    assert Trimmed(fields) == [Trim(fields[0])] + Trimmed(fields[1..]);
  }

  lemma EncodedJoinCons(fields: seq<string>)
    requires |fields| > 1
    ensures Join(Encoded(fields), ",") == EncodeField(fields[0]) + ("," + Join(Encoded(fields[1..]), ","))
  {
    assert Encoded(fields)[1..] == Encoded(fields[1..]);
  }

  /** Reading a line written by an RFC 4180 writer gives back its fields,
      trimmed: commas and doubled quotes inside quotes are data, and the
      enclosing quotes are not part of the value. */
  lemma ParseEncodedLine(fields: seq<string>)
    requires |fields| >= 1
    ensures ParseCsvLine(Join(Encoded(fields), ",")) == Trimmed(fields)
  {
    JoinRun(fields, []);
  }

  /** A line with no quotes is split at its commas, each part trimmed. */
  lemma ParsePlainLine(fields: seq<string>)
    requires |fields| >= 1
    requires forall i :: 0 <= i < |fields| ==> ',' !in fields[i] && '"' !in fields[i]
    ensures ParseCsvLine(Join(fields, ",")) == Trimmed(fields)
  {
    assert Encoded(fields) == fields;
    ParseEncodedLine(fields);
  }

  // ---------------------------------------------------------------------------
  // The whole text

  /** `header.forEach((h, i) => record[h] = values[i] || '')`: the values for
      the header's positions, '' past the end of the row. */
  function Cells(values: seq<string>, n: nat): (c: seq<string>)
    ensures |c| == n
  {
    seq(n, i requires 0 <= i < n => if i < |values| then values[i] else "")
  }

  /** The record of one row. */
  method FillRecord(header: seq<string>, values: seq<string>) returns (record: Record)
    ensures record == ZipRecord(header, Cells(values, |header|))
  {
    ghost var cells := Cells(values, |header|);
    record := map[];
    for i := 0 to |header|
      invariant record == ZipRecord(header[..i], cells[..i])
    {
      assert header[..i + 1][..i] == header[..i];
      assert cells[..i + 1][..i] == cells[..i];
      record := record[header[i] := if i < |values| then values[i] else ""];
    }
    assert header[..|header|] == header && cells[..|header|] == cells;
  }

  /** The lines of the text: trimmed, then split at LF or CR LF. */
  function DataLines(s: string): (lines: seq<string>)
    ensures |lines| >= 1
  {
    SplitLines(Trim(s))
  }

  /** The record of one line: exactly the header's names as keys. */
  function LineRecord(header: seq<string>, line: string): (r: Record)
    ensures forall k :: k in r <==> k in header
  {
    ZipRecord(header, Cells(ParseCsvLine(line), |header|))
  }

  /** The records of the rows under one header, in order. */
  function RowRecords(header: seq<string>, rows: seq<string>): (rs: seq<Record>)
    ensures |rs| == |rows|
  {
    seq(|rows|, j requires 0 <= j < |rows| => LineRecord(header, rows[j]))
  }

  /** `parseCsv(csvData)`; None is an argument that is not a string. The
      first line is the header, and the others are the rows. */
  function CsvRecords(data: Option<string>): (rs: seq<Record>)
    ensures data == None || data == Some("") ==> rs == []
    ensures data.Some? && data.value != "" ==> |rs| == |DataLines(data.value)| - 1
  {
    if data.None? || data.value == "" then []
    else
      var lines := DataLines(data.value);
      if |lines| <= 1 then []
      else RowRecords(ParseCsvLine(lines[0]), lines[1..])
  }

  /** With distinct column names, the record of row j holds under the i-th
      name the i-th field of that row, or '' when the row is shorter than the
      header; it has no other keys. */
  lemma RowRecordField(header: seq<string>, rows: seq<string>, j: nat, i: nat)
    requires j < |rows| && NoDup(header) && i < |header|
    ensures forall k :: k in RowRecords(header, rows)[j] <==> k in header
    ensures RowRecords(header, rows)[j][header[i]] ==
      (if i < |ParseCsvLine(rows[j])| then ParseCsvLine(rows[j])[i] else "")
  {
    assert RowRecords(header, rows)[j] == LineRecord(header, rows[j]);
    ZipRecordAt(header, Cells(ParseCsvLine(rows[j]), |header|), i);
  }

  /** The loop of `parseCsv` over the lines after the header. */
  method ParseRows(header: seq<string>, rows: seq<string>) returns (records: seq<Record>)
    ensures records == RowRecords(header, rows)
  {
    records := [];
    for j := 0 to |rows|
      invariant |records| == j
      invariant forall m :: 0 <= m < j ==> records[m] == LineRecord(header, rows[m])
    {
      var values := ParseLine(rows[j]);
      var record := FillRecord(header, values);
      records := records + [record];
    }
  }

  /** `parseCsv`: each line after the header is parsed and its record filled. */
  method ParseCsv(data: Option<string>) returns (records: seq<Record>)
    ensures records == CsvRecords(data)
  {
    if data.None? || data.value == "" {
      return [];
    }
    var lines := DataLines(data.value);
    if |lines| <= 1 {
      return [];
    }
    var header := ParseLine(lines[0]);
    records := ParseRows(header, lines[1..]);
  }

  // ---------------------------------------------------------------------------
  // addNumbers

  /** A JavaScript argument: an integer number, or anything else. */
  datatype Arg = Number(n: int) | NotNumber

  const NotNumbers: string := "Both parameters must be numbers"

  /** `addNumbers(a, b)` on integer arguments. */
  function AddNumbers(a: Arg, b: Arg): (r: Result<int, string>)
    ensures r.Ok? <==> a.Number? && b.Number?
    ensures r.Ok? ==> r.value - a.n == b.n
    ensures r.Err? ==> r.error == NotNumbers
  {
    if a.NotNumber? || b.NotNumber? then Err(NotNumbers) else Ok(a.n + b.n)
  }
}
