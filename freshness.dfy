/** The data freshness report: the date of the newest record of schools.csv
    and how many days old it is, and the quality counters over its rows.
    Reading the file is an input (`None` when the file does not exist), and
    so is the date parser, which also gives the age in days against the
    current time. */
module Freshness {
  import opened Common
  import opened EtlValues

  const DefaultMaxAgeDays: int := 7

  /** The lines after the header of `content.trim().split('\n')`. */
  function DataLines(content: string): (data: seq<string>)
    ensures |data| == |Split(Trim(content), '\n')| - 1
  {
    Split(Trim(content), '\n')[1..]
  }

  // ---------------------------------------------------------------------------
  // getDataFreshness

  predicate IsDigitAt(s: string, i: nat)
    requires i < |s|
  {
    IsAsciiDigit(s[i])
  }

  /** `/^\d{4}-\d{2}-\d{2}$/`. */
  predicate IsIsoDateShape(s: string) {
    && |s| == 10
    && IsDigitAt(s, 0) && IsDigitAt(s, 1) && IsDigitAt(s, 2) && IsDigitAt(s, 3)
    && s[4] == '-'
    && IsDigitAt(s, 5) && IsDigitAt(s, 6)
    && s[7] == '-'
    && IsDigitAt(s, 8) && IsDigitAt(s, 9)
  }

  /** `fields[fields.length - 1]?.trim()` of a line split on ','. */
  function LastField(line: string): string {
    var fields := Split(line, ',');
    Trim(fields[|fields| - 1])
  }

  /** The trimmed last field of every line. */
  function LastFields(lines: seq<string>): (us: seq<string>)
    ensures |us| == |lines|
  {
    seq(|lines|, i requires 0 <= i < |lines| => LastField(lines[i]))
  }

  lemma LastFieldsAt(lines: seq<string>, i: nat)
    requires i < |lines|
    ensures LastFields(lines)[i] == LastField(lines[i])
  {
  }

  /** `updatedAt && updatedAt.match(/^\d{4}-\d{2}-\d{2}$/)`. */
  predicate IsDate(u: string) {
    u != "" && IsIsoDateShape(u)
  }

  /** The index of the last date among us. */
  function LatestDate(us: seq<string>): (r: Option<nat>)
    ensures r.Some? ==> r.value < |us| && IsDate(us[r.value])
    ensures r.Some? ==> forall j :: r.value < j < |us| ==> !IsDate(us[j])
    ensures r.None? ==> forall j :: 0 <= j < |us| ==> !IsDate(us[j])
  {
    if |us| == 0 then None
    else if IsDate(us[|us| - 1]) then Some(|us| - 1)
    else LatestDate(us[..|us| - 1])
  }

  /** What `new Date(s)` makes of a date string: the ISO day of the parsed
      date and its age in whole days, or `None` for an invalid date. */
  datatype DateInfo = DateInfo(iso: string, daysAgo: int)

  datatype Report = Report(fileExists: bool, date: Option<string>, daysAgo: Option<int>, recordCount: nat, isFresh: bool)

  /** The report for a file that exists, given which date string was chosen. */
  function ReportFor(recordCount: nat, chosen: Option<string>, parseDate: string -> Option<DateInfo>): Report {
    if chosen.None? || parseDate(chosen.value).None? then Report(true, None, None, recordCount, false)
    else
      var info := parseDate(chosen.value).value;
      Report(true, Some(info.iso), Some(info.daysAgo), recordCount, info.daysAgo <= DefaultMaxAgeDays)
  }

  /** The date string the backward scan picks, if any. */
  function ChosenDate(content: string): Option<string> {
    NewestDate(DataLines(content))
  }

  /** `getDataFreshness` as a function of the file content. */
  function FreshnessOf(content: Option<string>, parseDate: string -> Option<DateInfo>): Report {
    if content.None? then Report(false, None, None, 0, false)
    else ReportFor(|DataLines(content.value)|, ChosenDate(content.value), parseDate)
  }

  /** The date string of the newest data line ending in a date. */
  function NewestDate(dataLines: seq<string>): Option<string> {
    var us := LastFields(dataLines);
    match LatestDate(us)
    case None => None
    case Some(i) => Some(us[i])
  }

  /** The backward scan of `getDataFreshness`: from the last data line to
      the first, stop at the first whose trimmed last field is a date. */
  method ScanNewestDate(dataLines: seq<string>) returns (mostRecent: Option<string>)
    ensures mostRecent == NewestDate(dataLines)
  {
    mostRecent := None;
    ghost var us := LastFields(dataLines);
    var i := |dataLines|;
    assert us[..i] == us;
    while i > 0
      invariant 0 <= i <= |dataLines|
      invariant LatestDate(us) == LatestDate(us[..i])
      decreases i
    {
      var updatedAt := LastField(dataLines[i - 1]);
      LastFieldsAt(dataLines, i - 1);
      assert us[..i][i - 1] == us[i - 1];
      if updatedAt != "" && IsIsoDateShape(updatedAt) {
        mostRecent := Some(updatedAt);
        return;
      }
      assert us[..i][..i - 1] == us[..i - 1];
      i := i - 1;
    }
    assert us[..0] == [];
  }

  /** `getDataFreshness`. */
  method GetDataFreshness(content: Option<string>, parseDate: string -> Option<DateInfo>) returns (report: Report)
    ensures report == FreshnessOf(content, parseDate)
  {
    if content.None? {
      return Report(false, None, None, 0, false);
    }
    var lines := Split(Trim(content.value), '\n');
    if |lines| <= 1 {
      assert DataLines(content.value) == [];
      return Report(true, None, None, 0, false);
    }
    var dataLines := lines[1..];
    var recordCount := |dataLines|;
    var mostRecent := ScanNewestDate(dataLines);
    report := ReportFor(recordCount, mostRecent, parseDate);
  }

  /** What the report promises: the record count is the number of lines
      after the header; the data is fresh exactly when a date was found and
      it is at most seven days old; no date is reported without a data line
      ending in one, and that date is the newest such line's. */
  lemma FreshnessFacts(content: string, parseDate: string -> Option<DateInfo>)
    ensures FreshnessOf(Some(content), parseDate).fileExists
    ensures FreshnessOf(Some(content), parseDate).recordCount == |Split(Trim(content), '\n')| - 1
    ensures FreshnessOf(Some(content), parseDate).isFresh <==>
      FreshnessOf(Some(content), parseDate).daysAgo.Some? && FreshnessOf(Some(content), parseDate).daysAgo.value <= 7
    ensures FreshnessOf(Some(content), parseDate).date.Some? ==>
      ChosenDate(content).Some? && parseDate(ChosenDate(content).value).Some?
      && FreshnessOf(Some(content), parseDate).date.value == parseDate(ChosenDate(content).value).value.iso
    ensures ChosenDate(content).None? ==>
      FreshnessOf(Some(content), parseDate).date.None? && !FreshnessOf(Some(content), parseDate).isFresh
  {
  }

  /** With the header alone, or nothing, there are no records and no date. */
  lemma HeaderOnly(content: string, parseDate: string -> Option<DateInfo>)
    requires |Split(Trim(content), '\n')| <= 1
    ensures FreshnessOf(Some(content), parseDate).recordCount == 0
    ensures FreshnessOf(Some(content), parseDate).date.None?
  {
    assert DataLines(content) == [];
  }

  /** The chosen date is the trimmed last field of a data line, has the
      YYYY-MM-DD shape, and no later data line ends in such a date. */
  lemma ChosenDateIsNewest(content: string)
    requires ChosenDate(content).Some?
    ensures exists i :: (0 <= i < |DataLines(content)| && LastField(DataLines(content)[i]) == ChosenDate(content).value
                         && forall j :: i < j < |DataLines(content)| ==> !IsDate(LastField(DataLines(content)[j])))
    ensures IsIsoDateShape(ChosenDate(content).value)
  {
    var us := LastFields(DataLines(content));
    var i := LatestDate(us).value;
    assert LastField(DataLines(content)[i]) == ChosenDate(content).value;
    forall j | i < j < |DataLines(content)| ensures !IsDate(LastField(DataLines(content)[j])) {
      assert us[j] == LastField(DataLines(content)[j]);
    }
  }

  // ---------------------------------------------------------------------------
  // getDataQualityMetrics

  /** The four counters. The province counter reads one column, a
      parameter here: the source reads field 9 (`ProvinceFieldAsWritten`),
      which is the lat column of the ETL's rows; the provinsi column is
      field 8 (`ProvinceField`). See the findings of the project's README. */
  datatype Metric = Coordinates | Address | Npsn | ProvinceAt(column: nat)

  const ProvinceFieldAsWritten: nat := 9
  const ProvinceField: nat := 8

  /** The number of comma fields a line needs before any counter looks at it. */
  const MinFields: nat := 12

  /** Whether a row of at least twelve fields counts toward metric m. The
      row layout is the ETL's: alamat is field 4, provinsi 8, lat 9 and
      lon 10. A column past the end reads as `undefined`, which is falsy. */
  predicate Holds(m: Metric, fields: seq<string>)
    requires |fields| >= MinFields
  {
    match m
    case Coordinates => fields[9] != "" && fields[10] != ""
    case Address => fields[4] != "" && Trim(fields[4]) != ""
    case Npsn => Trim(fields[0]) != "" && AllDigits(Trim(fields[0]))
    case ProvinceAt(k) => k < |fields| && Trim(fields[k]) != ""
  }

  predicate Counts(m: Metric, line: string) {
    |Split(line, ',')| >= MinFields && Holds(m, Split(line, ','))
  }

  /** The number of lines that count toward metric m. */
  function CountLines(lines: seq<string>, m: Metric): (n: nat)
    ensures n <= |lines|
  {
    if |lines| == 0 then 0
    else CountLines(lines[..|lines| - 1], m) + (if Counts(m, lines[|lines| - 1]) then 1 else 0)
  }

  /** The number of lines with at least twelve fields. */
  function LongLines(lines: seq<string>): (n: nat)
    ensures n <= |lines|
  {
    if |lines| == 0 then 0
    else LongLines(lines[..|lines| - 1]) + (if |Split(lines[|lines| - 1], ',')| >= MinFields then 1 else 0)
  }

  /** Lines with fewer than twelve fields count toward no metric: every
      counter is at most the number of long lines, which is at most the
      number of records. */
  lemma {:induction false} CountsOnlyLongLines(lines: seq<string>, m: Metric)
    ensures CountLines(lines, m) <= LongLines(lines) <= |lines|
  {
    if |lines| > 0 {
      CountsOnlyLongLines(lines[..|lines| - 1], m);
    }
  }

  datatype MetricCounts = MetricCounts(coordinates: nat, address: nat, npsn: nat, province: nat)

  datatype Quality = Quality(totalRecords: nat, metrics: Option<MetricCounts>)

  /** The counters over some data lines, the province read from column pc. */
  function CountsOf(lines: seq<string>, pc: nat): MetricCounts {
    MetricCounts(CountLines(lines, Coordinates), CountLines(lines, Address), CountLines(lines, Npsn),
                 CountLines(lines, ProvinceAt(pc)))
  }

  lemma CountsOfSnoc(lines: seq<string>, line: string, pc: nat)
    ensures CountsOf(lines + [line], pc) == MetricCounts(
      CountsOf(lines, pc).coordinates + (if Counts(Coordinates, line) then 1 else 0),
      CountsOf(lines, pc).address + (if Counts(Address, line) then 1 else 0),
      CountsOf(lines, pc).npsn + (if Counts(Npsn, line) then 1 else 0),
      CountsOf(lines, pc).province + (if Counts(ProvinceAt(pc), line) then 1 else 0))
  {
    assert (lines + [line])[..|lines|] == lines;
  }

  /** `getDataQualityMetrics` as a function of the file content, the
      province read from column pc: `None` for a missing file, no metrics
      for a file without data lines. */
  function QualityOf(content: Option<string>, pc: nat): Option<Quality> {
    if content.None? then None
    else
      var data := DataLines(content.value);
      if data == [] then Some(Quality(0, None)) else Some(Quality(|data|, Some(CountsOf(data, pc))))
  }

  /** `getDataQualityMetrics`, its loop over the data lines counting the
      province from column `provinceColumn`: `ProvinceFieldAsWritten` gives
      the source as written, `ProvinceField` the evidently intended count. */
  method GetDataQualityMetrics(content: Option<string>, provinceColumn: nat) returns (quality: Option<Quality>)
    ensures quality == QualityOf(content, provinceColumn)
  {
    if content.None? {
      return None;
    }
    var lines := Split(Trim(content.value), '\n');
    if |lines| <= 1 {
      return Some(Quality(0, None));
    }
    var dataLines := lines[1..];
    var totalRecords := |dataLines|;
    var withCoordinates, withAddress, withNpsn, withProvince := 0, 0, 0, 0;
    for i := 0 to |dataLines|
      invariant MetricCounts(withCoordinates, withAddress, withNpsn, withProvince) == CountsOf(dataLines[..i], provinceColumn)
    {
      CountsOfSnoc(dataLines[..i], dataLines[i], provinceColumn);
      assert dataLines[..i + 1] == dataLines[..i] + [dataLines[i]];
      var fields := Split(dataLines[i], ',');
      if |fields| >= MinFields {
        var alamat, lat, lon := fields[4], fields[9], fields[10];
        var npsn := Trim(fields[0]);
        var province := if provinceColumn < |fields| then Trim(fields[provinceColumn]) else "";
        if lat != "" && lon != "" {
          withCoordinates := withCoordinates + 1;
        }
        if alamat != "" && Trim(alamat) != "" {
          withAddress := withAddress + 1;
        }
        if npsn != "" && AllDigits(npsn) {
          withNpsn := withNpsn + 1;
        }
        if province != "" {
          withProvince := withProvince + 1;
        }
      }
    }
    assert dataLines[..|dataLines|] == dataLines;
    quality := Some(Quality(totalRecords, Some(MetricCounts(withCoordinates, withAddress, withNpsn, withProvince))));
  }

  /** Every counter is at most the number of records. */
  lemma MetricsBounded(content: Option<string>, pc: nat)
    requires QualityOf(content, pc).Some? && QualityOf(content, pc).value.metrics.Some?
    ensures var q := QualityOf(content, pc).value;
      && q.metrics.value.coordinates <= q.totalRecords && q.metrics.value.address <= q.totalRecords
      && q.metrics.value.npsn <= q.totalRecords && q.metrics.value.province <= q.totalRecords
  {
  }

  /** The npsn counter counts exactly the long lines whose first field,
      trimmed, is a non-empty run of ASCII digits. */
  lemma NpsnMetric(line: string)
    ensures Counts(Npsn, line) <==>
      |Split(line, ',')| >= MinFields && Trim(Split(line, ',')[0]) != "" && AllDigits(Trim(Split(line, ',')[0]))
  {
  }

  /** Read from the provinsi column, the province counter counts exactly
      the long lines whose field 8, trimmed, is not empty. */
  lemma ProvinceMetric(line: string)
    ensures Counts(ProvinceAt(ProvinceField), line) <==>
      |Split(line, ',')| >= MinFields && Trim(Split(line, ',')[ProvinceField]) != ""
  {
  }

  /** Field 8 of the rows the ETL writes is provinsi, and field 9 is lat. */
  lemma ProvinceColumn()
    ensures Schema[ProvinceField] == "provinsi" && Schema[ProvinceFieldAsWritten] == "lat"
    ensures Schema[10] == "lon" && Schema[4] == "alamat"
  {
  }

  /** As written, the province counter reads field 9, the lat column: it
      counts the rows with a latitude, whatever their province. */
  lemma ProvinceAsWrittenCountsLat(fields: seq<string>)
    requires |fields| >= MinFields
    ensures Holds(ProvinceAt(ProvinceFieldAsWritten), fields) <==> Trim(fields[9]) != ""
  {
  }

  /** The two province counters agree on every file whose long rows have
      a blank provinsi exactly when they have a blank latitude. */
  lemma {:induction false} ProvinceCountersAgree(lines: seq<string>)
    requires forall i :: 0 <= i < |lines| && |Split(lines[i], ',')| >= MinFields ==>
      (Trim(Split(lines[i], ',')[8]) != "" <==> Trim(Split(lines[i], ',')[9]) != "")
    ensures CountsOf(lines, ProvinceFieldAsWritten) == CountsOf(lines, ProvinceField)
  {
    if |lines| > 0 {
      var init := lines[..|lines| - 1];
      assert lines == init + [lines[|lines| - 1]];
      ProvinceCountersAgree(init);
      CountsOfSnoc(init, lines[|lines| - 1], ProvinceFieldAsWritten);
      CountsOfSnoc(init, lines[|lines| - 1], ProvinceField);
    }
  }

  /** The row of a school with latitude `lat` but no province. */
  function MismatchRow(lat: string): (row: seq<string>)
    ensures |row| == MinFields && row[8] == "" && row[9] == lat
  {
    ["1", "n", "", "", "", "", "", "", "", lat, "y", "z"]
  }

  /** A row with a latitude but no province: the counter as written counts
      it, the provinsi column does not. */
  lemma ProvinceMismatch(lat: string)
    requires Trim(lat) != ""
    ensures Holds(ProvinceAt(ProvinceFieldAsWritten), MismatchRow(lat))
    ensures !Holds(ProvinceAt(ProvinceField), MismatchRow(lat))
  {
    StripEmptyIff("", JsSpace);
  }

  /** The row written back as one CSV line. */
  function MismatchLine(lat: string): string {
    Join(MismatchRow(lat), ",")
  }

  lemma MismatchLineFields(lat: string)
    requires ',' !in lat && '\n' !in lat
    ensures Split(MismatchLine(lat), ',') == MismatchRow(lat)
    ensures '\n' !in MismatchLine(lat)
    ensures MismatchLine(lat) != "" && MismatchLine(lat)[|MismatchLine(lat)| - 1] == 'z'
  {
    var row := MismatchRow(lat);
    forall i | 0 <= i < |row| ensures ',' !in row[i] && '\n' !in row[i] {
      if i != 9 {
        assert |row[i]| <= 1;
      }
    }
    SplitJoin(row, ',');
    if '\n' in MismatchLine(lat) {
      JoinChars(row, ",", '\n');
    }
    JoinLastChar(row, ",");
  }

  /** A file of a header and one line, neither with a line break nor
      surrounding whitespace, has that one data line. */
  lemma {:induction false} OneDataLine(header: string, line: string)
    requires header != "" && line != ""
    requires '\n' !in header && '\n' !in line
    requires !InClass(header[0], JsSpace) && !InClass(line[|line| - 1], JsSpace)
    ensures DataLines(header + "\n" + line) == [line]
  {
    var text := header + "\n" + line;
    assert text[0] == header[0] && text[|text| - 1] == line[|line| - 1];
    StripOfStripped(text, JsSpace);
    assert text == header + ['\n'] + line;
    SplitPrefix(header, line, '\n');
    SplitPrefix(line, "", '\n');
  }

  /** The counters over a single line of at least twelve fields. */
  lemma OneLineCounts(line: string, row: seq<string>, pc: nat)
    requires Split(line, ',') == row && |row| >= MinFields
    ensures CountsOf([line], pc) == MetricCounts(
      if Holds(Coordinates, row) then 1 else 0, if Holds(Address, row) then 1 else 0,
      if Holds(Npsn, row) then 1 else 0, if Holds(ProvinceAt(pc), row) then 1 else 0)
  {
    assert [] + [line] == [line];
    CountsOfSnoc([], line, pc);
  }

  /** The other counters over the mismatching row. */
  lemma MismatchHolds(lat: string)
    requires lat != ""
    ensures Holds(Coordinates, MismatchRow(lat)) && !Holds(Address, MismatchRow(lat)) && Holds(Npsn, MismatchRow(lat))
  {
    StripEmptyIff("", JsSpace);
    StripOfStripped("1", JsSpace);
    assert AllDigits("1");
  }

  /** A file holding a header `h` and that row. */
  function MismatchFile(lat: string): string {
    "h" + "\n" + MismatchLine(lat)
  }

  lemma QualityOfOneLine(content: string, line: string, pc: nat)
    requires DataLines(content) == [line]
    ensures QualityOf(Some(content), pc) == Some(Quality(1, Some(CountsOf([line], pc))))
  {
  }

  /** On that file, for any latitude, the province counter as written
      reports 1, while no school in the file has a province. */
  lemma ProvinceCountersDiffer(lat: string)
    requires ',' !in lat && '\n' !in lat && Trim(lat) != ""
    ensures QualityOf(Some(MismatchFile(lat)), ProvinceFieldAsWritten) == Some(Quality(1, Some(MetricCounts(1, 0, 1, 1))))
    ensures QualityOf(Some(MismatchFile(lat)), ProvinceField) == Some(Quality(1, Some(MetricCounts(1, 0, 1, 0))))
  {
    var line := MismatchLine(lat);
    MismatchLineFields(lat);
    assert !InClass('h', JsSpace) && !InClass('z', JsSpace);
    OneDataLine("h", line);
    QualityOfOneLine(MismatchFile(lat), line, ProvinceFieldAsWritten);
    QualityOfOneLine(MismatchFile(lat), line, ProvinceField);
    ProvinceMismatch(lat);
    MismatchHolds(lat);
    OneLineCounts(line, MismatchRow(lat), ProvinceFieldAsWritten);
    OneLineCounts(line, MismatchRow(lat), ProvinceField);
  }
}
