/** The data-quality checks that the Python test runner applies to the ETL
    output table `data/schools.csv`, and the bookkeeping of its test suite.

    The table is what `csv.DictReader` yields: the header and one record per
    data row. `None` stands for a file that does not exist. Python's `float()`
    is the parameter `parse`; the float thresholds are compared exactly, by
    cross-multiplication. */
module Validator {
  import opened Common

  /** A value that Python's `float()` accepts. */
  datatype PyFloat = Finite(v: real) | NaN | Infinity(positive: bool)

  /** `lo <= f <= hi` on Python floats: NaN and the infinities are outside
      every finite interval. */
  predicate Within(f: PyFloat, lo: int, hi: int) {
    f.Finite? && lo as real <= f.v <= hi as real
  }

  // The bounding box of Indonesia.
  const LatMin: int := -11
  const LatMax: int := 6
  const LonMin: int := 95
  const LonMax: int := 141

  datatype Table = Table(header: seq<string>, rows: seq<Record>)

  /** How a check ends: it returns, or it fails an assertion about the given
      data. The message text is not modelled, only the data it reports. */
  datatype Verdict =
    | Pass
    | MissingColumn(column: string)
    | NotNumeric(column: string, value: string)
    | TooManyInvalid(invalid: nat, withCoords: nat)
    | TooManyDuplicates(duplicates: nat, occurrences: nat)
    | TooManyEmpty(field: string, empty: nat, total: nat)
    | TooManyNonNumeric(count: nat, total: nat)

  /** `row.get(k, '').strip()`. */
  function Cell(row: Record, k: string): string {
    PyStrip(Field(row, k))
  }

  /** The rows of the table, or none when the file does not exist. */
  function Rows(data: Option<Table>): seq<Record> {
    if data.None? then [] else data.value.rows
  }

  // ---------------------------------------------------------------------------
  // Required columns

  const RequiredColumns: seq<string> :=
    ["npsn", "nama", "bentuk_pendidikan", "status", "alamat", "kelurahan",
     "kecamatan", "kab_kota", "provinsi", "lat", "lon", "updated_at"]

  const BasicColumns: seq<string> := ["npsn", "nama", "provinsi", "kab_kota", "kecamatan"]

  /** Column `c` is the first of `required` that is not in `present`. */
  ghost predicate FirstAbsent(required: seq<string>, present: set<string>, c: string) {
    exists i :: 0 <= i < |required| && required[i] == c && c !in present
      && forall j :: 0 <= j < i ==> required[j] in present
  }

  /** Asserting, name by name, that each of `required` is in `present`. */
  method FirstMissing(required: seq<string>, present: set<string>) returns (v: Verdict)
    ensures v.Pass? <==> forall c :: c in required ==> c in present
    ensures v.Pass? || v.MissingColumn?
    ensures v.MissingColumn? ==> FirstAbsent(required, present, v.column)
  {
    for i := 0 to |required|
      invariant forall j :: 0 <= j < i ==> required[j] in present
    {
      if required[i] !in present {
        return MissingColumn(required[i]);
      }
    }
    return Pass;
  }

  /** "CSV has all required columns": every one of the twelve names is in the
      header, which is empty for an empty file. */
  method CheckSchema(data: Option<Table>) returns (v: Verdict)
    ensures data.None? ==> v.Pass?
    ensures data.Some? ==> (v.Pass? <==> forall c :: c in RequiredColumns ==> c in data.value.header)
    ensures v.Pass? || v.MissingColumn?
    ensures v.MissingColumn? ==>
      data.Some? && FirstAbsent(RequiredColumns, (set h | h in data.value.header), v.column)
  {
    if data.None? {
      return Pass;
    }
    v := FirstMissing(RequiredColumns, set h | h in data.value.header);
  }

  /** "schools.csv has required columns": the five basic names are keys of the
      first row. */
  method CheckBasicColumns(data: Option<Table>) returns (v: Verdict)
    ensures Rows(data) == [] ==> v.Pass?
    ensures Rows(data) != [] ==> (v.Pass? <==> forall c :: c in BasicColumns ==> c in Rows(data)[0])
    ensures v.Pass? || v.MissingColumn?
    ensures v.MissingColumn? ==> Rows(data) != [] && FirstAbsent(BasicColumns, Rows(data)[0].Keys, v.column)
  {
    if data.None? || data.value.rows == [] {
      return Pass;
    }
    v := FirstMissing(BasicColumns, data.value.rows[0].Keys);
  }

  // ---------------------------------------------------------------------------
  // Numeric coordinates in the first ten rows

  /** A blank cell, or one that `float()` accepts. */
  predicate Numeric(row: Record, col: string, parse: string -> Option<PyFloat>) {
    Cell(row, col) == "" || parse(Cell(row, col)).Some?
  }

  predicate RowNumeric(row: Record, parse: string -> Option<PyFloat>) {
    Numeric(row, "lat", parse) && Numeric(row, "lon", parse)
  }

  /** `rows[:10]`. */
  function Sample(rows: seq<Record>): (s: seq<Record>)
    ensures |s| <= 10 && |s| <= |rows| && s == rows[..|s|]
    ensures |rows| >= 10 ==> |s| == 10
    ensures |rows| < 10 ==> s == rows
  {
    if |rows| <= 10 then rows else rows[..10]
  }

  /** The cell `value` of column `col` in row i is the first one, in row order
      and lat before lon, that is not numeric. */
  ghost predicate FirstNotNumericAt(rows: seq<Record>, parse: string -> Option<PyFloat>, i: int, col: string, value: string) {
    0 <= i < |rows| && (forall j :: 0 <= j < i ==> RowNumeric(rows[j], parse))
    && ((col == "lat" && !Numeric(rows[i], "lat", parse))
        || (col == "lon" && Numeric(rows[i], "lat", parse) && !Numeric(rows[i], "lon", parse)))
    && value == Cell(rows[i], col)
  }

  /** The scan over the sample: lat, then lon, row by row. */
  method FirstNotNumeric(sample: seq<Record>, parse: string -> Option<PyFloat>) returns (v: Verdict)
    ensures v.Pass? <==> forall i :: 0 <= i < |sample| ==> RowNumeric(sample[i], parse)
    ensures v.Pass? || v.NotNumeric?
    ensures v.NotNumeric? ==> exists i :: FirstNotNumericAt(sample, parse, i, v.column, v.value)
  {
    for i := 0 to |sample|
      invariant forall j :: 0 <= j < i ==> RowNumeric(sample[j], parse)
    {
      if !Numeric(sample[i], "lat", parse) {
        assert FirstNotNumericAt(sample, parse, i, "lat", Cell(sample[i], "lat"));
        return NotNumeric("lat", Cell(sample[i], "lat"));
      }
      if !Numeric(sample[i], "lon", parse) {
        assert FirstNotNumericAt(sample, parse, i, "lon", Cell(sample[i], "lon"));
        return NotNumeric("lon", Cell(sample[i], "lon"));
      }
    }
    return Pass;
  }

  /** "CSV lat/lon are numeric": only the first ten rows are looked at. */
  method CheckLatLonNumeric(data: Option<Table>, parse: string -> Option<PyFloat>) returns (v: Verdict)
    ensures Rows(data) == [] ==> v.Pass?
    ensures v.Pass? <==> forall i :: 0 <= i < |Sample(Rows(data))| ==> RowNumeric(Sample(Rows(data))[i], parse)
    ensures v.Pass? || v.NotNumeric?
    ensures v.NotNumeric? ==> exists i :: FirstNotNumericAt(Sample(Rows(data)), parse, i, v.column, v.value)
  {
    if data.None? || data.value.rows == [] {
      return Pass;
    }
    v := FirstNotNumeric(Sample(data.value.rows), parse);
  }

  // ---------------------------------------------------------------------------
  // Coordinates within the bounding box

  /** The out-of-bounds entries one row adds: none unless both stripped cells
      are non-blank and both parse, then one for each coordinate outside its
      range. */
  function RowViolations(row: Record, parse: string -> Option<PyFloat>): (n: nat)
    ensures n <= 2
  {
    var lat := Cell(row, "lat");
    var lon := Cell(row, "lon");
    if lat == "" || lon == "" then 0
    else match (parse(lat), parse(lon))
      case (Some(a), Some(b)) =>
        (if Within(a, LatMin, LatMax) then 0 else 1) + (if Within(b, LonMin, LonMax) then 0 else 1)
      case _ => 0
  }

  function Violations(rows: seq<Record>, parse: string -> Option<PyFloat>): nat {
    if |rows| == 0 then 0
    else Violations(rows[..|rows| - 1], parse) + RowViolations(rows[|rows| - 1], parse)
  }

  /** The rows whose raw, unstripped lat and lon are both non-empty. */
  function WithCoords(rows: seq<Record>): nat {
    if |rows| == 0 then 0
    else
      var last := rows[|rows| - 1];
      WithCoords(rows[..|rows| - 1]) + (if Truthy(last, "lat") && Truthy(last, "lon") then 1 else 0)
  }

  /** The body of the loop over the rows. */
  method RowCheck(row: Record, parse: string -> Option<PyFloat>) returns (invalid: nat)
    ensures invalid == RowViolations(row, parse)
  {
    invalid := 0;
    var lat := Cell(row, "lat");
    var lon := Cell(row, "lon");
    if lat != "" && lon != "" {
      var a := parse(lat);
      var b := parse(lon);
      if a.Some? && b.Some? {
        if !Within(a.value, LatMin, LatMax) {
          invalid := invalid + 1;
        }
        if !Within(b.value, LonMin, LonMax) {
          invalid := invalid + 1;
        }
      }
    }
  }

  /** "Coordinates within Indonesia bounds": at most 5% of the rows with
      coordinates may be out of bounds. */
  method CheckBounds(data: Option<Table>, parse: string -> Option<PyFloat>) returns (v: Verdict)
    ensures Rows(data) == [] ==> v.Pass?
    ensures v.Pass? <==> 20 * Violations(Rows(data), parse) <= WithCoords(Rows(data))
    ensures v.Pass? || v == TooManyInvalid(Violations(Rows(data), parse), WithCoords(Rows(data)))
  {
    if data.None? || data.value.rows == [] {
      return Pass;
    }
    var rows := data.value.rows;
    var invalid := 0;
    for i := 0 to |rows|
      invariant invalid == Violations(rows[..i], parse)
    {
      assert rows[..i + 1][..i] == rows[..i];
      var n := RowCheck(rows[i], parse);
      invalid := invalid + n;
    }
    assert rows[..|rows|] == rows;
    var total := WithCoords(rows);
    if invalid > 0 && 20 * invalid > total {
      return TooManyInvalid(invalid, total);
    }
    return Pass;
  }

  /** Each row adds at most two violations and at most one row with
      coordinates. */
  lemma {:induction false} BoundsCounts(rows: seq<Record>, parse: string -> Option<PyFloat>)
    ensures Violations(rows, parse) <= 2 * |rows|
    ensures WithCoords(rows) <= |rows|
  {
    if |rows| > 0 {
      BoundsCounts(rows[..|rows| - 1], parse);
    }
  }

  /** A row whose lat or lon does not parse adds no violation, and a NaN
      coordinate that parses next to a numeric partner is out of bounds. */
  lemma RowViolationsCases(row: Record, parse: string -> Option<PyFloat>)
    ensures parse(Cell(row, "lat")).None? || parse(Cell(row, "lon")).None? ==> RowViolations(row, parse) == 0
    ensures (Cell(row, "lat") != "" && Cell(row, "lon") != "" && parse(Cell(row, "lat")) == Some(NaN)
             && parse(Cell(row, "lon")).Some?) ==> RowViolations(row, parse) >= 1
    ensures RowViolations(row, parse) > 0 ==> Cell(row, "lat") != "" && Cell(row, "lon") != ""
  {
  }

  lemma {:induction false} ViolationsAppend(a: seq<Record>, b: seq<Record>, parse: string -> Option<PyFloat>)
    ensures Violations(a + b, parse) == Violations(a, parse) + Violations(b, parse)
    decreases |b|
  {
    if |b| == 0 {
      assert a + b == a;
    } else {
      var n := |b| - 1;
      assert (a + b)[..|a + b| - 1] == a + b[..n];
      ViolationsAppend(a, b[..n], parse);
    }
  }

  /** A failing bounds check points at some row with a violation. */
  lemma {:induction false} BoundsFailWitness(rows: seq<Record>, parse: string -> Option<PyFloat>)
    requires Violations(rows, parse) > 0
    ensures exists i :: 0 <= i < |rows| && RowViolations(rows[i], parse) > 0
  {
    var n := |rows| - 1;
    if RowViolations(rows[n], parse) == 0 {
      BoundsFailWitness(rows[..n], parse);
      var i :| 0 <= i < n && RowViolations(rows[..n][i], parse) > 0;
      assert rows[..n][i] == rows[i];
    }
  }

  // ---------------------------------------------------------------------------
  // NPSN uniqueness

  /** The non-blank stripped NPSN values, in row order. */
  function NpsnValues(rows: seq<Record>): (vals: seq<string>)
    ensures |vals| <= |rows|
  {
    if |rows| == 0 then []
    else
      var n := Cell(rows[|rows| - 1], "npsn");
      NpsnValues(rows[..|rows| - 1]) + (if n != "" then [n] else [])
  }

  lemma {:induction false} NpsnValuesSound(rows: seq<Record>, x: string)
    requires x in NpsnValues(rows)
    ensures x != "" && exists i :: 0 <= i < |rows| && Cell(rows[i], "npsn") == x
  {
    var m := |rows| - 1;
    var c := Cell(rows[m], "npsn");
    if c == "" || x != c {
      NpsnValuesSound(rows[..m], x);
      var i :| 0 <= i < m && Cell(rows[..m][i], "npsn") == x;
      assert rows[..m][i] == rows[i];
    }
  }

  lemma {:induction false} NpsnValuesComplete(rows: seq<Record>, i: nat)
    requires i < |rows| && Cell(rows[i], "npsn") != ""
    ensures Cell(rows[i], "npsn") in NpsnValues(rows)
  {
    var m := |rows| - 1;
    if i < m {
      NpsnValuesComplete(rows[..m], i);
      assert rows[..m][i] == rows[i];
    }
  }

  /** The values collected are exactly the non-blank stripped NPSN cells. */
  lemma NpsnValuesMember(rows: seq<Record>, x: string)
    ensures x in NpsnValues(rows) <==> x != "" && exists i :: 0 <= i < |rows| && Cell(rows[i], "npsn") == x
  {
    if x in NpsnValues(rows) {
      NpsnValuesSound(rows, x);
    }
    if x != "" && exists i :: 0 <= i < |rows| && Cell(rows[i], "npsn") == x {
      var i :| 0 <= i < |rows| && Cell(rows[i], "npsn") == x;
      NpsnValuesComplete(rows, i);
    }
  }

  /** Python's `len(set(s))`. */
  function Distinct(s: seq<string>): nat {
    |set x | x in s|
  }

  lemma SetOfSnoc(init: seq<string>, last: string)
    ensures (set x | x in init + [last]) == (set x | x in init) + {last}
  {
  }

  lemma NoDupSnoc(init: seq<string>, last: string)
    ensures NoDup(init + [last]) <==> NoDup(init) && last !in init
  {
    var s := init + [last];
    if NoDup(init) && last !in init {
      forall i, j | 0 <= i < j < |s| ensures s[i] != s[j] {
        if j < |init| {
          assert s[i] == init[i] && s[j] == init[j];
        } else {
          assert s[i] in init;
        }
      }
    }
    if NoDup(s) {
      forall i, j | 0 <= i < j < |init| ensures init[i] != init[j] {
        assert s[i] == init[i] && s[j] == init[j];
      }
    }
    if last in init {
      var k :| 0 <= k < |init| && init[k] == last;
      assert s[k] == s[|s| - 1] && k < |s| - 1;
    }
  }

  lemma {:induction false} DistinctBound(s: seq<string>)
    ensures Distinct(s) <= |s|
    ensures Distinct(s) == |s| <==> NoDup(s)
  {
    if |s| > 0 {
      var init := s[..|s| - 1];
      var last := s[|s| - 1];
      assert s == init + [last];
      DistinctBound(init);
      SetOfSnoc(init, last);
      NoDupSnoc(init, last);
      if last in init {
        assert last in (set x | x in init);
        assert (set x | x in s) == (set x | x in init);
      }
    }
  }

  /** `len(npsn_values) - len(unique_npsn)`. */
  function Duplicates(s: seq<string>): (d: nat)
    ensures d == 0 <==> NoDup(s)
    ensures d <= |s|
  {
    DistinctBound(s);
    |s| - Distinct(s)
  }

  /** "NPSN values are unique": at most 1% of the NPSN occurrences may repeat
      an earlier one. */
  method CheckUniqueness(data: Option<Table>) returns (v: Verdict)
    ensures Rows(data) == [] ==> v.Pass?
    ensures v.Pass? <==> 100 * Duplicates(NpsnValues(Rows(data))) <= |NpsnValues(Rows(data))|
    ensures v.Pass? || v == TooManyDuplicates(Duplicates(NpsnValues(Rows(data))), |NpsnValues(Rows(data))|)
  {
    if data.None? || data.value.rows == [] {
      return Pass;
    }
    var rows := data.value.rows;
    var values: seq<string> := [];
    for i := 0 to |rows|
      invariant values == NpsnValues(rows[..i])
    {
      assert rows[..i + 1][..i] == rows[..i];
      var npsn := Cell(rows[i], "npsn");
      if npsn != "" {
        values := values + [npsn];
      }
    }
    assert rows[..|rows|] == rows;
    var unique := set x | x in values;
    DistinctBound(values);
    var duplicates := |values| - |unique|;
    if duplicates > 0 && 100 * duplicates > |values| {
      return TooManyDuplicates(duplicates, |values|);
    }
    return Pass;
  }

  /** The uniqueness check passes on every table whose non-blank NPSN values
      are pairwise distinct. */
  lemma DistinctNpsnPasses(rows: seq<Record>)
    requires NoDup(NpsnValues(rows))
    ensures 100 * Duplicates(NpsnValues(rows)) <= |NpsnValues(rows)|
  {
  }

  // ---------------------------------------------------------------------------
  // Completeness of required fields

  const CompletenessFields: seq<string> := ["npsn", "nama", "provinsi", "kab_kota"]

  /** The rows where field f is blank after stripping. */
  function EmptyCount(rows: seq<Record>, f: string): (n: nat)
    ensures n <= |rows|
  {
    if |rows| == 0 then 0
    else EmptyCount(rows[..|rows| - 1], f) + (if Cell(rows[|rows| - 1], f) == "" then 1 else 0)
  }

  /** At most 10% of the rows may have f blank. */
  predicate Complete(rows: seq<Record>, f: string) {
    10 * EmptyCount(rows, f) <= |rows|
  }

  /** Field f, with `empty` blank cells, is the first of `fields` that is not
      complete. */
  ghost predicate FirstIncompleteAt(rows: seq<Record>, fields: seq<string>, f: string, empty: nat) {
    exists k :: 0 <= k < |fields| && fields[k] == f && !Complete(rows, f) && empty == EmptyCount(rows, f)
      && forall j :: 0 <= j < k ==> Complete(rows, fields[j])
  }

  /** The inner loop: one row adds one to the count of each field blank in it. */
  method CountRow(counts: seq<nat>, row: Record, fields: seq<string>) returns (next: seq<nat>)
    requires |counts| == |fields|
    ensures |next| == |fields|
    ensures forall k :: 0 <= k < |fields| ==> next[k] == counts[k] + (if Cell(row, fields[k]) == "" then 1 else 0)
  {
    next := counts;
    for k := 0 to |fields|
      invariant |next| == |fields|
      invariant forall m :: 0 <= m < k ==> next[m] == counts[m] + (if Cell(row, fields[m]) == "" then 1 else 0)
      invariant forall m :: k <= m < |fields| ==> next[m] == counts[m]
    {
      if Cell(row, fields[k]) == "" {
        next := next[k := next[k] + 1];
      }
    }
  }

  /** The dictionary `empty_counts`, one entry per field in order. */
  method EmptyCounts(rows: seq<Record>, fields: seq<string>) returns (counts: seq<nat>)
    ensures |counts| == |fields|
    ensures forall k :: 0 <= k < |fields| ==> counts[k] == EmptyCount(rows, fields[k])
  {
    counts := seq(|fields|, _ => 0);
    for i := 0 to |rows|
      invariant |counts| == |fields|
      invariant forall k :: 0 <= k < |fields| ==> counts[k] == EmptyCount(rows[..i], fields[k])
    {
      assert rows[..i + 1][..i] == rows[..i];
      counts := CountRow(counts, rows[i], fields);
    }
    assert rows[..|rows|] == rows;
  }

  /** Asserting, field by field, that each is complete. */
  method FirstIncomplete(rows: seq<Record>, fields: seq<string>) returns (v: Verdict)
    ensures v.Pass? <==> forall k :: 0 <= k < |fields| ==> Complete(rows, fields[k])
    ensures v.Pass? || v.TooManyEmpty?
    ensures v.TooManyEmpty? ==> v.total == |rows| && FirstIncompleteAt(rows, fields, v.field, v.empty)
  {
    var counts := EmptyCounts(rows, fields);
    var total := |rows|;
    for k := 0 to |fields|
      invariant forall j :: 0 <= j < k ==> Complete(rows, fields[j])
    {
      if 10 * counts[k] > total {
        return TooManyEmpty(fields[k], counts[k], total);
      }
    }
    return Pass;
  }

  /** "Required fields have data". */
  method CheckCompleteness(data: Option<Table>) returns (v: Verdict)
    ensures Rows(data) == [] ==> v.Pass?
    ensures v.Pass? <==> forall k :: 0 <= k < |CompletenessFields| ==> Complete(Rows(data), CompletenessFields[k])
    ensures v.Pass? || v.TooManyEmpty?
    ensures v.TooManyEmpty? ==>
      v.total == |Rows(data)| && FirstIncompleteAt(Rows(data), CompletenessFields, v.field, v.empty)
  {
    if data.None? || data.value.rows == [] {
      return Pass;
    }
    v := FirstIncomplete(data.value.rows, CompletenessFields);
  }

  // ---------------------------------------------------------------------------
  // NPSN format

  /** The rows whose stripped NPSN is non-blank and not all ASCII digits. */
  function NonNumeric(rows: seq<Record>): nat {
    if |rows| == 0 then 0
    else
      var n := Cell(rows[|rows| - 1], "npsn");
      NonNumeric(rows[..|rows| - 1]) + (if n != "" && !AllDigits(n) then 1 else 0)
  }

  /** Only non-blank NPSN values are counted, so the count is bounded by their
      number (the ratio itself is over all rows). */
  lemma {:induction false} NonNumericBound(rows: seq<Record>)
    ensures NonNumeric(rows) <= |NpsnValues(rows)| <= |rows|
  {
    if |rows| > 0 {
      NonNumericBound(rows[..|rows| - 1]);
    }
  }

  /** "NPSN values are numeric": at most 1% of all rows may hold a non-numeric
      NPSN. */
  method CheckNpsnNumeric(data: Option<Table>) returns (v: Verdict)
    ensures Rows(data) == [] ==> v.Pass?
    ensures v.Pass? <==> 100 * NonNumeric(Rows(data)) <= |Rows(data)|
    ensures v.Pass? || v == TooManyNonNumeric(NonNumeric(Rows(data)), |Rows(data)|)
  {
    if data.None? || data.value.rows == [] {
      return Pass;
    }
    var rows := data.value.rows;
    var count := 0;
    for i := 0 to |rows|
      invariant count == NonNumeric(rows[..i])
    {
      assert rows[..i + 1][..i] == rows[..i];
      var npsn := Cell(rows[i], "npsn");
      if npsn != "" && !AllDigits(npsn) {
        count := count + 1;
      }
    }
    assert rows[..|rows|] == rows;
    if 100 * count > |rows| {
      return TooManyNonNumeric(count, |rows|);
    }
    return Pass;
  }

  /** Rows whose NPSN is blank or numeric never make the format check fail. */
  lemma {:induction false} NumericNpsnPasses(rows: seq<Record>)
    requires forall i :: 0 <= i < |rows| ==> Cell(rows[i], "npsn") == "" || AllDigits(Cell(rows[i], "npsn"))
    ensures NonNumeric(rows) == 0
  {
    if |rows| > 0 {
      var m := |rows| - 1;
      assert forall i :: 0 <= i < m ==> rows[..m][i] == rows[i];
      NumericNpsnPasses(rows[..m]);
    }
  }

  // ---------------------------------------------------------------------------
  // The test suite

  datatype TestResult = TestResult(name: string, passed: bool, error: Option<string>)

  datatype Summary = Summary(total: nat, passed: nat, failed: nat)

  function PassedCount(results: seq<TestResult>): (n: nat)
    ensures n <= |results|
  {
    if |results| == 0 then 0
    else PassedCount(results[..|results| - 1]) + (if results[|results| - 1].passed then 1 else 0)
  }

  /** The counts of `get_summary`. */
  function SummaryOf(results: seq<TestResult>): (s: Summary)
    ensures s.total == |results| && s.passed + s.failed == s.total
  {
    var passed := PassedCount(results);
    Summary(|results|, passed, |results| - passed)
  }

  /** Nothing failed exactly when every result passed. */
  lemma {:induction false} NoFailuresIff(results: seq<TestResult>)
    ensures SummaryOf(results).failed == 0 <==> forall i :: 0 <= i < |results| ==> results[i].passed
  {
    if |results| > 0 {
      var m := |results| - 1;
      NoFailuresIff(results[..m]);
      assert forall i :: 0 <= i < m ==> results[..m][i] == results[i];
    }
  }

  /** Recording one more result adds it to exactly one of the two counts. */
  lemma SummaryAppend(results: seq<TestResult>, r: TestResult)
    ensures SummaryOf(results + [r]).total == SummaryOf(results).total + 1
    ensures SummaryOf(results + [r]).passed == SummaryOf(results).passed + (if r.passed then 1 else 0)
    ensures SummaryOf(results + [r]).failed == SummaryOf(results).failed + (if r.passed then 0 else 1)
  {
    assert (results + [r])[..|results|] == results;
  }

  class TestSuite {
    var results: seq<TestResult>
    var setupFailed: bool

    constructor ()
      ensures results == [] && !setupFailed
    {
      results := [];
      setupFailed := false;
    }

    /** `run_test`: `raised` is the message of the exception the test function
        raised, or None when it returned. */
    method RunTest(name: string, raised: Option<string>) returns (r: TestResult)
      modifies this
      ensures r.name == name && (r.passed <==> raised.None?) && r.error == raised
      ensures results == old(results) + [r]
      ensures setupFailed == old(setupFailed)
    {
      r := TestResult(name, raised.None?, raised);
      results := results + [r];
    }

    /** `get_summary` without the durations and the rounded success rate. */
    function GetSummary(): (s: Summary)
      reads this
      ensures s.total == |results| && s.passed + s.failed == s.total
      ensures s.failed == 0 <==> forall i :: 0 <= i < |results| ==> results[i].passed
    {
      NoFailuresIff(results);
      SummaryOf(results)
    }
  }
}
