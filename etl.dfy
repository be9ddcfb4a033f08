/** The value level of the ETL step that turns the raw dataset into the
    canonical schools table: sanitising a cell and choosing the source column
    that feeds each schema field. */
module EtlValues {
  import opened Common

  /** The canonical columns, in the order in which the normalised record is
      written, and hence the order of `Object.keys` on it. */
  const Schema: seq<string> := ["npsn", "nama", "bentuk_pendidikan", "status", "alamat", "kelurahan",
    "kecamatan", "kab_kota", "provinsi", "lat", "lon", "updated_at"]

  // ---------------------------------------------------------------------------
  // sanitize

  predicate IsControl(c: char) {
    c <= '\U{1F}'
  }

  /** `s.replace(/\s+/g, ' ')`: every maximal run of whitespace becomes one
      space. */
  function CollapseWs(s: string): string {
    if |s| == 0 then ""
    else
      var p := CollapseWs(s[..|s| - 1]);
      var c := s[|s| - 1];
      if !IsJsSpace(c) then p + [c]
      else if |s| > 1 && IsJsSpace(s[|s| - 2]) then p
      else p + " "
  }

  /** After collapsing, whitespace is only single spaces, it ends in a space
      exactly when the input ends in whitespace, and the other characters are
      kept in order. */
  lemma {:induction false} CollapseWsSpec(s: string)
    ensures var r := CollapseWs(s);
      (forall i :: 0 <= i < |r| && IsJsSpace(r[i]) ==> r[i] == ' ') &&
      (forall i :: 0 <= i < |r| - 1 ==> !(IsJsSpace(r[i]) && IsJsSpace(r[i + 1]))) &&
      ((|r| > 0 && IsJsSpace(r[|r| - 1])) <==> (|s| > 0 && IsJsSpace(s[|s| - 1]))) &&
      NonSpace(r) == NonSpace(s)
  {
    if |s| > 0 {
      CollapseWsSpec(s[..|s| - 1]);
    }
  }

  /** The characters of s that are not whitespace, in order. */
  function NonSpace(s: string): string {
    if |s| == 0 then ""
    else NonSpace(s[..|s| - 1]) + (if IsJsSpace(s[|s| - 1]) then "" else [s[|s| - 1]])
  }

  /** `s.replace(/[\u0000-\u001F]/g, '')`. */
  function DropControl(s: string): (r: string)
    ensures forall c :: c in r ==> c in s && !IsControl(c)
  {
    if |s| == 0 then ""
    else DropControl(s[..|s| - 1]) + (if IsControl(s[|s| - 1]) then "" else [s[|s| - 1]])
  }

  /** `sanitize(value)`; None is a value that is not a string. The result has
      no control character and no surrounding whitespace. */
  function Sanitize(value: Option<string>): (r: string)
    ensures value.None? ==> r == ""
    ensures forall c :: c in r ==> !IsControl(c)
    ensures IsStripped(r, JsSpace)
  {
    match value
    case None => ""
    case Some(s) =>
      var t := DropControl(CollapseWs(s));
      StripStripped(t, JsSpace);
      Trim(t)
  }

  lemma {:induction false} CollapsePlain(a: string)
    requires forall i :: 0 <= i < |a| ==> !IsJsSpace(a[i])
    ensures CollapseWs(a) == a
  {
    if |a| > 0 {
      CollapsePlain(a[..|a| - 1]);
    }
  }

  lemma {:induction false} CollapseAppendPlain(x: string, b: string)
    requires forall i :: 0 <= i < |b| ==> !IsJsSpace(b[i])
    ensures CollapseWs(x + b) == CollapseWs(x) + b
  {
    if |b| > 0 {
      var b' := b[..|b| - 1];
      assert (x + b)[..|x + b| - 1] == x + b';
      CollapseAppendPlain(x, b');
    } else {
      assert x + b == x;
    }
  }

  lemma {:induction false} CollapseRun(a: string, w: string)
    requires forall i :: 0 <= i < |a| ==> !IsJsSpace(a[i])
    requires |w| > 0 && forall i :: 0 <= i < |w| ==> IsJsSpace(w[i])
    ensures CollapseWs(a + w) == a + " "
  {
    var w' := w[..|w| - 1];
    assert (a + w)[..|a + w| - 1] == a + w';
    if |w'| == 0 {
      CollapsePlain(a);
      assert a + w' == a;
    } else {
      CollapseRun(a, w');
      assert (a + w)[|a + w| - 2] == w'[|w'| - 1];
    }
  }

  /** Collapsing a string that starts with a non-whitespace character
      after any text is collapsing the two apart. */
  lemma {:induction false} CollapseSplit(u: string, y: string)
    requires |y| == 0 || !IsJsSpace(y[0])
    ensures CollapseWs(u + y) == CollapseWs(u) + CollapseWs(y)
  {
    if |y| == 0 {
      assert u + y == u;
    } else {
      var y' := y[..|y| - 1];
      assert (u + y)[..|u + y| - 1] == u + y';
      if |y'| > 0 {
        assert y'[0] == y[0];
        assert (u + y)[|u + y| - 2] == y[|y| - 2];
      }
      CollapseSplit(u, y');
    }
  }

  /** A non-empty whitespace run after text that does not end in whitespace
      becomes exactly one space. */
  lemma {:induction false} CollapseRunAfter(x: string, w: string)
    requires |x| == 0 || !IsJsSpace(x[|x| - 1])
    requires |w| > 0 && forall i :: 0 <= i < |w| ==> IsJsSpace(w[i])
    ensures CollapseWs(x + w) == CollapseWs(x) + " "
  {
    var w' := w[..|w| - 1];
    assert (x + w)[..|x + w| - 1] == x + w';
    if |w'| == 0 {
      assert x + w' == x;
    } else {
      CollapseRunAfter(x, w');
      assert (x + w)[|x + w| - 2] == w'[|w'| - 1];
    }
  }

  /** `replace(/\s+/g, ' ')` maps each maximal whitespace run to exactly
      one space: a run w between text x that does not end in whitespace and
      text y that does not start with it collapses to one space, and the two
      sides collapse independently. With CollapsePlain this determines the
      result for every string. */
  lemma CollapseWsRuns(x: string, w: string, y: string)
    requires |x| == 0 || !IsJsSpace(x[|x| - 1])
    requires |w| > 0 && forall i :: 0 <= i < |w| ==> IsJsSpace(w[i])
    requires |y| == 0 || !IsJsSpace(y[0])
    ensures CollapseWs(x + w + y) == CollapseWs(x) + " " + CollapseWs(y)
  {
    CollapseRunAfter(x, w);
    CollapseSplit(x + w, y);
  }

  lemma {:induction false} DropControlPlain(s: string)
    requires forall i :: 0 <= i < |s| ==> !IsControl(s[i])
    ensures DropControl(s) == s
  {
    if |s| > 0 {
      DropControlPlain(s[..|s| - 1]);
      assert s == s[..|s| - 1] + [s[|s| - 1]];
    }
  }

  predicate Word(s: string) {
    |s| > 0 && forall i :: 0 <= i < |s| ==> !IsJsSpace(s[i]) && !IsControl(s[i])
  }

  /** Two words separated by any run of whitespace come out separated by one
      space. */
  lemma SanitizeSpacedWords(a: string, w: string, b: string)
    requires Word(a) && Word(b)
    requires |w| > 0 && forall i :: 0 <= i < |w| ==> IsJsSpace(w[i])
    ensures Sanitize(Some(a + w + b)) == a + " " + b
  {
    CollapseAppendPlain(a + w, b);
    CollapseRun(a, w);
    var t := a + " " + b;
    forall i | 0 <= i < |t| ensures !IsControl(t[i]) {
      if i < |a| {
        assert t[i] == a[i];
      } else if i > |a| {
        assert t[i] == b[i - |a| - 1];
      }
    }
    DropControlPlain(t);
    StripOfStripped(t, JsSpace);
  }

  // ---------------------------------------------------------------------------
  // normaliseRecord and validateRecord

  /** The index of the first alias whose value is non-empty, or |aliases|. */
  function FirstTruthy(raw: Record, aliases: seq<string>): (i: nat)
    ensures i <= |aliases|
    ensures i < |aliases| ==> Truthy(raw, aliases[i])
    ensures forall m :: 0 <= m < i ==> !Truthy(raw, aliases[m])
  {
    if |aliases| == 0 then 0
    else if Truthy(raw, aliases[0]) then 0
    else 1 + FirstTruthy(raw, aliases[1..])
  }

  /** `raw.a || raw.b || … || ''`. */
  function Pick(raw: Record, aliases: seq<string>): string {
    var i := FirstTruthy(raw, aliases);
    if i < |aliases| then raw[aliases[i]] else ""
  }

  /** Source column names consulted for each schema field but the last. */
  const Aliases: seq<seq<string>> := [["npsn", "NPSN"], ["nama", "nama_sekolah", "Nama"],
    ["bentuk_pendidikan", "jenjang"], ["status", "status_sekolah"], ["alamat", "alamat_jalan"],
    ["kelurahan", "desa"], ["kecamatan"], ["kabupaten", "kota"], ["provinsi"],
    ["lat", "latitude"], ["lon", "longitude"]]

  /** `sanitize(raw.a || raw.b || … || '')`. */
  function PickClean(raw: Record, aliases: seq<string>): string {
    Sanitize(Some(Pick(raw, aliases)))
  }

  /** The sanitised values of the alias lists, in order. */
  function AliasValues(raw: Record, lists: seq<seq<string>>): (v: seq<string>)
    ensures |v| == |lists|
  {
    if |lists| == 0 then [] else [PickClean(raw, lists[0])] + AliasValues(raw, lists[1..])
  }

  lemma {:induction false} AliasValuesAt(raw: Record, lists: seq<seq<string>>, k: nat)
    requires k < |lists|
    ensures AliasValues(raw, lists)[k] == PickClean(raw, lists[k])
  {
    if k > 0 {
      AliasValuesAt(raw, lists[1..], k - 1);
    }
  }

  /** The values of the normalised record in schema order: the sanitised
      first non-empty alias of each field, and the date of the run for
      `updated_at`. */
  function Values(raw: Record, today: string): (v: seq<string>)
    ensures |v| == |Schema|
  {
    AliasValues(raw, Aliases) + [today]
  }

  lemma {:induction false} FirstTruthyIgnores(raw: Record, aliases: seq<string>, k: string, v: string)
    requires k !in aliases
    ensures FirstTruthy(raw[k := v], aliases) == FirstTruthy(raw, aliases)
  {
    if |aliases| > 0 {
      assert aliases[0] != k;
      FirstTruthyIgnores(raw, aliases[1..], k, v);
    }
  }

  lemma PickIgnores(raw: Record, aliases: seq<string>, k: string, v: string)
    requires k !in aliases
    ensures Pick(raw[k := v], aliases) == Pick(raw, aliases)
  {
    FirstTruthyIgnores(raw, aliases, k, v);
    var i := FirstTruthy(raw, aliases);
    if i < |aliases| {
      assert aliases[i] in aliases;
    }
  }

  /** A column that no alias list names does not affect the values. */
  lemma {:induction false} AliasValuesIgnore(raw: Record, lists: seq<seq<string>>, k: string, v: string)
    requires forall m :: 0 <= m < |lists| ==> k !in lists[m]
    ensures AliasValues(raw[k := v], lists) == AliasValues(raw, lists)
  {
    if |lists| > 0 {
      PickIgnores(raw, lists[0], k, v);
      AliasValuesIgnore(raw, lists[1..], k, v);
    }
  }

  /** No source column named `kab_kota` is consulted: the output `kab_kota`
      comes from `kabupaten` or `kota` only. */
  lemma ValuesIgnoreKabKota(raw: Record, v: string, today: string)
    ensures Values(raw["kab_kota" := v], today) == Values(raw, today)
  {
    assert forall m :: 0 <= m < |Aliases| ==> "kab_kota" !in Aliases[m];
    AliasValuesIgnore(raw, Aliases, "kab_kota", v);
  }

  /** Collapsing only ever introduces spaces. */
  lemma {:induction false} CollapseWsChars(s: string)
    ensures forall c :: c in CollapseWs(s) ==> c in s || c == ' '
  {
    if |s| > 0 {
      CollapseWsChars(s[..|s| - 1]);
      assert forall c :: c in s[..|s| - 1] ==> c in s;
    }
  }

  /** Sanitising keeps a subset of the characters, plus spaces. */
  lemma SanitizeChars(s: string)
    ensures forall c :: c in Sanitize(Some(s)) ==> c in s || c == ' '
  {
    var t := DropControl(CollapseWs(s));
    CollapseWsChars(s);
    StripStripped(t, JsSpace);
  }

  /** When no raw value holds a comma, neither does any normalised value
      drawn from the raw record. */
  lemma AliasValuesNoComma(raw: Record, lists: seq<seq<string>>)
    requires forall k :: k in raw ==> ',' !in raw[k]
    ensures forall i :: 0 <= i < |lists| ==> ',' !in AliasValues(raw, lists)[i]
  {
    forall i | 0 <= i < |lists| ensures ',' !in AliasValues(raw, lists)[i] {
      AliasValuesAt(raw, lists, i);
      var p := Pick(raw, lists[i]);
      SanitizeChars(p);
    }
  }

  lemma SchemaNoDup()
    ensures NoDup(Schema)
  {
  }
}


/** The record level of the ETL step: the normalised record, the NPSN filter,
    the naive comma parser, and the comma-and-newline serialiser whose output
    the same parser reads back. */
module Etl {
  import opened Common
  import opened EtlValues
  import opened EtlTable

  // ---------------------------------------------------------------------------
  // normaliseRecord

  /** `normaliseRecord(raw)`, with the date of the run as `today`: the object
      literal that gives each schema field its value. */
  function NormaliseRecord(raw: Record, today: string): Record {
    ZipRecord(Schema, Values(raw, today))
  }

  /** The normalised record has the twelve schema keys and no other; each
      field holds the sanitised value of its first non-empty alias, and
      `updated_at` the date of the run. */
  lemma NormaliseFields(raw: Record, today: string)
    ensures forall k :: k in NormaliseRecord(raw, today) <==> k in Schema
    ensures forall i :: 0 <= i < |Aliases| ==> NormaliseRecord(raw, today)[Schema[i]] == PickClean(raw, Aliases[i])
    ensures NormaliseRecord(raw, today)["updated_at"] == today
  {
    var v := Values(raw, today);
    SchemaNoDup();
    ZipRecordAll(Schema, v);
    forall i | 0 <= i < |Aliases| ensures v[i] == PickClean(raw, Aliases[i]) {
      AliasValuesAt(raw, Aliases, i);
    }
    assert Schema[11] == "updated_at";
  }

  /** A raw `kab_kota` column changes nothing in the normalised record. */
  lemma KabKotaNotFromKabKota(raw: Record, v: string, today: string)
    ensures NormaliseRecord(raw["kab_kota" := v], today) == NormaliseRecord(raw, today)
  {
    ValuesIgnoreKabKota(raw, v, today);
  }

  // ---------------------------------------------------------------------------
  // validateRecord and the pipeline

  /** `validateRecord(record)`: the NPSN is present, non-empty and all ASCII
      digits. */
  predicate ValidRecord(record: Record) {
    "npsn" in record && AllDigits(record["npsn"])
  }

  /** `recs.filter(validateRecord)`. */
  function KeepValid(recs: seq<Record>): (p: seq<Record>)
    ensures |p| <= |recs|
  {
    if |recs| == 0 then []
    else (if ValidRecord(recs[0]) then [recs[0]] else []) + KeepValid(recs[1..])
  }

  lemma {:induction false} KeepValidAppend(a: seq<Record>, b: seq<Record>)
    ensures KeepValid(a + b) == KeepValid(a) + KeepValid(b)
  {
    if |a| > 0 {
      assert (a + b)[1..] == a[1..] + b;
      KeepValidAppend(a[1..], b);
    } else {
      assert a + b == b;
    }
  }

  lemma {:induction false} KeepValidMember(recs: seq<Record>, x: Record)
    ensures x in KeepValid(recs) <==> x in recs && ValidRecord(x)
  {
    if |recs| > 0 {
      KeepValidMember(recs[1..], x);
      assert recs == [recs[0]] + recs[1..];
    }
  }

  /** `rawRecords.map(normaliseRecord)`. */
  function Normalised(raws: seq<Record>, today: string): (ns: seq<Record>)
    ensures |ns| == |raws|
  {
    if |raws| == 0 then [] else [NormaliseRecord(raws[0], today)] + Normalised(raws[1..], today)
  }

  /** `rawRecords.map(normaliseRecord).filter(validateRecord)`. */
  function Processed(raws: seq<Record>, today: string): (p: seq<Record>)
    ensures |p| <= |raws|
  {
    KeepValid(Normalised(raws, today))
  }

  lemma {:induction false} NormalisedAt(raws: seq<Record>, today: string, i: nat)
    requires i < |raws|
    ensures Normalised(raws, today)[i] == NormaliseRecord(raws[i], today)
  {
    if i > 0 {
      NormalisedAt(raws[1..], today, i - 1);
    }
  }

  lemma {:induction false} NormalisedAppend(a: seq<Record>, b: seq<Record>, today: string)
    ensures Normalised(a + b, today) == Normalised(a, today) + Normalised(b, today)
  {
    if |a| == 0 {
      assert a + b == b;
    } else {
      assert (a + b)[0] == a[0];
      assert (a + b)[1..] == a[1..] + b;
      NormalisedAppend(a[1..], b, today);
    }
  }

  /** The pipeline works record by record, so it keeps the input order. */
  lemma ProcessedAppend(a: seq<Record>, b: seq<Record>, today: string)
    ensures Processed(a + b, today) == Processed(a, today) + Processed(b, today)
  {
    NormalisedAppend(a, b, today);
    KeepValidAppend(Normalised(a, today), Normalised(b, today));
  }

  /** The kept records are exactly the normalised records that pass. */
  lemma ProcessedMember(raws: seq<Record>, today: string, x: Record)
    ensures x in Processed(raws, today) <==> x in Normalised(raws, today) && ValidRecord(x)
  {
    KeepValidMember(Normalised(raws, today), x);
  }

  // ---------------------------------------------------------------------------
  // The written table

  /** The contents the run writes to the schools table, or None when no
      record survives (the run then stops with an error). The header is
      `Object.keys` of the first record, which is the schema order. */
  function OutputText(raws: seq<Record>, today: string): (out: Option<string>)
    ensures out.None? <==> Processed(raws, today) == []
  {
    var p := Processed(raws, today);
    if |p| == 0 then None else Some(Join(Lines(Schema, p), "\n"))
  }

  /** A comma-free raw record normalises to a clean row when the run's date
      is clean: sanitising adds no comma, removes line breaks (they are
      control characters) and strips the surrounding whitespace. */
  lemma NormaliseClean(raw: Record, today: string)
    requires CleanValue(today) && NoComma(raw)
    ensures CleanRow(Schema, NormaliseRecord(raw, today))
  {
    var v := Values(raw, today);
    var r := NormaliseRecord(raw, today);
    SchemaNoDup();
    ZipRecordAll(Schema, v);
    AliasValuesNoComma(raw, Aliases);
    assert IsControl('\n') && IsControl('\r');
    forall i | 0 <= i < |Schema| ensures CleanValue(r[Schema[i]]) {
      if i < |Aliases| {
        AliasValuesAt(raw, Aliases, i);
      }
    }
  }

  /** A column name of lower-case letters and underscores. */
  predicate Name(s: string) {
    forall c :: c in s ==> 'a' <= c <= 'z' || c == '_'
  }

  lemma NameClean(s: string)
    requires Name(s)
    ensures CleanValue(s)
  {
    if |s| > 0 {
      assert s[0] in s && s[|s| - 1] in s;
    }
  }

  lemma SchemaClean()
    ensures CleanHeader(Schema)
  {
    SchemaNoDup();
    forall i | 0 <= i < |Schema| ensures CleanValue(Schema[i]) {
      NameClean(Schema[i]);
    }
  }

  lemma ProcessedClean(raws: seq<Record>, today: string)
    requires CleanValue(today)
    requires forall j :: 0 <= j < |raws| ==> NoComma(raws[j])
    ensures forall j :: 0 <= j < |Processed(raws, today)| ==> CleanRow(Schema, Processed(raws, today)[j])
  {
    var p := Processed(raws, today);
    forall j | 0 <= j < |p| ensures CleanRow(Schema, p[j]) {
      ProcessedMember(raws, today, p[j]);
      var m :| 0 <= m < |raws| && Normalised(raws, today)[m] == p[j];
      NormalisedAt(raws, today, m);
      NormaliseClean(raws[m], today);
    }
  }

  /** The run's output parses back into the processed records whenever no
      raw value contains a comma and the run's date is a clean value. */
  lemma OutputRoundTrip(raws: seq<Record>, today: string)
    requires OutputText(raws, today).Some?
    requires CleanValue(today)
    requires forall j :: 0 <= j < |raws| ==> NoComma(raws[j])
    ensures ParseTable(OutputText(raws, today).value) == Processed(raws, today)
  {
    var p := Processed(raws, today);
    SchemaClean();
    ProcessedClean(raws, today);
    WriteThenParse(Schema, p);
  }

  /** Running the step on its own output table changes nothing: the records
      read from any table are comma-free, so the table written for them reads
      back as the same records. */
  lemma RerunReadsBack(s: string, today: string)
    requires CleanValue(today)
    requires OutputText(ParseTable(s), today).Some?
    ensures ParseTable(OutputText(ParseTable(s), today).value) == Processed(ParseTable(s), today)
  {
    ParseTableNoComma(s);
    OutputRoundTrip(ParseTable(s), today);
  }
}
