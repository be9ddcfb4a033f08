/** Values and string operations shared by the whole model: the JavaScript and
    Python notions of whitespace, splitting and joining, records, and the
    sequence folds (filter, count, de-duplication) the scripts perform. */
module Common {

  datatype Option<T> = None | Some(value: T)

  datatype Result<T, E> = Ok(value: T) | Err(error: E)

  /** An argument that a JavaScript function checks with Array.isArray. */
  datatype Input<T> = NonArray | Array(elems: seq<T>)

  /** A school record as produced by the CSV parsers: column name to cell.
      A key that is absent stands for a JavaScript `undefined` property. */
  type Record = map<string, string>

  /** `r[k] === v` in JavaScript: an absent key is `undefined`, never a string. */
  predicate HasValue(r: Record, k: string, v: string) {
    k in r && r[k] == v
  }

  /** `Boolean(r[k])` for a record whose values are strings. */
  predicate Truthy(r: Record, k: string) {
    k in r && r[k] != ""
  }

  /** `r.get(k, '')` in Python, and `r[k] || ''` in JavaScript. */
  function Field(r: Record, k: string): string {
    if k in r then r[k] else ""
  }

  // ---------------------------------------------------------------------------
  // Characters

  /** The characters JavaScript's `trim` removes and its regular-expression
      class `\s` matches (WhiteSpace and LineTerminator of ECMA-262). */
  predicate IsJsSpace(c: char) {
    c == '\t' || c == '\n' || c == '\U{B}' || c == '\U{C}' || c == '\r' || c == ' '
    || c == '\U{A0}' || c == '\U{1680}' || ('\U{2000}' <= c <= '\U{200A}')
    || c == '\U{2028}' || c == '\U{2029}' || c == '\U{202F}' || c == '\U{205F}'
    || c == '\U{3000}' || c == '\U{FEFF}'
  }

  /** The characters Python's `str.strip()` removes (those for which
      `str.isspace` holds). */
  predicate IsPySpace(c: char) {
    ('\t' <= c <= '\r') || ('\U{1C}' <= c <= '\U{1F}') || c == ' ' || c == '\U{85}'
    || c == '\U{A0}' || c == '\U{1680}' || ('\U{2000}' <= c <= '\U{200A}')
    || c == '\U{2028}' || c == '\U{2029}' || c == '\U{202F}' || c == '\U{205F}'
    || c == '\U{3000}'
  }

  predicate IsAsciiDigit(c: char) {
    '0' <= c <= '9'
  }

  /** `/^\d+$/.test(s)`: non-empty and made of ASCII digits only. */
  predicate AllDigits(s: string) {
    |s| > 0 && forall i :: 0 <= i < |s| ==> IsAsciiDigit(s[i])
  }

  predicate IsLowerAlnum(c: char) {
    ('a' <= c <= 'z') || IsAsciiDigit(c)
  }

  // ---------------------------------------------------------------------------
  // Trimming

  /** The character classes that the programs strip from the ends of strings. */
  datatype CharClass = JsSpace | PySpace | Dash | Slash | NotLowerAlnum

  predicate InClass(c: char, k: CharClass) {
    match k
    case JsSpace => IsJsSpace(c)
    case PySpace => IsPySpace(c)
    case Dash => c == '-'
    case Slash => c == '/'
    case NotLowerAlnum => !IsLowerAlnum(c)
  }

  /** The length of the leading run of class k. */
  function LeadCount(s: string, k: CharClass): (n: nat)
    ensures n <= |s|
  {
    if |s| > 0 && InClass(s[0], k) then 1 + LeadCount(s[1..], k) else 0
  }

  /** The length of the trailing run of class k. */
  function TrailCount(s: string, k: CharClass): (n: nat)
    ensures n <= |s|
  {
    if |s| > 0 && InClass(s[|s| - 1], k) then 1 + TrailCount(s[..|s| - 1], k) else 0
  }

  function TrimStart(s: string, k: CharClass): string {
    s[LeadCount(s, k)..]
  }

  function TrimEnd(s: string, k: CharClass): string {
    s[..|s| - TrailCount(s, k)]
  }

  /** Remove the leading and trailing characters of class k. */
  function Strip(s: string, k: CharClass): string {
    TrimEnd(TrimStart(s, k), k)
  }

  /** JavaScript `String.prototype.trim`. */
  function Trim(s: string): string {
    Strip(s, JsSpace)
  }

  /** Python `str.strip()` with no argument. */
  function PyStrip(s: string): string {
    Strip(s, PySpace)
  }

  predicate IsStripped(s: string, k: CharClass) {
    s == [] || (!InClass(s[0], k) && !InClass(s[|s| - 1], k))
  }

  /** LeadCount measures exactly the leading run of class k. */
  lemma {:induction false} LeadCountSpec(s: string, k: CharClass)
    ensures forall i :: 0 <= i < LeadCount(s, k) ==> InClass(s[i], k)
    ensures LeadCount(s, k) < |s| ==> !InClass(s[LeadCount(s, k)], k)
  {
    if |s| > 0 && InClass(s[0], k) {
      var t := s[1..];
      LeadCountSpec(t, k);
      forall i | 0 <= i < LeadCount(s, k) ensures InClass(s[i], k) {
        if i > 0 {
          assert s[i] == t[i - 1];
        }
      }
    }
  }

  /** TrailCount measures exactly the trailing run of class k. */
  lemma {:induction false} TrailCountSpec(s: string, k: CharClass)
    ensures forall i :: |s| - TrailCount(s, k) <= i < |s| ==> InClass(s[i], k)
    ensures TrailCount(s, k) < |s| ==> !InClass(s[|s| - 1 - TrailCount(s, k)], k)
  {
    if |s| > 0 && InClass(s[|s| - 1], k) {
      var t := s[..|s| - 1];
      TrailCountSpec(t, k);
      forall i | |s| - TrailCount(s, k) <= i < |s| ensures InClass(s[i], k) {
        if i < |s| - 1 {
          assert s[i] == t[i];
        }
      }
    }
  }

  /** The leading run of class k has length n when the first n characters
      are of class k and the next one, if any, is not. */
  lemma {:induction false} LeadCountExact(s: string, k: CharClass, n: nat)
    requires n <= |s|
    requires forall i :: 0 <= i < n ==> InClass(s[i], k)
    requires n < |s| ==> !InClass(s[n], k)
    ensures LeadCount(s, k) == n
  {
    if n > 0 {
      var t := s[1..];
      forall i | 0 <= i < n - 1 ensures InClass(t[i], k) {
        assert t[i] == s[i + 1];
      }
      if n - 1 < |t| {
        assert t[n - 1] == s[n];
      }
      LeadCountExact(t, k, n - 1);
    }
  }

  lemma TrimStartSpec(s: string, k: CharClass)
    ensures TrimStart(s, k) == [] || !InClass(TrimStart(s, k)[0], k)
    ensures forall i :: 0 <= i < |s| - |TrimStart(s, k)| ==> InClass(s[i], k)
  {
    LeadCountSpec(s, k);
  }

  /** Stripping keeps the factor s[start..start + |r|] between the two runs
      of class k that it removes. */
  lemma StripFactor(s: string, k: CharClass) returns (start: nat)
    ensures start == LeadCount(s, k)
    ensures start + |Strip(s, k)| <= |s|
    ensures Strip(s, k) == s[start..start + |Strip(s, k)|]
    ensures forall i :: 0 <= i < start ==> InClass(s[i], k)
    ensures forall i :: start + |Strip(s, k)| <= i < |s| ==> InClass(s[i], k)
    ensures IsStripped(Strip(s, k), k)
  {
    start := LeadCount(s, k);
    var t := s[start..];
    var m := TrailCount(t, k);
    LeadCountSpec(s, k);
    TrailCountSpec(t, k);
    assert Strip(s, k) == t[..|t| - m] == s[start..|s| - m];
    forall i | |s| - m <= i < |s| ensures InClass(s[i], k) {
      assert s[i] == t[i - start];
    }
  }

  /** Stripping leaves a stripped factor of the input. */
  lemma StripStripped(s: string, k: CharClass)
    ensures IsStripped(Strip(s, k), k)
    ensures forall c :: c in Strip(s, k) ==> c in s
  {
    var start := StripFactor(s, k);
  }

  lemma StripOfStripped(s: string, k: CharClass)
    requires IsStripped(s, k)
    ensures Strip(s, k) == s
  {
  }

  /** A string is blank (all of class k) exactly when stripping leaves nothing. */
  lemma StripEmptyIff(s: string, k: CharClass)
    ensures Strip(s, k) == "" <==> forall i :: 0 <= i < |s| ==> InClass(s[i], k)
  {
    var start := StripFactor(s, k);
    LeadCountSpec(s, k);
    if start < |s| {
      assert !InClass(s[start], k);
    }
  }

  // ---------------------------------------------------------------------------
  // Prefixes, splitting and joining

  predicate StartsWith(s: string, prefix: string) {
    |prefix| <= |s| && s[..|prefix|] == prefix
  }

  /** Concatenation regrouped. */
  lemma Regroup4(a: string, b: string, c: string, d: string)
    ensures a + b + c + d == a + (b + c + d)
  {
  }

  lemma PrefixOf(a: string, b: string)
    ensures StartsWith(a + b, a)
  {
    assert (a + b)[..|a|] == a;
  }

  predicate EndsWith(s: string, suffix: string) {
    |suffix| <= |s| && s[|s| - |suffix|..] == suffix
  }

  /** JavaScript `s.split(c)` for a one-character separator. */
  function Split(s: string, c: char): (r: seq<string>)
    ensures |r| >= 1
    ensures forall i :: 0 <= i < |r| ==> c !in r[i]
  {
    if |s| == 0 then [""]
    else
      var rest := Split(s[1..], c);
      if s[0] == c then [""] + rest
      else [[s[0]] + rest[0]] + rest[1..]
  }

  /** JavaScript `parts.join(sep)`. */
  function Join(parts: seq<string>, sep: string): string {
    if |parts| == 0 then ""
    else if |parts| == 1 then parts[0]
    else parts[0] + sep + Join(parts[1..], sep)
  }

  lemma {:induction false} SplitPrefix(p: string, rest: string, c: char)
    requires c !in p
    ensures Split(p + [c] + rest, c) == [p] + Split(rest, c)
    ensures Split(p, c) == [p]
  {
    if |p| == 0 {
      assert p + [c] + rest == [c] + rest;
      assert ([c] + rest)[1..] == rest;
    } else {
      assert (p + [c] + rest)[1..] == p[1..] + [c] + rest;
      SplitPrefix(p[1..], rest, c);
      assert [p[0]] + p[1..] == p;
    }
  }

  /** Splitting a join on a separator that no part contains gives the parts back. */
  lemma {:induction false} SplitJoin(parts: seq<string>, c: char)
    requires |parts| >= 1
    requires forall i :: 0 <= i < |parts| ==> c !in parts[i]
    ensures Split(Join(parts, [c]), c) == parts
  {
    if |parts| == 1 {
      SplitPrefix(parts[0], "", c);
    } else {
      SplitJoin(parts[1..], c);
      SplitPrefix(parts[0], Join(parts[1..], [c]), c);
    }
  }

  lemma JoinTwo(a: string, b: string, sep: string)
    ensures Join([a, b], sep) == a + sep + b
  {
    assert [a, b][1..] == [b];
  }

  lemma {:induction false} JoinAppend(parts: seq<string>, x: string, sep: string)
    requires |parts| >= 1
    ensures Join(parts + [x], sep) == Join(parts, sep) + sep + x
  {
    if |parts| == 1 {
      JoinTwo(parts[0], x, sep);
    } else {
      assert (parts + [x])[1..] == parts[1..] + [x];
      JoinAppend(parts[1..], x, sep);
    }
  }

  lemma {:induction false} JoinFirstChar(parts: seq<string>, sep: string)
    requires |parts| > 0 && parts[0] != ""
    ensures Join(parts, sep) != "" && Join(parts, sep)[0] == parts[0][0]
  {
  }

  lemma {:induction false} JoinLastChar(parts: seq<string>, sep: string)
    requires |parts| > 0 && parts[|parts| - 1] != ""
    ensures Join(parts, sep) != ""
    ensures Join(parts, sep)[|Join(parts, sep)| - 1] == parts[|parts| - 1][|parts[|parts| - 1]| - 1]
  {
    if |parts| > 1 {
      JoinLastChar(parts[1..], sep);
    }
  }

  /** Every character of a join comes from a part or from the separator. */
  lemma {:induction false} JoinChars(parts: seq<string>, sep: string, ch: char)
    requires ch in Join(parts, sep)
    ensures ch in sep || exists i :: 0 <= i < |parts| && ch in parts[i]
  {
    if |parts| > 1 {
      var rest := Join(parts[1..], sep);
      if ch in parts[0] {
      } else if ch in sep {
      } else {
        assert ch in rest;
        JoinChars(parts[1..], sep, ch);
        var i :| 0 <= i < |parts[1..]| && ch in parts[1..][i];
        assert ch in parts[i + 1];
      }
    }
  }

  function DropCR(p: string): string {
    if |p| > 0 && p[|p| - 1] == '\r' then p[..|p| - 1] else p
  }

  /** JavaScript `s.split(/\r?\n/)`: split at every line feed, and drop the
      carriage return that immediately precedes one. */
  function SplitLines(s: string): (r: seq<string>)
    ensures |r| == |Split(s, '\n')|
    ensures forall i :: 0 <= i < |r| ==> '\n' !in r[i]
  {
    var parts := Split(s, '\n');
    seq(|parts|, i requires 0 <= i < |parts| =>
      if i < |parts| - 1 then DropCR(parts[i]) else parts[i])
  }

  /** Lines free of CR and LF, joined by LF, split back into themselves. */
  lemma SplitLinesJoin(lines: seq<string>)
    requires |lines| >= 1
    requires forall i :: 0 <= i < |lines| ==> '\n' !in lines[i] && '\r' !in lines[i]
    ensures SplitLines(Join(lines, "\n")) == lines
  {
    var s := Join(lines, "\n");
    SplitJoin(lines, '\n');
    assert Split(s, '\n') == lines;
    var r := SplitLines(s);
    forall i | 0 <= i < |lines| ensures r[i] == lines[i] {
      DropCRPlain(lines[i]);
    }
  }

  lemma DropCRPlain(p: string)
    requires '\r' !in p
    ensures DropCR(p) == p
  {
    if |p| > 0 {
      assert p[|p| - 1] in p;
    }
  }

  // ---------------------------------------------------------------------------
  // Records built from a header

  /** The object that `keys.forEach((k, i) => record[k] = vals[i])` leaves:
      every key is present, and a repeated key keeps its last value. */
  function ZipRecord(keys: seq<string>, vals: seq<string>): (r: Record)
    requires |keys| == |vals|
    ensures forall k :: k in r <==> k in keys
  {
    if |keys| == 0 then map[]
    else ZipRecord(keys[..|keys| - 1], vals[..|vals| - 1])[keys[|keys| - 1] := vals[|vals| - 1]]
  }

  /** Every value of a zipped record is one of the given values. */
  lemma {:induction false} ZipRecordValues(keys: seq<string>, vals: seq<string>)
    requires |keys| == |vals|
    ensures forall k :: k in ZipRecord(keys, vals) ==> ZipRecord(keys, vals)[k] in vals
  {
    if |keys| > 0 {
      var n := |keys| - 1;
      ZipRecordValues(keys[..n], vals[..n]);
      assert forall x :: x in vals[..n] ==> x in vals;
    }
  }

  /** With distinct keys each key holds the value at its own position. */
  lemma {:induction false} ZipRecordAt(keys: seq<string>, vals: seq<string>, i: nat)
    requires |keys| == |vals| && NoDup(keys) && i < |keys|
    ensures ZipRecord(keys, vals)[keys[i]] == vals[i]
  {
    var n := |keys| - 1;
    if i < n {
      assert keys[..n][i] == keys[i];
      ZipRecordAt(keys[..n], vals[..n], i);
    }
  }

  lemma ZipRecordAll(keys: seq<string>, vals: seq<string>)
    requires |keys| == |vals| && NoDup(keys)
    ensures forall i :: 0 <= i < |keys| ==> ZipRecord(keys, vals)[keys[i]] == vals[i]
  {
    forall i | 0 <= i < |keys| ensures ZipRecord(keys, vals)[keys[i]] == vals[i] {
      ZipRecordAt(keys, vals, i);
    }
  }

  // ---------------------------------------------------------------------------
  // Decimal numerals

  function DigitChar(d: nat): char
    requires d < 10
  {
    "0123456789"[d]
  }

  /** `String(n)` for a non-negative integer. */
  function NatToString(n: nat): (r: string)
    ensures |r| >= 1
    ensures forall i :: 0 <= i < |r| ==> IsAsciiDigit(r[i])
  {
    if n < 10 then [DigitChar(n)] else NatToString(n / 10) + [DigitChar(n % 10)]
  }

  /** `s.padStart(width, [ch])`. */
  function PadStart(s: string, width: nat, ch: char): (r: string)
    ensures |r| == if |s| >= width then |s| else width
    ensures EndsWith(r, s)
  {
    if |s| >= width then s else seq(width - |s|, _ => ch) + s
  }

  // ---------------------------------------------------------------------------
  // Distinct elements

  predicate NoDup<T(==)>(s: seq<T>) {
    forall i, j :: 0 <= i < j < |s| ==> s[i] != s[j]
  }

  /** The distinct elements of s in order of first occurrence (what
      `Array.from(new Set(s))` and an insertion-ordered Map produce). */
  function Dedup<T(==)>(s: seq<T>): seq<T> {
    if |s| == 0 then []
    else if s[|s| - 1] in s[..|s| - 1] then Dedup(s[..|s| - 1])
    else Dedup(s[..|s| - 1]) + [s[|s| - 1]]
  }

  lemma {:induction false} DedupSpec<T>(s: seq<T>)
    ensures NoDup(Dedup(s))
    ensures forall x :: x in Dedup(s) <==> x in s
    ensures |Dedup(s)| <= |s|
  {
    if |s| > 0 {
      DedupSpec(s[..|s| - 1]);
      assert s == s[..|s| - 1] + [s[|s| - 1]];
    }
  }

  lemma DedupMember<T>(s: seq<T>, x: T)
    requires x in Dedup(s)
    ensures x in s
  {
    DedupSpec(s);
  }

  lemma DedupSnoc<T>(s: seq<T>, x: T)
    ensures Dedup(s + [x]) == if x in Dedup(s) then Dedup(s) else Dedup(s) + [x]
  {
    DedupSpec(s);
    assert (s + [x])[..|s|] == s;
  }

  /** One step of a left-to-right de-duplicating scan. */
  lemma DedupPrefixStep<T>(s: seq<T>, i: nat)
    requires i < |s|
    ensures Dedup(s[..i + 1]) == if s[i] in Dedup(s[..i]) then Dedup(s[..i]) else Dedup(s[..i]) + [s[i]]
  {
    assert s[..i + 1] == s[..i] + [s[i]];
    DedupSnoc(s[..i], s[i]);
  }

  /** The index of the first occurrence of x in s. */
  function FirstIndex<T(==)>(s: seq<T>, x: T): (i: nat)
    requires x in s
    ensures i < |s| && s[i] == x && x !in s[..i]
  {
    if s[0] == x then 0
    else
      var j := FirstIndex(s[1..], x);
      assert s[..j + 1] == [s[0]] + s[1..][..j];
      j + 1
  }

  lemma {:induction false} FirstIndexPrefix<T>(s: seq<T>, n: nat, x: T)
    requires n <= |s| && x in s[..n]
    ensures FirstIndex(s[..n], x) == FirstIndex(s, x)
  {
    if s[0] != x {
      assert s[..n][1..] == s[1..][..n - 1];
      FirstIndexPrefix(s[1..], n - 1, x);
    }
  }

  lemma FirstIndexOfNew<T>(s: seq<T>)
    requires |s| > 0 && s[|s| - 1] !in s[..|s| - 1]
    ensures FirstIndex(s, s[|s| - 1]) == |s| - 1
  {
  }

  lemma DedupOrderStep<T>(s: seq<T>, a: nat, b: nat)
    requires |s| > 0 && a < b < |Dedup(s[..|s| - 1])|
    requires Dedup(s)[..|Dedup(s[..|s| - 1])|] == Dedup(s[..|s| - 1])
    requires Dedup(s)[a] in s[..|s| - 1] && Dedup(s)[b] in s[..|s| - 1]
    requires FirstIndex(s[..|s| - 1], Dedup(s)[a]) < FirstIndex(s[..|s| - 1], Dedup(s)[b])
    ensures FirstIndex(s, Dedup(s)[a]) < FirstIndex(s, Dedup(s)[b])
  {
    FirstIndexPrefix(s, |s| - 1, Dedup(s)[a]);
    FirstIndexPrefix(s, |s| - 1, Dedup(s)[b]);
  }

  /** Dedup keeps first-occurrence order: an element earlier in the result
      first occurs earlier in the input. */
  lemma {:induction false} DedupOrder<T>(s: seq<T>, a: nat, b: nat)
    requires a < b < |Dedup(s)|
    ensures Dedup(s)[a] in s && Dedup(s)[b] in s
    ensures FirstIndex(s, Dedup(s)[a]) < FirstIndex(s, Dedup(s)[b])
  {
    DedupSpec(s);
    assert Dedup(s)[a] in Dedup(s) && Dedup(s)[b] in Dedup(s);
    var init := s[..|s| - 1];
    var d := Dedup(init);
    DedupSpec(init);
    assert Dedup(s)[..|d|] == d;
    if b < |d| {
      DedupOrder(init, a, b);
      assert d[a] in d && d[b] in d;
      DedupOrderStep(s, a, b);
    } else {
      assert Dedup(s)[b] == s[|s| - 1] && s[|s| - 1] !in init;
      FirstIndexOfNew(s);
      assert Dedup(s) == d + [s[|s| - 1]];
      assert Dedup(s)[a] == d[a];
      DedupMember(init, d[a]);
      FirstIndexPrefix(s, |s| - 1, Dedup(s)[a]);
    }
  }

  lemma {:induction false} NoDupCard<T>(s: seq<T>)
    requires NoDup(s)
    ensures |set x | x in s| == |s|
  {
    if |s| > 0 {
      var init := s[..|s| - 1];
      NoDupCard(init);
      assert (set x | x in s) == (set x | x in init) + {s[|s| - 1]};
      assert s[|s| - 1] !in init;
    }
  }
}
