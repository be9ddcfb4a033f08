/** Splitting the site's URLs into sitemap files of at most M URLs each, the
    names of those files, and the text of each file and of the index, in the
    urlset and sitemapindex formats of the Sitemap protocol 0.9
    (sitemaps.org). Writing the files is left out: the methods return the
    names and contents they would write. */
module Sitemap {
  import opened Common

  function Min(a: nat, b: nat): nat {
    if a <= b then a else b
  }

  // ---------------------------------------------------------------------------
  // Chunks

  /** The consecutive slices of at most m URLs, in order. */
  function Chunks(urls: seq<string>, m: nat): seq<seq<string>>
    requires m >= 1
    decreases |urls|
  {
    if |urls| == 0 then []
    else [urls[..Min(m, |urls|)]] + Chunks(urls[Min(m, |urls|)..], m)
  }

  function Concat(chunks: seq<seq<string>>): seq<string> {
    if |chunks| == 0 then [] else chunks[0] + Concat(chunks[1..])
  }

  /** Putting the chunks back together gives the URL list. */
  lemma {:induction false} ChunksConcat(urls: seq<string>, m: nat)
    requires m >= 1
    ensures Concat(Chunks(urls, m)) == urls
    decreases |urls|
  {
    if |urls| > 0 {
      var n := Min(m, |urls|);
      ChunksConcat(urls[n..], m);
      assert Chunks(urls, m)[1..] == Chunks(urls[n..], m);
      assert urls == urls[..n] + urls[n..];
    }
  }

  /** Every chunk has between 1 and m URLs, and only the last may have fewer
      than m. */
  lemma {:induction false} ChunkSizes(urls: seq<string>, m: nat)
    requires m >= 1
    ensures forall k :: 0 <= k < |Chunks(urls, m)| ==> 1 <= |Chunks(urls, m)[k]| <= m
    ensures forall k :: 0 <= k < |Chunks(urls, m)| - 1 ==> |Chunks(urls, m)[k]| == m
    decreases |urls|
  {
    if |urls| > 0 {
      var n := Min(m, |urls|);
      ChunkSizes(urls[n..], m);
      var cs := Chunks(urls, m);
      assert cs[1..] == Chunks(urls[n..], m);
      if n < m {
        assert urls[n..] == [];
      }
      forall k | 1 <= k < |cs| ensures 1 <= |cs[k]| <= m {
        assert cs[k] == cs[1..][k - 1];
      }
      forall k | 1 <= k < |cs| - 1 ensures |cs[k]| == m {
        assert cs[k] == cs[1..][k - 1];
      }
    }
  }

  /** n URLs give ceil(n / m) files: the first |Chunks| - 1 of them hold
      fewer than n URLs and all of them hold at least n; no URLs, no files. */
  lemma {:induction false} ChunkCount(urls: seq<string>, m: nat)
    requires m >= 1
    ensures |Chunks(urls, m)| == 0 <==> |urls| == 0
    ensures |urls| > 0 ==> (|Chunks(urls, m)| - 1) * m < |urls| <= |Chunks(urls, m)| * m
    decreases |urls|
  {
    if |urls| > 0 {
      var n := Min(m, |urls|);
      ChunkCount(urls[n..], m);
      var c := |Chunks(urls[n..], m)|;
      if |urls| <= m {
        assert urls[n..] == [];
      } else {
        MulStep(c - 1, m);
        MulStep(c, m);
      }
    }
  }

  lemma MulStep(c: int, m: int)
    ensures (c + 1) * m == c * m + m
  {
  }

  /** One step of the chunking loop, starting at index i. */
  lemma ChunksAt(urls: seq<string>, m: nat, i: nat)
    requires m >= 1 && i < |urls|
    ensures Chunks(urls[i..], m) == [urls[i..Min(i + m, |urls|)]] + Chunks(urls[Min(i + m, |urls|)..], m)
  {
    var rest := urls[i..];
    var n := Min(m, |rest|);
    assert rest[..n] == urls[i..Min(i + m, |urls|)];
    assert rest[n..] == urls[Min(i + m, |urls|)..];
  }

  // ---------------------------------------------------------------------------
  // File names

  /** `sitemap-${String(k).padStart(3, '0')}.xml`. */
  function SitemapName(k: nat): string {
    "sitemap-" + PadStart(NatToString(k), 3, '0') + ".xml"
  }

  function DigitValue(c: char): int {
    c as int - '0' as int
  }

  /** The value of a string of decimal digits. */
  function DigitsValue(s: string): int {
    if |s| == 0 then 0 else DigitsValue(s[..|s| - 1]) * 10 + DigitValue(s[|s| - 1])
  }

  lemma DigitRoundTrip(d: nat)
    requires d < 10
    ensures DigitValue(DigitChar(d)) == d
  {
  }

  lemma {:induction false} NatToStringValue(n: nat)
    ensures DigitsValue(NatToString(n)) == n
  {
    if n < 10 {
      DigitRoundTrip(n);
      assert [DigitChar(n)][..0] == [];
    } else {
      NatToStringValue(n / 10);
      DigitRoundTrip(n % 10);
      var s := NatToString(n / 10) + [DigitChar(n % 10)];
      assert s[..|s| - 1] == NatToString(n / 10);
    }
  }

  lemma {:induction false} ZerosValue(z: string)
    requires forall i :: 0 <= i < |z| ==> z[i] == '0'
    ensures DigitsValue(z) == 0
  {
    if |z| > 0 {
      ZerosValue(z[..|z| - 1]);
    }
  }

  /** Leading zeros do not change the value. */
  lemma {:induction false} LeadingZeros(z: string, s: string)
    requires forall i :: 0 <= i < |z| ==> z[i] == '0'
    ensures DigitsValue(z + s) == DigitsValue(s)
  {
    if |s| == 0 {
      assert z + s == z;
      ZerosValue(z);
    } else {
      var t := s[..|s| - 1];
      LeadingZeros(z, t);
      assert (z + s)[..|z + s| - 1] == z + t;
    }
  }

  /** The number in the k-th file's name, read back. */
  function NameNumber(name: string): int
    requires |name| >= 12
  {
    DigitsValue(name[8..|name| - 4])
  }

  /** The number padded into a file name can be read back, so different
      files have different names. */
  lemma NameRoundTrip(k: nat)
    ensures |SitemapName(k)| >= 12 && NameNumber(SitemapName(k)) == k
  {
    var digits := NatToString(k);
    var padded := PadStart(digits, 3, '0');
    var name := SitemapName(k);
    assert name[8..|name| - 4] == padded;
    NatToStringValue(k);
    if |digits| < 3 {
      LeadingZeros(seq(3 - |digits|, _ => '0'), digits);
    }
  }

  lemma NamesDistinct(j: nat, k: nat)
    requires j != k
    ensures SitemapName(j) != SitemapName(k)
  {
    NameRoundTrip(j);
    NameRoundTrip(k);
  }

  /** Up to file 999 the number has exactly three digits. */
  lemma ShortNames(k: nat)
    requires 1 <= k <= 999
    ensures |SitemapName(k)| == 15
  {
    NatToStringLength(k);
  }

  lemma {:induction false} NatToStringLength(n: nat)
    ensures n < 1000 ==> |NatToString(n)| <= 3
  {
    if n >= 10 {
      NatToStringLength(n / 10);
    }
  }

  // ---------------------------------------------------------------------------
  // Contents

  const XmlDeclaration: string := "<?xml version=\"1.0\" encoding=\"UTF-8\"?>"
  const Namespace: string := "http://www.sitemaps.org" + "/schemas/sitemap/0.9"
  const UrlsetOpen: string := "<urlset xmlns=\"" + Namespace + "\">"
  const UrlsetClose: string := "</urlset>"
  const IndexOpen: string := "<sitemapindex xmlns=\"" + Namespace + "\">"
  const IndexClose: string := "</sitemapindex>"

  function UrlLine(u: string): string {
    "  <url><loc>" + u + "</loc></url>"
  }

  function UrlLines(chunk: seq<string>): (lines: seq<string>)
    ensures |lines| == |chunk|
  {
    seq(|chunk|, j requires 0 <= j < |chunk| => UrlLine(chunk[j]))
  }

  /** The lines of one sitemap file. */
  function UrlsetLines(chunk: seq<string>): seq<string> {
    [XmlDeclaration, UrlsetOpen] + UrlLines(chunk) + [UrlsetClose]
  }

  function UrlsetContent(chunk: seq<string>): string {
    Join(UrlsetLines(chunk), "\n")
  }

  predicate OneLine(s: string) {
    '\n' !in s
  }

  lemma LineFree(prefix: string, u: string, suffix: string)
    requires OneLine(prefix) && OneLine(u) && OneLine(suffix)
    ensures OneLine(prefix + u + suffix)
  {
  }

  lemma DeclarationOneLine()
    ensures OneLine(XmlDeclaration)
  {
  }

  lemma NamespaceOneLine()
    ensures OneLine(Namespace)
  {
    LineFree("http://www.sitemaps.org", "/schemas/sitemap/0.9", "");
  }

  lemma UrlsetOneLine()
    ensures OneLine(UrlsetOpen) && OneLine(UrlsetClose)
  {
    NamespaceOneLine();
    LineFree("<urlset xmlns=\"", Namespace, "\">");
  }

  lemma IndexOneLine()
    ensures OneLine(IndexOpen) && OneLine(IndexClose)
  {
    NamespaceOneLine();
    LineFree("<sitemapindex xmlns=\"", Namespace, "\">");
  }

  /** A document of one-line parts has one-line lines. */
  lemma FramedOneLine(first: string, second: string, body: seq<string>, last: string)
    requires OneLine(first) && OneLine(second) && OneLine(last)
    requires forall j :: 0 <= j < |body| ==> OneLine(body[j])
    ensures forall j :: 0 <= j < |[first, second] + body + [last]| ==> OneLine(([first, second] + body + [last])[j])
  {
    var lines := [first, second] + body + [last];
    forall j | 0 <= j < |lines| ensures OneLine(lines[j]) {
      if 2 <= j < |lines| - 1 {
        assert lines[j] == body[j - 2];
      }
    }
  }

  /** When no URL has a line break, the file's lines, read back with
      `split('\n')`, are the declaration, the urlset opening tag, one
      `<url><loc>` line per URL in order and the closing tag. */
  lemma UrlsetContentLines(chunk: seq<string>)
    requires forall j :: 0 <= j < |chunk| ==> OneLine(chunk[j])
    ensures Split(UrlsetContent(chunk), '\n') == UrlsetLines(chunk)
    ensures |UrlsetLines(chunk)| == |chunk| + 3
    ensures forall j :: 0 <= j < |chunk| ==> UrlsetLines(chunk)[j + 2] == UrlLine(chunk[j])
  {
    var body := UrlLines(chunk);
    forall j | 0 <= j < |body| ensures OneLine(body[j]) {
      UrlLineOneLine(chunk[j]);
    }
    DeclarationOneLine();
    UrlsetOneLine();
    FramedOneLine(XmlDeclaration, UrlsetOpen, body, UrlsetClose);
    SplitJoin(UrlsetLines(chunk), '\n');
  }

  lemma UrlLineOneLine(u: string)
    requires OneLine(u)
    ensures OneLine(UrlLine(u))
  {
    LineFree("  <url><loc>", u, "</loc></url>");
  }

  /** Files 1 to |done| are named in order and hold the chunks of done. */
  ghost predicate Written(files: seq<string>, contents: seq<string>, done: seq<seq<string>>) {
    |files| == |contents| == |done| && Named(files) && Filled(contents, done)
  }

  /** The k-th name is that of file k + 1. */
  ghost predicate Named(files: seq<string>) {
    forall k {:trigger files[k]} :: 0 <= k < |files| ==> files[k] == SitemapName(k + 1)
  }

  /** The k-th content is the urlset of the k-th chunk. */
  ghost predicate Filled(contents: seq<string>, done: seq<seq<string>>) {
    |contents| == |done| && forall k :: 0 <= k < |contents| ==> contents[k] == UrlsetContent(done[k])
  }

  lemma NamedSnoc(files: seq<string>)
    requires Named(files)
    ensures Named(files + [SitemapName(|files| + 1)])
  {
    var f := files + [SitemapName(|files| + 1)];
    forall k | 0 <= k < |f| ensures f[k] == SitemapName(k + 1) {
      if k < |files| {
        assert f[k] == files[k];
      }
    }
  }

  lemma FilledSnoc(contents: seq<string>, done: seq<seq<string>>, chunk: seq<string>)
    requires Filled(contents, done)
    ensures Filled(contents + [UrlsetContent(chunk)], done + [chunk])
  {
    var c, d := contents + [UrlsetContent(chunk)], done + [chunk];
    forall k | 0 <= k < |c| ensures c[k] == UrlsetContent(d[k]) {
      if k < |contents| {
        assert c[k] == contents[k] && d[k] == done[k];
      }
    }
  }

  lemma WrittenSnoc(files: seq<string>, contents: seq<string>, done: seq<seq<string>>, chunk: seq<string>)
    requires Written(files, contents, done)
    ensures Written(files + [SitemapName(|files| + 1)], contents + [UrlsetContent(chunk)], done + [chunk])
  {
    NamedSnoc(files);
    FilledSnoc(contents, done, chunk);
  }

  /** One turn of the loop of `writeSitemapFiles` keeps its invariant. */
  lemma WriteStep(urls: seq<string>, m: nat, i: nat, done: seq<seq<string>>, files: seq<string>, contents: seq<string>)
    requires m >= 1 && i < |urls|
    requires Chunks(urls, m) == done + Chunks(urls[i..], m)
    requires Written(files, contents, done)
    ensures Chunks(urls, m) == (done + [urls[i..Min(i + m, |urls|)]]) + Chunks(urls[Min(i + m, |urls|)..], m)
    ensures Written(files + [SitemapName(|files| + 1)], contents + [UrlsetContent(urls[i..Min(i + m, |urls|)])],
                    done + [urls[i..Min(i + m, |urls|)]])
  {
    var chunk := urls[i..Min(i + m, |urls|)];
    ChunksAt(urls, m, i);
    assert done + ([chunk] + Chunks(urls[Min(i + m, |urls|)..], m))
      == (done + [chunk]) + Chunks(urls[Min(i + m, |urls|)..], m);
    WrittenSnoc(files, contents, done, chunk);
  }

  /** `writeSitemapFiles` without the writes: the names of the files and
      what each would contain. */
  method WriteSitemapFiles(urls: seq<string>, m: nat) returns (files: seq<string>, contents: seq<string>)
    requires m >= 1
    ensures Written(files, contents, Chunks(urls, m))
  {
    files, contents := [], [];
    ghost var done: seq<seq<string>> := [];
    var i := 0;
    while i < |urls|
      invariant Chunks(urls, m) == done + Chunks(urls[Min(i, |urls|)..], m)
      invariant Written(files, contents, done)
      decreases |urls| - i
    {
      var chunk := urls[i..Min(i + m, |urls|)];
      WriteStep(urls, m, i, done, files, contents);
      done := done + [chunk];
      files := files + [SitemapName(|files| + 1)];
      contents := contents + [UrlsetContent(chunk)];
      i := i + m;
    }
    assert urls[Min(i, |urls|)..] == [];
  }

  // ---------------------------------------------------------------------------
  // Index

  function IndexLine(baseUrl: string, f: string): string {
    "  <sitemap><loc>" + baseUrl + "/" + f + "</loc></sitemap>"
  }

  function IndexBody(files: seq<string>, baseUrl: string): (lines: seq<string>)
    ensures |lines| == |files|
  {
    seq(|files|, j requires 0 <= j < |files| => IndexLine(baseUrl, files[j]))
  }

  function IndexLines(files: seq<string>, baseUrl: string): seq<string> {
    [XmlDeclaration, IndexOpen] + IndexBody(files, baseUrl) + [IndexClose]
  }

  /** `writeSitemapIndex` without the write: the text of sitemap-index.xml. */
  function SitemapIndex(files: seq<string>, baseUrl: string): string {
    Join(IndexLines(files, baseUrl), "\n")
  }

  /** An index with no files still has the declaration and both tags. */
  lemma EmptyIndex(baseUrl: string)
    ensures SitemapIndex([], baseUrl) == XmlDeclaration + "\n" + IndexOpen + "\n" + IndexClose
  {
    var lines := IndexLines([], baseUrl);
    assert lines == [XmlDeclaration] + [IndexOpen, IndexClose];
    JoinTwo(IndexOpen, IndexClose, "\n");
  }

  /** Read back line by line, the index lists one `<sitemap><loc>` entry per
      file, in order, between the sitemapindex tags. */
  lemma SitemapIndexLines(files: seq<string>, baseUrl: string)
    requires OneLine(baseUrl) && forall j :: 0 <= j < |files| ==> OneLine(files[j])
    ensures Split(SitemapIndex(files, baseUrl), '\n') == IndexLines(files, baseUrl)
    ensures |IndexLines(files, baseUrl)| == |files| + 3
    ensures forall j :: 0 <= j < |files| ==> IndexLines(files, baseUrl)[j + 2] == IndexLine(baseUrl, files[j])
  {
    var body := IndexBody(files, baseUrl);
    forall j | 0 <= j < |body| ensures OneLine(body[j]) {
      IndexLineOneLine(baseUrl, files[j]);
    }
    DeclarationOneLine();
    IndexOneLine();
    FramedOneLine(XmlDeclaration, IndexOpen, body, IndexClose);
    SplitJoin(IndexLines(files, baseUrl), '\n');
  }

  lemma IndexLineOneLine(baseUrl: string, f: string)
    requires OneLine(baseUrl) && OneLine(f)
    ensures OneLine(IndexLine(baseUrl, f))
  {
    LineFree("  <sitemap><loc>", baseUrl, "/");
    LineFree("  <sitemap><loc>" + baseUrl + "/", f, "</loc></sitemap>");
  }
}
