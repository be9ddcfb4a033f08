/** The link checker run after a build: which hrefs a page has, which of
    them are internal or external, which file an internal link must reach,
    how often an external link is retried, and when the build fails.
    Reading files, probing the file system and HTTP requests are inputs. */
module ValidateLinks {
  import opened Common
  import opened Paths

  // ---------------------------------------------------------------------------
  // Categorising one href

  datatype LinkType = Internal | External

  datatype Categorized = Categorized(kind: LinkType, url: Option<string>)

  /** `/^https?:\/\//`. */
  predicate IsHttpUrl(href: string) {
    StartsWith(href, "http://") || StartsWith(href, "https://")
  }

  /** An http(s) URL is not empty and starts with 'h'; a '#' link starts
      with '#'. */
  lemma FirstChars(href: string)
    ensures IsHttpUrl(href) ==> href != "" && href[0] == 'h'
    ensures StartsWith(href, "#") ==> href != "" && href[0] == '#'
  {
    if StartsWith(href, "http://") {
      assert href[0] == href[..7][0];
    }
    if StartsWith(href, "https://") {
      assert href[0] == href[..8][0];
    }
    if StartsWith(href, "#") {
      assert href[0] == href[..1][0];
    }
  }

  /** `categorizeLink`. */
  function CategorizeLink(href: string): (c: Categorized)
    ensures c.kind == External <==> IsHttpUrl(href)
    ensures c.kind == External ==> c.url == Some(href)
    ensures c.kind == Internal ==> c.url == None
  {
    FirstChars(href);
    if href == "" || href == "#" || StartsWith(href, "#") then Categorized(Internal, None)
    else if IsHttpUrl(href) then Categorized(External, Some(href))
    else Categorized(Internal, None)
  }

  /** An empty href, '#' and any '#…' href are internal links without a URL. */
  lemma HashLinksInternal(href: string)
    requires href == "" || StartsWith(href, "#")
    ensures CategorizeLink(href) == Categorized(Internal, None)
  {
  }

  // ---------------------------------------------------------------------------
  // The href regular expression

  /** The text `href="` the pattern `/href="([^"]+)"/g` begins with. */
  const HrefOpen: string := "href=\""

  /** The first '"' at index i or later. */
  function QuoteFrom(html: string, i: nat): (r: Option<nat>)
    ensures r.Some? ==> i <= r.value < |html| && html[r.value] == '"'
    ensures r.Some? ==> forall k :: i <= k < r.value ==> html[k] != '"'
    ensures r.None? ==> forall k :: i <= k < |html| ==> html[k] != '"'
    decreases |html| - i
  {
    if i >= |html| then None
    else if html[i] == '"' then Some(i)
    else QuoteFrom(html, i + 1)
  }

  /** The pattern matches at p: `href="`, then at least one character other
      than '"', then '"'. The class is greedy and cannot cross a '"', so the
      match, when there is one, ends at the first '"' after the opening. */
  predicate MatchesAt(html: string, p: nat) {
    && p + |HrefOpen| <= |html|
    && html[p..p + |HrefOpen|] == HrefOpen
    && QuoteFrom(html, p + |HrefOpen|).Some?
    && QuoteFrom(html, p + |HrefOpen|).value > p + |HrefOpen|
  }

  lemma NoQuoteSlice(html: string, i: nat, q: nat)
    requires i <= q <= |html|
    requires forall k :: i <= k < q ==> html[k] != '"'
    ensures '"' !in html[i..q]
  {
    forall k | 0 <= k < q - i ensures html[i..q][k] != '"' {
      assert html[i..q][k] == html[i + k];
    }
  }

  /** A match: the captured href and the index just after the match, where
      the next search starts (the regex's lastIndex). */
  datatype Match = Match(href: string, next: nat)

  /** `regex.exec(html)` with lastIndex `from`: the leftmost match at or
      after `from`. */
  function NextMatch(html: string, from: nat): (r: Option<Match>)
    ensures r.Some? ==> from < r.value.next <= |html|
    ensures r.Some? ==> r.value.href != "" && '"' !in r.value.href
    decreases |html| - from
  {
    if from >= |html| then None
    else if MatchesAt(html, from) then
      var q := QuoteFrom(html, from + |HrefOpen|).value;
      NoQuoteSlice(html, from + |HrefOpen|, q);
      Some(Match(html[from + |HrefOpen|..q], q + 1))
    else NextMatch(html, from + 1)
  }

  /** Every href the global regex captures from index `from` on, in order. */
  function Hrefs(html: string, from: nat): (hs: seq<string>)
    ensures forall j :: 0 <= j < |hs| ==> hs[j] != "" && '"' !in hs[j]
    decreases |html| - from
  {
    match NextMatch(html, from)
    case None => []
    case Some(m) => [m.href] + Hrefs(html, m.next)
  }

  /** A lone attribute `href="h"` with a non-empty, quote-free h yields
      exactly h; so `href=""` is never captured, while `href="  "` is. */
  lemma SingleHref(h: string)
    requires h != "" && '"' !in h
    ensures Hrefs(HrefOpen + h + "\"", 0) == [h]
  {
    var html := HrefOpen + h + "\"";
    var q := |HrefOpen| + |h|;
    assert html[..|HrefOpen|] == HrefOpen;
    assert html[|HrefOpen|..q] == h;
    assert html[q] == '"';
    assert QuoteFrom(html, |HrefOpen|) == Some(q) by {
      QuoteFromSkips(html, |HrefOpen|, q);
    }
    assert NextMatch(html, 0) == Some(Match(h, q + 1));
    assert Hrefs(html, q + 1) == [];
  }

  /** If the characters from i up to q are not quotes and html[q] is, the
      first quote from i is at q. */
  lemma {:induction false} QuoteFromSkips(html: string, i: nat, q: nat)
    requires i <= q < |html| && html[q] == '"'
    requires forall k :: i <= k < q ==> html[k] != '"'
    ensures QuoteFrom(html, i) == Some(q)
    decreases q - i
  {
    if i < q {
      QuoteFromSkips(html, i + 1, q);
    }
  }

  lemma EmptyHrefNotCaptured()
    ensures Hrefs(HrefOpen + "\"", 0) == []
  {
    var html := HrefOpen + "\"";
    assert html[|HrefOpen|] == '"';
    assert QuoteFrom(html, |HrefOpen|) == Some(|HrefOpen|);
    assert !MatchesAt(html, 0);
    assert html[1..1 + |HrefOpen|][0] == html[1] == 'r';
    assert !MatchesAt(html, 1);
    NoMatchFrom(html, 2);
    assert NextMatch(html, 1) == None;
    assert NextMatch(html, 0) == None;
  }

  /** Too close to the end for `href="` to fit, nothing is captured. */
  lemma {:induction false} NoMatchFrom(html: string, from: nat)
    requires from + |HrefOpen| > |html|
    ensures NextMatch(html, from) == None
    decreases |html| - from
  {
    if from < |html| {
      NoMatchFrom(html, from + 1);
    }
  }

  // ---------------------------------------------------------------------------
  // extractLinks

  datatype Bucket = ToExternal | ToInternal | Dropped

  /** The branch of `extractLinks` an href goes to. */
  function BucketOf(href: string): (b: Bucket)
    ensures b == ToExternal <==> IsHttpUrl(href)
    ensures b == ToInternal <==> href != "" && !StartsWith(href, "#") && !IsHttpUrl(href)
    ensures b == Dropped <==> href == "" || StartsWith(href, "#")
  {
    FirstChars(href);
    var c := CategorizeLink(href);
    if c.kind == External && c.url.Some? && c.url.value != "" then ToExternal
    else if c.kind == Internal && href != "" && !StartsWith(href, "#") then ToInternal
    else Dropped
  }

  /** The hrefs of hs that go to bucket b, in order. */
  function InBucket(hs: seq<string>, b: Bucket): (r: seq<string>)
    ensures |r| <= |hs|
  {
    if |hs| == 0 then []
    else InBucket(hs[..|hs| - 1], b) + (if BucketOf(hs[|hs| - 1]) == b then [hs[|hs| - 1]] else [])
  }

  lemma {:induction false} InBucketMember(hs: seq<string>, b: Bucket, h: string)
    ensures h in InBucket(hs, b) <==> h in hs && BucketOf(h) == b
  {
    if |hs| > 0 {
      InBucketMember(hs[..|hs| - 1], b, h);
      assert hs == hs[..|hs| - 1] + [hs[|hs| - 1]];
    }
  }

  /** Each href is put in at most one list: the two lists together are no
      longer than the captured hrefs, and as long exactly when none of them
      was dropped. */
  lemma {:induction false} BucketsPartition(hs: seq<string>)
    ensures |InBucket(hs, ToInternal)| + |InBucket(hs, ToExternal)| + |InBucket(hs, Dropped)| == |hs|
  {
    if |hs| > 0 {
      BucketsPartition(hs[..|hs| - 1]);
    }
  }

  lemma InBucketSnoc(seen: seq<string>, h: string, b: Bucket)
    ensures InBucket(seen + [h], b) == InBucket(seen, b) + (if BucketOf(h) == b then [h] else [])
  {
    assert (seen + [h])[..|seen|] == seen;
  }

  /** One turn of the regex loop: the match found is the next captured href. */
  lemma HrefsStep(html: string, pos: nat, seen: seq<string>)
    requires NextMatch(html, pos).Some?
    requires Hrefs(html, 0) == seen + Hrefs(html, pos)
    ensures Hrefs(html, 0) == (seen + [NextMatch(html, pos).value.href]) + Hrefs(html, NextMatch(html, pos).value.next)
  {
    var m := NextMatch(html, pos).value;
    assert Hrefs(html, pos) == [m.href] + Hrefs(html, m.next);
    assert seen + ([m.href] + Hrefs(html, m.next)) == (seen + [m.href]) + Hrefs(html, m.next);
  }

  /** `extractLinks`: the regex loop of the source, pushing each href to the
      list its category selects. */
  method ExtractLinks(html: string) returns (internal: seq<string>, external: seq<string>)
    ensures internal == InBucket(Hrefs(html, 0), ToInternal)
    ensures external == InBucket(Hrefs(html, 0), ToExternal)
  {
    internal, external := [], [];
    ghost var seen: seq<string> := [];
    var pos := 0;
    var m := NextMatch(html, pos);
    while m.Some?
      invariant m == NextMatch(html, pos)
      invariant Hrefs(html, 0) == seen + Hrefs(html, pos)
      invariant internal == InBucket(seen, ToInternal) && external == InBucket(seen, ToExternal)
      decreases |html| - pos
    {
      var href := m.value.href;
      HrefsStep(html, pos, seen);
      InBucketSnoc(seen, href, ToInternal);
      InBucketSnoc(seen, href, ToExternal);
      var categorized := CategorizeLink(href);
      if categorized.kind == External && categorized.url.Some? && categorized.url.value != "" {
        external := external + [categorized.url.value];
      } else if categorized.kind == Internal && href != "" && !StartsWith(href, "#") {
        internal := internal + [href];
      }
      seen := seen + [href];
      pos := m.value.next;
      m := NextMatch(html, pos);
    }
    assert seen + Hrefs(html, pos) == seen;
  }

  /** What `extractLinks` promises in terms of the hrefs captured: an href
      is external exactly when it starts with http:// or https://, internal
      exactly when it is neither that nor a '#' link. */
  lemma ExtractedLinks(html: string, h: string)
    ensures h in InBucket(Hrefs(html, 0), ToExternal) <==> h in Hrefs(html, 0) && IsHttpUrl(h)
    ensures h in InBucket(Hrefs(html, 0), ToInternal) <==>
      h in Hrefs(html, 0) && !StartsWith(h, "#") && !IsHttpUrl(h)
  {
    InBucketMember(Hrefs(html, 0), ToExternal, h);
    InBucketMember(Hrefs(html, 0), ToInternal, h);
  }

  // ---------------------------------------------------------------------------
  // Internal links

  /** The links `validateInternalLinksInFile` does not look at; note that it
      skips `/^https?:/`, without the slashes. */
  predicate Skipped(link: string) {
    link == "" || link == "#" || StartsWith(link, "#") || StartsWith(link, "http:") || StartsWith(link, "https:")
  }

  /** The index of the first '?' or '#', or the length when there is none. */
  function CutIndex(link: string): (i: nat)
    ensures i <= |link|
    ensures forall k :: 0 <= k < i ==> link[k] != '?' && link[k] != '#'
    ensures i < |link| ==> link[i] == '?' || link[i] == '#'
  {
    if |link| == 0 then 0
    else if link[0] == '?' || link[0] == '#' then 0
    else 1 + CutIndex(link[1..])
  }

  /** `link.split(/[?#]/)[0]`. */
  function CleanLink(link: string): (clean: string)
    ensures StartsWith(link, clean)
    ensures '?' !in clean && '#' !in clean
    ensures |clean| < |link| ==> link[|clean|] == '?' || link[|clean|] == '#'
  {
    link[..CutIndex(link)]
  }

  /** The query and the fragment of a link do not change its target. */
  lemma CleanDropsSuffix(path: string, sep: char, rest: string)
    requires '?' !in path && '#' !in path
    requires sep == '?' || sep == '#'
    ensures CleanLink(path + [sep] + rest) == path
  {
    var link := path + [sep] + rest;
    assert link[|path|] == sep;
    assert forall k :: 0 <= k < |path| ==> link[k] == path[k] && path[k] in path;
    assert link[..|path|] == path;
  }

  /** A clean link without '?' or '#' is its own clean form. */
  lemma CleanOfClean(path: string)
    requires '?' !in path && '#' !in path
    ensures CleanLink(path) == path
  {
    assert forall k :: 0 <= k < |path| ==> path[k] in path;
  }

  /** The file an internal link must reach: under distDir for a
      root-relative link, otherwise next to the page. */
  function TargetPath(file: string, link: string, distDir: string): string {
    var clean := CleanLink(link);
    if StartsWith(clean, "/") then PathJoin([distDir, clean]) else PathJoin([Dirname(file), clean])
  }

  /** The target of a root-relative link does not depend on the page it is
      on, and a query or fragment does not move it. */
  lemma TargetPathFacts(f1: string, f2: string, path: string, sep: char, rest: string, distDir: string)
    requires '?' !in path && '#' !in path && (sep == '?' || sep == '#')
    ensures TargetPath(f1, path + [sep] + rest, distDir) == TargetPath(f1, path, distDir)
    ensures StartsWith(path, "/") ==> TargetPath(f1, path, distDir) == TargetPath(f2, path, distDir)
  {
    CleanDropsSuffix(path, sep, rest);
    CleanOfClean(path);
  }

  /** What the file system says when a target is checked: `safeAccess`
      either succeeds or fails, and after a failure `safeStat` reports a
      directory, something else, or fails too. Both wrappers fail with an
      IntegrationError. */
  datatype StatResult = Directory | NotDirectory | StatFailed
  datatype Probe = Accessible | Inaccessible(stat: StatResult)

  /** The failure cases `validateInternalLinksInFile` reports. */
  predicate ProbeBroken(p: Probe) {
    p.Inaccessible? && p.stat != Directory
  }

  datatype BrokenInternal = BrokenInternal(source: string, link: string)

  /** The internal links `validateInternalLinksInFile` reports for `file`. */
  predicate Reported(file: string, distDir: string, probe: string -> Probe, link: string) {
    !Skipped(link) && ProbeBroken(probe(TargetPath(file, link, distDir)))
  }

  /** The links of `file` that `broken` selects, in order. */
  function BrokenAmong(file: string, links: seq<string>, broken: string -> bool): (r: seq<BrokenInternal>)
    ensures |r| <= |links|
  {
    if |links| == 0 then []
    else
      BrokenAmong(file, links[..|links| - 1], broken)
        + (if broken(links[|links| - 1]) then [BrokenInternal(file, links[|links| - 1])] else [])
  }

  lemma {:induction false} BrokenAmongMember(file: string, links: seq<string>, broken: string -> bool, b: BrokenInternal)
    ensures b in BrokenAmong(file, links, broken) <==> b.source == file && b.link in links && broken(b.link)
  {
    if |links| > 0 {
      BrokenAmongMember(file, links[..|links| - 1], broken, b);
      assert links == links[..|links| - 1] + [links[|links| - 1]];
    }
  }

  /** The broken internal links of `file`, in order. */
  function BrokenInternalSpec(file: string, links: seq<string>, distDir: string, probe: string -> Probe): (r: seq<BrokenInternal>)
    ensures |r| <= |links|
  {
    BrokenAmong(file, links, link => Reported(file, distDir, probe, link))
  }

  /** A link is reported broken exactly when it is one of the page's links,
      is not skipped and the file system cannot find its target (or finds a
      file that access refused). */
  lemma BrokenInternalMember(file: string, links: seq<string>, distDir: string,
                             probe: string -> Probe, b: BrokenInternal)
    ensures b in BrokenInternalSpec(file, links, distDir, probe) <==>
      b.source == file && b.link in links && !Skipped(b.link) && ProbeBroken(probe(TargetPath(file, b.link, distDir)))
  {
    BrokenAmongMember(file, links, link => Reported(file, distDir, probe, link), b);
  }

  /** `validateInternalLinksInFile`, with the file system probe as input. */
  method ValidateInternalLinksInFile(file: string, links: seq<string>, distDir: string, probe: string -> Probe)
    returns (broken: seq<BrokenInternal>)
    ensures broken == BrokenInternalSpec(file, links, distDir, probe)
  {
    broken := [];
    for i := 0 to |links|
      invariant broken == BrokenInternalSpec(file, links[..i], distDir, probe)
    {
      var link := links[i];
      assert links[..i + 1][..i] == links[..i];
      if Skipped(link) {
        continue;
      }
      var targetPath := TargetPath(file, link, distDir);
      match probe(targetPath)
      case Accessible =>
      case Inaccessible(stat) =>
        if stat != Directory {
          broken := broken + [BrokenInternal(file, link)];
        }
    }
    assert links[..|links|] == links;
  }

  // ---------------------------------------------------------------------------
  // External links

  /** The outcome of one request of `validateExternalLink`. */
  datatype Outcome = Reached | Unreached(error: string)

  /** `result.error || 'Unknown error'`. */
  function ErrorText(o: Outcome): string
    requires o.Unreached?
  {
    if o.error == "" then "Unknown error" else o.error
  }

  const DefaultMaxExternalRetries: nat := 1

  /** Some attempt numbered 0 to retries reaches the link. */
  predicate Reachable(link: string, retries: nat, outcome: (string, nat) -> Outcome) {
    exists a :: 0 <= a <= retries && outcome(link, a).Reached?
  }

  /** The attempt loop of `validateExternalLinksInFile` for one link, with
      the outcome of attempt a given by `outcome(link, a)`: it returns the
      last error when every attempt failed, and how many requests it made. */
  method TryExternalLink(link: string, retries: nat, outcome: (string, nat) -> Outcome)
    returns (lastError: Option<string>, tries: nat)
    ensures 1 <= tries <= retries + 1
    ensures forall a :: 0 <= a < tries - 1 ==> outcome(link, a).Unreached?
    ensures tries < retries + 1 ==> outcome(link, tries - 1).Reached?
    ensures lastError.None? <==> Reachable(link, retries, outcome)
    ensures lastError.Some? ==> tries == retries + 1 && lastError.value == ErrorText(outcome(link, retries))
  {
    lastError := None;
    tries := 0;
    var attempt := 0;
    while attempt <= retries
      invariant attempt <= retries + 1 && tries == attempt
      invariant forall a :: 0 <= a < attempt ==> outcome(link, a).Unreached?
      invariant attempt == 0 <==> lastError.None?
      invariant attempt > 0 ==> lastError == Some(ErrorText(outcome(link, attempt - 1)))
      decreases retries + 1 - attempt
    {
      var result := outcome(link, attempt);
      tries := tries + 1;
      if result.Reached? {
        lastError := None;
        return;
      }
      lastError := Some(ErrorText(result));
      attempt := attempt + 1;
    }
  }

  datatype BrokenExternal = BrokenExternal(source: string, link: string, error: string)

  /** The reported failure of one external link, if any. */
  function ExternalVerdict(file: string, link: string, retries: nat, outcome: (string, nat) -> Outcome): seq<BrokenExternal> {
    if Reachable(link, retries, outcome) then []
    else [BrokenExternal(file, link, ErrorText(outcome(link, retries)))]
  }

  function BrokenExternalSpec(file: string, links: seq<string>, retries: nat, outcome: (string, nat) -> Outcome)
    : (r: seq<BrokenExternal>)
    ensures |r| <= |links|
  {
    if |links| == 0 then []
    else BrokenExternalSpec(file, links[..|links| - 1], retries, outcome)
           + ExternalVerdict(file, links[|links| - 1], retries, outcome)
  }

  /** An external link is reported broken exactly when none of its
      retries + 1 attempts reached it; the error is the last attempt's. */
  lemma {:induction false} BrokenExternalMember(file: string, links: seq<string>, retries: nat,
                                                outcome: (string, nat) -> Outcome, b: BrokenExternal)
    ensures b in BrokenExternalSpec(file, links, retries, outcome) <==>
      b.source == file && b.link in links && !Reachable(b.link, retries, outcome)
      && b.error == ErrorText(outcome(b.link, retries))
  {
    if |links| > 0 {
      BrokenExternalMember(file, links[..|links| - 1], retries, outcome, b);
      assert links == links[..|links| - 1] + [links[|links| - 1]];
    }
  }

  /** `validateExternalLinksInFile`, with the request outcomes as input. */
  method ValidateExternalLinksInFile(file: string, links: seq<string>, retries: nat, outcome: (string, nat) -> Outcome)
    returns (broken: seq<BrokenExternal>)
    ensures broken == BrokenExternalSpec(file, links, retries, outcome)
  {
    broken := [];
    for i := 0 to |links|
      invariant broken == BrokenExternalSpec(file, links[..i], retries, outcome)
    {
      var link := links[i];
      assert links[..i + 1][..i] == links[..i];
      var lastError, _ := TryExternalLink(link, retries, outcome);
      if lastError.Some? {
        broken := broken + [BrokenExternal(file, link, lastError.value)];
      }
    }
    assert links[..|links|] == links;
  }

  // ---------------------------------------------------------------------------
  // The verdict

  datatype FileResult = FileResult(internal: seq<BrokenInternal>, external: seq<BrokenExternal>)

  function AllInternal(results: seq<FileResult>): seq<BrokenInternal> {
    if |results| == 0 then [] else AllInternal(results[..|results| - 1]) + results[|results| - 1].internal
  }

  function AllExternal(results: seq<FileResult>): seq<BrokenExternal> {
    if |results| == 0 then [] else AllExternal(results[..|results| - 1]) + results[|results| - 1].external
  }

  /** The loop that gathers every file's broken links into two lists. */
  method CollectBroken(results: seq<FileResult>) returns (brokenInternal: seq<BrokenInternal>, brokenExternal: seq<BrokenExternal>)
    ensures brokenInternal == AllInternal(results) && brokenExternal == AllExternal(results)
  {
    brokenInternal, brokenExternal := [], [];
    for i := 0 to |results|
      invariant brokenInternal == AllInternal(results[..i]) && brokenExternal == AllExternal(results[..i])
    {
      assert results[..i + 1][..i] == results[..i];
      brokenInternal := brokenInternal + results[i].internal;
      brokenExternal := brokenExternal + results[i].external;
    }
    assert results[..|results|] == results;
  }

  /** The rule that fails the build. */
  function BuildFailed(brokenInternal: seq<BrokenInternal>, brokenExternal: seq<BrokenExternal>, strict: bool): bool {
    |brokenInternal| > 0 || (strict && |brokenExternal| > 0)
  }

  ghost predicate SomeInternal(results: seq<FileResult>) {
    exists i :: 0 <= i < |results| && results[i].internal != []
  }

  ghost predicate SomeExternal(results: seq<FileResult>) {
    exists i :: 0 <= i < |results| && results[i].external != []
  }

  lemma {:induction false} AllEmpty(results: seq<FileResult>)
    ensures AllInternal(results) == [] <==> !SomeInternal(results)
    ensures AllExternal(results) == [] <==> !SomeExternal(results)
  {
    if |results| > 0 {
      var init := results[..|results| - 1];
      AllEmpty(init);
      assert forall i :: 0 <= i < |init| ==> init[i] == results[i];
    }
  }

  /** The build fails exactly when some page has a broken internal link,
      or when the run is strict and some page has a broken external link;
      without strict mode broken external links never fail it. */
  lemma BuildVerdict(results: seq<FileResult>, strict: bool)
    ensures BuildFailed(AllInternal(results), AllExternal(results), strict) <==>
      SomeInternal(results) || (strict && SomeExternal(results))
    ensures !strict ==> (BuildFailed(AllInternal(results), AllExternal(results), strict) <==> SomeInternal(results))
  {
    AllEmpty(results);
  }
}
