# sekolah-pseo in Dafny

sekolah-pseo builds a static site of Indonesian school pages from a CSV
dataset. This project models the deterministic core of that pipeline and
proves properties of the model:

- the ETL step: its naive CSV parser, `sanitize`, `normaliseRecord`,
  `validateRecord`, and the CSV it writes;
- the quoted-field CSV parser and `addNumbers` of the shared utilities;
- `slugify`, the school page path and directory list of the page builder;
- the provinsi, kabupaten/kota and kecamatan index pages: exact-match
  filters, group-by-count aggregates, counts, links and canonical URLs;
- incremental-build change detection from the build manifest;
- sitemap chunking, file naming and file content;
- link classification, extraction, the internal target rule, the bounded
  external retry loop and the build verdict of the link validator;
- the freshness and data-quality line scans;
- the resilience helpers: `isTransientError`, `retry` and `CircuitBreaker`;
- the `RateLimiter` queue and its metrics;
- the `getCssVariables` serialiser of the design system;
- the Python `factorial` helper;
- the schools-table checks and the `TestSuite` summary of the Python test
  runner.

Every effect is passed in as a value. File contents, the clock (`now`,
`daysAgo`), HTTP and file-system probe results, task completions and
timer firings all arrive this way. Three abstractions are parameters
too: MD5, the Indonesian `localeCompare` order and Python's `float()`.

Layout: one module per source file, plus `Common` (Option/Result, trimming
with the JavaScript and Python whitespace sets, split/join,
de-duplication) and `Paths` (POSIX `path.join`). `Aggregate` holds the
group-by-count and sort that the three aggregating templates share.
`EtlTable` holds the header/row writer and the naive parser of the ETL.

JavaScript `undefined` and `null` become `None`, or a key missing from a
`Record` (a `map<string, string>`). A value is "truthy" when it is present
and not `""`. The JavaScript sort becomes an in-place insertion sort over
an `array` under an abstract total preorder. The proof gives sortedness
and a permutation.

## Model

| member | source | states |
|---|---|---|
| Common.StripStripped | scripts/utils.js:73 | `trim()` leaves no surrounding whitespace and adds no characters |
| Common.StripEmptyIff | scripts/slugify.js:25 | a string trims to `""` iff every character is whitespace |
| Common.SplitJoin | scripts/utils.js:18 | splitting a join on its separator gives back the parts when no part contains it |
| Common.SplitLinesJoin | scripts/utils.js:18 | splitting on `\r?\n` inverts a `\n` join of lines free of line breaks |
| Common.ZipRecordAll | scripts/utils.js:37-39 | the record filled from a header maps each distinct header name to its value |
| Common.DedupSpec | src/services/PageBuilder.js:43-62 | a `Set` filled in order has no duplicates, holds exactly the added values and is no longer than the input |
| Common.DedupOrder | src/services/PageBuilder.js:62 | `Array.from` of the set keeps first-occurrence order |
| Common.NoDupCard | tests/run_tests.py:392 | a sequence without duplicates has as many distinct values as entries |
| Paths.PathJoinPlain | src/services/PageBuilder.js:22-30 | `path.join` of plain segments drops the empty ones and joins the rest with `/` |
| Paths.NormalizePlain | src/services/PageBuilder.js:22-30 | normalising a join of plain segments changes nothing |
| Slugs.Collapse | scripts/slugify.js:35 | replacing each run of non-`[a-z0-9]` characters by one `-` yields only slug characters and no double dash |
| Slugs.SlugifyValue | scripts/slugify.js:20-22 | a non-string gives `""`; a string gives its slug |
| Slugs.SlugifyBlank | scripts/slugify.js:25-27 | a whitespace-only input gives `""` |
| Slugs.SlugifyShape | scripts/slugify.js:32-37 | a non-blank input gives a non-empty string of `a-z`, `0-9` and `-`, with no leading, trailing or doubled dash |
| Slugs.SlugifyLetters | scripts/slugify.js:32-37 | the slug keeps exactly the ASCII alphanumerics of the folded, lower-cased input, or is `untitled` when there are none |
| Slugs.SlugifyOfSlug | scripts/slugify.js:19-38 | a slug is its own slug |
| Slugs.SlugifyIdempotent | scripts/slugify.js:19-38 | slugifying twice is slugifying once |
| Slugs.ExampleHelloWorld | scripts/slugify.test.js:5-9 | `Hello World` gives `hello-world` |
| Slugs.ExampleHelloAtWorld | scripts/slugify.test.js:11-15 | `hello@world!` gives `hello-world` |
| Slugs.ExampleCiparay | scripts/kabupaten-page.test.js:149-154 | `Ciparay` gives `ciparay` |
| PageBuilder.Missing | src/services/PageBuilder.js:10-11 | the missing fields are exactly the required fields that are not truthy, in list order |
| PageBuilder.BuildSchoolPage | src/services/PageBuilder.js:5-36 | a non-object is rejected with the invalid-school message; missing fields are listed in the error; otherwise the result is the relative path |
| PageBuilder.BuildSucceedsIff | src/services/PageBuilder.js:10-15 | building succeeds iff provinsi, kab_kota, kecamatan, npsn and nama are all truthy |
| PageBuilder.RelativePathShape | src/services/PageBuilder.js:22-30 | the path is the directory of non-empty slug segments, `/`, and the file name |
| PageBuilder.RelativePathFileName | scripts/PageBuilder.test.js:269-279 | the path ends in `/<npsn>-<slug(nama)>.html` |
| PageBuilder.DirStartsWithProvinsi | src/services/PageBuilder.js:22-23 | every school path starts with the `provinsi` segment |
| PageBuilder.SchoolPagePath | src/services/PageBuilder.js:22-30 | with non-blank provinsi, kab_kota and kecamatan, all six directory segments appear |
| PageBuilder.GetUniqueDirectories | src/services/PageBuilder.js:38-63 | a non-array is rejected; otherwise the result is the de-duplicated list of the schools' directories |
| PageBuilder.UniqueDirectoriesDistinct | src/services/PageBuilder.js:43-62 | the directory list has no duplicates and is no longer than the school list |
| PageBuilder.UniqueDirectoriesCover | src/services/PageBuilder.js:45-60 | every school's directory is listed and every listed directory is some school's |
| PageBuilder.UniqueDirectoriesOrder | src/services/PageBuilder.js:62 | directories appear in the order of their first school |
| PageBuilder.SameLocationSameDir | scripts/PageBuilder.test.js:411-419 | schools that agree on provinsi, kab_kota and kecamatan share a directory |
| CsvUtils.ParseLine | scripts/utils.js:50-85 | the character loop of `parseCsvLine` computes the field list of its specification |
| CsvUtils.FieldCount | scripts/utils.js:71-82 | a line yields one more field than it has commas outside quotes |
| CsvUtils.FieldsTrimmed | scripts/utils.js:73 | every field, quoted or not, is trimmed |
| CsvUtils.ParseEncodedLine | scripts/utils.js:58-70 | fields written quoted, with each `"` doubled and joined by commas, parse back to the trimmed fields, commas and quotes included |
| CsvUtils.ParsePlainLine | scripts/utils.js:71-77 | comma-free, quote-free fields joined by commas parse back to the trimmed fields |
| CsvUtils.FillRecord | scripts/utils.js:36-40 | a record has exactly the header names as keys; a short row gives `''` for the missing fields |
| CsvUtils.RowRecordField | scripts/utils.js:37-39 | the value of header name i is the row's field i, or `''` when the row is shorter |
| CsvUtils.ParseRows | scripts/utils.js:34-41 | each data line becomes one record, in order |
| CsvUtils.CsvRecords | scripts/utils.js:12-42 | empty or non-string input gives no records; otherwise there is one record per line after the header |
| CsvUtils.ParseCsv | scripts/utils.js:12-42 | `parseCsv` computes `CsvRecords` |
| CsvUtils.AddNumbers | scripts/utils.js:94-99 | two numbers give their sum; anything else gives the error |
| EtlValues.Sanitize | scripts/etl.js:52-60 | a non-string gives `''`; the result has no control character and no surrounding whitespace |
| EtlValues.CollapseWsSpec | scripts/etl.js:57 | after collapsing, whitespace is only single spaces, never two adjacent; the result ends in whitespace iff the input does; the other characters are kept in order |
| EtlValues.CollapsePlain | scripts/etl.js:57 | text without whitespace is unchanged |
| EtlValues.CollapseWsRuns | scripts/etl.js:57 | a maximal whitespace run between two texts becomes exactly one space, and the texts on either side collapse independently |
| EtlValues.SanitizeSpacedWords | scripts/etl.js:57-59 | two words separated by any whitespace run sanitize to the words joined by one space |
| EtlValues.SanitizeChars | scripts/etl.js:56-59 | sanitize adds no character except the space |
| EtlValues.FirstTruthy | scripts/etl.js:70-80 | a field takes the first truthy alias in list order |
| EtlValues.ValuesIgnoreKabKota | scripts/etl.js:77 | the raw `kab_kota` field never affects the normalised values |
| Etl.NormaliseFields | scripts/etl.js:68-83 | the normalised record has exactly the twelve schema keys, each the sanitized first truthy alias, and the run date as `updated_at` |
| Etl.KabKotaNotFromKabKota | scripts/etl.js:77 | kab_kota comes only from `kabupaten` or `kota` |
| Etl.KeepValidMember | scripts/etl.js:91-94 | the filter keeps exactly the records with a non-empty all-digit npsn |
| Etl.ProcessedMember | scripts/etl.js:115-117 | a processed record is a normalised raw record that passes validation |
| Etl.ProcessedAppend | scripts/etl.js:115-117 | processing keeps input order: it distributes over concatenation |
| Etl.OutputText | scripts/etl.js:121-129 | there is no output file iff no record survives |
| Etl.OutputRoundTrip | scripts/etl.js:126-129 | the written CSV read back with the naive parser gives the processed records, when raw values contain no comma |
| Etl.RerunReadsBack | scripts/etl.js:32-43 | for any raw text, the output of the ETL parses back to the processed records |
| EtlTable.ParseCsv | scripts/etl.js:32-43 | the naive parser's loop computes one record per line after the header |
| EtlTable.ParseTableNoComma | scripts/etl.js:36-39 | values from the naive parser never contain a comma |
| EtlTable.WriteThenParse | scripts/etl.js:126-129 | header and rows written with comma and newline joins parse back to the same records when values are clean |
| Manifest.LoadManifest | scripts/manifest.js:52-59 | a manifest is kept iff its version is 1 |
| Manifest.TruthyValuesMember | scripts/manifest.js:90-104 | the hash key holds exactly the truthy relevant field values |
| Manifest.HashDeterministic | scripts/manifest.test.js:24-46 | schools with the same relevant fields get the same key and hash |
| Manifest.OtherFieldsIgnored | scripts/manifest.js:90-102 | a field outside the eleven never affects the hash |
| Manifest.HashKeyDecodes | scripts/manifest.js:103-104 | with `|`-free values the key splits back into the truthy values |
| Manifest.HashKeyNotInjective | scripts/manifest.js:103 | different records can share a key because `filter(Boolean)` shifts fields |
| Manifest.NoManifestAllChanged | scripts/manifest.js:116-119 | with no manifest or no `schools`, every school is changed and none unchanged |
| Manifest.GetChangedSchools | scripts/manifest.js:115-141 | the loop computes the changed and unchanged lists of the specification |
| Manifest.GetUnchangedSchools | scripts/manifest.js:149-152 | equals the unchanged half of `getChangedSchools` |
| Manifest.PartitionExact | scripts/manifest.js:124-139 | the two lists together are a permutation of the schools |
| Manifest.PartitionMember | scripts/manifest.js:128-137 | a school is unchanged iff the manifest has its npsn with an equal hash, and changed otherwise |
| Manifest.PartitionAppend | scripts/manifest.js:124-139 | both lists keep input order |
| Aggregate.FilterMember | src/presenters/templates/province-page.js:16 | a filter keeps exactly the matching schools |
| Aggregate.FilterAppend | src/presenters/templates/province-page.js:16 | a filter keeps input order |
| Aggregate.KeyValuesSound | src/presenters/templates/homepage.js:19-21 | every group name is a non-empty value some school carries |
| Aggregate.KeyValuesComplete | src/presenters/templates/homepage.js:18-28 | every truthy value gets a group |
| Aggregate.AddSchool | src/presenters/templates/homepage.js:18-32 | one loop step keeps the map equal to the name-by-name counts of the schools seen |
| Aggregate.GroupedAdd | src/presenters/templates/homepage.js:22-31 | a new name starts at count 1; a known name's count grows by 1 |
| Aggregate.GroupCounts | src/presenters/templates/homepage.js:16-35 | the map loop yields one entry per distinct truthy value, in first-occurrence order |
| Aggregate.SortByName | src/presenters/templates/homepage.js:36 | the in-place sort leaves the entries sorted and a permutation |
| Aggregate.SumCountsPermutation | src/presenters/templates/homepage.js:36 | sorting does not change the total count |
| Aggregate.SumOfCounts | src/presenters/templates/homepage.js:18-32 | the counts add up to the number of schools with a truthy key |
| Aggregate.GroupEntriesSpec | src/presenters/templates/homepage.js:22-31 | entry names are distinct; there is an entry for a name iff a school carries it; each slug is `slugify(name)` and each count is exact and at least 1 |
| Aggregate.AggregateBy | src/presenters/templates/homepage.js:11-39 | a non-array gives `[]`; otherwise the entries are the group counts, sorted, as a permutation |
| Aggregate.AggregatedTotal | src/presenters/templates/homepage.js:18-32 | the total count is at most the school count, and equal iff every school has the key |
| Aggregate.AggregatedEntry | src/presenters/templates/homepage.js:22-31 | each sorted entry is a real group with its exact count and slug |
| Aggregate.RemoveTrailingSlash | src/presenters/templates/province-page.js:67 | one trailing `/` is removed, and nothing else |
| Homepage.AggregateByProvince | src/presenters/templates/homepage.js:11-39 | groups by provinsi, skipping falsy values, sorted by name |
| Homepage.GenerateHomepage | src/presenters/templates/homepage.js:46-62 | total is the length of all schools; the province count is the number of entries; each link is built from the entry slug |
| Homepage.ProvinceLinkIsDirectory | src/presenters/templates/homepage.js:55 | a province link is the page builder's province directory of any school in it |
| ProvincePage.FilterSchoolsByProvince | src/presenters/templates/province-page.js:11-17 | a non-array gives `[]`; otherwise exactly the schools whose provinsi is the name |
| ProvincePage.ProvinceFilterOrder | src/presenters/templates/province-page.js:16 | the filter keeps input order |
| ProvincePage.AggregateByKabupaten | src/presenters/templates/province-page.js:24-52 | groups by kab_kota, skipping falsy values, sorted by name |
| ProvincePage.GenerateProvincePage | src/presenters/templates/province-page.js:60-81 | the total is the filtered length; the kabupaten stat counts the aggregate; canonical URL and links are as written |
| ProvincePage.CanonicalIsHomepageLink | src/presenters/templates/province-page.js:67 | the canonical URL is the site URL followed by the homepage link to the province |
| ProvincePage.KabupatenLinkIsDirectory | src/presenters/templates/province-page.js:74 | a kabupaten link is the page builder's kabupaten directory of its schools |
| KabupatenPage.FilterSchoolsByProvinceAndKabupaten | src/presenters/templates/kabupaten-page.js:12-20 | a non-array gives `[]`; otherwise exactly the schools matching both names |
| KabupatenPage.KabupatenFilterOrder | src/presenters/templates/kabupaten-page.js:17-19 | the filter keeps input order |
| KabupatenPage.AggregateByKecamatan | src/presenters/templates/kabupaten-page.js:27-55 | groups by kecamatan, skipping missing or empty values, sorted by name |
| KabupatenPage.GenerateKabupatenPage | src/presenters/templates/kabupaten-page.js:64-87 | the total is the filtered length; the kecamatan stat counts the aggregate; canonical URL and links are as written |
| KabupatenPage.CanonicalIsProvinceLink | src/presenters/templates/kabupaten-page.js:73 | the canonical URL is the site URL followed by the province page's link to the kabupaten |
| KabupatenPage.KecamatanLinkIsDirectory | src/presenters/templates/kabupaten-page.js:76-87 | a kecamatan link is the page builder's directory of its schools |
| KecamatanPage.FilterSchoolsByLocation | src/presenters/templates/kecamatan-page.js:13-24 | a non-array gives `[]`; otherwise exactly the schools matching all three names |
| KecamatanPage.LocationFilterOrder | src/presenters/templates/kecamatan-page.js:18-23 | the filter keeps input order |
| KecamatanPage.StatusLabel | src/presenters/templates/kecamatan-page.js:39 | `Swasta` iff the status is `S`, `Negeri` otherwise |
| KecamatanPage.StatusClass | src/presenters/templates/kecamatan-page.js:40 | `badge-s` iff the status is `S`, `badge-n` otherwise |
| KecamatanPage.SchoolLinks | src/presenters/templates/kecamatan-page.js:33-55 | one link per school, in order |
| KecamatanPage.GenerateKecamatanPage | src/presenters/templates/kecamatan-page.js:65-82 | the total shown equals the number of links and the filtered length |
| KecamatanPage.SchoolUrlIsPagePath | src/presenters/templates/kecamatan-page.js:36-38 | a school URL is `/` followed by the page builder's relative path |
| KecamatanPage.PageLinksArePages | src/presenters/templates/kecamatan-page.js:70-82 | every link on the page points at the built page of its school |
| KecamatanPage.CanonicalIsKabupatenLink | src/presenters/templates/kecamatan-page.js:79 | the canonical URL is the site URL followed by the kabupaten page's link |
| Sitemap.ChunksConcat | scripts/sitemap.js:40-41 | the chunks concatenate to the URL list |
| Sitemap.ChunkSizes | scripts/sitemap.js:40-41 | every chunk has 1 to M URLs, and all but the last have exactly M |
| Sitemap.ChunkCount | scripts/sitemap.js:40 | no URLs give no files; n URLs give ceil(n/M) files |
| Sitemap.NameRoundTrip | scripts/sitemap.js:42 | the number is recovered from file name k |
| Sitemap.NamesDistinct | scripts/sitemap.js:42 | different files get different names |
| Sitemap.ShortNames | scripts/sitemap.js:42 | files 1 to 999 have names of 15 characters (three padded digits) |
| Sitemap.UrlsetContentLines | scripts/sitemap.js:45-55 | a file's lines are the declaration, the urlset tag, one `<url>` line per URL in order, and the close tag |
| Sitemap.WriteSitemapFiles | scripts/sitemap.js:38-60 | the loop writes one file per chunk, file k named `sitemap-NNN.xml` with the urlset of chunk k |
| Sitemap.SitemapIndexLines | scripts/sitemap.js:62-76 | the index lists one `<sitemap>` line per file, in order, between the sitemapindex tags |
| Sitemap.EmptyIndex | scripts/sitemap.test.js:205-217 | an index without files still has the declaration and both tags |
| ValidateLinks.CategorizeLink | scripts/validate-links.js:76-86 | external with url = href iff href starts with `http://` or `https://`; internal with no url otherwise |
| ValidateLinks.HashLinksInternal | scripts/validate-links.js:77-79 | empty and `#` hrefs are internal with no url |
| ValidateLinks.Hrefs | scripts/validate-links.js:95-98 | each captured href is non-empty and quote-free |
| ValidateLinks.SingleHref | scripts/validate-links.js:95-98 | a single `href="x"` captures `x` |
| ValidateLinks.EmptyHrefNotCaptured | scripts/validate-links.test.js:94-99 | `href=""` is never matched |
| ValidateLinks.BucketOf | scripts/validate-links.js:100-106 | each href lands in exactly one of internal, external or dropped |
| ValidateLinks.BucketsPartition | scripts/validate-links.js:100-106 | the three buckets together hold every captured href |
| ValidateLinks.ExtractLinks | scripts/validate-links.js:93-110 | the regex loop yields the internal and external buckets of the captured hrefs, in document order |
| ValidateLinks.ExtractedLinks | scripts/validate-links.js:100-106 | an href is external iff captured and http(s); internal iff captured, not hash-only and not http(s) |
| ValidateLinks.CleanLink | scripts/validate-links.js:127 | the target is the prefix before the first `?` or `#` |
| ValidateLinks.CleanDropsSuffix | scripts/validate-links.js:127 | a query or fragment is dropped from a clean path |
| ValidateLinks.TargetPathFacts | scripts/validate-links.js:127-134 | queries and fragments do not change the target, and an absolute link resolves the same from every file |
| ValidateLinks.ValidateInternalLinksInFile | scripts/validate-links.js:119-155 | the loop reports exactly the non-skipped links whose target probe is broken, in order |
| ValidateLinks.BrokenInternalMember | scripts/validate-links.js:119-155 | a report names this file and a listed, non-skipped link whose target is missing or not a file |
| ValidateLinks.TryExternalLink | scripts/validate-links.js:171-183 | at most retries+1 tries; the link is broken iff every try fails |
| ValidateLinks.ValidateExternalLinksInFile | scripts/validate-links.js:164-187 | reports exactly the links no try reaches, with the last error |
| ValidateLinks.BrokenExternalMember | scripts/validate-links.js:164-187 | a report names this file, an unreachable link and the error of its last try |
| ValidateLinks.CollectBroken | scripts/validate-links.js:313-316 | the broken lists are the concatenation over all files |
| ValidateLinks.BuildVerdict | scripts/validate-links.js:357 | the build fails iff some internal link is broken, or strict mode is on and some external link is broken |
| Freshness.DataLines | scripts/check-freshness.js:41-55 | the record count is the number of lines after the header of the trimmed content |
| Freshness.LatestDate | scripts/check-freshness.js:59-66 | the backward scan finds the last line whose last field matches `YYYY-MM-DD` |
| Freshness.ScanNewestDate | scripts/check-freshness.js:57-66 | the backward loop computes the newest date of the specification |
| Freshness.GetDataFreshness | scripts/check-freshness.js:26-98 | the report is the freshness function of the content |
| Freshness.FreshnessFacts | scripts/check-freshness.js:54-86 | the file exists; the count is the number of data lines; fresh iff daysAgo is at most 7 |
| Freshness.HeaderOnly | scripts/check-freshness.js:43-51 | a header-only file has no records and no date |
| Freshness.ChosenDateIsNewest | scripts/check-freshness.js:59-66 | the chosen date is the last field of a data line with no dated line after it |
| Freshness.CountsOnlyLongLines | scripts/check-freshness.js:130 | lines with fewer than twelve fields count toward no metric |
| Freshness.GetDataQualityMetrics | scripts/check-freshness.js:105-162 | the loop computes the four counters over the data lines; the province counter reads a given column, field 9 as written and field 8 as intended |
| Freshness.MetricsBounded | scripts/check-freshness.test.js:157-187 | every counter is at most totalRecords |
| Freshness.NpsnMetric | scripts/check-freshness.js:132-137 | the npsn counter counts long lines whose trimmed field 0 is a non-empty run of digits |
| Freshness.ProvinceAsWrittenCountsLat | scripts/check-freshness.js:133-138 | as written, the province counter tests field 9, the lat column |
| Freshness.ProvinceMismatch | scripts/check-freshness.js:133 | a row with a latitude and no province is counted as written and not by the provinsi column |
| Freshness.ProvinceMetric | scripts/check-freshness.js:131-138 | read from field 8, the province counter counts exactly the long lines with a non-blank provinsi |
| Freshness.ProvinceCountersAgree | scripts/check-freshness.js:123-140 | the as-written and intended province counters agree when every long line has a blank provinsi exactly when it has a blank latitude |
| Freshness.ProvinceCountersDiffer | scripts/check-freshness.js:133 | on a file with one school that has a latitude and no province, the counter as written reports 1 and the intended counter 0 |
| Freshness.ProvinceColumn | scripts/etl.js:69-82 | in the rows the ETL writes, field 8 is provinsi and field 9 is lat |
| Resilience.IsTransientError | scripts/resilience.js:58-72 | null is not transient; without a message, transient iff the code is listed |
| Resilience.TransientIff | scripts/resilience.js:51-72 | transient iff the code is EAGAIN, EIO, ENOSPC, EBUSY or ETIMEDOUT, or the message contains a listed pattern |
| Resilience.TransientByMessage | scripts/resilience.js:64-70 | a message containing a listed pattern anywhere is transient |
| Resilience.OtherCodesNotTransient | scripts/resilience.test.js:86-95 | ENOENT, EINVAL and an empty message are not transient |
| Resilience.ContainsIff | scripts/resilience.js:67 | `includes` holds iff the pattern occurs at some index |
| Resilience.BackoffDelay | scripts/resilience.js:154 | the delay never exceeds maxDelayMs |
| Resilience.BackoffMonotone | scripts/resilience.js:154 | delays do not shrink from one attempt to the next |
| Resilience.BackoffUncapped | scripts/resilience.js:154 | below the cap, the delay is initialDelayMs * multiplier^(k-1) |
| Resilience.DefaultDelays | scripts/resilience.js:125-131 | with the defaults, the first two delays are 100 and 200 ms |
| Resilience.Retry | scripts/resilience.js:124-161 | at most maxAttempts calls; it stops at the first success or first rejected error; exhaustion reports the calls made and the last error; every wait follows the backoff formula |
| Resilience.SuccessFacts | scripts/resilience.js:228-235 | success zeroes failureCount and moves HALF_OPEN to CLOSED; other states stay |
| Resilience.FailureFacts | scripts/resilience.js:237-248 | failure adds one and records the time; the result is OPEN iff it was not CLOSED or the threshold is reached |
| Resilience.ConsecutiveFailures | scripts/resilience.js:237-248 | from CLOSED, n failures open the circuit iff the count reaches the threshold |
| Resilience.StaysOpen | scripts/resilience.js:243-245 | an open circuit stays open under further failures |
| Resilience.DefaultThresholdOpensOnFifth | scripts/resilience.js:181-191 | with the default threshold, four failures keep it closed and the fifth opens it |
| Resilience.ExecuteRejects | scripts/resilience.js:201-213 | execute rejects iff OPEN and the reset timeout has not passed; a reject changes nothing and ignores the call |
| Resilience.ExecuteRuns | scripts/resilience.js:204-225 | otherwise the call runs (after HALF_OPEN when due), and its outcome feeds success or failure |
| Resilience.CoherentPreserved | scripts/resilience.js:200-275 | every transition keeps an open circuit's failure time recorded |
| Resilience.CircuitBreaker.constructor | scripts/resilience.js:181-191 | options fall back to 5, 60000 and 10000; the breaker starts CLOSED with no failures |
| Resilience.CircuitBreaker.OnSuccess | scripts/resilience.js:228-235 | the new state is the success transition of the old |
| Resilience.CircuitBreaker.OnFailure | scripts/resilience.js:237-248 | the new state is the failure transition of the old |
| Resilience.CircuitBreaker.Execute | scripts/resilience.js:200-226 | the new state and result are the execute step of the old state |
| Resilience.CircuitBreaker.Reset | scripts/resilience.js:270-275 | the breaker is CLOSED with no failures and no failure time |
| RateLimiting.Admitted | scripts/rate-limiter.js:138-149 | the number of queued tasks started fits the free slots and stops only when the queue is empty or slots run out |
| RateLimiting.RemoveAtFacts | scripts/rate-limiter.js:116-119 | splicing one task out keeps the other tasks and leaves the queue duplicate-free |
| RateLimiting.RateLimiter.constructor | scripts/rate-limiter.js:43-60 | the limiter starts idle with an empty queue and zero metrics |
| RateLimiting.RateLimiter.GetMetrics | scripts/rate-limiter.js:155-167 | the report carries the counters, the active count and the queue length |
| RateLimiting.RateLimiter.ExecuteTask | scripts/rate-limiter.js:86-92 | a started task takes a slot and counts toward total |
| RateLimiting.RateLimiter.QueueTask | scripts/rate-limiter.js:107-114 | a queued task goes to the back; queued grows and maxQueueSize tracks the longest queue |
| RateLimiting.RateLimiter.Execute | scripts/rate-limiter.js:68-84 | a new task starts at once iff activeCount < maxConcurrent, and is queued otherwise |
| RateLimiting.RateLimiter.ProcessQueue | scripts/rate-limiter.js:138-149 | queued tasks start from the front, in FIFO order, until the queue is empty or no slot is free |
| RateLimiting.RateLimiter.Finish | scripts/rate-limiter.js:93-103 | a settled task counts once as completed or failed, frees its slot, and the queue is processed |
| RateLimiting.RateLimiter.Timeout | scripts/rate-limiter.js:115-133 | a task still waiting is removed and counted rejected, and never starts; otherwise nothing changes |
| RateLimiting.RateLimiter.Reset | scripts/rate-limiter.js:172-189 | the queue is emptied and every counter is zero |
| DesignSystem.Child | src/presenters/design-system.js:88-134 | a token lookup finds the entry with that key, or reports that there is none |
| DesignSystem.WriteRule | src/presenters/design-system.js:137-143 | the `+=` loop builds the rule text of the variable list |
| DesignSystem.GetCssVariables | src/presenters/design-system.js:136-144 | the output is the rule for the variables table |
| DesignSystem.CssFrame | src/presenters/design-system.js:137-141 | the output starts with `:root {\n` and ends with `}` |
| DesignSystem.CssTextLines | src/presenters/design-system.js:138-140 | one line per table entry, in order, each `  name: value;` |
| DesignSystem.BreakpointsAndSkipLinkNotEmitted | src/presenters/design-system.js:87-135 | no variable reads a breakpoint or a skip-link colour |
| DesignSystem.ColorPrimaryFirst | src/presenters/design-system.js:88 | `--color-primary` comes first, with `#2563eb` |
| DesignSystem.Spacing2xl | scripts/design-system.test.js:31 | `--spacing-2xl` is `3rem` |
| Factorial.FactBounds | src/factorial.py:18-23 | n! is at least 1 and at least n |
| Factorial.FactSmall | tests/test_factorial.py:5-14 | 0! = 1! = 1 and 5! = 120 |
| Factorial.Factorial | src/factorial.py:1-23 | a non-int raises TypeError; a negative int raises ValueError; otherwise the loop returns n! |
| Validator.CheckSchema | tests/run_tests.py:306-316 | a missing file passes; otherwise it fails iff a required column is missing, naming the first one in list order |
| Validator.CheckBasicColumns | tests/run_tests.py:248-265 | passes with no rows; otherwise fails iff the first row lacks a basic column, naming the first one |
| Validator.Sample | tests/run_tests.py:328 | the sample is the first 10 rows, or all rows when fewer |
| Validator.CheckLatLonNumeric | tests/run_tests.py:320-340 | fails iff a sampled non-empty lat or lon does not parse, naming the first one |
| Validator.RowViolations | tests/run_tests.py:355-366 | a row adds up to two violations |
| Validator.RowViolationsCases | tests/run_tests.py:357-366 | rows with an unparsable coordinate add none; a NaN latitude is out of bounds |
| Validator.CheckBounds | tests/run_tests.py:345-374 | passes with no rows; otherwise fails iff violations exceed 5% of the rows with both coordinates |
| Validator.BoundsCounts | tests/run_tests.py:353-367 | violations are at most twice the rows, and rows with coordinates at most the rows |
| Validator.NpsnValuesMember | tests/run_tests.py:387-391 | an NPSN is collected iff some row has it non-empty after strip |
| Validator.DistinctBound | tests/run_tests.py:392-393 | the distinct count is at most the occurrences, and equal iff there is no duplicate |
| Validator.Duplicates | tests/run_tests.py:393 | zero duplicates iff no value repeats |
| Validator.CheckUniqueness | tests/run_tests.py:379-400 | passes with no rows; otherwise fails iff duplicates exceed 1% of the occurrences |
| Validator.DistinctNpsnPasses | tests/run_tests.py:395-399 | distinct NPSNs always pass |
| Validator.EmptyCounts | tests/run_tests.py:414-419 | each count is the number of rows where that field is blank after strip |
| Validator.CheckCompleteness | tests/run_tests.py:405-426 | passes with no rows; otherwise fails iff some field is blank in over 10% of the rows, naming the first |
| Validator.NonNumericBound | tests/run_tests.py:439-445 | non-numeric NPSNs are at most the non-empty ones, which are at most the rows |
| Validator.CheckNpsnNumeric | tests/run_tests.py:431-451 | passes with no rows; otherwise fails iff non-digit NPSNs exceed 1% of all rows |
| Validator.NumericNpsnPasses | tests/run_tests.py:439-450 | all-digit NPSNs always pass |
| Validator.SummaryOf | tests/run_tests.py:97-109 | total is the number of results, split into passed and failed |
| Validator.NoFailuresIff | tests/run_tests.py:97-109 | nothing failed iff every test passed |
| Validator.SummaryAppend | tests/run_tests.py:54-67 | one more result adds one to total and one to passed or failed |
| Validator.TestSuite.RunTest | tests/run_tests.py:54-67 | appends one result that passed iff the test raised nothing |
| Validator.TestSuite.GetSummary | tests/run_tests.py:97-109 | the summary counts the recorded results, and nothing failed iff all passed |

## Findings

| source | as written | input that shows it | evidently intended | confidence | as-written member | corrected member |
|---|---|---|---|---|---|---|
| scripts/check-freshness.js:133 | the province counter reads `fields[9]`, the lat column of the ETL output | a row with `provinsi` empty and a latitude, e.g. field 8 `""` and field 9 `x` | read field 8, provinsi | high (not executed) | Freshness.ProvinceCountersDiffer | Freshness.ProvinceMetric |

## Left out

- File and network I/O is modelled as input data. This covers existence checks, reads and writes, the sitemap directory walk, HTTP probes and the manifest file. The validator's file-exists and content tests, and its malformed-CSV test, depend on the file system and Python's `csv` module.
- Logging, report text, HTML markup and `escapeHtml` are not modelled. The HTML template bodies and `school-page.js` are not part of this model.
- Timers, promises and events are replaced by explicit events. This covers `withTimeout`, the `setTimeout` waits of `retry` and the rate limiter, and `EventEmitter` notifications. `retry` returns its waits as a list.
- Floating point is not modelled. `float()` is an abstract partial parse, with NaN as a separate value. Percentages, `toFixed` text, throughput, success rate and durations are left out.
- Date parsing and the clock are parameters: `daysAgo` comes from a given parse function, and the ETL run date is a parameter.
- MD5 and the `localeCompare(…, 'id')` order are abstract parameters. Unicode NFD with `\p{Diacritic}` is a concrete partial table: Latin-1 letters, combining marks and a few spacing marks.
- `scripts/config.js` lacks `MAX_URLS_PER_SITEMAP`, `RATE_LIMITER_DEFAULTS` and `CIRCUIT_BREAKER_DEFAULTS`, so M, the limiter options and the reset values are parameters.
- Sitemap.WriteSitemapFiles: requires M >= 1, because with M = 0 the source loop never ends.
- Slugs.Slugify: the accent fold covers Latin-1 only. A precomposed letter outside Latin-1 whose canonical decomposition starts with an ASCII letter (ā U+0101, ş U+015F, ğ U+011F, İ U+0130, ệ U+1EC7) becomes `-` in the model but folds to its base letter in the source, so `Slugify("ā")` is `untitled` here and `a` there. Lower-casing is ASCII only; Unicode lower-case forms of other letters are not modelled.
- Aggregate.SortByName: the sort order is an abstract total preorder, so the output order of names that compare equal is not pinned to V8's sort.
- RateLimiting.RateLimiter.Reset: requires no running task. A reset mid-flight lets `activeCount` go negative when those tasks settle. Promises dropped at reset, the task's return value and `rateLimitMs` (never read) are not modelled.
- RateLimiting.RateLimiter.Finish: a task's settlement is an event the caller reports; which task settles is not tracked, only that one running task does.
- Resilience.Retry: integer options only (`Math.pow` on fractional multipliers is not modelled). A thrown `null` is not modelled: building the exhaustion details would itself raise a TypeError.
- Resilience.CircuitBreaker.Execute: the call's outcome and settle time are inputs, so interleaving of concurrent `execute` calls is not modelled; `monitoringPeriodMs` is stored but never read.
- DesignSystem.GetCssVariables: every property path of the table resolves to a token; this is not proved, though `ColorPrimaryFirst` and `Spacing2xl` check two entries.
- Freshness.GetDataQualityMetrics: the province column is a parameter. `ProvinceFieldAsWritten` (9) gives the source as written and `ProvinceField` (8) the evidently intended count; see Findings.
- Validator.CheckLatLonNumeric, Validator.CheckBounds, Validator.CheckUniqueness, Validator.CheckCompleteness, Validator.CheckNpsnNumeric: Python `DictReader` short rows (None cells, on which `.strip()` would raise) are not modelled; every cell of a row is a string.
- Validator.CheckNpsnNumeric: `isdigit` is ASCII digits only; other Unicode digits are not modelled.
- CsvUtils.ParseCsv: line breaks inside quoted fields are not supported, as in the source, which splits lines first.
- Etl.OutputRoundTrip: stated for comma-free raw values and a clean run date, which hold for every record the naive parser produces (`RerunReadsBack`). `etl.test.js` expectations of functions `etl.js` does not define are not encoded.
