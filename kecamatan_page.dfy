/** The filter, school links and counts of a kecamatan page. */
module KecamatanPage {
  import opened Common
  import opened Slugs
  import opened Aggregate
  import opened PageBuilder
  import opened Homepage
  import opened ProvincePage
  import opened KabupatenPage

  function InKecamatan(p: string, k: string, c: string): Record -> bool {
    s => HasValue(s, "provinsi", p) && HasValue(s, "kab_kota", k) && HasValue(s, "kecamatan", c)
  }

  /** `filterSchoolsByLocation`: the schools whose provinsi, kab_kota and
      kecamatan are exactly p, k and c. */
  function FilterSchoolsByLocation(arg: Input<Record>, p: string, k: string, c: string): (r: seq<Record>)
    ensures arg.NonArray? ==> r == []
    ensures arg.Array? ==> forall s :: s in r <==>
      s in arg.elems && HasValue(s, "provinsi", p) && HasValue(s, "kab_kota", k) && HasValue(s, "kecamatan", c)
  {
    if arg.NonArray? then []
    else
      FilterMembers(arg.elems, InKecamatan(p, k, c));
      FilterBy(arg.elems, InKecamatan(p, k, c))
  }

  /** The filter keeps the input order. */
  lemma LocationFilterOrder(a: seq<Record>, b: seq<Record>, p: string, k: string, c: string)
    ensures FilterSchoolsByLocation(Array(a + b), p, k, c)
      == FilterSchoolsByLocation(Array(a), p, k, c) + FilterSchoolsByLocation(Array(b), p, k, c)
  {
    FilterAppend(a, b, InKecamatan(p, k, c));
  }

  /** `${school.npsn}`: an absent NPSN is printed as "undefined". */
  function NpsnText(s: Record): string {
    if "npsn" in s then s["npsn"] else "undefined"
  }

  /** The href of a school's link on the kecamatan page. */
  function SchoolUrl(s: Record, ps: string, ks: string): string {
    KecamatanPrefix(ps, ks) + SlugOf(s, "kecamatan") + "/" + NpsnText(s) + "-" + SlugOf(s, "nama") + ".html"
  }

  function StatusLabel(s: Record): (name: string)
    ensures name == "Swasta" <==> HasValue(s, "status", "S")
    ensures name == "Swasta" || name == "Negeri"
  {
    if HasValue(s, "status", "S") then "Swasta" else "Negeri"
  }

  function StatusClass(s: Record): (cls: string)
    ensures cls == "badge-s" <==> HasValue(s, "status", "S")
    ensures cls == "badge-s" || cls == "badge-n"
  {
    if HasValue(s, "status", "S") then "badge-s" else "badge-n"
  }

  /** What a school's list item carries besides escaped text. */
  datatype SchoolLink = SchoolLink(href: string, statusLabel: string, statusClass: string)

  function SchoolLinkOf(s: Record, ps: string, ks: string): SchoolLink {
    SchoolLink(SchoolUrl(s, ps, ks), StatusLabel(s), StatusClass(s))
  }

  /** `generateSchoolLinksHtml`: one item per school, in order. */
  function SchoolLinks(schools: seq<Record>, ps: string, ks: string): (links: seq<SchoolLink>)
    ensures |links| == |schools|
  {
    seq(|schools|, i requires 0 <= i < |schools| => SchoolLinkOf(schools[i], ps, ks))
  }

  function KecamatanCanonical(siteUrl: string, p: string, k: string, c: string): string {
    RemoveTrailingSlash(siteUrl) + KecamatanPrefix(Slugify(p), Slugify(k)) + Slugify(c) + "/"
  }

  /** The parts of a kecamatan page the model keeps. */
  datatype KecamatanPage = KecamatanPage(totalSchools: nat, canonicalUrl: string, links: seq<SchoolLink>)

  /** `generateKecamatanPageHtml` without its markup. */
  function GenerateKecamatanPage(p: string, k: string, c: string, arg: Input<Record>, siteUrl: string): (page: KecamatanPage)
    ensures page.totalSchools == |page.links| == |FilterSchoolsByLocation(arg, p, k, c)|
  {
    var schools := FilterSchoolsByLocation(arg, p, k, c);
    KecamatanPage(|schools|, KecamatanCanonical(siteUrl, p, k, c), SchoolLinks(schools, Slugify(p), Slugify(k)))
  }

  /** The canonical URL of a kecamatan page is the site URL followed by the
      href of the kabupaten page's link to that kecamatan. */
  lemma CanonicalIsKabupatenLink(siteUrl: string, p: string, k: string, schools: seq<Record>,
                                 le: (string, string) -> bool, kecamatan: seq<Entry>, e: Entry)
    requires Aggregated(Array(schools), "kecamatan", le, kecamatan) && e in kecamatan
    ensures KecamatanCanonical(siteUrl, p, k, e.name)
      == RemoveTrailingSlash(siteUrl) + EntryLink(KecamatanPrefix(Slugify(p), Slugify(k)), e).href
  {
    AggregatedSlug(Array(schools), "kecamatan", le, kecamatan, e);
    Regroup4(RemoveTrailingSlash(siteUrl), KecamatanPrefix(Slugify(p), Slugify(k)), e.slug, "/");
  }

  lemma Regroup2(j: string, n: string, ns: string)
    ensures ("/" + j + "/") + n + "-" + ns + ".html" == "/" + (j + "/" + (n + "-" + ns + ".html"))
  {
  }

  /** A school link of the page leads exactly to the file the page builder
      writes for that school, provided the three location names are not
      blank and the school has an NPSN without '/'. */
  lemma SchoolUrlIsPagePath(s: Record, p: string, k: string, c: string)
    requires HasValue(s, "provinsi", p) && HasValue(s, "kab_kota", k) && HasValue(s, "kecamatan", c)
    requires Trim(p) != "" && Trim(k) != "" && Trim(c) != ""
    requires "npsn" in s && '/' !in s["npsn"]
    ensures SchoolUrl(s, Slugify(p), Slugify(k)) == "/" + RelativePath(s)
  {
    var ps, ks, cs := SlugOf(s, "provinsi"), SlugOf(s, "kab_kota"), SlugOf(s, "kecamatan");
    SchoolPagePath(s);
    JoinSix("provinsi", ps, "kabupaten", ks, "kecamatan", cs, "/");
    KecamatanHref(ps, ks, cs);
    Regroup2(Join(DirSegments(s), "/"), s["npsn"], SlugOf(s, "nama"));
  }

  /** Every link of a kecamatan page leads to the page of the school it
      lists, and the list follows the order of the filtered schools. */
  lemma PageLinksArePages(p: string, k: string, c: string, arg: Input<Record>, siteUrl: string, i: nat)
    requires i < |FilterSchoolsByLocation(arg, p, k, c)|
    requires Trim(p) != "" && Trim(k) != "" && Trim(c) != ""
    requires "npsn" in FilterSchoolsByLocation(arg, p, k, c)[i]
    requires '/' !in FilterSchoolsByLocation(arg, p, k, c)[i]["npsn"]
    ensures GenerateKecamatanPage(p, k, c, arg, siteUrl).links[i].href
      == "/" + RelativePath(FilterSchoolsByLocation(arg, p, k, c)[i])
  {
    var schools := FilterSchoolsByLocation(arg, p, k, c);
    var s := schools[i];
    assert s in schools;
    SchoolUrlIsPagePath(s, p, k, c);
  }
}
