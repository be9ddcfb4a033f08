/** The filter, counts and URLs of a kabupaten/kota page. */
module KabupatenPage {
  import opened Common
  import opened Slugs
  import opened Aggregate
  import opened PageBuilder
  import opened Homepage
  import opened ProvincePage

  function InKabupaten(p: string, k: string): Record -> bool {
    s => HasValue(s, "provinsi", p) && HasValue(s, "kab_kota", k)
  }

  /** `filterSchoolsByProvinceAndKabupaten`: the schools whose provinsi is
      exactly p and whose kab_kota is exactly k. */
  function FilterSchoolsByProvinceAndKabupaten(arg: Input<Record>, p: string, k: string): (r: seq<Record>)
    ensures arg.NonArray? ==> r == []
    ensures arg.Array? ==> forall s :: s in r <==>
      s in arg.elems && HasValue(s, "provinsi", p) && HasValue(s, "kab_kota", k)
  {
    if arg.NonArray? then []
    else
      FilterMembers(arg.elems, InKabupaten(p, k));
      FilterBy(arg.elems, InKabupaten(p, k))
  }

  /** The filter keeps the input order. */
  lemma KabupatenFilterOrder(a: seq<Record>, b: seq<Record>, p: string, k: string)
    ensures FilterSchoolsByProvinceAndKabupaten(Array(a + b), p, k)
      == FilterSchoolsByProvinceAndKabupaten(Array(a), p, k) + FilterSchoolsByProvinceAndKabupaten(Array(b), p, k)
  {
    FilterAppend(a, b, InKabupaten(p, k));
  }

  /** `aggregateByKecamatan`. */
  method AggregateByKecamatan(arg: Input<Record>, le: (string, string) -> bool) returns (kecamatan: seq<Entry>)
    requires TotalPreorder(le)
    ensures Aggregated(arg, "kecamatan", le, kecamatan)
  {
    kecamatan := AggregateBy(arg, "kecamatan", le);
  }

  /** The start of every kecamatan link on the page of the kabupaten with
      slug ks in the province with slug ps. */
  function KecamatanPrefix(ps: string, ks: string): string {
    KabupatenPrefix(ps) + ks + "/kecamatan/"
  }

  function KabupatenCanonical(siteUrl: string, p: string, k: string): string {
    RemoveTrailingSlash(siteUrl) + KabupatenPrefix(Slugify(p)) + Slugify(k) + "/"
  }

  /** The parts of a kabupaten page the model keeps. */
  datatype KabupatenPage = KabupatenPage(
    totalSchools: nat, kecamatanCount: nat, canonicalUrl: string,
    kecamatan: seq<Entry>, links: seq<Link>)

  /** `generateKabupatenPageHtml` without its markup. */
  method GenerateKabupatenPage(p: string, k: string, arg: Input<Record>, siteUrl: string, le: (string, string) -> bool)
    returns (page: KabupatenPage)
    requires TotalPreorder(le)
    ensures page.totalSchools == |FilterSchoolsByProvinceAndKabupaten(arg, p, k)|
    ensures Aggregated(Array(FilterSchoolsByProvinceAndKabupaten(arg, p, k)), "kecamatan", le, page.kecamatan)
    ensures page.kecamatanCount == |page.kecamatan|
    ensures page.canonicalUrl == KabupatenCanonical(siteUrl, p, k)
    ensures page.links == EntryLinks(KecamatanPrefix(Slugify(p), Slugify(k)), page.kecamatan)
  {
    var ps := Slugify(p);
    var ks := Slugify(k);
    var schools := FilterSchoolsByProvinceAndKabupaten(arg, p, k);
    var kecamatan := AggregateByKecamatan(Array(schools), le);
    page := KabupatenPage(|schools|, |kecamatan|, KabupatenCanonical(siteUrl, p, k),
                          kecamatan, EntryLinks(KecamatanPrefix(ps, ks), kecamatan));
  }

  /** The canonical URL of a kabupaten page is the site URL followed by the
      href of the province page's link to that kabupaten. */
  lemma CanonicalIsProvinceLink(siteUrl: string, p: string, schools: seq<Record>, le: (string, string) -> bool,
                                kabupaten: seq<Entry>, e: Entry)
    requires Aggregated(Array(schools), "kab_kota", le, kabupaten) && e in kabupaten
    ensures KabupatenCanonical(siteUrl, p, e.name)
      == RemoveTrailingSlash(siteUrl) + EntryLink(KabupatenPrefix(Slugify(p)), e).href
  {
    AggregatedSlug(Array(schools), "kab_kota", le, kabupaten, e);
    Regroup4(RemoveTrailingSlash(siteUrl), KabupatenPrefix(Slugify(p)), e.slug, "/");
  }

  lemma Regroup(sl: string, a: string, b: string, c: string, x: string, y: string, z: string)
    ensures (sl + a + sl) + x + (sl + b + sl) + y + (sl + c + sl) + z + sl
      == sl + (a + sl + x + sl + b + sl + y + sl + c + sl + z) + sl
  {
  }

  lemma KecamatanHref(ps: string, ks: string, c: string)
    ensures KecamatanPrefix(ps, ks) + c + "/"
      == "/" + ("provinsi" + "/" + ps + "/" + "kabupaten" + "/" + ks + "/" + "kecamatan" + "/" + c) + "/"
  {
    assert ProvincePrefix == "/" + "provinsi" + "/";
    assert "/kabupaten/" == "/" + "kabupaten" + "/";
    assert "/kecamatan/" == "/" + "kecamatan" + "/";
    Regroup("/", "provinsi", "kabupaten", "kecamatan", ps, ks, c);
  }

  /** A kecamatan link of the page of kabupaten k in province p names the
      full directory of the pages of the schools there; when the three names
      are not blank (and the NPSN has no '/') that is exactly the directory
      the page builder writes them to. */
  lemma KecamatanLinkIsDirectory(p: string, k: string, schools: seq<Record>, le: (string, string) -> bool,
                                 kecamatan: seq<Entry>, e: Entry, s: Record)
    requires Aggregated(Array(schools), "kecamatan", le, kecamatan) && e in kecamatan
    requires HasValue(s, "provinsi", p) && HasValue(s, "kab_kota", k) && HasValue(s, "kecamatan", e.name)
    ensures EntryLink(KecamatanPrefix(Slugify(p), Slugify(k)), e).href == "/" + Join(DirSegments(s), "/") + "/"
    ensures Trim(p) != "" && Trim(k) != "" && Trim(e.name) != "" && '/' !in Field(s, "npsn") ==>
      EntryLink(KecamatanPrefix(Slugify(p), Slugify(k)), e).href == "/" + DirOf(s) + "/"
  {
    AggregatedEntry(Array(schools), "kecamatan", le, kecamatan, e);
    var ps, ks, c := SlugOf(s, "provinsi"), SlugOf(s, "kab_kota"), SlugOf(s, "kecamatan");
    JoinSix("provinsi", ps, "kabupaten", ks, "kecamatan", c, "/");
    KecamatanHref(ps, ks, c);
    if Trim(p) != "" && Trim(k) != "" && Trim(e.name) != "" && '/' !in Field(s, "npsn") {
      SchoolPagePath(s);
    }
  }
}
