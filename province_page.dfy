/** The filter, counts and URLs of a province page. */
module ProvincePage {
  import opened Common
  import opened Slugs
  import opened Aggregate
  import opened PageBuilder
  import opened Homepage

  function InProvince(p: string): Record -> bool {
    s => HasValue(s, "provinsi", p)
  }

  /** `filterSchoolsByProvince`: the schools whose provinsi is exactly p. */
  function FilterSchoolsByProvince(arg: Input<Record>, p: string): (r: seq<Record>)
    ensures arg.NonArray? ==> r == []
    ensures arg.Array? ==> forall s :: s in r <==> s in arg.elems && HasValue(s, "provinsi", p)
  {
    if arg.NonArray? then []
    else
      FilterMembers(arg.elems, InProvince(p));
      FilterBy(arg.elems, InProvince(p))
  }

  /** The filter keeps the input order. */
  lemma ProvinceFilterOrder(a: seq<Record>, b: seq<Record>, p: string)
    ensures FilterSchoolsByProvince(Array(a + b), p)
      == FilterSchoolsByProvince(Array(a), p) + FilterSchoolsByProvince(Array(b), p)
  {
    FilterAppend(a, b, InProvince(p));
  }

  /** `aggregateByKabupaten`. */
  method AggregateByKabupaten(arg: Input<Record>, le: (string, string) -> bool) returns (kabupaten: seq<Entry>)
    requires TotalPreorder(le)
    ensures Aggregated(arg, "kab_kota", le, kabupaten)
  {
    kabupaten := AggregateBy(arg, "kab_kota", le);
  }

  /** The start of every kabupaten link on the page of a province with slug ps. */
  function KabupatenPrefix(ps: string): string {
    ProvincePrefix + ps + "/kabupaten/"
  }

  function ProvinceCanonical(siteUrl: string, p: string): string {
    RemoveTrailingSlash(siteUrl) + ProvincePrefix + Slugify(p) + "/"
  }

  /** The parts of a province page the model keeps. */
  datatype ProvincePage = ProvincePage(
    totalSchools: nat, kabupatenCount: nat, provinceSlug: string, canonicalUrl: string,
    kabupaten: seq<Entry>, links: seq<Link>)

  /** `generateProvincePageHtml` without its markup; `siteUrl` is the
      configured site URL. */
  method GenerateProvincePage(p: string, arg: Input<Record>, siteUrl: string, le: (string, string) -> bool)
    returns (page: ProvincePage)
    requires TotalPreorder(le)
    ensures page.totalSchools == |FilterSchoolsByProvince(arg, p)|
    ensures Aggregated(Array(FilterSchoolsByProvince(arg, p)), "kab_kota", le, page.kabupaten)
    ensures page.kabupatenCount == |page.kabupaten|
    ensures page.provinceSlug == Slugify(p)
    ensures page.canonicalUrl == ProvinceCanonical(siteUrl, p)
    ensures page.links == EntryLinks(KabupatenPrefix(Slugify(p)), page.kabupaten)
  {
    var schools := FilterSchoolsByProvince(arg, p);
    var slug := Slugify(p);
    var kabupaten := AggregateByKabupaten(Array(schools), le);
    page := ProvincePage(|schools|, |kabupaten|, slug, ProvinceCanonical(siteUrl, p),
                         kabupaten, EntryLinks(KabupatenPrefix(slug), kabupaten));
  }

  /** The canonical URL of a province page is the site URL followed by the
      href of the home page's link to that province. */
  lemma CanonicalIsHomepageLink(siteUrl: string, schools: seq<Record>, le: (string, string) -> bool,
                                provinces: seq<Entry>, e: Entry)
    requires Aggregated(Array(schools), "provinsi", le, provinces) && e in provinces
    ensures ProvinceCanonical(siteUrl, e.name) == RemoveTrailingSlash(siteUrl) + EntryLink(ProvincePrefix, e).href
  {
    AggregatedSlug(Array(schools), "provinsi", le, provinces, e);
    Regroup4(RemoveTrailingSlash(siteUrl), ProvincePrefix, e.slug, "/");
  }

  lemma KabupatenHref(ps: string, k: string)
    ensures KabupatenPrefix(ps) + k + "/" == "/" + ("provinsi" + "/" + (ps + "/" + ("kabupaten" + "/" + k))) + "/"
  {
  }

  /** A kabupaten link of the page of province p names the directory, four
      segments deep, under which the pages of the schools of that province
      and kabupaten are written. */
  lemma KabupatenLinkIsDirectory(p: string, schools: seq<Record>, le: (string, string) -> bool,
                                 kabupaten: seq<Entry>, e: Entry, s: Record)
    requires Aggregated(Array(schools), "kab_kota", le, kabupaten) && e in kabupaten
    requires HasValue(s, "provinsi", p) && HasValue(s, "kab_kota", e.name)
    ensures EntryLink(KabupatenPrefix(Slugify(p)), e).href == "/" + Join(DirSegments(s)[..4], "/") + "/"
  {
    AggregatedEntry(Array(schools), "kab_kota", le, kabupaten, e);
    KabupatenDir(s);
    KabupatenHref(SlugOf(s, "provinsi"), SlugOf(s, "kab_kota"));
  }
}
