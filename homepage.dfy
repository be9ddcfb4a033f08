/** The counts and links of the site's home page. */
module Homepage {
  import opened Common
  import opened Slugs
  import opened Aggregate
  import opened PageBuilder

  /** `aggregateByProvince`. */
  method AggregateByProvince(arg: Input<Record>, le: (string, string) -> bool) returns (provinces: seq<Entry>)
    requires TotalPreorder(le)
    ensures Aggregated(arg, "provinsi", le, provinces)
  {
    provinces := AggregateBy(arg, "provinsi", le);
  }

  /** The parts of the home page the model keeps: the "Total Sekolah" and
      "Provinsi" figures and the province links. */
  datatype Homepage = Homepage(totalSchools: nat, provinceCount: nat, provinces: seq<Entry>, links: seq<Link>)

  const ProvincePrefix: string := "/provinsi/"

  /** `generateHomepageHtml` without its markup. */
  method GenerateHomepage(schools: seq<Record>, le: (string, string) -> bool) returns (page: Homepage)
    requires TotalPreorder(le)
    ensures page.totalSchools == |schools|
    ensures Aggregated(Array(schools), "provinsi", le, page.provinces)
    ensures page.provinceCount == |page.provinces| == |Names(schools, "provinsi")|
    ensures page.links == EntryLinks(ProvincePrefix, page.provinces)
  {
    var provinces := AggregateByProvince(Array(schools), le);
    page := Homepage(|schools|, |provinces|, provinces, EntryLinks(ProvincePrefix, provinces));
  }

  lemma ProvinceHref(p: string)
    ensures ProvincePrefix + p + "/" == "/" + ("provinsi" + "/" + p) + "/"
  {
  }

  /** A province link names the directory under which the pages of that
      province's schools are written: its first two segments. At least one
      school of the list has that province. */
  lemma ProvinceLinkIsDirectory(schools: seq<Record>, le: (string, string) -> bool, provinces: seq<Entry>, e: Entry, s: Record)
    requires Aggregated(Array(schools), "provinsi", le, provinces) && e in provinces
    requires HasValue(s, "provinsi", e.name)
    ensures Occurs(schools, "provinsi", e.name)
    ensures EntryLink(ProvincePrefix, e).href == "/" + Join(DirSegments(s)[..2], "/") + "/"
  {
    AggregatedEntry(Array(schools), "provinsi", le, provinces, e);
    ProvinceDir(s);
    ProvinceHref(SlugOf(s, "provinsi"));
  }
}
