/** Where a school's page is written: the guard on the school object, the
    relative path of its HTML file, and the set of directories the build
    must create. */
module PageBuilder {
  import opened Common
  import opened Slugs
  import opened Paths

  /** The argument of `buildSchoolPageData`: anything that is not a non-null
      object is `NotObject`. */
  datatype SchoolArg = NotObject | Object(school: Record)

  const RequiredFields: seq<string> := ["provinsi", "kab_kota", "kecamatan", "npsn", "nama"]

  const InvalidSchool: string := "Invalid school object provided"

  const MissingPrefix: string := "School object missing required fields: "

  const NotAnArray: string := "schools must be an array"

  /** The fields of `fields` that are empty or absent in r, in list order. */
  function Missing(r: Record, fields: seq<string>): (m: seq<string>)
    ensures forall f :: f in m <==> f in fields && !Truthy(r, f)
    ensures |m| <= |fields|
  {
    if |fields| == 0 then []
    else (if Truthy(r, fields[0]) then [] else [fields[0]]) + Missing(r, fields[1..])
  }

  /** `slugify(school[k])`: an absent field is `undefined`, whose slug is ''. */
  function SlugOf(r: Record, k: string): string {
    SlugifyValue(if k in r then Some(r[k]) else None)
  }

  /** The file name `${npsn}-${slugify(nama)}.html`. */
  function FileName(r: Record): string {
    Field(r, "npsn") + "-" + SlugOf(r, "nama") + ".html"
  }

  function DirSegments(r: Record): seq<string> {
    ["provinsi", SlugOf(r, "provinsi"), "kabupaten", SlugOf(r, "kab_kota"),
     "kecamatan", SlugOf(r, "kecamatan")]
  }

  /** The directory of a school's page. */
  function DirOf(r: Record): string {
    PathJoin(DirSegments(r))
  }

  /** The path of a school's page relative to the output directory. */
  function RelativePath(r: Record): string {
    PathJoin(DirSegments(r) + [FileName(r)])
  }

  /** `buildSchoolPageData(school).relativePath`, or the message it throws. */
  function BuildSchoolPage(arg: SchoolArg): (res: Result<string, string>)
    ensures arg.NotObject? ==> res == Err(InvalidSchool)
    ensures arg.Object? && Missing(arg.school, RequiredFields) != [] ==>
      res == Err(MissingPrefix + Join(Missing(arg.school, RequiredFields), ", "))
    ensures arg.Object? && Missing(arg.school, RequiredFields) == [] ==>
      res == Ok(RelativePath(arg.school))
  {
    match arg
    case NotObject => Err(InvalidSchool)
    case Object(r) =>
      var missing := Missing(r, RequiredFields);
      if |missing| > 0 then Err(MissingPrefix + Join(missing, ", "))
      else Ok(RelativePath(r))
  }

  /** The page is built exactly when all five required fields are non-empty. */
  lemma BuildSucceedsIff(r: Record)
    ensures BuildSchoolPage(Object(r)).Ok? <==> forall f :: f in RequiredFields ==> Truthy(r, f)
  {
    var m := Missing(r, RequiredFields);
    if exists f :: f in RequiredFields && !Truthy(r, f) {
      var f :| f in RequiredFields && !Truthy(r, f);
      assert f in m;
    }
    if m != [] {
      assert m[0] in m;
    }
  }

  // ---------------------------------------------------------------------------
  // Shape of the path

  /** Slugs of non-blank values are plain path segments; others are empty. */
  lemma SlugSegment(r: Record, k: string)
    ensures SlugOf(r, k) == "" || PlainSegment(SlugOf(r, k))
  {
    if k in r && Trim(r[k]) != "" {
      var s := SlugOf(r, k);
      SlugifyShape(r[k]);
      assert IsLowerAlnum(s[0]);
    }
  }

  lemma FileNamePlain(r: Record)
    requires '/' !in Field(r, "npsn")
    ensures PlainSegment(FileName(r))
  {
    var f := FileName(r);
    var n := Field(r, "npsn");
    var sl := SlugOf(r, "nama");
    SlugSegment(r, "nama");
    assert f == n + "-" + sl + ".html";
    assert f[|f| - 1] == 'l';
  }

  lemma DirSegmentsPlain(r: Record)
    ensures forall i :: 0 <= i < |DirSegments(r)| ==> DirSegments(r)[i] == "" || PlainSegment(DirSegments(r)[i])
  {
    SlugSegment(r, "provinsi");
    SlugSegment(r, "kab_kota");
    SlugSegment(r, "kecamatan");
    assert PlainSegment("provinsi") && PlainSegment("kabupaten") && PlainSegment("kecamatan");
  }

  lemma NonEmptyAppend(a: seq<string>, x: string)
    requires x != ""
    ensures NonEmpty(a + [x]) == NonEmpty(a) + [x]
    decreases |a|
  {
    if |a| > 0 {
      assert (a + [x])[1..] == a[1..] + [x];
      NonEmptyAppend(a[1..], x);
    } else {
      assert NonEmpty([x][1..]) == [];
    }
  }

  /** The directory always begins with the 'provinsi' segment. */
  lemma DirStartsWithProvinsi(r: Record)
    ensures NonEmpty(DirSegments(r)) != [] && NonEmpty(DirSegments(r))[0] == "provinsi"
  {
  }

  /** When the NPSN has no '/', the page path is its directory, a '/', and
      the file name `<npsn>-<slug>.html`; empty slugs are simply dropped. */
  lemma RelativePathShape(r: Record)
    requires '/' !in Field(r, "npsn")
    ensures DirOf(r) == Join(NonEmpty(DirSegments(r)), "/")
    ensures RelativePath(r) == DirOf(r) + "/" + FileName(r)
  {
    var segs := DirSegments(r);
    DirSegmentsPlain(r);
    FileNamePlain(r);
    DirStartsWithProvinsi(r);
    PathJoinPlain(segs);
    NonEmptyAppend(segs, FileName(r));
    assert forall i :: 0 <= i < |segs + [FileName(r)]| ==>
      (segs + [FileName(r)])[i] == "" || PlainSegment((segs + [FileName(r)])[i]) by {
      forall i | 0 <= i < |segs + [FileName(r)]|
        ensures (segs + [FileName(r)])[i] == "" || PlainSegment((segs + [FileName(r)])[i]) {
        if i < |segs| {
          assert (segs + [FileName(r)])[i] == segs[i];
        }
      }
    }
    PathJoinPlain(segs + [FileName(r)]);
    JoinAppend(NonEmpty(segs), FileName(r), "/");
  }

  lemma PathTail(p: string, dir: string, n: string, sl: string)
    requires p == dir + "/" + (n + "-" + sl + ".html")
    ensures EndsWith(p, "/" + n + "-" + sl + ".html")
    ensures EndsWith(p, ".html")
  {
    var tail := "/" + n + "-" + sl + ".html";
    assert p == dir + tail;
    assert p[|p| - |tail|..] == tail;
    assert p[|p| - 5..] == ".html";
  }

  /** The page path ends in '.html' and its file name starts with the NPSN and
      a dash. */
  lemma RelativePathFileName(r: Record)
    requires '/' !in Field(r, "npsn")
    ensures EndsWith(RelativePath(r), "/" + Field(r, "npsn") + "-" + SlugOf(r, "nama") + ".html")
    ensures EndsWith(RelativePath(r), ".html")
  {
    RelativePathShape(r);
    PathTail(RelativePath(r), DirOf(r), Field(r, "npsn"), SlugOf(r, "nama"));
  }

  // ---------------------------------------------------------------------------
  // Unique directories

  function Dirs(schools: seq<Record>): (d: seq<string>)
    ensures |d| == |schools|
    ensures forall i :: 0 <= i < |schools| ==> d[i] == DirOf(schools[i])
  {
    seq(|schools|, i requires 0 <= i < |schools| => DirOf(schools[i]))
  }

  /** `getUniqueDirectories(schools)`: the distinct directories in the order
      their first school appears. The JavaScript `Set` keeps insertion order,
      so it is modelled by the sequence of its elements. */
  method GetUniqueDirectories(arg: Input<Record>) returns (res: Result<seq<string>, string>)
    ensures arg.NonArray? ==> res == Err(NotAnArray)
    ensures arg.Array? ==> res == Ok(Dedup(Dirs(arg.elems)))
  {
    if arg.NonArray? {
      return Err(NotAnArray);
    }
    var schools := arg.elems;
    ghost var all := Dirs(schools);
    var uniqueDirs: seq<string> := [];
    for i := 0 to |schools|
      invariant uniqueDirs == Dedup(all[..i])
    {
      var d := DirOf(schools[i]);
      DedupPrefixStep(all, i);
      if d !in uniqueDirs {
        uniqueDirs := uniqueDirs + [d];
      }
    }
    assert all[..|schools|] == all;
    return Ok(uniqueDirs);
  }

  /** The directory list has no repetitions and is never longer than the
      school list. */
  lemma UniqueDirectoriesDistinct(schools: seq<Record>)
    ensures NoDup(Dedup(Dirs(schools)))
    ensures |Dedup(Dirs(schools))| <= |schools|
  {
    DedupSpec(Dirs(schools));
  }

  /** The directory list holds every school's directory and nothing else. */
  lemma UniqueDirectoriesCover(schools: seq<Record>)
    ensures forall i :: 0 <= i < |schools| ==> DirOf(schools[i]) in Dedup(Dirs(schools))
    ensures forall d :: d in Dedup(Dirs(schools)) ==> exists i :: 0 <= i < |schools| && d == DirOf(schools[i])
  {
    var ds := Dirs(schools);
    DedupSpec(ds);
    forall i | 0 <= i < |schools| ensures DirOf(schools[i]) in Dedup(ds) {
      assert ds[i] in ds;
    }
    forall d | d in Dedup(ds)
      ensures exists i :: 0 <= i < |schools| && d == DirOf(schools[i]) {
      var i :| 0 <= i < |ds| && ds[i] == d;
    }
  }

  /** Directories appear in the order in which their first school appears. */
  lemma UniqueDirectoriesOrder(schools: seq<Record>, a: nat, b: nat)
    requires a < b < |Dedup(Dirs(schools))|
    ensures Dedup(Dirs(schools))[a] in Dirs(schools) && Dedup(Dirs(schools))[b] in Dirs(schools)
    ensures FirstIndex(Dirs(schools), Dedup(Dirs(schools))[a]) < FirstIndex(Dirs(schools), Dedup(Dirs(schools))[b])
  {
    DedupOrder(Dirs(schools), a, b);
  }

  /** Schools that differ only outside provinsi, kab_kota and kecamatan share a
      directory. */
  lemma SameLocationSameDir(a: Record, b: Record)
    requires Field(a, "provinsi") == Field(b, "provinsi") && ("provinsi" in a <==> "provinsi" in b)
    requires Field(a, "kab_kota") == Field(b, "kab_kota") && ("kab_kota" in a <==> "kab_kota" in b)
    requires Field(a, "kecamatan") == Field(b, "kecamatan") && ("kecamatan" in a <==> "kecamatan" in b)
    ensures DirOf(a) == DirOf(b)
  {
  }

  lemma {:induction false} NonEmptyAll(args: seq<string>)
    requires forall i :: 0 <= i < |args| ==> args[i] != ""
    ensures NonEmpty(args) == args
  {
    if |args| > 0 {
      NonEmptyAll(args[1..]);
      assert args == [args[0]] + args[1..];
    }
  }

  lemma JoinCons(a: string, rest: seq<string>, sep: string)
    requires rest != []
    ensures Join([a] + rest, sep) == a + sep + Join(rest, sep)
  {
    assert ([a] + rest)[1..] == rest;
  }

  /** Six segments joined by a separator. */
  lemma JoinSix(a: string, b: string, c: string, d: string, e: string, f: string, sep: string)
    ensures Join([a, b, c, d, e, f], sep) == a + sep + b + sep + c + sep + d + sep + e + sep + f
  {
    JoinCons(e, [f], sep);
    JoinCons(d, [e, f], sep);
    JoinCons(c, [d, e, f], sep);
    JoinCons(b, [c, d, e, f], sep);
    JoinCons(a, [b, c, d, e, f], sep);
  }

  lemma SlugNotEmpty(x: string)
    requires Trim(x) != ""
    ensures Slugify(x) != ""
  {
    SlugifyShape(x);
  }

  /** No segment is dropped when no slug is empty. */
  lemma FullSegments(p: string, k: string, c: string)
    requires p != "" && k != "" && c != ""
    ensures NonEmpty(["provinsi", p, "kabupaten", k, "kecamatan", c]) == ["provinsi", p, "kabupaten", k, "kecamatan", c]
  {
    NonEmptyAll(["provinsi", p, "kabupaten", k, "kecamatan", c]);
  }

  /** When the three location names are not blank and the NPSN has no '/',
      no segment is dropped: the page lives in the directory
      provinsi/<p>/kabupaten/<k>/kecamatan/<c> under the name
      <npsn>-<slug>.html. */
  lemma SchoolPagePath(r: Record)
    requires "provinsi" in r && Trim(r["provinsi"]) != ""
    requires "kab_kota" in r && Trim(r["kab_kota"]) != ""
    requires "kecamatan" in r && Trim(r["kecamatan"]) != ""
    requires '/' !in Field(r, "npsn")
    ensures DirOf(r) == Join(DirSegments(r), "/")
    ensures RelativePath(r) == DirOf(r) + "/" + FileName(r)
  {
    SlugNotEmpty(r["provinsi"]);
    SlugNotEmpty(r["kab_kota"]);
    SlugNotEmpty(r["kecamatan"]);
    FullSegments(SlugOf(r, "provinsi"), SlugOf(r, "kab_kota"), SlugOf(r, "kecamatan"));
    RelativePathShape(r);
  }

  lemma JoinFour(a: string, b: string, c: string, d: string, sep: string)
    ensures Join([a, b, c, d], sep) == a + sep + (b + sep + (c + sep + d))
  {
    JoinCons(c, [d], sep);
    JoinCons(b, [c, d], sep);
    JoinCons(a, [b, c, d], sep);
  }

  /** The directory of a province's pages: the first two segments. */
  lemma ProvinceDir(r: Record)
    ensures Join(DirSegments(r)[..2], "/") == "provinsi" + "/" + SlugOf(r, "provinsi")
  {
    assert DirSegments(r)[..2] == ["provinsi"] + [SlugOf(r, "provinsi")];
    JoinCons("provinsi", [SlugOf(r, "provinsi")], "/");
  }

  /** The directory of a kabupaten's pages: the first four segments. */
  lemma KabupatenDir(r: Record)
    ensures Join(DirSegments(r)[..4], "/")
      == "provinsi" + "/" + (SlugOf(r, "provinsi") + "/" + ("kabupaten" + "/" + SlugOf(r, "kab_kota")))
  {
    assert DirSegments(r)[..4] == ["provinsi", SlugOf(r, "provinsi"), "kabupaten", SlugOf(r, "kab_kota")];
    JoinFour("provinsi", SlugOf(r, "provinsi"), "kabupaten", SlugOf(r, "kab_kota"), "/");
  }
}
