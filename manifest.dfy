/** Incremental builds: the manifest of the previous build, the string a
    school's content hash is taken over, and the split of the schools into
    those whose page must be rebuilt and those that can be skipped. The MD5
    digest is the parameter `md5`. */
module Manifest {
  import opened Common

  const ManifestVersion: int := 1

  /** An entry of `manifest.schools`; `hash` is None when the entry has none. */
  datatype Entry = Entry(hash: Option<string>, builtAt: string, path: string)

  /** A parsed manifest. `version` is None when it is absent or not an integer;
      `schools` is None when it is absent or falsy. */
  datatype BuildManifest = BuildManifest(version: Option<int>, schools: Option<map<string, Entry>>)

  /** `loadManifest` once the file is read: `parsed` is None when the file is
      missing or is not valid JSON, both of which yield null. */
  function LoadManifest(parsed: Option<BuildManifest>): (m: Option<BuildManifest>)
    ensures m.Some? <==> parsed.Some? && parsed.value.version == Some(ManifestVersion)
    ensures m.Some? ==> m == parsed
  {
    if parsed.None? || parsed.value.version != Some(ManifestVersion) then None else parsed
  }

  // ---------------------------------------------------------------------------
  // The hash key

  /** The fields that affect a school's generated page. */
  const RelevantFields: seq<string> :=
    ["npsn", "nama", "bentuk_pendidikan", "status", "alamat", "kelurahan",
     "kecamatan", "kab_kota", "provinsi", "lat", "lon"]

  /** `[school[f] for f in fields].filter(Boolean)`. */
  function TruthyValues(r: Record, fields: seq<string>): (vs: seq<string>)
    ensures |vs| <= |fields|
    ensures forall i :: 0 <= i < |vs| ==> vs[i] != ""
  {
    if |fields| == 0 then []
    else (if Truthy(r, fields[0]) then [r[fields[0]]] else []) + TruthyValues(r, fields[1..])
  }

  /** The string `computeSchoolHash` digests. */
  function HashKey(r: Record): string {
    Join(TruthyValues(r, RelevantFields), "|")
  }

  function ComputeSchoolHash(md5: string -> string, r: Record): string {
    md5(HashKey(r))
  }

  /** Each value comes from one of the fields, and each truthy field's value
      is kept. */
  lemma {:induction false} TruthyValuesMember(r: Record, fields: seq<string>, v: string)
    ensures v in TruthyValues(r, fields) <==> exists i :: 0 <= i < |fields| && Truthy(r, fields[i]) && r[fields[i]] == v
  {
    if |fields| > 0 {
      TruthyValuesMember(r, fields[1..], v);
      if exists i :: 0 <= i < |fields| && Truthy(r, fields[i]) && r[fields[i]] == v {
        var i :| 0 <= i < |fields| && Truthy(r, fields[i]) && r[fields[i]] == v;
        if i > 0 {
          assert fields[1..][i - 1] == fields[i];
        }
      }
    }
  }

  lemma {:induction false} TruthyValuesSame(a: Record, b: Record, fields: seq<string>)
    requires forall f :: f in fields ==> Field(a, f) == Field(b, f)
    ensures TruthyValues(a, fields) == TruthyValues(b, fields)
  {
    if |fields| > 0 {
      assert fields[0] in fields;
      assert forall f :: f in fields[1..] ==> f in fields;
      TruthyValuesSame(a, b, fields[1..]);
    }
  }

  /** Records that agree on the eleven fields get the same hash. */
  lemma HashDeterministic(md5: string -> string, a: Record, b: Record)
    requires forall f :: f in RelevantFields ==> Field(a, f) == Field(b, f)
    ensures HashKey(a) == HashKey(b)
    ensures ComputeSchoolHash(md5, a) == ComputeSchoolHash(md5, b)
  {
    TruthyValuesSame(a, b, RelevantFields);
  }

  /** A field outside the eleven, such as telp or email, never changes the hash. */
  lemma OtherFieldsIgnored(md5: string -> string, r: Record, k: string, v: string)
    requires k !in RelevantFields
    ensures ComputeSchoolHash(md5, r[k := v]) == ComputeSchoolHash(md5, r)
  {
    forall f | f in RelevantFields ensures Field(r[k := v], f) == Field(r, f) {
      assert f != k;
    }
    HashDeterministic(md5, r[k := v], r);
  }

  /** When no value contains '|' and some field is truthy, the key splits back
      into the truthy values in field order. */
  lemma HashKeyDecodes(r: Record)
    requires forall f :: f in r ==> '|' !in r[f]
    requires TruthyValues(r, RelevantFields) != []
    ensures Split(HashKey(r), '|') == TruthyValues(r, RelevantFields)
  {
    var vs := TruthyValues(r, RelevantFields);
    forall i | 0 <= i < |vs| ensures '|' !in vs[i] {
      TruthyValuesMember(r, RelevantFields, vs[i]);
      assert vs[i] in vs;
    }
    SplitJoin(vs, '|');
  }

  lemma {:induction false} NoneTruthy(r: Record, fields: seq<string>)
    requires forall f :: f in fields ==> !Truthy(r, f)
    ensures TruthyValues(r, fields) == []
  {
    if |fields| > 0 {
      assert fields[0] in fields;
      assert forall f :: f in fields[1..] ==> f in fields;
      NoneTruthy(r, fields[1..]);
    }
  }

  /** A record with the single field k, listed first and only once. */
  lemma SingleFieldValues(k: string, x: string, fields: seq<string>)
    requires x != "" && |fields| > 0 && fields[0] == k
    requires forall f :: f in fields[1..] ==> f != k
    ensures TruthyValues(map[k := x], fields) == [x]
  {
    NoneTruthy(map[k := x], fields[1..]);
  }

  /** Dropping falsy fields shifts the others, so the key is not injective: a
      school with only an NPSN and one with only the same name share it. */
  lemma HashKeyNotInjective(x: string)
    requires x != ""
    ensures map["npsn" := x] != map["nama" := x]
    ensures HashKey(map["npsn" := x]) == HashKey(map["nama" := x]) == x
  {
    var fields := RelevantFields;
    assert "nama" !in map["npsn" := x];
    SingleFieldValues("npsn", x, fields);
    SingleFieldValues("nama", x, fields[1..]);
    assert TruthyValues(map["nama" := x], fields) == TruthyValues(map["nama" := x], fields[1..]);
  }

  // ---------------------------------------------------------------------------
  // Changed and unchanged schools

  /** `manifest.schools[school.npsn]` looks up the key "undefined" when the
      record has no NPSN. */
  function NpsnKey(school: Record): string {
    if "npsn" in school then school["npsn"] else "undefined"
  }

  /** `computeSchoolHash` as a function of the school. */
  function SchoolHash(md5: string -> string): Record -> string {
    r => ComputeSchoolHash(md5, r)
  }

  /** The manifest has an entry for the school whose stored hash is the
      school's current hash, `hash(school)`. */
  predicate IsUnchanged(school: Record, manifest: Option<BuildManifest>, hash: Record -> string) {
    manifest.Some? && manifest.value.schools.Some?
    && NpsnKey(school) in manifest.value.schools.value
    && manifest.value.schools.value[NpsnKey(school)].hash == Some(hash(school))
  }

  function ChangedOf(schools: seq<Record>, manifest: Option<BuildManifest>, hash: Record -> string): seq<Record> {
    if |schools| == 0 then []
    else
      var last := schools[|schools| - 1];
      ChangedOf(schools[..|schools| - 1], manifest, hash) + (if IsUnchanged(last, manifest, hash) then [] else [last])
  }

  function UnchangedOf(schools: seq<Record>, manifest: Option<BuildManifest>, hash: Record -> string): seq<Record> {
    if |schools| == 0 then []
    else
      var last := schools[|schools| - 1];
      UnchangedOf(schools[..|schools| - 1], manifest, hash) + (if IsUnchanged(last, manifest, hash) then [last] else [])
  }

  /** Without a manifest, or with one that has no schools, every school is
      changed. */
  lemma {:induction false} NoManifestAllChanged(schools: seq<Record>, manifest: Option<BuildManifest>, hash: Record -> string)
    requires manifest.None? || manifest.value.schools.None?
    ensures ChangedOf(schools, manifest, hash) == schools
    ensures UnchangedOf(schools, manifest, hash) == []
  {
    if |schools| > 0 {
      NoManifestAllChanged(schools[..|schools| - 1], manifest, hash);
      assert schools[..|schools| - 1] + [schools[|schools| - 1]] == schools;
    }
  }

  /** `getChangedSchools`. */
  method GetChangedSchools(schools: seq<Record>, manifest: Option<BuildManifest>, md5: string -> string)
    returns (changed: seq<Record>, kept: seq<Record>)
    ensures changed == ChangedOf(schools, manifest, SchoolHash(md5))
    ensures kept == UnchangedOf(schools, manifest, SchoolHash(md5))
  {
    if manifest.None? || manifest.value.schools.None? {
      NoManifestAllChanged(schools, manifest, SchoolHash(md5));
      return schools, [];
    }
    var entries := manifest.value.schools.value;
    changed := [];
    kept := [];
    for i := 0 to |schools|
      invariant changed == ChangedOf(schools[..i], manifest, SchoolHash(md5))
      invariant kept == UnchangedOf(schools[..i], manifest, SchoolHash(md5))
    {
      assert schools[..i + 1][..i] == schools[..i];
      var school := schools[i];
      var npsn := NpsnKey(school);
      var currentHash := ComputeSchoolHash(md5, school);
      if npsn !in entries {
        changed := changed + [school];
      } else if entries[npsn].hash != Some(currentHash) {
        changed := changed + [school];
      } else {
        kept := kept + [school];
      }
    }
    assert schools[..|schools|] == schools;
  }

  /** `getUnchangedSchools`. */
  method GetUnchangedSchools(schools: seq<Record>, manifest: Option<BuildManifest>, md5: string -> string)
    returns (kept: seq<Record>)
    ensures kept == UnchangedOf(schools, manifest, SchoolHash(md5))
  {
    var _, u := GetChangedSchools(schools, manifest, md5);
    kept := u;
  }

  /** The last school goes to exactly one of the two lists. */
  lemma PartitionStep(schools: seq<Record>, manifest: Option<BuildManifest>, hash: Record -> string)
    requires |schools| > 0
    ensures var init := schools[..|schools| - 1];
      multiset(ChangedOf(schools, manifest, hash)) + multiset(UnchangedOf(schools, manifest, hash))
      == multiset(ChangedOf(init, manifest, hash)) + multiset(UnchangedOf(init, manifest, hash)) + multiset{schools[|schools| - 1]}
  {
    var init := schools[..|schools| - 1];
    var last := schools[|schools| - 1];
    var c := ChangedOf(init, manifest, hash);
    var u := UnchangedOf(init, manifest, hash);
    if IsUnchanged(last, manifest, hash) {
      assert multiset(u + [last]) == multiset(u) + multiset{last};
    } else {
      assert multiset(c + [last]) == multiset(c) + multiset{last};
    }
  }

  lemma MultisetInitLast(s: seq<Record>)
    requires |s| > 0
    ensures multiset(s) == multiset(s[..|s| - 1]) + multiset{s[|s| - 1]}
  {
    assert s == s[..|s| - 1] + [s[|s| - 1]];
  }

  lemma {:induction false} PartitionMultiset(schools: seq<Record>, manifest: Option<BuildManifest>, hash: Record -> string)
    ensures multiset(ChangedOf(schools, manifest, hash)) + multiset(UnchangedOf(schools, manifest, hash)) == multiset(schools)
  {
    if |schools| > 0 {
      PartitionMultiset(schools[..|schools| - 1], manifest, hash);
      PartitionStep(schools, manifest, hash);
      MultisetInitLast(schools);
    }
  }

  /** Every school lands in exactly one of the two lists. */
  lemma PartitionExact(schools: seq<Record>, manifest: Option<BuildManifest>, hash: Record -> string)
    ensures multiset(ChangedOf(schools, manifest, hash)) + multiset(UnchangedOf(schools, manifest, hash)) == multiset(schools)
    ensures |ChangedOf(schools, manifest, hash)| + |UnchangedOf(schools, manifest, hash)| == |schools|
  {
    var c := ChangedOf(schools, manifest, hash);
    var u := UnchangedOf(schools, manifest, hash);
    PartitionMultiset(schools, manifest, hash);
    assert |multiset(c) + multiset(u)| == |multiset(schools)|;
  }

  /** The unchanged list holds exactly the schools with a matching entry, the
      changed list exactly the others. */
  lemma {:induction false} PartitionMember(schools: seq<Record>, manifest: Option<BuildManifest>, hash: Record -> string, x: Record)
    ensures x in UnchangedOf(schools, manifest, hash) <==> x in schools && IsUnchanged(x, manifest, hash)
    ensures x in ChangedOf(schools, manifest, hash) <==> x in schools && !IsUnchanged(x, manifest, hash)
  {
    if |schools| > 0 {
      var init := schools[..|schools| - 1];
      PartitionMember(init, manifest, hash, x);
      assert schools == init + [schools[|schools| - 1]];
    }
  }

  lemma {:induction false} ChangedAppend(a: seq<Record>, b: seq<Record>, manifest: Option<BuildManifest>, hash: Record -> string)
    ensures ChangedOf(a + b, manifest, hash) == ChangedOf(a, manifest, hash) + ChangedOf(b, manifest, hash)
    decreases |b|
  {
    if |b| == 0 {
      assert a + b == a;
    } else {
      var n := |b| - 1;
      assert (a + b)[..|a + b| - 1] == a + b[..n];
      assert (a + b)[|a + b| - 1] == b[n];
      ChangedAppend(a, b[..n], manifest, hash);
    }
  }

  lemma {:induction false} UnchangedAppend(a: seq<Record>, b: seq<Record>, manifest: Option<BuildManifest>, hash: Record -> string)
    ensures UnchangedOf(a + b, manifest, hash) == UnchangedOf(a, manifest, hash) + UnchangedOf(b, manifest, hash)
    decreases |b|
  {
    if |b| == 0 {
      assert a + b == a;
    } else {
      var n := |b| - 1;
      assert (a + b)[..|a + b| - 1] == a + b[..n];
      assert (a + b)[|a + b| - 1] == b[n];
      UnchangedAppend(a, b[..n], manifest, hash);
    }
  }

  /** Both lists keep input order: each distributes over concatenation. */
  lemma PartitionAppend(a: seq<Record>, b: seq<Record>, manifest: Option<BuildManifest>, hash: Record -> string)
    ensures ChangedOf(a + b, manifest, hash) == ChangedOf(a, manifest, hash) + ChangedOf(b, manifest, hash)
    ensures UnchangedOf(a + b, manifest, hash) == UnchangedOf(a, manifest, hash) + UnchangedOf(b, manifest, hash)
  {
    ChangedAppend(a, b, manifest, hash);
    UnchangedAppend(a, b, manifest, hash);
  }
}
