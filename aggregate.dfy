/** What the index pages share: filtering the schools by exact field values,
    and grouping them by one field into (name, slug, count) entries sorted
    by name. The comparison `localeCompare(…, 'id')` is the parameter `le`,
    read as "compares at most zero", and is assumed to be a total preorder. */
module Aggregate {
  import opened Common
  import opened Slugs

  // ---------------------------------------------------------------------------
  // Filtering

  /** `schools.filter(keep)`. */
  function FilterBy(schools: seq<Record>, keep: Record -> bool): (r: seq<Record>)
    ensures |r| <= |schools|
  {
    if |schools| == 0 then []
    else
      var last := schools[|schools| - 1];
      FilterBy(schools[..|schools| - 1], keep) + (if keep(last) then [last] else [])
  }

  /** The filter keeps exactly the schools that satisfy `keep`. */
  lemma {:induction false} FilterMember(schools: seq<Record>, keep: Record -> bool, x: Record)
    ensures x in FilterBy(schools, keep) <==> x in schools && keep(x)
  {
    if |schools| > 0 {
      var init := schools[..|schools| - 1];
      FilterMember(init, keep, x);
      assert schools == init + [schools[|schools| - 1]];
    }
  }

  lemma FilterMembers(schools: seq<Record>, keep: Record -> bool)
    ensures forall x :: x in FilterBy(schools, keep) <==> x in schools && keep(x)
  {
    forall x ensures x in FilterBy(schools, keep) <==> x in schools && keep(x) {
      FilterMember(schools, keep, x);
    }
  }

  /** The filter keeps the original order: it distributes over concatenation. */
  lemma {:induction false} FilterAppend(a: seq<Record>, b: seq<Record>, keep: Record -> bool)
    ensures FilterBy(a + b, keep) == FilterBy(a, keep) + FilterBy(b, keep)
    decreases |b|
  {
    if |b| == 0 {
      assert a + b == a;
    } else {
      var n := |b| - 1;
      assert (a + b)[..|a + b| - 1] == a + b[..n];
      assert (a + b)[|a + b| - 1] == b[n];
      FilterAppend(a, b[..n], keep);
    }
  }

  // ---------------------------------------------------------------------------
  // Grouping

  /** One element of the list an aggregator returns. */
  datatype Entry = Entry(name: string, slug: string, count: nat)

  /** The truthy values of field `key`, one per school that has one, in order. */
  function KeyValues(schools: seq<Record>, key: string): (vs: seq<string>)
    ensures |vs| <= |schools|
  {
    if |schools| == 0 then []
    else
      var last := schools[|schools| - 1];
      KeyValues(schools[..|schools| - 1], key) + (if Truthy(last, key) then [last[key]] else [])
  }

  /** The keys of the aggregator's `Map` in insertion order. */
  function Names(schools: seq<Record>, key: string): seq<string> {
    Dedup(KeyValues(schools, key))
  }

  /** The schools whose field `key` is exactly n. */
  function CountOf(schools: seq<Record>, key: string, n: string): nat {
    if |schools| == 0 then 0
    else CountOf(schools[..|schools| - 1], key, n) + (if HasValue(schools[|schools| - 1], key, n) then 1 else 0)
  }

  /** The schools with a truthy field `key`. */
  function TruthyCount(schools: seq<Record>, key: string): nat {
    if |schools| == 0 then 0
    else TruthyCount(schools[..|schools| - 1], key) + (if Truthy(schools[|schools| - 1], key) then 1 else 0)
  }

  /** At most every school has the field, and all of them do exactly when
      the count reaches the number of schools. */
  lemma {:induction false} TruthyCountAll(schools: seq<Record>, key: string)
    ensures TruthyCount(schools, key) <= |schools|
    ensures TruthyCount(schools, key) == |schools| <==> forall i :: 0 <= i < |schools| ==> Truthy(schools[i], key)
  {
    if |schools| > 0 {
      var m := |schools| - 1;
      TruthyCountAll(schools[..m], key);
      assert forall i :: 0 <= i < m ==> schools[..m][i] == schools[i];
    }
  }

  /** The entries before sorting: `Array.from(map.values())`. */
  function GroupEntries(schools: seq<Record>, key: string): (es: seq<Entry>)
    ensures |es| == |Names(schools, key)|
  {
    var names := Names(schools, key);
    seq(|names|, j requires 0 <= j < |names| => Entry(names[j], Slugify(names[j]), CountOf(schools, key, names[j])))
  }

  lemma {:induction false} KeyValuesSound(schools: seq<Record>, key: string, v: string)
    requires v in KeyValues(schools, key)
    ensures v != "" && exists i :: 0 <= i < |schools| && HasValue(schools[i], key, v)
  {
    var m := |schools| - 1;
    var last := schools[m];
    if !(Truthy(last, key) && v == last[key]) {
      KeyValuesSound(schools[..m], key, v);
      var i :| 0 <= i < m && HasValue(schools[..m][i], key, v);
      assert schools[..m][i] == schools[i];
    }
  }

  lemma {:induction false} KeyValuesComplete(schools: seq<Record>, key: string, i: nat)
    requires i < |schools| && Truthy(schools[i], key)
    ensures schools[i][key] in KeyValues(schools, key)
  {
    var m := |schools| - 1;
    if i < m {
      KeyValuesComplete(schools[..m], key, i);
      assert schools[..m][i] == schools[i];
    }
  }

  /** A value that no school has is counted zero times. */
  lemma {:induction false} CountAbsent(schools: seq<Record>, key: string, n: string)
    requires n != "" && n !in KeyValues(schools, key)
    ensures CountOf(schools, key, n) == 0
  {
    if |schools| > 0 {
      CountAbsent(schools[..|schools| - 1], key, n);
    }
  }

  /** A value some school has is counted at least once. */
  lemma {:induction false} CountPresent(schools: seq<Record>, key: string, n: string)
    requires n in KeyValues(schools, key)
    ensures CountOf(schools, key, n) >= 1
  {
    var m := |schools| - 1;
    if !(Truthy(schools[m], key) && schools[m][key] == n) {
      CountPresent(schools[..m], key, n);
    }
  }

  /** The loop state after the first schools: the `Map` keys in insertion
      order and the entry held for each. */
  ghost predicate Grouped(prefix: seq<Record>, key: string, names: seq<string>, groups: map<string, Entry>) {
    names == Names(prefix, key) && KeysAre(groups, names) && EntriesCount(prefix, key, groups)
  }

  ghost predicate KeysAre(groups: map<string, Entry>, names: seq<string>) {
    forall n :: n in groups <==> n in names
  }

  /** Each entry holds its name, its slug and the count of its name among the schools. */
  ghost predicate EntriesCount(schools: seq<Record>, key: string, groups: map<string, Entry>) {
    forall n :: n in groups ==> groups[n] == Entry(n, Slugify(n), CountOf(schools, key, n))
  }

  lemma {:induction false} KeyValuesNonBlank(schools: seq<Record>, key: string)
    ensures "" !in KeyValues(schools, key)
  {
    if |schools| > 0 {
      KeyValuesNonBlank(schools[..|schools| - 1], key);
    }
  }

  /** One iteration: a school without the field is skipped; otherwise its
      value gets an entry with count 0 when it has none, and the count of
      that entry goes up by one. */
  method AddSchool(prefix: seq<Record>, school: Record, key: string, names: seq<string>, groups: map<string, Entry>)
    returns (names': seq<string>, groups': map<string, Entry>)
    requires Grouped(prefix, key, names, groups)
    ensures Grouped(prefix + [school], key, names', groups')
  {
    if Truthy(school, key) {
      var name := school[key];
      names', groups' := names, groups;
      if name !in groups {
        groups' := groups'[name := Entry(name, Slugify(name), 0)];
        names' := names' + [name];
      }
      groups' := groups'[name := groups'[name].(count := groups'[name].count + 1)];
      GroupedAdd(prefix, school, key, names, groups);
      assert groups'[name] == Entry(name, Slugify(name), CountOf(prefix + [school], key, name));
    } else {
      names', groups' := names, groups;
      GroupedSkip(prefix, school, key, names, groups);
    }
  }

  /** A school without the field changes nothing. */
  lemma GroupedSkip(prefix: seq<Record>, school: Record, key: string, names: seq<string>, groups: map<string, Entry>)
    requires Grouped(prefix, key, names, groups) && !Truthy(school, key)
    ensures Grouped(prefix + [school], key, names, groups)
  {
    var next := prefix + [school];
    assert next[..|prefix|] == prefix;
    assert KeyValues(next, key) == KeyValues(prefix, key);
    KeyValuesNonBlank(prefix, key);
    DedupSpec(KeyValues(prefix, key));
    assert "" !in groups;
    forall n | n in groups
      ensures CountOf(next, key, n) == CountOf(prefix, key, n)
    {
    }
  }

  /** A school with the field adds its value if new and counts it once more. */
  lemma GroupedAdd(prefix: seq<Record>, school: Record, key: string, names: seq<string>, groups: map<string, Entry>)
    requires Grouped(prefix, key, names, groups) && Truthy(school, key)
    ensures CountOf(prefix + [school], key, school[key])
         == (if school[key] in groups then groups[school[key]].count else 0) + 1
    ensures Grouped(prefix + [school], key, if school[key] in groups then names else names + [school[key]],
                    groups[school[key] := Entry(school[key], Slugify(school[key]), CountOf(prefix + [school], key, school[key]))])
  {
    var name := school[key];
    var next := prefix + [school];
    DedupSpec(KeyValues(prefix, key));
    AddValue(prefix, school, key, names, groups);
    if name !in groups {
      CountAbsent(prefix, key, name);
    }
    EntriesAdd(next, key, groups, name);
  }

  lemma EntriesAdd(next: seq<Record>, key: string, groups: map<string, Entry>, name: string)
    requires forall n :: n in groups && n != name ==> groups[n] == Entry(n, Slugify(n), CountOf(next, key, n))
    ensures EntriesCount(next, key, groups[name := Entry(name, Slugify(name), CountOf(next, key, name))])
  {
  }

  /** The counts and names after a school with a truthy field. */
  lemma AddValue(prefix: seq<Record>, school: Record, key: string, names: seq<string>, groups: map<string, Entry>)
    requires Grouped(prefix, key, names, groups) && Truthy(school, key)
    ensures Names(prefix + [school], key) == if school[key] in names then names else names + [school[key]]
    ensures forall n :: n != school[key] ==> CountOf(prefix + [school], key, n) == CountOf(prefix, key, n)
    ensures CountOf(prefix + [school], key, school[key]) == CountOf(prefix, key, school[key]) + 1
  {
    var next := prefix + [school];
    assert next[..|prefix|] == prefix;
    assert KeyValues(next, key) == KeyValues(prefix, key) + [school[key]];
    DedupSnoc(KeyValues(prefix, key), school[key]);
  }

  /** The loop that fills the `Map`, followed by `Array.from(map.values())`. */
  method GroupCounts(schools: seq<Record>, key: string) returns (list: seq<Entry>)
    ensures list == GroupEntries(schools, key)
  {
    var names: seq<string> := [];
    var groups: map<string, Entry> := map[];
    for i := 0 to |schools|
      invariant Grouped(schools[..i], key, names, groups)
    {
      assert schools[..i + 1] == schools[..i] + [schools[i]];
      names, groups := AddSchool(schools[..i], schools[i], key, names, groups);
    }
    assert schools[..|schools|] == schools;
    list := seq(|names|, j requires 0 <= j < |names| => groups[names[j]]);
  }

  // ---------------------------------------------------------------------------
  // Sorting

  /** The order `le` is total and transitive. */
  ghost predicate TotalPreorder(le: (string, string) -> bool) {
    (forall a, b :: le(a, b) || le(b, a))
    && (forall a, b, c :: le(a, b) && le(b, c) ==> le(a, c))
  }

  ghost predicate SortedBy(es: seq<Entry>, le: (string, string) -> bool) {
    forall p, q :: 0 <= p < q < |es| ==> le(es[p].name, es[q].name)
  }

  method Swap(a: array<Entry>, i: int, j: int)
    requires 0 <= i < j < a.Length
    modifies a
    ensures a[i] == old(a[j]) && a[j] == old(a[i])
    ensures forall m :: 0 <= m < a.Length && m != i && m != j ==> a[m] == old(a[m])
    ensures multiset(a[..]) == old(multiset(a[..]))
  {
    a[i], a[j] := a[j], a[i];
  }

  /** One step of the insertion sort: a[i] is swapped leftwards past the
      larger elements before it, so that a[..i + 1] ends up sorted. */
  method Insert(a: array<Entry>, i: nat, le: (string, string) -> bool)
    requires TotalPreorder(le)
    requires i < a.Length && SortedBy(a[..i], le)
    modifies a
    ensures SortedBy(a[..i + 1], le)
    ensures multiset(a[..]) == old(multiset(a[..]))
  {
    var j := i;
    while j > 0 && !le(a[j - 1].name, a[j].name)
      invariant 0 <= j <= i
      invariant forall p, q :: 0 <= p < q <= i && p != j && q != j ==> le(a[p].name, a[q].name)
      invariant forall q :: j < q <= i ==> le(a[j].name, a[q].name)
      invariant multiset(a[..]) == old(multiset(a[..]))
    {
      Swap(a, j - 1, j);
      j := j - 1;
    }
  }

  /** `list.sort((a, b) => a.name.localeCompare(b.name, 'id'))`, in place,
      as an insertion sort. */
  method SortByName(a: array<Entry>, le: (string, string) -> bool)
    requires TotalPreorder(le)
    modifies a
    ensures SortedBy(a[..], le)
    ensures multiset(a[..]) == old(multiset(a[..]))
  {
    for i := 0 to a.Length
      invariant SortedBy(a[..i], le)
      invariant multiset(a[..]) == old(multiset(a[..]))
    {
      Insert(a, i, le);
    }
    assert a[..a.Length] == a[..];
  }

  // ---------------------------------------------------------------------------
  // Sums of counts

  function SumCounts(es: seq<Entry>): nat {
    if |es| == 0 then 0 else SumCounts(es[..|es| - 1]) + es[|es| - 1].count
  }

  lemma {:induction false} SumCountsAppend(a: seq<Entry>, b: seq<Entry>)
    ensures SumCounts(a + b) == SumCounts(a) + SumCounts(b)
    decreases |b|
  {
    if |b| == 0 {
      assert a + b == a;
    } else {
      var n := |b| - 1;
      assert (a + b)[..|a + b| - 1] == a + b[..n];
      SumCountsAppend(a, b[..n]);
    }
  }

  /** Taking one entry out of a list lowers the total by its count. */
  lemma {:induction false} SumCountsRemove(b: seq<Entry>, k: nat)
    requires k < |b|
    ensures SumCounts(b) == SumCounts(b[..k] + b[k + 1..]) + b[k].count
  {
    var m := |b| - 1;
    if k == m {
      assert b[..k] + b[k + 1..] == b[..m];
    } else {
      SumCountsRemove(b[..m], k);
      var rest := b[..k] + b[k + 1..];
      assert rest[..|rest| - 1] == b[..m][..k] + b[..m][k + 1..];
      assert rest[|rest| - 1] == b[m];
    }
  }

  lemma MultisetRemove(b: seq<Entry>, k: nat)
    requires k < |b|
    ensures multiset(b) == multiset(b[..k] + b[k + 1..]) + multiset{b[k]}
  {
    assert b == b[..k] + [b[k]] + b[k + 1..];
  }

  /** Reordering the entries does not change the total. */
  lemma {:induction false} SumCountsPermutation(a: seq<Entry>, b: seq<Entry>)
    requires multiset(a) == multiset(b)
    ensures SumCounts(a) == SumCounts(b)
    decreases |a|
  {
    if |a| > 0 {
      var n := |a| - 1;
      var x := a[n];
      assert a == a[..n] + [x];
      assert multiset(a) == multiset(a[..n]) + multiset{x};
      assert x in multiset(b);
      var k :| 0 <= k < |b| && b[k] == x;
      MultisetRemove(b, k);
      var rest := b[..k] + b[k + 1..];
      assert multiset(a[..n]) == multiset(a) - multiset{x};
      assert multiset(rest) == multiset(b) - multiset{x};
      SumCountsPermutation(a[..n], rest);
      SumCountsRemove(b, k);
    }
  }

  /** The sum over the names of their counts. */
  function SumOver(schools: seq<Record>, key: string, names: seq<string>): nat {
    if |names| == 0 then 0
    else SumOver(schools, key, names[..|names| - 1]) + CountOf(schools, key, names[|names| - 1])
  }

  /** How many of the names school x has in field `key`. */
  function Hits(x: Record, key: string, names: seq<string>): nat {
    if |names| == 0 then 0
    else Hits(x, key, names[..|names| - 1]) + (if HasValue(x, key, names[|names| - 1]) then 1 else 0)
  }

  lemma NoDupInit<T>(s: seq<T>)
    requires NoDup(s) && |s| > 0
    ensures NoDup(s[..|s| - 1]) && s[|s| - 1] !in s[..|s| - 1]
  {
    var m := |s| - 1;
    forall i, j | 0 <= i < j < m
      ensures s[..m][i] != s[..m][j]
    {
      assert s[i] != s[j];
    }
  }

  lemma {:induction false} HitsDistinct(x: Record, key: string, names: seq<string>)
    requires NoDup(names)
    ensures Hits(x, key, names) == if key in x && x[key] in names then 1 else 0
  {
    if |names| > 0 {
      var m := |names| - 1;
      var init := names[..m];
      NoDupInit(names);
      HitsDistinct(x, key, init);
      assert names == init + [names[m]];
      assert forall v :: v in names <==> v in init || v == names[m];
    }
  }

  lemma {:induction false} SumOverStep(schools: seq<Record>, key: string, names: seq<string>)
    requires |schools| > 0
    ensures SumOver(schools, key, names)
      == SumOver(schools[..|schools| - 1], key, names) + Hits(schools[|schools| - 1], key, names)
  {
    if |names| > 0 {
      SumOverStep(schools, key, names[..|names| - 1]);
    }
  }

  lemma {:induction false} SumOverTruthy(schools: seq<Record>, key: string, names: seq<string>)
    requires NoDup(names) && "" !in names
    requires forall i :: 0 <= i < |schools| && Truthy(schools[i], key) ==> schools[i][key] in names
    ensures SumOver(schools, key, names) == TruthyCount(schools, key)
  {
    if |schools| == 0 {
      SumOverEmpty(key, names);
    } else {
      var m := |schools| - 1;
      assert forall i :: 0 <= i < m ==> schools[..m][i] == schools[i];
      SumOverTruthy(schools[..m], key, names);
      SumOverStep(schools, key, names);
      HitsDistinct(schools[m], key, names);
    }
  }

  lemma {:induction false} SumOverEmpty(key: string, names: seq<string>)
    ensures SumOver([], key, names) == 0
  {
    if |names| > 0 {
      SumOverEmpty(key, names[..|names| - 1]);
    }
  }

  lemma {:induction false} SumCountsOfNames(schools: seq<Record>, key: string, names: seq<string>)
    ensures SumCounts(seq(|names|, j requires 0 <= j < |names| => Entry(names[j], Slugify(names[j]), CountOf(schools, key, names[j]))))
      == SumOver(schools, key, names)
  {
    if |names| > 0 {
      var m := |names| - 1;
      var es := seq(|names|, j requires 0 <= j < |names| => Entry(names[j], Slugify(names[j]), CountOf(schools, key, names[j])));
      SumCountsOfNames(schools, key, names[..m]);
      assert es[..m] == seq(m, j requires 0 <= j < m => Entry(names[..m][j], Slugify(names[..m][j]), CountOf(schools, key, names[..m][j])));
    }
  }

  /** Every school with a truthy field is counted in exactly one entry. */
  lemma SumOfCounts(schools: seq<Record>, key: string)
    ensures SumCounts(GroupEntries(schools, key)) == TruthyCount(schools, key)
  {
    var names := Names(schools, key);
    DedupSpec(KeyValues(schools, key));
    forall i | 0 <= i < |schools| && Truthy(schools[i], key) ensures schools[i][key] in names {
      KeyValuesComplete(schools, key, i);
    }
    if "" in names {
      KeyValuesSound(schools, key, "");
    }
    SumOverTruthy(schools, key, names);
    SumCountsOfNames(schools, key, names);
  }

  /** Some entry has name n. */
  ghost predicate HasEntry(es: seq<Entry>, n: string) {
    exists j :: 0 <= j < |es| && es[j].name == n
  }

  /** Some school has the truthy value n in field `key`. */
  ghost predicate Occurs(schools: seq<Record>, key: string, n: string) {
    exists i :: 0 <= i < |schools| && Truthy(schools[i], key) && schools[i][key] == n
  }

  /** One entry per distinct truthy value, each with its slug and a positive
      count of the schools that have it. */
  lemma GroupEntriesSpec(schools: seq<Record>, key: string)
    ensures forall p, q :: 0 <= p < q < |GroupEntries(schools, key)| ==>
      GroupEntries(schools, key)[p].name != GroupEntries(schools, key)[q].name
    ensures forall n :: HasEntry(GroupEntries(schools, key), n) <==> Occurs(schools, key, n)
    ensures forall e :: e in GroupEntries(schools, key) ==>
      e.slug == Slugify(e.name) && e.count == CountOf(schools, key, e.name) && e.count >= 1
  {
    var names := Names(schools, key);
    var es := GroupEntries(schools, key);
    DedupSpec(KeyValues(schools, key));
    forall n | HasEntry(es, n) ensures Occurs(schools, key, n) {
      var j :| 0 <= j < |es| && es[j].name == n;
      assert names[j] in names;
      KeyValuesSound(schools, key, n);
    }
    forall n | Occurs(schools, key, n) ensures HasEntry(es, n) {
      var i :| 0 <= i < |schools| && Truthy(schools[i], key) && schools[i][key] == n;
      KeyValuesComplete(schools, key, i);
      var j :| 0 <= j < |names| && names[j] == n;
      assert es[j].name == n;
    }
    forall e | e in es ensures e.slug == Slugify(e.name) && e.count == CountOf(schools, key, e.name) && e.count >= 1 {
      var j :| 0 <= j < |es| && es[j] == e;
      assert names[j] in names;
      CountPresent(schools, key, names[j]);
    }
  }

  // ---------------------------------------------------------------------------
  // The aggregator

  /** What an aggregator returns: [] for a non-array; otherwise the grouped
      entries in some order sorted by name, one per distinct truthy value,
      whose counts add up to the schools with a truthy field. */
  ghost predicate Aggregated(arg: Input<Record>, key: string, le: (string, string) -> bool, entries: seq<Entry>) {
    (arg.NonArray? ==> entries == [])
    && (arg.Array? ==>
          multiset(entries) == multiset(GroupEntries(arg.elems, key))
          && SortedBy(entries, le)
          && |entries| == |Names(arg.elems, key)|
          && SumCounts(entries) == TruthyCount(arg.elems, key))
  }

  /** `aggregateByProvince`, `aggregateByKabupaten` and `aggregateByKecamatan`,
      which differ only in the field `key`. */
  method AggregateBy(arg: Input<Record>, key: string, le: (string, string) -> bool) returns (entries: seq<Entry>)
    requires TotalPreorder(le)
    ensures Aggregated(arg, key, le, entries)
  {
    if arg.NonArray? {
      return [];
    }
    var list := GroupCounts(arg.elems, key);
    var a := new Entry[|list|](j requires 0 <= j < |list| => list[j]);
    assert a[..] == list;
    SortByName(a, le);
    entries := a[..];
    assert |multiset(entries)| == |multiset(list)|;
    SumCountsPermutation(entries, list);
    SumOfCounts(arg.elems, key);
  }

  /** Skipped schools still count towards a page's total: the total is at
      least the sum of the counts, with equality iff every school has the
      field. */
  lemma AggregatedTotal(schools: seq<Record>, key: string, le: (string, string) -> bool, entries: seq<Entry>)
    requires Aggregated(Array(schools), key, le, entries)
    ensures SumCounts(entries) <= |schools|
    ensures SumCounts(entries) == |schools| <==> forall s :: s in schools ==> Truthy(s, key)
  {
    TruthyCountAll(schools, key);
    if forall i :: 0 <= i < |schools| ==> Truthy(schools[i], key) {
      forall s | s in schools ensures Truthy(s, key) {
        var i :| 0 <= i < |schools| && schools[i] == s;
      }
    }
  }

  /** An entry of a sorted aggregate is one of the grouped entries: its slug
      is the slug of its name and some school has that name. */
  lemma AggregatedEntry(arg: Input<Record>, key: string, le: (string, string) -> bool, entries: seq<Entry>, e: Entry)
    requires Aggregated(arg, key, le, entries) && e in entries
    ensures arg.Array? && e.slug == Slugify(e.name) && Occurs(arg.elems, key, e.name)
    ensures e.count == CountOf(arg.elems, key, e.name) >= 1
  {
    assert e in multiset(entries);
    var es := GroupEntries(arg.elems, key);
    assert e in es;
    GroupEntriesSpec(arg.elems, key);
    var j :| 0 <= j < |es| && es[j] == e;
    assert HasEntry(es, e.name);
  }

  /** The slug of an aggregate entry is the slug of its name. */
  lemma AggregatedSlug(arg: Input<Record>, key: string, le: (string, string) -> bool, entries: seq<Entry>, e: Entry)
    requires Aggregated(arg, key, le, entries) && e in entries
    ensures e.slug == Slugify(e.name)
  {
    AggregatedEntry(arg, key, le, entries, e);
  }

  // ---------------------------------------------------------------------------
  // Links and canonical URLs

  /** The `<a href>`, name and count an index page shows for an entry. */
  datatype Link = Link(href: string, name: string, count: nat)

  function EntryLink(prefix: string, e: Entry): Link {
    Link(prefix + e.slug + "/", e.name, e.count)
  }

  function EntryLinks(prefix: string, es: seq<Entry>): (ls: seq<Link>)
    ensures |ls| == |es|
  {
    seq(|es|, j requires 0 <= j < |es| => EntryLink(prefix, es[j]))
  }

  /** `url.replace(/\/$/, '')`: at most one trailing '/' is removed. */
  function RemoveTrailingSlash(url: string): (r: string)
    ensures EndsWith(url, "/") ==> r + "/" == url
    ensures !EndsWith(url, "/") ==> r == url
  {
    if |url| > 0 && url[|url| - 1] == '/' then url[..|url| - 1] else url
  }
}
