/** The URL slug of a name: fold accents to ASCII, lower-case, turn every run
    of other characters into one '-', drop dashes at both ends, and fall back
    to "untitled" when nothing is left. */
module Slugs {
  import opened Common

  predicate SlugOrDash(s: string) {
    forall i :: 0 <= i < |s| ==> IsLowerAlnum(s[i]) || s[i] == '-'
  }

  predicate NoDoubleDash(s: string) {
    forall i :: 0 <= i < |s| - 1 ==> !(s[i] == '-' && s[i + 1] == '-')
  }

  /** The shape of every slug: non-empty, lower-case ASCII letters, digits and
      single dashes, never a dash at either end. */
  predicate IsSlug(s: string) {
    |s| > 0 && SlugOrDash(s) && s[0] != '-' && s[|s| - 1] != '-' && NoDoubleDash(s)
  }

  // ---------------------------------------------------------------------------
  // Canonical decomposition followed by removal of diacritics

  /** The base letter of a precomposed Latin-1 letter, if it decomposes. */
  function BaseLetter(c: char): Option<char> {
    if '\U{C0}' <= c <= '\U{C5}' then Some('A')
    else if c == '\U{C7}' then Some('C')
    else if '\U{C8}' <= c <= '\U{CB}' then Some('E')
    else if '\U{CC}' <= c <= '\U{CF}' then Some('I')
    else if c == '\U{D1}' then Some('N')
    else if '\U{D2}' <= c <= '\U{D6}' then Some('O')
    else if '\U{D9}' <= c <= '\U{DC}' then Some('U')
    else if c == '\U{DD}' then Some('Y')
    else if '\U{E0}' <= c <= '\U{E5}' then Some('a')
    else if c == '\U{E7}' then Some('c')
    else if '\U{E8}' <= c <= '\U{EB}' then Some('e')
    else if '\U{EC}' <= c <= '\U{EF}' then Some('i')
    else if c == '\U{F1}' then Some('n')
    else if '\U{F2}' <= c <= '\U{F6}' then Some('o')
    else if '\U{F9}' <= c <= '\U{FC}' then Some('u')
    else if c == '\U{FD}' || c == '\U{FF}' then Some('y')
    else None
  }

  /** Characters with the Unicode Diacritic property in the ranges modelled. */
  predicate IsDiacritic(c: char) {
    c == '^' || c == '`' || c == '\U{A8}' || c == '\U{AF}' || c == '\U{B4}'
    || c == '\U{B7}' || c == '\U{B8}'
    || ('\U{2B0}' <= c <= '\U{34E}') || ('\U{350}' <= c <= '\U{357}')
    || ('\U{35D}' <= c <= '\U{362}')
  }

  function FoldChar(c: char): string {
    if c < '\U{80}' then (if c == '^' || c == '`' then "" else [c])
    else
      match BaseLetter(c)
      case Some(b) => [b]
      case None => if IsDiacritic(c) then "" else [c]
  }

  /** `s.normalize('NFD').replace(/\p{Diacritic}/gu, '')` for the letters of
      the Latin-1 table above; a precomposed letter outside it is kept
      whole, where NFD would leave its base letter. */
  function Fold(s: string): string {
    if |s| == 0 then "" else FoldChar(s[0]) + Fold(s[1..])
  }

  function LowerChar(c: char): char {
    if 'A' <= c <= 'Z' then (c as int + 32) as char else c
  }

  /** `toLowerCase()`. */
  function Lower(s: string): (r: string)
    ensures |r| == |s|
  {
    seq(|s|, i requires 0 <= i < |s| => LowerChar(s[i]))
  }

  // ---------------------------------------------------------------------------
  // The replace steps

  /** The input without its leading run of characters other than letters and digits. */
  function DropNonSlug(s: string): string {
    TrimStart(s, NotLowerAlnum)
  }

  /** `replace(/[^a-z0-9]+/g, '-')`: every maximal run of other characters
      becomes a single dash. */
  function Collapse(s: string): (r: string)
    ensures SlugOrDash(r)
    ensures NoDoubleDash(r)
    ensures |r| == 0 <==> |s| == 0
    ensures |s| > 0 ==> (r[0] == '-' <==> !IsLowerAlnum(s[0]))
    decreases |s|
  {
    if |s| == 0 then ""
    else if IsLowerAlnum(s[0]) then [s[0]] + Collapse(s[1..])
    else
      TrimStartSpec(s[1..], NotLowerAlnum);
      "-" + Collapse(DropNonSlug(s[1..]))
  }

  /** `replace(/^-+|-+$/g, '')`. */
  function TrimDashes(s: string): string {
    Strip(s, Dash)
  }

  /** `replace(/-{2,}/g, '-')`: every run of dashes becomes one dash. */
  function CollapseDashes(s: string): string
    decreases |s|
  {
    if |s| == 0 then ""
    else if s[0] == '-' then "-" + CollapseDashes(TrimStart(s[1..], Dash))
    else [s[0]] + CollapseDashes(s[1..])
  }

  /** The chain of replacements applied to a non-blank input. */
  function Pipeline(input: string): string {
    CollapseDashes(TrimDashes(Collapse(Lower(Fold(input)))))
  }

  /** `slugify(input)` for a string input. */
  function Slugify(input: string): string {
    if Trim(input) == "" then ""
    else
      var t := Pipeline(input);
      if t == "" then "untitled" else t
  }

  /** `slugify(value)` for any JavaScript value: `None` stands for a value that
      is not a string, for which the result is ''. */
  function SlugifyValue(value: Option<string>): (r: string)
    ensures value.None? ==> r == ""
    ensures value.Some? ==> r == Slugify(value.value)
  {
    match value
    case None => ""
    case Some(s) => Slugify(s)
  }

  // ---------------------------------------------------------------------------
  // Lemmas

  /** The letters and digits of s, in order. */
  function Alnums(s: string): string {
    if |s| == 0 then "" else (if IsLowerAlnum(s[0]) then [s[0]] else "") + Alnums(s[1..])
  }

  lemma {:induction false} AlnumsAppend(a: string, b: string)
    ensures Alnums(a + b) == Alnums(a) + Alnums(b)
  {
    if |a| > 0 {
      assert (a + b)[1..] == a[1..] + b;
      AlnumsAppend(a[1..], b);
    } else {
      assert a + b == b;
    }
  }

  lemma {:induction false} AlnumsNone(s: string)
    requires forall i :: 0 <= i < |s| ==> !IsLowerAlnum(s[i])
    ensures Alnums(s) == ""
  {
    if |s| > 0 {
      AlnumsNone(s[1..]);
    }
  }

  /** Collapsing keeps every letter and digit, in order. */
  lemma {:induction false} CollapseKeepsAlnum(s: string)
    ensures Alnums(Collapse(s)) == Alnums(s)
    decreases |s|
  {
    if |s| > 0 {
      var t := s[1..];
      if IsLowerAlnum(s[0]) {
        CollapseKeepsAlnum(t);
        assert Collapse(s) == [s[0]] + Collapse(t);
      } else {
        var d := DropNonSlug(t);
        TrimStartSpec(t, NotLowerAlnum);
        CollapseKeepsAlnum(d);
        assert Collapse(s) == "-" + Collapse(d);
        assert Alnums("-" + Collapse(d)) == Alnums(Collapse(d));
        assert t == t[..|t| - |d|] + d;
        AlnumsAppend(t[..|t| - |d|], d);
        AlnumsNone(t[..|t| - |d|]);
      }
    }
  }

  lemma TrimDashesShape(s: string)
    requires SlugOrDash(s) && NoDoubleDash(s)
    ensures var r := TrimDashes(s);
      SlugOrDash(r) && NoDoubleDash(r) && IsStripped(r, Dash)
  {
    var r := TrimDashes(s);
    var k := StripFactor(s, Dash);
    forall i | 0 <= i < |r| - 1 ensures !(r[i] == '-' && r[i + 1] == '-') {
      assert r[i] == s[k + i] && r[i + 1] == s[k + i + 1];
    }
    forall i | 0 <= i < |r| ensures IsLowerAlnum(r[i]) || r[i] == '-' {
      assert r[i] == s[k + i];
    }
  }

  /** Trimming dashes keeps every letter and digit. */
  lemma TrimDashesAlnums(s: string)
    ensures Alnums(TrimDashes(s)) == Alnums(s)
  {
    var r := TrimDashes(s);
    var k := StripFactor(s, Dash);
    assert s == s[..k] + r + s[k + |r|..];
    AlnumsAppend(s[..k] + r, s[k + |r|..]);
    AlnumsAppend(s[..k], r);
    AlnumsNone(s[..k]);
    AlnumsNone(s[k + |r|..]);
  }

  /** The last replacement has nothing left to do once runs are single. */
  lemma {:induction false} CollapseDashesIdentity(s: string)
    requires NoDoubleDash(s)
    ensures CollapseDashes(s) == s
    decreases |s|
  {
    if |s| > 0 {
      var t := s[1..];
      assert NoDoubleDash(t) by {
        forall i | 0 <= i < |t| - 1 ensures !(t[i] == '-' && t[i + 1] == '-') {
          assert t[i] == s[i + 1] && t[i + 1] == s[i + 2];
        }
      }
      if s[0] == '-' {
        if |t| > 0 {
          assert t[0] != '-' by { assert s[1] == t[0]; }
        }
        assert TrimStart(t, Dash) == t;
      }
      CollapseDashesIdentity(t);
      assert s == [s[0]] + t;
    }
  }

  /** The result of every non-blank input is a slug: letters, digits and
      single inner dashes only. */
  lemma SlugifyShape(input: string)
    requires Trim(input) != ""
    ensures IsSlug(Slugify(input))
  {
    var c := Collapse(Lower(Fold(input)));
    TrimDashesShape(c);
    var t := TrimDashes(c);
    CollapseDashesIdentity(t);
    assert Pipeline(input) == t;
    if t == "" {
      UntitledIsSlug();
    } else {
      assert IsSlug(t);
    }
  }

  lemma UntitledIsSlug()
    ensures IsSlug("untitled")
  {
    var u := "untitled";
    forall i | 0 <= i < |u| ensures IsLowerAlnum(u[i]) {
    }
  }

  /** A blank or whitespace-only input gives the empty string. */
  lemma SlugifyBlank(input: string)
    requires forall i :: 0 <= i < |input| ==> IsJsSpace(input[i])
    ensures Slugify(input) == ""
  {
    StripEmptyIff(input, JsSpace);
  }

  /** The slug keeps exactly the letters and digits of the folded,
      lower-cased input, in order; when there are none the result is
      "untitled". */
  lemma SlugifyLetters(input: string)
    requires Trim(input) != ""
    ensures var l := Lower(Fold(input));
      if Alnums(l) == "" then Slugify(input) == "untitled"
      else Alnums(Slugify(input)) == Alnums(l)
  {
    var l := Lower(Fold(input));
    var c := Collapse(l);
    CollapseKeepsAlnum(l);
    TrimDashesShape(c);
    TrimDashesAlnums(c);
    var t := TrimDashes(c);
    CollapseDashesIdentity(t);
  }

  /** Folding leaves ASCII text without '^' and '`' unchanged. */
  lemma {:induction false} FoldAscii(s: string)
    requires forall i :: 0 <= i < |s| ==> s[i] < '\U{80}' && s[i] != '^' && s[i] != '`'
    ensures Fold(s) == s
    decreases |s|
  {
    if |s| > 0 {
      FoldAscii(s[1..]);
      assert s == [s[0]] + s[1..];
    }
  }

  lemma {:induction false} CollapseIdentity(s: string)
    requires SlugOrDash(s) && NoDoubleDash(s)
    ensures Collapse(s) == s
    decreases |s|
  {
    if |s| > 0 {
      var t := s[1..];
      assert SlugOrDash(t) && NoDoubleDash(t) by {
        forall i | 0 <= i < |t| - 1 ensures !(t[i] == '-' && t[i + 1] == '-') {
          assert t[i] == s[i + 1] && t[i + 1] == s[i + 2];
        }
      }
      if !IsLowerAlnum(s[0]) {
        if |t| > 0 {
          assert t[0] == s[1];
        }
        assert DropNonSlug(t) == t;
      }
      CollapseIdentity(t);
      assert s == [s[0]] + t;
    }
  }

  /** Slugs are fixed points: slugifying a slug gives it back unchanged. */
  lemma SlugifyOfSlug(s: string)
    requires IsSlug(s)
    ensures Slugify(s) == s
  {
    StripEmptyIff(s, JsSpace);
    assert !IsJsSpace(s[0]);
    FoldAscii(s);
    assert Lower(s) == s;
    CollapseIdentity(s);
    assert IsStripped(s, Dash);
    StripOfStripped(s, Dash);
    CollapseDashesIdentity(s);
  }

  /** Slugifying twice is the same as slugifying once. */
  lemma SlugifyIdempotent(input: string)
    requires Trim(input) != ""
    ensures Slugify(Slugify(input)) == Slugify(input)
  {
    SlugifyShape(input);
    SlugifyOfSlug(Slugify(input));
  }

  lemma {:induction false} CollapseAlnumPrefix(a: string, rest: string)
    requires forall i :: 0 <= i < |a| ==> IsLowerAlnum(a[i])
    ensures Collapse(a + rest) == a + Collapse(rest)
  {
    if |a| > 0 {
      assert (a + rest)[1..] == a[1..] + rest;
      CollapseAlnumPrefix(a[1..], rest);
      assert a == [a[0]] + a[1..];
    } else {
      assert a + rest == rest;
    }
  }

  lemma CollapseRunPrefix(a: string, rest: string)
    requires |a| > 0 && forall i :: 0 <= i < |a| ==> !IsLowerAlnum(a[i])
    requires rest == [] || IsLowerAlnum(rest[0])
    ensures Collapse(a + rest) == "-" + Collapse(rest)
  {
    var t := (a + rest)[1..];
    assert t == a[1..] + rest;
    forall i | 0 <= i < |a| - 1 ensures InClass(t[i], NotLowerAlnum) {
      assert t[i] == a[i + 1];
    }
    if |a| - 1 < |t| {
      assert t[|a| - 1] == rest[0];
    }
    LeadCountExact(t, NotLowerAlnum, |a| - 1);
    assert DropNonSlug(t) == t[|a| - 1..] == rest;
  }

  /** When the collapsed text is already a slug, it is the result. */
  lemma SlugifyOfCollapsed(input: string, slug: string)
    requires |input| > 0 && !IsJsSpace(input[0])
    requires TrimDashes(Collapse(Lower(Fold(input)))) == slug
    requires IsSlug(slug)
    ensures Slugify(input) == slug
  {
    StripEmptyIff(input, JsSpace);
    CollapseDashesIdentity(slug);
  }

  lemma CollapseWord(w: string)
    requires forall i :: 0 <= i < |w| ==> IsLowerAlnum(w[i])
    ensures Collapse(w) == w
  {
    CollapseAlnumPrefix(w, "");
    assert w + "" == w;
  }

  lemma CollapseSeparated(w: string, sep: string, rest: string)
    requires forall i :: 0 <= i < |w| ==> IsLowerAlnum(w[i])
    requires |sep| > 0 && forall i :: 0 <= i < |sep| ==> !IsLowerAlnum(sep[i])
    requires rest == [] || IsLowerAlnum(rest[0])
    ensures Collapse(w + sep + rest) == w + "-" + Collapse(rest)
  {
    CollapseAlnumPrefix(w, sep + rest);
    CollapseRunPrefix(sep, rest);
    assert w + sep + rest == w + (sep + rest);
  }

  lemma HelloWorldIsSlug()
    ensures IsSlug("hello" + "-" + "world")
    ensures TrimDashes("hello" + "-" + "world") == "hello" + "-" + "world"
  {
    var r := "hello-world";
    assert r == "hello" + "-" + "world";
    assert SlugOrDash(r) by {
      forall i | 0 <= i < |r| ensures IsLowerAlnum(r[i]) || r[i] == '-' {
      }
    }
    StripOfStripped(r, Dash);
  }

  lemma HelloWorldLower()
    ensures Lower("Hello World") == "hello" + " " + "world"
  {
  }

  lemma HelloWorldJoined()
    ensures Collapse("hello" + " " + "world") == "hello" + "-" + "world"
  {
    CollapseSeparated("hello", " ", "world");
    CollapseWord("world");
  }

  lemma HelloWorldCollapse()
    ensures Collapse(Lower(Fold("Hello World"))) == "hello" + "-" + "world"
  {
    FoldAscii("Hello World");
    HelloWorldLower();
    HelloWorldJoined();
  }

  lemma HelloWorldSlug()
    ensures "hello" + "-" + "world" == "hello-world"
  {
  }

  lemma ExampleHelloWorld()
    ensures Slugify("Hello World") == "hello-world"
  {
    HelloWorldCollapse();
    HelloWorldIsSlug();
    SlugifyOfCollapsed("Hello World", "hello" + "-" + "world");
    HelloWorldSlug();
  }

  lemma HelloAtWorldLower()
    ensures Lower("hello@world!") == "hello" + "@" + ("world" + "!" + "")
  {
  }

  lemma HelloAtWorldJoined()
    ensures Collapse("hello" + "@" + ("world" + "!" + "")) == "hello" + "-" + ("world" + "-")
  {
    CollapseSeparated("hello", "@", "world" + "!" + "");
    CollapseSeparated("world", "!", "");
    assert Collapse("") == "";
  }

  lemma HelloAtWorldCollapse()
    ensures Collapse(Lower(Fold("hello@world!"))) == "hello" + "-" + ("world" + "-")
  {
    FoldAscii("hello@world!");
    HelloAtWorldLower();
    HelloAtWorldJoined();
  }

  lemma HelloAtWorldTrim()
    ensures TrimDashes("hello" + "-" + ("world" + "-")) == "hello" + "-" + "world"
  {
    var c := "hello-world-";
    assert c == "hello" + "-" + ("world" + "-");
    assert LeadCount(c, Dash) == 0;
    assert c[..|c| - 1] == "hello-world";
    assert TrailCount("hello-world", Dash) == 0;
    assert TrailCount(c, Dash) == 1;
  }

  lemma ExampleHelloAtWorld()
    ensures Slugify("hello@world!") == "hello-world"
  {
    HelloAtWorldCollapse();
    HelloAtWorldTrim();
    HelloWorldIsSlug();
    SlugifyOfCollapsed("hello@world!", "hello" + "-" + "world");
    HelloWorldSlug();
  }

  lemma CiparayIsSlug()
    ensures IsSlug("ciparay")
    ensures TrimDashes("ciparay") == "ciparay"
  {
    var r := "ciparay";
    forall i | 0 <= i < |r| ensures IsLowerAlnum(r[i]) {
    }
    StripOfStripped(r, Dash);
  }

  lemma CiparayLower()
    ensures Lower("Ciparay") == "ciparay"
  {
  }

  lemma CiparayCollapse()
    ensures Collapse(Lower(Fold("Ciparay"))) == "ciparay"
  {
    FoldAscii("Ciparay");
    CiparayLower();
    CollapseWord("ciparay");
  }

  lemma ExampleCiparay()
    ensures Slugify("Ciparay") == "ciparay"
  {
    CiparayCollapse();
    CiparayIsSlug();
    SlugifyOfCollapsed("Ciparay", "ciparay");
  }
}
