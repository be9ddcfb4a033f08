/**
 * The design system's CSS custom properties: the design-token tree, the
 * table of variable names and the token each one reads, and the
 * serialiser that writes the `:root` rule.
 */
module DesignSystem {
  import opened Common

  /** A design token: a CSS value, or a named group of tokens in written order. */
  datatype Token = Value(text: string) | Group(entries: seq<(string, Token)>)

  /** `DESIGN_TOKENS`, one constant per top-level group. */
  const ColorsTokens: Token := Group([
    ("primary", Value("#2563eb")),
    ("primaryHover", Value("#1d4ed8")),
    ("primaryFocus", Value("#3b82f6")),
    ("text", Group([
      ("primary", Value("#111827")),
      ("secondary", Value("#4b5563")),
      ("light", Value("#6b7280"))
    ])),
    ("background", Group([
      ("primary", Value("#ffffff")),
      ("secondary", Value("#f9fafb")),
      ("accent", Value("#f3f4f6"))
    ])),
    ("border", Value("#d1d5db")),
    ("focus", Value("#2563eb")),
    ("skipLink", Group([
      ("background", Value("#000000")),
      ("text", Value("#ffffff"))
    ]))
  ])

  const SpacingTokens: Token := Group([
    ("xs", Value("0.25rem")),
    ("sm", Value("0.5rem")),
    ("md", Value("1rem")),
    ("lg", Value("1.5rem")),
    ("xl", Value("2rem")),
    ("2xl", Value("3rem"))
  ])

  const TypographyTokens: Token := Group([
    ("fontSize", Group([
      ("xs", Value("0.75rem")),
      ("sm", Value("0.875rem")),
      ("base", Value("1rem")),
      ("lg", Value("1.125rem")),
      ("xl", Value("1.25rem")),
      ("2xl", Value("1.5rem")),
      ("3xl", Value("1.875rem")),
      ("4xl", Value("2.25rem"))
    ])),
    ("fontWeight", Group([
      ("normal", Value("400")),
      ("medium", Value("500")),
      ("semibold", Value("600")),
      ("bold", Value("700"))
    ])),
    ("lineHeight", Group([
      ("tight", Value("1.25")),
      ("normal", Value("1.5")),
      ("relaxed", Value("1.75"))
    ]))
  ])

  const BorderRadiusTokens: Token := Group([
    ("sm", Value("0.25rem")),
    ("md", Value("0.375rem")),
    ("lg", Value("0.5rem")),
    ("full", Value("9999px"))
  ])

  const ShadowsTokens: Token := Group([
    ("sm", Value("0 1px 2px 0 rgba(0, 0, 0, 0.05)")),
    ("md", Value("0 4px 6px -1px rgba(0, 0, 0, 0.1), 0 2px 4px -1px rgba(0, 0, 0, 0.06)")),
    ("lg", Value("0 10px 15px -3px rgba(0, 0, 0, 0.1), 0 4px 6px -2px rgba(0, 0, 0, 0.05)")),
    ("focus", Value("0 0 0 3px rgba(37, 99, 235, 0.3)"))
  ])

  const BreakpointsTokens: Token := Group([
    ("sm", Value("640px")),
    ("md", Value("768px")),
    ("lg", Value("1024px")),
    ("xl", Value("1280px"))
  ])

  const TransitionsTokens: Token := Group([
    ("fast", Value("150ms")),
    ("normal", Value("200ms")),
    ("slow", Value("300ms"))
  ])

  const ZIndexTokens: Token := Group([
    ("base", Value("1")),
    ("dropdown", Value("10")),
    ("sticky", Value("20")),
    ("fixed", Value("100")),
    ("modal", Value("1000"))
  ])

  const DesignTokens: Token := Group([
    ("colors", ColorsTokens),
    ("spacing", SpacingTokens),
    ("typography", TypographyTokens),
    ("borderRadius", BorderRadiusTokens),
    ("shadows", ShadowsTokens),
    ("breakpoints", BreakpointsTokens),
    ("transitions", TransitionsTokens),
    ("zIndex", ZIndexTokens)
  ])

  /** The first entry of a group with the given key. */
  function Child(entries: seq<(string, Token)>, key: string): (r: Option<Token>)
    ensures r.Some? ==> exists i :: 0 <= i < |entries| && entries[i] == (key, r.value)
    ensures r.None? ==> forall i :: 0 <= i < |entries| ==> entries[i].0 != key
  {
    if |entries| == 0 then None
    else if entries[0].0 == key then Some(entries[0].1)
    else
      var r := Child(entries[1..], key);
      assert forall i :: 1 <= i < |entries| ==> entries[i] == entries[1..][i - 1];
      r
  }

  /** The value at the end of a property path, as `DESIGN_TOKENS.a.b` reads it. */
  function Lookup(t: Token, path: seq<string>): Option<string>
    decreases |path|
  {
    if |path| == 0 then (if t.Value? then Some(t.text) else None)
    else if t.Value? then None
    else
      match Child(t.entries, path[0])
      case None => None
      case Some(c) => Lookup(c, path[1..])
  }

  /** How a looked-up value prints in a template literal. */
  function ValueText(v: Option<string>): string {
    if v.Some? then v.value else "undefined"
  }

  /** The `variables` table of `getCssVariables`: each name and the token path it reads, by group. */
  const ColorsVariables: seq<(string, seq<string>)> := [
    ("--color-primary", ["colors", "primary"]),
    ("--color-primary-hover", ["colors", "primaryHover"]),
    ("--color-primary-focus", ["colors", "primaryFocus"]),
    ("--color-text-primary", ["colors", "text", "primary"]),
    ("--color-text-secondary", ["colors", "text", "secondary"]),
    ("--color-text-light", ["colors", "text", "light"]),
    ("--color-bg-primary", ["colors", "background", "primary"]),
    ("--color-bg-secondary", ["colors", "background", "secondary"]),
    ("--color-bg-accent", ["colors", "background", "accent"]),
    ("--color-border", ["colors", "border"]),
    ("--color-focus", ["colors", "focus"])
  ]

  const SpacingVariables: seq<(string, seq<string>)> := [
    ("--spacing-xs", ["spacing", "xs"]),
    ("--spacing-sm", ["spacing", "sm"]),
    ("--spacing-md", ["spacing", "md"]),
    ("--spacing-lg", ["spacing", "lg"]),
    ("--spacing-xl", ["spacing", "xl"]),
    ("--spacing-2xl", ["spacing", "2xl"])
  ]

  const TypographyVariables: seq<(string, seq<string>)> := [
    ("--font-size-xs", ["typography", "fontSize", "xs"]),
    ("--font-size-sm", ["typography", "fontSize", "sm"]),
    ("--font-size-base", ["typography", "fontSize", "base"]),
    ("--font-size-lg", ["typography", "fontSize", "lg"]),
    ("--font-size-xl", ["typography", "fontSize", "xl"]),
    ("--font-size-2xl", ["typography", "fontSize", "2xl"]),
    ("--font-size-3xl", ["typography", "fontSize", "3xl"]),
    ("--font-size-4xl", ["typography", "fontSize", "4xl"]),
    ("--font-weight-normal", ["typography", "fontWeight", "normal"]),
    ("--font-weight-medium", ["typography", "fontWeight", "medium"]),
    ("--font-weight-semibold", ["typography", "fontWeight", "semibold"]),
    ("--font-weight-bold", ["typography", "fontWeight", "bold"]),
    ("--line-height-tight", ["typography", "lineHeight", "tight"]),
    ("--line-height-normal", ["typography", "lineHeight", "normal"]),
    ("--line-height-relaxed", ["typography", "lineHeight", "relaxed"])
  ]

  const BorderRadiusVariables: seq<(string, seq<string>)> := [
    ("--radius-sm", ["borderRadius", "sm"]),
    ("--radius-md", ["borderRadius", "md"]),
    ("--radius-lg", ["borderRadius", "lg"])
  ]

  const ShadowsVariables: seq<(string, seq<string>)> := [
    ("--shadow-sm", ["shadows", "sm"]),
    ("--shadow-md", ["shadows", "md"]),
    ("--shadow-lg", ["shadows", "lg"]),
    ("--shadow-focus", ["shadows", "focus"])
  ]

  const TransitionsVariables: seq<(string, seq<string>)> := [
    ("--transition-fast", ["transitions", "fast"]),
    ("--transition-normal", ["transitions", "normal"]),
    ("--transition-slow", ["transitions", "slow"])
  ]

  const ZIndexVariables: seq<(string, seq<string>)> := [
    ("--z-index-base", ["zIndex", "base"]),
    ("--z-index-dropdown", ["zIndex", "dropdown"]),
    ("--z-index-sticky", ["zIndex", "sticky"]),
    ("--z-index-fixed", ["zIndex", "fixed"]),
    ("--z-index-modal", ["zIndex", "modal"])
  ]

  const VariablePaths: seq<(string, seq<string>)> :=
    ColorsVariables + SpacingVariables + TypographyVariables + BorderRadiusVariables + ShadowsVariables + TransitionsVariables + ZIndexVariables

  /** The table with the token values filled in, in written order. */
  function Variables(): (vs: seq<(string, string)>)
    ensures |vs| == |VariablePaths|
  {
    seq(|VariablePaths|, i requires 0 <= i < |VariablePaths| =>
      (VariablePaths[i].0, ValueText(Lookup(DesignTokens, VariablePaths[i].1))))
  }

  /** One declaration without its line break. */
  function DeclarationLine(name: string, value: string): string {
    "  " + name + ": " + value + ";"
  }

  /** The declarations written for `vs`, in order. */
  function Body(vs: seq<(string, string)>): string
    decreases |vs|
  {
    if |vs| == 0 then ""
    else Body(vs[..|vs| - 1]) + DeclarationLine(vs[|vs| - 1].0, vs[|vs| - 1].1) + "\n"
  }

  const RootOpen := ":root {"
  const RootClose := "}"

  /** The text `getCssVariables` builds from a table. */
  function CssText(vs: seq<(string, string)>): string {
    RootOpen + "\n" + Body(vs) + RootClose
  }

  /** The loop of `getCssVariables` over a table of entries. */
  method WriteRule(variables: seq<(string, string)>) returns (css: string)
    ensures css == CssText(variables)
  {
    css := RootOpen + "\n";
    for i := 0 to |variables|
      invariant css == RootOpen + "\n" + Body(variables[..i])
    {
      assert variables[..i + 1][..i] == variables[..i];
      css := css + DeclarationLine(variables[i].0, variables[i].1) + "\n";
    }
    assert variables[..|variables|] == variables;
    css := css + RootClose;
  }

  /** `getCssVariables`: the rule for the design system's table. */
  method GetCssVariables() returns (css: string)
    ensures css == CssText(Variables())
  {
    css := WriteRule(Variables());
  }

  /** The lines of the rule: the opening, one declaration per entry, the closing brace. */
  function CssLines(vs: seq<(string, string)>): (lines: seq<string>)
    ensures |lines| == |vs| + 2
  {
    [RootOpen] + seq(|vs|, i requires 0 <= i < |vs| => DeclarationLine(vs[i].0, vs[i].1)) + [RootClose]
  }

  lemma {:induction false} BodyJoin(vs: seq<(string, string)>)
    ensures RootOpen + "\n" + Body(vs) == Join(CssLines(vs)[..|vs| + 1], "\n") + "\n"
    decreases |vs|
  {
    var lines := CssLines(vs);
    if |vs| == 0 {
      assert lines[..1] == [RootOpen];
    } else {
      var init := vs[..|vs| - 1];
      var last := vs[|vs| - 1];
      BodyJoin(init);
      var d := DeclarationLine(last.0, last.1);
      assert lines[..|vs| + 1] == CssLines(init)[..|init| + 1] + [d];
      JoinAppend(CssLines(init)[..|init| + 1], d, "\n");
    }
  }

  /** The text is its lines joined by line breaks. */
  lemma CssTextJoin(vs: seq<(string, string)>)
    ensures CssText(vs) == Join(CssLines(vs), "\n")
  {
    var lines := CssLines(vs);
    BodyJoin(vs);
    assert lines == lines[..|vs| + 1] + [RootClose];
    JoinAppend(lines[..|vs| + 1], RootClose, "\n");
  }

  /** The rule opens with `:root {` and a line break and closes with `}`. */
  lemma CssFrame(vs: seq<(string, string)>)
    ensures StartsWith(CssText(vs), ":root {\n")
    ensures EndsWith(CssText(vs), "}")
  {
    var css := CssText(vs);
    assert css == (RootOpen + "\n") + (Body(vs) + RootClose);
    PrefixOf(RootOpen + "\n", Body(vs) + RootClose);
    assert css[|css| - 1..] == "}";
  }

  predicate LineFree(s: string) {
    '\n' !in s
  }

  lemma DeclarationLineFree(name: string, value: string)
    requires LineFree(name) && LineFree(value)
    ensures LineFree(DeclarationLine(name, value))
  {
  }

  /**
   * When no name or value holds a line break, the text has exactly one line
   * per table entry between the opening and the closing line, in order.
   */
  lemma CssTextLines(vs: seq<(string, string)>)
    requires forall i :: 0 <= i < |vs| ==> LineFree(vs[i].0) && LineFree(vs[i].1)
    ensures Split(CssText(vs), '\n') == CssLines(vs)
    ensures forall i :: 0 <= i < |vs| ==> CssLines(vs)[i + 1] == "  " + vs[i].0 + ": " + vs[i].1 + ";"
  {
    var lines := CssLines(vs);
    forall i | 0 <= i < |lines|
      ensures '\n' !in lines[i]
    {
      if 1 <= i <= |vs| {
        DeclarationLineFree(vs[i - 1].0, vs[i - 1].1);
      }
    }
    CssTextJoin(vs);
    SplitJoin(lines, '\n');
  }

  /** A path that neither starts at the breakpoints nor passes through a skip-link group. */
  predicate Avoids(path: seq<string>) {
    |path| > 0 && path[0] != "breakpoints" && "skipLink" !in path
  }

  predicate AllAvoid(tbl: seq<(string, seq<string>)>) {
    forall i :: 0 <= i < |tbl| ==> Avoids(tbl[i].1)
  }

  lemma AllAvoidAppend(a: seq<(string, seq<string>)>, b: seq<(string, seq<string>)>)
    requires AllAvoid(a) && AllAvoid(b)
    ensures AllAvoid(a + b)
  {
    forall i | 0 <= i < |a + b|
      ensures Avoids((a + b)[i].1)
    {
      if i >= |a| {
        assert (a + b)[i] == b[i - |a|];
      }
    }
  }

  lemma ColorsAvoid() ensures AllAvoid(ColorsVariables) { }
  lemma SpacingAvoids() ensures AllAvoid(SpacingVariables) { }
  lemma TypographyAvoids() ensures AllAvoid(TypographyVariables) { }
  lemma BorderRadiusAvoids() ensures AllAvoid(BorderRadiusVariables) { }
  lemma ShadowsAvoid() ensures AllAvoid(ShadowsVariables) { }
  lemma TransitionsAvoid() ensures AllAvoid(TransitionsVariables) { }
  lemma ZIndexAvoids() ensures AllAvoid(ZIndexVariables) { }

  /** No variable reads a breakpoint or a skip-link colour. */
  lemma BreakpointsAndSkipLinkNotEmitted()
    ensures forall i :: 0 <= i < |VariablePaths| ==> Avoids(VariablePaths[i].1)
  {
    ColorsAvoid();
    SpacingAvoids();
    TypographyAvoids();
    BorderRadiusAvoids();
    ShadowsAvoid();
    TransitionsAvoid();
    ZIndexAvoids();
    var t := ColorsVariables;
    AllAvoidAppend(t, SpacingVariables);
    t := t + SpacingVariables;
    AllAvoidAppend(t, TypographyVariables);
    t := t + TypographyVariables;
    AllAvoidAppend(t, BorderRadiusVariables);
    t := t + BorderRadiusVariables;
    AllAvoidAppend(t, ShadowsVariables);
    t := t + ShadowsVariables;
    AllAvoidAppend(t, TransitionsVariables);
    t := t + TransitionsVariables;
    AllAvoidAppend(t, ZIndexVariables);
    t := t + ZIndexVariables;
    assert t == VariablePaths;
  }

  /** One step down a property path. */
  lemma LookupStep(t: Token, path: seq<string>, c: Token)
    requires |path| > 0 && t.Group? && Child(t.entries, path[0]) == Some(c)
    ensures Lookup(t, path) == Lookup(c, path[1..])
  {
  }

  /** `--color-primary` is written first, with the primary colour. */
  lemma ColorPrimaryFirst()
    ensures Variables()[0] == ("--color-primary", "#2563eb")
  {
    assert VariablePaths[0] == ColorsVariables[0];
    LookupStep(DesignTokens, ["colors", "primary"], ColorsTokens);
    LookupStep(ColorsTokens, ["primary"], Value("#2563eb"));
  }

  /** `--spacing-2xl` is 3rem. */
  lemma Spacing2xl()
    ensures Variables()[16] == ("--spacing-2xl", "3rem")
  {
    assert VariablePaths[16] == SpacingVariables[5];
    assert Child(DesignTokens.entries, "spacing") == Child(DesignTokens.entries[1..], "spacing");
    LookupStep(DesignTokens, ["spacing", "2xl"], SpacingTokens);
    LookupStep(SpacingTokens, ["2xl"], Value("3rem"));
  }

}
