/**
 * The grid layout generator: column-width and breakpoint arithmetic, the
 * responsive stylesheets built from them, the card base style, and the
 * preview page that puts cards into a grid.
 *
 * Stylesheets are sequences of structured rules: a media band
 * (`min-width`/`max-width`, each optional), a selector and the declarations
 * the rule sets. Comments and white space of the emitted text are not kept.
 */
module Grid {
  import opened Wrappers
  import Text

  // ---------------------------------------------------------------------------
  // Configuration

  /** A grid configuration after defaults are merged in. */
  datatype GridConfig = GridConfig(
    columns: int, gap: int, minWidth: int, maxWidth: int,
    containerClass: Option<string>)

  /** The configuration object a caller passes; `None` is an omitted key. */
  datatype GridOptions = GridOptions(
    columns: Option<int>, gap: Option<int>, minWidth: Option<int>, maxWidth: Option<int>,
    containerClass: Option<string>)

  const DefaultColumns: int := 3
  const DefaultGap: int := 24
  const DefaultMinWidth: int := 300
  const DefaultMaxWidth: int := 1200
  const DefaultContainer: string := ".grid-container"

  /** `{ ...this.defaultConfig, ...config }`: every omitted key takes its default. */
  function Merge(o: GridOptions): (c: GridConfig)
    ensures o.columns.None? ==> c.columns == 3
    ensures o.gap.None? ==> c.gap == 24
    ensures o.minWidth.None? ==> c.minWidth == 300
    ensures o.maxWidth.None? ==> c.maxWidth == 1200
    ensures o.columns.Some? ==> c.columns == o.columns.value
    ensures o.gap.Some? ==> c.gap == o.gap.value
    ensures o.minWidth.Some? ==> c.minWidth == o.minWidth.value
    ensures o.maxWidth.Some? ==> c.maxWidth == o.maxWidth.value
    ensures c.containerClass == o.containerClass
  {
    GridConfig(
      o.columns.GetOr(DefaultColumns), o.gap.GetOr(DefaultGap),
      o.minWidth.GetOr(DefaultMinWidth), o.maxWidth.GetOr(DefaultMaxWidth),
      o.containerClass)
  }

  /** The options object that gives every key of `c` explicitly. */
  function Explicit(c: GridConfig): GridOptions {
    GridOptions(Some(c.columns), Some(c.gap), Some(c.minWidth), Some(c.maxWidth), c.containerClass)
  }

  /** Merging a configuration that is already complete changes nothing. */
  lemma MergeExplicit(c: GridConfig)
    ensures Merge(Explicit(c)) == c
  {
  }

  // ---------------------------------------------------------------------------
  // Unit math

  datatype GridError = ColumnsBelowOne | NegativeGap

  /** A column width: `100%`, or `calc(<percent>% - <pixels>px)`. */
  datatype Width = Full | Calc(percent: real, pixels: real)

  /**
   * `calculateColumnWidth`: the column-count check comes before the gap
   * check; one column is always `100%`; otherwise `columns` shares of the
   * percentage plus `gap/10` points per gap make up 100%, and the pixel
   * correction is an even share of the total gap.
   */
  function ColumnWidth(columns: int, gap: int): (r: Result<Width, GridError>)
    ensures columns < 1 ==> r == Err(ColumnsBelowOne)
    ensures columns >= 1 && gap < 0 ==> r == Err(NegativeGap)
    ensures columns == 1 && gap >= 0 ==> r == Ok(Full)
    ensures columns >= 2 && gap >= 0 ==> r.Ok? && r.value.Calc?
    ensures r.Ok? && r.value.Calc? ==>
      && r.value.percent * columns as real + (gap * (columns - 1)) as real / 10.0 == 100.0
      && r.value.pixels * columns as real == (gap * (columns - 1)) as real
  {
    if columns < 1 then Err(ColumnsBelowOne)
    else if gap < 0 then Err(NegativeGap)
    else if columns == 1 then Ok(Full)
    else
      var totalGap := (gap * (columns - 1)) as real;
      var remaining := 100.0 - totalGap / 10.0;
      Ok(Calc(remaining / columns as real, totalGap / columns as real))
  }

  /**
   * For two or more columns the percentage never exceeds an even share of
   * 100%, and reaches it exactly when there is no gap; the pixel correction
   * is non-negative and smaller than one gap.
   */
  lemma ColumnWidthBounds(columns: int, gap: int)
    requires columns >= 2 && gap >= 0
    ensures ColumnWidth(columns, gap).Ok? && ColumnWidth(columns, gap).value.Calc?
    ensures ColumnWidth(columns, gap).value.percent <= 100.0 / columns as real
    ensures ColumnWidth(columns, gap).value.percent == 100.0 / columns as real <==> gap == 0
    ensures 0.0 <= ColumnWidth(columns, gap).value.pixels
    ensures gap > 0 ==> ColumnWidth(columns, gap).value.pixels < gap as real
  {
    var w := ColumnWidth(columns, gap).value;
    var n := columns as real;
    var g := gap as real;
    var t := (gap * (columns - 1)) as real;
    assert t == g * (n - 1.0);
    assert w.percent == (100.0 - t / 10.0) / n;
    assert w.pixels == t / n;
    assert 0.0 <= t;
    assert t == 0.0 <==> gap == 0;
    if gap > 0 {
      assert g * (n - 1.0) < g * n;
    }
  }

  /** `calculateBreakpoint`: the width of `columns` cards and the gaps between them; nothing is checked. */
  function Breakpoint(columns: int, gap: int, minWidth: int): (px: int)
    ensures columns == 1 ==> px == minWidth
  {
    columns * minWidth + gap * (columns - 1)
  }

  /** Each extra column adds one card width and one gap. */
  lemma BreakpointStep(columns: int, gap: int, minWidth: int)
    ensures Breakpoint(columns + 1, gap, minWidth) == Breakpoint(columns, gap, minWidth) + minWidth + gap
  {
  }

  /** The breakpoint grows strictly with the column count when a card and a gap take positive room. */
  lemma {:induction false} BreakpointIncreasing(c1: int, c2: int, gap: int, minWidth: int)
    requires minWidth + gap > 0 && c1 < c2
    ensures Breakpoint(c1, gap, minWidth) < Breakpoint(c2, gap, minWidth)
    decreases c2 - c1
  {
    BreakpointStep(c2 - 1, gap, minWidth);
    if c1 < c2 - 1 {
      BreakpointIncreasing(c1, c2 - 1, gap, minWidth);
    }
  }

  // ---------------------------------------------------------------------------
  // Stylesheets

  /** The value of `grid-template-columns`. */
  datatype Tracks =
    | OneFr                                  // 1fr
    | RepeatFr(count: int)                   // repeat(count, 1fr)
    | Repeat(count: int, width: Width)       // repeat(count, width)
    | AutoFit(minWidth: int)                 // repeat(auto-fit, minmax(minWidth px, 1fr))

  datatype Decl =
    | GridBase(gap: int, maxWidth: int)      // display: grid; gap; max-width; width: 100%; margin: 0 auto
    | CenteredPadding(maxWidth: int)         // max-width; padding: 0 calc((100vw - maxWidth px) / 2)
    | Columns(tracks: Tracks)                // grid-template-columns
    | GridColumns(tracks: Tracks, gap: int)  // display: grid; grid-template-columns; gap

  /** `<class>` or `<class>.grid-<n>cols`. */
  datatype Selector = Class(name: string) | ColsVariant(name: string, cols: int)

  /** One rule block, inside `@media (min-width) and (max-width)` when either bound is given. */
  datatype Rule = Rule(minW: Option<int>, maxW: Option<int>, selector: Selector, decl: Decl)

  type Stylesheet = seq<Rule>

  function ContainerOf(c: GridConfig): string {
    c.containerClass.GetOr(DefaultContainer)
  }

  /** The width of `i` columns when `i >= 1` and the gap is valid. */
  function WidthOf(i: int, gap: int): Width
    requires i >= 1 && gap >= 0
  {
    ColumnWidth(i, gap).value
  }

  // ----- generateGridCSS

  /**
   * `generateGridCSS`: a fixed `columns`-wide grid, and below the breakpoint
   * of `columns` cards an auto-fit grid of `minWidth` tracks.
   */
  function GridCSS(o: GridOptions): (r: Result<Stylesheet, GridError>)
    ensures var c := Merge(o);
      r.Err? <==> c.columns < 1 || c.gap < 0
    ensures var c := Merge(o);
      r.Ok? ==> && |r.value| == 2
                && r.value[0] == Rule(None, None, Class(ContainerOf(c)),
                                      GridColumns(Repeat(c.columns, WidthOf(c.columns, c.gap)), c.gap))
                && r.value[1].selector == Class(ContainerOf(c))
                && r.value[1].minW.None?
                && r.value[1].maxW == Some(c.columns * c.minWidth + c.gap * (c.columns - 1))
                && r.value[1].decl == Columns(AutoFit(c.minWidth))
  {
    var c := Merge(o);
    var sel := Class(ContainerOf(c));
    match ColumnWidth(c.columns, c.gap)
    case Err(e) => Err(e)
    case Ok(w) =>
      Ok([ Rule(None, None, sel, GridColumns(Repeat(c.columns, w), c.gap)),
           Rule(None, Some(Breakpoint(c.columns, c.gap, c.minWidth)), sel, Columns(AutoFit(c.minWidth))) ])
  }

  // ----- generateResponsiveGrid

  /** The rule for `i` columns of `generateResponsiveGrid`. */
  function ResponsiveRule(c: GridConfig, i: int): Rule
    requires i >= 1 && c.gap >= 0
  {
    Rule(Some(Breakpoint(i, c.gap, c.minWidth)), None, ColsVariant(ContainerOf(c), i),
         Columns(Repeat(i, WidthOf(i, c.gap))))
  }

  /** The rules for 1..n columns, in that order. */
  function ResponsiveRules(c: GridConfig, n: nat): (rules: Stylesheet)
    requires c.gap >= 0
    ensures |rules| == n && forall k :: 0 <= k < n ==> rules[k] == ResponsiveRule(c, k + 1)
  {
    seq(n, k requires 0 <= k < n => ResponsiveRule(c, k + 1))
  }

  /** What `generateResponsiveGrid` produces: one rule per column count 1..columns. */
  function ResponsiveGrid(c: GridConfig): Result<Stylesheet, GridError> {
    if c.columns >= 1 && c.gap < 0 then Err(NegativeGap)
    else if c.columns < 1 then Ok([])
    else Ok(ResponsiveRules(c, c.columns))
  }

  /** `generateResponsiveGrid`: the loop over i = 1..columns, pushing one rule per step. */
  method GenerateResponsiveGrid(o: GridOptions) returns (r: Result<Stylesheet, GridError>)
    ensures r == ResponsiveGrid(Merge(o))
  {
    var c := Merge(o);
    var styles: Stylesheet := [];
    var i := 1;
    while i <= c.columns
      invariant 1 <= i && (c.columns >= 1 ==> i <= c.columns + 1) && (c.columns < 1 ==> i == 1)
      invariant i > 1 ==> c.gap >= 0
      invariant |styles| == i - 1
      invariant forall k :: 0 <= k < i - 1 ==> styles[k] == ResponsiveRule(c, k + 1)
    {
      var w := ColumnWidth(i, c.gap);
      if w.Err? {
        return Err(w.error);
      }
      var bp := Breakpoint(i, c.gap, c.minWidth);
      styles := styles + [Rule(Some(bp), None, ColsVariant(ContainerOf(c), i), Columns(Repeat(i, w.value)))];
      i := i + 1;
    }
    if c.columns >= 1 {
      assert styles == ResponsiveRules(c, c.columns);
    }
    return Ok(styles);
  }

  /**
   * The responsive grid has exactly `columns` rules, the k-th for k+1
   * columns, each unbounded above, with strictly ascending `min-width`
   * breakpoints when a card and a gap take positive room.
   */
  lemma ResponsiveGridShape(c: GridConfig)
    requires c.gap >= 0
    ensures ResponsiveGrid(c).Ok?
    ensures |ResponsiveGrid(c).value| == if c.columns < 1 then 0 else c.columns
    ensures forall k :: 0 <= k < |ResponsiveGrid(c).value| ==>
      var rule := ResponsiveGrid(c).value[k];
      rule.maxW.None? && rule.decl.Columns? && rule.decl.tracks.Repeat? && rule.decl.tracks.count == k + 1
    ensures c.minWidth + c.gap > 0 ==>
      forall k1, k2 :: 0 <= k1 < k2 < |ResponsiveGrid(c).value| ==>
        ResponsiveGrid(c).value[k1].minW.value < ResponsiveGrid(c).value[k2].minW.value
  {
    var rules := ResponsiveGrid(c).value;
    if c.minWidth + c.gap > 0 {
      forall k1, k2 | 0 <= k1 < k2 < |rules|
        ensures rules[k1].minW.value < rules[k2].minW.value
      {
        BreakpointIncreasing(k1 + 1, k2 + 1, c.gap, c.minWidth);
      }
    }
  }

  // ----- generateFullGridCSS

  /** The four rules emitted before the column tiers, whatever the column count. */
  function FixedBands(c: GridConfig): Stylesheet {
    var sel := Class(ContainerOf(c));
    [ Rule(None, None, sel, GridBase(c.gap, c.maxWidth)),
      Rule(Some(c.maxWidth + 1), None, sel, CenteredPadding(c.maxWidth)),
      Rule(None, Some(599), sel, Columns(OneFr)),
      Rule(Some(600), Some(1023), sel, Columns(RepeatFr(3))) ]
  }

  /** The tier column counts 2..n in ascending order, without 3 (the tablet band's count). */
  function Tiers(n: int): (ts: seq<int>)
    decreases n
  {
    if n < 2 then [] else Tiers(n - 1) + (if n == 3 then [] else [n])
  }

  /**
   * The tiers are exactly the counts 2..n other than 3, strictly ascending;
   * so the last tier is n exactly when n is 2 or more and not 3.
   */
  lemma {:induction false} TiersSpec(n: int)
    ensures forall k :: 0 <= k < |Tiers(n)| ==> 2 <= Tiers(n)[k] <= n && Tiers(n)[k] != 3
    ensures forall k1, k2 :: 0 <= k1 < k2 < |Tiers(n)| ==> Tiers(n)[k1] < Tiers(n)[k2]
    ensures forall i :: 2 <= i <= n && i != 3 ==> i in Tiers(n)
    ensures |Tiers(n)| == if n < 2 then 0 else if n == 2 then 1 else n - 2
    ensures |Tiers(n)| > 0 ==> (Tiers(n)[|Tiers(n)| - 1] == n <==> n != 3)
    decreases n
  {
    if n >= 2 {
      TiersSpec(n - 1);
      var ts := Tiers(n);
      var prev := Tiers(n - 1);
      assert ts == prev + (if n == 3 then [] else [n]);
      forall i | 2 <= i <= n && i != 3 ensures i in ts {
        if i < n {
          assert i in prev;
        } else {
          assert ts[|ts| - 1] == n;
        }
      }
    }
  }

  /** The tier rule for `i` columns: the desktop band when `i` is the configured count. */
  function TierRule(c: GridConfig, i: int): Rule
    requires i >= 2 && c.gap >= 0
  {
    var sel := Class(ContainerOf(c));
    var tracks := Columns(Repeat(i, WidthOf(i, c.gap)));
    if i == c.columns then Rule(Some(1024), None, sel, tracks)
    else Rule(Some(Breakpoint(i - 1, c.gap, c.minWidth) + 1), Some(Breakpoint(i, c.gap, c.minWidth)), sel, tracks)
  }

  /** The tier rules for the tiers of `n`, built the way the loop builds them. */
  function TierRules(c: GridConfig, n: int): Stylesheet
    requires c.gap >= 0
    decreases n
  {
    if n < 2 then [] else TierRules(c, n - 1) + (if n == 3 then [] else [TierRule(c, n)])
  }

  /** The k-th tier rule is the rule for the k-th tier. */
  lemma {:induction false} TierRulesFollowTiers(c: GridConfig, n: int)
    requires c.gap >= 0
    ensures |TierRules(c, n)| == |Tiers(n)|
    ensures forall k :: 0 <= k < |Tiers(n)| ==> Tiers(n)[k] >= 2 && TierRules(c, n)[k] == TierRule(c, Tiers(n)[k])
    decreases n
  {
    TiersSpec(n);
    if n >= 2 {
      TierRulesFollowTiers(c, n - 1);
    }
  }

  /**
   * What `generateFullGridCSS` produces: the fixed bands, then the tier
   * rules; a negative gap fails as soon as a tier's width is computed,
   * which happens exactly when there are two or more columns.
   */
  function FullGrid(c: GridConfig): Result<Stylesheet, GridError> {
    if c.columns >= 2 && c.gap < 0 then Err(NegativeGap)
    else Ok(FixedBands(c) + (if c.columns < 2 then [] else TierRules(c, c.columns)))
  }

  /** `generateFullGridCSS`: the fixed bands, then the loop over i = 2..columns skipping 3. */
  method GenerateFullGridCSS(o: GridOptions) returns (r: Result<Stylesheet, GridError>)
    ensures r == FullGrid(Merge(o))
  {
    var c := Merge(o);
    var sel := Class(ContainerOf(c));
    var css := FixedBands(c);
    var i := 2;
    while i <= c.columns
      invariant 2 <= i && (c.columns >= 2 ==> i <= c.columns + 1) && (c.columns < 2 ==> i == 2)
      invariant i > 2 ==> c.gap >= 0
      invariant i > 2 ==> css == FixedBands(c) + TierRules(c, i - 1)
      invariant i == 2 ==> css == FixedBands(c)
    {
      if i == 3 {
        i := i + 1;
        continue;
      }
      var w := ColumnWidth(i, c.gap);
      if w.Err? {
        return Err(w.error);
      }
      var minBreakpoint := Breakpoint(i - 1, c.gap, c.minWidth) + 1;
      var maxBreakpoint := Breakpoint(i, c.gap, c.minWidth);
      var rule;
      if i == c.columns {
        rule := Rule(Some(1024), None, sel, Columns(Repeat(i, w.value)));
      } else {
        rule := Rule(Some(minBreakpoint), Some(maxBreakpoint), sel, Columns(Repeat(i, w.value)));
      }
      css := css + [rule];
      i := i + 1;
    }
    if c.columns < 2 {
      assert css == FixedBands(c) + [];
    }
    return Ok(css);
  }

  /**
   * The fixed part of the full stylesheet: base, oversize from maxWidth+1,
   * mobile up to 599px with one column, tablet 600-1023px with exactly 3
   * columns; then one rule per tier.
   */
  lemma FullGridFixedBands(c: GridConfig)
    requires FullGrid(c).Ok?
    ensures var rules := FullGrid(c).value;
      && |rules| == 4 + |Tiers(c.columns)|
      && rules[0] == Rule(None, None, Class(ContainerOf(c)), GridBase(c.gap, c.maxWidth))
      && rules[1] == Rule(Some(c.maxWidth + 1), None, Class(ContainerOf(c)), CenteredPadding(c.maxWidth))
      && rules[2] == Rule(None, Some(599), Class(ContainerOf(c)), Columns(OneFr))
      && rules[3] == Rule(Some(600), Some(1023), Class(ContainerOf(c)), Columns(RepeatFr(3)))
  {
    TiersSpec(c.columns);
    if c.columns >= 2 {
      TierRulesFollowTiers(c, c.columns);
    }
  }

  /**
   * Rule 4 + k is the tier rule for the k-th tier: `columns` columns from
   * 1024px up when the tier is the configured count, otherwise the band
   * [bp(i-1)+1, bp(i)].
   */
  lemma FullGridTier(c: GridConfig, k: nat)
    requires FullGrid(c).Ok? && k < |Tiers(c.columns)|
    ensures c.gap >= 0 && 4 + k < |FullGrid(c).value|
    ensures var i := Tiers(c.columns)[k];
      && 2 <= i <= c.columns && i != 3
      && FullGrid(c).value[4 + k] == TierRule(c, i)
  {
    TiersSpec(c.columns);
    TierRulesFollowTiers(c, c.columns);
  }

  /**
   * A tier rule from 1024px up with no upper bound (the desktop band) exists
   * exactly when columns is 2 or more and not 3, and it is then the last rule.
   */
  lemma FullGridDesktop(c: GridConfig)
    requires FullGrid(c).Ok?
    ensures var rules := FullGrid(c).value;
      (exists k :: 4 <= k < |rules| && rules[k].minW == Some(1024) && rules[k].maxW.None?)
      <==> c.columns >= 2 && c.columns != 3
    ensures var rules := FullGrid(c).value;
      c.columns >= 2 && c.columns != 3 ==>
        rules[|rules| - 1] == Rule(Some(1024), None, Class(ContainerOf(c)),
                                   Columns(Repeat(c.columns, WidthOf(c.columns, c.gap))))
  {
    TiersSpec(c.columns);
    FullGridFixedBands(c);
    var rules := FullGrid(c).value;
    var ts := Tiers(c.columns);
    if c.columns >= 2 && c.columns != 3 {
      FullGridTier(c, |ts| - 1);
      assert rules[|rules| - 1].minW == Some(1024);
    } else {
      forall k | 4 <= k < |rules| ensures !(rules[k].minW == Some(1024) && rules[k].maxW.None?) {
        FullGridTier(c, k - 4);
      }
    }
  }

  /**
   * With positive card-plus-gap room, every bounded tier band is non-empty,
   * and each tier rule ends below where the next bounded one starts.
   */
  lemma FullGridBandsAscend(c: GridConfig, k: nat)
    requires FullGrid(c).Ok? && c.minWidth + c.gap > 0 && 4 <= k < |FullGrid(c).value|
    ensures var rules := FullGrid(c).value;
      rules[k].minW.Some? && (rules[k].maxW.Some? ==> rules[k].minW.value <= rules[k].maxW.value)
    ensures var rules := FullGrid(c).value;
      k + 1 < |rules| && rules[k + 1].maxW.Some? ==>
        && rules[k].maxW.Some? && rules[k + 1].minW.Some?
        && rules[k].maxW.value < rules[k + 1].minW.value
  {
    FullGridFixedBands(c);
    TiersSpec(c.columns);
    var ts := Tiers(c.columns);
    FullGridTier(c, k - 4);
    var i := ts[k - 4];
    BreakpointStep(i - 1, c.gap, c.minWidth);
    if k + 1 < |FullGrid(c).value| {
      FullGridTier(c, k - 3);
      var j := ts[k - 3];
      assert i < j <= c.columns;
      if i < j - 1 {
        BreakpointIncreasing(i, j - 1, c.gap, c.minWidth);
      }
    }
  }

  // ---------------------------------------------------------------------------
  // generateCardCSS

  /** The six custom properties the card base style reads. */
  datatype CardStyle = CardStyle(bg: string, text: string, border: string, shadow: string, radius: string, padding: string)

  const CardVariableNames: set<string> :=
    {"--card-bg", "--card-text", "--card-border", "--card-shadow", "--card-radius", "--card-padding"}

  function Lookup(vars: map<string, string>, name: string, default: string): string {
    if name in vars then vars[name] else default
  }

  /**
   * `generateCardCSS`: each variable the caller gives overrides its default;
   * the rest of the card rule set is fixed text.
   */
  function CardCSS(vars: map<string, string>): (s: CardStyle)
    ensures s.bg == (if "--card-bg" in vars then vars["--card-bg"] else "#ffffff")
    ensures s.text == (if "--card-text" in vars then vars["--card-text"] else "#1f2937")
    ensures s.border == (if "--card-border" in vars then vars["--card-border"] else "#e5e7eb")
    ensures s.shadow == (if "--card-shadow" in vars then vars["--card-shadow"] else "0 4px 6px -1px rgba(0, 0, 0, 0.1)")
    ensures s.radius == (if "--card-radius" in vars then vars["--card-radius"] else "12px")
    ensures s.padding == (if "--card-padding" in vars then vars["--card-padding"] else "1.5rem")
  {
    CardStyle(
      Lookup(vars, "--card-bg", "#ffffff"),
      Lookup(vars, "--card-text", "#1f2937"),
      Lookup(vars, "--card-border", "#e5e7eb"),
      Lookup(vars, "--card-shadow", "0 4px 6px -1px rgba(0, 0, 0, 0.1)"),
      Lookup(vars, "--card-radius", "12px"),
      Lookup(vars, "--card-padding", "1.5rem"))
  }

  /** Variables other than the six card properties have no effect. */
  lemma CardCSSIgnoresOthers(vars: map<string, string>)
    ensures CardCSS(vars) == CardCSS(map k | k in vars && k in CardVariableNames :: vars[k])
  {
  }

  // ---------------------------------------------------------------------------
  // previewGrid

  /** An item handed to the preview; `None` fields are missing keys. */
  datatype PreviewItem = PreviewItem(title: Option<string>, description: Option<string>,
                                     cover: Option<string>, tags: Option<string>)

  /** One rendered card: the cover image (src, alt), heading, description and tag list, each when present. */
  datatype PreviewCard = PreviewCard(cover: Option<(string, string)>, title: string,
                                     description: Option<string>, tags: Option<seq<string>>)

  datatype PreviewPage = PreviewPage(containerClass: string, cards: seq<PreviewCard>,
                                     grid: Stylesheet, card: CardStyle)

  function Truthy(s: Option<string>): bool { s.Some? && s.value != [] }

  /** `${item.title}`: a missing title prints as `undefined`. */
  function TitleText(t: Option<string>): string { t.GetOr("undefined") }

  /** The i-th item, or the placeholder `Card <i+1>` when the slot is empty or missing. */
  function ItemAt(items: seq<Option<PreviewItem>>, i: nat): PreviewItem {
    if i < |items| && items[i].Some? then items[i].value
    else PreviewItem(Some("Card " + Text.NatText(i + 1)), Some("Sample description"), None, None)
  }

  function CardOf(item: PreviewItem): PreviewCard {
    PreviewCard(
      if Truthy(item.cover) then Some((item.cover.value, TitleText(item.title))) else None,
      TitleText(item.title),
      if Truthy(item.description) then item.description else None,
      if Truthy(item.tags) then Some(TrimAll(Text.Split(item.tags.value, ','))) else None)
  }

  function TrimAll(parts: seq<string>): (r: seq<string>)
    ensures |r| == |parts| && forall k :: 0 <= k < |parts| ==> r[k] == Text.Trim(parts[k])
  {
    seq(|parts|, k requires 0 <= k < |parts| => Text.Trim(parts[k]))
  }

  function Max(a: int, b: int): int { if a < b then b else a }

  /** The first `n` cards: item i, or its placeholder. */
  function PreviewCards(items: seq<Option<PreviewItem>>, n: nat): (cards: seq<PreviewCard>)
    ensures |cards| == n && forall i :: 0 <= i < n ==> cards[i] == CardOf(ItemAt(items, i))
  {
    seq(n, i requires 0 <= i < n => CardOf(ItemAt(items, i)))
  }

  /**
   * What `previewGrid` produces: at least six cards, one per item; it fails
   * exactly when the configured column width cannot be computed.
   */
  function Preview(o: GridOptions, items: seq<Option<PreviewItem>>): Result<PreviewPage, GridError> {
    var c := Merge(o);
    match ColumnWidth(c.columns, c.gap)
    case Err(e) => Err(e)
    case Ok(_) =>
      Ok(PreviewPage(c.containerClass.GetOr("grid-container"),
                     PreviewCards(items, Max(|items|, 6)),
                     FullGrid(c).value, CardCSS(map[])))
  }

  /** `previewGrid`: checks the column width, then renders max(items.length, 6) cards in a loop. */
  method PreviewGrid(o: GridOptions, items: seq<Option<PreviewItem>>) returns (r: Result<PreviewPage, GridError>)
    ensures r == Preview(o, items)
  {
    var c := Merge(o);
    var w := ColumnWidth(c.columns, c.gap);
    if w.Err? {
      return Err(w.error);
    }
    var n := Max(|items|, 6);
    var cards: seq<PreviewCard> := [];
    var i := 0;
    while i < n
      invariant 0 <= i <= n
      invariant cards == PreviewCards(items, i)
    {
      var item := ItemAt(items, i);
      cards := cards + [CardOf(item)];
      i := i + 1;
    }
    var grid := GenerateFullGridCSS(Explicit(c));
    MergeExplicit(c);
    return Ok(PreviewPage(c.containerClass.GetOr("grid-container"), cards, grid.value, CardCSS(map[])));
  }

  /**
   * The preview renders max(items.length, 6) cards: the given items first,
   * then numbered placeholders; a missing item's slot is a placeholder too.
   */
  lemma PreviewCardCount(o: GridOptions, items: seq<Option<PreviewItem>>, i: nat)
    requires Preview(o, items).Ok?
    ensures |Preview(o, items).value.cards| == Max(|items|, 6) >= 6
    ensures i < |items| && items[i].Some? ==>
      Preview(o, items).value.cards[i] == CardOf(items[i].value)
    ensures (|items| <= i < 6) || (i < |items| && items[i].None?) ==>
      Preview(o, items).value.cards[i].title == "Card " + Text.NatText(i + 1)
  {
  }
}
