/**
 * The card-style helpers of the editor: the named box shadows, the text
 * styles of the six card elements, and the entry animation. Output is
 * structured (rules and declarations) rather than CSS text.
 */
module CardStyles {
  import opened Wrappers
  import Text
  import opened Values

  // ---------------------------------------------------------------------------
  // getShadowValue

  /** The named shadows. */
  const Shadows: map<string, string> := map[
    "none" := "none",
    "sm" := "0 1px 2px rgba(0, 0, 0, 0.05)",
    "md" := "0 4px 6px rgba(0, 0, 0, 0.1)",
    "lg" := "0 10px 15px rgba(0, 0, 0, 0.1)",
    "xl" := "0 20px 25px rgba(0, 0, 0, 0.15)"]

  /**
   * `getShadowValue`: a named shadow gives its value; anything else, a
   * missing name or raw CSS included, gives the `md` shadow.
   */
  function ShadowValue(shadow: Option<string>): (r: string)
    ensures r in Shadows.Values && r != []
    ensures shadow.Some? && shadow.value in Shadows ==> r == Shadows[shadow.value]
    ensures !(shadow.Some? && shadow.value in Shadows) ==> r == Shadows["md"]
  {
    if shadow.Some? && shadow.value in Shadows then Shadows[shadow.value] else Shadows["md"]
  }

  /** Only the five names change the result: every other input means `md`. */
  lemma ShadowFallsBackToMedium(shadow: Option<string>)
    requires shadow.Some? ==> shadow.value != "none" && shadow.value != "sm" && shadow.value != "lg" && shadow.value != "xl"
    ensures ShadowValue(shadow) == ShadowValue(Some("md"))
  {
  }

  // ---------------------------------------------------------------------------
  // generateTextStylesCSS

  /** One text style; `None` is a property the style object does not have. */
  datatype TextStyle = TextStyle(
    fontSize: Option<Value>,
    fontWeight: Option<Value>,
    color: Option<Value>,
    lineHeight: Option<Value>,
    letterSpacing: Option<Value>,
    textAlign: Option<Value>,
    textTransform: Option<Value>)

  /** The `textStyles` object: element name to style, `None` for a falsy entry. */
  type TextStyles = seq<(string, Option<TextStyle>)>

  datatype Decl = Decl(property: string, value: string)

  datatype TextRule = TextRule(selector: string, decls: seq<Decl>)

  /** The handled elements and their selectors, in emission order. */
  const StyleSelectors: seq<(string, string)> := [
    ("title", ".card h3"),
    ("subtitle", ".card .subtitle"),
    ("description", ".card p"),
    ("price", ".card .price"),
    ("badge", ".card .badge"),
    ("button", ".card button")]

  /** The property is there and truthy. */
  predicate Present(v: Option<Value>) {
    v.Some? && Truthy(v.value)
  }

  /** `textStyles[styleType]` when it is a style object. */
  function StyleOf(styles: TextStyles, key: string): Option<TextStyle> {
    if styles == [] then None
    else if styles[0].0 == key then styles[0].1
    else StyleOf(styles[1..], key)
  }

  /** `ds` with `d` appended when `emit` holds. */
  function EmitIf(ds: seq<Decl>, emit: bool, d: Decl): (r: seq<Decl>)
    ensures emit ==> r == ds + [d]
    ensures !emit ==> r == ds
  {
    if emit then ds + [d] else ds
  }

  /**
   * The declarations of one style: each property when truthy, except
   * `letter-spacing`, which is emitted whenever it is defined (so `0` gives
   * `0px`).
   */
  function StyleDecls(st: TextStyle): seq<Decl> {
    var d1 := EmitIf([], Present(st.fontSize), Decl("font-size", ToText(st.fontSize.GetOr(Null)) + "px"));
    var d2 := EmitIf(d1, Present(st.fontWeight), Decl("font-weight", ToText(st.fontWeight.GetOr(Null))));
    var d3 := EmitIf(d2, Present(st.color), Decl("color", ToText(st.color.GetOr(Null))));
    var d4 := EmitIf(d3, Present(st.lineHeight), Decl("line-height", ToText(st.lineHeight.GetOr(Null))));
    var d5 := EmitIf(d4, st.letterSpacing.Some?, Decl("letter-spacing", ToText(st.letterSpacing.GetOr(Null)) + "px"));
    var d6 := EmitIf(d5, Present(st.textAlign), Decl("text-align", ToText(st.textAlign.GetOr(Null))));
    EmitIf(d6, Present(st.textTransform), Decl("text-transform", ToText(st.textTransform.GetOr(Null))))
  }

  /** `ds` sets `property`. */
  predicate Declares(ds: seq<Decl>, property: string) {
    exists i :: 0 <= i < |ds| && ds[i].property == property
  }

  lemma EmitIfDeclares(ds: seq<Decl>, emit: bool, d: Decl, p: string)
    ensures Declares(EmitIf(ds, emit, d), p) <==> Declares(ds, p) || (emit && d.property == p)
  {
    var r := EmitIf(ds, emit, d);
    if emit {
      assert r[|ds|] == d;
      if Declares(r, p) && !Declares(ds, p) {
        var i :| 0 <= i < |r| && r[i].property == p;
        if i < |ds| {
          assert r[i] == ds[i];
        }
      }
      if Declares(ds, p) {
        var i :| 0 <= i < |ds| && ds[i].property == p;
        assert r[i] == ds[i];
      }
    }
  }

  /**
   * Which declarations a style produces: `letter-spacing` exactly when the
   * property is defined, whatever its value; the six other properties
   * exactly when their values are truthy; nothing else.
   */
  lemma StyleDeclsPresence(st: TextStyle, p: string)
    ensures Declares(StyleDecls(st), p) <==>
      || (p == "font-size" && Present(st.fontSize))
      || (p == "font-weight" && Present(st.fontWeight))
      || (p == "color" && Present(st.color))
      || (p == "line-height" && Present(st.lineHeight))
      || (p == "letter-spacing" && st.letterSpacing.Some?)
      || (p == "text-align" && Present(st.textAlign))
      || (p == "text-transform" && Present(st.textTransform))
  {
    var d1 := EmitIf([], Present(st.fontSize), Decl("font-size", ToText(st.fontSize.GetOr(Null)) + "px"));
    EmitIfDeclares([], Present(st.fontSize), Decl("font-size", ToText(st.fontSize.GetOr(Null)) + "px"), p);
    var d2 := EmitIf(d1, Present(st.fontWeight), Decl("font-weight", ToText(st.fontWeight.GetOr(Null))));
    EmitIfDeclares(d1, Present(st.fontWeight), Decl("font-weight", ToText(st.fontWeight.GetOr(Null))), p);
    var d3 := EmitIf(d2, Present(st.color), Decl("color", ToText(st.color.GetOr(Null))));
    EmitIfDeclares(d2, Present(st.color), Decl("color", ToText(st.color.GetOr(Null))), p);
    var d4 := EmitIf(d3, Present(st.lineHeight), Decl("line-height", ToText(st.lineHeight.GetOr(Null))));
    EmitIfDeclares(d3, Present(st.lineHeight), Decl("line-height", ToText(st.lineHeight.GetOr(Null))), p);
    var d5 := EmitIf(d4, st.letterSpacing.Some?, Decl("letter-spacing", ToText(st.letterSpacing.GetOr(Null)) + "px"));
    EmitIfDeclares(d4, st.letterSpacing.Some?, Decl("letter-spacing", ToText(st.letterSpacing.GetOr(Null)) + "px"), p);
    var d6 := EmitIf(d5, Present(st.textAlign), Decl("text-align", ToText(st.textAlign.GetOr(Null))));
    EmitIfDeclares(d5, Present(st.textAlign), Decl("text-align", ToText(st.textAlign.GetOr(Null))), p);
    EmitIfDeclares(d6, Present(st.textTransform), Decl("text-transform", ToText(st.textTransform.GetOr(Null))), p);
  }

  /** The rules for the first `n` handled elements, skipping those without a style; `decls` gives a style's declarations. */
  function RulesFor(styles: TextStyles, sels: seq<(string, string)>, decls: TextStyle -> seq<Decl>, n: nat): seq<TextRule>
    requires n <= |sels|
  {
    if n == 0 then []
    else
      var prev := RulesFor(styles, sels, decls, n - 1);
      match StyleOf(styles, sels[n - 1].0)
      case None => prev
      case Some(st) => prev + [TextRule(sels[n - 1].1, decls(st))]
  }

  /** What `generateTextStylesCSS` emits; nothing for a missing or empty `textStyles`. */
  function TextStylesCSS(styles: Option<TextStyles>): seq<TextRule> {
    if styles.None? || styles.value == [] then [] else RulesFor(styles.value, StyleSelectors, StyleDecls, |StyleSelectors|)
  }

  /** The indices of the handled elements among the first `n` that have a style. */
  function StyledIndices(styles: TextStyles, sels: seq<(string, string)>, n: nat): seq<nat>
    requires n <= |sels|
  {
    if n == 0 then []
    else if StyleOf(styles, sels[n - 1].0).Some? then StyledIndices(styles, sels, n - 1) + [n - 1]
    else StyledIndices(styles, sels, n - 1)
  }

  /** The styled indices are ascending, below `n`, and are exactly the elements that have a style. */
  lemma {:induction false} StyledIndicesShape(styles: TextStyles, sels: seq<(string, string)>, n: nat)
    requires n <= |sels|
    ensures var ix := StyledIndices(styles, sels, n);
      && (forall i :: 0 <= i < |ix| ==> ix[i] < n)
      && (forall i, j :: 0 <= i < j < |ix| ==> ix[i] < ix[j])
      && (forall k :: 0 <= k < n ==> (k in ix <==> StyleOf(styles, sels[k].0).Some?))
  {
    if n > 0 {
      StyledIndicesShape(styles, sels, n - 1);
      var prev := StyledIndices(styles, sels, n - 1);
      if StyleOf(styles, sels[n - 1].0).Some? {
        var ix := prev + [n - 1];
        assert StyledIndices(styles, sels, n) == ix;
        assert n - 1 !in prev;
        forall k | 0 <= k < n - 1 ensures k in ix <==> k in prev {
          assert k != n - 1;
        }
      }
    }
  }

  /**
   * The rules follow the handled elements in their fixed order: there is
   * one rule per styled element, and the `i`-th rule is for the `i`-th
   * styled element, with that element's selector and declarations.
   */
  lemma {:induction false} RulesForShape(styles: TextStyles, sels: seq<(string, string)>, decls: TextStyle -> seq<Decl>, n: nat, i: nat)
    requires n <= |sels|
    ensures |RulesFor(styles, sels, decls, n)| == |StyledIndices(styles, sels, n)|
    ensures i < |StyledIndices(styles, sels, n)| ==>
      var k := StyledIndices(styles, sels, n)[i];
      && k < n
      && StyleOf(styles, sels[k].0).Some?
      && RulesFor(styles, sels, decls, n)[i] == TextRule(sels[k].1, decls(StyleOf(styles, sels[k].0).value))
  {
    if n > 0 {
      RulesForShape(styles, sels, decls, n - 1, i);
      var prev, pix := RulesFor(styles, sels, decls, n - 1), StyledIndices(styles, sels, n - 1);
      var st := StyleOf(styles, sels[n - 1].0);
      if st.Some? {
        var rule := TextRule(sels[n - 1].1, decls(st.value));
        assert RulesFor(styles, sels, decls, n) == prev + [rule];
        assert StyledIndices(styles, sels, n) == pix + [n - 1];
        if i < |pix| {
          assert (prev + [rule])[i] == prev[i];
          assert (pix + [n - 1])[i] == pix[i];
        }
      }
    }
  }

  /** `generateTextStylesCSS`: a loop over the handled elements, appending one rule per styled element. */
  method GenerateTextStylesCSS(styles: Option<TextStyles>) returns (css: seq<TextRule>)
    ensures css == TextStylesCSS(styles)
  {
    if styles.None? || styles.value == [] {
      return [];
    }
    css := [];
    var i := 0;
    while i < |StyleSelectors|
      invariant 0 <= i <= |StyleSelectors|
      invariant css == RulesFor(styles.value, StyleSelectors, StyleDecls, i)
    {
      var style := StyleOf(styles.value, StyleSelectors[i].0);
      if style.Some? {
        var decls := StyleRuleDecls(style.value);
        css := css + [TextRule(StyleSelectors[i].1, decls)];
      }
      i := i + 1;
    }
  }

  /** The body of one rule, declaration by declaration. */
  method StyleRuleDecls(st: TextStyle) returns (ds: seq<Decl>)
    ensures ds == StyleDecls(st)
  {
    ds := [];
    if Present(st.fontSize) {
      ds := ds + [Decl("font-size", ToText(st.fontSize.value) + "px")];
    }
    if Present(st.fontWeight) {
      ds := ds + [Decl("font-weight", ToText(st.fontWeight.value))];
    }
    if Present(st.color) {
      ds := ds + [Decl("color", ToText(st.color.value))];
    }
    if Present(st.lineHeight) {
      ds := ds + [Decl("line-height", ToText(st.lineHeight.value))];
    }
    if st.letterSpacing.Some? {
      ds := ds + [Decl("letter-spacing", ToText(st.letterSpacing.value) + "px")];
    }
    if Present(st.textAlign) {
      ds := ds + [Decl("text-align", ToText(st.textAlign.value))];
    }
    if Present(st.textTransform) {
      ds := ds + [Decl("text-transform", ToText(st.textTransform.value))];
    }
  }

  /** Styles for elements other than the six handled ones (such as `author` or `role`) change nothing. */
  lemma {:induction false} UnhandledStylesIgnored(styles: TextStyles, sels: seq<(string, string)>, decls: TextStyle -> seq<Decl>,
                                                    key: string, st: Option<TextStyle>, n: nat)
    requires n <= |sels|
    requires forall k :: 0 <= k < |sels| ==> sels[k].0 != key
    ensures RulesFor(styles + [(key, st)], sels, decls, n) == RulesFor(styles, sels, decls, n)
  {
    if n > 0 {
      UnhandledStylesIgnored(styles, sels, decls, key, st, n - 1);
      StyleOfAppend(styles, key, st, sels[n - 1].0);
    }
  }

  lemma {:induction false} StyleOfAppend(styles: TextStyles, key: string, st: Option<TextStyle>, other: string)
    requires other != key
    ensures StyleOf(styles + [(key, st)], other) == StyleOf(styles, other)
  {
    if styles != [] {
      assert (styles + [(key, st)])[1..] == styles[1..] + [(key, st)];
      StyleOfAppend(styles[1..], key, st, other);
    }
  }

  // ---------------------------------------------------------------------------
  // generateAnimationCSS

  /** `animation.entry`; `duration` is `None` when absent. */
  datatype EntryAnimation = EntryAnimation(enabled: bool, kind: Option<string>, duration: Option<real>, stagger: bool)

  /** A keyframe table entry: the declarations of the start state, then those of the end state. */
  datatype Keyframes = Keyframes(from: seq<Decl>, to: seq<Decl>)

  /** The entry animations the table knows; any other type (such as `fadeInUp`) has none. */
  function KeyframesOf(kind: string): Option<Keyframes> {
    if kind == "fade" then
      Some(Keyframes([Decl("opacity", "0")], [Decl("opacity", "1")]))
    else if kind == "slideUp" then
      Some(Keyframes([Decl("transform", "translateY(20px)"), Decl("opacity", "0")],
                     [Decl("transform", "translateY(0)"), Decl("opacity", "1")]))
    else if kind == "slideDown" then
      Some(Keyframes([Decl("transform", "translateY(-20px)"), Decl("opacity", "0")],
                     [Decl("transform", "translateY(0)"), Decl("opacity", "1")]))
    else if kind == "slideLeft" then
      Some(Keyframes([Decl("transform", "translateX(20px)"), Decl("opacity", "0")],
                     [Decl("transform", "translateX(0)"), Decl("opacity", "1")]))
    else if kind == "slideRight" then
      Some(Keyframes([Decl("transform", "translateX(-20px)"), Decl("opacity", "0")],
                     [Decl("transform", "translateX(0)"), Decl("opacity", "1")]))
    else if kind == "scale" then
      Some(Keyframes([Decl("transform", "scale(0.9)"), Decl("opacity", "0")],
                     [Decl("transform", "scale(1)"), Decl("opacity", "1")]))
    else None
  }

  function DeclText(d: Decl): string {
    d.property + ": " + d.value
  }

  /** `a: x; b: y;`, the text of a declaration list. */
  function Render(ds: seq<Decl>): string
    requires ds != []
  {
    if |ds| == 1 then DeclText(ds[0]) + ";" else DeclText(ds[0]) + "; " + Render(ds[1..])
  }

  /** The table's string for an entry: all its declarations, start state first. */
  function KeyframeText(k: Keyframes): string
    requires k.from != [] && k.to != []
  {
    Render(k.from + k.to)
  }

  /** The emitted `cardEntry` keyframes and `.card` animation. */
  datatype EntryRule = EntryRule(from: string, to: string, duration: real, delay: real)

  /** `entry.duration || 0.4`. */
  function Duration(entry: EntryAnimation): (d: real)
    ensures d != 0.0
    ensures d != 0.4 ==> entry.duration == Some(d)
    ensures entry.duration.None? || entry.duration == Some(0.0) ==> d == 0.4
    ensures entry.duration.Some? && entry.duration.value != 0.0 ==> d == entry.duration.value
  {
    if entry.duration.Some? && entry.duration.value != 0.0 then entry.duration.value else 0.4
  }

  /** The keyframes an entry animation plays, when animations are on and its type is known. */
  function EntryKeyframes(enabled: bool, entry: EntryAnimation): (r: Option<Keyframes>)
    ensures r.Some? ==> r.value.from != [] && r.value.to != []
    ensures r.Some? <==> enabled && entry.enabled && entry.kind.Some? && KeyframesOf(entry.kind.value).Some?
  {
    if enabled && entry.enabled && entry.kind.Some? && entry.kind.value != [] then KeyframesOf(entry.kind.value) else None
  }

  /**
   * `generateAnimationCSS` as written: the start state is the text before
   * the table string's first `;`, the end state everything after it.
   */
  function AnimationAsWritten(enabled: bool, entry: EntryAnimation): (r: Option<EntryRule>)
    ensures r.Some? <==> EntryKeyframes(enabled, entry).Some?
    ensures r.Some? ==> var t := KeyframeText(EntryKeyframes(enabled, entry).value);
      NoSemicolon(r.value.from) && (t == r.value.from + ";" + r.value.to || (t == r.value.from && r.value.to == []))
    ensures r.Some? ==> r.value.duration == Duration(entry) && (r.value.delay == 0.1 <==> entry.stagger)
  {
    match EntryKeyframes(enabled, entry)
    case None => None
    case Some(k) =>
      var t := KeyframeText(k);
      var parts := Text.Split(t, ';');
      Text.JoinSplit(t, ';');
      assert |parts| >= 2 ==> Text.Join(parts, ";") == parts[0] + ";" + Text.Join(parts[1..], ";");
      Some(EntryRule(parts[0], Text.Join(parts[1..], ";"), Duration(entry), if entry.stagger then 0.1 else 0.0))
  }

  predicate NoSemicolon(s: string) {
    forall j :: 0 <= j < |s| ==> s[j] != ';'
  }

  /**
   * What the split does: the start state is the first declaration alone,
   * and every other declaration, the start state's remaining ones included,
   * lands in the end state.
   */
  lemma AsWrittenSplitsAfterFirstDecl(enabled: bool, entry: EntryAnimation)
    requires EntryKeyframes(enabled, entry).Some?
    requires NoSemicolon(DeclText(EntryKeyframes(enabled, entry).value.from[0]))
    ensures var k := EntryKeyframes(enabled, entry).value; var r := AnimationAsWritten(enabled, entry).value;
      && r.from == DeclText(k.from[0])
      && r.to == " " + Render((k.from + k.to)[1..])
  {
    var k := EntryKeyframes(enabled, entry).value;
    var ds := k.from + k.to;
    assert ds[0] == k.from[0];
    var first := DeclText(ds[0]);
    var rest := " " + Render(ds[1..]);
    assert Render(ds) == first + [';'] + rest;
    Text.SplitAtFirst(first, rest, ';');
    Text.JoinSplit(rest, ';');
  }

  /**
   * The start state as written loses the start opacity of every slide and
   * scale animation: for `slideUp` it sets `transform` only, while the
   * table's start state also sets `opacity: 0`.
   */
  lemma SlideUpStartsOpaque()
    ensures AnimationAsWritten(true, EntryAnimation(true, Some("slideUp"), None, false)).value.from
      == "transform: translateY(20px)"
    ensures KeyframesOf("slideUp").value.from[1] == Decl("opacity", "0")
  {
    var entry := EntryAnimation(true, Some("slideUp"), None, false);
    var first := Decl("transform", "translateY(20px)");
    assert EntryKeyframes(true, entry).value.from[0] == first;
    assert DeclText(first) == "transform: translateY(20px)";
    AsWrittenSplitsAfterFirstDecl(true, entry);
  }

  /** The entry animation with each table entry's start and end states kept apart. */
  function EntryAnimationCSS(enabled: bool, entry: EntryAnimation): (r: Option<EntryRule>)
    ensures r.Some? <==> EntryKeyframes(enabled, entry).Some?
  {
    match EntryKeyframes(enabled, entry)
    case None => None
    case Some(k) => Some(EntryRule(Render(k.from), Render(k.to), Duration(entry), if entry.stagger then 0.1 else 0.0))
  }

  /** Rendering two declaration lists in a row is rendering them joined by a space. */
  lemma {:induction false} RenderAppend(a: seq<Decl>, b: seq<Decl>)
    requires a != [] && b != []
    ensures Render(a + b) == Render(a) + " " + Render(b)
  {
    if |a| > 1 {
      assert (a + b)[1..] == a[1..] + b;
      RenderAppend(a[1..], b);
    } else {
      assert (a + b)[1..] == b;
    }
  }

  /**
   * The corrected split cuts the table's string exactly between the start
   * and end states: the start part is the rendering of the start state's
   * declarations, all of them and no others, the end part that of the end
   * state, and the two rejoin to the table string. For every table entry
   * both states set the same properties.
   */
  lemma EntryAnimationSplitsTable(enabled: bool, entry: EntryAnimation)
    requires EntryKeyframes(enabled, entry).Some?
    ensures var k := EntryKeyframes(enabled, entry).value; var r := EntryAnimationCSS(enabled, entry).value;
      && r.from == Render(k.from) && r.to == Render(k.to)
      && r.from + " " + r.to == KeyframeText(k)
      && |r.from| < |KeyframeText(k)| && r.from == KeyframeText(k)[..|r.from|]
      && (forall p :: Declares(k.from, p) <==> Declares(k.to, p))
  {
    var k := EntryKeyframes(enabled, entry).value;
    RenderAppend(k.from, k.to);
  }

  /**
   * The corrected counterpart of `SlideUpStartsOpaque`: the start state of
   * `slideUp` keeps both its `transform` and its `opacity: 0`.
   */
  lemma SlideUpStartsTransparent()
    ensures EntryAnimationCSS(true, EntryAnimation(true, Some("slideUp"), None, false)).value.from
      == "transform: translateY(20px); opacity: 0;"
  {
    var entry := EntryAnimation(true, Some("slideUp"), None, false);
    var a, b := Decl("transform", "translateY(20px)"), Decl("opacity", "0");
    assert EntryKeyframes(true, entry).value.from == [a, b];
    RenderTwo(a, b);
    SlideUpStartText(a, b);
  }

  /** The text of `slideUp`'s two start declarations. */
  lemma SlideUpStartText(a: Decl, b: Decl)
    requires a == Decl("transform", "translateY(20px)") && b == Decl("opacity", "0")
    ensures DeclText(a) + "; " + DeclText(b) + ";" == "transform: translateY(20px); opacity: 0;"
  {
  }

  /** The text of a two-declaration list. */
  lemma RenderTwo(a: Decl, b: Decl)
    ensures Render([a, b]) == DeclText(a) + "; " + DeclText(b) + ";"
  {
    assert [a, b][1..] == [b];
  }
}
