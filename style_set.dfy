/**
 * Style sets as the editor holds them: an id, a card template with the
 * mapping from template fields to sheet columns, field defaults, and the
 * grid and shadow settings the editor reads.
 */
module Styles {
  import opened Wrappers
  import Text

  /**
   * A style-set id: ids read from style files are strings, ids made up when
   * a file has none are numbers (held by their `String()` form). Two ids are
   * `===` only when both kind and text agree.
   */
  datatype StyleId = NumId(printed: string) | StrId(s: string)

  /** `String(id)`. */
  function IdText(id: StyleId): string {
    match id
    case NumId(p) => p
    case StrId(s) => s
  }

  /** `a === b || String(a) === String(b)`: the loose comparison `applyStyleSet` uses. */
  predicate SameIdLoosely(a: StyleId, b: StyleId) {
    a == b || IdText(a) == IdText(b)
  }

  /** One entry of `dataMapping`: a template field and the sheet columns that may fill it. */
  datatype Field = Field(name: string, candidates: seq<string>)

  /** `dataMapping` in `Object.entries` order. */
  type DataMapping = seq<Field>

  /** `fields[f].default` for each field that has a default string. */
  type FieldDefaults = map<string, string>

  /** `fields?.[f]?.default || ''`. */
  function DefaultOf(fields: FieldDefaults, f: string): (d: string)
    ensures f in fields ==> d == fields[f]
    ensures f !in fields ==> d == []
  {
    if f in fields then fields[f] else []
  }

  datatype Template = Template(html: string, css: string)

  /** The grid block of a style file; `None` and `Some(0)` are both falsy. */
  datatype GridSpec = GridSpec(columns: Option<int>, gap: Option<int>, minWidth: Option<int>, maxWidth: Option<int>)

  datatype StyleSet = StyleSet(
    id: StyleId,
    name: string,
    isNewFormat: bool,
    template: Option<Template>,
    grid: Option<GridSpec>,
    dataMapping: Option<DataMapping>,
    fields: FieldDefaults,
    cardShadow: string)

  /** `styleData.template && (styleData.template.html || styleData.template.css)`, as a truth value. */
  function IsNewFormat(template: Option<Template>): (b: bool)
    ensures b <==> template.Some? && (template.value.html != [] || template.value.css != [])
  {
    match template
    case None => false
    case Some(t) => t.html != [] || t.css != []
  }

  /** The template markup when the style set is in the new format and has non-empty markup. */
  function TemplateHtml(s: StyleSet): (r: Option<string>)
    ensures r.Some? <==> s.isNewFormat && s.template.Some? && s.template.value.html != []
    ensures r.Some? ==> r.value == s.template.value.html
  {
    if s.isNewFormat && s.template.Some? && s.template.value.html != [] then Some(s.template.value.html) else None
  }
}
