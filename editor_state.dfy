/**
 * The drag-reorder of the section list: `splice(oldIndex, 1)` followed by
 * `splice(newIndex, 0, item)`, stated on any sequence.
 */
module Reorder {

  /** `s` without the element at `i`. */
  function Removed<T>(s: seq<T>, i: int): (r: seq<T>)
    requires 0 <= i < |s|
    ensures |r| == |s| - 1
    ensures forall k :: 0 <= k < i ==> r[k] == s[k]
    ensures forall k :: i <= k < |r| ==> r[k] == s[k + 1]
  {
    s[..i] + s[i + 1..]
  }

  /** `s` with `x` inserted before position `j`. */
  function Inserted<T>(s: seq<T>, j: int, x: T): (r: seq<T>)
    requires 0 <= j <= |s|
    ensures |r| == |s| + 1 && r[j] == x
    ensures forall k :: 0 <= k < j ==> r[k] == s[k]
    ensures forall k :: j < k < |r| ==> r[k] == s[k - 1]
  {
    s[..j] + [x] + s[j..]
  }

  /** The item at `i` taken out and put back at `j`. */
  function Moved<T>(s: seq<T>, i: int, j: int): seq<T>
    requires 0 <= i < |s| && 0 <= j < |s|
  {
    Inserted(Removed(s, i), j, s[i])
  }

  /** Removing what was just inserted gives the sequence back. */
  lemma RemoveInserted<T>(s: seq<T>, j: int, x: T)
    requires 0 <= j <= |s|
    ensures Removed(Inserted(s, j, x), j) == s
  {
    var t := Removed(Inserted(s, j, x), j);
    assert |t| == |s|;
    forall k | 0 <= k < |s|
      ensures t[k] == s[k]
    {
      if k >= j {
        assert t[k] == Inserted(s, j, x)[k + 1];
      }
    }
  }

  /** Putting an element back where it was taken from gives the sequence back. */
  lemma InsertRemoved<T>(s: seq<T>, i: int)
    requires 0 <= i < |s|
    ensures Inserted(Removed(s, i), i, s[i]) == s
  {
    var t := Inserted(Removed(s, i), i, s[i]);
    assert |t| == |s|;
    forall k | 0 <= k < |s|
      ensures t[k] == s[k]
    {
      if k > i {
        assert t[k] == Removed(s, i)[k - 1];
      }
    }
  }

  /** The moved item lands at `j`, and the others keep their relative order. */
  lemma MovedPlacesItem<T>(s: seq<T>, i: int, j: int)
    requires 0 <= i < |s| && 0 <= j < |s|
    ensures |Moved(s, i, j)| == |s|
    ensures Moved(s, i, j)[j] == s[i]
    ensures Removed(Moved(s, i, j), j) == Removed(s, i)
  {
    RemoveInserted(Removed(s, i), j, s[i]);
  }

  /** A move is a permutation. */
  lemma MovedPermutes<T>(s: seq<T>, i: int, j: int)
    requires 0 <= i < |s| && 0 <= j < |s|
    ensures multiset(Moved(s, i, j)) == multiset(s)
  {
    var r := Removed(s, i);
    assert s == s[..i] + [s[i]] + s[i + 1..];
    assert r == s[..i] + s[i + 1..];
    assert multiset(s) == multiset(r) + multiset{s[i]};
    assert Moved(s, i, j) == r[..j] + [s[i]] + r[j..];
    assert r == r[..j] + r[j..];
    assert multiset(r) == multiset(r[..j]) + multiset(r[j..]);
  }

  /** Dragging the item back from `j` to `i` undoes the move. */
  lemma MovedBack<T>(s: seq<T>, i: int, j: int)
    requires 0 <= i < |s| && 0 <= j < |s|
    ensures |Moved(s, i, j)| == |s| && Moved(Moved(s, i, j), j, i) == s
  {
    MovedPlacesItem(s, i, j);
    InsertRemoved(s, i);
  }
}

/**
 * The editor's state operations on its section list and its style sets.
 * Sections are objects: the editor keeps a reference to the selected one,
 * and updates reach it through either path. In the operations modelled
 * here, style sets are only ever replaced, never updated in place.
 */
module Editor {
  import opened Wrappers
  import Text
  import opened Styles
  import Reorder

  /** The editor's `gridConfig`. */
  datatype EditorGrid = EditorGrid(columns: int, gap: int, minWidth: int, maxWidth: int)

  datatype Padding = Padding(top: int, bottom: int, left: int, right: int)

  /** What a section shows: markup added by `addSection`, or an embedded Tally form. */
  datatype SectionKind =
    | Content(name: string, content: string, className: string)
    | Tally(url: string, width: int, padding: Padding)

  /**
   * A section. A property the source never set (`undefined`) is `false` for
   * the flags and `None` for the grid settings.
   */
  class Section {
    const id: int
    const kind: SectionKind
    var visible: bool
    var gridEnabled: bool
    var gridColumns: Option<int>
    var gridGap: Option<int>
    var gridMinWidth: Option<int>
    var gridMaxWidth: Option<int>
    var styleApplied: bool
    var styleSetId: Option<StyleId>

    constructor(id: int, kind: SectionKind, visible: bool, gridColumns: Option<int>)
      ensures this.id == id && this.kind == kind && this.visible == visible && this.gridColumns == gridColumns
      ensures !gridEnabled && gridGap.None? && gridMinWidth.None? && gridMaxWidth.None?
      ensures !styleApplied && styleSetId.None?
    {
      this.id := id;
      this.kind := kind;
      this.visible := visible;
      this.gridColumns := gridColumns;
      gridEnabled := false;
      gridGap := None;
      gridMinWidth := None;
      gridMaxWidth := None;
      styleApplied := false;
      styleSetId := None;
    }
  }

  // ---------------------------------------------------------------------------
  // Lookups

  /** `xs.findIndex(found)`, with `None` for `-1`: the first index whose element is found. */
  function FirstIndex<T>(xs: seq<T>, found: T -> bool): (r: Option<nat>)
    ensures r.Some? ==> r.value < |xs| && found(xs[r.value]) && forall k :: 0 <= k < r.value ==> !found(xs[k])
    ensures r.None? ==> forall k :: 0 <= k < |xs| ==> !found(xs[k])
  {
    if xs == [] then None
    else if found(xs[0]) then Some(0)
    else
      var r := FirstIndex(xs[1..], found);
      if r.Some? then Some(r.value + 1) else None
  }

  /** `sections.findIndex(s => s.id === id)`. */
  function FindSection(ss: seq<Section>, id: int): (r: Option<nat>)
    ensures r.Some? ==> r.value < |ss| && ss[r.value].id == id && forall k :: 0 <= k < r.value ==> ss[k].id != id
    ensures r.None? ==> forall k :: 0 <= k < |ss| ==> ss[k].id != id
  {
    FirstIndex(ss, (s: Section) => s.id == id)
  }

  /** `sections.filter(s => s.id !== id)`. */
  function WithoutId(ss: seq<Section>, id: int): seq<Section> {
    if ss == [] then []
    else (if ss[0].id != id then [ss[0]] else []) + WithoutId(ss[1..], id)
  }

  /** The filter keeps exactly the sections with another id, in their order. */
  lemma {:induction false} WithoutIdMembers(ss: seq<Section>, id: int, s: Section)
    ensures s in WithoutId(ss, id) <==> s in ss && s.id != id
  {
    if ss != [] {
      WithoutIdMembers(ss[1..], id, s);
      assert ss == [ss[0]] + ss[1..];
    }
  }

  /** `styleSets.find(s => s.id === id || String(s.id) === String(id))`, as an index. */
  function FindStyleSet(sets: seq<StyleSet>, id: StyleId): (r: Option<nat>)
    ensures r.Some? ==>
      r.value < |sets| && SameIdLoosely(sets[r.value].id, id) && forall k :: 0 <= k < r.value ==> !SameIdLoosely(sets[k].id, id)
    ensures r.None? ==> forall k :: 0 <= k < |sets| ==> !SameIdLoosely(sets[k].id, id)
  {
    FirstIndex(sets, (s: StyleSet) => SameIdLoosely(s.id, id))
  }

  /** `styleSets.findIndex(s => s.id === id)`. */
  function FindStyleSetStrictly(sets: seq<StyleSet>, id: StyleId): (r: Option<nat>)
    ensures r.Some? ==> r.value < |sets| && sets[r.value].id == id && forall k :: 0 <= k < r.value ==> sets[k].id != id
    ensures r.None? ==> forall k :: 0 <= k < |sets| ==> sets[k].id != id
  {
    FirstIndex(sets, (s: StyleSet) => s.id == id)
  }

  /** `styleSets.filter(s => s.id !== id)`: the strict comparison `deleteStyleSet` uses. */
  function WithoutStyleId(sets: seq<StyleSet>, id: StyleId): seq<StyleSet> {
    if sets == [] then []
    else (if sets[0].id != id then [sets[0]] else []) + WithoutStyleId(sets[1..], id)
  }

  lemma {:induction false} WithoutStyleIdMembers(sets: seq<StyleSet>, id: StyleId, s: StyleSet)
    ensures s in WithoutStyleId(sets, id) <==> s in sets && s.id != id
  {
    if sets != [] {
      WithoutStyleIdMembers(sets[1..], id, s);
      assert sets == [sets[0]] + sets[1..];
    }
  }

  /** The deletion with the loose comparison `applyStyleSet` uses. */
  function WithoutStyleIdLoosely(sets: seq<StyleSet>, id: StyleId): seq<StyleSet> {
    if sets == [] then []
    else (if !SameIdLoosely(sets[0].id, id) then [sets[0]] else []) + WithoutStyleIdLoosely(sets[1..], id)
  }

  lemma {:induction false} WithoutStyleIdLooselyMembers(sets: seq<StyleSet>, id: StyleId, s: StyleSet)
    ensures s in WithoutStyleIdLoosely(sets, id) <==> s in sets && !SameIdLoosely(s.id, id)
  {
    if sets != [] {
      WithoutStyleIdLooselyMembers(sets[1..], id, s);
      assert sets == [sets[0]] + sets[1..];
    }
  }

  // ---------------------------------------------------------------------------
  // Value helpers

  /** `n || d` for a number that may be missing. */
  function OrDefault(n: Option<int>, d: int): (r: int)
    ensures n.Some? && n.value != 0 ==> r == n.value
    ensures n.None? || n.value == 0 ==> r == d
  {
    if n.Some? && n.value != 0 then n.value else d
  }

  /** The grid `applyStyleSet` adopts from a new-format style set: 4 columns, 24px gap, 280px to 1440px by default. */
  function GridFromStyle(g: GridSpec): (r: EditorGrid)
    ensures r.columns == OrDefault(g.columns, 4) && r.gap == OrDefault(g.gap, 24)
    ensures r.minWidth == OrDefault(g.minWidth, 280) && r.maxWidth == OrDefault(g.maxWidth, 1440)
  {
    EditorGrid(OrDefault(g.columns, 4), OrDefault(g.gap, 24), OrDefault(g.minWidth, 280), OrDefault(g.maxWidth, 1440))
  }

  /** `Math.min(Math.max(width, 320), 1440)`. */
  function ClampWidth(w: int): (r: int)
    ensures 320 <= r <= 1440
    ensures 320 <= w <= 1440 ==> r == w
    ensures w < 320 ==> r == 320
    ensures w > 1440 ==> r == 1440
  {
    if w < 320 then 320 else if w > 1440 then 1440 else w
  }

  const TallyPrefix: string := "https://tally.so/"
  const TallyEmbedPrefix: string := "https://tally.so/embed/"

  /** `url.replace('https://tally.so/', 'https://tally.so/embed/')`. */
  function EmbedUrl(url: string): (r: string)
    ensures |url| >= |TallyPrefix| && url[..|TallyPrefix|] == TallyPrefix ==> r == TallyEmbedPrefix + url[|TallyPrefix|..]
  {
    Text.ReplaceFirst(url, TallyPrefix, TallyEmbedPrefix)
  }

  /** A link with no `https://tally.so/` in it is kept as it is. */
  lemma {:induction false} EmbedUrlWithoutPrefix(url: string)
    requires !Text.Contains(url, TallyPrefix)
    ensures EmbedUrl(url) == url
  {
    Text.ReplaceFirstAbsent(url, TallyPrefix, TallyEmbedPrefix);
  }

  /**
   * The first `https://tally.so/` anywhere in the link, not only at its
   * start, gets `embed/` inserted; text before and after it is kept.
   */
  lemma EmbedUrlLeftmost(before: string, after: string)
    requires forall i :: 0 <= i < |before| ==> !Text.OccursAt(before + TallyPrefix + after, TallyPrefix, i)
    ensures EmbedUrl(before + TallyPrefix + after) == before + TallyEmbedPrefix + after
  {
    Text.ReplaceFirstLeftmost(before, TallyPrefix, after, TallyEmbedPrefix);
  }

  /** A style set's `id || Date.now() + Math.random()` needs a truthy id. */
  predicate IdTruthy(id: StyleId) {
    id != StrId([]) && id != NumId("0") && id != NumId("-0") && id != NumId("NaN")
  }

  /** The id a loaded style set gets: its own when truthy, else the generated one. */
  function LoadedId(dataId: Option<StyleId>, generated: StyleId): (r: StyleId)
    ensures dataId.Some? && IdTruthy(dataId.value) ==> r == dataId.value
    ensures dataId.None? || !IdTruthy(dataId.value) ==> r == generated
  {
    if dataId.Some? && IdTruthy(dataId.value) then dataId.value else generated
  }

  /**
   * The upsert in `loadFromStyleFolder`: the set replaces the first set whose
   * id is `===` the file's id, or is appended when there is none.
   */
  function Upserted(sets: seq<StyleSet>, dataId: Option<StyleId>, s: StyleSet): seq<StyleSet> {
    var k := if dataId.Some? then FindStyleSetStrictly(sets, dataId.value) else None;
    if k.Some? then sets[k.value := s] else sets + [s]
  }

  /** No two style sets share an id. */
  predicate UniqueIds(sets: seq<StyleSet>) {
    forall i, j :: 0 <= i < j < |sets| ==> sets[i].id != sets[j].id
  }

  /**
   * Loading a file whose id is already known replaces that set; ids stay
   * unique as long as a generated id is new; the loaded set is present.
   */
  lemma UpsertKeepsIdsUnique(sets: seq<StyleSet>, dataId: Option<StyleId>, generated: StyleId, built: StyleSet)
    requires UniqueIds(sets)
    requires forall k :: 0 <= k < |sets| ==> sets[k].id != generated
    ensures var s := built.(id := LoadedId(dataId, generated));
      var r := Upserted(sets, dataId, s);
      UniqueIds(r) && s in r && |r| >= |sets|
  {
    var s := built.(id := LoadedId(dataId, generated));
    var k := if dataId.Some? then FindStyleSetStrictly(sets, dataId.value) else None;
    var r := Upserted(sets, dataId, s);
    if k.Some? {
      assert r == sets[k.value := s];
      assert r[k.value] == s;
      forall i, j | 0 <= i < j < |r|
        ensures r[i].id != r[j].id
      {
        if i != k.value && j != k.value {
          assert r[i] == sets[i] && r[j] == sets[j];
        } else if i == k.value {
          assert r[j] == sets[j];
        } else {
          assert r[i] == sets[i];
        }
      }
    } else {
      assert r == sets + [s];
      assert r[|sets|] == s;
      forall i, j | 0 <= i < j < |r|
        ensures r[i].id != r[j].id
      {
        if j < |sets| {
          assert r[i] == sets[i] && r[j] == sets[j];
        } else {
          assert r[i] == sets[i];
        }
      }
    }
  }

  // ---------------------------------------------------------------------------
  // The editor

  class Editor {
    var sections: seq<Section>
    var selectedSection: Option<Section>
    var styleSets: seq<StyleSet>
    var currentStyle: Option<StyleSet>
    var gridConfig: EditorGrid

    /** The selected section is always one of the sections. */
    ghost predicate Valid()
      reads this
    {
      selectedSection.Some? ==> selectedSection.value in sections
    }

    /** The selected section, as a frame. */
    function Selected(): set<Section>
      reads this
    {
      if selectedSection.Some? then {selectedSection.value} else {}
    }

    /** A new editor: no sections or style sets, a 3-column 24px grid from 300px to 1200px. */
    constructor()
      ensures Valid()
      ensures sections == [] && selectedSection.None? && styleSets == [] && currentStyle.None?
      ensures gridConfig == EditorGrid(3, 24, 300, 1200)
    {
      sections := [];
      selectedSection := None;
      styleSets := [];
      currentStyle := None;
      gridConfig := EditorGrid(3, 24, 300, 1200);
    }

    /** `addSection`: a visible, ungridded, unstyled section stamped `now`, appended and selected. */
    method AddSection(name: string, content: string, className: string, now: int) returns (s: Section)
      requires Valid()
      modifies this
      ensures Valid() && fresh(s)
      ensures sections == old(sections) + [s] && selectedSection == Some(s)
      ensures s.id == now && s.kind == Content(name, content, className)
      ensures s.visible && !s.gridEnabled && s.gridColumns == Some(3) && !s.styleApplied && s.styleSetId.None?
      ensures styleSets == old(styleSets) && currentStyle == old(currentStyle) && gridConfig == old(gridConfig)
    {
      s := new Section(now, Content(name, content, className), true, Some(3));
      sections := sections + [s];
      selectedSection := Some(s);
    }

    /**
     * `deleteSection`, once confirmed: every section with the id goes, and the
     * selection is cleared only when it was one of them.
     */
    method DeleteSection(id: int, confirmed: bool)
      requires Valid()
      modifies this
      ensures Valid()
      ensures confirmed ==> sections == WithoutId(old(sections), id)
      ensures confirmed && old(selectedSection).Some? && old(selectedSection).value.id == id ==> selectedSection.None?
      ensures !(confirmed && old(selectedSection).Some? && old(selectedSection).value.id == id) ==> selectedSection == old(selectedSection)
      ensures !confirmed ==> sections == old(sections)
      ensures styleSets == old(styleSets) && currentStyle == old(currentStyle) && gridConfig == old(gridConfig)
    {
      if confirmed {
        var kept := WithoutId(sections, id);
        if selectedSection.Some? {
          WithoutIdMembers(sections, id, selectedSection.value);
        }
        sections := kept;
        if selectedSection.Some? && selectedSection.value.id == id {
          selectedSection := None;
        }
      }
    }

    /** `toggleSectionVisibility`: the first section with the id flips its visibility; nothing else changes. */
    method ToggleSectionVisibility(id: int)
      modifies sections
      ensures var f := FindSection(sections, id);
        f.Some? ==> sections[f.value].visible == !old(sections[f.value].visible)
      ensures var f := FindSection(sections, id);
        forall s :: s in sections && (f.None? || s != sections[f.value]) ==> unchanged(s)
      ensures var f := FindSection(sections, id);
        f.Some? ==> var s := sections[f.value];
          s.gridEnabled == old(s.gridEnabled) && s.gridColumns == old(s.gridColumns) && s.gridGap == old(s.gridGap)
          && s.gridMinWidth == old(s.gridMinWidth) && s.gridMaxWidth == old(s.gridMaxWidth)
          && s.styleApplied == old(s.styleApplied) && s.styleSetId == old(s.styleSetId)
    {
      var f := FindSection(sections, id);
      if f.Some? {
        var s := sections[f.value];
        s.visible := !s.visible;
      }
    }

    /** The drop handler of the sortable list: the section at `oldIndex` moves to `newIndex`. */
    method MoveSection(oldIndex: int, newIndex: int)
      requires Valid()
      requires 0 <= oldIndex < |sections| && 0 <= newIndex < |sections|
      modifies this
      ensures Valid()
      ensures sections == Reorder.Moved(old(sections), oldIndex, newIndex)
      ensures selectedSection == old(selectedSection) && styleSets == old(styleSets)
      ensures currentStyle == old(currentStyle) && gridConfig == old(gridConfig)
    {
      Reorder.MovedPermutes(sections, oldIndex, newIndex);
      var item := sections[oldIndex];
      sections := sections[..oldIndex] + sections[oldIndex + 1..];
      sections := sections[..newIndex] + [item] + sections[newIndex..];
      assert selectedSection.Some? ==> selectedSection.value in multiset(sections);
    }

    /**
     * `addTallySection`: nothing without a link; otherwise a Tally section
     * with the embed link, the clamped width and the paddings (each `parseInt`
     * result, `None` for `NaN`, falling back when falsy) is appended.
     */
    method AddTallySection(url: string, width: Option<int>, top: Option<int>, bottom: Option<int>,
                           left: Option<int>, right: Option<int>, now: int)
      requires Valid()
      modifies this
      ensures Valid()
      ensures url == [] ==> sections == old(sections)
      ensures url != [] ==> |sections| == |old(sections)| + 1 && sections[..|old(sections)|] == old(sections)
      ensures url != [] ==> var s := sections[|old(sections)|];
        fresh(s) && s.id == now && !s.visible && s.gridColumns.None?
        && s.kind == Tally(EmbedUrl(url), ClampWidth(OrDefault(width, 1200)),
                           Padding(OrDefault(top, 60), OrDefault(bottom, 60), OrDefault(left, 20), OrDefault(right, 20)))
      ensures selectedSection == old(selectedSection) && styleSets == old(styleSets)
      ensures currentStyle == old(currentStyle) && gridConfig == old(gridConfig)
    {
      var w := OrDefault(width, 1200);
      var padding := Padding(OrDefault(top, 60), OrDefault(bottom, 60), OrDefault(left, 20), OrDefault(right, 20));
      if url == [] {
        return;
      }
      var embed := EmbedUrl(url);
      var s := new Section(now, Tally(embed, ClampWidth(w), padding), false, None);
      sections := sections + [s];
    }

    /**
     * `applyStyleSet`: the first set whose id matches loosely becomes current;
     * a new-format set with a grid replaces the grid configuration; the
     * selected section then takes the grid and records the style.
     */
    method ApplyStyleSet(id: StyleId)
      requires Valid()
      modifies this, Selected()
      ensures Valid()
      ensures sections == old(sections) && selectedSection == old(selectedSection) && styleSets == old(styleSets)
      ensures var k := FindStyleSet(styleSets, id);
        k.None? ==> currentStyle == old(currentStyle) && gridConfig == old(gridConfig)
      ensures var k := FindStyleSet(styleSets, id);
        k.Some? ==> var chosen := styleSets[k.value];
          currentStyle == Some(chosen)
          && gridConfig == (if chosen.isNewFormat && chosen.grid.Some? then GridFromStyle(chosen.grid.value) else old(gridConfig))
      ensures var k := FindStyleSet(styleSets, id);
        k.Some? && selectedSection.Some? ==> var s := selectedSection.value;
          s.gridEnabled && s.gridColumns == Some(gridConfig.columns) && s.gridGap == Some(gridConfig.gap)
          && s.gridMinWidth == Some(gridConfig.minWidth) && s.gridMaxWidth == Some(gridConfig.maxWidth)
          && s.styleApplied && s.styleSetId == Some(id) && s.visible == old(s.visible)
      ensures FindStyleSet(styleSets, id).None? && selectedSection.Some? ==> unchanged(selectedSection.value)
    {
      var k := FindStyleSet(styleSets, id);
      if k.Some? {
        var chosen := styleSets[k.value];
        currentStyle := Some(chosen);
        if chosen.isNewFormat && chosen.grid.Some? {
          gridConfig := GridFromStyle(chosen.grid.value);
        }
        if selectedSection.Some? {
          var s := selectedSection.value;
          s.gridEnabled := true;
          s.gridColumns := Some(gridConfig.columns);
          s.gridGap := Some(gridConfig.gap);
          s.gridMinWidth := Some(gridConfig.minWidth);
          s.gridMaxWidth := Some(gridConfig.maxWidth);
          s.styleApplied := true;
          s.styleSetId := Some(id);
        }
      }
    }

    /**
     * `toggleStyleOnSection`: nothing without a selection; applying is
     * `applyStyleSet`; removing clears the selected section's style and grid flags.
     */
    method ToggleStyleOnSection(id: StyleId, apply: bool)
      requires Valid()
      modifies this, Selected()
      ensures Valid()
      ensures sections == old(sections) && selectedSection == old(selectedSection) && styleSets == old(styleSets)
      ensures selectedSection.None? ==> currentStyle == old(currentStyle) && gridConfig == old(gridConfig)
      ensures selectedSection.Some? && !apply ==> var s := selectedSection.value;
        !s.styleApplied && s.styleSetId.None? && !s.gridEnabled
        && s.gridColumns == old(s.gridColumns) && s.gridGap == old(s.gridGap)
        && s.gridMinWidth == old(s.gridMinWidth) && s.gridMaxWidth == old(s.gridMaxWidth) && s.visible == old(s.visible)
        && currentStyle == old(currentStyle) && gridConfig == old(gridConfig)
      ensures selectedSection.Some? && apply && FindStyleSet(styleSets, id).None? ==>
        currentStyle == old(currentStyle) && gridConfig == old(gridConfig) && unchanged(selectedSection.value)
      ensures selectedSection.Some? && apply ==> var k := FindStyleSet(styleSets, id);
        k.Some? ==> var chosen := styleSets[k.value];
          currentStyle == Some(chosen)
          && gridConfig == (if chosen.isNewFormat && chosen.grid.Some? then GridFromStyle(chosen.grid.value) else old(gridConfig))
      ensures selectedSection.Some? && apply ==> var k := FindStyleSet(styleSets, id);
        k.Some? ==> var s := selectedSection.value;
          s.gridEnabled && s.gridColumns == Some(gridConfig.columns) && s.gridGap == Some(gridConfig.gap)
          && s.gridMinWidth == Some(gridConfig.minWidth) && s.gridMaxWidth == Some(gridConfig.maxWidth)
          && s.styleApplied && s.styleSetId == Some(id) && s.visible == old(s.visible)
    {
      if selectedSection.None? {
        return;
      }
      if apply {
        ApplyStyleSet(id);
      } else {
        var s := selectedSection.value;
        s.styleApplied := false;
        s.styleSetId := None;
        s.gridEnabled := false;
      }
    }

    /**
     * `deleteStyleSet`, once confirmed: the sets whose id is `===` the given
     * one go, and the current style is cleared when its id is `===` it.
     */
    method DeleteStyleSet(id: StyleId, confirmed: bool)
      requires Valid()
      modifies this
      ensures Valid()
      ensures styleSets == (if confirmed then WithoutStyleId(old(styleSets), id) else old(styleSets))
      ensures currentStyle == (if confirmed && old(currentStyle).Some? && old(currentStyle).value.id == id then None else old(currentStyle))
      ensures sections == old(sections) && selectedSection == old(selectedSection) && gridConfig == old(gridConfig)
    {
      if confirmed {
        styleSets := WithoutStyleId(styleSets, id);
        if currentStyle.Some? && currentStyle.value.id == id {
          currentStyle := None;
        }
      }
    }

    /**
     * The upsert in `loadFromStyleFolder`: the loaded set, with its own id when
     * truthy and the generated one otherwise, replaces the set whose id is
     * `===` the file's id or is appended.
     */
    method UpsertStyleSet(dataId: Option<StyleId>, generated: StyleId, built: StyleSet)
      requires Valid()
      modifies this
      ensures Valid()
      ensures styleSets == Upserted(old(styleSets), dataId, built.(id := LoadedId(dataId, generated), isNewFormat := IsNewFormat(built.template)))
      ensures sections == old(sections) && selectedSection == old(selectedSection)
      ensures currentStyle == old(currentStyle) && gridConfig == old(gridConfig)
    {
      var existing := if dataId.Some? then FindStyleSetStrictly(styleSets, dataId.value) else None;
      var chosen := built.(id := LoadedId(dataId, generated), isNewFormat := IsNewFormat(built.template));
      if existing.Some? {
        styleSets := styleSets[existing.value := chosen];
      } else {
        styleSets := styleSets + [chosen];
      }
    }
  }

  // ---------------------------------------------------------------------------
  // The delete button passes the id as text

  /**
   * The delete button passes `'${styleSet.id}'`, a string: with the strict
   * comparison a set whose id is a number is never removed.
   */
  lemma {:induction false} UiDeleteKeepsNumericId(sets: seq<StyleSet>, k: int)
    requires 0 <= k < |sets| && sets[k].id.NumId?
    ensures sets[k] in WithoutStyleId(sets, StrId(IdText(sets[k].id)))
  {
    WithoutStyleIdMembers(sets, StrId(IdText(sets[k].id)), sets[k]);
  }

  /** With the loose comparison, the delete button removes every set that shows that id. */
  lemma {:induction false} UiDeleteLooselyRemoves(sets: seq<StyleSet>, shown: StyleId)
    ensures forall s :: s in WithoutStyleIdLoosely(sets, StrId(IdText(shown))) ==> IdText(s.id) != IdText(shown)
    ensures forall s :: s in sets && IdText(s.id) != IdText(shown) ==> s in WithoutStyleIdLoosely(sets, StrId(IdText(shown)))
  {
    forall s | s in WithoutStyleIdLoosely(sets, StrId(IdText(shown)))
      ensures IdText(s.id) != IdText(shown)
    {
      WithoutStyleIdLooselyMembers(sets, StrId(IdText(shown)), s);
    }
    forall s | s in sets && IdText(s.id) != IdText(shown)
      ensures s in WithoutStyleIdLoosely(sets, StrId(IdText(shown)))
    {
      WithoutStyleIdLooselyMembers(sets, StrId(IdText(shown)), s);
    }
  }
}
