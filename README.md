# Aura Canvas rendering core, modelled in Dafny

Aura Canvas is a browser page builder. It lays sheet records out as cards in a CSS grid, styled by
"style sets". This project models the deterministic core behind that:

- **Grid generator** (`grid.dfy`, `GridGenerator`). Column widths and breakpoints, the base,
  responsive and full grid stylesheets, the card custom properties, and the card list of the grid
  preview. Stylesheets are sequences of structured rules (`Rule(minW, maxW, selector, decl)`), not
  CSS text.
- **Asset-URL normaliser** (`asset_url.dfy`). `convertGoogleDriveUrl` rewrites Google Drive and Docs
  share links to the direct-image form.
- **Card binding engine** (`binding.dfy`).
  - `renderCardFromTemplate` resolves every `dataMapping` field against a record, substitutes the
    `{{field}}` tokens and tags `<img` elements with `crossorigin`.
  - The style-list preview has its own resolver, which differs from the template path.
  - `renderCard` dispatches to the template or to the legacy heuristic that guesses column roles
    from column names.
- **Card style helpers** (`card_css.dfy`). `getShadowValue`, `generateTextStylesCSS` and
  `generateAnimationCSS`.
- **Editor state** (`editor_state.dfy`). Class `Editor.Editor` holds the sections, the selected
  section, the style sets, the current style and the grid configuration. Its methods add, delete,
  toggle and reorder sections, add a Tally form section, and apply, toggle, delete and load
  style sets.
  - Sections are objects (`Editor.Section`), because the editor changes the selected section in
    place and that object is also an element of the section list.
  - Drag-reordering is the `splice` pair, modelled in module `Reorder`.
- **Sheet connector** (`sheet_url.dfy`, `normalize.dfy`, `validate.dfy`, `sheet_loader.dfy`).
  - The spreadsheet-id parser.
  - The column-key normaliser, `normalizeFields`.
  - The schema validator, `validateFields`.
  - The cache-or-fetch logic of `loadSheetData`, over an abstract store held by class
    `SheetLoader.Connector`.
- **Shared modules**. `text.dfy` holds the JavaScript string operations the code relies on: `trim`,
  `\s`, `includes`, the `[a-zA-Z0-9_-]+` capture, global replace, `split`/`join` and ASCII
  `toLowerCase`. `values.dfy` holds JavaScript values, truthiness, `String(v)`, and plain objects as
  ordered key/value lists. `style_set.dfy` holds style sets and `dataMapping`. `wrappers.dfy` holds
  `Option`/`Result`.

How JavaScript behaviour maps onto the model:

- A JavaScript number in a record is held by its `String()` text. That text determines the number's
  truthiness and printed form exactly.
- A missing property (`undefined`) is a missing key or `None`.
- A `TypeError`, such as `trim` or `split` called on a non-string, is a `None` result.
- A thrown `Error` is an `Err` result.
- The clock, random ids and suffixes, fetched rows, `confirm` answers, and the runtime's `RegExp`
  and `isNaN(Number(…))` tests are all parameters.

Most loops in the source are `while`/`for` loops in methods. Each such method is proved equal to
a specification function, and the properties are lemmas about those functions. The `for…of`
loop over the URL patterns of `extractSheetId`, which returns from inside the loop, is the
recursive function `SheetUrl.FirstPatternId`.

## Model

| member | source | states |
|---|---|---|
| `Text.Trim` | js/editor.js:1297 | `trim` leaves no white space at either end and never lengthens the string |
| `Text.TrimCuts` | js/editor.js:1297 | what `trim` removes is white space at the two ends and nothing else: the result is a contiguous slice with only white space around it |
| `Text.TrimOfTrimmed` | js/editor.js:1329 | a string without white space at its ends is returned by `trim` unchanged |
| `Text.TrimIdempotent` | js/editor.js:1297 | trimming twice is trimming once |
| `Text.IdRun` | js/editor.js:1300 | the greedy `[a-zA-Z0-9_-]+` run is the longest prefix of id characters: it stops at the end or at the first other character |
| `Text.FindFrom` | js/editor.js:1300 | the match found is the leftmost position (at or after the start) where the prefix is followed by an id character; none is reported only when no such position exists |
| `Text.FindIdAfter` | js/editor.js:1300 | `match(/prefix([a-zA-Z0-9_-]+)/)` succeeds exactly when the prefix occurs followed by an id character, and captures the whole run of id characters after the leftmost such occurrence |
| `Text.ReplaceAllAbsent` | js/editor.js:1406-1407 | a global replace of a token that does not occur leaves the text unchanged |
| `Text.ReplaceAllCopy` | js/editor.js:1406-1407 | text in which no occurrence of the token starts is copied in front of the replacement of the rest |
| `Text.ReplaceAllSplit` | js/editor.js:1406-1407 | a global replace of `x + y` is the replace of each part when no occurrence of the token straddles the boundary |
| `Text.ReplaceAllLeftmost` | js/editor.js:1406-1407 | a global replace copies the text before the leftmost occurrence, inserts the value verbatim (never rescanned), and continues after the occurrence |
| `Text.Split` | js/editor.js:1372 | `split` on a one-character separator gives at least one part, and no part contains the separator |
| `Text.JoinSplit` | js/editor.js:1480 | joining the parts of a split with the same separator gives the input back |
| `Text.SplitAtFirst` | js/editor.js:1479 | a prefix without the separator comes off whole as the first part of the split |
| `Text.UpperChar` | releases/aura-canvas-v0.2.0/js/sheets.js:102 | `toUpperCase` on a lower-case ASCII letter gives the upper-case letter at the same alphabet position; other characters are left alone |
| `Text.ToLower` | releases/aura-canvas-v0.2.0/js/sheets.js:96 | lowercasing keeps the length and maps each character by itself (ASCII upper case to lower case, everything else unchanged) |
| `Values.GetFound` | releases/aura-canvas-v0.2.0/js/sheets.js:130 | `row[field]` is the value of an entry with that key, and `undefined` exactly when no entry has the key |
| `Values.KeysAreDefined` | js/editor.js:1337 | a key is listed by `Object.keys` exactly when reading it gives a defined value |
| `Values.AssignGet` | releases/aura-canvas-v0.2.0/js/sheets.js:108 | after `obj[key] = v` the keys stay distinct, `key` reads back `v`, and every other key reads back what it held before |
| `Values.GetUnique` | releases/aura-canvas-v0.2.0/js/sheets.js:130 | in an object with distinct keys, a lookup gives the value of the one entry with that key |
| `AssetUrl.ShareLinkId` | js/editor.js:1299-1327 | the three share-link shapes are tried in order; an id is found exactly when one of them occurs followed by an id character; a file link decides wherever it occurs, then an open link, then a docs link, and the id is the one that shape captures |
| `AssetUrl.ConvertDriveUrl` | js/editor.js:1294-1330 | empty input gives `''`; the result is always trimmed; without a share link it is the trimmed input; with one it is `https://lh3.googleusercontent.com/d/<id>=w1600` for exactly the id the winning shape captures in the trimmed input |
| `AssetUrl.CanonicalHasNoShareLink` | js/editor.js:1303 | no share-link shape occurs in a converted URL (its only two dots are eighteen characters apart) |
| `AssetUrl.ConvertIdempotent` | js/editor.js:1294-1330 | converting an already converted URL changes nothing |
| `AssetUrl.ConvertFileLink` | js/editor.js:1299-1305 | a file link anywhere in a longer trimmed URL is rewritten to the canonical form of exactly the id run that follows it |
| `AssetUrl.ConvertOpenLink` | js/editor.js:1308-1316 | with no file link present, an open link in a longer trimmed URL is rewritten to the canonical form of the id run after it |
| `AssetUrl.ConvertDocsLink` | js/editor.js:1318-1326 | with neither a file nor an open link present, a docs link in a longer trimmed URL is rewritten to the canonical form of the id run after it |
| `AssetUrl.FileLinkBeatsEarlierDocsLink` | js/editor.js:1299-1326 | in a URL that starts with a docs link and an id character and has a file link later, the docs shape matches, yet the converted id is the file link's |
| `AssetUrl.ConvertFound` | js/editor.js:1297-1305 | a trimmed URL whose share-link id is `id` converts to the canonical URL of `id` |
| `AssetUrl.ShapeIdFound` | js/editor.js:1300 | a share-link pattern captures exactly the id after the leftmost occurrence of its prefix |
| `Binding.InjectWithoutImg` | js/editor.js:1410 | markup without `<img` followed by white space is left unchanged by the `crossorigin` injection |
| `Binding.InjectAtImg` | js/editor.js:1410 | `<img`, its whole run of white space and the rest become `<img crossorigin="anonymous" ` followed by the injection of the rest |
| `Binding.InjectPrefix` | js/editor.js:1410 | text in which no tag starts is copied unchanged in front of the result for the rest |
| `Binding.InjectCrossOrigin` | js/editor.js:1410 | the injection keeps the first character and copies the markup unchanged up to the first `<` after it |
| `Binding.InjectStartsTag` | js/editor.js:1410 | the result starts with `<img` and white space exactly when the markup does |
| `Binding.InjectTagsCarryCors` | js/editor.js:1410 | every `<img` followed by white space in the result is followed by `crossorigin="anonymous" `: no image tag is left without the attribute |
| `Binding.InjectLeftmost` | js/editor.js:1410 | the leftmost `<img` with its white space gains the attribute, the text before it is copied, and scanning resumes after the white space |
| `Binding.FirstTruthy` | js/editor.js:1390-1395 | the template resolver finds nothing exactly when no candidate column holds a truthy value; what it finds is truthy |
| `Binding.FirstTruthyIsFirst` | js/editor.js:1390-1395 | candidates are visited in order: the first column holding a truthy value decides |
| `Binding.FirstTruthyCandidate` | js/editor.js:1388-1395 | the inner candidate loop yields the first truthy candidate value, or `''` when there is none |
| `Binding.ResolveField` | js/editor.js:1388-1400 | a field's value is the first truthy candidate, else the field's default, else `''` |
| `Binding.BindField` | js/editor.js:1402-1404 | the `image` field is converted whenever its value is truthy, whether it came from the record or from the default; a truthy non-string image value throws; other values are printed with `String()` |
| `Binding.FieldText` | js/editor.js:1388-1404 | a field's token text is its resolved value, converted when it is the image |
| `Binding.SubstituteFields` | js/editor.js:1387-1408 | the mapping loop substitutes every field in mapping order, each with its resolved text, and throws as soon as one conversion throws |
| `Binding.SubstituteField` | js/editor.js:1388-1407 | one pass of the mapping loop extends the substitution by exactly that field |
| `Binding.SubstituteFailureStays` | js/editor.js:1403 | once a field's conversion has thrown, the whole substitution has thrown, whatever fields follow |
| `Binding.RenderCardFromTemplate` | js/editor.js:1383-1413 | the card is the template with all mapped fields substituted in order and then every `<img` tagged, or a throw when an image conversion throws |
| `Binding.SubstituteAbsentToken` | js/editor.js:1406-1407 | a field whose token is absent from the template leaves it unchanged, so a token is filled only by its own field |
| `Binding.TemplateCard` | js/editor.js:1383-1413 | for field names that compile to a literal regular expression, `renderCardFromTemplate` throws exactly when a mapped `image` field resolves to a truthy value that is not a string; otherwise every image tag of the card carries the `crossorigin` attribute |
| `Binding.SubstituteSucceeds` | js/editor.js:1387-1408 | for field names that compile to a literal regular expression, the substitution loop throws exactly when some mapped field's conversion throws, whatever the template |
| `Binding.NoTokenInsideOther` | js/editor.js:1406-1407 | the token of a brace-free field name never starts inside the token of another brace-free name |
| `Binding.NoTokenAcrossBraces` | js/editor.js:1406-1407 | no token of a brace-free field name straddles the start of a following `{{` |
| `Binding.SubstituteKeepsOtherToken` | js/editor.js:1406-1407 | substituting field `f` keeps the token `{{g}}` of another brace-free field in place and substitutes the text on either side of it as if on its own |
| `Binding.UnmappedTokenKept` | js/editor.js:1387-1408 | the token of a brace-free field the mapping does not name comes out of the whole loop untouched, with the text on either side substituted independently; the loop throws for the whole exactly when it throws for the part before the token |
| `Binding.TemplateWithoutTokens` | js/editor.js:1387-1408 | a template containing none of the mapped tokens comes out of the substitution loop unchanged, unless an image conversion throws |
| `Binding.FirstAccepted` | js/editor.js:827-833 | the preview resolver finds nothing exactly when every candidate is missing or `''`; what it finds is never `''` |
| `Binding.FirstAcceptedIsFirst` | js/editor.js:827-833 | preview candidates are visited in order: the first present, non-empty value decides, even when it is falsy |
| `Binding.FirstAcceptedCandidate` | js/editor.js:824-834 | the preview's inner loop yields the first present, non-empty candidate value, or `''` |
| `Binding.PreviewField` | js/editor.js:824-840 | a preview field's value is the first present, non-empty candidate when that value is truthy, else the field's default |
| `Binding.PreviewFieldValues` | js/editor.js:823-843 | the preview's mapping loop fills `fieldValues` with one entry per mapped field, in mapping order |
| `Binding.RenderPreviewCard` | js/editor.js:823-857 | the preview card resolves all fields, converts the image only when it is truthy and differs from the image default, substitutes entry by entry, then tags the images |
| `Binding.ResolversDifferOnFalsyCandidate` | js/editor.js:823-840 | with a first candidate of `0` and a second of `"5"`, the template resolver takes `"5"` but the preview stops at `0` and falls back to the default |
| `Binding.PreviewKeepsImageDefault` | js/editor.js:845-849 | the preview leaves an image equal to the image default unconverted, while the template path converts that same default |
| `Binding.KeyWith` | js/editor.js:1339-1343 | the role key found is one of the record's keys whose lowercase form contains one of the role's words; none is found exactly when no key does |
| `Binding.KeyWithIsFirst` | js/editor.js:1339-1343 | keys are tried in object order: the first key mentioning a role word is the one chosen |
| `Binding.NameKey` | js/editor.js:1338 | the name column is a key of the record, and there is one exactly when the record has keys; a key containing `name` wins over the first key |
| `Binding.TrimEachAt` | js/editor.js:1372 | each tag is the corresponding comma-separated part, trimmed |
| `Binding.CollectTags` | js/editor.js:1372-1377 | the badges are the trimmed comma-separated parts of the tag text, in order |
| `Binding.AppendParts` | js/editor.js:1347-1378 | the appends of the legacy card add each present part, in the fixed order image, subtitle, heading, price, paragraph, tags |
| `Binding.RenderLegacyCard` | js/editor.js:1337-1380 | the legacy card is the parts read from the record, appended one by one, or a throw when the image or tag value is not a string |
| `Binding.FillOrder` | js/editor.js:1347-1378 | appending the pieces of the six slots in slot order gives strictly ascending piece ranks |
| `Binding.FillRanks` | js/editor.js:1347-1378 | the appended pieces hold a piece of rank `n` exactly when slot `n` is filled |
| `Binding.AssembleOrder` | js/editor.js:1349-1378 | legacy pieces come out in strictly ascending rank, so no kind of piece appears twice |
| `Binding.AssembleRanks` | js/editor.js:1349-1378 | a legacy card holds an image, subtitle, heading, price, paragraph or tag list exactly when that part is present |
| `Binding.LegacyCardOrder` | js/editor.js:1349-1378 | the pieces of any legacy card are in the order image, subtitle, heading, price, paragraph, tags, each at most once |
| `Binding.AssembleKinds` | js/editor.js:1359-1378 | a heading, a price, a paragraph and a tag list are present in the pieces exactly when their parts are |
| `Binding.LegacyCardPieces` | js/editor.js:1337-1378 | a heading, a price, a paragraph and tags appear exactly when their role columns exist and hold truthy values, with the name column falling back to the first key |
| `Binding.RenderCard` | js/editor.js:1332-1335 | a current style in the new format with template markup gets the template card; any other style, or none, gets the legacy card |
| `CardStyles.ShadowValue` | js/editor.js:1415-1424 | the five named shadows map to their values; any other input, including a missing name or raw CSS, gives the `md` shadow (names inherited from `Object.prototype` are set apart under Left out) |
| `CardStyles.ShadowFallsBackToMedium` | js/editor.js:1423 | any input other than the four other names gives the same value as `md` |
| `CardStyles.StyleDeclsPresence` | js/editor.js:1445-1451 | a style produces `letter-spacing` exactly when it is defined (so `0` gives `0px`), each of the six other properties exactly when its value is truthy, and nothing else |
| `CardStyles.StyleRuleDecls` | js/editor.js:1444-1452 | the declarations of one rule are appended one by one in the fixed property order |
| `CardStyles.StyledIndicesShape` | js/editor.js:1440-1442 | the styled elements are ascending and are exactly the handled elements that have a truthy style entry |
| `CardStyles.RulesForShape` | js/editor.js:1440-1453 | there is one rule per styled element, and the `i`-th rule has the `i`-th styled element's selector and declarations |
| `CardStyles.GenerateTextStylesCSS` | js/editor.js:1426-1456 | missing or empty text styles give no rules; otherwise the loop over the six handled elements emits one rule per styled element |
| `CardStyles.UnhandledStylesIgnored` | js/editor.js:1431-1442 | styles for elements other than the six handled ones (such as `author`) change nothing |
| `CardStyles.Duration` | js/editor.js:1464 | `entry.duration \|\| 0.4`: never zero; a missing or zero duration gives 0.4, and any other duration is kept |
| `CardStyles.EntryKeyframes` | js/editor.js:1459-1476 | keyframes are emitted exactly when animations are on, the entry is enabled, and its type is one of the six known types; both states are non-empty |
| `CardStyles.AnimationAsWritten` | js/editor.js:1458-1490 | a rule is emitted exactly when the keyframes are; as written, its start state is the table string up to the first `;` and holds no `;`, and start state, `;` and end state rejoin to the table string; the duration is `entry.duration \|\| 0.4` and the delay is 0.1 exactly when staggered |
| `CardStyles.AsWrittenSplitsAfterFirstDecl` | js/editor.js:1479-1480 | as written, the `from` state is the first declaration of the table string alone, and every other declaration lands in `to` |
| `CardStyles.SlideUpStartsOpaque` | js/editor.js:1469-1480 | for `slideUp` the emitted start state is `transform: translateY(20px)` only, while the table's start state also sets `opacity: 0` |
| `CardStyles.EntryAnimationCSS` | js/editor.js:1458-1490 | the corrected entry animation is emitted exactly when the table has keyframes for the entry |
| `CardStyles.EntryAnimationSplitsTable` | js/editor.js:1467-1480 | the corrected start part is the rendering of all the start state's declarations and the end part that of the end state's; the start part is a proper prefix of the table string and the two rejoin to it with a space, so the cut falls exactly between the states; in every entry both states set the same properties |
| `CardStyles.SlideUpStartsTransparent` | js/editor.js:1469-1480 | with the corrected split, `slideUp` starts from `transform: translateY(20px); opacity: 0;`, keeping the opacity the split as written loses |
| `Reorder.Removed` | js/editor.js:447 | `splice(i, 1)` shortens by one, keeps the items before `i` and shifts the rest down |
| `Reorder.Inserted` | js/editor.js:448 | `splice(j, 0, x)` puts `x` at `j`, keeps the items before it and shifts the rest up |
| `Reorder.RemoveInserted` | js/editor.js:447-448 | removing what was just inserted gives the list back |
| `Reorder.InsertRemoved` | js/editor.js:447-448 | putting an item back where it was removed gives the list back |
| `Reorder.MovedPlacesItem` | js/editor.js:447-448 | the dragged item lands at the new index, and the other sections keep their relative order |
| `Reorder.MovedPermutes` | js/editor.js:447-448 | a drag-reorder is a permutation of the sections |
| `Reorder.MovedBack` | js/editor.js:447-448 | dragging the item back from the new index to the old one restores the list |
| `Editor.Section.constructor` | js/editor.js:305-315 | a new section has the given id, kind, visibility and column count, grid off with no other grid settings, and no style |
| `Editor.FindSection` | js/editor.js:368 | `sections.find(s => s.id === id)` is the first section with the id, and none exactly when no section has it |
| `Editor.WithoutIdMembers` | js/editor.js:327 | the filter keeps exactly the sections with another id |
| `Editor.FindStyleSet` | js/editor.js:710 | `applyStyleSet` picks the first style set whose id equals the given one strictly or as text; none exactly when no set does |
| `Editor.FindStyleSetStrictly` | js/editor.js:663 | the loader's `findIndex` is the first set whose id is `===` the file's id; none exactly when no set has it |
| `Editor.WithoutStyleIdMembers` | js/editor.js:772 | `deleteStyleSet`'s filter keeps exactly the sets whose id is not `===` the given one |
| `Editor.WithoutStyleIdLooselyMembers` | js/editor.js:772 | the corrected deletion keeps exactly the sets whose id does not match loosely |
| `Editor.GridFromStyle` | js/editor.js:715-720 | a style set's grid supplies each setting that is truthy, and otherwise 4 columns, 24px gap, 280px and 1440px |
| `Editor.ClampWidth` | js/editor.js:1867 | the Tally width is clamped to [320, 1440]: kept inside the range, raised below it, lowered above it |
| `Editor.EmbedUrl` | js/editor.js:1860 | a link starting with `https://tally.so/` gets `embed/` inserted after the host |
| `Editor.EmbedUrlWithoutPrefix` | js/editor.js:1860 | a link without `https://tally.so/` is kept as it is |
| `Editor.EmbedUrlLeftmost` | js/editor.js:1860 | the leftmost `https://tally.so/` anywhere in the untrimmed link, not only at its start, becomes `https://tally.so/embed/`; everything before and after it is kept |
| `Text.ReplaceFirstLeftmost` | js/editor.js:1860 | `replace` with a string pattern rewrites exactly the leftmost occurrence and keeps the text around it |
| `Text.ReplaceFirstAbsent` | js/editor.js:1860 | `replace` leaves a string without the pattern unchanged |
| `Editor.UpsertKeepsIdsUnique` | js/editor.js:663-690 | the upsert replaces a set with the same id or appends; ids stay unique as long as the generated id is new; the loaded set is present and the list never shrinks |
| `Editor.Editor.constructor` | js/editor.js:2-15 | a new editor has no sections, no selection, no style sets, no current style, and the 3-column, 24px, 300px to 1200px grid |
| `Editor.Editor.AddSection` | js/editor.js:304-323 | the new visible, ungridded, unstyled section stamped with the clock is appended and selected; nothing else changes; the name, content and class are always passed (the JavaScript defaults are under Left out) |
| `Editor.Editor.DeleteSection` | js/editor.js:325-336 | once confirmed, every section with the id goes, and the selection is cleared only when it was one of them; unconfirmed, nothing changes |
| `Editor.Editor.ToggleSectionVisibility` | js/editor.js:367-375 | the first section with the id flips its visibility; every other section and every other field is unchanged |
| `Editor.Editor.MoveSection` | js/editor.js:446-449 | the sortable drop moves the section at the old index to the new index; the selection and everything else are unchanged |
| `Editor.Editor.AddTallySection` | js/editor.js:1847-1880 | without a link nothing changes; otherwise one Tally section is appended with the embed link, the clamped width (default 1200) and the paddings (defaults 60, 60, 20, 20) |
| `Editor.Editor.ApplyStyleSet` | js/editor.js:709-748 | the first loosely matching set becomes current; a new-format set with a grid replaces the grid configuration; the selected section takes that grid, is marked styled and records the id; without a match nothing changes |
| `Editor.Editor.ToggleStyleOnSection` | js/editor.js:750-768 | without a selection nothing changes; applying is `applyStyleSet`; applying has exactly `applyStyleSet`'s effect on the current style, the grid configuration and the selected section (no change when no set matches); removing clears the selected section's style id, style flag and grid flag and keeps its grid sizes, its visibility, the current style and the grid configuration |
| `Editor.Editor.DeleteStyleSet` | js/editor.js:770-781 | once confirmed, the sets whose id is `===` the given id go, and the current style is cleared when its id is `===` it; nothing else changes |
| `Editor.Editor.UpsertStyleSet` | js/editor.js:662-690 | the loaded set, with its own id when truthy and the generated one otherwise, replaces the set with the file's id or is appended |
| `Editor.UiDeleteKeepsNumericId` | js/editor.js:772 | given the string the delete button passes, the strict filter never removes a set whose id is a number |
| `Editor.UiDeleteLooselyRemoves` | js/editor.js:772 | with the loose comparison, the delete button removes exactly the sets that show the same id |
| `Grid.Merge` | releases/aura-canvas-v0.2.0/js/grid.js:36 | every key the caller omits takes its default (3, 24, 300, 1200), and every key given wins |
| `Grid.MergeExplicit` | releases/aura-canvas-v0.2.0/js/grid.js:36 | merging a complete configuration again changes nothing |
| `Grid.ColumnWidth` | releases/aura-canvas-v0.2.0/js/grid.js:11-29 | fewer than one column throws first, then a negative gap throws; one column is `100%`; otherwise the column percentages and gaps add up to 100% and the pixel correction is an even share of the total gap |
| `Grid.ColumnWidthBounds` | releases/aura-canvas-v0.2.0/js/grid.js:24-28 | for two or more columns the percentage is at most an even share of 100%, with equality exactly when the gap is 0; the pixel correction is non-negative and below one gap |
| `Grid.Breakpoint` | releases/aura-canvas-v0.2.0/js/grid.js:31-33 | the breakpoint of one column is the minimum width; nothing is checked |
| `Grid.BreakpointStep` | releases/aura-canvas-v0.2.0/js/grid.js:32 | each extra column adds one card width and one gap to the breakpoint |
| `Grid.BreakpointIncreasing` | releases/aura-canvas-v0.2.0/js/grid.js:31-33 | the breakpoint grows strictly with the column count when a card plus a gap take positive room |
| `Grid.GridCSS` | releases/aura-canvas-v0.2.0/js/grid.js:35-57 | it throws exactly when the merged columns or gap are invalid; otherwise it emits a fixed grid rule and, for the same container class, a rule below the breakpoint with `auto-fit` tracks of the minimum width |
| `Grid.GenerateResponsiveGrid` | releases/aura-canvas-v0.2.0/js/grid.js:59-77 | the loop over 1..columns pushes exactly the responsive rules, or throws on a negative gap |
| `Grid.ResponsiveGridShape` | releases/aura-canvas-v0.2.0/js/grid.js:65-76 | there are exactly `columns` rules, the k-th with k+1 columns and no upper bound, and their `min-width` breakpoints ascend strictly when a card plus a gap take positive room |
| `Grid.TiersSpec` | releases/aura-canvas-v0.2.0/js/grid.js:119-120 | the tier loop visits exactly the counts 2..columns except 3, in ascending order; the last tier is `columns` exactly when `columns` is not 3 |
| `Grid.TierRulesFollowTiers` | releases/aura-canvas-v0.2.0/js/grid.js:119-142 | the k-th tier rule is the rule for the k-th tier |
| `Grid.GenerateFullGridCSS` | releases/aura-canvas-v0.2.0/js/grid.js:79-145 | the full stylesheet is the four fixed bands followed by the tier loop's rules; it throws only when a tier's width is computed with a negative gap |
| `Grid.FullGridFixedBands` | releases/aura-canvas-v0.2.0/js/grid.js:83-117 | whatever the column count, the first four rules are the base rule, the oversize rule from `maxWidth+1`, mobile up to 599px with one column, and tablet from 600 to 1023px with exactly three columns |
| `Grid.FullGridTier` | releases/aura-canvas-v0.2.0/js/grid.js:119-141 | rule 4+k is the tier rule for the k-th tier, a count between 2 and `columns` other than 3 |
| `Grid.FullGridDesktop` | releases/aura-canvas-v0.2.0/js/grid.js:125-131 | a `min-width: 1024px` desktop band exists exactly when `columns` is 2 or more and not 3, and it is then the last rule |
| `Grid.FullGridBandsAscend` | releases/aura-canvas-v0.2.0/js/grid.js:121-140 | with positive card-plus-gap room, every bounded tier band `[bp(i-1)+1, bp(i)]` is non-empty and ends below the start of the next bounded one |
| `Grid.CardCSS` | releases/aura-canvas-v0.2.0/js/grid.js:147-213 | each of the six card variables is the caller's value when given, else its default |
| `Grid.CardCSSIgnoresOthers` | releases/aura-canvas-v0.2.0/js/grid.js:157 | variables other than the six card properties have no effect |
| `Grid.PreviewGrid` | releases/aura-canvas-v0.2.0/js/grid.js:231-259 | the preview checks the configured column width first, then renders the cards in a loop, followed by the full grid and default card CSS |
| `Grid.PreviewCardCount` | releases/aura-canvas-v0.2.0/js/grid.js:239-240 | the preview renders max(items, 6) cards; a given item renders as itself, and a missing or absent one renders as `Card <i+1>` |
| `Normalize.CollapseLeavesNoWhite` | releases/aura-canvas-v0.2.0/js/sheets.js:98 | after `\s+` runs become `_`, no white space remains and the key is no longer |
| `Normalize.CollapseAppend` | releases/aura-canvas-v0.2.0/js/sheets.js:98 | a part that does not end in white space collapses on its own: `CollapseWhite(a + c)` is `CollapseWhite(a) + CollapseWhite(c)` |
| `Normalize.CollapseOfRun` | releases/aura-canvas-v0.2.0/js/sheets.js:98 | a non-empty white-space run before a non-white character (or the end) becomes exactly one `_` |
| `Normalize.CollapseRun` | releases/aura-canvas-v0.2.0/js/sheets.js:98 | each maximal white-space run `w` between `a` and `b` is replaced by one `_`: `CollapseWhite(a + w + b) == CollapseWhite(a) + "_" + CollapseWhite(b)` |
| `Normalize.KeepWordChars` | releases/aura-canvas-v0.2.0/js/sheets.js:99 | only `[a-z0-9_]` characters remain, and a key made only of them is kept |
| `Normalize.KeepWordCharsAppend` | releases/aura-canvas-v0.2.0/js/sheets.js:99 | the filter works piece by piece: filtering `a + b` gives the filtered `a` followed by the filtered `b` |
| `Normalize.KeepWordCharsAt` | releases/aura-canvas-v0.2.0/js/sheets.js:99 | a single character between two parts is kept exactly when it is one of `[a-z0-9_]`, and dropped otherwise |
| `Normalize.StripUnderscores` | releases/aura-canvas-v0.2.0/js/sheets.js:100 | the stripped key neither starts nor ends with `_` and keeps to `[a-z0-9_]` |
| `Normalize.StripUnderscoresSlice` | releases/aura-canvas-v0.2.0/js/sheets.js:100 | the result is a slice `s[i..j]` of the key with only `_` in `s[..i]` and `s[j..]`; together with the stripped ends this pins the result down exactly |
| `Normalize.CamelCase` | releases/aura-canvas-v0.2.0/js/sheets.js:102 | camel-casing never lengthens the key, leaves a `[a-z0-9_]` key with only those characters and upper-case letters, keeps a first character that is not `_`, and never ends in `_` when the input did not |
| `Normalize.CamelCaseUnderscoreLetter` | releases/aura-canvas-v0.2.0/js/sheets.js:102 | an `_` followed by a lower-case letter `x` becomes upper-case `x`, and the text on both sides is camel-cased on its own: `CamelCase(a + "_x" + b) == CamelCase(a) + [UpperChar(x)] + CamelCase(b)` |
| `Normalize.Cleaned` | releases/aura-canvas-v0.2.0/js/sheets.js:95-99 | after lowercasing, trimming, collapsing white space and filtering, only `[a-z0-9_]` remains |
| `Normalize.FinishShape` | releases/aura-canvas-v0.2.0/js/sheets.js:100-102 | stripping and camel-casing a `[a-z0-9_]` key gives `[A-Za-z0-9_]` characters, no `_` at either end and no upper-case first letter |
| `Normalize.NormalizeKeyShape` | releases/aura-canvas-v0.2.0/js/sheets.js:95-102 | a normalised key holds only `[A-Za-z0-9_]`, neither starts nor ends with `_`, and never starts with an upper-case letter |
| `Normalize.PlainKeyUnchanged` | releases/aura-canvas-v0.2.0/js/sheets.js:95-102 | a key of lower-case letters and digits only normalises to itself |
| `Normalize.PlainKeyCleaned` | releases/aura-canvas-v0.2.0/js/sheets.js:95-99 | such a key survives the first four steps unchanged |
| `Normalize.PlainKeyStripped` | releases/aura-canvas-v0.2.0/js/sheets.js:100 | such a key has no `_` to strip |
| `Normalize.PlainKeyTrimmed` | releases/aura-canvas-v0.2.0/js/sheets.js:97 | such a key has nothing to trim |
| `Normalize.LowerOfLowerAlnum` | releases/aura-canvas-v0.2.0/js/sheets.js:96 | lowercasing leaves lower-case letters and digits alone |
| `Normalize.CollapseWithoutWhite` | releases/aura-canvas-v0.2.0/js/sheets.js:98 | a key without white space is not changed by the collapse |
| `Normalize.CamelCaseWithoutUnderscore` | releases/aura-canvas-v0.2.0/js/sheets.js:102 | a key without `_` is not changed by camel-casing |
| `Normalize.KeyFor` | releases/aura-canvas-v0.2.0/js/sheets.js:104-106 | the key is the normalised form when it is non-empty, otherwise exactly `field_` followed by the random suffix; never empty |
| `Normalize.NormalizedRowsWith` | releases/aura-canvas-v0.2.0/js/sheets.js:86-112 | missing or non-array data gives no rows; otherwise there is exactly one output row per input row |
| `Normalize.AssignAllUnique` | releases/aura-canvas-v0.2.0/js/sheets.js:108 | assigning entry after entry keeps the row's keys distinct |
| `Normalize.AssignAllOrigin` | releases/aura-canvas-v0.2.0/js/sheets.js:108 | every output entry is some input value under the key given to it |
| `Normalize.AssignAllLastWins` | releases/aura-canvas-v0.2.0/js/sheets.js:94-109 | a key holds the value of the last entry assigned to it: later columns overwrite earlier ones |
| `Normalize.NormalizedRowContents` | releases/aura-canvas-v0.2.0/js/sheets.js:91-112 | each normalised row has distinct keys, every entry is an input value unchanged under its column's key, and a key holds the value of the last column mapped to it |
| `Normalize.NormalizeKeys` | releases/aura-canvas-v0.2.0/js/sheets.js:94-106 | the key loop computes exactly the row's keys |
| `Normalize.AssignRow` | releases/aura-canvas-v0.2.0/js/sheets.js:92-110 | the assignment loop builds exactly the object of the row's values under their keys |
| `Normalize.NormalizeFieldsWith` | releases/aura-canvas-v0.2.0/js/sheets.js:87-112 | the row loop builds exactly the normalised rows, for any key normaliser |
| `Normalize.NormalizeFields` | releases/aura-canvas-v0.2.0/js/sheets.js:86-113 | `normalizeFields` returns exactly the normalised rows |
| `Validate.RowLine` | releases/aura-canvas-v0.2.0/js/sheets.js:133 | a row message reads `Row <n>: ` followed by its body |
| `Validate.MessageText` | releases/aura-canvas-v0.2.0/js/sheets.js:120-163 | the invalid-data message is exactly `Invalid data: expected array`; every other message starts with `Row <n>: ` |
| `Validate.Validation` | releases/aura-canvas-v0.2.0/js/sheets.js:115-127 | non-array data gives exactly one error and no warnings; a missing schema gives nothing |
| `Validate.CheckField` | releases/aura-canvas-v0.2.0/js/sheets.js:130-165 | one field's checks push their errors and warnings in source order |
| `Validate.CheckRow` | releases/aura-canvas-v0.2.0/js/sheets.js:129-166 | the schema loop for one row gathers the messages of every schema field in order |
| `Validate.ValidateFields` | releases/aura-canvas-v0.2.0/js/sheets.js:115-170 | the nested loops produce exactly the validation report |
| `Validate.FieldMissing` | releases/aura-canvas-v0.2.0/js/sheets.js:132-134 | a field raises the missing-value error exactly when it is required and its value is undefined, null or `''`, with the row counted from 1 |
| `Validate.RowRaises` | releases/aura-canvas-v0.2.0/js/sheets.js:129-166 | for any per-field rule that fires exactly on a condition of the field's rules and value, a row raises that message exactly when a schema field of that name meets the condition in the row |
| `Validate.RowsRaise` | releases/aura-canvas-v0.2.0/js/sheets.js:124-166 | over the rows, such a message for row `r` and field `f` is raised exactly when row `r`, counted from 1, meets the condition for a schema field `f` |
| `Validate.ValidationMissing` | releases/aura-canvas-v0.2.0/js/sheets.js:124-134 | `validateFields` reports a missing-value error exactly for each row and required field left blank |
| `Validate.FieldTooLong` | releases/aura-canvas-v0.2.0/js/sheets.js:150-153 | a field raises `TooLong(row, field, max)` exactly when its value is neither undefined nor null, `maxLength` is set to `max` and the value's text is longer than `max` |
| `Validate.ValidationTooLong` | releases/aura-canvas-v0.2.0/js/sheets.js:124-153 | `validateFields` reports an over-length error for row `r` and field `f` exactly when row `r`, counted from 1, holds a defined value for `f` longer than `f`'s set `maxLength` |
| `Validate.FieldWarningsOnlyShort` | releases/aura-canvas-v0.2.0/js/sheets.js:150-158 | one field's warnings are all `minLength` warnings, and none of its errors is |
| `Validate.RowWarningsOnlyShort` | releases/aura-canvas-v0.2.0/js/sheets.js:150-158 | a row's warnings are all `minLength` warnings, and none of its errors is |
| `Validate.RowsWarningsOnlyShort` | releases/aura-canvas-v0.2.0/js/sheets.js:150-158 | across the rows, warnings are all `minLength` warnings, and none of the errors is |
| `Validate.ValidationWarningsOnlyShort` | releases/aura-canvas-v0.2.0/js/sheets.js:150-158 | every warning of `validateFields` is a `minLength` warning, and falling short of `minLength` is never an error |
| `SheetUrl.FirstPatternId` | releases/aura-canvas-v0.2.0/js/sheets.js:21-28 | nothing is found exactly when no pattern, followed by an id character, occurs anywhere in the URL; an id found is a non-empty run of id characters |
| `SheetUrl.ExtractSheetId` | releases/aura-canvas-v0.2.0/js/sheets.js:10-29 | a missing, empty or non-string URL gives `null`; any id is a non-empty run of `[a-zA-Z0-9-_]` (the editor's `extractSpreadsheetId` is the same code) |
| `SheetUrl.LaterPatternsImplyFirst` | releases/aura-canvas-v0.2.0/js/sheets.js:15-19 | a match of the second or third pattern is a match of `/d/` further right |
| `SheetUrl.SheetIdIsFirstSlashD` | releases/aura-canvas-v0.2.0/js/sheets.js:15-28 | the result is the id after the leftmost `/d/` followed by an id character, so the second and third patterns never decide it |
| `SheetLoader.Connector.constructor` | releases/aura-canvas-v0.2.0/js/sheets.js:2-4 | a new connector sees the persistent store as it already is, every entry kept under its own sheet id |
| `SheetLoader.Connector.LoadSheetData` | releases/aura-canvas-v0.2.0/js/sheets.js:172-215 | the loader's steps give exactly the result and store update of `loadSheetData` as written, and keep every stored result under its own sheet id |
| `SheetLoader.InvalidUrlOnly` | releases/aura-canvas-v0.2.0/js/sheets.js:175-178 | `Invalid Google Sheets URL` is thrown exactly when no sheet id can be extracted, and the store is then untouched |
| `SheetLoader.FreshCopyServed` | releases/aura-canvas-v0.2.0/js/sheets.js:180-186 | with caching on (the default), a fresh stored copy is returned as it is without fetching, and the store is unchanged |
| `SheetLoader.FreshIsStrict` | releases/aura-canvas-v0.2.0/js/sheets.js:183-184 | a copy exactly `cacheTimeout` old is stale; one a millisecond younger is fresh |
| `SheetLoader.FetchedAndStored` | releases/aura-canvas-v0.2.0/js/sheets.js:190-214 | without a fresh copy, fetched rows that pass validation are normalised, stamped, returned and stored when caching; warnings never stop it |
| `SheetLoader.ValidationAborts` | releases/aura-canvas-v0.2.0/js/sheets.js:193-197 | any validation error aborts with `Validation failed:` and all error texts joined by newlines, and nothing is stored |
| `SheetLoader.LoadKeepsKeyedById` | releases/aura-canvas-v0.2.0/js/sheets.js:210-212 | loading keeps every stored result under its own sheet id |
| `SheetLoader.OtherTabServed` | releases/aura-canvas-v0.2.0/js/sheets.js:180-188 | as written, a fresh copy of one tab answers a request for another tab of the same spreadsheet |
| `SheetLoader.CorrectedServesAskedTab` | releases/aura-canvas-v0.2.0/js/sheets.js:180-188 | when the cache test also compares the sheet name, every result is for the tab that was asked for |

## Left out

- The DOM, events, the iframe preview, toasts, `confirm`/`prompt` (a `confirmed` flag instead), file reading, downloads, `localStorage`, the `Sortable` wiring, `editSection` and `selectSection`. These are user interface and I/O.
- HTML import (`parseHtml`, `detectContainerWidth`, including its final width rule). It depends on `DOMParser` and the DOM.
- `fetch` and the promise chains of `loadFromStyleFolder`, `loadStyleSheets`, `loadSelectedStyle`, `listSheets` and `fetchSheetData`. These are network I/O. The fetched rows, or the fetch error, are a parameter of the loader. Only the upsert of `loadFromStyleFolder` is modelled.
- `SheetStorage` (IndexedDB). The store is an abstract map from sheet id to the last stored result. It persists across sessions, so a connector is created over whatever the store already holds.
- `JSON.parse` in the style importers and `parseStyleFromSheet`. It is a foreign parser.
- `Validate.CheckField`: `isNaN(Number(value))` and `new RegExp(pattern).test(…)` are runtime services supplied as oracle functions. Their results are not modelled. The `matches` oracle always answers, so the model also leaves out the `SyntaxError` that `new RegExp` throws on an invalid pattern such as `"("` (releases/aura-canvas-v0.2.0/js/sheets.js:161): in the source that error aborts `validateFields` and rejects `loadSheetData` (sheets.js:194) instead of producing an error list; `Validate.Validation`, `SheetLoader.Connector.LoadSheetData` and the lemmas about them assume every pattern compiles.
- `Date.now()`, `Math.random()` ids and the random `field_` suffix. These are parameters.
- `Grid.ColumnWidth`: widths are exact rationals. IEEE-754 rounding and JavaScript number-to-string formatting of widths and animation durations are not modelled.
- CSS and HTML text. Stylesheets, card rules, legacy cards and preview cards are structured values: the rules, declarations and pieces in emission order. Whitespace, comments, the fixed card-rule text of `generateCardCSS`, the legacy `<img>` error handler and inline styles are dropped. Template cards are the one exception: they are modelled as text, because the substitution works on text.
- `Text.ReplaceAll`: the replacement is inserted literally. The `$&`, `$1` and `$$` patterns of `String.prototype.replace` are not interpreted. A field name containing regular-expression metacharacters is also treated literally.
- `Binding.TemplateCard`, `Binding.SubstituteSucceeds`, `Binding.RenderCardFromTemplate` and `Binding.RenderPreviewCard`: each token is found by `new RegExp(`{{${field}}}`, 'g')` (js/editor.js:1406, and js/editor.js:853 for the preview), and the model matches the token text literally instead. Two consequences are not modelled. A field name the regular-expression parser rejects, such as `"size (cm"` or `"a["`, makes the source throw a `SyntaxError` from `renderCardFromTemplate` and `renderStyleSets`, where the model returns a card. A field name made of digits, such as `"12"` or `"1,2"`, turns the token's braces into a quantifier, so the source never replaces `{{12}}` while the model does. The "throws exactly when" statements of these members hold only for field names that compile to a regular expression matching their token literally.
- `Text.ToLower`: lowercasing is ASCII only. Unicode case mapping is not modelled.
- `Values.Keys`: object keys keep insertion order. JavaScript lists integer-like keys first in ascending order; that reordering, prototype keys and `__proto__` are not modelled.
- `Validate.CheckField`: a value's length is counted in characters. JavaScript's `length` counts UTF-16 code units, so a value with characters outside the Basic Multilingual Plane is longer in the source than here; `Validate.FieldTooLong` and `Validate.ValidationTooLong` inherit this.
- `Editor.Editor.AddSection`: JavaScript's default parameters (`name = 'New Section'`, `content = ''`, `className = ''`, js/editor.js:304) are not modelled; every argument is explicit, so the add-section button (js/editor.js:46) is `AddSection("New Section", "", "", now)` and the full-page import (js/editor.js:178) is `AddSection("Full Page", html, "", now)`.
- `updatePreviewFromControls` (js/editor.js:104-127) is not modelled: it reads the form controls and, for a style already chosen, writes them into `currentStyle` field by field. After `applyStyleSet` (js/editor.js:709-712) `currentStyle` is the very object stored in `styleSets`, so those writes also change the stored set; the model treats style sets as values and does not capture this aliasing.
- `CardStyles.ShadowValue`: a name inherited from `Object.prototype` (`constructor`, `toString`, `__proto__`, …) is treated as unknown and gives `md`. In the source `shadows[name]` finds the inherited property, so such a name yields a function or object instead of a shadow string.
- `CardStyles.ShadowFallsBackToMedium`: holds for the model only; for a name inherited from `Object.prototype` the source does not fall back to `md`.
- `CardStyles.EntryKeyframes`: an entry type inherited from `Object.prototype` is treated as unknown and emits nothing. In the source `keyframes[type]` is then truthy and not a string, so the following `.split` throws.
- `Validate.Validation`: `maxLength` and `minLength` are integers. Fractional or string-typed rule values are not modelled.
- The `console.warn` of validation warnings and all `console.log` output.
- `generateAnimationCSS`'s `hover` parameter. It is never read.
- `generateCompleteCSS`, `generateHtml`/`exportHtml` and the CSS variable block that `renderPreview` builds from `textStyles`. These are page assembly around the modelled helpers.
- `renderStylePreview`, a DOM preview that duplicates the binding logic with single-brace tokens.
- Editing a section and the select-box path that parses a style id as a number.
- `Normalize.NormalizeFields`: each row's keys are computed in one loop and its values assigned in a second, instead of interleaving the two steps per entry. The random suffix for entry `j` of row `i` is `suffix(i, j)`, so the result does not depend on that order.
- The Python servers, the backup script and the style-checking scripts. They are HTTP, file system and console tools.

## Findings

| source | as written | input that shows it | evidently intended | confidence | as-written member | corrected member |
|---|---|---|---|---|---|---|
| js/editor.js:1479-1480 | the `from` keyframe is the table string up to its first `;`, and `to` is the rest | entry type `slideUp`: `from` is `transform: translateY(20px)` only, and `opacity: 0` ends up in `to` | `from` is the start state's declarations, and `to` is the end state's | high, not executed | `CardStyles.SlideUpStartsOpaque` | `CardStyles.EntryAnimationSplitsTable`, `CardStyles.SlideUpStartsTransparent` |
| js/editor.js:772 | `deleteStyleSet` filters with `s.id !== id`, but the delete button (line 974) passes the id as a string | a style set with a generated numeric id: deleting it from the list removes nothing | the set shown is removed, comparing ids as text as `applyStyleSet` does | medium, not executed | `Editor.UiDeleteKeepsNumericId` | `Editor.UiDeleteLooselyRemoves` |
| releases/aura-canvas-v0.2.0/js/sheets.js:180-188 | the cache is looked up by sheet id only | load tab `Sheet1`, then tab `Sheet2` of the same spreadsheet within five minutes: the second call returns `Sheet1`'s rows | a cached result is served only for the tab that was asked for | medium, not executed | `SheetLoader.OtherTabServed` | `SheetLoader.CorrectedServesAskedTab` |
