# TH_insights dashboard core, modelled in Dafny

TH_insights is a multi-tenant analytics dashboard. Administrators write SQL
"cards", lay them out on a grid, define filters and manage users; viewers see
the published layout, filter it, drill into rows and export them as CSV. This
project models the decision logic of that system and proves what it promises:

- **Parameter binder** (`ParameterBinder`, binder.dfy). The backend's
  `substituteParameters` is modelled as a method with the source's own loop:
  the processed set, the values list, the `$N` counter and the reassigned
  query string. Its result is tied to a reference definition `Bind`: tokenise
  the original template, give each distinct name a slot (`$i` or the
  wildcard `'%'`) in order of first appearance, then render. The lemmas about
  `Bind` state the promises:
  - indices are consecutive;
  - every occurrence shares one index;
  - `values[i-1]` is the value of the name that owns `$i`;
  - whole-word replacement;
  - nothing of the form `:name` is left;
  - a template without placeholders passes through unchanged;
  - the `::cast` quirk.
- **Rowset helpers**:
  - drill-down `{column}` substitution with SQL quote doubling (`Drilldown`);
  - CSV export with a reader proved to invert it (`Csv`, using the shared
    quote-doubling in `Quoting`);
  - the numeric conditional-format rules of the table and the pivot
    (`Formatting`);
  - the pivot's detail-row filter and expanded-row toggle (`Pivot`).
- **Layout arithmetic**:
  - the 12-column grid's clamped move and resize and its height (`Grid`);
  - the legacy percentage quadrants and card moves between them
    (`Quadrants`);
  - drag-to-reorder of tabs (`Tabs`);
  - the default 3-per-row placement and the editor's move/resize handlers
    (`Placement`);
  - the merge of the published layout with fresh card data (`Published`).
- **Filters and administration**:
  - the filter bar's active/sorted filters, defaults, change and clear
    (`FilterBar`);
  - the user routes' role checks, last-admin guard and dynamic
    `UPDATE … SET` builder (`Users`);
  - the `.env.example` validator script (`EnvCheck`);
  - the admin filter editor (`AdminFilters`);
  - the admin user page (`AdminUsers`).

Shared vocabulary lives in `Wrappers` (`Option`, `Result`) and `Js`:

- JavaScript values;
- objects as ordered association lists, with keys in the order they were
  added (JavaScript's own order puts array-index keys first; see Left out);
- property lookup and assignment;
- object spread;
- truthiness;
- `String(n)` for integers.

JavaScript numbers are modelled as integers where they are counts, indices or
grid units, and as reals where they are rule thresholds or percentages.
Network replies, file contents and parsed numbers are parameters. Each React
handler is one atomic state transition, written as a function or a method
from the old state (and the server's reply) to the new one.

## Model

| member | source | states |
|---|---|---|
| ParameterBinder.SubstituteParameters | backend/src/routes/dashboard.routes.ts:9-47 | the loop's query and values are exactly those of the reference binding `Bind` (distinct names in first-appearance order, supplied ones numbered, others `'%'`) |
| ParameterBinder.BindIndices | backend/src/routes/dashboard.routes.ts:23-43 | every matched name gets exactly one slot; a slot is the wildcard iff the value is undefined, null or empty; every `$i` for 1 ≤ i ≤ \|values\| is owned by some name, and no two names share an index |
| ParameterBinder.BindValuesAligned | backend/src/routes/dashboard.routes.ts:32-37 | a name bound to `$i` has 1 ≤ i ≤ \|values\| and `values[i-1]` is its parameter value |
| ParameterBinder.SlotsOrdered | backend/src/routes/dashboard.routes.ts:23-37 | of two supplied names, the one that appears first gets the smaller index |
| ParameterBinder.BindLeavesNoPlaceholder | backend/src/routes/dashboard.routes.ts:23-44 | the bound query contains no `:identifier` placeholder |
| ParameterBinder.BindWithoutPlaceholders | backend/src/routes/dashboard.routes.ts:17-46 | a template with no placeholder comes back unchanged with no values |
| ParameterBinder.CastColonIsPlaceholder | backend/src/routes/dashboard.routes.ts:17 | in `x::int` the second colon starts a placeholder `int` |
| ParameterBinder.ReplaceWordAtOther | backend/src/routes/dashboard.routes.ts:34-42 | replacing `:n` as a whole word leaves `:m` untouched for a different identifier m (so `:id` never alters `:identifier`) |
| ParameterBinder.ReplaceWordAtMatch | backend/src/routes/dashboard.routes.ts:34-35 | a whole-word occurrence of `:n` is replaced by the replacement text |
| ParameterBinder.ReplaceRender | backend/src/routes/dashboard.routes.ts:33-42 | replacing a name in the rendered template equals rendering with that name's slot added |
| ParameterBinder.RenderTokenize | backend/src/routes/dashboard.routes.ts:17-18 | rendering the tokens with no slot assigned gives back the template |
| ParameterBinder.TokenizeWellFormed | backend/src/routes/dashboard.routes.ts:17 | every placeholder token is an identifier not followed by a word character |
| ParameterBinder.DistinctFirstAppearance | backend/src/routes/dashboard.routes.ts:21-28 | the distinct names are ordered by their first appearance |
| ParameterBinder.Distinct | backend/src/routes/dashboard.routes.ts:21-28 | holds exactly the matched names, each once |
| ParameterBinder.DistinctStep | backend/src/routes/dashboard.routes.ts:26-28 | a repeated name is skipped and a new one appended |
| ParameterBinder.BindStep | backend/src/routes/dashboard.routes.ts:30-43 | one loop step appends the value and renders `$N`, or renders `'%'` and appends nothing |
| ParameterBinder.BindStart | backend/src/routes/dashboard.routes.ts:9-47 | before the loop, nothing is bound and the query is the original text |
| ParameterBinder.BindFinish | backend/src/routes/dashboard.routes.ts:9-47 | after every distinct name, the query and values are those of `Bind` |
| ParameterBinder.WordRun | backend/src/routes/dashboard.routes.ts:17 | the identifier run is the longest prefix of word characters |
| ParameterBinder.ParamNames | backend/src/routes/dashboard.routes.ts:18 | holds exactly the names of placeholder tokens |
| ParameterBinder.SlotText | backend/src/routes/dashboard.routes.ts:35-42 | a replacement text is non-empty, has no colon and does not start with a word character |
| ParameterBinder.SlotsKeys | backend/src/routes/dashboard.routes.ts:21-28 | slots are assigned exactly to the processed names |
| ParameterBinder.SlotsWildcard | backend/src/routes/dashboard.routes.ts:32-43 | a slot is the wildcard iff the value is not supplied |
| ParameterBinder.SlotsAt | backend/src/routes/dashboard.routes.ts:32-37 | the k-th distinct name gets one more than the number of supplied names before it |
| ParameterBinder.SlotInRange | backend/src/routes/dashboard.routes.ts:35-37 | a positional index lies in 1..\|values\| and points at the name's value |
| ParameterBinder.SlotOwner | backend/src/routes/dashboard.routes.ts:35-37 | each index up to \|values\| has an owning name |
| ParameterBinder.SlotsInjective | backend/src/routes/dashboard.routes.ts:35-37 | different names never share a positional slot |
| ParameterBinder.NoMatchesWithoutPlaceholder | backend/src/routes/dashboard.routes.ts:17-18 | no placeholder means no matches |
| Quoting.ReadDoubledRoundTrip | frontend/src/components/EnhancedTable.tsx:107 | reading a quote-doubled text (also the CSV quoting at line 153) up to its closing quote gives back the text and the rest |
| Drilldown.HandleRowClick | frontend/src/components/EnhancedTable.tsx:82-115 | nothing is sent unless drill-down is enabled with a query; otherwise the query after the per-key loop equals the specification `Substituted` |
| Drilldown.ReplacementValue | frontend/src/components/EnhancedTable.tsx:104-112 | the literal is the SQL literal of the value; a string literal reads back as the original string |
| Drilldown.ReplaceAll | frontend/src/components/EnhancedTable.tsx:114 | global literal replacement; its meaning is fixed by `ReplaceAllIsJoin`, `SplitOnRestores` and `SplitOnPiecesFree` |
| Drilldown.Substituted | frontend/src/components/EnhancedTable.tsx:99-115 | the query after the first n row keys have been substituted; its steps are characterised by `SubstitutedStep` |
| Drilldown.StringLiteralRoundTrip | frontend/src/components/EnhancedTable.tsx:105-107 | a quoted, quote-doubled string reads back exactly |
| Drilldown.NonStringLiteralUnquoted | frontend/src/components/EnhancedTable.tsx:108-111 | non-strings carry no quote; null and undefined become `NULL` |
| Drilldown.NoPlaceholdersUnchanged | frontend/src/components/EnhancedTable.tsx:99-115 | a query mentioning no row key's placeholder is sent unchanged |
| Drilldown.SubstitutedAbsentStep | frontend/src/components/EnhancedTable.tsx:99-115 | one more key whose placeholder is absent leaves the query unchanged |
| Drilldown.AbsentColumnKept | frontend/src/components/EnhancedTable.tsx:99-115 | a `{column}` for a column absent from the row survives the substitution |
| Drilldown.AbsentColumnStep | frontend/src/components/EnhancedTable.tsx:99-115 | one more substituted key keeps a `{column}` of an absent column |
| Drilldown.PlaceholderSurvives | frontend/src/components/EnhancedTable.tsx:114 | replacing `{k}` never destroys an occurrence of `{j}` for j ≠ k |
| Drilldown.SubstitutedStep | frontend/src/components/EnhancedTable.tsx:99-115 | each loop step cuts the query at the occurrences of one key's placeholder (the pieces glue back to the query and none contains the placeholder) and joins the pieces with that key's literal, so every occurrence present before the step is replaced |
| Drilldown.ReplaceAllIsJoin | frontend/src/components/EnhancedTable.tsx:114 | global replacement is the split joined with the replacement text |
| Drilldown.SplitOnPiecesFree | frontend/src/components/EnhancedTable.tsx:114 | no piece of the split contains the pattern, so with `SplitOnRestores` the pieces are the text cut at every occurrence |
| Drilldown.SplitOnHeadPrefix | frontend/src/components/EnhancedTable.tsx:114 | the first piece of the split is a prefix of the text |
| Drilldown.HeadPieceFree | frontend/src/components/EnhancedTable.tsx:114 | a character put before a pattern-free piece keeps it pattern-free unless the pattern starts the text there |
| Drilldown.ReplaceAllSelf | frontend/src/components/EnhancedTable.tsx:114 | replacing a pattern by itself changes nothing |
| Drilldown.SplitOnRestores | frontend/src/components/EnhancedTable.tsx:114 | joining the pieces with the pattern restores the text |
| Drilldown.NoOccurrenceUnchanged | frontend/src/components/EnhancedTable.tsx:114 | a text without the pattern is unchanged |
| Drilldown.Placeholder | frontend/src/components/EnhancedTable.tsx:100 | the placeholder is the key in braces |
| Csv.ExportRoundTrip | frontend/src/components/EnhancedTable.tsx:137-160 | for headers needing no quoting, reading the export back yields the header line then every row's cells under the first row's keys |
| Csv.EmptyExportsNothing | frontend/src/components/EnhancedTable.tsx:138 | an empty rowset produces no file |
| Csv.ExportLines | frontend/src/components/EnhancedTable.tsx:144-160 | the export is the header line followed by one quoted record per row |
| Csv.ExportToCsv | frontend/src/components/EnhancedTable.tsx:137-160 | nothing exactly for an empty rowset; its content is read back by `ExportRoundTrip` |
| Csv.FieldRoundTrip | frontend/src/components/EnhancedTable.tsx:150-155 | a quoted-if-needed field reads back exactly |
| Csv.QuotedFieldRoundTrip | frontend/src/components/EnhancedTable.tsx:150-155 | a field that needs quoting, quoted and followed by a boundary, reads back exactly |
| Csv.PlainRoundTrip | frontend/src/components/EnhancedTable.tsx:152-155 | a field needing no quotes reads back verbatim |
| Csv.RecordRoundTrip | frontend/src/components/EnhancedTable.tsx:147-156 | a comma-joined quoted record reads back as its cells |
| Csv.DocumentRoundTrip | frontend/src/components/EnhancedTable.tsx:160 | newline-joined records read back as the records |
| Csv.RecordIsQuotedCells | frontend/src/components/EnhancedTable.tsx:146-156 | a row's record is its cells under the headers, each quoted if needed |
| Csv.RecordsAreLines | frontend/src/components/EnhancedTable.tsx:146-157 | every record line is the quoted cells of its row |
| Csv.Cells | frontend/src/components/EnhancedTable.tsx:147-151 | one cell per header, the value's text or empty for null/undefined/missing |
| Csv.Records | frontend/src/components/EnhancedTable.tsx:146-157 | one record per row, in order |
| Csv.KeylessFirstRowReadsAsEmptyCells | frontend/src/components/EnhancedTable.tsx:137-160 | when the first row has no keys every line is empty, and the file reads back as one empty cell per line |
| Csv.HeaderWithCommaSplits | frontend/src/components/EnhancedTable.tsx:145 | a header containing a comma is not quoted and reads back as two columns |
| Formatting.NeverAppliesToNaN | frontend/src/components/EnhancedTable.tsx:489-505 | a non-number never matches, nor does an unknown operator |
| Formatting.ShouldApplyRule | frontend/src/components/EnhancedTable.tsx:485-507 | a rule applies only to a number and a known operator; the comparisons are fixed by `ScalarTrichotomy`, `BetweenIsClosedInterval` and `MalformedThresholds` |
| Formatting.ScalarTrichotomy | frontend/src/components/EnhancedTable.tsx:493-498 | exactly one of greater, less and equals holds for a number and a threshold |
| Formatting.BetweenIsClosedInterval | frontend/src/components/EnhancedTable.tsx:499-503 | between [lo, hi] holds iff neither less-than-lo nor greater-than-hi |
| Formatting.MalformedThresholds | frontend/src/components/EnhancedTable.tsx:494-503 | between without a 2-element list, equals with a list and a comparison against a long list are all false |
| Formatting.AsNumber | frontend/src/components/EnhancedTable.tsx:494 | a scalar threshold is its number; a list of two or more is NaN |
| Formatting.FindRule | frontend/src/components/EnhancedTable.tsx:211 | the found rule is in the list and names the column; none iff no rule names it |
| Formatting.FindRuleIsFirst | frontend/src/components/EnhancedTable.tsx:210-216 | the rule consulted is the first one for the column |
| Formatting.NumberConversions | frontend/src/components/EnhancedTable.tsx:489-490 | the table's `Number` and the pivot's `parseFloat` (PivotTable.tsx:39-40) agree on numbers and on undefined; null, booleans and the empty string are numbers only to `Number`; other strings go through two different parsers |
| Formatting.EmptyCellColouredOnlyByTable | frontend/src/components/EnhancedTable.tsx:489-496 | a `less` rule with a positive threshold colours an empty cell in the table (it reads as 0) but never in the pivot (PivotTable.tsx:39-40, where it is NaN) |
| Formatting.TableCellStyleSpec | frontend/src/components/EnhancedTable.tsx:207-216 | padding always; colours and weight 500 exactly when the first rule applies |
| Formatting.TableCellStyle | frontend/src/components/EnhancedTable.tsx:207-216 | the table cell's style object, characterised by `TableCellStyleSpec` |
| Formatting.PivotCellStyleSpec | frontend/src/components/PivotTable.tsx:60-76 | the base style unless the first rule for the column applies; then colours and weight set and every other key kept |
| Formatting.PivotCellStyle | frontend/src/components/PivotTable.tsx:60-76 | `getCellStyle`, characterised by `PivotCellStyleSpec` |
| Pivot.GetDetailRows | frontend/src/components/PivotTable.tsx:89-98 | empty without data or config; otherwise a row is kept iff it agrees with the pivot row on every row field |
| Pivot.FilterIsSubsequence | frontend/src/components/PivotTable.tsx:95-97 | the detail rows are an order-preserving subsequence of the raw data |
| Pivot.NoRowFieldsKeepsAll | frontend/src/components/PivotTable.tsx:95-97 | no row fields keeps every raw row |
| Pivot.DisjointDetails | frontend/src/components/PivotTable.tsx:95-97 | pivot rows differing on a row field share no detail row |
| Pivot.FilterAgreeing | frontend/src/components/PivotTable.tsx:95-97 | the filter keeps exactly the agreeing rows |
| Pivot.FilterMultiplicity | frontend/src/components/PivotTable.tsx:95-97 | an agreeing raw row occurs in the detail rows as often as in the raw data, any other row never |
| Pivot.ToggleRow | frontend/src/components/PivotTable.tsx:78-86 | the index flips membership and every other index is unchanged |
| Pivot.Toggled | frontend/src/components/PivotTable.tsx:78-86 | the clicked index flips membership and every other index keeps it |
| Pivot.ToggleTwice | frontend/src/components/PivotTable.tsx:78-86 | toggling twice restores the set |
| Pivot.OnRowClick | frontend/src/components/PivotTable.tsx:183-192 | a click toggles only when raw data is non-empty |
| Pivot.ShownDetail | frontend/src/components/PivotTable.tsx:181-182 | a collapsed row shows nothing; shown rows come from the raw data |
| Grid.MovedInBounds | frontend/src/components/DashboardGrid.tsx:209-210 | after a move x ≥ 0, y ≥ 0, x + width ≤ 12 when width ≤ 12, the exact target when it fits, and nothing else changes |
| Grid.ResizedInBounds | frontend/src/components/DashboardGrid.tsx:232-233 | after a resize width, height ≥ 1, x + width ≤ 12 when x ≤ 11, the exact size when it fits, and nothing else changes |
| Grid.MoveCards | frontend/src/components/DashboardGrid.tsx:204-214 | only cards with the id are moved |
| Grid.UpdateCardPosition | frontend/src/components/DashboardGrid.tsx:203-224 | the card list keeps its length and a position is reported only to a set callback; the rest is stated by `UpdateCardPositionSpec` |
| Grid.UpdateCardSize | frontend/src/components/DashboardGrid.tsx:226-247 | the card list keeps its length and a size is reported only to a set callback; the rest is stated by `UpdateCardSizeSpec` |
| Grid.ResizeCards | frontend/src/components/DashboardGrid.tsx:227-237 | only cards with the id are resized |
| Grid.FindCard | frontend/src/components/DashboardGrid.tsx:216 | finds (as at line 239) the first card with the id, or none when absent |
| Grid.UpdateCardPositionSpec | frontend/src/components/DashboardGrid.tsx:203-224 | other cards unchanged, only x/y change; a report exists iff a callback is set and the card exists, and it equals the new position of that card |
| Grid.UpdateCardSizeSpec | frontend/src/components/DashboardGrid.tsx:226-247 | the same for width/height |
| Grid.ReduceMaxBottomIsMax | frontend/src/components/DashboardGrid.tsx:250 | the reduction is the maximum of the start value and every card's bottom |
| Grid.GridHeightCoversCards | frontend/src/components/DashboardGrid.tsx:250-251 | the height is 2 rows for no cards and always covers every card plus 2 rows |
| Quadrants.ClampSpec | frontend/src/components/DashboardGrid_old.tsx:277 | the clamp lies in [lo, hi] when lo ≤ hi, is the identity inside, and is lo when hi < lo |
| Quadrants.UpdateQuadrant | frontend/src/components/DashboardGrid_old.tsx:279-281 | only quadrants with the id get the patch |
| Quadrants.CollapseToggles | frontend/src/components/DashboardGrid_old.tsx:405 | collapsing flips only that quadrant's flag |
| Quadrants.FindQuadrant | frontend/src/components/DashboardGrid_old.tsx:286-287 | finds a quadrant with the id, none iff absent |
| Quadrants.FindQuadrantFirst | frontend/src/components/DashboardGrid_old.tsx:286-287 | the one found is the first |
| Quadrants.FindCard | frontend/src/components/DashboardGrid_old.tsx:291 | finds a card with the id, none iff absent |
| Quadrants.FindCardFirst | frontend/src/components/DashboardGrid_old.tsx:291 | the card found is the first one with the id, as `Array.find` returns |
| Quadrants.RemoveCardAppend | frontend/src/components/DashboardGrid_old.tsx:296 | the card filter distributes over concatenation, so the kept cards stay in their order with all their copies |
| Quadrants.RemoveCardSingle | frontend/src/components/DashboardGrid_old.tsx:296 | a single card is kept exactly when its id differs (with the previous row this fixes the result for every list) |
| Quadrants.RemoveCard | frontend/src/components/DashboardGrid_old.tsx:296 | keeps exactly the cards with another id |
| Quadrants.RemoveCardLength | frontend/src/components/DashboardGrid_old.tsx:296 | drops exactly as many cards as carry the id |
| Quadrants.DropNoOp | frontend/src/components/DashboardGrid_old.tsx:289-292 | a missing source, target or card leaves the quadrants unchanged |
| Quadrants.DropMovesCard | frontend/src/components/DashboardGrid_old.tsx:285-302 | when source and target exist, differ, and the source holds the card, the layout changes: the source's cards become `RemoveCard` of them (every card with the id gone, the rest in order), the target gets exactly the found card appended after its old cards, all other fields and quadrants are unchanged |
| Quadrants.DropPreservesCount | frontend/src/components/DashboardGrid_old.tsx:294-302 | with distinct source and target and a unique card id the total card count is preserved |
| Quadrants.SelfDropLosesCard | frontend/src/components/DashboardGrid_old.tsx:295-299 | dropping onto its own quadrant loses the card |
| Quadrants.OnDrop | frontend/src/components/DashboardGrid_old.tsx:96-105 | no change when drag-and-drop is off, no handler is set, or the source is the target |
| Quadrants.DropNotice | frontend/src/components/DashboardGrid_old.tsx:305-307 | `onCardMoved` is called exactly when it is set, with card, source and target |
| Quadrants.IgnoredDropStillNotifies | frontend/src/components/DashboardGrid_old.tsx:282-308 | a drop that leaves the layout unchanged still reports the move to the parent |
| Quadrants.GuardedDropPreservesCount | frontend/src/components/DashboardGrid_old.tsx:96-105 | through the caller's guard the card count is always preserved |
| Quadrants.AddQuadrant | frontend/src/components/DashboardGrid_old.tsx:311-323 | exactly one quadrant is appended and the others are untouched |
| Quadrants.AddQuadrantSpec | frontend/src/components/DashboardGrid_old.tsx:313-321 | the new quadrant is empty, 30×30, at x = y = 10 + (5n mod 50), within the canvas |
| Quadrants.RemoveQuadrant | frontend/src/components/DashboardGrid_old.tsx:325-327 | keeps exactly the quadrants with another id |
| Quadrants.RemoveQuadrantAppend | frontend/src/components/DashboardGrid_old.tsx:325-327 | the filter distributes over concatenation, so it keeps the quadrants in their order |
| Quadrants.RemoveQuadrantSingle | frontend/src/components/DashboardGrid_old.tsx:325-327 | a single quadrant is kept exactly when its id differs (with the previous row this fixes the result for every list) |
| Quadrants.RemoveQuadrantKeepsOthers | frontend/src/components/DashboardGrid_old.tsx:325-327 | an absent id changes nothing; a present one shortens the list |
| Quadrants.ResetLayoutSpec | frontend/src/components/DashboardGrid_old.tsx:329-336 | four empty quadrants with distinct ids, on the canvas and pairwise apart |
| Quadrants.MoveQuadrantSpec | frontend/src/components/DashboardGrid_old.tsx:407-412 | the moved quadrant stays on the canvas, only its x/y change, others untouched |
| Quadrants.ResizeQuadrantSpec | frontend/src/components/DashboardGrid_old.tsx:413-418 | width and height at least 10 and within the canvas, only they change |
| Tabs.HandleDrop | frontend/src/components/DashboardTabs.tsx:37-61 | ignored unless admin, handler and drag; a drop on its own index only clears; otherwise reports `Reorder` |
| Tabs.ReorderShape | frontend/src/components/DashboardTabs.tsx:48-56 | the result is remove-at-source, insert-at-target, renumbered |
| Tabs.Reorder | frontend/src/components/DashboardTabs.tsx:48-56 | every tab's order is its new index; shape, permutation and placement are stated by `ReorderShape`, `ReorderPermutes` and `ReorderPlacesDragged` |
| Tabs.ReorderPermutes | frontend/src/components/DashboardTabs.tsx:48-50 | the tab ids are a permutation of the input's |
| Tabs.ReorderKeepsOthersInOrder | frontend/src/components/DashboardTabs.tsx:48-50 | the other tabs keep their relative order |
| Tabs.ReorderPlacesDragged | frontend/src/components/DashboardTabs.tsx:50-56 | the dragged tab is at the target and every `tab_order` equals its position |
| Tabs.DropOnItselfReportsNothing | frontend/src/components/DashboardTabs.tsx:41-46 | the source index is the dragged tab's first position |
| Tabs.StaleDragDropsLastTab | frontend/src/components/DashboardTabs.tsx:41-49 | a dragged id no longer present removes the last tab |
| Tabs.FindIndex | frontend/src/components/DashboardTabs.tsx:41 | the first index with the id, −1 iff absent |
| Tabs.Renumber | frontend/src/components/DashboardTabs.tsx:53-56 | each tab's order becomes its index |
| Tabs.SpliceRemoveOne | frontend/src/components/DashboardTabs.tsx:49 | removes one element when the start is in range, counting negative starts from the end |
| Tabs.SpliceInsert | frontend/src/components/DashboardTabs.tsx:50 | inserts exactly one element |
| Tabs.IdsInsert | frontend/src/components/DashboardTabs.tsx:50 | an insertion adds exactly the dragged id |
| Tabs.IdsRemove | frontend/src/components/DashboardTabs.tsx:49 | a removal takes exactly one id away |
| Placement.DefaultLayout | frontend/src/pages/AdminDashboard.tsx:19-25 | card i is placed at ((i mod 3)·4, ⌊i/3⌋·2) with size 4×2 |
| Placement.DefaultLayoutSpec | frontend/src/pages/AdminDashboard.tsx:19-25 | order, ids and card data kept; every card fits the 12 columns; no two overlap |
| Placement.DefaultPlacesDisjoint | frontend/src/pages/AdminDashboard.tsx:21-24 | placements of distinct indices never overlap |
| Placement.HandleCardMoved | frontend/src/pages/AdminDashboard.tsx:40-44 | only the matching card's x and y change |
| Placement.HandleCardResized | frontend/src/pages/AdminDashboard.tsx:46-50 | only the matching card's width and height change |
| Placement.MoveReportSynchronises | frontend/src/components/DashboardGrid.tsx:216-223 | applying the grid's move report in the editor gives the grid's own cards |
| Placement.ResizeReportSynchronises | frontend/src/components/DashboardGrid.tsx:239-246 | the same for the resize report |
| Published.LoadDashboard | frontend/src/pages/Dashboard.tsx:17-38 | no published layout gives the error and no cards; otherwise one card per published card |
| Published.MergeCards | frontend/src/pages/Dashboard.tsx:32-38 | one merged card per published card, in published order |
| Published.MergeCardSpec | frontend/src/pages/Dashboard.tsx:33-37 | fresh fields override, published-only fields are kept, the id is kept |
| Published.MergeCard | frontend/src/pages/Dashboard.tsx:33-37 | one published card spread with its fresh copy, characterised by `MergeCardSpec` |
| Published.UnmatchedCardKept | frontend/src/pages/Dashboard.tsx:33-37 | a published card with no fresh match is unchanged |
| Published.MergeKeepsPublishedIds | frontend/src/pages/Dashboard.tsx:32-37 | the ids are exactly the published ones, so fresh-only cards never appear |
| Published.FindById | frontend/src/pages/Dashboard.tsx:33 | a found card has the id; none iff no fresh card has it |
| FilterBar.ActiveSortedSpec | frontend/src/components/FilterBar.tsx:33-35 | exactly the active filters, sorted by display order, a permutation, and stable for equal orders |
| FilterBar.SortByOrderSpec | frontend/src/components/FilterBar.tsx:35 | sorted, a permutation, and stable |
| FilterBar.SortByOrder | frontend/src/components/FilterBar.tsx:35 | the sort keeps the length; sortedness, permutation and stability are `SortByOrderSpec` |
| FilterBar.InsertSorted | frontend/src/components/FilterBar.tsx:35 | insertion keeps the list sorted |
| FilterBar.InsertPermutes | frontend/src/components/FilterBar.tsx:35 | insertion adds exactly the element |
| FilterBar.InsertStable | frontend/src/components/FilterBar.tsx:35 | insertion places the element after the equal orders |
| FilterBar.Active | frontend/src/components/FilterBar.tsx:34 | only active filters are kept |
| FilterBar.ActiveMembership | frontend/src/components/FilterBar.tsx:34 | a filter is kept iff it is active |
| FilterBar.DefaultsSpec | frontend/src/components/FilterBar.tsx:40-45 | a key is present iff some filter has a truthy default for it, and its value is the last such default |
| FilterBar.DefaultsOf | frontend/src/components/FilterBar.tsx:40-45 | at most one default per filter; which keys and values is `DefaultsSpec` |
| FilterBar.LastDefaultSpec | frontend/src/components/FilterBar.tsx:41-44 | the last default wins: it comes from a filter with no later default for that parameter |
| FilterBar.CollectDefaults | frontend/src/components/FilterBar.tsx:40-45 | the loop builds the defaults object |
| FilterBar.LoadFilters | frontend/src/components/FilterBar.tsx:30-54 | the filters become the sorted active ones and the values their defaults, which are reported; a failure only stops loading |
| FilterBar.HandleFilterChange | frontend/src/components/FilterBar.tsx:56-60 | the value at the changed key is set, every other key is unchanged, and the new values are reported |
| FilterBar.HandleClearFilters | frontend/src/components/FilterBar.tsx:62-71 | the values become exactly the defaults of the loaded filters, and they are reported |
| FilterBar.ClearRestoresLoaded | frontend/src/components/FilterBar.tsx:62-71 | after any changes, clearing gives back the values loaded at start |
| FilterBar.ChangedKeepsFilters | frontend/src/components/FilterBar.tsx:56-60 | changes never alter the filter list |
| FilterBar.DateRangeKeys | frontend/src/components/FilterBar.tsx:219-232 | a date range stores two distinct keys `<param>_start`/`<param>_end`, neither the bare parameter |
| FilterBar.Shown | frontend/src/components/FilterBar.tsx:153 | a select (and the text box at line 202) shows the value when truthy and an empty string otherwise |
| FilterBar.HiddenCases | frontend/src/components/FilterBar.tsx:73-75 | nothing is shown while loading or without active filters |
| Users.CreateUserSpec | backend/src/routes/users.routes.ts:31-46 | created iff email and password are given and the role is absent or valid; the role defaults to user and the name to the email |
| Users.CreateUser | backend/src/routes/users.routes.ts:31-46 | a user is created only with a truthy email and password and a valid role, keeping the email |
| Users.LastAdminGuardKeepsAnAdmin | backend/src/routes/users.routes.ts:60-70 | an admin removal passes only when another active admin remains; no removal always passes |
| Users.RemovingAdminCases | backend/src/routes/users.routes.ts:92-94 | an update removes an admin iff the user is an active admin and the role becomes user or activity false |
| Users.ReactivationNeverRemovesAdmin | backend/src/routes/users.routes.ts:92-94 | an update with no role and no deactivation never counts as removal |
| Users.DeleteUserSpec | backend/src/routes/users.routes.ts:137-157 | an unknown user is 404; otherwise it proceeds iff not an active admin or another active admin remains |
| Users.DeleteUser | backend/src/routes/users.routes.ts:137-157 | the soft delete runs only for a known user, bound to the id and the tenant |
| Users.PutUser | backend/src/routes/users.routes.ts:73-134 | invalid role 400, unknown user 404, last-admin refusal 400; past those guards, 400 "No changes provided" when no field is given and otherwise the corrected update query with its values bound |
| Users.BuildUpdateAsWritten | backend/src/routes/users.routes.ts:98-125 | the SET list as written: clauses numbered from `$2`, with the id and tenant at `$k+2`/`$k+3` |
| Users.AsWrittenDoesNotBind | backend/src/routes/users.routes.ts:101-124 | as written, the placeholders do not line up with the values and the last one has no value |
| Users.AsWrittenNameOnly | backend/src/routes/users.routes.ts:101-124 | a name-only update produces `name = $2 … id = $3 AND tenant_id = $4` with three values |
| Users.BuildUpdate | backend/src/routes/users.routes.ts:98-125 | the corrected builder numbers clauses from `$1` |
| Users.CorrectedBinds | backend/src/routes/users.routes.ts:101-124 | with the correction every placeholder refers to its own value, the id and the tenant |
| Users.FieldsOrder | backend/src/routes/users.routes.ts:101-121 | the SET columns are name, role, is_active, password_hash in that order, each iff provided; none means "No changes provided" |
| Users.FinishUpdate | backend/src/routes/users.routes.ts:119-125 | no field gives 400 "No changes provided", otherwise the query with the id and the tenant appended |
| Users.PushColumnIf | backend/src/routes/users.routes.ts:101-117 | one conditional push keeps the clauses and values in step |
| Users.SetClauses | backend/src/routes/users.routes.ts:101-117 | the i-th clause is `<column> = $<first+i>` |
| Users.ColumnValues | backend/src/routes/users.routes.ts:101-117 | the values follow the fields |
| Users.BuiltSql | backend/src/routes/users.routes.ts:123 | the joined clauses form the specified statement |
| EnvCheck.ParseEnvExample | scripts/validate-env.js:4-15 | a missing file gives null; otherwise the set of keys declared on the lines |
| EnvCheck.CollectKeys | scripts/validate-env.js:8-13 | the loop collects exactly the declared keys |
| EnvCheck.KeysOfMembership | scripts/validate-env.js:7-13 | a key is in the set iff some line declares it, so duplicates collapse |
| EnvCheck.KeyOfLineSpec | scripts/validate-env.js:9-12 | a trimmed line declares a key iff it is non-empty, not a comment and has `=` after position 0; the key is the text before the first `=` |
| EnvCheck.KeyOfLineDeclares | scripts/validate-env.js:9-12 | a trimmed line declares a key iff it is non-empty, not a comment and has `=` after position 0 |
| EnvCheck.KeyOfLineName | scripts/validate-env.js:9-12 | a declared key followed by `=` starts the trimmed line and starts with neither `#` nor a space |
| EnvCheck.KeyOfLine | scripts/validate-env.js:9-12 | a declared name is non-empty and contains no `=` |
| EnvCheck.CommentedLineIgnored | scripts/validate-env.js:10 | an indented comment declares nothing |
| EnvCheck.SpaceBeforeEqualsKept | scripts/validate-env.js:9-12 | `NAME =v` declares `NAME ` with its trailing space |
| EnvCheck.SplitLines | scripts/validate-env.js:8 | at least one line, none containing a newline |
| EnvCheck.SplitLinesRestores | scripts/validate-env.js:8 | without carriage returns, joining the lines restores the text |
| EnvCheck.TrimStart | scripts/validate-env.js:9 | removes exactly the leading white space |
| EnvCheck.TrimEnd | scripts/validate-env.js:9 | removes exactly the trailing white space |
| EnvCheck.TrimStartSkips | scripts/validate-env.js:9 | leading spaces before a non-space are dropped |
| EnvCheck.IndexOf | scripts/validate-env.js:11 | −1 iff absent, else the first position |
| EnvCheck.IndexOfAt | scripts/validate-env.js:11 | the first occurrence is found |
| EnvCheck.Missing | scripts/validate-env.js:23 | a name is missing iff required and absent |
| EnvCheck.MissingAppend | scripts/validate-env.js:23 | the filter distributes over concatenation, so the required order is kept |
| EnvCheck.MissingSingle | scripts/validate-env.js:23 | a single name is kept iff absent |
| EnvCheck.EnsureKeysExist | scripts/validate-env.js:17-30 | true iff the file exists and no required key is missing, with the matching console line |
| EnvCheck.ValidateEnv | scripts/validate-env.js:37-44 | both files are checked, exit code 0 iff both pass; the log holds the backend's then the frontend's report line, then the success line on success |
| AdminFilters.SaveEnabledSpec | frontend/src/pages/AdminFilters.tsx:342-349 | save is enabled iff name, label and parameter are filled and a select kind (line 107) has a choice; the cursor agrees |
| AdminFilters.ResetFormSpec | frontend/src/pages/AdminFilters.tsx:39-52 | a reset form cannot be saved, would create, and resetting is idempotent |
| AdminFilters.ResetForm | frontend/src/pages/AdminFilters.tsx:39-52 | after a reset no filter is being edited |
| AdminFilters.AddOption | frontend/src/pages/AdminFilters.tsx:90-98 | with both inputs filled the choice is appended and the inputs cleared; otherwise nothing changes |
| AdminFilters.RemoveOption | frontend/src/pages/AdminFilters.tsx:100-105 | exactly the choice at the index goes, order kept; an out-of-range index changes nothing |
| AdminFilters.WithoutIndex | frontend/src/pages/AdminFilters.tsx:103 | the list without the index |
| AdminFilters.AddThenRemove | frontend/src/pages/AdminFilters.tsx:90-105 | removing the choice just added restores the choices |
| AdminFilters.HandleEdit | frontend/src/pages/AdminFilters.tsx:68-80 | the filter is being edited and its choices fill the form, a missing list as empty |
| AdminFilters.Save | frontend/src/pages/AdminFilters.tsx:54-66 | sends the form, as an update iff a filter is being edited |
| AdminFilters.EditThenSave | frontend/src/pages/AdminFilters.tsx:54-80 | editing and saving sends an update to that filter with its fields |
| AdminUsers.SubmitRequest | frontend/src/pages/AdminUsers.tsx:66-92 | refused iff a new user has no password or a typed password differs from its confirmation, with the matching message; otherwise PUT for an edit, POST with the password for a new user |
| AdminUsers.UpdatePayload | frontend/src/pages/AdminUsers.tsx:76-81 | the password key is present iff a password was typed |
| AdminUsers.CreatePayload | frontend/src/pages/AdminUsers.tsx:85-90 | carries the email and the password |
| AdminUsers.HandleSubmit | frontend/src/pages/AdminUsers.tsx:62-100 | a refusal shows its message; success replaces (update) or appends (create) and resets the form; failure shows the error and keeps the form |
| AdminUsers.ReplaceByIdSpec | frontend/src/pages/AdminUsers.tsx:83 | with distinct ids, only the entry with the returned id is replaced (as after a toggle, line 118); an unknown id changes nothing |
| AdminUsers.ReplaceById | frontend/src/pages/AdminUsers.tsx:83 | keeps the list's length |
| AdminUsers.StartEdit | frontend/src/pages/AdminUsers.tsx:102-112 | the user's fields fill the form, a null name as empty, both password fields blank |
| AdminUsers.EditThenSubmit | frontend/src/pages/AdminUsers.tsx:76-112 | opening a user and submitting sends a PUT to that user without a password |
| AdminUsers.ToggleRequest | frontend/src/pages/AdminUsers.tsx:117 | sends only the flipped activity |
| AdminUsers.ToggleActive | frontend/src/pages/AdminUsers.tsx:114-122 | the returned user replaces its entry, or the error is shown |
| AdminUsers.ToggleFlipsOne | frontend/src/pages/AdminUsers.tsx:114-118 | a successful toggle flips exactly that user's activity |
| Js.PutSpec | frontend/src/components/FilterBar.tsx:57 | assigning a key sets it, keeps every other key, and appends the key only when new |
| Js.SpreadGet | frontend/src/pages/Dashboard.tsx:34-37 | a spread takes the right-hand object's value for its keys and the left's otherwise |
| Js.SpreadKeys | frontend/src/pages/Dashboard.tsx:34-37 | the spread's keys start with the left object's keys, and a key is present iff either object has it |

## Left out

- Database, network and file I/O are left out; their results are parameters. This covers:
  - pg queries and transactions;
  - the Express routing around `substituteParameters`;
  - `api.get`/`post`/`put`;
  - `fs.existsSync`/`readFileSync`, where file contents are `Option<string>`;
  - `path.basename`, passed in as a field.
- `console.log`/`console.error` output is modelled as a log line. `process.exit(1)` becomes the exit code.
- Asynchrony is left out. Each React handler is one atomic state transition, with no interleaving or `setState` batching.
- Rendering is left out: JSX, styling other than the conditional-format style objects, `toLocaleString`, the Blob and download in `exportToCSV`.
- Pixel-based drag and resize handlers are left out. They convert mouse deltas with window sizes and `Math.round`. The model starts from grid or percentage deltas.
- `Number` and `parseFloat` string parsing is left out. They are two separate parameters from non-empty strings to `Option<real>`. In JavaScript they differ on many strings (`"12px"`, `"0x10"`, surrounding white space), and the model does not relate them. `Formatting.NumberConversions` fixes what is known without parsing: numbers, undefined, null, booleans and the empty string. Rule thresholds are reals, not IEEE doubles.
- Drilldown.HandleRowClick: requires that row keys are plain identifiers and that values contain no `$`. `String.replace` would interpret `$&`, `$1` and similar in the replacement text, and a key is put into a RegExp with only braces escaped. The model treats both as literal text.
- Js.PutSpec, Js.SpreadKeys and Csv.ExportToCsv: object keys are kept in the order they were added. JavaScript lists array-index keys ("0", "2024") first, in ascending numeric order, whatever the insertion order. So for a row with the columns `region` then `2024` the model's CSV header is `region,2024` where the source writes `2024,region`. The same difference affects the order of drill-down substitutions and of the keys of an object spread.
- JavaScript's `String(v)` for non-integral numbers is left out. Numeric values are integers rendered in decimal.
- ParameterBinder.SubstituteParameters: values are scalars only. A multi-select filter sends an array (FilterBar.tsx:176-179), which the binder pushes as one value; an empty array `[]` counts as supplied there, not as `'%'`. The lookup `params[name]` also finds members inherited from `Object.prototype` (`:constructor`, `:toString`), so those names count as supplied even when no filter is set. The model's lookup sees only the object's own keys.
- FilterBar.HandleFilterChange: values are scalars only. The array a multi-select control stores is not modelled.
- Drilldown.ReplacementValue: values are scalars only. `String(v)` of an array (comma-joined elements) or of an object (`[object Object]`) is not modelled.
- Csv.ExportRoundTrip: applies only to headers that need no quoting. The source does not quote header names. `Csv.HeaderWithCommaSplits` shows what happens otherwise.
- Csv.ExportRoundTrip: also needs a first row with at least one key. A keyless first row exports only empty lines, and those read back as one empty cell each (`Csv.KeylessFirstRowReadsAsEmptyCells`), not as rows without cells.
- The CSV `!data` null guard is not modelled. The rowset is a sequence.
- `bcrypt.hash` is left out. The hash is a parameter of the update builder.
- `parseInt` of the id and of the admin count is left out. Both are integers.
- FilterBar.SortByOrder: the source sorts a copy in place with the engine's `sort`. It is modelled on values as a stable insertion sort; only sortedness, permutation and stability are claimed.
- `Date.now()` in `addQuadrant` is left out. The new id is a parameter. `localStorage` persistence of quadrants is left out too.
- `loadUsers` and `load` (list reloads) and `handleDelete` of the admin pages are left out. They only fetch or confirm.

## Findings

| source | as written | input that shows it | evidently intended | confidence | as-written member | corrected member |
|---|---|---|---|---|---|---|
| backend/src/routes/users.routes.ts:101-124 | each SET clause is numbered `updates.length + 1` before the push, but `updates` already holds `updated_at = NOW()` while `values` starts empty, so the first field is `$2` and the WHERE clause uses `$k+2`/`$k+3` for k fields with only k+2 values | a body with only `name: "Ann"`: `SET updated_at = NOW(), name = $2 WHERE id = $3 AND tenant_id = $4` with values `["Ann", id, tenant]` | placeholders numbered by `values.length + 1`, so field i is `$i` and the id and tenant are `$k+1`/`$k+2` | not executed | Users.AsWrittenDoesNotBind | Users.CorrectedBinds |
