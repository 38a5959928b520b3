# JSON Beautifier: a Dafny model of the page script

The JSON Beautifier is a Laravel page. It fetches or accepts a JSON document
and shows it as a DataTables table. Each top-level record is a row with a `+` control cell.
Clicking that cell shows a detail row with one small nested table for each field whose
value is an object or array. All of this logic lives in the inline script
of `resources/views/json-beautifier.blade.php`, and this project models that script:

- `typeBadge` and `buildNestedTable` (module `NestedTable`);
- the header, row and detail-block markup `renderTable` builds (module `RowMarkup`);
- the page state those handlers change (module `Page`, class `Beautifier`). That state is the
  header and body markup, the live table, and per row whether its child
  is shown, the row's `shown` class, its control-cell text and the child markup
  DataTables keeps. The operations on it are the toggle handler, Expand All,
  Collapse All, Clear and the teardown at the start of `renderTable`.

The JavaScript value semantics the script relies on are written out in
`JsValues`:

- `typeof null === 'object'`;
- truthiness;
- `Object.keys` and `Object.entries` of arrays and strings yield index strings;
- `row[k]` reads own keys, canonical indices and `length`, and gives
  `undefined` for anything else;
- string concatenation of numbers, `null`, booleans and strings. Objects and
  arrays never reach it: they go through a badge or a nested table first.

Every place where the script throws a `TypeError` is a `Result.TypeError`:

- `Object.keys(null)` for a null nested row;
- `row[k]` on a null top-level record;
- `Object.entries(null)` when a null record is expanded.

Markup is built by concatenation exactly as the script builds it. `Markup`
adds a decoder, so contracts can state what a piece of markup *says*. For
example, a nested table reads back as exactly its header and its cells
whenever no text contains a closing tag. The script escapes nothing, and
`NestedTable.UnescapedHeaderCollides` shows two different tables with the
same markup.

Files: `wrappers.dfy`, `js_values.dfy`, `markup.dfy`, `nested_table.dfy`,
`row_markup.dfy`, `page.dfy`.

## Model

| member | source | states |
|---|---|---|
| NestedTable.BadgeClassifies | resources/views/json-beautifier.blade.php:38-44 | An array of length n gets the `Array(n)` badge. A non-null object gets the Object badge, a string the String badge, a number the Number badge. Null and booleans come back unchanged. Two badgeable values get the same badge iff they are the same kind (arrays: the same length). |
| NestedTable.CellText | resources/views/json-beautifier.blade.php:58 | What a cell shows for a value. Objects, arrays and null go through `typeBadge`, so null shows as "null". Booleans, numbers and strings are inserted as they are. |
| NestedTable.HeaderRecord | resources/views/json-beautifier.blade.php:51 | `obj[0] \|\| obj` is never null, so `Object.keys` of it does not throw. |
| NestedTable.CellsMarkup | resources/views/json-beautifier.blade.php:56-60 | The loop over a row's keys appends `<td>` cells. It builds exactly one element for each of the row's own keys, in key order. |
| NestedTable.HeaderMarkup | resources/views/json-beautifier.blade.php:51 | The header loop builds exactly one `<th>` element for each key, in order. |
| NestedTable.BodyMarkup | resources/views/json-beautifier.blade.php:54-61 | The body loop throws iff some row is null. Otherwise it builds one `<tr>` for each row, holding that row's cells. |
| NestedTable.BuildNestedTable | resources/views/json-beautifier.blade.php:46-65 | buildNestedTable yields the value specified by `NestedTableOf`: the argument unchanged for a non-object or null, a TypeError, or the framed table markup. |
| NestedTable.NestedTableThrowsIff | resources/views/json-beautifier.blade.php:47-57 | buildNestedTable throws exactly for an array that holds a null. A non-object or null argument comes back unchanged. |
| NestedTable.NestedHeader | resources/views/json-beautifier.blade.php:51 | The header is the keys of a truthy `obj[0]`. For an array with a falsy or missing first element, it is the array's own indices. For an object without key "0", it is the object's keys. For an object with an own key "0", it is the keys of that value when it is truthy and the object's own keys when it is not. |
| NestedTable.NestedRowsFollowEntries | resources/views/json-beautifier.blade.php:54-61 | There is one row for each record: the array's elements, or the object itself. Row i has exactly as many cells as record i has own keys, and cell j shows `CellText` of the j-th entry's value. |
| NestedTable.RowsIgnoreHeader | resources/views/json-beautifier.blade.php:51-57 | A concrete case where rows follow their own keys, not the header: `[{"a":1},{"b":2,"c":3}]` has header `a` and rows `1` / `2 3`. |
| NestedTable.GridRoundTrip | resources/views/json-beautifier.blade.php:49-63 | The markup of a table whose texts hold no closing tag reads back as exactly its header cells and its rows of cells. |
| NestedTable.UnescapedHeaderCollides | resources/views/json-beautifier.blade.php:51 | Header keys are not escaped, so one key `a</th><th>b` gives the same markup as the two keys `a` and `b`. |
| JsValues.ParseIndexIff | resources/views/json-beautifier.blade.php:93 | Reading `row[k]` from an array or string: k names index n iff k is the canonical decimal of n. |
| JsValues.GetOwnKey | resources/views/json-beautifier.blade.php:57-58 | The value `row[k]` gives for the j-th key of `Object.keys(row)` is the j-th entry's value. |
| JsValues.GetMissingKey | resources/views/json-beautifier.blade.php:93 | A key an object does not have reads as `undefined`. |
| RowMarkup.TopCellsMarkup | resources/views/json-beautifier.blade.php:92-95 | The loop over the columns appends exactly one `<td>` per column, in column order, each showing `row[k]` after the badge rule. |
| RowMarkup.BuildRow | resources/views/json-beautifier.blade.php:90-97 | A record's `<tr>` is the `+` control cell followed by one `<td>` per column, each holding `row[k]` after the badge rule. It throws iff the record is null and there is at least one column. |
| RowMarkup.TopRowRoundTrip | resources/views/json-beautifier.blade.php:91-96 | When no cell text contains `</td>`, a row reads back as exactly `keys.length` cells after the control cell, namely the values of its columns. |
| RowMarkup.TopRowCellsOfObject | resources/views/json-beautifier.blade.php:92-95 | In an object's row, cell j shows column j's value when the object has that key, and "undefined" when it does not. |
| RowMarkup.FirstRowShowsItsValues | resources/views/json-beautifier.blade.php:86-95 | A truthy first record with unique keys has one cell per entry in its own row, showing each entry's value once, in key order. That covers an object's fields, and an array's elements or a string's characters under their index keys. |
| RowMarkup.AbsentKeyLooksLikeString | resources/views/json-beautifier.blade.php:93-94 | An absent key renders exactly like the string value "undefined". |
| RowMarkup.RenderThrowsIff | resources/views/json-beautifier.blade.php:84-98 | Rendering throws iff there is at least one column and some record is null. The first record never throws. |
| RowMarkup.ColumnsFromFirstRecord | resources/views/json-beautifier.blade.php:86 | The columns are the keys of the first record when it is truthy, and none otherwise. Later records add none. |
| RowMarkup.ContainerEntriesExact | resources/views/json-beautifier.blade.php:114-118 | The detail block lists exactly the entries whose value is a non-null object or array. Each appears once, in entry order, at strictly increasing positions. |
| RowMarkup.BuildDetail | resources/views/json-beautifier.blade.php:112-138 | The detail block is `<div>`, then a bold key and the nested table for each listed entry, then `</div>`. It throws on a null record or when a nested table throws. Toggle and Expand All both call this one method. |
| RowMarkup.DetailThrowsIff | resources/views/json-beautifier.blade.php:114-116 | Expanding a row throws iff its record is null or one of its values is an array holding a null. |
| Page.StepsKeepConsistent | resources/views/json-beautifier.blade.php:107-123 | A toggle, an expansion and a collapse keep a row consistent. The class and glyph follow visibility, a shown row has a child, and the child is the record's detail block. |
| Page.ToggleTwice | resources/views/json-beautifier.blade.php:107-123 | Two clicks restore what the user sees. On a shown row they restore the row exactly, child included. |
| Page.ToggleShowsIff | resources/views/json-beautifier.blade.php:107-122 | A click shows the detail iff it was hidden and its block builds, and then the child is that block. |
| Page.StopIndexIff | resources/views/json-beautifier.blade.php:128-142 | Expand All stops early iff some hidden row's detail throws. |
| Page.ExpandAllIdempotent | resources/views/json-beautifier.blade.php:128-142 | A second Expand All changes nothing, whether or not the first one stopped early. |
| Page.ExpandAllShowsEverything | resources/views/json-beautifier.blade.php:128-142 | When Expand All finishes, every row is shown and holds its own record's detail block. |
| Page.ExpandAllIsClickingHiddenRows | resources/views/json-beautifier.blade.php:107-142 | Expand All does exactly what clicking each hidden row's control cell in turn does, stopping at the first click that throws. |
| Page.CollapseAllIsClickingShownRows | resources/views/json-beautifier.blade.php:107-153 | Collapse All does exactly what clicking each shown row's control cell in turn does. |
| Page.ExpandAllKeepsShownRows | resources/views/json-beautifier.blade.php:130 | Expand All leaves already-shown rows untouched. A hidden row it does not show is unchanged. |
| Page.AllStepsKeepConsistent | resources/views/json-beautifier.blade.php:128-154 | Expand All and Collapse All keep every row consistent with its record. |
| Page.CollapseAllHidesEverything | resources/views/json-beautifier.blade.php:147-153 | After Collapse All no child is shown and children are kept. A second Collapse All changes nothing. |
| Page.CollapseUndoesExpand | resources/views/json-beautifier.blade.php:128-153 | Collapse All after Expand All shows every row as a freshly rendered one. |
| Page.HeaderOf | resources/views/json-beautifier.blade.php:87-88 | `#jsonHeader` gets the control column's empty `<th>`, then one `<th>` per column, in order. |
| Page.BuildRows | resources/views/json-beautifier.blade.php:90-98 | The body gets exactly the rows of the records before the first one that throws, and all of them iff none throws. |
| Page.ExpandRows | resources/views/json-beautifier.blade.php:128-142 | The Expand All loop expands every hidden row before the first one whose detail throws, and stops there. It reports success iff it reached the end. |
| Page.CollapseRows | resources/views/json-beautifier.blade.php:147-153 | The Collapse All loop collapses exactly the shown rows. |
| Page.Beautifier.constructor | resources/views/json-beautifier.blade.php:36 | The page starts with no table, an empty header and body, and an empty input. |
| Page.Beautifier.HideChildren | resources/views/json-beautifier.blade.php:70-75 | Hides every row's child and changes nothing else. Class and glyph are untouched, as `row.child.hide()` leaves them. |
| Page.Beautifier.Teardown | resources/views/json-beautifier.blade.php:68-82 | Afterwards there is no live table, no rows or records, and empty header and body. The input is kept. |
| Page.Beautifier.RenderTable | resources/views/json-beautifier.blade.php:67-100 | The header is the empty `<th>` plus one `<th>` per column of the first record. The body holds the rows built before the first one that throws, and all of them when none throws. Only then does a live table exist, with every row fresh. The consistency invariant holds. |
| Page.Beautifier.Toggle | resources/views/json-beautifier.blade.php:103-124 | Row i changes to its toggled state and nothing else changes. When building the detail throws, nothing changes. |
| Page.Beautifier.ExpandAll | resources/views/json-beautifier.blade.php:127-143 | The rows become `ExpandedAll` of the old rows: every row before the first blocking one is expanded. It reports success iff no row blocked. |
| Page.Beautifier.CollapseAll | resources/views/json-beautifier.blade.php:146-154 | Every shown row is collapsed to `+`, unmarked, with its child kept. Nothing else changes. |
| Page.Beautifier.Clear | resources/views/json-beautifier.blade.php:178-198 | The input is empty and there is no table, no rows, and empty header and body. |

## Left out

- The fetch handler (`$.ajax`, `alert`) and the PHP controllers and routes. They are
  network I/O and calls into PHP's JSON functions and Laravel. Their only
  effect on this model is the value passed to `RenderTable`.
- JsValues.Entries, JsValues.Keys, JsValues.Get: a string is a sequence of
  Unicode scalar values, while JavaScript indexes UTF-16 code units. For a
  character outside the Basic Multilingual Plane, the model gives one index
  key and adds one to the `length`, where JavaScript gives two of each. This
  affects the columns of a string first record, the cells of string rows and
  `row[k]`. Lone surrogates, which JSON allows, cannot be represented.
- JsValues.Json: a `Num` holds an integer exactly, whatever its size. `JSON.parse` rounds integers
  beyond 2^53 to the nearest double, and the script prints the rounded value.
- Numbers are integers, printed in decimal. Fractions, exponents, `-0`, `NaN` and
  JavaScript's number-to-string rules for them are not modelled.
- Inherited properties are not modelled: `row[k]` for a key such as `toString`
  reads `undefined`. The engine's reordering of integer-like object keys is not
  modelled either; keys keep document order.
- DataTables itself is not modelled: sorting, paging, `row.index()` bookkeeping
  and the markup `DataTable()` adds. A row is identified by its position.
  Expand All and Collapse All visit every record's row, not only the rows on
  the current page.
- The `each` loops in Expand All, Collapse All and the teardown select
  `#jsonTable tbody tr`. That also matches the `<tr>` elements of child rows
  already open, including the rows of their nested tables. What
  `table.row(...)` returns for those depends on DataTables internals, so the
  model visits each DataTables row once.
- Event binding and unbinding (`off`/`on`) is left out. After a render that
  throws, the handlers of the previous table stay bound, but `table` is null,
  so any click throws before it changes anything. The model has no rows to
  click in that state.
- CSS and the markup outside the script are left out.
- HTML escaping is neither added nor assumed. The code escapes nothing and
  takes its columns from the first record's keys alone; the model follows the code.
