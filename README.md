# Cross-tab visual: a verified model of `Visual.parseData`

The visual turns a Power BI categorical data view into a contingency table.
`Visual.parseData` (src/visual.ts) does it in two stages, and this project
models both, together with its helpers `Visual.round` and `Visual.sum`.

1. **Normalisation.** The category values become the table's columns and are
   sorted as a copy. Each value series (labelled by its `groupName`) becomes a
   row, in source order. Each row is re-indexed into the sorted column order
   by label lookup. Then the row totals, column totals and overall total are
   computed.
2. **Layout.** A `for` loop over `row` pushes one array of cell records per
   emitted grid row:
   - two header rows;
   - one group of `m` sub-rows per series, where `m` is 1 plus the number
     of enabled percentage flags: Count, then "% row", "% column" and
     "% total" for the flags that are on;
   - a footer group of `m` sub-rows with the column totals.

   Each cell record has a content, a rowspan, a colspan and a border style.
   A position covered by an earlier span holds a skip entry.

The project has five modules:

- `Percent`: `round` as exact rational arithmetic. `Tenths(num, den)` is
  `Math.round(1000 * num / den)`. `Round` prints it the way the template
  literal does ("40%", "33.3%"). `ParsePercent` reads the text back.
- `CrossTab`: the normalisation (`Normalise`). It includes the default string
  sort, `indexOf`, `reduce(sum)`, and the column-total fold both as written
  and as intended.
- `Layout`: a declarative description of the grid. `CellFor` gives the cell
  at every position and `Grid` gives the whole output. It also holds the
  lemmas about the grid's shape, span/skip coverage, sub-row order, borders
  and labels.
- `Shares`: what the grid's cells show, and what the percentage cells add up
  to.
- `Visual`: the imperative layout loop (`EmitGrid`) and its row builders,
  each a method with a column loop. Each is proved to emit exactly the
  corresponding part of `Layout.Grid`. `ParseData` composes `Normalise`
  and `EmitGrid`.

How the code is modelled:

- **Orientation.** The category values are the columns and the series are the
  rows. Column labels are sorted with JavaScript's default order: character by
  character, with a proper prefix first.
- **Cell values.** Cells are natural numbers.
- **Percentages.** A percentage is `num / den` of two natural numbers,
  rounded half up to tenths of a percent. A zero denominator prints "NaN%"
  (0 / 0) or "Infinity%".
- **Styles.** A style is a record: the vertical and horizontal alignment and
  the four border widths in pixels. An edge the CSS text leaves out is 0.

Three behaviours of the code are easy to get wrong:

- **Which way round.** The category values (`cat.categories[0].values`) are
  the columns and are sorted. The value series (`cat.values`) are the rows,
  in source order. For example, series X = [3, 2] and Y = [5, 1] over the
  categories B, A become the rows [2, 3] and [1, 5] under the columns A, B
  (`CrossTab.TwoByTwoNormalised`).
- **Whole percentages.** A whole percentage prints without a decimal point:
  two fifths is "40%", not "40.0%" (`Percent.RoundOfFifths`).
- **Empty columns.** The `|| 0` after `round` on the "% column" cells never
  applies, because `round` always returns a non-empty string. A column
  whose total is 0 shows "NaN%" in its "% column" cells
  (`Shares.EmptyColumnPercentages`).

The column totals in the normalised table are the column sums. The code as
written computes something else when there is a single series (see
Findings); `CrossTab.ColFold` models that behaviour on its own.

## Model

| member | source | states |
|---|---|---|
| Percent.Tenths | src/visual.ts:514-516 | the tenths t that round prints for num / den are the nearest whole number to 1000 * num / den, halves rounded up: 2000·num − den < 2·den·t ≤ 2000·num + den |
| Percent.TenthsOfWhole | src/visual.ts:514-516 | a positive count over itself is exactly 1000 tenths |
| Percent.TenthsAtMostWhole | src/visual.ts:514-516 | a part of a positive whole never rounds above 100% |
| Percent.NatToString | src/visual.ts:515 | the decimal text JavaScript prints for a whole number: never empty, digits only, most significant first |
| Percent.FormatTenths | src/visual.ts:515 | the template literal applied to t / 10: the whole part, then "." and the tenths digit only when t is not a multiple of 10, then "%" |
| Percent.ParseNatToString | src/visual.ts:515 | the decimal digits JavaScript prints for a whole number read back as that number |
| Percent.Round | src/visual.ts:514-516 | the text round returns always ends in "%" and is never empty, so the `\|\| 0` after it on line 349 can never take effect |
| Percent.FormatTenthsParses | src/visual.ts:515 | the printed form of a number of tenths (no decimal point for whole percentages, one decimal otherwise) reads back as exactly those tenths |
| Percent.RoundParses | src/visual.ts:514-516 | the text of round(num / den) reads back as the rounded tenths when den > 0, and as no number at all ("NaN%", "Infinity%") when den = 0 |
| Percent.RoundOfWhole | src/visual.ts:190 | round(n / n) for a positive n is exactly the literal allPct, "100%" |
| Percent.RoundOfNothing | src/visual.ts:321 | 0 over a positive total prints "0%" |
| Percent.RoundOfFifths | src/visual.ts:321 | 2/5 and 3/5 print as "40%" and "60%" |
| CrossTab.LexLe | src/visual.ts:143 | the order `sort()` uses with no comparator: compare character by character, and a proper prefix comes before the longer string |
| CrossTab.LexLeTotal | src/visual.ts:143 | any two labels are ordered one way or the other by the default sort comparison |
| CrossTab.LexLeAntisymmetric | src/visual.ts:143 | two labels ordered both ways are equal |
| CrossTab.LexLeTransitive | src/visual.ts:143 | the default sort comparison is transitive |
| CrossTab.LexLeReflexive | src/visual.ts:143 | every label is ordered before or equal to itself |
| CrossTab.Insert | src/visual.ts:143 | inserting a label adds exactly that label to the multiset of labels |
| CrossTab.InsertSorted | src/visual.ts:143 | inserting into a sorted sequence keeps it sorted |
| CrossTab.SortLabels | src/visual.ts:142-143 | colReordered is sorted ascending and is a permutation of colOrder |
| CrossTab.SortedUnique | src/visual.ts:142-143 | two sorted permutations of the same labels are equal, so colReordered is the only possible result of the sort |
| CrossTab.IndexOf | src/visual.ts:146 | indexOf returns the first position holding the label, and -1 exactly when the label is absent |
| CrossTab.ReduceSum | src/visual.ts:154 | reduce(sum) without a seed over a non-empty array is the sum of its elements |
| CrossTab.ColFold | src/visual.ts:155-169 | the column fold as written: with one series it returns the first row itself, not a number; with more it yields a number |
| CrossTab.ColFoldSumsColumn | src/visual.ts:155-169 | with two series or more the fold as written is the sum of the column (a zero cell adds nothing) |
| CrossTab.SingleSeriesColumnTotal | src/visual.ts:155-169 | with one series every column total is the whole first row, never the column's sum |
| CrossTab.ColTotal | src/visual.ts:155-169 | the intended column total is the sum of the column |
| CrossTab.RowTotals | src/visual.ts:154 | every row total is the sum of its row |
| CrossTab.ColTotals | src/visual.ts:155-169 | one column total per column, each the sum of that column; this is the corrected total, which differs from the code as written for a single series (see Findings) |
| CrossTab.ReindexAll | src/visual.ts:144-148 | one row per series with one entry per sorted column; entry c is the series' value at the first category equal to colReordered[c] |
| CrossTab.GroupNames | src/visual.ts:275 | row r is labelled with series r's groupName |
| CrossTab.Normalise | src/visual.ts:135-170 | colOrder is left in source order; colReordered is its sorted permutation; every row is re-indexed by first match; rowTotals, colTotals and overallTotal are the row, column and grand sums; colTotals are the corrected sums (see Findings) |
| CrossTab.Tabulate | src/visual.ts:144-170 | for any column order drawn from the categories, the table holds the re-indexed series and their row, column and grand sums; the column totals are the corrected sums (see Findings) |
| CrossTab.SumOfColumnSums | src/visual.ts:154-170 | adding up the column sums gives the same as adding up the row sums |
| CrossTab.SumFlatten | src/visual.ts:154-170 | adding up every entry of the table, row after row, gives the sum of the row sums |
| CrossTab.FlattenLength | src/visual.ts:144-148 | a table of R rows of C entries has R * C entries |
| CrossTab.FlattenAt | src/visual.ts:144-148 | entry (r, c) of the table is entry r * C + c of its row-after-row flattening |
| CrossTab.ColumnTotalsAddUp | src/visual.ts:155-170 | in every table with the row, column and grand sums, sum(colTotals) == overallTotal |
| CrossTab.ColumnTotalsAsWritten | src/visual.ts:155-169 | with two series or more, the fold as written gives exactly the column totals the model uses |
| CrossTab.TwoByTwoColumns | src/visual.ts:142-143 | categories B, A come out as columns A, B |
| CrossTab.TwoByTwoTable | src/visual.ts:144-170 | for columns A, B the series X = [3, 2], Y = [5, 1] become [2, 3] and [1, 5], with row totals 5, 6, column totals 3, 8 and overall total 11 |
| CrossTab.TwoByTwoNormalised | src/visual.ts:135-170 | normalising that example gives exactly that table |
| Layout.Kinds | src/visual.ts:175-178 | a group has rowMultiplier sub-rows, and the first is Count |
| Layout.KindsInOrder | src/visual.ts:286-384 | a group shows exactly the enabled metrics, each once, in the order Count, "% row", "% column", "% total" |
| Layout.MetricName | src/visual.ts:287-489 | the metric cell's label: "Count", "% row", "% column" or "% total" |
| Layout.KindAtIsKinds | src/visual.ts:309-384 | sub-row s shows Count first, then "% row" if on, then "% column" if on, then "% total" |
| Layout.Locate | src/visual.ts:191-508 | every grid row is a header row, a sub-row of a series group or a footer sub-row, emitted at exactly that index |
| Layout.LocateRowIndex | src/visual.ts:191-508 | every position is emitted at exactly one row inside the grid |
| Layout.CellFor | src/visual.ts:193-503 | the cell at column j of the row emitted for a position, by the kind of row |
| Layout.Header1Cell | src/visual.ts:195-233 | header row 1: the 3-wide, 2-high blank corner, the column variable spanning the C data columns, skips under both spans, and the 2-high "Total" heading |
| Layout.Header2Cell | src/visual.ts:234-253 | header row 2: skips under the corner, the sorted column labels, and a skip under "Total" |
| Layout.DataCell | src/visual.ts:256-384 | sub-row s of series r: the row variable spanning all R * m data rows on the first one, the groupName spanning m rows on the group's first sub-row, skips below both, the metric name, C value cells and the Total cell; a bottom border of 1px on the group's last sub-row only |
| Layout.FooterCell | src/visual.ts:386-503 | footer sub-row s: "Total" and a blank, each spanning m rows on the first sub-row, skips below them, the metric name, C column cells and the overall cell; a bottom border of 2px on the last sub-row only |
| Layout.ValueContent | src/visual.ts:292-378 | data cell (r, c): the value for Count, otherwise round of the value over the row total (line 321), the column total (349) or the overall total (375) |
| Layout.RowTotalContent | src/visual.ts:300-382 | a series' Total cell: the row total for Count, "100%" for "% row" (328), round(rowTotal / overallTotal) for "% column" (356) and "% total" (380) |
| Layout.ColumnContent | src/visual.ts:414-497 | a footer data cell: the column total for Count, "100%" for "% column" (470), round(colTotal / overallTotal) for "% row" (444) and "% total" (494) |
| Layout.OverallContent | src/visual.ts:422-501 | the footer's Total cell: the overall total for Count (423), "100%" on every percentage sub-row (451, 477, 499) |
| Layout.RowFor | src/visual.ts:191-508 | every emitted row has C + 4 entries, skips included |
| Layout.Grid | src/visual.ts:191-508 | the output has 2 + (R + 1) * m rows of C + 4 entries |
| Layout.GridAt | src/visual.ts:191-508 | the entry at (i, j) is the cell for column j of the position of row i |
| Layout.OwnerCovers | src/visual.ts:193-503 | every position is reached by the span of an owner at or before it, and an entry is a skip exactly when its owner is another position |
| Layout.CoverIsOwner | src/visual.ts:193-503 | every position a span reaches lies inside the grid and is owned by that span, so every covered position other than the origin is a skip |
| Layout.CoverFromHeader | src/visual.ts:195-253 | the 3×2 corner, the C-wide column-variable cell and the 2-high "Total" cell cover only skips |
| Layout.CoverFromData | src/visual.ts:258-283 | the R*m-high row-variable cell and the m-high series labels cover only skips |
| Layout.CoverFromFooter | src/visual.ts:389-407 | the m-high footer "Total" and blank cells cover only skips |
| Layout.RowVarSpan | src/visual.ts:258-272 | every data sub-row's first column belongs to the row-variable span, and all but the first are skips |
| Layout.GroupSpan | src/visual.ts:273-283 | every sub-row's second column belongs to its series' label span, and all but the first are skips |
| Layout.FooterSpan | src/visual.ts:389-407 | the footer's first two columns belong to the "Total" and blank spans, and all but the first sub-row are skips |
| Layout.SubRowMetric | src/visual.ts:286-503 | row i's metric cell names metric (i − 2) mod m of the flag-ordered list, in the series groups and in the footer |
| Layout.BottomBorder | src/visual.ts:288-500 | the metric, data and total cells have a bottom border only on the group's last sub-row: 1px in a series group, 2px in the footer |
| Layout.GroupLabel | src/visual.ts:273-283 | column 1 shows series (i − 2) / m's groupName with rowspan m on the group's first sub-row and is a skip elsewhere |
| Layout.RowVariableCell | src/visual.ts:258-272 | column 0 shows the row variable with rowspan R*m on row 2 only, and skips on every other data row |
| Layout.RowVariableAt | src/visual.ts:258-272 | the first column of a series sub-row opens the row-variable span exactly at grid row 2 |
| Layout.ColumnHeaders | src/visual.ts:239-251 | header row 2 lists colReordered in order, one label per data column |
| Shares.TenthsSumBracket | src/visual.ts:514-516 | the rounded tenths of several shares add up to the exact total within half a tenth per share |
| Shares.SharesOfWhole | src/visual.ts:514-516 | rounded shares of a positive whole add up to 100% within half a tenth of a percent per share, and no share is above 100% |
| Shares.CellAt | src/visual.ts:191-508 | the grid cell at a position is the cell the layout prescribes there |
| Shares.ShowsRound | src/visual.ts:514-516 | a cell showing round(num / den) reads back as the rounded tenths |
| Shares.ValueCell | src/visual.ts:292-299 | data column c of a series sub-row shows entry c of the series, in the sub-row's metric |
| Shares.RowTotalCell | src/visual.ts:300-305 | the Total column of a series sub-row shows the row total, in the sub-row's metric |
| Shares.FooterValueCell | src/visual.ts:414-421 | data column c of a footer sub-row shows column total c, in the sub-row's metric |
| Shares.OverallCell | src/visual.ts:422-428 | the Total column of a footer sub-row shows the overall total, in the sub-row's metric |
| Shares.RowPercentages | src/visual.ts:319-324 | the "% row" cells of a series read back as its values' rounded shares of the row total, which add up to 100% within rounding |
| Shares.RowPercentTotal | src/visual.ts:326-330 | the "% row" Total cell is "100%", which is also what rounding the row total over itself prints |
| Shares.ColumnPercentages | src/visual.ts:347-352 | down the series groups, a column's "% column" cells are the rounded shares of its total, adding up to 100% within rounding; the footer cell is "100%" |
| Shares.EmptyColumnPercentages | src/visual.ts:349 | in a column with total 0 every cell is 0, and every "% column" cell shows "NaN%" |
| Shares.TotalPercentages | src/visual.ts:378-381 | the Total cells of the "% total" sub-rows are the rounded shares of the row totals in the overall total, adding up to 100% within rounding |
| Shares.TablePercentages | src/visual.ts:373-378 | the data cells of a "% total" sub-row read back as each entry's rounded share of the overall total, and the R * C shares of the whole table add up to 100% within half a tenth per cell |
| Shares.TableShareCells | src/visual.ts:375 | every data cell of a "% total" sub-row reads back as its entry's rounded share of the overall total |
| Shares.TableShareCell | src/visual.ts:375 | one such cell, and where its entry sits in the flattened table |
| Shares.TotalShareCells | src/visual.ts:380 | every series' "% total" Total cell reads back as its row total's rounded share of the overall total |
| Shares.FooterPercentages | src/visual.ts:440-456 | the footer's "% row" and "% total" cells are the column totals' rounded shares of the overall total, adding up to 100% within rounding; the Total cell is "100%" |
| Shares.CountCells | src/visual.ts:286-429 | the Count cells show the values and row totals; the footer's Count cells show column sums and the grand total, which is also the sum of the column totals |
| Visual.TopHeaderRow | src/visual.ts:193-233 | the first row pushed is the grid's header row 1: the corner, the column-variable span, C − 1 skips and the "Total" heading |
| Visual.ColumnLabelRow | src/visual.ts:234-253 | the second row pushed is the grid's header row 2 |
| Visual.Edge | src/visual.ts:288-304 | the bottom border of a sub-row's cells: the solid width when no enabled flag adds a later sub-row, 0 otherwise |
| Visual.DataCountRow | src/visual.ts:256-306 | the Count sub-row of series r is the grid's row for that sub-row |
| Visual.DataRowPctRow | src/visual.ts:309-334 | the "% row" sub-row is sub-row 1 of the group |
| Visual.DataColPctRow | src/visual.ts:337-362 | the "% column" sub-row is sub-row 2 of the group with "% row" on, sub-row 1 without |
| Visual.DataTotalPctRow | src/visual.ts:365-384 | the "% total" sub-row is the group's last sub-row |
| Visual.FooterCountRow | src/visual.ts:386-429 | the footer's Count sub-row is the grid's footer row 0 |
| Visual.FooterRowPctRow | src/visual.ts:432-457 | the footer's "% row" sub-row is footer sub-row 1 |
| Visual.FooterColPctRow | src/visual.ts:458-483 | the footer's "% column" sub-row is footer sub-row 2 with "% row" on, 1 without, whose cells are all "100%" |
| Visual.FooterTotalPctRow | src/visual.ts:484-503 | the footer's "% total" sub-row is the last footer sub-row |
| Visual.SeriesGroup | src/visual.ts:254-385 | the rows pushed for series r are exactly the m sub-rows of its group, in flag order |
| Visual.FooterGroup | src/visual.ts:386-503 | the rows pushed for the footer are exactly its m sub-rows, in flag order |
| Visual.GridRow | src/visual.ts:191-508 | the row emitted for a position is the grid row at that position's index |
| Visual.GroupRowIndex | src/visual.ts:254-503 | sub-row s of group r is grid row 2 + r * m + s |
| Visual.AppendRow | src/visual.ts:233 | pushing the next row keeps the output a prefix of the grid |
| Visual.AppendGroup | src/visual.ts:254-503 | pushing a whole group keeps the output a prefix of the grid and advances it by m rows |
| Visual.RowMultiplier | src/visual.ts:175-178 | rowMultiplier is 1 plus the number of enabled flags, between 1 and 4, the size of every group |
| Visual.EmitGrid | src/visual.ts:171-508 | the loop emits exactly the grid: after row k the output is the grid's first rows, and at the end it is the whole grid |
| Visual.ParseData | src/visual.ts:132-510 | parseData returns the grid of the normalised table |

## Left out

- The constructor and `update` (src/visual.ts:60-128) build DOM elements, set attributes and log to the console. The model stops at the grid `parseData` returns; the renderer only drops the skip entries.
- `parseSettings` and `enumerateObjectInstances` (src/visual.ts:522-535) wrap the Power BI settings library. The three percentage flags are plain booleans (`Layout.Flags`). The settings module is not part of this model.
- `console.log` in `parseData` is output only.
- CrossTab.Categorical: category values are strings here. A data view's category values can also be numbers, dates, booleans or null. `sort()` orders their `String()` forms (so 10 comes before 9), `indexOf` compares the raw values, and header row 2 prints the raw value. The model is exact only when the labels are read as those `String()` forms.
- CrossTab.WellFormed: counts and their sums are unbounded natural numbers. In the source they are JavaScript doubles, exact only up to 2^53, so the row, column and overall totals are modelled exactly only below that bound.
- Percent.Tenths: works on exact rationals and leaves out `Number.EPSILON` and IEEE-754 rounding. A double quotient just below a half can round differently from the exact value.
- CrossTab.LexLe: compares Dafny characters (code points). JavaScript's default sort compares UTF-16 code units, so the two differ only for labels outside the Basic Multilingual Plane.
- CrossTab.WellFormed: every cell is a natural number, so null, undefined and negative cells are excluded. Because of that, the `typeof t == 'object'` / `t !== null` branches of the column fold and the `|| 0` on Count cells (src/visual.ts:294) are modelled only for natural numbers.
- CrossTab.WellFormed: at least one category and one series are required. With none, the source's `reduce` throws or indexes `values[0]` out of range.
- The fields `numCols`, `numRows`, `columns` and `reduceCategories` are never read and are left out.
- Styles keep only the alignments and the four border widths, not the CSS text.
- Duplicate category values are modelled as written: `indexOf` picks the first match. So both duplicate columns show the first one's values, and a row total can then differ from the series' own sum. No lemma states this case separately.
- Visual.EmitGrid: the output is a `seq` of rows that the loop reassigns, not a JavaScript array pushed in place. Nothing else can see the output while it is built, so no aliasing is lost.
- CrossTab.Normalise, CrossTab.Tabulate, CrossTab.ColTotals: the column totals are the column sums. With a single series the code as written yields the first row instead (see Findings).
- Visual.ParseData: uses the intended column totals (`CrossTab.ColTotal`). The single-series behaviour as written is modelled on its own (see Findings) and is not fed into the layout.

## Findings

| source | as written | input that shows it | evidently intended | confidence | as-written member | corrected member |
|---|---|---|---|---|---|---|
| src/visual.ts:155-169 | `values.reduce(cb)` has no initial value, so with a single series it returns `values[0]` without calling `cb`, and every column total is the whole first row (an array) | one series [2, 3] over two categories: both column totals are the array [2, 3], and the footer's Count cells print "2,3" | each column total is the sum of its column, as it is with two series or more | high; not executed | CrossTab.ColFold, CrossTab.SingleSeriesColumnTotal | CrossTab.ColTotal |
