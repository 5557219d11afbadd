/**
  Visual.parseData as the program runs it: normalise the categorical data,
  then walk `row` from 0 to R + 2 and push one array of cells per emitted
  grid row.  Every builder below is proved to produce exactly the row that
  Layout.RowFor describes, so the whole output is Layout.Grid.
 */
module Visual {
  import opened Percent
  import opened CrossTab
  import opened Layout

  /** Header row 0: the 3 x 2 corner, the column variable spanning the data
      columns, and the 2-high "Total" heading. */
  method TopHeaderRow(d: Table, f: Flags) returns (thisRow: seq<Cell>)
    requires ValidTable(d)
    ensures thisRow == RowFor(d, f, Header1)
  {
    thisRow := [Shown(Text(""), 2, 3, CornerStyle)];
    thisRow := thisRow + [Skip];
    thisRow := thisRow + [Skip];
    thisRow := thisRow + [Shown(Text(d.colVar), 1, |d.colLabels|, ColVarStyle)];
    for col := 1 to |d.colLabels|
      invariant |thisRow| == 3 + col
      invariant forall j :: 0 <= j < |thisRow| ==> thisRow[j] == CellFor(d, f, Header1, j)
    {
      thisRow := thisRow + [Skip];
    }
    thisRow := thisRow + [Shown(Text("Total"), 2, 1, TotalHeadStyle)];
  }

  /** Header row 1: the sorted column labels between the skips of the
      corner and of the "Total" heading. */
  method ColumnLabelRow(d: Table, f: Flags) returns (thisRow: seq<Cell>)
    requires ValidTable(d)
    ensures thisRow == RowFor(d, f, Header2)
  {
    thisRow := [Skip, Skip, Skip];
    for colVal := 0 to |d.colLabels|
      invariant |thisRow| == 3 + colVal
      invariant forall j :: 0 <= j < |thisRow| ==> thisRow[j] == CellFor(d, f, Header2, j)
    {
      thisRow := thisRow + [Plain(Text(d.colLabels[colVal]), ColLabelStyle)];
    }
    thisRow := thisRow + [Skip];
  }

  /** The bottom border of a sub-row: `solid` when the flags say no later
      sub-row follows, 0 otherwise. */
  function Edge(last: bool, solid: nat): nat
  {
    if last then solid else 0
  }

  /** The Count sub-row of series r, which also opens the row-variable span
      (on the first series) and the series label span. */
  method DataCountRow(d: Table, f: Flags, rowMultiplier: nat, r: nat) returns (thisRow: seq<Cell>)
    requires ValidTable(d) && r < |d.values| && rowMultiplier == |Kinds(f)|
    ensures thisRow == RowFor(d, f, Data(r, 0))
  {
    var last := !f.row && !f.column && !f.total;
    if r == 0 {
      thisRow := [Shown(Text(d.rowVar), |d.values| * rowMultiplier, 1, RowVarStyle)];
    } else {
      thisRow := [Skip];
    }
    thisRow := thisRow + [Shown(Text(d.rowNames[r]), rowMultiplier, 1, GroupStyle)];
    thisRow := thisRow + [Plain(Text("Count"), BaseStyle(2, Edge(last, 1)))];
    for col := 0 to |d.colLabels|
      invariant |thisRow| == 3 + col
      invariant forall j :: 0 <= j < |thisRow| ==> thisRow[j] == CellFor(d, f, Data(r, 0), j)
    {
      thisRow := thisRow + [Plain(Number(d.values[r][col]), DataStyle(1, Edge(last, 1)))];
    }
    thisRow := thisRow + [Plain(Number(d.rowTotals[r]), DataStyle(2, Edge(last, 1)))];
  }

  /** The "% row" sub-row of series r: each value over the row total. */
  method DataRowPctRow(d: Table, f: Flags, r: nat) returns (thisRow: seq<Cell>)
    requires ValidTable(d) && r < |d.values| && f.row
    ensures thisRow == RowFor(d, f, Data(r, 1))
  {
    var last := !f.column && !f.total;
    thisRow := [Skip, Skip];
    thisRow := thisRow + [Plain(Text("% row"), BaseStyle(2, Edge(last, 1)))];
    for col := 0 to |d.colLabels|
      invariant |thisRow| == 3 + col
      invariant forall j :: 0 <= j < |thisRow| ==> thisRow[j] == CellFor(d, f, Data(r, 1), j)
    {
      thisRow := thisRow + [Plain(Text(Round(d.values[r][col], d.rowTotals[r])), DataStyle(1, Edge(last, 1)))];
    }
    thisRow := thisRow + [Plain(Text(AllPct), DataStyle(2, Edge(last, 1)))];
  }

  /** The "% column" sub-row of series r: each value over its column total,
      and the row total over the overall total. */
  method DataColPctRow(d: Table, f: Flags, r: nat) returns (thisRow: seq<Cell>)
    requires ValidTable(d) && r < |d.values| && f.column
    ensures thisRow == RowFor(d, f, Data(r, if f.row then 2 else 1))
  {
    var last := !f.total;
    thisRow := [Skip, Skip];
    thisRow := thisRow + [Plain(Text("% column"), BaseStyle(2, Edge(last, 1)))];
    for col := 0 to |d.colLabels|
      invariant |thisRow| == 3 + col
      invariant forall j :: 0 <= j < |thisRow| ==>
        thisRow[j] == CellFor(d, f, Data(r, if f.row then 2 else 1), j)
    {
      thisRow := thisRow + [Plain(Text(Round(d.values[r][col], d.colTotals[col])), DataStyle(1, Edge(last, 1)))];
    }
    thisRow := thisRow + [Plain(Text(Round(d.rowTotals[r], d.overallTotal)), DataStyle(2, Edge(last, 1)))];
  }

  /** The "% total" sub-row of series r, always the last of its group. */
  method DataTotalPctRow(d: Table, f: Flags, r: nat) returns (thisRow: seq<Cell>)
    requires ValidTable(d) && r < |d.values| && f.total
    ensures thisRow == RowFor(d, f, Data(r, |Kinds(f)| - 1))
  {
    thisRow := [Skip, Skip];
    thisRow := thisRow + [Plain(Text("% total"), BaseStyle(2, 1))];
    for col := 0 to |d.colLabels|
      invariant |thisRow| == 3 + col
      invariant forall j :: 0 <= j < |thisRow| ==> thisRow[j] == CellFor(d, f, Data(r, |Kinds(f)| - 1), j)
    {
      thisRow := thisRow + [Plain(Text(Round(d.values[r][col], d.overallTotal)), DataStyle(1, 1))];
    }
    thisRow := thisRow + [Plain(Text(Round(d.rowTotals[r], d.overallTotal)), DataStyle(2, 1))];
  }

  /** The footer's Count sub-row, which also opens the "Total" label span
      and the blank span beside it. */
  method FooterCountRow(d: Table, f: Flags, rowMultiplier: nat) returns (thisRow: seq<Cell>)
    requires ValidTable(d) && rowMultiplier == |Kinds(f)|
    ensures thisRow == RowFor(d, f, Footer(0))
  {
    var last := !f.row && !f.column && !f.total;
    thisRow := [Shown(Text("Total"), rowMultiplier, 1, FooterLabelStyle)];
    thisRow := thisRow + [Shown(Text(""), rowMultiplier, 1, FooterBlankStyle)];
    thisRow := thisRow + [Plain(Text("Count"), BaseStyle(2, Edge(last, 2)))];
    for col := 0 to |d.colLabels|
      invariant |thisRow| == 3 + col
      invariant forall j :: 0 <= j < |thisRow| ==> thisRow[j] == CellFor(d, f, Footer(0), j)
    {
      thisRow := thisRow + [Plain(Number(d.colTotals[col]), DataStyle(1, Edge(last, 2)))];
    }
    thisRow := thisRow + [Plain(Number(d.overallTotal), DataStyle(2, Edge(last, 2)))];
  }

  /** The footer's "% row" sub-row: each column total over the overall total. */
  method FooterRowPctRow(d: Table, f: Flags) returns (thisRow: seq<Cell>)
    requires ValidTable(d) && f.row
    ensures thisRow == RowFor(d, f, Footer(1))
  {
    var last := !f.column && !f.total;
    thisRow := [Skip, Skip];
    thisRow := thisRow + [Plain(Text("% row"), BaseStyle(2, Edge(last, 2)))];
    for col := 0 to |d.colLabels|
      invariant |thisRow| == 3 + col
      invariant forall j :: 0 <= j < |thisRow| ==> thisRow[j] == CellFor(d, f, Footer(1), j)
    {
      thisRow := thisRow + [Plain(Text(Round(d.colTotals[col], d.overallTotal)), DataStyle(1, Edge(last, 2)))];
    }
    thisRow := thisRow + [Plain(Text(AllPct), DataStyle(2, Edge(last, 2)))];
  }

  /** The footer's "% column" sub-row: "100%" throughout. */
  method FooterColPctRow(d: Table, f: Flags) returns (thisRow: seq<Cell>)
    requires ValidTable(d) && f.column
    ensures thisRow == RowFor(d, f, Footer(if f.row then 2 else 1))
  {
    var last := !f.total;
    thisRow := [Skip, Skip];
    thisRow := thisRow + [Plain(Text("% column"), BaseStyle(2, Edge(last, 2)))];
    for col := 0 to |d.colLabels|
      invariant |thisRow| == 3 + col
      invariant forall j :: 0 <= j < |thisRow| ==> thisRow[j] == CellFor(d, f, Footer(if f.row then 2 else 1), j)
    {
      thisRow := thisRow + [Plain(Text(AllPct), DataStyle(1, Edge(last, 2)))];
    }
    thisRow := thisRow + [Plain(Text(AllPct), DataStyle(2, Edge(last, 2)))];
  }

  /** The footer's "% total" sub-row, the last row of the grid. */
  method FooterTotalPctRow(d: Table, f: Flags) returns (thisRow: seq<Cell>)
    requires ValidTable(d) && f.total
    ensures thisRow == RowFor(d, f, Footer(|Kinds(f)| - 1))
  {
    thisRow := [Skip, Skip];
    thisRow := thisRow + [Plain(Text("% total"), BaseStyle(2, 2))];
    for col := 0 to |d.colLabels|
      invariant |thisRow| == 3 + col
      invariant forall j :: 0 <= j < |thisRow| ==> thisRow[j] == CellFor(d, f, Footer(|Kinds(f)| - 1), j)
    {
      thisRow := thisRow + [Plain(Text(Round(d.colTotals[col], d.overallTotal)), DataStyle(1, 2))];
    }
    thisRow := thisRow + [Plain(Text(AllPct), DataStyle(2, 2))];
  }

  /** The position of sub-row s of series r; r == R names the footer. */
  function GroupPos(d: Table, r: nat, s: nat): Pos
  {
    if r < |d.values| then Data(r, s) else Footer(s)
  }

  /** group holds exactly the m sub-rows of series r (of the footer when
      r == R), in order. */
  predicate IsGroup(d: Table, f: Flags, r: nat, group: seq<seq<Cell>>)
    requires ValidTable(d) && r <= |d.values|
  {
    && |group| == |Kinds(f)|
    && forall s :: 0 <= s < |group| ==> group[s] == RowFor(d, f, GroupPos(d, r, s))
  }

  /** The m sub-rows of series r: Count, then "% row", "% column" and
      "% total" for the enabled flags, in that order. */
  method SeriesGroup(d: Table, f: Flags, rowMultiplier: nat, r: nat) returns (group: seq<seq<Cell>>)
    requires ValidTable(d) && r < |d.values| && rowMultiplier == |Kinds(f)|
    ensures IsGroup(d, f, r, group)
  {
    var thisRow := DataCountRow(d, f, rowMultiplier, r);
    group := [thisRow];
    if f.row {
      thisRow := DataRowPctRow(d, f, r);
      group := group + [thisRow];
    }
    if f.column {
      thisRow := DataColPctRow(d, f, r);
      group := group + [thisRow];
    }
    if f.total {
      thisRow := DataTotalPctRow(d, f, r);
      group := group + [thisRow];
    }
  }

  /** The m footer sub-rows, in the same order as a series group. */
  method FooterGroup(d: Table, f: Flags, rowMultiplier: nat) returns (group: seq<seq<Cell>>)
    requires ValidTable(d) && rowMultiplier == |Kinds(f)|
    ensures IsGroup(d, f, |d.values|, group)
  {
    var thisRow := FooterCountRow(d, f, rowMultiplier);
    group := [thisRow];
    if f.row {
      thisRow := FooterRowPctRow(d, f);
      group := group + [thisRow];
    }
    if f.column {
      thisRow := FooterColPctRow(d, f);
      group := group + [thisRow];
    }
    if f.total {
      thisRow := FooterTotalPctRow(d, f);
      group := group + [thisRow];
    }
  }

  /** The whole row of the grid at which position p is emitted: the form
      the emitting loop appends, where GridAt and CellAt give one cell. */
  lemma GridRow(d: Table, f: Flags, p: Pos)
    requires ValidTable(d) && ValidPos(d, f, p)
    ensures RowIndex(d, f, p) < |Grid(d, f)|
    ensures Grid(d, f)[RowIndex(d, f, p)] == RowFor(d, f, p)
  {
    LocateRowIndex(d, f, p);
  }

  /** The rows emitted so far are the first rows of the grid. */
  predicate GridPrefix(d: Table, f: Flags, output: seq<seq<Cell>>)
    requires ValidTable(d)
  {
    output <= Grid(d, f)
  }

  /** A prefix of g followed by the rows of g that come next is a prefix. */
  lemma ExtendPrefix<T>(g: seq<T>, output: seq<T>, more: seq<T>)
    requires output <= g && |output| + |more| <= |g|
    requires forall k :: 0 <= k < |more| ==> g[|output| + k] == more[k]
    ensures output + more <= g
  {
    assert output + more == g[..|output| + |more|];
  }

  /** Sub-row s of series r (of the footer when r == R) is grid row
      2 + r * m + s. */
  lemma GroupRowIndex(d: Table, f: Flags, r: nat, s: nat)
    requires ValidTable(d) && r <= |d.values| && s < |Kinds(f)|
    ensures 2 + r * |Kinds(f)| + s < |Grid(d, f)|
    ensures Grid(d, f)[2 + r * |Kinds(f)| + s] == RowFor(d, f, GroupPos(d, r, s))
  {
    if r < |d.values| {
      GridRow(d, f, Data(r, s));
    } else {
      GridRow(d, f, Footer(s));
    }
  }

  /** Appending the group of series r (or of the footer, r == R) to the
      grid's first 2 + r * m rows gives its first 2 + (r + 1) * m rows. */
  lemma AppendGroup(d: Table, f: Flags, output: seq<seq<Cell>>, group: seq<seq<Cell>>, r: nat)
    requires ValidTable(d) && r <= |d.values|
    requires |output| == 2 + r * |Kinds(f)|
    requires GridPrefix(d, f, output)
    requires IsGroup(d, f, r, group)
    ensures GridPrefix(d, f, output + group)
    ensures |output + group| == 2 + (r + 1) * |Kinds(f)|
  {
    MulSucc(r, |Kinds(f)|);
    var g := Grid(d, f);
    GroupEndFits(d, f, r);
    forall k | 0 <= k < |group|
      ensures g[|output| + k] == group[k]
    {
      GroupRowIndex(d, f, r, k);
    }
    ExtendPrefix(g, output, group);
  }

  /** A prefix as long as the grid is the grid. */
  lemma WholePrefix(d: Table, f: Flags, output: seq<seq<Cell>>)
    requires ValidTable(d) && GridPrefix(d, f, output) && |output| == NumRows(d, f)
    ensures output == Grid(d, f)
  {
  }

  /** Appending the row emitted for position p, when it is the next row. */
  lemma AppendRow(d: Table, f: Flags, output: seq<seq<Cell>>, thisRow: seq<Cell>, p: Pos)
    requires ValidTable(d) && ValidPos(d, f, p)
    requires |output| == RowIndex(d, f, p) && GridPrefix(d, f, output)
    requires thisRow == RowFor(d, f, p)
    ensures GridPrefix(d, f, output + [thisRow])
  {
    GridRow(d, f, p);
    ExtendPrefix(Grid(d, f), output, [thisRow]);
  }

  /** rowMultiplier: one sub-row for the counts plus one per enabled
      percentage, the number of sub-rows of every group. */
  method RowMultiplier(settings: Flags) returns (rowMultiplier: nat)
    ensures rowMultiplier == |Kinds(settings)|
    ensures 1 <= rowMultiplier <= 4
  {
    var includeRowPct := settings.row;
    var includeColPct := settings.column;
    var includeTotalPct := settings.total;
    rowMultiplier := 1;
    if includeRowPct { rowMultiplier := rowMultiplier + 1; }
    if includeColPct { rowMultiplier := rowMultiplier + 1; }
    if includeTotalPct { rowMultiplier := rowMultiplier + 1; }
  }

  /** The layout loop of parseData: emit the two header rows, one group per
      series and the footer group. */
  method EmitGrid(data: Table, settings: Flags) returns (output: seq<seq<Cell>>)
    requires ValidTable(data)
    ensures output == Grid(data, settings)
  {
    var rowMultiplier := RowMultiplier(settings);
    var rows := |data.values| + 3;
    output := [];
    for row := 0 to rows
      invariant row <= 2 ==> |output| == row
      invariant row >= 2 ==> |output| == 2 + (row - 2) * rowMultiplier
      invariant GridPrefix(data, settings, output)
    {
      if row == 0 {
        var thisRow := TopHeaderRow(data, settings);
        AppendRow(data, settings, output, thisRow, Header1);
        output := output + [thisRow];
      } else if row == 1 {
        var thisRow := ColumnLabelRow(data, settings);
        AppendRow(data, settings, output, thisRow, Header2);
        output := output + [thisRow];
      } else if row < rows - 1 {
        var group := SeriesGroup(data, settings, rowMultiplier, row - 2);
        AppendGroup(data, settings, output, group, row - 2);
        output := output + group;
      } else {
        var group := FooterGroup(data, settings, rowMultiplier);
        AppendGroup(data, settings, output, group, row - 2);
        output := output + group;
      }
    }
    WholePrefix(data, settings, output);
  }

  /** parseData: normalise the categorical data, then lay out the grid. */
  method ParseData(cat: Categorical, settings: Flags) returns (output: seq<seq<Cell>>)
    requires WellFormed(cat)
    ensures output == Grid(Normalise(cat), settings)
  {
    var data := Normalise(cat);
    output := EmitGrid(data, settings);
  }
}
