/**
  The grid that Visual.parseData returns, described cell by cell.  The grid
  has two header rows, then one group of sub-rows per series, then a footer
  group with the column totals; every group has one sub-row per enabled
  metric.  Every row has C + 4 positions: the row-variable column, the
  series label, the metric name, C data columns and the Total column.  A
  position covered by an earlier cell's rowspan or colspan holds Skip, which
  the renderer drops.
 */
module Layout {
  import opened CrossTab
  import opened Percent

  /** settings.percentages: which percentage sub-rows are shown. */
  datatype Flags = Flags(row: bool, column: bool, total: bool)

  /** The metric a sub-row shows. */
  datatype Kind = Count | RowPct | ColPct | TotalPct

  function Rank(k: Kind): nat
  {
    match k
    case Count => 0
    case RowPct => 1
    case ColPct => 2
    case TotalPct => 3
  }

  predicate Enabled(f: Flags, k: Kind)
  {
    match k
    case Count => true
    case RowPct => f.row
    case ColPct => f.column
    case TotalPct => f.total
  }

  /** The sub-rows of every group in display order: Count, then the enabled
      percentages in the fixed order row, column, total. */
  function Kinds(f: Flags): (ks: seq<Kind>)
    ensures |ks| == 1 + (if f.row then 1 else 0) + (if f.column then 1 else 0) + (if f.total then 1 else 0)
    ensures ks[0] == Count
  {
    [Count] + (if f.row then [RowPct] else []) + (if f.column then [ColPct] else []) + (if f.total then [TotalPct] else [])
  }

  /** Every group shows exactly the enabled metrics, each once, in the
      fixed order Count, "% row", "% column", "% total". */
  lemma KindsInOrder(f: Flags)
    ensures forall k :: k in Kinds(f) <==> Enabled(f, k)
    ensures forall a, b :: 0 <= a < b < |Kinds(f)| ==> Rank(Kinds(f)[a]) < Rank(Kinds(f)[b])
  {
  }

  /** The kind of sub-row s, as the chain of `if (include...)` tests reaches
      it.  Kinds lists the sub-rows and is what the lemmas state; the cell
      functions use KindAt, whose case split the verifier handles far more
      cheaply than an index into the concatenation.  KindAtIsKinds proves
      the two agree. */
  function KindAt(f: Flags, s: nat): Kind
  {
    if s == 0 then Count
    else if f.row && s == 1 then RowPct
    else if f.column && s == (if f.row then 2 else 1) then ColPct
    else TotalPct
  }

  lemma KindAtIsKinds(f: Flags, s: nat)
    requires s < |Kinds(f)|
    ensures Kinds(f)[s] == KindAt(f, s)
  {
  }

  function MetricName(k: Kind): string
  {
    match k
    case Count => "Count"
    case RowPct => "% row"
    case ColPct => "% column"
    case TotalPct => "% total"
  }

  // ---------------------------------------------------------------------
  // Cells

  datatype VAlign = Top | Middle | Bottom
  datatype HAlign = Unset | Center | Right

  /** The style string of a cell, reduced to its alignments and the widths
      in pixels of its four borders (an edge the string leaves out is 0). */
  datatype Style = Style(valign: VAlign, halign: HAlign, top: nat, right: nat, bottom: nat, left: nat)

  datatype Content = Text(text: string) | Number(n: nat)

  /** A cell record; rowspan and colspan are 1 where the source leaves them out. */
  datatype Cell = Skip | Shown(content: Content, rowspan: nat, colspan: nat, style: Style)

  /** baseStyle with border-right and border-bottom appended. */
  function BaseStyle(right: nat, bottom: nat): Style
  {
    Style(Top, Unset, 0, right, bottom, 0)
  }

  /** dataStyle (right-aligned) with border-right and border-bottom appended. */
  function DataStyle(right: nat, bottom: nat): Style
  {
    Style(Top, Right, 0, right, bottom, 0)
  }

  const CornerStyle := Style(Bottom, Unset, 2, 2, 2, 2)
  const ColVarStyle := Style(Middle, Center, 2, 1, 1, 0)
  const TotalHeadStyle := Style(Bottom, Center, 2, 2, 2, 0)
  const ColLabelStyle := Style(Bottom, Center, 0, 1, 2, 0)
  const RowVarStyle := Style(Top, Unset, 0, 0, 1, 2)
  const GroupStyle := Style(Top, Unset, 0, 0, 1, 0)
  const FooterLabelStyle := Style(Top, Unset, 0, 0, 2, 2)
  const FooterBlankStyle := Style(Top, Unset, 0, 0, 2, 0)

  const AllPct := "100%"

  function Plain(content: Content, style: Style): Cell
  {
    Shown(content, 1, 1, style)
  }

  // ---------------------------------------------------------------------
  // Contents

  /** A data cell of series r, column c.  A Count cell shows the value
      (`|| 0` turns only a missing value into 0, and cells here are counts). */
  function ValueContent(d: Table, k: Kind, r: nat, c: nat): Content
    requires ValidTable(d) && r < |d.values| && c < |d.colLabels|
  {
    match k
    case Count => Number(d.values[r][c])
    case RowPct => Text(Round(d.values[r][c], d.rowTotals[r]))
    case ColPct => Text(Round(d.values[r][c], d.colTotals[c]))  // `|| 0` never applies: Round is never ""
    case TotalPct => Text(Round(d.values[r][c], d.overallTotal))
  }

  /** The Total-column cell of series r. */
  function RowTotalContent(d: Table, k: Kind, r: nat): Content
    requires ValidTable(d) && r < |d.values|
  {
    match k
    case Count => Number(d.rowTotals[r])
    case RowPct => Text(AllPct)
    case ColPct => Text(Round(d.rowTotals[r], d.overallTotal))
    case TotalPct => Text(Round(d.rowTotals[r], d.overallTotal))
  }

  /** A footer cell of column c. */
  function ColumnContent(d: Table, k: Kind, c: nat): Content
    requires ValidTable(d) && c < |d.colLabels|
  {
    match k
    case Count => Number(d.colTotals[c])
    case RowPct => Text(Round(d.colTotals[c], d.overallTotal))
    case ColPct => Text(AllPct)
    case TotalPct => Text(Round(d.colTotals[c], d.overallTotal))
  }

  /** The footer's Total-column cell. */
  function OverallContent(d: Table, k: Kind): Content
  {
    if k == Count then Number(d.overallTotal) else Text(AllPct)
  }

  // ---------------------------------------------------------------------
  // Positions

  /** Which row of the grid: a header row, sub-row s of series r's group, or
      sub-row s of the footer group. */
  datatype Pos = Header1 | Header2 | Data(r: nat, s: nat) | Footer(s: nat)

  function Width(d: Table): nat
  {
    |d.colLabels| + 4
  }

  function NumRows(d: Table, f: Flags): nat
  {
    2 + (|d.values| + 1) * |Kinds(f)|
  }

  predicate ValidPos(d: Table, f: Flags, p: Pos)
  {
    match p
    case Header1 => true
    case Header2 => true
    case Data(r, s) => r < |d.values| && s < |Kinds(f)|
    case Footer(s) => s < |Kinds(f)|
  }

  /** The grid row at which a position is emitted. */
  function RowIndex(d: Table, f: Flags, p: Pos): nat
  {
    match p
    case Header1 => 0
    case Header2 => 1
    case Data(r, s) => 2 + r * |Kinds(f)| + s
    case Footer(s) => 2 + |d.values| * |Kinds(f)| + s
  }

  lemma DivModOf(q: nat, s: nat, m: nat)
    requires s < m
    ensures (q * m + s) / m == q && (q * m + s) % m == s
  {
    DivByBracket(q * m + s, m, q);
  }

  lemma MulSucc(a: nat, m: nat)
    ensures (a + 1) * m == a * m + m
  {
  }

  /** Sub-row s of group r comes before the end of the first n groups. */
  lemma GroupOffset(r: nat, s: nat, m: nat, n: nat)
    requires r < n && s < m
    ensures r * m + s < n * m
  {
    MulAtMost(r + 1, n, m);
    MulSucc(r, m);
  }

  /** The group of series r (of the footer when r == R) ends inside the grid. */
  lemma GroupEndFits(d: Table, f: Flags, r: nat)
    requires r <= |d.values|
    ensures 2 + r * |Kinds(f)| + |Kinds(f)| <= NumRows(d, f)
  {
    var m := |Kinds(f)|;
    MulSucc(r, m);
    MulSucc(|d.values|, m);
    MulAtMost(r, |d.values|, m);
  }

  lemma DivBelow(a: nat, m: nat, n: nat)
    requires 0 < m && a < n * m
    ensures a / m < n
  {
    if a / m >= n {
      MulAtMost(n, a / m, m);
    }
  }

  /** The position of grid row i. */
  function Locate(d: Table, f: Flags, i: nat): (p: Pos)
    requires i < NumRows(d, f)
    ensures ValidPos(d, f, p) && RowIndex(d, f, p) == i
  {
    var m := |Kinds(f)|;
    if i == 0 then Header1
    else if i == 1 then Header2
    else if i - 2 < |d.values| * m then
      DivBelow(i - 2, m, |d.values|);
      Data((i - 2) / m, (i - 2) % m)
    else
      Footer(i - 2 - |d.values| * m)
  }

  /** Every position is emitted at exactly one row, inside the grid. */
  lemma LocateRowIndex(d: Table, f: Flags, p: Pos)
    requires ValidPos(d, f, p)
    ensures RowIndex(d, f, p) < NumRows(d, f)
    ensures Locate(d, f, RowIndex(d, f, p)) == p
  {
    var m := |Kinds(f)|;
    match p
    case Header1 =>
    case Header2 =>
    case Data(r, s) =>
      GroupOffset(r, s, m, |d.values|);
      GroupOffset(r, s, m, |d.values| + 1);
      DivModOf(r, s, m);
    case Footer(s) =>
      MulSucc(|d.values|, m);
  }

  // ---------------------------------------------------------------------
  // The grid

  /** The cell at column j of the row at position p. */
  function CellFor(d: Table, f: Flags, p: Pos, j: nat): Cell
    requires ValidTable(d) && ValidPos(d, f, p) && j < Width(d)
  {
    match p
    case Header1 => Header1Cell(d, j)
    case Header2 => Header2Cell(d, j)
    case Data(r, s) => DataCell(d, f, r, s, j)
    case Footer(s) => FooterCell(d, f, s, j)
  }

  /** The first header row: the corner, the column-variable name over all
      the columns, and "Total"; the positions they span are skipped. */
  function Header1Cell(d: Table, j: nat): Cell
    requires ValidTable(d) && j < Width(d)
  {
    var C := |d.colLabels|;
    if j == 0 then Shown(Text(""), 2, 3, CornerStyle)
    else if j < 3 then Skip
    else if j == 3 then Shown(Text(d.colVar), 1, C, ColVarStyle)
    else if j < C + 3 then Skip
    else Shown(Text("Total"), 2, 1, TotalHeadStyle)
  }

  /** The second header row: one label per column. */
  function Header2Cell(d: Table, j: nat): Cell
    requires ValidTable(d) && j < Width(d)
  {
    if j < 3 || j == |d.colLabels| + 3 then Skip
    else Plain(Text(d.colLabels[j - 3]), ColLabelStyle)
  }

  /** Sub-row s of series r. */
  function DataCell(d: Table, f: Flags, r: nat, s: nat, j: nat): Cell
    requires ValidTable(d) && r < |d.values| && s < |Kinds(f)| && j < Width(d)
  {
    var C := |d.colLabels|;
    var m := |Kinds(f)|;
    var k := KindAt(f, s);
    var bottom := if s == m - 1 then 1 else 0;
    if j == 0 then
      (if r == 0 && s == 0 then Shown(Text(d.rowVar), |d.values| * m, 1, RowVarStyle) else Skip)
    else if j == 1 then
      (if s == 0 then Shown(Text(d.rowNames[r]), m, 1, GroupStyle) else Skip)
    else if j == 2 then Plain(Text(MetricName(k)), BaseStyle(2, bottom))
    else if j < C + 3 then Plain(ValueContent(d, k, r, j - 3), DataStyle(1, bottom))
    else Plain(RowTotalContent(d, k, r), DataStyle(2, bottom))
  }

  /** Sub-row s of the footer group. */
  function FooterCell(d: Table, f: Flags, s: nat, j: nat): Cell
    requires ValidTable(d) && s < |Kinds(f)| && j < Width(d)
  {
    var C := |d.colLabels|;
    var m := |Kinds(f)|;
    var k := KindAt(f, s);
    var bottom := if s == m - 1 then 2 else 0;
    if j == 0 then
      (if s == 0 then Shown(Text("Total"), m, 1, FooterLabelStyle) else Skip)
    else if j == 1 then
      (if s == 0 then Shown(Text(""), m, 1, FooterBlankStyle) else Skip)
    else if j == 2 then Plain(Text(MetricName(k)), BaseStyle(2, bottom))
    else if j < C + 3 then Plain(ColumnContent(d, k, j - 3), DataStyle(1, bottom))
    else Plain(OverallContent(d, k), DataStyle(2, bottom))
  }

  function RowFor(d: Table, f: Flags, p: Pos): (row: seq<Cell>)
    requires ValidTable(d) && ValidPos(d, f, p)
    ensures |row| == Width(d)
  {
    seq(Width(d), j requires 0 <= j < Width(d) => CellFor(d, f, p, j))
  }

  /** The whole grid: 2 + (R + 1) * m rows of C + 4 positions each, where m
      is 1 plus the number of enabled percentage flags. */
  function Grid(d: Table, f: Flags): (g: seq<seq<Cell>>)
    requires ValidTable(d)
    ensures |g| == 2 + (|d.values| + 1) * |Kinds(f)|
    ensures forall i :: 0 <= i < |g| ==> |g[i]| == |d.colLabels| + 4
    ensures forall i :: 0 <= i < |g| ==> g[i] == RowFor(d, f, Locate(d, f, i))
  {
    seq(NumRows(d, f), i requires 0 <= i < NumRows(d, f) => RowFor(d, f, Locate(d, f, i)))
  }

  /** The cell at row i, column j of the grid, addressed by row index (the
      form the span lemmas below need). */
  lemma GridAt(d: Table, f: Flags, i: nat, j: nat)
    requires ValidTable(d) && i < NumRows(d, f) && j < Width(d)
    ensures Grid(d, f)[i][j] == CellFor(d, f, Locate(d, f, i), j)
  {
  }

  // ---------------------------------------------------------------------
  // Spans and skips

  /** Cell (i0, j0) of g is shown and its rowspan and colspan reach (i, j). */
  predicate Covers(g: seq<seq<Cell>>, i0: nat, j0: nat, i: nat, j: nat)
  {
    && i0 < |g| && j0 < |g[i0]| && g[i0][j0].Shown?
    && i0 <= i < i0 + g[i0][j0].rowspan
    && j0 <= j < j0 + g[i0][j0].colspan
  }

  /** The origin of the cell that occupies position (i, j) on screen: the
      position itself, or the spanning cell that reaches over it. */
  function Owner(d: Table, f: Flags, i: nat, j: nat): (nat, nat)
    requires i < NumRows(d, f) && j < Width(d)
  {
    var C := |d.colLabels|;
    match Locate(d, f, i)
    case Header1 => if 1 <= j < 3 then (0, 0) else if 4 <= j < C + 3 then (0, 3) else (i, j)
    case Header2 => if j < 3 then (0, 0) else if j == C + 3 then (0, C + 3) else (i, j)
    case Data(r, s) =>
      if j == 0 then (2, 0) else if j == 1 then (RowIndex(d, f, Data(r, 0)), 1) else (i, j)
    case Footer(s) => if j < 2 then (RowIndex(d, f, Footer(0)), j) else (i, j)
  }

  /** Every position is reached by the span of its owner, which lies at or
      before it, and a position is skipped exactly when it is covered by a
      span that starts elsewhere. */
  lemma OwnerCovers(d: Table, f: Flags, i: nat, j: nat)
    requires ValidTable(d) && i < NumRows(d, f) && j < Width(d)
    ensures var (i0, j0) := Owner(d, f, i, j);
      && i0 <= i && j0 <= j
      && Covers(Grid(d, f), i0, j0, i, j)
      && (Grid(d, f)[i][j].Skip? <==> (i0, j0) != (i, j))
  {
    match Locate(d, f, i)
    case Header1 => OwnerCoversHeader(d, f, i, j);
    case Header2 => OwnerCoversHeader(d, f, i, j);
    case Data(r, s) => OwnerCoversData(d, f, i, j, r, s);
    case Footer(s) => OwnerCoversFooter(d, f, i, j, s);
  }

  lemma OwnerCoversHeader(d: Table, f: Flags, i: nat, j: nat)
    requires ValidTable(d) && i < 2 && j < Width(d)
    ensures i < NumRows(d, f)
    ensures var (i0, j0) := Owner(d, f, i, j);
      && i0 <= i && j0 <= j
      && Covers(Grid(d, f), i0, j0, i, j)
      && (Grid(d, f)[i][j].Skip? <==> (i0, j0) != (i, j))
  {
    var (i0, j0) := Owner(d, f, i, j);
    GridAt(d, f, i, j);
    GridAt(d, f, i0, j0);
  }

  lemma OwnerCoversData(d: Table, f: Flags, i: nat, j: nat, r: nat, s: nat)
    requires ValidTable(d) && i < NumRows(d, f) && j < Width(d)
    requires Locate(d, f, i) == Data(r, s)
    ensures var (i0, j0) := Owner(d, f, i, j);
      && i0 <= i && j0 <= j
      && Covers(Grid(d, f), i0, j0, i, j)
      && (Grid(d, f)[i][j].Skip? <==> (i0, j0) != (i, j))
  {
    var m := |Kinds(f)|;
    var (i0, j0) := Owner(d, f, i, j);
    GridAt(d, f, i, j);
    GridAt(d, f, i0, j0);
    if j == 0 {
      LocateRowIndex(d, f, Data(0, 0));
      MulAtMost(r, |d.values| - 1, m);
    } else if j == 1 {
      LocateRowIndex(d, f, Data(r, 0));
    }
  }

  lemma OwnerCoversFooter(d: Table, f: Flags, i: nat, j: nat, s: nat)
    requires ValidTable(d) && i < NumRows(d, f) && j < Width(d)
    requires Locate(d, f, i) == Footer(s)
    ensures var (i0, j0) := Owner(d, f, i, j);
      && i0 <= i && j0 <= j
      && Covers(Grid(d, f), i0, j0, i, j)
      && (Grid(d, f)[i][j].Skip? <==> (i0, j0) != (i, j))
  {
    var (i0, j0) := Owner(d, f, i, j);
    GridAt(d, f, i, j);
    GridAt(d, f, i0, j0);
    if j < 2 {
      LocateRowIndex(d, f, Footer(0));
    }
  }

  /** Every row of the series groups is reached by the row-variable span
      that starts at row 2; column 0 skips on all of them but the first. */
  lemma RowVarSpan(d: Table, f: Flags, i: nat)
    requires ValidTable(d) && 2 <= i < 2 + |d.values| * |Kinds(f)|
    ensures i < NumRows(d, f) && Owner(d, f, i, 0) == (2, 0)
    ensures i != 2 ==> Grid(d, f)[i][0].Skip?
  {
    var m := |Kinds(f)|;
    MulSucc(|d.values|, m);
    GridAt(d, f, i, 0);
  }

  /** Sub-row t of series r is reached by the series label span, which
      starts at the group's first sub-row; column 1 skips on the others. */
  lemma GroupSpan(d: Table, f: Flags, r: nat, t: nat)
    requires ValidTable(d) && r < |d.values| && t < |Kinds(f)|
    ensures RowIndex(d, f, Data(r, t)) < NumRows(d, f)
    ensures Owner(d, f, RowIndex(d, f, Data(r, t)), 1) == (RowIndex(d, f, Data(r, 0)), 1)
    ensures t > 0 ==> Grid(d, f)[RowIndex(d, f, Data(r, t))][1].Skip?
  {
    LocateRowIndex(d, f, Data(r, t));
    GridAt(d, f, RowIndex(d, f, Data(r, t)), 1);
  }

  /** Footer sub-row t is reached by the footer's "Total" and blank spans;
      columns 0 and 1 skip on all footer sub-rows but the first. */
  lemma FooterSpan(d: Table, f: Flags, t: nat, j: nat)
    requires ValidTable(d) && t < |Kinds(f)| && j < 2
    ensures RowIndex(d, f, Footer(t)) < NumRows(d, f)
    ensures Owner(d, f, RowIndex(d, f, Footer(t)), j) == (RowIndex(d, f, Footer(0)), j)
    ensures t > 0 ==> Grid(d, f)[RowIndex(d, f, Footer(t))][j].Skip?
  {
    LocateRowIndex(d, f, Footer(t));
    GridAt(d, f, RowIndex(d, f, Footer(t)), j);
  }

  lemma CoverFromHeader(d: Table, f: Flags, i0: nat, j0: nat, i: nat, j: nat)
    requires ValidTable(d) && i0 < 2
    requires Covers(Grid(d, f), i0, j0, i, j)
    ensures i < NumRows(d, f) && j < Width(d)
    ensures Owner(d, f, i, j) == (i0, j0)
    ensures (i, j) != (i0, j0) ==> Grid(d, f)[i][j].Skip?
  {
    GridAt(d, f, i0, j0);
    GridAt(d, f, i, j);
  }

  lemma CoverFromData(d: Table, f: Flags, i0: nat, j0: nat, i: nat, j: nat)
    requires ValidTable(d) && 2 <= i0 < 2 + |d.values| * |Kinds(f)|
    requires Covers(Grid(d, f), i0, j0, i, j)
    ensures i < NumRows(d, f) && j < Width(d)
    ensures Owner(d, f, i, j) == (i0, j0)
    ensures (i, j) != (i0, j0) ==> Grid(d, f)[i][j].Skip?
  {
    var p := Locate(d, f, i0);
    GridAt(d, f, i0, j0);
    if j0 == 0 {
      RowVarSpan(d, f, i);
    } else if j0 == 1 {
      GroupSpan(d, f, p.r, i - i0);
    }
  }

  lemma CoverFromFooter(d: Table, f: Flags, i0: nat, j0: nat, i: nat, j: nat)
    requires ValidTable(d) && 2 + |d.values| * |Kinds(f)| <= i0
    requires Covers(Grid(d, f), i0, j0, i, j)
    ensures i < NumRows(d, f) && j < Width(d)
    ensures Owner(d, f, i, j) == (i0, j0)
    ensures (i, j) != (i0, j0) ==> Grid(d, f)[i][j].Skip?
  {
    var p := Locate(d, f, i0);
    GridAt(d, f, i0, j0);
    if j0 < 2 {
      FooterSpan(d, f, i - i0, j0);
    }
  }

  /** A span never leaves the grid and never overlaps another: every
      position a shown cell reaches has that cell as its owner, so every
      such position other than the origin is a skip. */
  lemma CoverIsOwner(d: Table, f: Flags, i0: nat, j0: nat, i: nat, j: nat)
    requires ValidTable(d)
    requires Covers(Grid(d, f), i0, j0, i, j)
    ensures i < NumRows(d, f) && j < Width(d)
    ensures Owner(d, f, i, j) == (i0, j0)
    ensures (i, j) != (i0, j0) ==> Grid(d, f)[i][j].Skip?
  {
    if i0 < 2 {
      CoverFromHeader(d, f, i0, j0, i, j);
    } else if i0 < 2 + |d.values| * |Kinds(f)| {
      CoverFromData(d, f, i0, j0, i, j);
    } else {
      CoverFromFooter(d, f, i0, j0, i, j);
    }
  }

  // ---------------------------------------------------------------------
  // Rows of the grid, stated by grid index

  /** Below the headers, row i is sub-row (i - 2) % m of its group, and its
      metric cell names that sub-row's metric: Count first, then the
      enabled percentages in the order row, column, total. */
  lemma SubRowMetric(d: Table, f: Flags, i: nat)
    requires ValidTable(d) && 2 <= i < NumRows(d, f)
    ensures Grid(d, f)[i][2].Shown?
    ensures Grid(d, f)[i][2].content == Text(MetricName(Kinds(f)[(i - 2) % |Kinds(f)|]))
  {
    GridAt(d, f, i, 2);
    var m := |Kinds(f)|;
    match Locate(d, f, i)
    case Data(r, s) =>
      KindAtIsKinds(f, s);
      assert CellFor(d, f, Data(r, s), 2) == DataCell(d, f, r, s, 2);
    case Footer(s) =>
      KindAtIsKinds(f, s);
      DivModOf(|d.values|, s, m);
      assert CellFor(d, f, Footer(s), 2) == FooterCell(d, f, s, 2);
  }

  /** Only the last sub-row of a group has a bottom border on its metric,
      data and total cells: 1px in a series group, 2px in the footer. */
  lemma BottomBorder(d: Table, f: Flags, i: nat, j: nat)
    requires ValidTable(d) && 2 <= i < NumRows(d, f) && 2 <= j < Width(d)
    ensures Grid(d, f)[i][j].Shown?
    ensures Grid(d, f)[i][j].style.bottom ==
      if (i - 2) % |Kinds(f)| != |Kinds(f)| - 1 then 0
      else if i < 2 + |d.values| * |Kinds(f)| then 1
      else 2
  {
    GridAt(d, f, i, j);
    var m := |Kinds(f)|;
    match Locate(d, f, i)
    case Data(r, s) =>
      assert CellFor(d, f, Data(r, s), j) == DataCell(d, f, r, s, j);
    case Footer(s) =>
      DivModOf(|d.values|, s, m);
      assert CellFor(d, f, Footer(s), j) == FooterCell(d, f, s, j);
  }

  /** Column 1 of a series group holds the series' name on its first
      sub-row, spanning the m sub-rows, and skips on the others. */
  lemma GroupLabel(d: Table, f: Flags, i: nat)
    requires ValidTable(d) && 2 <= i < 2 + |d.values| * |Kinds(f)|
    ensures var m := |Kinds(f)|;
      (i - 2) / m < |d.values| &&
      Grid(d, f)[i][1] ==
        if (i - 2) % m == 0 then Shown(Text(d.rowNames[(i - 2) / m]), m, 1, GroupStyle) else Skip
  {
    GridAt(d, f, i, 1);
  }

  /** Column 0 holds the row variable's name once, on the first data
      sub-row, spanning all R * m data sub-rows. */
  lemma RowVariableCell(d: Table, f: Flags, i: nat)
    requires ValidTable(d) && 2 <= i < 2 + |d.values| * |Kinds(f)|
    ensures Grid(d, f)[i][0] ==
      if i == 2 then Shown(Text(d.rowVar), |d.values| * |Kinds(f)|, 1, RowVarStyle) else Skip
  {
    GridAt(d, f, i, 0);
    var p := Locate(d, f, i);
    RowVariableAt(d, f, p.r, p.s);
  }

  lemma RowVariableAt(d: Table, f: Flags, r: nat, s: nat)
    requires ValidTable(d) && r < |d.values| && s < |Kinds(f)|
    ensures CellFor(d, f, Data(r, s), 0) ==
      if RowIndex(d, f, Data(r, s)) == 2 then Shown(Text(d.rowVar), |d.values| * |Kinds(f)|, 1, RowVarStyle) else Skip
  {
    var m := |Kinds(f)|;
    assert CellFor(d, f, Data(r, s), 0) == DataCell(d, f, r, s, 0);
    if r > 0 {
      MulAtMost(1, r, m);
    } else {
      assert r * m == 0;
    }
  }

  /** The second header row lists the column labels in order, one per data
      column. */
  lemma ColumnHeaders(d: Table, f: Flags, c: nat)
    requires ValidTable(d) && c < |d.colLabels|
    ensures Grid(d, f)[1][3 + c] == Plain(Text(d.colLabels[c]), ColLabelStyle)
  {
    GridAt(d, f, 1, 3 + c);
  }
}
