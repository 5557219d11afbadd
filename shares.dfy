/**
  What the percentage cells of the grid add up to.  Each percentage is
  rounded to a tenth on its own, so the shares of a whole add up to 100%
  only within half a tenth per share.
 */
module Shares {
  import opened Percent
  import opened CrossTab
  import opened Layout

  /** The rounded tenths of every entry of v as a share of den. */
  function TenthsOf(v: seq<nat>, den: nat): (t: seq<nat>)
    requires den > 0
    ensures |t| == |v|
    ensures forall k :: 0 <= k < |v| ==> t[k] == Tenths(v[k], den)
  {
    seq(|v|, k requires 0 <= k < |v| => Tenths(v[k], den))
  }

  lemma Distribute(a: int, b: int, c: int)
    ensures a * (b + c) == a * b + a * c
  {
  }

  /** The rounded tenths of all entries together stay within half a tenth
      per entry of 1000 * Sum(v) / den, stated without division. */
  lemma {:induction false} TenthsSumBracket(v: seq<nat>, den: nat)
    requires den > 0
    ensures 2000 * Sum(v) <= (2 * den) * Sum(TenthsOf(v, den)) + |v| * den
    ensures (2 * den) * Sum(TenthsOf(v, den)) <= 2000 * Sum(v) + |v| * den
    decreases |v|
  {
    if v != [] {
      var t := TenthsOf(v, den);
      var rest := v[1..];
      TenthsSumBracket(rest, den);
      assert TenthsOf(rest, den) == t[1..];
      assert Sum(t) == t[0] + Sum(t[1..]);
      Distribute(2 * den, t[0], Sum(t[1..]));
      MulSucc(|rest|, den);
    }
  }

  lemma CancelFactor(den: nat, a: int, b: int)
    requires den > 0 && den * a <= den * b
    ensures a <= b
  {
    if b < a {
      MulAtMost(b + 1, a, den);
    }
  }

  lemma ExpandFactor(den: int, t: int, n: int)
    ensures den * (2 * t + n) == (2 * den) * t + n * den
    ensures den * (2 * t) == (2 * den) * t
    ensures den * (2000 + n) == 2000 * den + n * den
  {
  }

  /** The rounded shares of a positive whole add up to 100% give or take
      half a tenth of a percent per share, and no share is above 100%. */
  lemma SharesOfWhole(v: seq<nat>, den: nat)
    requires den > 0 && Sum(v) == den
    ensures 2000 - |v| <= 2 * Sum(TenthsOf(v, den)) <= 2000 + |v|
    ensures forall k :: 0 <= k < |v| ==> TenthsOf(v, den)[k] <= 1000
  {
    var n := |v|;
    var T := Sum(TenthsOf(v, den));
    TenthsSumBracket(v, den);
    ExpandFactor(den, T, n);
    CancelFactor(den, 2000, 2 * T + n);
    CancelFactor(den, 2 * T, 2000 + n);
    forall k | 0 <= k < |v|
      ensures TenthsOf(v, den)[k] <= 1000
    {
      TermAtMostSum(v, k);
      TenthsAtMostWhole(v[k], den);
    }
  }

  lemma {:induction false} TermAtMostSum(v: seq<nat>, k: nat)
    requires k < |v|
    ensures v[k] <= Sum(v)
    decreases |v|
  {
    if k > 0 {
      TermAtMostSum(v[1..], k - 1);
    }
  }

  /** The cell the grid holds at column j of the row emitted for position p. */
  function GridCell(d: Table, f: Flags, p: Pos, j: nat): Cell
    requires ValidTable(d) && ValidPos(d, f, p) && j < Width(d)
  {
    LocateRowIndex(d, f, p);
    Grid(d, f)[RowIndex(d, f, p)][j]
  }

  /** GridAt addressed by position instead of by row index. */
  lemma CellAt(d: Table, f: Flags, p: Pos, j: nat)
    requires ValidTable(d) && ValidPos(d, f, p) && j < Width(d)
    ensures GridCell(d, f, p, j) == CellFor(d, f, p, j)
  {
    LocateRowIndex(d, f, p);
    GridAt(d, f, RowIndex(d, f, p), j);
  }

  /** A shown cell with the given content. */
  predicate Holds(cell: Cell, content: Content)
  {
    cell.Shown? && cell.content == content
  }

  /** A percentage text in the grid and the tenths it reads back as. */
  predicate ShowsTenths(cell: Cell, t: nat)
  {
    cell.Shown? && cell.content.Text? && ParsePercent(cell.content.text) == Some(t)
  }

  /** A percentage text that Round printed reads back as its tenths. */
  lemma ShowsRound(cell: Cell, num: nat, den: nat)
    requires den > 0 && Holds(cell, Text(Round(num, den)))
    ensures ShowsTenths(cell, Tenths(num, den))
  {
    RoundParses(num, den);
  }

  /** Column c of sub-row s of series r shows the series' entry in the
      sub-row's metric. */
  lemma ValueCell(d: Table, f: Flags, r: nat, s: nat, c: nat)
    requires ValidTable(d) && r < |d.values| && s < |Kinds(f)| && c < |d.colLabels|
    ensures Holds(GridCell(d, f, Data(r, s), 3 + c), ValueContent(d, KindAt(f, s), r, c))
  {
    CellAt(d, f, Data(r, s), 3 + c);
    assert CellFor(d, f, Data(r, s), 3 + c) == DataCell(d, f, r, s, 3 + c);
  }

  /** The Total cell of sub-row s of series r. */
  lemma RowTotalCell(d: Table, f: Flags, r: nat, s: nat)
    requires ValidTable(d) && r < |d.values| && s < |Kinds(f)|
    ensures Holds(GridCell(d, f, Data(r, s), |d.colLabels| + 3), RowTotalContent(d, KindAt(f, s), r))
  {
    CellAt(d, f, Data(r, s), |d.colLabels| + 3);
    assert CellFor(d, f, Data(r, s), |d.colLabels| + 3) == DataCell(d, f, r, s, |d.colLabels| + 3);
  }

  /** Column c of footer sub-row s. */
  lemma FooterValueCell(d: Table, f: Flags, s: nat, c: nat)
    requires ValidTable(d) && s < |Kinds(f)| && c < |d.colLabels|
    ensures Holds(GridCell(d, f, Footer(s), 3 + c), ColumnContent(d, KindAt(f, s), c))
  {
    CellAt(d, f, Footer(s), 3 + c);
    assert CellFor(d, f, Footer(s), 3 + c) == FooterCell(d, f, s, 3 + c);
  }

  /** The Total cell of footer sub-row s. */
  lemma OverallCell(d: Table, f: Flags, s: nat)
    requires ValidTable(d) && s < |Kinds(f)|
    ensures Holds(GridCell(d, f, Footer(s), |d.colLabels| + 3), OverallContent(d, KindAt(f, s)))
  {
    CellAt(d, f, Footer(s), |d.colLabels| + 3);
    assert CellFor(d, f, Footer(s), |d.colLabels| + 3) == FooterCell(d, f, s, |d.colLabels| + 3);
  }

  /** The "% row" sub-row of a series with a positive total: its data cells
      read back as the series' rounded shares, which add up to 100% within
      rounding. */
  lemma RowPercentages(d: Table, f: Flags, r: nat, s: nat)
    requires Totalled(d) && r < |d.values| && s < |Kinds(f)| && Kinds(f)[s] == RowPct
    requires d.rowTotals[r] > 0
    ensures var t := TenthsOf(d.values[r], d.rowTotals[r]);
      && (forall c :: 0 <= c < |d.colLabels| ==> ShowsTenths(GridCell(d, f, Data(r, s), 3 + c), t[c]))
      && 2000 - |d.colLabels| <= 2 * Sum(t) <= 2000 + |d.colLabels|
  {
    KindAtIsKinds(f, s);
    var t := TenthsOf(d.values[r], d.rowTotals[r]);
    assert d.rowTotals[r] == Sum(d.values[r]);
    SharesOfWhole(d.values[r], d.rowTotals[r]);
    forall c | 0 <= c < |d.colLabels|
      ensures ShowsTenths(GridCell(d, f, Data(r, s), 3 + c), t[c])
    {
      ValueCell(d, f, r, s, c);
      ShowsRound(GridCell(d, f, Data(r, s), 3 + c), d.values[r][c], d.rowTotals[r]);
    }
  }

  /** The Total cell of a "% row" sub-row is the literal "100%", which is
      what rounding a positive row total over itself prints. */
  lemma RowPercentTotal(d: Table, f: Flags, r: nat, s: nat)
    requires Totalled(d) && r < |d.values| && s < |Kinds(f)| && Kinds(f)[s] == RowPct
    requires d.rowTotals[r] > 0
    ensures Holds(GridCell(d, f, Data(r, s), |d.colLabels| + 3), Text(Round(d.rowTotals[r], d.rowTotals[r])))
  {
    KindAtIsKinds(f, s);
    RowTotalCell(d, f, r, s);
    RoundOfWhole(d.rowTotals[r]);
  }

  /** The "% column" cells of a column with a positive total: down the
      series groups they read back as the column's rounded shares, which add
      up to 100% within rounding, and the footer cell is the literal "100%". */
  lemma ColumnPercentages(d: Table, f: Flags, c: nat, s: nat)
    requires Totalled(d) && c < |d.colLabels| && s < |Kinds(f)| && Kinds(f)[s] == ColPct
    requires d.colTotals[c] > 0
    ensures var t := TenthsOf(Column(d.values, c), d.colTotals[c]);
      && (forall r :: 0 <= r < |d.values| ==> ShowsTenths(GridCell(d, f, Data(r, s), 3 + c), t[r]))
      && 2000 - |d.values| <= 2 * Sum(t) <= 2000 + |d.values|
      && Holds(GridCell(d, f, Footer(s), 3 + c), Text(Round(d.colTotals[c], d.colTotals[c])))
  {
    KindAtIsKinds(f, s);
    var col := Column(d.values, c);
    var t := TenthsOf(col, d.colTotals[c]);
    forall r | 0 <= r < |d.values|
      ensures ShowsTenths(GridCell(d, f, Data(r, s), 3 + c), t[r])
    {
      ValueCell(d, f, r, s, c);
      ShowsRound(GridCell(d, f, Data(r, s), 3 + c), d.values[r][c], d.colTotals[c]);
    }
    SharesOfWhole(col, d.colTotals[c]);
    FooterValueCell(d, f, s, c);
    RoundOfWhole(d.colTotals[c]);
  }

  lemma {:induction false} ZeroTerms(v: seq<nat>, k: nat)
    requires Sum(v) == 0 && k < |v|
    ensures v[k] == 0
    decreases |v|
  {
    if k > 0 {
      ZeroTerms(v[1..], k - 1);
    }
  }

  /** A column whose total is 0 holds only zeros, and every "% column" cell
      of it shows "NaN%": the `|| 0` after round never applies, because
      round always returns a non-empty text. */
  lemma EmptyColumnPercentages(d: Table, f: Flags, c: nat, s: nat, r: nat)
    requires Totalled(d) && c < |d.colLabels| && s < |Kinds(f)| && Kinds(f)[s] == ColPct
    requires r < |d.values| && d.colTotals[c] == 0
    ensures d.values[r][c] == 0
    ensures Holds(GridCell(d, f, Data(r, s), 3 + c), Text("NaN%"))
  {
    KindAtIsKinds(f, s);
    ZeroTerms(Column(d.values, c), r);
    ValueCell(d, f, r, s, c);
  }

  /** The Total cells of a "% total" sub-row, down the series groups, read
      back as the rounded shares of the row totals in the overall total,
      which add up to 100% within rounding. */
  lemma TotalPercentages(d: Table, f: Flags, s: nat)
    requires Totalled(d) && s < |Kinds(f)| && Kinds(f)[s] == TotalPct
    requires d.overallTotal > 0
    ensures var t := TenthsOf(d.rowTotals, d.overallTotal);
      && (forall r :: 0 <= r < |d.values| ==> ShowsTenths(GridCell(d, f, Data(r, s), |d.colLabels| + 3), t[r]))
      && 2000 - |d.values| <= 2 * Sum(t) <= 2000 + |d.values|
  {
    KindAtIsKinds(f, s);
    SharesOfWhole(d.rowTotals, d.overallTotal);
    TotalShareCells(d, f, s);
  }

  /** The Total cells of a "% total" sub-row, one per series. */
  lemma TotalShareCells(d: Table, f: Flags, s: nat)
    requires ValidTable(d) && s < |Kinds(f)| && KindAt(f, s) == TotalPct
    requires d.overallTotal > 0
    ensures forall r :: 0 <= r < |d.values| ==>
      ShowsTenths(GridCell(d, f, Data(r, s), |d.colLabels| + 3), TenthsOf(d.rowTotals, d.overallTotal)[r])
  {
    forall r | 0 <= r < |d.values|
      ensures ShowsTenths(GridCell(d, f, Data(r, s), |d.colLabels| + 3), TenthsOf(d.rowTotals, d.overallTotal)[r])
    {
      RowTotalCell(d, f, r, s);
      ShowsRound(GridCell(d, f, Data(r, s), |d.colLabels| + 3), d.rowTotals[r], d.overallTotal);
    }
  }

  /** The data cells of the "% total" sub-rows over the whole table: cell
      (r, c) reads back as the rounded share of entry (r, c) in the overall
      total, and the R * C shares of all the entries, taken row after row,
      add up to 100% within rounding. */
  lemma TablePercentages(d: Table, f: Flags, s: nat)
    requires Totalled(d) && s < |Kinds(f)| && Kinds(f)[s] == TotalPct
    requires d.overallTotal > 0
    ensures forall r, c :: 0 <= r < |d.values| && 0 <= c < |d.colLabels| ==>
      && FlatEntry(d.values, |d.colLabels|, r, c)
      && ShowsTenths(GridCell(d, f, Data(r, s), 3 + c), Tenths(d.values[r][c], d.overallTotal))
    ensures var n := |d.values| * |d.colLabels|;
      && |Flatten(d.values)| == n
      && 2000 - n <= 2 * Sum(TenthsOf(Flatten(d.values), d.overallTotal)) <= 2000 + n
  {
    KindAtIsKinds(f, s);
    FlattenLength(d.values, |d.colLabels|);
    SumFlatten(d.values);
    assert d.rowTotals == RowTotalsOf(d.values);
    SharesOfWhole(Flatten(d.values), d.overallTotal);
    TableShareCells(d, f, s);
  }

  /** The data cells of a "% total" sub-row, every series and column. */
  lemma TableShareCells(d: Table, f: Flags, s: nat)
    requires ValidTable(d) && s < |Kinds(f)| && KindAt(f, s) == TotalPct
    requires d.overallTotal > 0
    ensures forall r, c :: 0 <= r < |d.values| && 0 <= c < |d.colLabels| ==>
      && FlatEntry(d.values, |d.colLabels|, r, c)
      && ShowsTenths(GridCell(d, f, Data(r, s), 3 + c), Tenths(d.values[r][c], d.overallTotal))
  {
    forall r, c | 0 <= r < |d.values| && 0 <= c < |d.colLabels|
      ensures && FlatEntry(d.values, |d.colLabels|, r, c)
              && ShowsTenths(GridCell(d, f, Data(r, s), 3 + c), Tenths(d.values[r][c], d.overallTotal))
    {
      TableShareCell(d, f, s, r, c);
    }
  }

  lemma TableShareCell(d: Table, f: Flags, s: nat, r: nat, c: nat)
    requires ValidTable(d) && s < |Kinds(f)| && KindAt(f, s) == TotalPct
    requires d.overallTotal > 0 && r < |d.values| && c < |d.colLabels|
    ensures FlatEntry(d.values, |d.colLabels|, r, c)
    ensures ShowsTenths(GridCell(d, f, Data(r, s), 3 + c), Tenths(d.values[r][c], d.overallTotal))
  {
    FlattenAt(d.values, |d.colLabels|, r, c);
    ValueCell(d, f, r, s, c);
    ShowsRound(GridCell(d, f, Data(r, s), 3 + c), d.values[r][c], d.overallTotal);
  }

  /** The footer's "% row" and "% total" sub-rows: their data cells read
      back as the rounded shares of the column totals in the overall total,
      which add up to 100% within rounding, and their Total cell is "100%". */
  lemma FooterPercentages(d: Table, f: Flags, s: nat)
    requires Totalled(d) && s < |Kinds(f)| && Kinds(f)[s] in {RowPct, TotalPct}
    requires d.overallTotal > 0
    ensures var t := TenthsOf(d.colTotals, d.overallTotal);
      && (forall c :: 0 <= c < |d.colLabels| ==> ShowsTenths(GridCell(d, f, Footer(s), 3 + c), t[c]))
      && 2000 - |d.colLabels| <= 2 * Sum(t) <= 2000 + |d.colLabels|
      && Holds(GridCell(d, f, Footer(s), |d.colLabels| + 3), Text(Round(d.overallTotal, d.overallTotal)))
  {
    var t := TenthsOf(d.colTotals, d.overallTotal);
    KindAtIsKinds(f, s);
    ColumnTotalsAddUp(d);
    SharesOfWhole(d.colTotals, d.overallTotal);
    forall c | 0 <= c < |d.colLabels|
      ensures ShowsTenths(GridCell(d, f, Footer(s), 3 + c), t[c])
    {
      FooterValueCell(d, f, s, c);
      ShowsRound(GridCell(d, f, Footer(s), 3 + c), d.colTotals[c], d.overallTotal);
    }
    OverallCell(d, f, s);
    RoundOfWhole(d.overallTotal);
  }

  /** The Count sub-rows: a series' Count cells show its values and its row
      total, and the footer's Count cells show the sum of the Count cells
      above them and the grand total, which is also the sum of the column
      totals. */
  lemma CountCells(d: Table, f: Flags, r: nat, c: nat)
    requires Totalled(d) && r < |d.values| && c < |d.colLabels|
    ensures Holds(GridCell(d, f, Data(r, 0), 3 + c), Number(d.values[r][c]))
    ensures Holds(GridCell(d, f, Data(r, 0), |d.colLabels| + 3), Number(Sum(d.values[r])))
    ensures Holds(GridCell(d, f, Footer(0), 3 + c), Number(Sum(Column(d.values, c))))
    ensures Holds(GridCell(d, f, Footer(0), |d.colLabels| + 3), Number(Sum(d.colTotals)))
  {
    ValueCell(d, f, r, 0, c);
    RowTotalCell(d, f, r, 0);
    FooterValueCell(d, f, 0, c);
    OverallCell(d, f, 0);
    ColumnTotalsAddUp(d);
  }
}
