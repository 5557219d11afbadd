/**
  The cross-tab builder: the first half of Visual.parseData.  It takes the
  categorical data view (the category values, which become the table's
  columns, and the value series, which become its rows), sorts the columns,
  re-indexes every series into the sorted order and computes the row totals,
  the column totals and the overall total.
 */
module CrossTab {

  /** One value series of the data view: its label (source.groupName) and one
      count per category value, aligned with the category values. */
  datatype Series = Series(groupName: string, values: seq<nat>)

  /** The part of the categorical data view that parseData reads. */
  datatype Categorical = Categorical(
    categories: seq<string>,  // categories[0].values: the column labels, source order
    series: seq<Series>,      // values: one series per table row
    rowVar: string,           // values.source.displayName
    colVar: string)           // categories[0].source.displayName

  /** What parseData needs of its input so that no array access fails and no
      reduce runs over an empty array. */
  predicate WellFormed(cat: Categorical)
  {
    && |cat.categories| >= 1
    && |cat.series| >= 1
    && forall r :: 0 <= r < |cat.series| ==> |cat.series[r].values| == |cat.categories|
  }

  // ---------------------------------------------------------------------
  // Column order: Array.prototype.sort with no comparator on strings

  /** JavaScript's default string order: character by character, and a
      proper prefix before the longer string. */
  predicate LexLe(a: string, b: string)
    decreases |a|
  {
    |a| == 0 || (|b| > 0 && (a[0] < b[0] || (a[0] == b[0] && LexLe(a[1..], b[1..]))))
  }

  lemma {:induction false} LexLeTotal(a: string, b: string)
    ensures LexLe(a, b) || LexLe(b, a)
    decreases |a|
  {
    if |a| > 0 && |b| > 0 && a[0] == b[0] {
      LexLeTotal(a[1..], b[1..]);
    }
  }

  lemma {:induction false} LexLeAntisymmetric(a: string, b: string)
    requires LexLe(a, b) && LexLe(b, a)
    ensures a == b
    decreases |a|
  {
    if |a| > 0 {
      LexLeAntisymmetric(a[1..], b[1..]);
      assert a == [a[0]] + a[1..];
      assert b == [b[0]] + b[1..];
    }
  }

  lemma {:induction false} LexLeTransitive(a: string, b: string, c: string)
    requires LexLe(a, b) && LexLe(b, c)
    ensures LexLe(a, c)
    decreases |a|
  {
    if |a| > 0 && a[0] == b[0] && b[0] == c[0] {
      LexLeTransitive(a[1..], b[1..], c[1..]);
    }
  }

  predicate Sorted(s: seq<string>)
  {
    forall i, j :: 0 <= i < j < |s| ==> LexLe(s[i], s[j])
  }

  function Insert(x: string, s: seq<string>): (r: seq<string>)
    ensures |r| == |s| + 1
    ensures multiset(r) == multiset(s) + multiset{x}
    decreases |s|
  {
    if s == [] then [x]
    else if LexLe(x, s[0]) then [x] + s
    else
      assert s == [s[0]] + s[1..];
      [s[0]] + Insert(x, s[1..])
  }

  /** Putting a least element in front of a sorted sequence keeps it sorted. */
  lemma ConsSorted(h: string, s: seq<string>)
    requires Sorted(s) && forall j :: 0 <= j < |s| ==> LexLe(h, s[j])
    ensures Sorted([h] + s)
  {
    var r := [h] + s;
    forall i, j | 0 <= i < j < |r|
      ensures LexLe(r[i], r[j])
    {
      if i > 0 {
        assert r[i] == s[i - 1] && r[j] == s[j - 1];
      }
    }
  }

  /** Every element of a sequence with one more x lies above a lower bound
      of the sequence and x. */
  lemma BoundAfterInsert(h: string, x: string, s: seq<string>)
    requires LexLe(h, x) && forall j :: 0 <= j < |s| ==> LexLe(h, s[j])
    ensures forall j :: 0 <= j < |Insert(x, s)| ==> LexLe(h, Insert(x, s)[j])
  {
    var rest := Insert(x, s);
    forall j | 0 <= j < |rest|
      ensures LexLe(h, rest[j])
    {
      assert rest[j] in multiset(rest);
      if rest[j] != x {
        assert rest[j] in multiset(s);
        var k :| 0 <= k < |s| && s[k] == rest[j];
      }
    }
  }

  lemma {:induction false} InsertSorted(x: string, s: seq<string>)
    requires Sorted(s)
    ensures Sorted(Insert(x, s))
    decreases |s|
  {
    if s == [] {
    } else if LexLe(x, s[0]) {
      forall j | 0 <= j < |s|
        ensures LexLe(x, s[j])
      {
        if j > 0 {
          LexLeTransitive(x, s[0], s[j]);
        }
      }
      ConsSorted(x, s);
    } else {
      LexLeTotal(x, s[0]);
      InsertSorted(x, s[1..]);
      forall j | 0 <= j < |s[1..]|
        ensures LexLe(s[0], s[1..][j])
      {
        assert s[1..][j] == s[j + 1];
      }
      BoundAfterInsert(s[0], x, s[1..]);
      ConsSorted(s[0], Insert(x, s[1..]));
    }
  }

  /** colReordered = [...colOrder].sort(): the category values in ascending
      order, a permutation of the original. */
  function SortLabels(s: seq<string>): (r: seq<string>)
    ensures Sorted(r)
    ensures |r| == |s| && multiset(r) == multiset(s)
    decreases |s|
  {
    if s == [] then []
    else
      assert s == [s[0]] + s[1..];
      InsertSorted(s[0], SortLabels(s[1..]));
      Insert(s[0], SortLabels(s[1..]))
  }

  lemma {:induction false} LexLeReflexive(a: string)
    ensures LexLe(a, a)
    decreases |a|
  {
    if |a| > 0 {
      LexLeReflexive(a[1..]);
    }
  }

  lemma SortedHeadIsLeast(a: seq<string>, x: string)
    requires Sorted(a) && x in a
    ensures LexLe(a[0], x)
  {
    var l :| 0 <= l < |a| && a[l] == x;
    if l == 0 {
      LexLeReflexive(x);
    }
  }

  lemma SameTails(a: seq<string>, b: seq<string>)
    requires a != [] && b != [] && a[0] == b[0] && multiset(a) == multiset(b)
    ensures multiset(a[1..]) == multiset(b[1..])
  {
    assert a == [a[0]] + a[1..];
    assert b == [b[0]] + b[1..];
    assert multiset(a[1..]) == multiset(a) - multiset{a[0]};
    assert multiset(b[1..]) == multiset(b) - multiset{b[0]};
  }

  /** There is only one ascending permutation of a sequence of strings, so
      any correct sort of the category values yields SortLabels. */
  lemma {:induction false} SortedUnique(a: seq<string>, b: seq<string>)
    requires Sorted(a) && Sorted(b) && multiset(a) == multiset(b)
    ensures a == b
    decreases |a|
  {
    assert |a| == |multiset(a)| == |multiset(b)| == |b|;
    if a != [] {
      assert a[0] in multiset(b) && b[0] in multiset(a);
      SortedHeadIsLeast(a, b[0]);
      SortedHeadIsLeast(b, a[0]);
      LexLeAntisymmetric(a[0], b[0]);
      SameTails(a, b);
      SortedUnique(a[1..], b[1..]);
      assert a == [a[0]] + a[1..];
      assert b == [b[0]] + b[1..];
    }
  }

  // ---------------------------------------------------------------------
  // Re-indexing into the sorted column order

  /** Array.prototype.indexOf: the first position of x in s, or -1. */
  function IndexOf(s: seq<string>, x: string): (k: int)
    ensures -1 <= k < |s|
    ensures k == -1 <==> x !in s
    ensures 0 <= k ==> s[k] == x && forall j :: 0 <= j < k ==> s[j] != x
    decreases |s|
  {
    if s == [] then -1
    else if s[0] == x then 0
    else
      var k := IndexOf(s[1..], x);
      if k == -1 then -1 else k + 1
  }

  // ---------------------------------------------------------------------
  // Totals

  function Sum(s: seq<nat>): nat
    decreases |s|
  {
    if s == [] then 0 else s[0] + Sum(s[1..])
  }

  lemma {:induction false} SumSnoc(s: seq<nat>, x: nat)
    ensures Sum(s + [x]) == Sum(s) + x
    decreases |s|
  {
    if s == [] {
      assert s + [x] == [x];
    } else {
      assert (s + [x])[1..] == s[1..] + [x];
      SumSnoc(s[1..], x);
    }
  }

  lemma {:induction false} SumOfPointwise(a: seq<nat>, b: seq<nat>, c: seq<nat>)
    requires |a| == |b| == |c|
    requires forall i :: 0 <= i < |c| ==> c[i] == a[i] + b[i]
    ensures Sum(c) == Sum(a) + Sum(b)
    decreases |c|
  {
    if c != [] {
      SumOfPointwise(a[1..], b[1..], c[1..]);
    }
  }

  /** s.reduce(Visual.sum) with no initial value: a left fold that starts
      from the first element.  It adds up the whole sequence. */
  function ReduceSum(s: seq<nat>): (t: nat)
    requires |s| > 0
    ensures t == Sum(s)
    decreases |s|
  {
    if |s| == 1 then s[0]
    else
      assert s == s[..|s| - 1] + [s[|s| - 1]];
      SumSnoc(s[..|s| - 1], s[|s| - 1]);
      ReduceSum(s[..|s| - 1]) + s[|s| - 1]
  }

  /** Entry i of every row. */
  function Column(values: seq<seq<nat>>, i: nat): (col: seq<nat>)
    requires forall r :: 0 <= r < |values| ==> i < |values[r]|
    ensures |col| == |values|
    ensures forall r :: 0 <= r < |values| ==> col[r] == values[r][i]
  {
    seq(|values|, r requires 0 <= r < |values| => values[r][i])
  }

  /** The accumulator of the column-total fold as written: reduce without an
      initial value starts from the first row itself (an array) and only
      turns into a number once a second row is folded in. */
  datatype Acc = WholeRow(cells: seq<nat>) | Running(n: nat)

  /** values.reduce((t, j) => ...) for column i as written: the object branch
      reads t[i] out of the first row, and a zero cell adds nothing. */
  function ColFold(values: seq<seq<nat>>, i: nat): (acc: Acc)
    requires |values| >= 1
    requires forall r :: 0 <= r < |values| ==> i < |values[r]|
    ensures acc.WholeRow? <==> |values| == 1
    ensures acc.WholeRow? ==> acc.cells == values[0]
    decreases |values|
  {
    if |values| == 1 then WholeRow(values[0])
    else
      var t := ColFold(values[..|values| - 1], i);
      var newt := match t
        case WholeRow(cells) => cells[i]
        case Running(n) => n;
      var j := values[|values| - 1];
      if j[i] != 0 then Running(newt + j[i]) else Running(newt)
  }

  /** With two series or more the fold as written adds up the column. */
  lemma {:induction false} ColFoldSumsColumn(values: seq<seq<nat>>, i: nat)
    requires |values| >= 2
    requires forall r :: 0 <= r < |values| ==> i < |values[r]|
    ensures ColFold(values, i) == Running(Sum(Column(values, i)))
    decreases |values|
  {
    var n := |values|;
    var prefix := values[..n - 1];
    assert Column(values, i) == Column(prefix, i) + [values[n - 1][i]];
    SumSnoc(Column(prefix, i), values[n - 1][i]);
    if n == 2 {
      assert Column(prefix, i) == [values[0][i]];
    } else {
      ColFoldSumsColumn(prefix, i);
    }
  }

  /** With one series the fold as written never runs its callback: every
      column total is the first row itself, not a number. */
  lemma SingleSeriesColumnTotal(row: seq<nat>, i: nat)
    requires i < |row|
    ensures ColFold([row], i) == WholeRow(row)
    ensures ColFold([row], i) != Running(Sum(Column([row], i)))
  {
  }

  /** The column total as intended: a fold over the series that starts from 0. */
  function ColTotal(values: seq<seq<nat>>, i: nat): (t: nat)
    requires forall r :: 0 <= r < |values| ==> i < |values[r]|
    ensures t == Sum(Column(values, i))
    decreases |values|
  {
    if values == [] then 0
    else
      var n := |values|;
      assert Column(values, i) == Column(values[..n - 1], i) + [values[n - 1][i]];
      SumSnoc(Column(values[..n - 1], i), values[n - 1][i]);
      ColTotal(values[..n - 1], i) + values[n - 1][i]
  }

  // ---------------------------------------------------------------------
  // The normalised table

  /** The typed record parseData builds in its `data` object. */
  datatype Table = Table(
    colOrder: seq<string>,    // category values, source order
    colLabels: seq<string>,   // colReordered: category values, sorted
    rowNames: seq<string>,    // groupName of every series, source order
    values: seq<seq<nat>>,    // values[r][c]: series r, sorted column c
    rowTotals: seq<nat>,
    colTotals: seq<nat>,
    overallTotal: nat,
    rowVar: string,           // vars[0]
    colVar: string)           // vars[1]

  /** The shape every table produced by Normalise has. */
  predicate ValidTable(d: Table)
  {
    && |d.colLabels| >= 1
    && |d.values| >= 1
    && |d.rowNames| == |d.values| == |d.rowTotals|
    && |d.colTotals| == |d.colLabels|
    && forall r :: 0 <= r < |d.values| ==> |d.values[r]| == |d.colLabels|
  }

  function RowTotals(values: seq<seq<nat>>): (totals: seq<nat>)
    requires forall r :: 0 <= r < |values| ==> |values[r]| > 0
    ensures |totals| == |values|
    ensures forall r :: 0 <= r < |values| ==> totals[r] == Sum(values[r])
  {
    seq(|values|, r requires 0 <= r < |values| => ReduceSum(values[r]))
  }

  function ColTotals(values: seq<seq<nat>>, width: nat): (totals: seq<nat>)
    requires forall r :: 0 <= r < |values| ==> |values[r]| == width
    ensures |totals| == width
    ensures forall i :: 0 <= i < width ==> totals[i] == Sum(Column(values, i))
  {
    seq(width, i requires 0 <= i < width => ColTotal(values, i))
  }

  /** cat.values.map(x => colReordered.map(c => x.values[colOrder.indexOf(c)])):
      every series re-indexed into the sorted column order, entry c being the
      series' value for the first category equal to colLabels[c]. */
  function ReindexAll(cat: Categorical, colLabels: seq<string>): (values: seq<seq<nat>>)
    requires WellFormed(cat)
    requires forall c :: 0 <= c < |colLabels| ==> colLabels[c] in cat.categories
    ensures |values| == |cat.series|
    ensures forall r :: 0 <= r < |values| ==> |values[r]| == |colLabels|
    ensures forall c :: 0 <= c < |colLabels| ==> 0 <= IndexOf(cat.categories, colLabels[c])
    ensures forall r, c :: 0 <= r < |values| && 0 <= c < |colLabels| ==>
      values[r][c] == cat.series[r].values[IndexOf(cat.categories, colLabels[c])]
  {
    seq(|cat.series|, r requires 0 <= r < |cat.series| =>
      seq(|colLabels|, c requires 0 <= c < |colLabels| =>
        cat.series[r].values[IndexOf(cat.categories, colLabels[c])]))
  }

  function GroupNames(series: seq<Series>): (names: seq<string>)
    ensures |names| == |series|
    ensures forall r :: 0 <= r < |series| ==> names[r] == series[r].groupName
  {
    seq(|series|, r requires 0 <= r < |series| => series[r].groupName)
  }

  /** A table whose totals are the sums parseData computes: every row
      total is the sum of its row, every column total the sum of its column,
      and the overall total the sum of the row totals. */
  predicate Totalled(d: Table)
  {
    && ValidTable(d)
    && (forall r :: 0 <= r < |d.values| ==> d.rowTotals[r] == Sum(d.values[r]))
    && (forall c :: 0 <= c < |d.colLabels| ==> d.colTotals[c] == Sum(Column(d.values, c)))
    && d.overallTotal == Sum(d.rowTotals)
  }

  /** d is the table of cat over the columns d.colLabels: every series
      re-indexed into that column order, entry c being the series' value for
      the first category equal to colLabels[c], with its row, column and
      overall sums. */
  predicate Tabulated(cat: Categorical, d: Table)
  {
    && WellFormed(cat)
    && Totalled(d)
    && d.colOrder == cat.categories
    && d.rowNames == GroupNames(cat.series)
    && |d.values| == |cat.series|
    && (forall c :: 0 <= c < |d.colLabels| ==> 0 <= IndexOf(cat.categories, d.colLabels[c]))
    && (forall r, c :: 0 <= r < |d.values| && 0 <= c < |d.colLabels| ==>
          d.values[r][c] == cat.series[r].values[IndexOf(cat.categories, d.colLabels[c])])
    && d.rowVar == cat.rowVar && d.colVar == cat.colVar
  }

  /** Lines 135-170 of parseData: the columns are the category values in
      sorted order, and the table is tabulated over them. */
  function Normalise(cat: Categorical): (d: Table)
    requires WellFormed(cat)
    ensures Sorted(d.colLabels) && multiset(d.colLabels) == multiset(cat.categories)
    ensures Tabulated(cat, d)
  {
    var colLabels := SortLabels(cat.categories);
    assert forall c :: 0 <= c < |colLabels| ==> colLabels[c] in multiset(cat.categories);
    Tabulate(cat, colLabels)
  }

  /** The table over the columns colLabels. */
  function Tabulate(cat: Categorical, colLabels: seq<string>): (d: Table)
    requires WellFormed(cat) && |colLabels| >= 1
    requires forall c :: 0 <= c < |colLabels| ==> colLabels[c] in cat.categories
    ensures d.colLabels == colLabels
    ensures Tabulated(cat, d)
  {
    var values := ReindexAll(cat, colLabels);
    var rowTotals := RowTotals(values);
    Table(
      cat.categories, colLabels, GroupNames(cat.series),
      values, rowTotals, ColTotals(values, |colLabels|), ReduceSum(rowTotals),
      cat.rowVar, cat.colVar)
  }

  /** Summing the column totals gives the overall total: the double sum can
      be taken row by row or column by column. */
  lemma {:induction false} SumOfColumnSums(values: seq<seq<nat>>, width: nat)
    requires forall r :: 0 <= r < |values| ==> |values[r]| == width
    ensures Sum(ColTotals(values, width)) == Sum(RowTotalsOf(values))
    decreases |values|
  {
    var cols := ColTotals(values, width);
    if values == [] {
      assert forall i :: 0 <= i < width ==> cols[i] == 0;
      ZeroSum(cols);
    } else {
      var n := |values|;
      var prefix := values[..n - 1];
      var last := values[n - 1];
      SumOfColumnSums(prefix, width);
      forall i | 0 <= i < width
        ensures cols[i] == ColTotals(prefix, width)[i] + last[i]
      {
        assert Column(values, i) == Column(prefix, i) + [last[i]];
        SumSnoc(Column(prefix, i), last[i]);
      }
      SumOfPointwise(ColTotals(prefix, width), last, cols);
      assert RowTotalsOf(values) == RowTotalsOf(prefix) + [Sum(last)];
      SumSnoc(RowTotalsOf(prefix), Sum(last));
    }
  }

  /** The row sums as a specification: Sum of every row, whatever its width.
      RowTotals is the same sequence reached through the seedless fold,
      which needs rows that are not empty. */
  function RowTotalsOf(values: seq<seq<nat>>): (totals: seq<nat>)
    ensures |totals| == |values|
  {
    seq(|values|, r requires 0 <= r < |values| => Sum(values[r]))
  }

  /** Every entry of the table, row after row. */
  function Flatten(values: seq<seq<nat>>): seq<nat>
    decreases |values|
  {
    if values == [] then [] else values[0] + Flatten(values[1..])
  }

  lemma {:induction false} SumConcat(a: seq<nat>, b: seq<nat>)
    ensures Sum(a + b) == Sum(a) + Sum(b)
    decreases |a|
  {
    if a == [] {
      assert a + b == b;
    } else {
      assert (a + b)[1..] == a[1..] + b;
      SumConcat(a[1..], b);
    }
  }

  /** Adding up every entry of the table gives the sum of the row sums. */
  lemma {:induction false} SumFlatten(values: seq<seq<nat>>)
    ensures Sum(Flatten(values)) == Sum(RowTotalsOf(values))
    decreases |values|
  {
    if values != [] {
      SumConcat(values[0], Flatten(values[1..]));
      SumFlatten(values[1..]);
      assert RowTotalsOf(values)[1..] == RowTotalsOf(values[1..]);
    }
  }

  /** A table of R rows of width C has R * C entries. */
  lemma {:induction false} FlattenLength(values: seq<seq<nat>>, width: nat)
    requires forall k :: 0 <= k < |values| ==> |values[k]| == width
    ensures |Flatten(values)| == |values| * width
    decreases |values|
  {
    if values != [] {
      FlattenLength(values[1..], width);
      assert |values| * width == width + (|values| - 1) * width;
    }
  }

  /** Entry (r, c) of the table is entry r * width + c of its flattening. */
  predicate FlatEntry(values: seq<seq<nat>>, width: nat, r: int, c: int)
  {
    && 0 <= r < |values| && 0 <= c < |values[r]|
    && r * width + c < |Flatten(values)|
    && Flatten(values)[r * width + c] == values[r][c]
  }

  /** Entry (r, c) of a table of width C is entry r * C + c of its
      flattening. */
  lemma {:induction false} FlattenAt(values: seq<seq<nat>>, width: nat, r: nat, c: nat)
    requires forall k :: 0 <= k < |values| ==> |values[k]| == width
    requires r < |values| && c < width
    ensures r * width + c < |Flatten(values)|
    ensures Flatten(values)[r * width + c] == values[r][c]
    decreases |values|
  {
    FlattenLength(values, width);
    if r > 0 {
      FlattenAt(values[1..], width, r - 1, c);
      assert r * width + c == width + ((r - 1) * width + c);
    }
  }

  lemma {:induction false} ZeroSum(s: seq<nat>)
    requires forall i :: 0 <= i < |s| ==> s[i] == 0
    ensures Sum(s) == 0
    decreases |s|
  {
    if s != [] {
      ZeroSum(s[1..]);
    }
  }

  /** The column totals add up to the overall total: in every table
      parseData builds, sum(colTotals) == overallTotal. */
  lemma ColumnTotalsAddUp(d: Table)
    requires Totalled(d)
    ensures Sum(d.colTotals) == d.overallTotal
  {
    SumOfColumnSums(d.values, |d.colLabels|);
    assert d.colTotals == ColTotals(d.values, |d.colLabels|);
    assert d.rowTotals == RowTotalsOf(d.values);
  }

  /** The fold as written and the intended column total agree whenever
      there are at least two series. */
  lemma ColumnTotalsAsWritten(cat: Categorical, i: nat)
    requires WellFormed(cat) && |cat.series| >= 2 && i < |cat.categories|
    ensures ColFold(Normalise(cat).values, i) == Running(Normalise(cat).colTotals[i])
  {
    var d := Normalise(cat);
    ColFoldSumsColumn(d.values, i);
  }

  /** The example input: two series X = [3, 2] and Y = [5, 1] over the
      categories B, A (in that order). */
  predicate IsTwoByTwoExample(cat: Categorical)
  {
    cat == Categorical(["B", "A"], [Series("X", [3, 2]), Series("Y", [5, 1])], "Rows", "Cols")
  }

  lemma AThenB()
    ensures Sorted(["A", "B"]) && multiset(["B", "A"]) == multiset(["A", "B"])
  {
    assert LexLe("A", "B");
  }

  /** The columns come out as A, B. */
  lemma TwoByTwoColumns(cat: Categorical)
    requires IsTwoByTwoExample(cat)
    ensures WellFormed(cat) && Normalise(cat).colLabels == ["A", "B"]
  {
    var d := Normalise(cat);
    AThenB();
    SortedUnique(d.colLabels, ["A", "B"]);
  }

  /** The table over the columns A, B: every series re-ordered with the
      columns, and its sums. */
  lemma TwoByTwoTable(cat: Categorical, d: Table)
    requires IsTwoByTwoExample(cat) && Tabulated(cat, d) && d.colLabels == ["A", "B"]
    ensures d.values == [[2, 3], [1, 5]]
    ensures d.rowTotals == [5, 6] && d.colTotals == [3, 8] && d.overallTotal == 11
  {
    assert IndexOf(cat.categories, d.colLabels[0]) == 1;
    assert IndexOf(cat.categories, d.colLabels[1]) == 0;
    assert d.values[0][0] == 2 && d.values[0][1] == 3;
    assert d.values[1][0] == 1 && d.values[1][1] == 5;
    assert d.values[0] == [2, 3];
    assert d.values[1] == [1, 5];
    TwoByTwoSums();
    assert d.rowTotals == [5, 6];
    TwoByTwoColumnSums(d.values);
    assert d.colTotals == [3, 8];
  }

  lemma TwoByTwoSums()
    ensures Sum([2, 3]) == 5 && Sum([1, 5]) == 6 && Sum([5, 6]) == 11
  {
    assert [2, 3][1..] == [3] && [1, 5][1..] == [5] && [5, 6][1..] == [6];
  }

  lemma TwoByTwoColumnSums(values: seq<seq<nat>>)
    requires values == [[2, 3], [1, 5]]
    ensures Sum(Column(values, 0)) == 3 && Sum(Column(values, 1)) == 8
  {
    assert Column(values, 0) == [2, 1];
    assert Column(values, 1) == [3, 5];
    assert [2, 1][1..] == [1] && [3, 5][1..] == [5];
  }

  /** Normalising the example: series X = [2, 3] and Y = [1, 5] over the
      sorted columns A, B, row totals 5 and 6, column totals 3 and 8,
      overall total 11. */
  lemma TwoByTwoNormalised(cat: Categorical)
    requires IsTwoByTwoExample(cat)
    ensures WellFormed(cat)
    ensures var d := Normalise(cat);
      && d.colLabels == ["A", "B"]
      && d.values == [[2, 3], [1, 5]]
      && d.rowTotals == [5, 6] && d.colTotals == [3, 8] && d.overallTotal == 11
  {
    TwoByTwoColumns(cat);
    TwoByTwoTable(cat, Normalise(cat));
  }
}
