/**
 * `applyAction` of app/api/transform/route.ts: the workbook is changed in
 * place, one worksheet at a time. A worksheet is an object whose name and
 * rows the actions overwrite; each method is proved against the
 * specification function of its action in module Sheets.
 */
module Transform {
  import opened Wrappers
  import opened JsText
  import opened Instruction
  import opened Sheets

  /**
   * The header loop of rename_column: the first column, counted from 1,
   * whose key equals `key`.
   */
  method ScanHeader(keys: seq<string>, key: string) returns (col: Option<nat>)
    ensures col == FirstKey(keys, key, 1)
  {
    var c := 1;
    while c <= |keys|
      invariant 1 <= c <= |keys| + 1
      invariant FirstKey(keys, key, c) == FirstKey(keys, key, 1)
    {
      if keys[c - 1] == key {
        return Some(c);
      }
      c := c + 1;
    }
    return None;
  }

  /**
   * While row `j` of `s[..i + 1]` moves left: every neighbouring pair is in
   * order except the pair (j - 1, j), and the rows either side of `j` are
   * in order with each other.
   */
  ghost predicate OrderedExcept(s: seq<Row>, i: nat, j: nat, cmp: (Row, Row) -> int)
    requires j <= i < |s|
  {
    && (forall k :: 0 <= k < i && k != j - 1 ==> cmp(s[k], s[k + 1]) <= 0)
    && (0 < j < i ==> cmp(s[j - 1], s[j + 1]) <= 0)
  }

  /** Swapping a pair that is out of order moves the exception one place left. */
  lemma SwapStep(s: seq<Row>, i: nat, j: nat, cmp: (Row, Row) -> int)
    requires Antisymmetric(cmp)
    requires 0 < j <= i < |s| && OrderedExcept(s, i, j, cmp) && cmp(s[j - 1], s[j]) > 0
    ensures OrderedExcept(s[j - 1 := s[j]][j := s[j - 1]], i, j - 1, cmp)
    ensures multiset(s[j - 1 := s[j]][j := s[j - 1]]) == multiset(s)
  {
    var t := s[j - 1 := s[j]][j := s[j - 1]];
    assert cmp(t[j - 1], t[j]) == -cmp(s[j - 1], s[j]);
    if 1 < j {
      assert cmp(t[j - 2], t[j]) == cmp(s[j - 2], s[j - 1]);
    }
    forall k | 0 <= k < i && k != j - 2 ensures cmp(t[k], t[k + 1]) <= 0 {
      if k == j {
        assert cmp(t[k], t[k + 1]) == cmp(s[j - 1], s[j + 1]);
      } else if k != j - 1 {
        assert t[k] == s[k] && t[k + 1] == s[k + 1];
      }
    }
  }

  /**
   * One pass of insertion: `a[i]` moves left past every neighbour that
   * `cmp` puts after it, so that `a[..i + 1]` is in order.
   */
  method InsertAt(a: array<Row>, i: nat, cmp: (Row, Row) -> int)
    requires Antisymmetric(cmp)
    requires i < a.Length && InOrder(a[..i], cmp)
    modifies a
    ensures multiset(a[..]) == multiset(old(a[..]))
    ensures InOrder(a[..i + 1], cmp)
  {
    var j := i;
    while 0 < j && cmp(a[j - 1], a[j]) > 0
      invariant 0 <= j <= i
      invariant multiset(a[..]) == multiset(old(a[..]))
      invariant OrderedExcept(a[..], i, j, cmp)
    {
      ghost var s := a[..];
      SwapStep(s, i, j, cmp);
      a[j - 1], a[j] := a[j], a[j - 1];
      assert a[..] == s[j - 1 := s[j]][j := s[j - 1]];
      j := j - 1;
    }
  }

  /** `rows.sort(cmp)` on the array of data rows, for a comparator that is antisymmetric. */
  method SortArray(a: array<Row>, cmp: (Row, Row) -> int)
    requires Antisymmetric(cmp)
    modifies a
    ensures multiset(a[..]) == multiset(old(a[..]))
    ensures InOrder(a[..], cmp)
  {
    var i := 0;
    while i < a.Length
      invariant i <= a.Length
      invariant multiset(a[..]) == multiset(old(a[..]))
      invariant InOrder(a[..i], cmp)
    {
      InsertAt(a, i, cmp);
      i := i + 1;
    }
    assert a[..i] == a[..];
  }

  /** The first loop of filter_rows: the numbers of the rows to keep, row 1 always among them. */
  method RowsToKeep(grid: Grid, keep: Row -> bool) returns (keepRows: seq<nat>)
    ensures forall q :: q in keepRows <==> q == 1 || (2 <= q <= |grid| && keep(grid[q - 1]))
  {
    keepRows := [1];
    var r := 2;
    while r <= |grid|
      invariant 2 <= r <= |grid| + 1 || (r == 2 && |grid| < 2)
      invariant forall q :: q in keepRows <==> q == 1 || (2 <= q < r && keep(grid[q - 1]))
    {
      if keep(grid[r - 1]) {
        keepRows := keepRows + [r];
      }
      r := r + 1;
    }
  }

  /** A worksheet: its name and its rows, row 1 being the header. */
  class Worksheet {
    var name: string
    var rows: Grid

    constructor (name: string, rows: Grid)
      ensures this.name == name && this.rows == rows
    {
      this.name := name;
      this.rows := rows;
    }

    /** rename_column: the first header cell whose key matches `columnOld` is overwritten. */
    method RenameColumn(columnOld: string, columnNew: string)
      modifies this
      ensures name == old(name)
      ensures rows == RenamedColumn(old(rows), columnOld, columnNew)
    {
      var col := ScanHeader(HeaderKeys(Header(rows)), Normalize(columnOld));
      if col.Some? {
        rows := rows[0 := SetCell(rows[0], col.value, Str(columnNew))];
      }
    }

    /** The loop over the data rows, rows 2 to `rowCount`, each replaced by its image under `f`. */
    method MapDataRows(f: Row -> Row)
      requires rows != []
      modifies this
      ensures name == old(name)
      ensures rows == MapData(old(rows), f)
    {
      ghost var before := rows;
      var r := 1;
      while r < |rows|
        invariant 1 <= r <= |rows| == |before|
        invariant name == old(name) && rows[0] == before[0]
        invariant forall i :: 1 <= i < r ==> rows[i] == f(before[i])
        invariant forall i :: r <= i < |rows| ==> rows[i] == before[i]
      {
        rows := rows[r := f(rows[r])];
        r := r + 1;
      }
    }

    /**
     * add_column_sum: when both columns are found, the header gets
     * `newColumn` after its last cell and every data row its sum there.
     */
    method AddColumnSum(colA: string, colB: string, newColumn: string)
      modifies this
      ensures name == old(name)
      ensures var ca, cb := FindColumn(Header(old(rows)), colA), FindColumn(Header(old(rows)), colB);
              if ca.Some? && cb.Some? then rows == WithSumColumn(old(rows), ca.value, cb.value, newColumn)
              else rows == old(rows)
    {
      var ca := FindColumn(Header(rows), colA);
      var cb := FindColumn(Header(rows), colB);
      if ca.None? || cb.None? {
        return;
      }
      var k := |rows[0]| + 1;
      rows := rows[0 := SetCell(rows[0], k, Str(newColumn))];
      MapDataRows(SumInto(k, ca.value, cb.value));
    }

    /** delete_column: `spliceColumns(idx, 1)` once the column is found. */
    method DeleteColumn(columnName: string)
      modifies this
      ensures name == old(name)
      ensures var c := FindColumn(Header(old(rows)), columnName);
              if c.Some? then rows == WithoutColumn(old(rows), c.value) else rows == old(rows)
    {
      var c := FindColumn(Header(rows), columnName);
      if c.Some? {
        rows := WithoutColumn(rows, c.value);
      }
    }

    /**
     * filter_rows for the test `keep`: every data row that is not to be
     * kept is spliced out, from the bottom up.
     */
    method KeepOnly(keep: Row -> bool)
      requires rows != []
      modifies this
      ensures name == old(name)
      ensures rows == [old(rows)[0]] + KeptRows(old(rows)[1..], keep)
    {
      ghost var before := rows;
      var keepRows := RowsToKeep(rows, keep);
      var r := |rows|;
      while r >= 2
        invariant 1 <= r <= |before|
        invariant name == old(name)
        invariant rows == before[..r] + KeptRows(before[r..], keep)
      {
        KeptRowsStep(before, r - 1, keep);
        if r !in keepRows {
          rows := rows[..r - 1] + rows[r..];
        }
        r := r - 1;
      }
      assert before[..1] == [before[0]];
    }

    /** filter_rows: row 1 and the data rows whose cell passes `compare(val, target, op)` stay. */
    method FilterRows(columnName: string, op: Op, target: int)
      modifies this
      ensures name == old(name)
      ensures var c := FindColumn(Header(old(rows)), columnName);
              if c.Some? then rows == Filtered(old(rows), c.value, op, target) else rows == old(rows)
    {
      var c := FindColumn(Header(rows), columnName);
      if c.None? {
        return;
      }
      KeepOnly(KeepRow(c.value, op, target));
    }

    /**
     * The sort of sort_by for the comparator `cmp`: the data rows are
     * copied into an array, sorted there, and replace the data rows of the
     * sheet.
     */
    method SortData(cmp: (Row, Row) -> int)
      requires rows != [] && Antisymmetric(cmp)
      modifies this
      ensures name == old(name)
      ensures |rows| == |old(rows)| && rows[0] == old(rows)[0]
      ensures multiset(rows[1..]) == multiset(old(rows)[1..])
      ensures InOrder(rows[1..], cmp)
    {
      var grid := rows;
      var data := new Row[|grid| - 1];
      var r := 0;
      while r < data.Length
        invariant 0 <= r <= data.Length
        invariant data[..r] == grid[1..r + 1]
        invariant name == old(name) && rows == grid
      {
        data[r] := grid[r + 1];
        r := r + 1;
      }
      assert data[..] == data[..r] == grid[1..];
      SortArray(data, cmp);
      rows := [grid[0]] + data[..];
      assert rows[1..] == data[..];
    }

    /** sort_by: the data rows are sorted with the comparator of the column once it is found. */
    method SortBy(columnName: string, dir: Direction)
      modifies this
      ensures name == old(name)
      ensures var c := FindColumn(Header(old(rows)), columnName);
              if c.Some? then SortedRows(old(rows), rows, c.value, dir) else rows == old(rows)
    {
      var c := FindColumn(Header(rows), columnName);
      if c.None? {
        return;
      }
      ComparatorIsAntisymmetric(c.value, dir);
      SortData(Comparator(c.value, dir));
    }

    /**
     * set_value_where: when both columns are found, the target cell of each
     * data row whose condition cell passes is overwritten.
     */
    method SetValueWhere(targetColumn: string, op: Op, conditionColumn: string, conditionValue: string, value: string)
      modifies this
      ensures name == old(name)
      ensures var ct, cc := FindColumn(Header(old(rows)), targetColumn), FindColumn(Header(old(rows)), conditionColumn);
              if ct.Some? && cc.Some? then rows == WithValueWhere(old(rows), ct.value, op, cc.value, conditionValue, value)
              else rows == old(rows)
    {
      var ct := FindColumn(Header(rows), targetColumn);
      var cc := FindColumn(Header(rows), conditionColumn);
      if ct.None? || cc.None? {
        return;
      }
      MapDataRows(WriteWhere(ct.value, op, cc.value, conditionValue, value));
    }

    /** The action on this sheet: rename_sheet renames it, every other action changes its rows. */
    method Apply(a: Action)
      modifies this
      ensures name == (if a.RenameSheet? then a.sheetNew else old(name))
      ensures Transformed(a, old(rows), rows)
    {
      match a
      case RenameSheet(_, sheetNew) =>
        name := sheetNew;
      case RenameColumn(_, columnOld, columnNew) =>
        RenameColumn(columnOld, columnNew);
      case AddColumnSum(_, colA, colB, newColumn) =>
        AddColumnSum(colA, colB, newColumn);
      case DeleteColumn(_, columnName) =>
        DeleteColumn(columnName);
      case FilterRows(_, columnName, op, target) =>
        FilterRows(columnName, op, target);
      case SortBy(_, columnName, dir) =>
        SortBy(columnName, dir);
      case SetValueWhere(_, targetColumn, op, conditionColumn, conditionValue, value) =>
        SetValueWhere(targetColumn, op, conditionColumn, conditionValue, value);
    }
  }

  /** The names of the sheets, in workbook order. */
  function NamesOf(sheets: seq<Worksheet>): (names: seq<string>)
    reads set w | w in sheets
    ensures |names| == |sheets|
    ensures forall i :: 0 <= i < |sheets| ==> names[i] == sheets[i].name
  {
    seq(|sheets|, i requires 0 <= i < |sheets| reads sheets => sheets[i].name)
  }

  /** A workbook: its worksheets in order, no worksheet listed twice. */
  class Workbook {
    var worksheets: seq<Worksheet>

    ghost predicate Valid()
      reads this
    {
      forall i, j :: 0 <= i < j < |worksheets| ==> worksheets[i] != worksheets[j]
    }

    /** A workbook over distinct sheet objects, in the order given. */
    constructor(sheets: seq<Worksheet>)
      requires forall i, j :: 0 <= i < j < |sheets| ==> sheets[i] != sheets[j]
      ensures worksheets == sheets && Valid()
    {
      worksheets := sheets;
    }

    /**
     * `applyAction`: the sheet the action selects is changed as the action
     * says, every other sheet stays as it was, and with no sheet at all
     * nothing happens.
     */
    method ApplyAction(a: Action)
      requires Valid()
      modifies worksheets
      ensures worksheets == old(worksheets)
      ensures var k := TargetSheet(a, old(NamesOf(worksheets)));
              forall i :: 0 <= i < |worksheets| && (k.None? || i != k.value) ==>
                worksheets[i].name == old(worksheets[i].name) && worksheets[i].rows == old(worksheets[i].rows)
      ensures var k := TargetSheet(a, old(NamesOf(worksheets)));
              k.Some? ==>
                var sheet := worksheets[k.value];
                && sheet.name == (if a.RenameSheet? then a.sheetNew else old(sheet.name))
                && Transformed(a, old(sheet.rows), sheet.rows)
    {
      var k := TargetSheet(a, NamesOf(worksheets));
      if k.None? {
        return;
      }
      worksheets[k.value].Apply(a);
    }
  }
}
