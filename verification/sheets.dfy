/**
 * The pure part of the transform route (app/api/transform/route.ts):
 * cells and grids as the route reads and writes them through ExcelJS,
 * `normalize`, `findColumnIndexByHeader`, `getSheet`, `compare`, the
 * per-action coercions of cell values, the sort comparator, and one
 * specification function per grid-changing action.
 */
module Sheets {
  import opened Wrappers
  import opened JsText
  import opened Instruction

  // ---------------------------------------------------------------------
  // Cells, rows and grids
  // ---------------------------------------------------------------------

  /**
   * A cell value as the route sees it: empty (`null`), a number, the
   * number NaN (written by add_column_sum when a summand does not parse),
   * or text.
   */
  datatype Cell = Empty | Num(n: int) | NaN | Str(s: string)

  /** A row: the cell of column c (1-based) is at position c - 1. */
  type Row = seq<Cell>

  /** A worksheet's rows: row 1 (position 0) is the header row. */
  type Grid = seq<Row>

  /** `row.getCell(c).value`: cells past the end of the row read as empty. */
  function CellAt(row: Row, c: nat): Cell {
    if 1 <= c <= |row| then row[c - 1] else Empty
  }

  /** `row.getCell(c).value = v`: the row grows with empty cells when c is past its end. */
  function SetCell(row: Row, c: nat, v: Cell): (r: Row)
    requires c >= 1
    ensures |r| == if c <= |row| then |row| else c
    ensures CellAt(r, c) == v
    ensures forall d :: d != c ==> CellAt(r, d) == CellAt(row, d)
  {
    if c <= |row| then row[c - 1 := v] else row + seq(c - 1 - |row|, _ => Empty) + [v]
  }

  /** `spliceColumns(c, 1)` on one row: the cell of column c goes, later cells move left. */
  function RemoveCell(row: Row, c: nat): (r: Row)
    requires c >= 1
    ensures |r| == if c <= |row| then |row| - 1 else |row|
    ensures forall d :: 1 <= d < c ==> CellAt(r, d) == CellAt(row, d)
    ensures forall d :: d >= c ==> CellAt(r, d) == CellAt(row, d + 1)
  {
    if c <= |row| then row[..c - 1] + row[c..] else row
  }

  /** `sheet.getRow(1)`: the header row, empty when the sheet has no rows. */
  function Header(grid: Grid): Row {
    if grid == [] then [] else grid[0]
  }

  // ---------------------------------------------------------------------
  // normalize and findColumnIndexByHeader
  // ---------------------------------------------------------------------

  /** `normalize(s)`: lower case, every run of white space one space, trimmed. */
  function Normalize(s: string): string {
    Trim(CollapseSpaces(Lower(s)))
  }

  /** A normalised string: no upper case, single plain spaces, none at either end. */
  ghost predicate IsNormal(t: string) {
    NoUpper(t) && SingleSpaced(t) && Trimmed(t)
  }

  lemma NormalizeIsNormal(s: string)
    ensures IsNormal(Normalize(s))
  {
    var c := CollapseSpaces(Lower(s));
    CollapseKeepsNoUpper(Lower(s));
    TrimKeepsShape(c);
  }

  /** `normalize` leaves a normalised string as it is. */
  lemma NormalizeOfNormal(t: string)
    requires IsNormal(t)
    ensures Normalize(t) == t
  {
    LowerOfNoUpper(t);
    CollapseOfSingleSpaced(t);
    TrimOfTrimmed(t);
  }

  /** `normalize` is idempotent. */
  lemma NormalizeIdempotent(s: string)
    ensures Normalize(Normalize(s)) == Normalize(s)
  {
    NormalizeIsNormal(s);
    NormalizeOfNormal(Normalize(s));
  }

  /**
   * `String(cell.value || '')`: a falsy value (empty, 0, NaN, the empty
   * string) reads as the empty string.
   */
  function HeaderText(c: Cell): string {
    match c
    case Empty => ""
    case Num(n) => if n == 0 then "" else IntToString(n)
    case NaN => ""
    case Str(s) => s
  }

  /** The key a header cell is matched by: its text, trimmed, then normalised. */
  function HeaderKey(c: Cell): string {
    Normalize(Trim(HeaderText(c)))
  }

  /** The keys of a header row, column by column. */
  function HeaderKeys(header: Row): (keys: seq<string>)
    ensures |keys| == |header|
    ensures forall i {:trigger HeaderKey(header[i])} {:trigger keys[i]} ::
              0 <= i < |header| ==> keys[i] == HeaderKey(header[i])
  {
    seq(|header|, i requires 0 <= i < |header| => HeaderKey(header[i]))
  }

  /** `findColumnIndexByHeader(sheet, name)`: a 1-based column of the header row, or none. */
  function FindColumn(header: Row, name: string): (r: Option<nat>)
    ensures r.Some? ==> 1 <= r.value <= |header|
  {
    FirstKey(HeaderKeys(header), Normalize(name), 1)
  }

  /** The scan of `findColumnIndexByHeader` from column `c` on, over the header keys. */
  function FirstKey(keys: seq<string>, key: string, c: nat): (r: Option<nat>)
    requires c >= 1
    ensures r.Some? ==> c <= r.value <= |keys| && keys[r.value - 1] == key
    ensures r.Some? ==> forall i :: c - 1 <= i < r.value - 1 ==> keys[i] != key
    ensures r.None? ==> forall i :: c - 1 <= i < |keys| ==> keys[i] != key
    decreases |keys| + 1 - c
  {
    if c > |keys| then None
    else if keys[c - 1] == key then Some(c)
    else FirstKey(keys, key, c + 1)
  }

  /**
   * The column found is the smallest one whose header key equals the
   * normalised name, and there is none exactly when no header matches.
   */
  lemma FindColumnFindsFirstMatch(header: Row, name: string)
    ensures var r := FindColumn(header, name);
            r.Some? ==> HeaderKey(header[r.value - 1]) == Normalize(name)
    ensures var r := FindColumn(header, name);
            r.Some? ==> forall i :: 0 <= i < r.value - 1 ==> HeaderKey(header[i]) != Normalize(name)
    ensures FindColumn(header, name).None? <==> forall i :: 0 <= i < |header| ==> HeaderKey(header[i]) != Normalize(name)
  {
    FirstKeyOfHeader(header, Normalize(name));
  }

  lemma FirstKeyOfHeader(header: Row, key: string)
    ensures var r := FirstKey(HeaderKeys(header), key, 1);
            r.Some? ==> HeaderKey(header[r.value - 1]) == key
    ensures var r := FirstKey(HeaderKeys(header), key, 1);
            r.Some? ==> forall i :: 0 <= i < r.value - 1 ==> HeaderKey(header[i]) != key
    ensures FirstKey(HeaderKeys(header), key, 1).None? <==> forall i :: 0 <= i < |header| ==> HeaderKey(header[i]) != key
  {
    var keys := HeaderKeys(header);
    var r := FirstKey(keys, key, 1);
    if r.Some? {
      assert keys[r.value - 1] == HeaderKey(header[r.value - 1]);
    }
  }

  /** Header lookup ignores case and spacing: looking up a normalised name finds the same column. */
  lemma FindColumnIgnoresCaseAndSpacing(header: Row, name: string)
    ensures FindColumn(header, Normalize(name)) == FindColumn(header, name)
  {
    NormalizeIdempotent(name);
  }

  // ---------------------------------------------------------------------
  // getSheet
  // ---------------------------------------------------------------------

  /** `workbook.getWorksheet(name)`: the position of the first sheet with exactly that name. */
  function FindSheet(names: seq<string>, name: string): (r: Option<nat>)
    ensures r.Some? ==> r.value < |names| && names[r.value] == name
    ensures r.Some? ==> forall j :: 0 <= j < r.value ==> names[j] != name
    ensures r.None? <==> name !in names
  {
    if names == [] then None
    else if names[0] == name then Some(0)
    else match FindSheet(names[1..], name)
      case Some(k) => Some(k + 1)
      case None => None
  }

  /** `workbook.getWorksheet(name) || workbook.worksheets[0]`: the named sheet, else the first one. */
  function LookupOrFirst(names: seq<string>, name: string): (r: Option<nat>)
    ensures r.Some? <==> names != []
    ensures r.Some? ==> r.value < |names|
    ensures name in names ==> r.Some? && names[r.value] == name
    ensures name !in names && names != [] ==> r == Some(0)
  {
    match FindSheet(names, name)
    case Some(k) => Some(k)
    case None => if names == [] then None else Some(0)
  }

  /** `getSheet(workbook, name)`: a name that is absent or empty selects the first sheet. */
  function SheetIndex(names: seq<string>, name: Option<string>): (r: Option<nat>)
    ensures r.Some? <==> names != []
    ensures r.Some? ==> r.value < |names|
    ensures name.Some? && name.value != "" && name.value in names ==> names[r.value] == name.value
    ensures (name.None? || name.value == "" || name.value !in names) && names != [] ==> r == Some(0)
  {
    if name.Some? && name.value != "" then LookupOrFirst(names, name.value)
    else if names == [] then None
    else Some(0)
  }

  /**
   * The sheet an action works on: rename_sheet looks up `sheetOld`, every
   * other action goes through `getSheet` with its optional sheet name.
   */
  function TargetSheet(a: Action, names: seq<string>): (r: Option<nat>)
    ensures r.Some? <==> names != []
    ensures r.Some? ==> r.value < |names|
    ensures a.RenameSheet? && a.sheetOld in names ==> names[r.value] == a.sheetOld
    ensures !a.RenameSheet? && a.sheetName.Some? && a.sheetName.value != "" && a.sheetName.value in names ==>
              names[r.value] == a.sheetName.value
  {
    if a.RenameSheet? then LookupOrFirst(names, a.sheetOld) else SheetIndex(names, a.sheetName)
  }

  // ---------------------------------------------------------------------
  // compare
  // ---------------------------------------------------------------------

  /** The JavaScript values `compare` is called with: numbers (NaN among them) and strings. */
  datatype JsValue = JsNumber(n: int) | JsNaN | JsString(s: string)

  /** `Number(v)`: `None` stands for NaN. */
  function ToNumber(v: JsValue): Option<int> {
    match v
    case JsNumber(n) => Some(n)
    case JsNaN => None
    case JsString(s) => StringToNumber(s)
  }

  /** `String(v ?? '')`. */
  function ToText(v: JsValue): string {
    match v
    case JsNumber(n) => IntToString(n)
    case JsNaN => "NaN"
    case JsString(s) => s
  }

  /** The numeric operators. */
  predicate Holds(op: Op, x: int, y: int) {
    match op
    case Gt => x > y
    case Ge => x >= y
    case Lt => x < y
    case Le => x <= y
    case Ne => x != y
    case Eq => x == y
  }

  /**
   * `compare(a, b, op)`: numerically when both sides are numbers, else on
   * their text, where every operator other than `!=` means equality.
   */
  predicate Compare(a: JsValue, b: JsValue, op: Op) {
    var an := ToNumber(a);
    var bn := ToNumber(b);
    if an.Some? && bn.Some? then Holds(op, an.value, bn.value)
    else if op == Ne then ToText(a) != ToText(b)
    else ToText(a) == ToText(b)
  }

  /** `!=` is the negation of `==`, numerically and on text alike. */
  lemma CompareNeIsNotEq(a: JsValue, b: JsValue)
    ensures Compare(a, b, Ne) <==> !Compare(a, b, Eq)
  {
  }

  /** Swapping the operands turns `>` into `<` and `>=` into `<=`; `==` and `!=` are symmetric. */
  lemma CompareConverse(a: JsValue, b: JsValue)
    ensures Compare(a, b, Gt) == Compare(b, a, Lt)
    ensures Compare(a, b, Ge) == Compare(b, a, Le)
    ensures Compare(a, b, Eq) == Compare(b, a, Eq)
    ensures Compare(a, b, Ne) == Compare(b, a, Ne)
  {
  }

  /** Every value equals itself. */
  lemma CompareReflexive(a: JsValue)
    ensures Compare(a, a, Eq) && Compare(a, a, Ge) && Compare(a, a, Le)
    ensures !Compare(a, a, Ne)
  {
  }

  /** When one side is not a number, the ordering operators degrade to text equality. */
  lemma CompareOnTextIsEquality(a: JsValue, b: JsValue, op: Op)
    requires ToNumber(a).None? || ToNumber(b).None?
    ensures op != Ne ==> (Compare(a, b, op) <==> ToText(a) == ToText(b))
    ensures op == Ne ==> (Compare(a, b, op) <==> ToText(a) != ToText(b))
  {
  }

  /** Texts that parse to the same number are equal for `compare`, even when they differ. */
  lemma CompareEqualsNumerically(a: string, b: string)
    requires StringToNumber(a).Some? && StringToNumber(a) == StringToNumber(b)
    ensures Compare(JsString(a), JsString(b), Eq)
  {
  }

  // ---------------------------------------------------------------------
  // How each action reads a cell
  // ---------------------------------------------------------------------

  /** `String(cell.value)`: an empty cell reads as "null". */
  function CellString(c: Cell): string {
    match c
    case Empty => "null"
    case Num(n) => IntToString(n)
    case NaN => "NaN"
    case Str(s) => s
  }

  /** A JavaScript number from an optional integer, `None` being NaN. */
  function NumberValue(o: Option<int>): JsValue {
    match o
    case Some(n) => JsNumber(n)
    case None => JsNaN
  }

  /**
   * The value filter_rows compares: a number cell as it is, anything else
   * through `Number(String(value).replace(/,/g, ''))`.
   */
  function FilterKey(c: Cell): JsValue {
    match c
    case Num(n) => JsNumber(n)
    case NaN => JsNaN
    case _ => NumberValue(StringToNumber(RemoveCommas(CellString(c))))
  }

  /** Whether filter_rows keeps a data row whose cell in the filtered column is `c`. */
  predicate Keeps(c: Cell, op: Op, target: int) {
    Compare(FilterKey(c), JsNumber(target), op)
  }

  /** An empty cell reads as the text "null", which is not a number. */
  lemma EmptyCellFiltersAsNaN()
    ensures FilterKey(Empty) == JsNaN
  {
    assert RemoveCommas("null") == "null";
    assert Trim("null") == "null" by {
      assert TrimStart("null") == "null";
      assert TrimEnd("null") == "null";
    }
    assert Unsigned("null").None? by { assert !IsDigit('n'); }
  }

  /**
   * A cell that is not a number survives filtering only under `!=`: the
   * comparison falls back to text, and "NaN" is never the text of an integer.
   */
  lemma UnparsedCellsSurviveOnlyUnderNe(c: Cell, op: Op, target: int)
    requires FilterKey(c) == JsNaN
    ensures Keeps(c, op, target) <==> op == Ne
  {
    IntToStringIsNotNaN(target);
  }

  /** A cell that is a number, or text that parses as one, is compared numerically. */
  lemma NumericCellsCompareNumerically(c: Cell, op: Op, target: int, n: int)
    requires FilterKey(c) == JsNumber(n)
    ensures Keeps(c, op, target) <==> Holds(op, n, target)
  {
  }

  /** Thousands separators do not matter to filter_rows. */
  lemma FilterIgnoresCommas(s: string)
    ensures FilterKey(Str(s)) == FilterKey(Str(RemoveCommas(s)))
  {
  }

  /**
   * One summand of add_column_sum, `Number(cell.value ?? 0)`: an empty cell
   * counts as 0, text is parsed, and `None` stands for NaN.
   */
  function SumOperand(c: Cell): Option<int> {
    match c
    case Empty => Some(0)
    case Num(n) => Some(n)
    case NaN => None
    case Str(s) => StringToNumber(s)
  }

  /** `cellA + cellB`: NaN as soon as either summand is NaN. */
  function SumCell(a: Option<int>, b: Option<int>): (r: Cell)
    ensures r == NaN || r.Num?
  {
    if a.Some? && b.Some? then Num(a.value + b.value) else NaN
  }

  /** The sum of two cells is a number exactly when both summands are; empty cells add as 0. */
  lemma SumOfCells(x: Cell, y: Cell)
    ensures SumCell(SumOperand(x), SumOperand(y)).Num? <==> SumOperand(x).Some? && SumOperand(y).Some?
    ensures SumCell(SumOperand(Empty), SumOperand(y)) == SumCell(Some(0), SumOperand(y))
    ensures SumCell(SumOperand(x), SumOperand(y)) == SumCell(SumOperand(y), SumOperand(x))
  {
  }

  /** Text that is empty or only white space adds as 0, like an empty cell. */
  lemma BlankTextAddsAsZero(w: string)
    requires AllSpace(w)
    ensures SumOperand(Str(w)) == Some(0) == SumOperand(Empty)
  {
    TrimStartOfConcat(w, []);
    assert w + [] == w;
  }

  /** Whether set_value_where overwrites a row whose condition cell is `c`. */
  predicate Passes(c: Cell, op: Op, conditionValue: string) {
    Compare(JsString(CellString(c)), JsString(conditionValue), op)
  }

  /** A number cell passes `==` against the text of the same number. */
  lemma NumberCellEqualsItsText(n: int)
    ensures Passes(Num(n), Eq, IntToString(n))
    ensures !Passes(Num(n), Ne, IntToString(n))
  {
    NumberOfIntToString(n);
  }

  /** A text cell passes `==` against its own text, whether or not it is a number. */
  lemma TextCellEqualsItself(s: string)
    ensures Passes(Str(s), Eq, s)
    ensures !Passes(Str(s), Ne, s)
  {
  }

  /** "01" and "1" both read as the number 1. */
  lemma OneWithLeadingZero()
    ensures StringToNumber("01") == Some(1) && StringToNumber("1") == Some(1)
  {
    assert Trim("01") == "01" by {
      assert TrimStart("01") == "01";
      assert TrimEnd("01") == "01";
    }
    assert Trim("1") == "1";
    assert DigitsValue("01") == 1 by {
      assert "01"[..1] == "0";
    }
  }

  /** A condition is matched numerically when both sides are numbers: "01" passes `==` against "1". */
  lemma NumericTextsMatch()
    ensures Passes(Str("01"), Eq, "1") && "01" != "1"
  {
    OneWithLeadingZero();
    CompareEqualsNumerically("01", "1");
  }

  /** `!=` selects exactly the rows that `==` leaves alone. */
  lemma PassesNeIsNotEq(c: Cell, conditionValue: string)
    ensures Passes(c, Ne, conditionValue) <==> !Passes(c, Eq, conditionValue)
  {
  }

  // ---------------------------------------------------------------------
  // The comparator of sort_by
  // ---------------------------------------------------------------------

  /** The numeric sort key, `typeof v === 'number' ? v : Number(v)`; an empty cell is `undefined`. */
  function SortNumber(c: Cell): Option<int> {
    match c
    case Empty => None
    case Num(n) => Some(n)
    case NaN => None
    case Str(s) => StringToNumber(s)
  }

  /** The text sort key, `String(v ?? '')`. */
  function SortText(c: Cell): string {
    match c
    case Empty => ""
    case Num(n) => IntToString(n)
    case NaN => "NaN"
    case Str(s) => s
  }

  /**
   * The comparator handed to `rows.sort` for column `idx`: negative when
   * `x` goes first. Numbers are compared when both keys are numbers,
   * their texts otherwise; `desc` swaps the operands.
   */
  function RowOrder(x: Row, y: Row, idx: nat, dir: Direction): int {
    var a := CellAt(x, idx);
    var b := CellAt(y, idx);
    var an := SortNumber(a);
    var bn := SortNumber(b);
    if an.Some? && bn.Some? then (if dir == Asc then an.value - bn.value else bn.value - an.value)
    else if dir == Asc then StrCompare(SortText(a), SortText(b))
    else StrCompare(SortText(b), SortText(a))
  }

  /** Swapping the rows negates the comparator. */
  lemma RowOrderAntisymmetric(x: Row, y: Row, idx: nat, dir: Direction)
    ensures RowOrder(y, x, idx, dir) == -RowOrder(x, y, idx, dir)
  {
    StrCompareAntisymmetric(SortText(CellAt(x, idx)), SortText(CellAt(y, idx)));
  }

  /** `desc` is `asc` with the rows swapped. */
  lemma DescendingReversesAscending(x: Row, y: Row, idx: nat)
    ensures RowOrder(x, y, idx, Desc) == RowOrder(y, x, idx, Asc)
  {
  }

  /** The comparator of sort_by for column `idx`, as the function value handed to `rows.sort`. */
  function Comparator(idx: nat, dir: Direction): (Row, Row) -> int {
    (x, y) => RowOrder(x, y, idx, dir)
  }

  /** Swapping the operands of `cmp` negates its result. */
  ghost predicate Antisymmetric(cmp: (Row, Row) -> int) {
    forall x, y :: cmp(y, x) == -cmp(x, y)
  }

  lemma ComparatorIsAntisymmetric(idx: nat, dir: Direction)
    ensures Antisymmetric(Comparator(idx, dir))
  {
    forall x, y ensures Comparator(idx, dir)(y, x) == -Comparator(idx, dir)(x, y) {
      RowOrderAntisymmetric(x, y, idx, dir);
    }
  }

  /** Every pair of neighbours is in the order of `cmp`. */
  ghost predicate InOrder(rows: seq<Row>, cmp: (Row, Row) -> int) {
    forall i :: 0 <= i < |rows| - 1 ==> cmp(rows[i], rows[i + 1]) <= 0
  }

  /** Every row's key in column `idx` is a number. */
  ghost predicate NumericKeys(rows: seq<Row>, idx: nat) {
    forall i :: 0 <= i < |rows| ==> SortNumber(CellAt(rows[i], idx)).Some?
  }

  /** On a column of numbers, rows in order are sorted by value: ascending, or descending for `desc`. */
  lemma {:induction false} NumericColumnSortsFully(rows: seq<Row>, idx: nat, dir: Direction, i: nat, j: nat)
    requires InOrder(rows, Comparator(idx, dir)) && NumericKeys(rows, idx) && i <= j < |rows|
    ensures var a := SortNumber(CellAt(rows[i], idx)).value;
            var b := SortNumber(CellAt(rows[j], idx)).value;
            if dir == Asc then a <= b else a >= b
    decreases j - i
  {
    if i < j {
      NumericColumnSortsFully(rows, idx, dir, i + 1, j);
      assert Comparator(idx, dir)(rows[i], rows[i + 1]) <= 0;
    }
  }

  /** No row's key in column `idx` is a number. */
  ghost predicate TextKeys(rows: seq<Row>, idx: nat) {
    forall i :: 0 <= i < |rows| ==> SortNumber(CellAt(rows[i], idx)).None?
  }

  /** When a key is not a number, the comparator compares the texts of the keys. */
  lemma RowOrderOnText(x: Row, y: Row, idx: nat, dir: Direction)
    requires SortNumber(CellAt(x, idx)).None?
    ensures var a, b := SortText(CellAt(x, idx)), SortText(CellAt(y, idx));
            Comparator(idx, dir)(x, y) == if dir == Asc then StrCompare(a, b) else StrCompare(b, a)
  {
  }

  /** Row `x`'s key text comes no later than row `y`'s in direction `dir`. */
  ghost predicate TextBefore(x: Row, y: Row, idx: nat, dir: Direction) {
    var a, b := SortText(CellAt(x, idx)), SortText(CellAt(y, idx));
    if dir == Asc then StrCompare(a, b) <= 0 else StrCompare(b, a) <= 0
  }

  /** A text key ordered before `y` by the comparator comes before everything `y` precedes. */
  lemma TextStep(x: Row, y: Row, z: Row, idx: nat, dir: Direction)
    requires SortNumber(CellAt(x, idx)).None?
    requires Comparator(idx, dir)(x, y) <= 0 && TextBefore(y, z, idx, dir)
    ensures TextBefore(x, z, idx, dir)
  {
    RowOrderOnText(x, y, idx, dir);
    var a, m, b := SortText(CellAt(x, idx)), SortText(CellAt(y, idx)), SortText(CellAt(z, idx));
    if dir == Asc {
      StrCompareTransitive(a, m, b);
    } else {
      StrCompareTransitive(b, m, a);
    }
  }

  /**
   * On a column of texts, rows in order are sorted by the text of their
   * keys: ascending, or descending for `desc`.
   */
  lemma {:induction false} TextColumnSortsFully(rows: seq<Row>, idx: nat, dir: Direction, i: nat, j: nat)
    requires InOrder(rows, Comparator(idx, dir)) && TextKeys(rows, idx) && i <= j < |rows|
    ensures TextBefore(rows[i], rows[j], idx, dir)
    decreases j - i
  {
    if i < j {
      TextColumnSortsFully(rows, idx, dir, i + 1, j);
      TextStep(rows[i], rows[i + 1], rows[j], idx, dir);
    } else {
      TextBeforeReflexive(rows[i], idx, dir);
    }
  }

  lemma TextBeforeReflexive(x: Row, idx: nat, dir: Direction)
    ensures TextBefore(x, x, idx, dir)
  {
    var a := SortText(CellAt(x, idx));
    StrCompareAntisymmetric(a, a);
  }

  /** "1x" is not a number, so a comparison with it falls back to texts. */
  lemma OneXIsText()
    ensures SortNumber(Str("1x")).None?
  {
    assert Trim("1x") == "1x" by {
      assert TrimStart("1x") == "1x";
      assert TrimEnd("1x") == "1x";
    }
    assert !IsDigit('x');
  }

  /** The text of the number 10. */
  lemma TextOfTen()
    ensures IntToString(10) == "10"
  {
    assert NatToDigits(1) == "1";
    assert NatToDigits(10) == NatToDigits(1) + [DigitChar(0)];
  }

  /**
   * On a column that mixes numbers and text the comparator is not a
   * consistent order: 9 goes before 10 as numbers, 10 before "1x" and
   * "1x" before 9 as texts.
   */
  lemma MixedKeysCanCycle()
    ensures RowOrder([Num(9)], [Num(10)], 1, Asc) < 0
    ensures RowOrder([Num(10)], [Str("1x")], 1, Asc) < 0
    ensures RowOrder([Str("1x")], [Num(9)], 1, Asc) < 0
  {
    OneXIsText();
    TextOfTen();
    assert IntToString(9) == "9";
    assert StrCompare("10", "1x") == -1 by {
      assert StrCompare("0", "x") == -1;
      assert "10"[1..] == "0" && "1x"[1..] == "x";
    }
    assert StrCompare("1x", "9") == -1;
  }

  // ---------------------------------------------------------------------
  // The grid after each action
  // ---------------------------------------------------------------------

  /** rename_column: the first header cell that matches `columnOld` becomes `columnNew`. */
  function RenamedColumn(grid: Grid, columnOld: string, columnNew: string): (r: Grid)
    ensures |r| == |grid|
  {
    match FindColumn(Header(grid), columnOld)
    case None => grid
    case Some(c) => grid[0 := SetCell(grid[0], c, Str(columnNew))]
  }

  /**
   * rename_column changes the matching header cell and nothing else; when
   * no header matches, the grid is unchanged.
   */
  lemma RenameColumnTouchesOnlyTheMatch(grid: Grid, columnOld: string, columnNew: string)
    ensures var r := RenamedColumn(grid, columnOld, columnNew);
            forall i :: 1 <= i < |grid| ==> r[i] == grid[i]
    ensures FindColumn(Header(grid), columnOld).None? ==> RenamedColumn(grid, columnOld, columnNew) == grid
    ensures var r := RenamedColumn(grid, columnOld, columnNew);
            var c := FindColumn(Header(grid), columnOld);
            c.Some? ==> CellAt(r[0], c.value) == Str(columnNew) &&
                        forall d :: d != c.value ==> CellAt(r[0], d) == CellAt(grid[0], d)
  {
  }

  /** The grid with every data row replaced by its image under `f`; the header row stays. */
  function MapData(grid: Grid, f: Row -> Row): (r: Grid)
    requires grid != []
    ensures |r| == |grid| && r[0] == grid[0]
    ensures forall i :: 1 <= i < |grid| ==> r[i] == f(grid[i])
  {
    var r := [grid[0]] + seq(|grid| - 1, i requires 0 <= i < |grid| - 1 => f(grid[i + 1]));
    assert forall i :: 1 <= i < |grid| ==> r[i] == r[1..][i - 1];
    r
  }

  /** The new cell of a data row in add_column_sum. */
  function RowSum(row: Row, colA: nat, colB: nat): Cell {
    SumCell(SumOperand(CellAt(row, colA)), SumOperand(CellAt(row, colB)))
  }

  /** What add_column_sum does to one data row: the sum goes into column `k`. */
  function SumInto(k: nat, colA: nat, colB: nat): Row -> Row
    requires k >= 1
  {
    row => SetCell(row, k, RowSum(row, colA, colB))
  }

  /**
   * add_column_sum once both columns are found: the header gets
   * `newColumn` in the column after its last cell, and every data row the
   * sum of its two cells in that column.
   */
  function WithSumColumn(grid: Grid, colA: nat, colB: nat, newColumn: string): (r: Grid)
    requires grid != []
    ensures |r| == |grid|
  {
    var k := |grid[0]| + 1;
    MapData(grid[0 := SetCell(grid[0], k, Str(newColumn))], SumInto(k, colA, colB))
  }

  /** add_column_sum writes one new column and leaves every other cell as it was. */
  lemma SumColumnChangesOnlyNewColumn(grid: Grid, colA: nat, colB: nat, newColumn: string)
    requires grid != []
    ensures var r := WithSumColumn(grid, colA, colB, newColumn);
            var k := |grid[0]| + 1;
            && CellAt(r[0], k) == Str(newColumn)
            && (forall i :: 1 <= i < |grid| ==> CellAt(r[i], k) == RowSum(grid[i], colA, colB))
            && (forall i, d :: 0 <= i < |grid| && d != k ==> CellAt(r[i], d) == CellAt(grid[i], d))
  {
    var k := |grid[0]| + 1;
    var r := WithSumColumn(grid, colA, colB, newColumn);
    forall i | 1 <= i < |grid| ensures r[i] == SetCell(grid[i], k, RowSum(grid[i], colA, colB)) {
      assert grid[0 := SetCell(grid[0], k, Str(newColumn))][i] == grid[i];
    }
  }

  /** delete_column once the column is found: it is removed from every row. */
  function WithoutColumn(grid: Grid, c: nat): (r: Grid)
    requires c >= 1
    ensures |r| == |grid|
  {
    seq(|grid|, i requires 0 <= i < |grid| => RemoveCell(grid[i], c))
  }

  /**
   * delete_column removes column `c` from every row, the header included:
   * cells before it stay, cells after it move one column to the left.
   */
  lemma DeleteColumnShiftsLeft(grid: Grid, c: nat)
    requires c >= 1
    ensures var r := WithoutColumn(grid, c);
            forall i, d :: 0 <= i < |grid| && 1 <= d < c ==> CellAt(r[i], d) == CellAt(grid[i], d)
    ensures var r := WithoutColumn(grid, c);
            forall i, d :: 0 <= i < |grid| && d >= c ==> CellAt(r[i], d) == CellAt(grid[i], d + 1)
  {
  }

  /** The test filter_rows applies to a data row. */
  function KeepRow(c: nat, op: Op, target: int): Row -> bool {
    row => Keeps(CellAt(row, c), op, target)
  }

  /** The rows that pass `keep`, in their order. */
  function KeptRows(rows: seq<Row>, keep: Row -> bool): (r: seq<Row>)
    ensures |r| <= |rows|
  {
    if rows == [] then []
    else (if keep(rows[0]) then [rows[0]] else []) + KeptRows(rows[1..], keep)
  }

  /** A row is kept exactly when it is one of the rows and passes. */
  lemma {:induction false} KeptRowsAreThePassingOnes(rows: seq<Row>, keep: Row -> bool)
    ensures forall row :: row in KeptRows(rows, keep) <==> row in rows && keep(row)
  {
    if rows != [] {
      KeptRowsAreThePassingOnes(rows[1..], keep);
      assert rows == [rows[0]] + rows[1..];
    }
  }

  /** Filtering a concatenation filters each part: kept rows keep their relative order. */
  lemma {:induction false} KeptRowsOfConcat(a: seq<Row>, b: seq<Row>, keep: Row -> bool)
    ensures KeptRows(a + b, keep) == KeptRows(a, keep) + KeptRows(b, keep)
  {
    if a != [] {
      KeptRowsOfConcat(a[1..], b, keep);
      assert (a + b)[1..] == a[1..] + b;
    } else {
      assert a + b == b;
    }
  }

  /**
   * One step of the bottom-up removal of filter_rows: with the rows after
   * position `r` filtered, the row at `r` is spliced out unless it passes.
   */
  lemma KeptRowsStep(rows: seq<Row>, r: nat, keep: Row -> bool)
    requires 1 <= r < |rows|
    ensures var cur := rows[..r + 1] + KeptRows(rows[r + 1..], keep);
            (if keep(rows[r]) then cur else cur[..r] + cur[r + 1..]) == rows[..r] + KeptRows(rows[r..], keep)
  {
    var cur := rows[..r + 1] + KeptRows(rows[r + 1..], keep);
    assert rows[r..][1..] == rows[r + 1..];
    assert rows[..r + 1] == rows[..r] + [rows[r]];
    assert cur[..r] == rows[..r];
    assert cur[r + 1..] == KeptRows(rows[r + 1..], keep);
  }

  /** filter_rows once the column is found: the header row, then the data rows kept. */
  function Filtered(grid: Grid, c: nat, op: Op, target: int): (r: Grid)
    requires grid != []
    ensures r != [] && r[0] == grid[0]
  {
    [grid[0]] + KeptRows(grid[1..], KeepRow(c, op, target))
  }

  /**
   * filter_rows keeps the header row, and a data row stays exactly when it
   * was a data row whose cell in column `c` passes the test.
   */
  lemma FilterKeepsHeaderAndPassingRows(grid: Grid, c: nat, op: Op, target: int)
    requires grid != []
    ensures var r := Filtered(grid, c, op, target);
            && r[0] == grid[0]
            && forall row :: row in r[1..] <==> row in grid[1..] && Keeps(CellAt(row, c), op, target)
  {
    var keep := KeepRow(c, op, target);
    KeptRowsAreThePassingOnes(grid[1..], keep);
    assert Filtered(grid, c, op, target)[1..] == KeptRows(grid[1..], keep);
  }

  /** set_value_where once both columns are found: one data row. */
  function SetWhereRow(row: Row, targetCol: nat, op: Op, condCol: nat, conditionValue: string, value: string): Row
    requires targetCol >= 1
  {
    if Passes(CellAt(row, condCol), op, conditionValue) then SetCell(row, targetCol, Str(value)) else row
  }

  /** What set_value_where does to one data row, as a function value. */
  function WriteWhere(targetCol: nat, op: Op, condCol: nat, conditionValue: string, value: string): Row -> Row
    requires targetCol >= 1
  {
    row => SetWhereRow(row, targetCol, op, condCol, conditionValue, value)
  }

  /** set_value_where once both columns are found: the header as it was, every data row updated. */
  function WithValueWhere(grid: Grid, targetCol: nat, op: Op, condCol: nat, conditionValue: string, value: string): (r: Grid)
    requires grid != [] && targetCol >= 1
    ensures |r| == |grid|
  {
    MapData(grid, WriteWhere(targetCol, op, condCol, conditionValue, value))
  }

  /**
   * set_value_where writes `value` into the target cell of exactly the data
   * rows whose condition cell passes, and changes nothing else.
   */
  lemma SetValueWhereTouchesOnlyPassingRows(grid: Grid, targetCol: nat, op: Op, condCol: nat,
                                            conditionValue: string, value: string)
    requires grid != [] && targetCol >= 1
    ensures var r := WithValueWhere(grid, targetCol, op, condCol, conditionValue, value);
            r[0] == grid[0] &&
            forall i :: 1 <= i < |grid| ==>
              if Passes(CellAt(grid[i], condCol), op, conditionValue) then
                CellAt(r[i], targetCol) == Str(value) &&
                forall d :: d != targetCol ==> CellAt(r[i], d) == CellAt(grid[i], d)
              else r[i] == grid[i]
  {
    var r := WithValueWhere(grid, targetCol, op, condCol, conditionValue, value);
    assert forall i :: 1 <= i < |grid| ==> r[i] == SetWhereRow(grid[i], targetCol, op, condCol, conditionValue, value);
  }

  /**
   * sort_by once the column is found: the header row stays, the data rows
   * are a permutation of those before, and neighbours are in order.
   */
  ghost predicate SortedRows(before: Grid, after: Grid, c: nat, dir: Direction) {
    && before != [] && |after| == |before| && after[0] == before[0]
    && multiset(after[1..]) == multiset(before[1..])
    && InOrder(after[1..], Comparator(c, dir))
  }

  /** What applying `a` to the grid of the sheet it selects does to that grid. */
  ghost predicate Transformed(a: Action, before: Grid, after: Grid) {
    var header := Header(before);
    match a
    case RenameSheet(_, _) => after == before
    case RenameColumn(_, columnOld, columnNew) => after == RenamedColumn(before, columnOld, columnNew)
    case AddColumnSum(_, colA, colB, newColumn) =>
      var ca, cb := FindColumn(header, colA), FindColumn(header, colB);
      if ca.Some? && cb.Some? then after == WithSumColumn(before, ca.value, cb.value, newColumn)
      else after == before
    case DeleteColumn(_, columnName) =>
      var c := FindColumn(header, columnName);
      if c.Some? then after == WithoutColumn(before, c.value) else after == before
    case FilterRows(_, columnName, op, target) =>
      var c := FindColumn(header, columnName);
      if c.Some? then after == Filtered(before, c.value, op, target) else after == before
    case SortBy(_, columnName, dir) =>
      var c := FindColumn(header, columnName);
      if c.Some? then SortedRows(before, after, c.value, dir) else after == before
    case SetValueWhere(_, targetColumn, op, conditionColumn, conditionValue, value) =>
      var ct, cc := FindColumn(header, targetColumn), FindColumn(header, conditionColumn);
      if ct.Some? && cc.Some? then after == WithValueWhere(before, ct.value, op, cc.value, conditionValue, value)
      else after == before
  }

  // ---------------------------------------------------------------------
  // The write-back of sort_by as the route has it
  // ---------------------------------------------------------------------

  /**
   * `for (let r = 2; r <= sheet.rowCount; r++) sheet.spliceRows(r, 1)`:
   * every splice shortens the sheet while `r` still advances, so the rows
   * that move up into position `r` are skipped.
   */
  function SpliceLoopAsWritten(grid: Grid, r: nat): Grid
    requires r >= 2
    decreases |grid| + 1 - r
  {
    if r <= |grid| then SpliceLoopAsWritten(grid[..r - 1] + grid[r..], r + 1) else grid
  }

  /** `row.getCell(c).value = vals[c]` for the columns of `vals`: later cells of `row` stay. */
  function Overwrite(row: Row, vals: Row): Row {
    if |row| > |vals| then vals + row[|vals|..] else vals
  }

  /** The `forEach` write-back: sorted row `i` is written over sheet row `2 + i`, from `i` on. */
  function WriteBackFrom(grid: Grid, sorted: seq<Row>, i: nat): Grid
    decreases |sorted| - i
  {
    if i >= |sorted| then grid
    else
      var g := if 1 + i < |grid| then grid[1 + i := Overwrite(grid[1 + i], sorted[i])]
               else grid + seq(1 + i - |grid|, _ => []) + [sorted[i]];
      WriteBackFrom(g, sorted, i + 1)
  }

  /** Lines 132-137 of the route: the splice loop, then the write-back of the sorted rows. */
  function SortWriteBackAsWritten(grid: Grid, sorted: seq<Row>): Grid {
    WriteBackFrom(SpliceLoopAsWritten(grid, 2), sorted, 0)
  }

  /** Of four data rows the splice loop removes only the first and the third. */
  lemma SpliceLoopSkipsRows(h: Row, a: Row, b: Row, c: Row, d: Row)
    ensures SpliceLoopAsWritten([h, a, b, c, d], 2) == [h, b, d]
  {
    var g1 := [h, a, b, c, d][..1] + [h, a, b, c, d][2..];
    assert g1 == [h, b, c, d];
    assert SpliceLoopAsWritten([h, a, b, c, d], 2) == SpliceLoopAsWritten(g1, 3);
    var g2 := g1[..2] + g1[3..];
    assert g2 == [h, b, d];
    assert SpliceLoopAsWritten(g1, 3) == SpliceLoopAsWritten(g2, 4);
  }

  /**
   * A surviving row that is longer than the sorted row written over it
   * keeps its trailing cells: for the data rows [1] and [2, "x"], already
   * in ascending order, the splice loop removes only [1], and writing [1]
   * over [2, "x"] leaves "x" behind.
   */
  lemma SortWriteBackKeepsStaleCells()
    ensures var grid := [[Str("A"), Str("B")], [Num(1)], [Num(2), Str("x")]];
            var sorted := grid[1..];
            && SortWriteBackAsWritten(grid, sorted) == [[Str("A"), Str("B")], [Num(1), Str("x")], [Num(2), Str("x")]]
            && SortWriteBackAsWritten(grid, sorted) != grid
            && SortWriteBackAsWritten(grid, sorted)[1] !in grid
  {
    var grid := [[Str("A"), Str("B")], [Num(1)], [Num(2), Str("x")]];
    var sorted := grid[1..];
    var spliced := [[Str("A"), Str("B")], [Num(2), Str("x")]];
    assert grid[..1] + grid[2..] == spliced;
    assert SpliceLoopAsWritten(grid, 2) == spliced;
    var once := [[Str("A"), Str("B")], [Num(1), Str("x")]];
    assert Overwrite([Num(2), Str("x")], [Num(1)]) == [Num(1), Str("x")];
    assert spliced[1 := Overwrite(spliced[1], sorted[0])] == once;
    assert WriteBackFrom(spliced, sorted, 0) == WriteBackFrom(once, sorted, 1);
    assert once + [] + [[Num(2), Str("x")]] == [[Str("A"), Str("B")], [Num(1), Str("x")], [Num(2), Str("x")]];
    assert WriteBackFrom(once, sorted, 1) == WriteBackFrom(once + [] + [[Num(2), Str("x")]], sorted, 2);
  }
}
