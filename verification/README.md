# Spreadsheet instruction interpreter and transform route, in Dafny

The application edits an uploaded Excel workbook by following one free-text
instruction, written in English or romanised Hindi ("Price column ka naam
Cost rakho", "keep rows where Quantity > 10"). It has two pieces, and this
project models both:

- **The instruction interpreter** (`parseInstruction`, `extractSheetMention`
  and `capitalize` in `src/agent/parseInstruction.ts`). The text is
  whitespace-collapsed, trimmed and lower-cased. Seven intent patterns are
  tried in a fixed order, and the first that matches yields the only action.
  Captured names are title-cased. The sheet an action names is the first
  workbook sheet whose name occurs in the text.
- **The action executor** (`applyAction`, `getSheet`,
  `findColumnIndexByHeader`, `normalize` and `compare` in
  `app/api/transform/route.ts`). It changes the workbook in place. The
  operations are:
  - rename a sheet or a header cell;
  - append a column of sums;
  - delete a column;
  - filter data rows;
  - sort data rows;
  - overwrite cells where a condition holds.

  Header cells are matched by normalised text. A sheet name that is missing
  or unknown falls back to the first sheet.

Modules:

- `Wrappers`: `Option`.
- `JsText`: the JavaScript string primitives the code relies on. These are
  `\s`, `trim`, `replace(/\s+/g, ' ')`, `toLowerCase`/`toUpperCase`,
  `includes`, `Number` on integer text and `String` of an integer, plus a
  code-point order standing in for `localeCompare`. Each comes with the
  facts the other modules need.
- `Instruction`: the interpreter as pure functions. The seven regular
  expressions are parameters: a `Patterns` record gives, for each intent,
  what its pattern captures from the canonical text.
- `Sheets`: the pure part of the route:
  - cells and grids;
  - `normalize`, header and sheet lookup, `compare`;
  - how each action reads a cell;
  - the sort comparator;
  - one specification function per grid-changing action;
  - `Transformed`, which says what an action does to the grid of the sheet
    it selects.
- `Transform`: the imperative part. A `Worksheet` class holds a name and
  rows. Its `Apply` method renames the sheet for rename_sheet and calls one
  method for each other action. Where the code loops (the header scan, the
  pass over data rows, the keep-and-splice of filter_rows), the method is a
  loop with invariants. Every method is proved against the specification
  function in `Sheets`. The sort copies the data
  rows into an array and insertion-sorts it in place. A `Workbook` class
  holds the sheets, and `ApplyAction` dispatches to the selected sheet.

Behaviours of the code worth noting:

- add_column_sum writes NaN, not 0, when a cell holds text that is not a
  number. Empty cells, and text that is empty or blank, count as 0
  (`Sheets.SumOfCells`, `Sheets.BlankTextAddsAsZero`).
- filter_rows keeps a data row whose cell is not a number when the
  operator is `!=`. The comparison falls back to text, and "NaN" never
  equals the text of the target (`Sheets.UnparsedCellsSurviveOnlyUnderNe`).
- set_value_where goes through `compare`. So a condition cell and a
  condition value that both read as numbers are compared as numbers, and
  "01" matches "1" (`Sheets.NumericTextsMatch`). Exact string equality
  applies only when one side is not a number.
- The sort comparator is not a consistent order on a column that mixes
  numbers and text (`Sheets.MixedKeysCanCycle`).

## Model

| member | source | states |
|---|---|---|
| Instruction.IndexOfSpace | src/agent/parseInstruction.ts:119 | the position found is that of the first plain space, or the length when there is none |
| Instruction.SplitOnSpace | src/agent/parseInstruction.ts:119 | `split(' ')` yields at least one piece and no piece contains a space |
| Instruction.JoinSplit | src/agent/parseInstruction.ts:119-121 | joining the pieces of `split(' ')` with spaces gives the text back |
| Instruction.CapitalizeIsTitleCase | src/agent/parseInstruction.ts:117-123 | `capitalize` upper-cases the first character and each character after a space, keeps every other character, then trims |
| Instruction.TitleCaseIsTitled | src/agent/parseInstruction.ts:117-123 | title case leaves no word start in lower case and adds no white space |
| Instruction.CanonicalNameIsFixedPoint | src/agent/parseInstruction.ts:117-123 | `capitalize` returns a trimmed, title-cased name unchanged |
| Instruction.CapitalizeIsCanonical | src/agent/parseInstruction.ts:117-123 | on text whose only white space is the plain space, `capitalize` yields a trimmed, title-cased name |
| Instruction.CapitalizeIdempotent | src/agent/parseInstruction.ts:117-123 | `capitalize` is idempotent on such text |
| Instruction.FirstMentioned | src/agent/parseInstruction.ts:17-21 | the scan stops at the first non-empty name whose lower-case form occurs in the lower-cased text; no earlier name does |
| Instruction.ExtractSheetMention | src/agent/parseInstruction.ts:14-23 | the result is absent exactly when no sheet name is mentioned; a result is a sheet name and is mentioned |
| Instruction.RenameSheetRule | src/agent/parseInstruction.ts:31-39 | the first rule yields only rename_sheet actions |
| Instruction.RenameColumnRule | src/agent/parseInstruction.ts:42-50 | the second rule yields only rename_column actions |
| Instruction.AddColumnSumRule | src/agent/parseInstruction.ts:53-62 | the third rule yields only add_column_sum actions |
| Instruction.DeleteColumnRule | src/agent/parseInstruction.ts:65-74 | the fourth rule yields only delete_column actions, never with an empty name |
| Instruction.FilterRowsRule | src/agent/parseInstruction.ts:77-86 | the fifth rule yields only filter_rows actions |
| Instruction.SortByRule | src/agent/parseInstruction.ts:89-97 | the sixth rule yields only sort_by actions |
| Instruction.SetValueWhereRule | src/agent/parseInstruction.ts:100-111 | the seventh rule yields only set_value_where actions |
| Instruction.FirstAction | src/agent/parseInstruction.ts:31-114 | the rule chosen is the first whose outcome holds an action; every earlier outcome is empty |
| Instruction.ParseText | src/agent/parseInstruction.ts:28-114 | at most one action results |
| Instruction.ParseInstruction | src/agent/parseInstruction.ts:25-115 | `parseInstruction` returns at most one action |
| Instruction.InstructionTextIsCanonical | src/agent/parseInstruction.ts:26-27 | the text the patterns see has no upper-case letter, only single plain spaces, and none at either end |
| Instruction.LowerKeepsShape | src/agent/parseInstruction.ts:27 | lower-casing keeps text single-spaced and trimmed |
| Instruction.ParseRespectsPriority | src/agent/parseInstruction.ts:31-114 | the result is empty exactly when no rule yields an action; otherwise it is the action of the first rule that yields one |
| Instruction.OutcomeKinds | src/agent/parseInstruction.ts:31-111 | the rule at position i yields only actions of the i-th kind, in the order rename_sheet, rename_column, add_column_sum, delete_column, filter_rows, sort_by, set_value_where |
| Instruction.ParsedActionComesFromItsRule | src/agent/parseInstruction.ts:31-111 | a parsed action comes from the rule of its kind, and every rule tried before it yields nothing |
| Instruction.FilterNeedsKeepWord | src/agent/parseInstruction.ts:77-86 | no filter action without "sirf", "keep" or "rakh"; without them, and with the first four rules silent, sort_by and then set_value_where decide |
| Instruction.SortDefaultsToAscending | src/agent/parseInstruction.ts:89-97 | a sort action carries the title-cased captured column; its direction is descending only when "desc" was captured, else ascending |
| Instruction.AddColumnSumTakesItsCaptures | src/agent/parseInstruction.ts:53-62 | a parsed add_column_sum takes colA and colB from the second and third groups and newColumn from the first, each title-cased, and the first mentioned sheet |
| Instruction.SetValueWhereTakesItsCaptures | src/agent/parseInstruction.ts:100-111 | a parsed set_value_where takes the target and condition columns title-cased from their own groups, the operator as captured, and the condition value and new value verbatim from their own groups |
| Instruction.RenamesTakeTheirCaptures | src/agent/parseInstruction.ts:31-50 | a parsed rename takes the old name from the first group and the new name from the second, title-cased; rename_column also takes the first mentioned sheet |
| Instruction.FilterRowsTakesItsCaptures | src/agent/parseInstruction.ts:77-86 | a parsed filter_rows takes the title-cased column, the operator and the number from the where-clause, and the first mentioned sheet |
| Instruction.DeleteNeedsName | src/agent/parseInstruction.ts:68-72 | a parsed delete_column action never has an empty column name |
| Instruction.CapturedNameIsCanonical | src/agent/parseInstruction.ts:34-35 | a piece of the canonical text title-cases to a canonical name |
| Instruction.RenameSheetRuleIsWellFormed | src/agent/parseInstruction.ts:31-39 | both sheet names of rename_sheet are canonical names |
| Instruction.RenameColumnRuleIsWellFormed | src/agent/parseInstruction.ts:42-50 | both column names are canonical and any sheet it names is in the workbook |
| Instruction.AddColumnSumRuleIsWellFormed | src/agent/parseInstruction.ts:53-62 | the three column names are canonical and any sheet it names is in the workbook |
| Instruction.DeleteColumnRuleIsWellFormed | src/agent/parseInstruction.ts:65-74 | the column name is canonical and not empty, and any sheet it names is in the workbook |
| Instruction.FilterRowsRuleIsWellFormed | src/agent/parseInstruction.ts:77-86 | the column name is canonical, the value is not negative, and any sheet it names is in the workbook |
| Instruction.SortByRuleIsWellFormed | src/agent/parseInstruction.ts:89-97 | the column name is canonical and any sheet it names is in the workbook |
| Instruction.SetValueWhereRuleIsWellFormed | src/agent/parseInstruction.ts:100-111 | column names are canonical, the operator is `==` or `!=`, the condition value and the new value are their own captures, copied without title-casing, so they hold no upper-case letter |
| Instruction.OutcomesAreWellFormed | src/agent/parseInstruction.ts:31-111 | every rule builds well-formed actions from captures taken out of the canonical text |
| Instruction.ParsedActionIsWellFormed | src/agent/parseInstruction.ts:25-115 | every action `parseInstruction` returns is well formed |
| JsText.CollapseSpaces | src/agent/parseInstruction.ts:26 | `replace(/\s+/g, ' ')` leaves only single plain spaces and keeps a leading non-white-space character |
| JsText.TrimStartOfConcat | src/agent/parseInstruction.ts:26 | leading white space of a concatenation is stripped into the second part only when the first part is all white space |
| JsText.CollapseOfRun | src/agent/parseInstruction.ts:26 | a non-empty run of white space of any kind becomes exactly one plain space |
| JsText.CollapseKeepsOthers | src/agent/parseInstruction.ts:26 | a character that is not white space is kept unchanged |
| JsText.CollapseOfConcat | src/agent/parseInstruction.ts:26 | text cut anywhere but inside a white-space run collapses piece by piece; with the two rows above this fixes the result of every input |
| JsText.TrimIsSlice | app/api/transform/route.ts:176 | `trim()` removes white space at both ends only; the result is a slice of its input |
| JsText.NumberOfIntToString | app/api/transform/route.ts:181-182 | `Number(String(n))` is `n` for every integer |
| JsText.StrCompareAntisymmetric | app/api/transform/route.ts:129 | the text order negates when its operands swap, and is zero exactly on equal texts |
| JsText.StrCompareTransitive | app/api/transform/route.ts:129 | the text order is transitive |
| Sheets.SetCell | app/api/transform/route.ts:75 | writing a cell sets that cell and no other; the row grows when the column is past its end |
| Sheets.RemoveCell | app/api/transform/route.ts:89 | removing a column keeps earlier cells and moves later ones one column left |
| Sheets.NormalizeIsNormal | app/api/transform/route.ts:175-177 | `normalize` yields lower-case, single-spaced, trimmed text |
| Sheets.NormalizeOfNormal | app/api/transform/route.ts:175-177 | `normalize` leaves normal text unchanged |
| Sheets.NormalizeIdempotent | app/api/transform/route.ts:175-177 | `normalize` is idempotent |
| Sheets.FindColumn | app/api/transform/route.ts:166-173 | a column found is between 1 and the header length |
| Sheets.FirstKey | app/api/transform/route.ts:168-171 | the scan returns the first matching column at or after its start; none when there is no match |
| Sheets.FindColumnFindsFirstMatch | app/api/transform/route.ts:166-173 | the column found is the smallest whose normalised, trimmed header text equals `normalize(name)`; there is none exactly when no header matches |
| Sheets.FindColumnIgnoresCaseAndSpacing | app/api/transform/route.ts:166-177 | looking up a normalised name finds the same column as the name itself |
| Sheets.FindSheet | app/api/transform/route.ts:49 | `getWorksheet(name)` finds the first sheet with that exact name, and none exactly when no sheet has it |
| Sheets.LookupOrFirst | app/api/transform/route.ts:49 | the named sheet when it exists, else the first sheet; none only for an empty workbook |
| Sheets.SheetIndex | app/api/transform/route.ts:161-164 | `getSheet`: a present, non-empty, known name selects its sheet; otherwise the first sheet |
| Sheets.TargetSheet | app/api/transform/route.ts:49-54 | rename_sheet looks up `sheetOld`, every other action goes through `getSheet` |
| Sheets.CompareNeIsNotEq | app/api/transform/route.ts:179-201 | `!=` holds exactly when `==` does not |
| Sheets.CompareConverse | app/api/transform/route.ts:184-192 | `>` and `<`, and `>=` and `<=`, are each other's converse |
| Sheets.CompareReflexive | app/api/transform/route.ts:179-201 | every value passes `==`, `>=` and `<=` against itself |
| Sheets.CompareOnTextIsEquality | app/api/transform/route.ts:193-199 | when a side is not a number, every operator but `!=` means text equality |
| Sheets.CompareEqualsNumerically | app/api/transform/route.ts:180-192 | two texts that read as the same number pass `==` |
| Sheets.EmptyCellFiltersAsNaN | app/api/transform/route.ts:100-102 | an empty cell reads as the text "null", which is NaN |
| Sheets.UnparsedCellsSurviveOnlyUnderNe | app/api/transform/route.ts:100-103 | a cell that is not a number is kept exactly when the operator is `!=` |
| Sheets.NumericCellsCompareNumerically | app/api/transform/route.ts:100-103 | a cell that reads as a number is kept exactly when the numeric comparison holds |
| Sheets.FilterIgnoresCommas | app/api/transform/route.ts:102 | thousands separators do not change how a text cell filters |
| Sheets.SumCell | app/api/transform/route.ts:80 | a sum is a number or NaN |
| Sheets.SumOfCells | app/api/transform/route.ts:78-80 | the sum is a number exactly when both summands read as numbers; an empty cell adds as 0; the order of summands does not matter |
| Sheets.BlankTextAddsAsZero | app/api/transform/route.ts:78-79 | text that is empty or only white space adds as 0, as an empty cell does |
| Sheets.NumberCellEqualsItsText | app/api/transform/route.ts:147-148 | a number cell matches its own text under `==` and not under `!=` |
| Sheets.TextCellEqualsItself | app/api/transform/route.ts:147-148 | a text cell matches its own text under `==` and not under `!=` |
| Sheets.NumericTextsMatch | app/api/transform/route.ts:147-148 | "01" matches the condition "1" under `==` |
| Sheets.PassesNeIsNotEq | app/api/transform/route.ts:147-148 | `!=` selects exactly the rows `==` does not |
| Sheets.RowOrderAntisymmetric | app/api/transform/route.ts:121-130 | swapping two rows negates the comparator |
| Sheets.DescendingReversesAscending | app/api/transform/route.ts:126-129 | `desc` is `asc` with the rows swapped |
| Sheets.ComparatorIsAntisymmetric | app/api/transform/route.ts:121-130 | the comparator handed to `sort` is antisymmetric |
| Sheets.RowOrderOnText | app/api/transform/route.ts:127-129 | when a key is not a number, rows are ordered by the texts of their keys |
| Sheets.NumericColumnSortsFully | app/api/transform/route.ts:121-126 | on a column of numbers, sorted rows are in numeric order, ascending or descending, between any two positions |
| Sheets.TextColumnSortsFully | app/api/transform/route.ts:127-129 | on a column of texts, sorted rows are in text order between any two positions |
| Sheets.MixedKeysCanCycle | app/api/transform/route.ts:121-130 | on a mixed column the comparator has a cycle: 9 before 10, 10 before "1x", "1x" before 9 |
| Sheets.RenamedColumn | app/api/transform/route.ts:53-66 | rename_column keeps the number of rows |
| Sheets.RenameColumnTouchesOnlyTheMatch | app/api/transform/route.ts:57-64 | only the first matching header cell becomes `columnNew`; with no match the grid is unchanged |
| Sheets.MapData | app/api/transform/route.ts:77-82 | the loop over rows 2 to `rowCount` keeps the header and replaces each data row by its image |
| Sheets.WithSumColumn | app/api/transform/route.ts:74-82 | add_column_sum keeps the number of rows |
| Sheets.SumColumnChangesOnlyNewColumn | app/api/transform/route.ts:74-81 | the header gets `newColumn` at `cellCount + 1`, each data row its sum there, and no other cell changes |
| Sheets.WithoutColumn | app/api/transform/route.ts:88-89 | delete_column keeps the number of rows |
| Sheets.DeleteColumnShiftsLeft | app/api/transform/route.ts:88-89 | the column is removed from every row, the header included; later columns move one to the left |
| Sheets.KeptRows | app/api/transform/route.ts:99-109 | filtering never adds rows |
| Sheets.KeptRowsAreThePassingOnes | app/api/transform/route.ts:99-109 | a row is kept exactly when it was there and passes |
| Sheets.KeptRowsOfConcat | app/api/transform/route.ts:107-109 | filtering distributes over concatenation, so kept rows keep their relative order |
| Sheets.KeptRowsStep | app/api/transform/route.ts:107-109 | one bottom-up splice step extends the filtered suffix by one row |
| Sheets.Filtered | app/api/transform/route.ts:92-111 | row 1 is always kept |
| Sheets.FilterKeepsHeaderAndPassingRows | app/api/transform/route.ts:99-109 | the header stays; a data row stays exactly when it was a data row whose cell passes `compare` |
| Sheets.WithValueWhere | app/api/transform/route.ts:146-153 | set_value_where keeps the number of rows |
| Sheets.SetValueWhereTouchesOnlyPassingRows | app/api/transform/route.ts:146-153 | the header stays; a passing row gets `value` in the target column and nothing else changes; other rows stay |
| Sheets.SpliceLoopSkipsRows | app/api/transform/route.ts:132 | of four data rows the splice loop removes only the first and the third |
| Sheets.SortWriteBackKeepsStaleCells | app/api/transform/route.ts:132-137 | the write-back as written leaves stale cells behind and produces a row that was never in the sheet |
| Transform.ScanHeader | app/api/transform/route.ts:57-64 | the header loop stops at the first column whose key matches |
| Transform.SwapStep | app/api/transform/route.ts:121 | swapping an out-of-order pair keeps the rows a permutation and moves the one unordered pair left |
| Transform.InsertAt | app/api/transform/route.ts:121 | one insertion pass keeps a permutation and extends the ordered prefix by one row |
| Transform.SortArray | app/api/transform/route.ts:121-130 | sorting yields a permutation with every pair of neighbours in comparator order |
| Transform.RowsToKeep | app/api/transform/route.ts:98-105 | `keepRows` holds row 1 and exactly the data rows that pass |
| Transform.Worksheet.RenameColumn | app/api/transform/route.ts:53-66 | the sheet's rows become `RenamedColumn` of the old rows; the name stays |
| Transform.Worksheet.MapDataRows | app/api/transform/route.ts:77-82 | the rows become `MapData` of the old rows |
| Transform.Worksheet.AddColumnSum | app/api/transform/route.ts:67-84 | the rows become `WithSumColumn` when both columns are found, else stay |
| Transform.Worksheet.DeleteColumn | app/api/transform/route.ts:85-91 | the rows become `WithoutColumn` when the column is found, else stay |
| Transform.Worksheet.KeepOnly | app/api/transform/route.ts:98-109 | the rows become the header followed by the data rows that pass, in order |
| Transform.Worksheet.FilterRows | app/api/transform/route.ts:92-111 | the rows become `Filtered` when the column is found, else stay |
| Transform.Worksheet.SortData | app/api/transform/route.ts:117-137 | the header stays; the data rows become a permutation of themselves in comparator order |
| Transform.Worksheet.SortBy | app/api/transform/route.ts:112-139 | the rows are sorted on the column found; with no column they stay |
| Transform.Worksheet.SetValueWhere | app/api/transform/route.ts:140-155 | the rows become `WithValueWhere` when both columns are found, else stay |
| Transform.Worksheet.Apply | app/api/transform/route.ts:47-158 | rename_sheet renames the sheet and keeps its rows; every other action changes the rows as `Transformed` says |
| Transform.NamesOf | src/agent/parseInstruction.ts:17-18 | the names of the sheets, in workbook order |
| Transform.Workbook.constructor | app/api/transform/route.ts:22-23 | a workbook over distinct sheet objects holds them in order and satisfies the distinctness invariant |
| Transform.Workbook.ApplyAction | app/api/transform/route.ts:46-159 | the selected sheet changes as the action says; every other sheet keeps its name and rows; an empty workbook is unchanged |

## Left out

- The regular expressions of the seven intents are not modelled. `Patterns`
  stands for them, and `CapturesFromText` states what any match
  guarantees: captured groups are pieces of the text matched. Facts that
  depend on the expressions themselves are outside the model. For example,
  the greedy column group of the sort pattern also takes a trailing " desc".
- Instruction.ParsedActionIsWellFormed: holds under `CapturesFromText`, an
  assumption about the regular expressions, not something proved of them.
- `Number()` is modelled on integer text only. Decimals, exponents, hex,
  `Infinity` and the decimal literals of filter_rows (`10.5`) are left out.
  The filter value is a natural number.
- JavaScript numbers are doubles: integers above 2^53 lose exactness, and
  `String(n)` switches to exponent form for large magnitudes. The model's
  `int` stays exact and `IntToString` always writes plain digits.
- `localeCompare` is replaced by code-point order (`StrCompare`). Locale
  collation is outside the model.
- `Array.prototype.sort` is modelled by an insertion sort. The model proves
  what any correct sort must give: a permutation with neighbours in order.
  The engine's own algorithm and its stability are outside the model. With
  the inconsistent comparator of a mixed column, the order is left to the
  engine.
- Case mapping covers ASCII letters only. `\s` and `trim` use the
  JavaScript white-space set of `JsText.IsSpace`.
- ExcelJS is not modelled. A sheet is a name and a list of rows of
  `Empty | Num | NaN | Str` cells, and:
  - `cellCount` is the length of the header row;
  - `rowCount` is the number of rows;
  - `getWorksheet(name)` is exact name lookup;
  - rich text, formulas, dates and booleans as cell values are left out;
  - the sheet-name checks that ExcelJS makes on assignment are left out;
  - `commit?.()` is left out.
- Transform.Worksheet.SortBy: replaces the data rows with the sorted rows,
  which is what the write-back intends. The splice loop of
  app/api/transform/route.ts:132 is modelled separately, as written.
- Sheets.SortWriteBackAsWritten: takes a row's `values` to be all its
  cells. ExcelJS also leaves trailing empty cells out of `values`.
- `POST`, form parsing, `xlsx.load`/`writeBuffer`, HTTP responses and
  `async` are left out, as are `app/page.tsx` and `app/layout.tsx`.
- `norm` (src/agent/parseInstruction.ts:12) is never called and is not
  modelled.

## Findings

| source | as written | input that shows it | evidently intended | confidence | as-written member | corrected member |
|---|---|---|---|---|---|---|
| app/api/transform/route.ts:132-137 | The loop `for (r = 2; r <= rowCount; r++) spliceRows(r, 1)` advances `r` while `rowCount` shrinks, so it removes only every other data row. The sorted rows are then written cell by cell over the survivors, and cells past a sorted row's length keep the survivor's values. | A header and the data rows [1] and [2, "x"], sorted ascending on column 1. The loop removes only [1]. Writing [1] over [2, "x"] gives [1, "x"], so the sheet ends with [1, "x"] and [2, "x"]. | The data rows are replaced by the sorted rows: a permutation, in order, header untouched. | high; not executed | Sheets.SortWriteBackKeepsStaleCells | Transform.Worksheet.SortData |
