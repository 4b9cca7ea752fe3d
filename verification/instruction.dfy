/**
 * The instruction interpreter: free text (romanised Hindi and English)
 * becomes at most one `Action`, chosen by seven intent patterns tried in a
 * fixed order. The regular expressions themselves are not modelled: the
 * interpreter is parameterised by a `Patterns` record that gives, for each
 * intent, what its pattern captures from the canonical text (or nothing).
 * Everything around the patterns is modelled: the canonical text, the
 * priority order, the keep-word guard of filter_rows, the 'asc' default of
 * sort_by, title-casing of captured names and the sheet-name scan.
 */
module Instruction {
  import opened Wrappers
  import opened JsText

  // ---------------------------------------------------------------------
  // Actions
  // ---------------------------------------------------------------------

  /** The comparison operators `'>' | '>=' | '<' | '<=' | '==' | '!='`. */
  datatype Op = Gt | Ge | Lt | Le | Eq | Ne

  datatype Direction = Asc | Desc

  /**
   * The seven edit operations. `sheetName == None` stands for an absent
   * sheet name. The string assigned by set_value_where is called
   * `newValue` here, since `value` is the number of filter_rows.
   */
  datatype Action =
    | RenameSheet(sheetOld: string, sheetNew: string)
    | RenameColumn(sheetName: Option<string>, columnOld: string, columnNew: string)
    | AddColumnSum(sheetName: Option<string>, colA: string, colB: string, newColumn: string)
    | DeleteColumn(sheetName: Option<string>, columnName: string)
    | FilterRows(sheetName: Option<string>, columnName: string, op: Op, value: int)
    | SortBy(sheetName: Option<string>, columnName: string, direction: Direction)
    | SetValueWhere(sheetName: Option<string>, targetColumn: string, op: Op,
                    conditionColumn: string, conditionValue: string, newValue: string)

  // ---------------------------------------------------------------------
  // capitalize: split(' '), upper-case each word's first letter, join(' '), trim()
  // ---------------------------------------------------------------------

  /** The position of the first plain space in `s`, or `|s|`. */
  function IndexOfSpace(s: string): (k: nat)
    ensures k <= |s| && (k < |s| ==> s[k] == ' ')
    ensures forall j :: 0 <= j < k ==> s[j] != ' '
  {
    if s == [] || s[0] == ' ' then 0 else 1 + IndexOfSpace(s[1..])
  }

  /** `s.split(' ')`: the pieces between plain spaces, empty ones included. */
  function SplitOnSpace(s: string): (words: seq<string>)
    ensures |words| >= 1
    ensures forall i :: 0 <= i < |words| ==> ' ' !in words[i]
    decreases |s|
  {
    var k := IndexOfSpace(s);
    if k == |s| then [s] else [s[..k]] + SplitOnSpace(s[k + 1..])
  }

  /** `words.join(' ')`. */
  function JoinWithSpace(words: seq<string>): string {
    if |words| == 0 then ""
    else if |words| == 1 then words[0]
    else words[0] + " " + JoinWithSpace(words[1..])
  }

  /** Splitting at the first space: the word before it, then the pieces of the rest. */
  lemma SplitAtFirstSpace(s: string)
    requires IndexOfSpace(s) < |s|
    ensures SplitOnSpace(s) == [s[..IndexOfSpace(s)]] + SplitOnSpace(s[IndexOfSpace(s) + 1..])
    ensures s == s[..IndexOfSpace(s)] + " " + s[IndexOfSpace(s) + 1..]
  {
    SplitAround(s, IndexOfSpace(s));
  }

  lemma SplitAround(s: string, k: nat)
    requires k < |s| && s[k] == ' '
    ensures s == s[..k] + " " + s[k + 1..]
  {
    assert s[k..] == [s[k]] + s[k + 1..];
    assert s == s[..k] + s[k..];
  }

  lemma JoinCons(w: string, words: seq<string>)
    requires |words| >= 1
    ensures JoinWithSpace([w] + words) == w + " " + JoinWithSpace(words)
  {
    assert ([w] + words)[1..] == words;
  }

  /** Splitting on spaces and joining with spaces gives the text back. */
  lemma {:induction false} JoinSplit(s: string)
    ensures JoinWithSpace(SplitOnSpace(s)) == s
    decreases |s|
  {
    var k := IndexOfSpace(s);
    if k < |s| {
      SplitAtFirstSpace(s);
      JoinSplit(s[k + 1..]);
      JoinCons(s[..k], SplitOnSpace(s[k + 1..]));
    }
  }

  /** `w.length ? w[0].toUpperCase() + w.slice(1) : w`. */
  function CapitalizeWord(w: string): string {
    if |w| > 0 then [ToUpper(w[0])] + w[1..] else w
  }

  function CapitalizeWords(words: seq<string>): (r: seq<string>)
    ensures |r| == |words|
  {
    seq(|words|, i requires 0 <= i < |words| => CapitalizeWord(words[i]))
  }

  /** `capitalize(s)`: title-case every space-separated word, then trim. */
  function Capitalize(s: string): string {
    Trim(JoinWithSpace(CapitalizeWords(SplitOnSpace(s))))
  }

  /**
   * The reference definition of title case, character by character: a
   * character is upper-cased exactly when it starts the text or follows a
   * plain space; every other character is kept.
   */
  function TitleCase(s: string): (r: string)
    ensures |r| == |s|
  {
    seq(|s|, i requires 0 <= i < |s| => if i == 0 || s[i - 1] == ' ' then ToUpper(s[i]) else s[i])
  }

  lemma TitleCaseOfWord(w: string)
    requires ' ' !in w
    ensures TitleCase(w) == CapitalizeWord(w)
  {
    if |w| > 0 {
      forall i | 1 <= i < |w| ensures TitleCase(w)[i] == w[i] {
        assert w[i - 1] in w;
      }
    }
  }

  lemma TitleCaseConcat(w: string, rest: string)
    ensures TitleCase(w + " " + rest) == TitleCase(w) + " " + TitleCase(rest)
  {
    var s := w + " " + rest;
    var left, right := TitleCase(s), TitleCase(w) + " " + TitleCase(rest);
    forall i | 0 <= i < |s| ensures left[i] == right[i] {
      if i < |w| {
        assert s[i] == w[i];
        if i > 0 { assert s[i - 1] == w[i - 1]; }
      } else if i > |w| {
        var j := i - |w| - 1;
        assert s[i] == rest[j] && right[i] == TitleCase(rest)[j];
        if j > 0 { assert s[i - 1] == rest[j - 1]; }
      }
    }
    assert left == right;
  }

  lemma CapitalizeWordsCons(w: string, words: seq<string>)
    ensures CapitalizeWords([w] + words) == [CapitalizeWord(w)] + CapitalizeWords(words)
  {
  }

  lemma {:induction false} JoinCapitalizedIsTitleCase(s: string)
    ensures JoinWithSpace(CapitalizeWords(SplitOnSpace(s))) == TitleCase(s)
    decreases |s|
  {
    var k := IndexOfSpace(s);
    if k == |s| {
      TitleCaseOfWord(s);
    } else {
      var w, rest := s[..k], s[k + 1..];
      var tail := SplitOnSpace(rest);
      SplitAtFirstSpace(s);
      CapitalizeWordsCons(w, tail);
      JoinCons(CapitalizeWord(w), CapitalizeWords(tail));
      JoinCapitalizedIsTitleCase(rest);
      TitleCaseOfWord(w);
      TitleCaseConcat(w, rest);
    }
  }

  /** `capitalize` is title case followed by trim. */
  lemma CapitalizeIsTitleCase(s: string)
    ensures Capitalize(s) == Trim(TitleCase(s))
  {
    JoinCapitalizedIsTitleCase(s);
  }

  /** Text that title case leaves unchanged: the first character and every character after a space are upper case. */
  ghost predicate IsTitleCased(t: string) {
    && (|t| > 0 ==> ToUpper(t[0]) == t[0])
    && forall i :: 0 <= i < |t| - 1 && t[i] == ' ' ==> ToUpper(t[i + 1]) == t[i + 1]
  }

  lemma TitleCaseKeepsTitled(t: string)
    requires IsTitleCased(t)
    ensures TitleCase(t) == t
  {
    forall j | 0 < j < |t| ensures TitleCase(t)[j] == t[j] {
      if t[j - 1] == ' ' {
        assert ToUpper(t[j - 1 + 1]) == t[j - 1 + 1];
      }
    }
  }

  /** Title case leaves no title-case work undone, and adds no white space. */
  lemma TitleCaseIsTitled(s: string)
    ensures IsTitleCased(TitleCase(s))
    ensures SpacesOnly(s) ==> SpacesOnly(TitleCase(s))
  {
    var x := TitleCase(s);
    if |s| > 0 {
      ToUpperIdempotent(s[0]);
    }
    forall i | 0 <= i < |x| - 1 && x[i] == ' ' ensures ToUpper(x[i + 1]) == x[i + 1] {
      assert s[i] == ' ';
      ToUpperIdempotent(s[i + 1]);
    }
    if SpacesOnly(s) {
      forall i | 0 <= i < |x| && IsSpace(x[i]) ensures x[i] == ' ' {
        assert IsSpace(s[i]);
      }
    }
  }

  /** Removing plain spaces at the ends keeps every word start upper-cased. */
  lemma TrimKeepsTitled(x: string)
    requires SpacesOnly(x) && IsTitleCased(x)
    ensures IsTitleCased(Trim(x))
  {
    var c := Trim(x);
    var lead := TrimIsSlice(x);
    assert forall i :: 0 <= i < |c| ==> c[i] == x[lead + i];
    if |c| > 0 && lead > 0 {
      assert IsSpace(x[lead - 1]);
      assert x[lead - 1] == ' ';
      assert ToUpper(x[lead - 1 + 1]) == x[lead - 1 + 1];
    }
    forall i | 0 <= i < |c| - 1 && c[i] == ' ' ensures ToUpper(c[i + 1]) == c[i + 1] {
      assert x[lead + i] == ' ';
      assert ToUpper(x[lead + i + 1]) == x[lead + i + 1];
    }
  }

  /** What `capitalize` returns: trimmed, title-cased text. */
  ghost predicate IsCanonicalName(s: string) {
    Trimmed(s) && IsTitleCased(s)
  }

  /** `capitalize` leaves canonical names alone. */
  lemma CanonicalNameIsFixedPoint(s: string)
    requires IsCanonicalName(s)
    ensures Capitalize(s) == s
  {
    TitleCaseKeepsTitled(s);
    CapitalizeIsTitleCase(s);
    TrimKeepsTrimmed(s);
  }

  /** On text whose only white space is the plain space, `capitalize` returns a canonical name. */
  lemma CapitalizeIsCanonical(s: string)
    requires SpacesOnly(s)
    ensures IsCanonicalName(Capitalize(s))
  {
    CapitalizeIsTitleCase(s);
    TitleCaseIsTitled(s);
    TrimKeepsTitled(TitleCase(s));
  }

  /**
   * `capitalize` is idempotent on text whose only white space is the plain
   * space (all text it receives from the interpreter is such text).
   */
  lemma CapitalizeIdempotent(s: string)
    requires SpacesOnly(s)
    ensures Capitalize(Capitalize(s)) == Capitalize(s)
  {
    CapitalizeIsCanonical(s);
    CanonicalNameIsFixedPoint(Capitalize(s));
  }

  // ---------------------------------------------------------------------
  // extractSheetMention
  // ---------------------------------------------------------------------

  /** A non-empty sheet name whose lower-case form occurs in the lower-cased text. */
  predicate Mentions(text: string, name: string) {
    name != [] && Contains(Lower(text), Lower(name))
  }

  /** The position of the first mentioned name, or `|names|` when there is none. */
  function FirstMentioned(text: string, names: seq<string>): (k: nat)
    ensures k <= |names|
    ensures forall j :: 0 <= j < k ==> !Mentions(text, names[j])
    ensures k < |names| ==> Mentions(text, names[k])
  {
    if names == [] then 0
    else if Mentions(text, names[0]) then 0
    else 1 + FirstMentioned(text, names[1..])
  }

  /**
   * `extractSheetMention(text, workbook)` over the workbook's sheet names in
   * order: the first mentioned name, or `None` when no name is mentioned.
   */
  function ExtractSheetMention(text: string, names: seq<string>): (r: Option<string>)
    ensures r.None? <==> forall j :: 0 <= j < |names| ==> !Mentions(text, names[j])
    ensures r.Some? ==> r.value in names && Mentions(text, r.value)
  {
    var k := FirstMentioned(text, names);
    if k < |names| then Some(names[k]) else None
  }

  // ---------------------------------------------------------------------
  // The seven patterns, given by what they capture
  // ---------------------------------------------------------------------

  /** Captures of the two rename patterns: the old name, then the new one. */
  datatype RenameCaptures = RenameCaptures(oldName: string, newName: string)

  /** Captures of the add-column pattern: the new column, then the two summands. */
  datatype SumCaptures = SumCaptures(newColumn: string, colA: string, colB: string)

  /** Captures of the where-clause pattern; the number is the value of its digits. */
  datatype FilterCaptures = FilterCaptures(column: string, op: Op, value: nat)

  /** Captures of the sort pattern; the direction group is optional. */
  datatype SortCaptures = SortCaptures(column: string, direction: Option<Direction>)

  /** Captures of the conditional-set pattern; both quoted literals are kept verbatim. */
  datatype SetCaptures = SetCaptures(target: string, value: string, conditionColumn: string,
                                     op: Op, conditionValue: string)

  /**
   * One function per regular expression: applied to the canonical text it
   * yields the captured groups of the first match, or `None` when the
   * pattern does not match. For delete_column, the capture is the group of
   * whichever alternative matched (`m[1] || m[2]`).
   */
  datatype Patterns = Patterns(
    renameSheet: string -> Option<RenameCaptures>,
    renameColumn: string -> Option<RenameCaptures>,
    addColumnSum: string -> Option<SumCaptures>,
    deleteColumn: string -> Option<string>,
    filterRows: string -> Option<FilterCaptures>,
    sortBy: string -> Option<SortCaptures>,
    setValueWhere: string -> Option<SetCaptures>)

  /**
   * What every regular-expression match guarantees: captured groups are
   * pieces of the text matched, and the operator of set_value_where is one
   * of `==` and `!=`.
   */
  ghost predicate CapturesFromText(p: Patterns) {
    && (forall s :: p.renameSheet(s).Some? ==>
          Contains(s, p.renameSheet(s).value.oldName) && Contains(s, p.renameSheet(s).value.newName))
    && (forall s :: p.renameColumn(s).Some? ==>
          Contains(s, p.renameColumn(s).value.oldName) && Contains(s, p.renameColumn(s).value.newName))
    && (forall s :: p.addColumnSum(s).Some? ==>
          && Contains(s, p.addColumnSum(s).value.newColumn)
          && Contains(s, p.addColumnSum(s).value.colA)
          && Contains(s, p.addColumnSum(s).value.colB))
    && (forall s :: p.deleteColumn(s).Some? ==> Contains(s, p.deleteColumn(s).value))
    && (forall s :: p.filterRows(s).Some? ==> Contains(s, p.filterRows(s).value.column))
    && (forall s :: p.sortBy(s).Some? ==> Contains(s, p.sortBy(s).value.column))
    && (forall s :: p.setValueWhere(s).Some? ==>
          && Contains(s, p.setValueWhere(s).value.target)
          && Contains(s, p.setValueWhere(s).value.value)
          && Contains(s, p.setValueWhere(s).value.conditionColumn)
          && Contains(s, p.setValueWhere(s).value.conditionValue)
          && p.setValueWhere(s).value.op in {Eq, Ne})
  }

  // ---------------------------------------------------------------------
  // Rules and their priority
  // ---------------------------------------------------------------------

  /** The retention words that filter_rows needs besides its where-clause. */
  predicate HasKeepWord(text: string) {
    Contains(text, "sirf") || Contains(text, "keep") || Contains(text, "rakh")
  }

  /** rename_sheet: both names title-cased; no sheet is looked up. */
  function RenameSheetRule(text: string, p: Patterns): (r: Option<Action>)
    ensures r.Some? ==> r.value.RenameSheet?
  {
    match p.renameSheet(text)
    case Some(m) => Some(RenameSheet(Capitalize(m.oldName), Capitalize(m.newName)))
    case None => None
  }

  function RenameColumnRule(text: string, sheets: seq<string>, p: Patterns): (r: Option<Action>)
    ensures r.Some? ==> r.value.RenameColumn?
  {
    match p.renameColumn(text)
    case Some(m) =>
      Some(RenameColumn(ExtractSheetMention(text, sheets), Capitalize(m.oldName), Capitalize(m.newName)))
    case None => None
  }

  /** add_column_sum: the pattern captures the new column first, then the two summands. */
  function AddColumnSumRule(text: string, sheets: seq<string>, p: Patterns): (r: Option<Action>)
    ensures r.Some? ==> r.value.AddColumnSum?
  {
    match p.addColumnSum(text)
    case Some(m) =>
      Some(AddColumnSum(ExtractSheetMention(text, sheets), Capitalize(m.colA), Capitalize(m.colB),
                        Capitalize(m.newColumn)))
    case None => None
  }

  /** delete_column: a name that title-cases to nothing yields no action. */
  function DeleteColumnRule(text: string, sheets: seq<string>, p: Patterns): (r: Option<Action>)
    ensures r.Some? ==> r.value.DeleteColumn? && r.value.columnName != []
  {
    match p.deleteColumn(text)
    case Some(col) =>
      var name := Capitalize(col);
      if name != [] then Some(DeleteColumn(ExtractSheetMention(text, sheets), name)) else None
    case None => None
  }

  /** filter_rows: the where-clause counts only next to a retention word. */
  function FilterRowsRule(text: string, sheets: seq<string>, p: Patterns): (r: Option<Action>)
    ensures r.Some? ==> r.value.FilterRows?
  {
    match p.filterRows(text)
    case Some(m) =>
      if HasKeepWord(text) then
        Some(FilterRows(ExtractSheetMention(text, sheets), Capitalize(m.column), m.op, m.value))
      else None
    case None => None
  }

  /** sort_by: ascending unless a direction was captured. */
  function SortByRule(text: string, sheets: seq<string>, p: Patterns): (r: Option<Action>)
    ensures r.Some? ==> r.value.SortBy?
  {
    match p.sortBy(text)
    case Some(m) => Some(SortBy(ExtractSheetMention(text, sheets), Capitalize(m.column), m.direction.GetOr(Asc)))
    case None => None
  }

  /** set_value_where: column names title-cased, both quoted literals kept as captured. */
  function SetValueWhereRule(text: string, sheets: seq<string>, p: Patterns): (r: Option<Action>)
    ensures r.Some? ==> r.value.SetValueWhere?
  {
    match p.setValueWhere(text)
    case Some(m) =>
      Some(SetValueWhere(ExtractSheetMention(text, sheets), Capitalize(m.target), m.op,
                         Capitalize(m.conditionColumn), m.conditionValue, m.value))
    case None => None
  }

  /**
   * What each rule makes of the canonical text, in the order the rules are
   * tried: rename_sheet, rename_column, add_column_sum, delete_column,
   * filter_rows, sort_by, set_value_where.
   */
  function RuleOutcomes(text: string, sheets: seq<string>, p: Patterns): (outcomes: seq<Option<Action>>)
    ensures |outcomes| == 7
  {
    [RenameSheetRule(text, p), RenameColumnRule(text, sheets, p), AddColumnSumRule(text, sheets, p),
     DeleteColumnRule(text, sheets, p), FilterRowsRule(text, sheets, p), SortByRule(text, sheets, p),
     SetValueWhereRule(text, sheets, p)]
  }

  /** The position of the rule that produces actions of the kind of `a`. */
  function RuleIndex(a: Action): (k: nat)
    ensures k < 7
  {
    match a
    case RenameSheet(_, _) => 0
    case RenameColumn(_, _, _) => 1
    case AddColumnSum(_, _, _, _) => 2
    case DeleteColumn(_, _) => 3
    case FilterRows(_, _, _, _) => 4
    case SortBy(_, _, _) => 5
    case SetValueWhere(_, _, _, _, _, _) => 6
  }

  /** The position of the first outcome that holds an action, or `|outcomes|` when none does. */
  function FirstAction(outcomes: seq<Option<Action>>): (k: nat)
    ensures k <= |outcomes|
    ensures forall j :: 0 <= j < k ==> outcomes[j].None?
    ensures k < |outcomes| ==> outcomes[k].Some?
  {
    if outcomes == [] || outcomes[0].Some? then 0 else 1 + FirstAction(outcomes[1..])
  }

  // ---------------------------------------------------------------------
  // parseInstruction
  // ---------------------------------------------------------------------

  /** `instruction.replace(/\s+/g, ' ').trim().toLowerCase()`: the text every pattern sees. */
  function InstructionText(instruction: string): string {
    Lower(Trim(CollapseSpaces(instruction)))
  }

  /**
   * The canonical text holds no upper-case letter and no white space other
   * than single plain spaces, none of them at either end.
   */
  lemma InstructionTextIsCanonical(instruction: string)
    ensures var text := InstructionText(instruction);
            NoUpper(text) && SingleSpaced(text) && Trimmed(text)
  {
    var c := CollapseSpaces(instruction);
    TrimKeepsShape(c);
    LowerKeepsShape(Trim(c));
  }

  lemma LowerKeepsShape(t: string)
    requires SingleSpaced(t) && Trimmed(t)
    ensures SingleSpaced(Lower(t)) && Trimmed(Lower(t))
  {
  }

  /** The rules tried in order on the canonical text: the action of the first that yields one, or none. */
  function ParseText(text: string, sheets: seq<string>, p: Patterns): (actions: seq<Action>)
    ensures |actions| <= 1
  {
    var outcomes := RuleOutcomes(text, sheets, p);
    var k := FirstAction(outcomes);
    if k < |outcomes| then [outcomes[k].value] else []
  }

  /**
   * `parseInstruction(instruction, workbook)`, given the workbook's sheet
   * names in order: the rules run on the canonical text.
   */
  function ParseInstruction(instruction: string, sheets: seq<string>, p: Patterns): (actions: seq<Action>)
    ensures |actions| <= 1
  {
    ParseText(InstructionText(instruction), sheets, p)
  }

  // ---------------------------------------------------------------------
  // Properties of parseInstruction
  // ---------------------------------------------------------------------

  /**
   * The rules are tried in order: nothing is produced exactly when no rule
   * yields an action, and otherwise the result is the action of the first
   * rule that yields one.
   */
  lemma ParseRespectsPriority(text: string, sheets: seq<string>, p: Patterns)
    ensures var outcomes := RuleOutcomes(text, sheets, p);
            ParseText(text, sheets, p) == [] <==> forall i :: 0 <= i < 7 ==> outcomes[i].None?
    ensures var outcomes := RuleOutcomes(text, sheets, p);
            forall i :: 0 <= i < 7 && outcomes[i].Some? && (forall j :: 0 <= j < i ==> outcomes[j].None?) ==>
              ParseText(text, sheets, p) == [outcomes[i].value]
  {
    var outcomes := RuleOutcomes(text, sheets, p);
    var k := FirstAction(outcomes);
    forall i | 0 <= i < 7 && outcomes[i].Some? && (forall j :: 0 <= j < i ==> outcomes[j].None?)
      ensures k == i
    {
    }
  }

  /** Each rule yields actions of its own kind only. */
  lemma OutcomeKinds(text: string, sheets: seq<string>, p: Patterns)
    ensures var outcomes := RuleOutcomes(text, sheets, p);
            forall i :: 0 <= i < 7 && outcomes[i].Some? ==> RuleIndex(outcomes[i].value) == i
  {
    var outcomes := RuleOutcomes(text, sheets, p);
    forall i | 0 <= i < 7 && outcomes[i].Some? ensures RuleIndex(outcomes[i].value) == i {
      var a := outcomes[i].value;
      if i == 0 { assert a.RenameSheet?; }
      else if i == 1 { assert a.RenameColumn?; }
      else if i == 2 { assert a.AddColumnSum?; }
      else if i == 3 { assert a.DeleteColumn?; }
      else if i == 4 { assert a.FilterRows?; }
      else if i == 5 { assert a.SortBy?; }
      else { assert a.SetValueWhere?; }
    }
  }

  /**
   * A parsed action comes from the rule of its own kind, and every rule
   * tried before that one yields nothing.
   */
  lemma ParsedActionComesFromItsRule(text: string, sheets: seq<string>, p: Patterns)
    ensures var outcomes := RuleOutcomes(text, sheets, p);
            forall a :: ParseText(text, sheets, p) == [a] ==>
              && outcomes[RuleIndex(a)] == Some(a)
              && forall j :: 0 <= j < RuleIndex(a) ==> outcomes[j].None?
  {
    var outcomes := RuleOutcomes(text, sheets, p);
    OutcomeKinds(text, sheets, p);
    var k := FirstAction(outcomes);
    if k < 7 {
      assert RuleIndex(outcomes[k].value) == k;
    }
  }

  /**
   * filter_rows needs a retention word: without "sirf", "keep" or "rakh" no
   * filter action is produced, and when the four rules tried before it
   * yield nothing either, sort_by and then set_value_where decide.
   */
  lemma FilterNeedsKeepWord(text: string, sheets: seq<string>, p: Patterns)
    ensures forall a :: ParseText(text, sheets, p) == [a] && a.FilterRows? ==>
              HasKeepWord(text)
    ensures var outcomes := RuleOutcomes(text, sheets, p);
            !HasKeepWord(text) && (forall j :: 0 <= j < 4 ==> outcomes[j].None?) ==>
              ParseText(text, sheets, p) ==
                if outcomes[5].Some? then [outcomes[5].value]
                else if outcomes[6].Some? then [outcomes[6].value]
                else []
  {
    var outcomes := RuleOutcomes(text, sheets, p);
    ParsedActionComesFromItsRule(text, sheets, p);
    assert outcomes[4] == FilterRowsRule(text, sheets, p);
    ParseRespectsPriority(text, sheets, p);
  }

  /** sort_by without a captured direction sorts ascending; the column name is title-cased. */
  lemma SortDefaultsToAscending(text: string, sheets: seq<string>, p: Patterns)
    ensures forall a :: ParseText(text, sheets, p) == [a] && a.SortBy? ==>
              && p.sortBy(text).Some?
              && a.columnName == Capitalize(p.sortBy(text).value.column)
              && a.direction == (if p.sortBy(text).value.direction == Some(Desc) then Desc else Asc)
  {
    ParsedActionComesFromItsRule(text, sheets, p);
    forall a | ParseText(text, sheets, p) == [a] && a.SortBy?
      ensures p.sortBy(text).Some?
      ensures a.columnName == Capitalize(p.sortBy(text).value.column)
      ensures a.direction == (if p.sortBy(text).value.direction == Some(Desc) then Desc else Asc)
    {
      assert SortByRule(text, sheets, p) == Some(a);
    }
  }

  /** delete_column never yields an empty column name. */
  lemma DeleteNeedsName(text: string, sheets: seq<string>, p: Patterns)
    ensures forall a :: ParseText(text, sheets, p) == [a] && a.DeleteColumn? ==> a.columnName != []
  {
    ParsedActionComesFromItsRule(text, sheets, p);
    assert RuleOutcomes(text, sheets, p)[3] == DeleteColumnRule(text, sheets, p);
  }

  /**
   * add_column_sum takes each field from its own capture: the summands from
   * the second and third groups, the new column from the first, each
   * title-cased; the sheet is the first one mentioned.
   */
  lemma AddColumnSumTakesItsCaptures(text: string, sheets: seq<string>, p: Patterns)
    ensures forall a :: ParseText(text, sheets, p) == [a] && a.AddColumnSum? ==>
              && p.addColumnSum(text).Some?
              && a.sheetName == ExtractSheetMention(text, sheets)
              && a.colA == Capitalize(p.addColumnSum(text).value.colA)
              && a.colB == Capitalize(p.addColumnSum(text).value.colB)
              && a.newColumn == Capitalize(p.addColumnSum(text).value.newColumn)
  {
    ParsedActionComesFromItsRule(text, sheets, p);
    forall a | ParseText(text, sheets, p) == [a] && a.AddColumnSum?
      ensures p.addColumnSum(text).Some?
      ensures a.sheetName == ExtractSheetMention(text, sheets)
      ensures a.colA == Capitalize(p.addColumnSum(text).value.colA)
      ensures a.colB == Capitalize(p.addColumnSum(text).value.colB)
      ensures a.newColumn == Capitalize(p.addColumnSum(text).value.newColumn)
    {
      assert AddColumnSumRule(text, sheets, p) == Some(a);
    }
  }

  /**
   * set_value_where takes each field from its own capture: both column
   * names title-cased, the operator as captured, and the two quoted literals
   * copied from the lower-cased text without title-casing.
   */
  lemma SetValueWhereTakesItsCaptures(text: string, sheets: seq<string>, p: Patterns)
    ensures forall a :: ParseText(text, sheets, p) == [a] && a.SetValueWhere? ==>
              && p.setValueWhere(text).Some?
              && a.sheetName == ExtractSheetMention(text, sheets)
              && a.targetColumn == Capitalize(p.setValueWhere(text).value.target)
              && a.op == p.setValueWhere(text).value.op
              && a.conditionColumn == Capitalize(p.setValueWhere(text).value.conditionColumn)
              && a.conditionValue == p.setValueWhere(text).value.conditionValue
              && a.newValue == p.setValueWhere(text).value.value
  {
    ParsedActionComesFromItsRule(text, sheets, p);
    forall a | ParseText(text, sheets, p) == [a] && a.SetValueWhere?
      ensures p.setValueWhere(text).Some?
      ensures a.sheetName == ExtractSheetMention(text, sheets)
      ensures a.targetColumn == Capitalize(p.setValueWhere(text).value.target)
      ensures a.op == p.setValueWhere(text).value.op
      ensures a.conditionColumn == Capitalize(p.setValueWhere(text).value.conditionColumn)
      ensures a.conditionValue == p.setValueWhere(text).value.conditionValue
      ensures a.newValue == p.setValueWhere(text).value.value
    {
      assert SetValueWhereRule(text, sheets, p) == Some(a);
    }
  }

  /** The two renames take the old name from the first group and the new name from the second. */
  lemma RenamesTakeTheirCaptures(text: string, sheets: seq<string>, p: Patterns)
    ensures forall a :: ParseText(text, sheets, p) == [a] && a.RenameSheet? ==>
              && p.renameSheet(text).Some?
              && a.sheetOld == Capitalize(p.renameSheet(text).value.oldName)
              && a.sheetNew == Capitalize(p.renameSheet(text).value.newName)
    ensures forall a :: ParseText(text, sheets, p) == [a] && a.RenameColumn? ==>
              && p.renameColumn(text).Some?
              && a.sheetName == ExtractSheetMention(text, sheets)
              && a.columnOld == Capitalize(p.renameColumn(text).value.oldName)
              && a.columnNew == Capitalize(p.renameColumn(text).value.newName)
  {
    ParsedActionComesFromItsRule(text, sheets, p);
    forall a | ParseText(text, sheets, p) == [a] && a.RenameSheet?
      ensures p.renameSheet(text).Some?
      ensures a.sheetOld == Capitalize(p.renameSheet(text).value.oldName)
      ensures a.sheetNew == Capitalize(p.renameSheet(text).value.newName)
    {
      assert RenameSheetRule(text, p) == Some(a);
    }
    forall a | ParseText(text, sheets, p) == [a] && a.RenameColumn?
      ensures p.renameColumn(text).Some?
      ensures a.sheetName == ExtractSheetMention(text, sheets)
      ensures a.columnOld == Capitalize(p.renameColumn(text).value.oldName)
      ensures a.columnNew == Capitalize(p.renameColumn(text).value.newName)
    {
      assert RenameColumnRule(text, sheets, p) == Some(a);
    }
  }

  /** filter_rows takes the column, the operator and the number from the where-clause. */
  lemma FilterRowsTakesItsCaptures(text: string, sheets: seq<string>, p: Patterns)
    ensures forall a :: ParseText(text, sheets, p) == [a] && a.FilterRows? ==>
              && p.filterRows(text).Some?
              && a.sheetName == ExtractSheetMention(text, sheets)
              && a.columnName == Capitalize(p.filterRows(text).value.column)
              && a.op == p.filterRows(text).value.op
              && a.value == p.filterRows(text).value.value
  {
    ParsedActionComesFromItsRule(text, sheets, p);
    forall a | ParseText(text, sheets, p) == [a] && a.FilterRows?
      ensures p.filterRows(text).Some?
      ensures a.sheetName == ExtractSheetMention(text, sheets)
      ensures a.columnName == Capitalize(p.filterRows(text).value.column)
      ensures a.op == p.filterRows(text).value.op
      ensures a.value == p.filterRows(text).value.value
    {
      assert FilterRowsRule(text, sheets, p) == Some(a);
    }
  }

  /** A sheet named by an action is one of the workbook's sheets. */
  ghost predicate NamesKnownSheet(sheet: Option<string>, sheets: seq<string>) {
    sheet.Some? ==> sheet.value in sheets
  }

  /** What the interpreter guarantees of every action it builds. */
  ghost predicate WellFormed(a: Action, sheets: seq<string>) {
    match a
    case RenameSheet(o, n) => IsCanonicalName(o) && IsCanonicalName(n)
    case RenameColumn(sh, o, n) => NamesKnownSheet(sh, sheets) && IsCanonicalName(o) && IsCanonicalName(n)
    case AddColumnSum(sh, x, y, n) =>
      NamesKnownSheet(sh, sheets) && IsCanonicalName(x) && IsCanonicalName(y) && IsCanonicalName(n)
    case DeleteColumn(sh, c) => NamesKnownSheet(sh, sheets) && IsCanonicalName(c) && c != []
    case FilterRows(sh, c, _, v) => NamesKnownSheet(sh, sheets) && IsCanonicalName(c) && v >= 0
    case SortBy(sh, c, _) => NamesKnownSheet(sh, sheets) && IsCanonicalName(c)
    case SetValueWhere(sh, t, op, cc, cv, v) =>
      && NamesKnownSheet(sh, sheets) && IsCanonicalName(t) && IsCanonicalName(cc)
      && op in {Eq, Ne} && NoUpper(cv) && NoUpper(v)
  }

  /** A piece of the canonical text title-cases to a canonical name. */
  lemma CapturedNameIsCanonical(text: string, piece: string)
    requires SpacesOnly(text) && Contains(text, piece)
    ensures IsCanonicalName(Capitalize(piece))
  {
    ContainedInherits(text, piece);
    CapitalizeIsCanonical(piece);
  }

  lemma RenameSheetRuleIsWellFormed(text: string, sheets: seq<string>, p: Patterns)
    requires CapturesFromText(p) && SpacesOnly(text)
    ensures RenameSheetRule(text, p).Some? ==> WellFormed(RenameSheetRule(text, p).value, sheets)
  {
    if p.renameSheet(text).Some? {
      var m := p.renameSheet(text).value;
      CapturedNameIsCanonical(text, m.oldName);
      CapturedNameIsCanonical(text, m.newName);
    }
  }

  lemma RenameColumnRuleIsWellFormed(text: string, sheets: seq<string>, p: Patterns)
    requires CapturesFromText(p) && SpacesOnly(text)
    ensures RenameColumnRule(text, sheets, p).Some? ==> WellFormed(RenameColumnRule(text, sheets, p).value, sheets)
  {
    if p.renameColumn(text).Some? {
      var m := p.renameColumn(text).value;
      CapturedNameIsCanonical(text, m.oldName);
      CapturedNameIsCanonical(text, m.newName);
    }
  }

  lemma AddColumnSumRuleIsWellFormed(text: string, sheets: seq<string>, p: Patterns)
    requires CapturesFromText(p) && SpacesOnly(text)
    ensures AddColumnSumRule(text, sheets, p).Some? ==> WellFormed(AddColumnSumRule(text, sheets, p).value, sheets)
  {
    if p.addColumnSum(text).Some? {
      var m := p.addColumnSum(text).value;
      CapturedNameIsCanonical(text, m.colA);
      CapturedNameIsCanonical(text, m.colB);
      CapturedNameIsCanonical(text, m.newColumn);
    }
  }

  lemma DeleteColumnRuleIsWellFormed(text: string, sheets: seq<string>, p: Patterns)
    requires CapturesFromText(p) && SpacesOnly(text)
    ensures DeleteColumnRule(text, sheets, p).Some? ==> WellFormed(DeleteColumnRule(text, sheets, p).value, sheets)
  {
    if p.deleteColumn(text).Some? {
      CapturedNameIsCanonical(text, p.deleteColumn(text).value);
    }
  }

  lemma FilterRowsRuleIsWellFormed(text: string, sheets: seq<string>, p: Patterns)
    requires CapturesFromText(p) && SpacesOnly(text)
    ensures FilterRowsRule(text, sheets, p).Some? ==> WellFormed(FilterRowsRule(text, sheets, p).value, sheets)
  {
    if p.filterRows(text).Some? {
      CapturedNameIsCanonical(text, p.filterRows(text).value.column);
    }
  }

  lemma SortByRuleIsWellFormed(text: string, sheets: seq<string>, p: Patterns)
    requires CapturesFromText(p) && SpacesOnly(text)
    ensures SortByRule(text, sheets, p).Some? ==> WellFormed(SortByRule(text, sheets, p).value, sheets)
  {
    if p.sortBy(text).Some? {
      CapturedNameIsCanonical(text, p.sortBy(text).value.column);
    }
  }

  lemma SetValueWhereRuleIsWellFormed(text: string, sheets: seq<string>, p: Patterns)
    requires CapturesFromText(p) && SpacesOnly(text) && NoUpper(text)
    ensures SetValueWhereRule(text, sheets, p).Some? ==> WellFormed(SetValueWhereRule(text, sheets, p).value, sheets)
    ensures SetValueWhereRule(text, sheets, p).Some? ==>
              && SetValueWhereRule(text, sheets, p).value.conditionValue == p.setValueWhere(text).value.conditionValue
              && SetValueWhereRule(text, sheets, p).value.newValue == p.setValueWhere(text).value.value
  {
    if p.setValueWhere(text).Some? {
      var m := p.setValueWhere(text).value;
      CapturedNameIsCanonical(text, m.target);
      CapturedNameIsCanonical(text, m.conditionColumn);
      ContainedInherits(text, m.value);
      ContainedInherits(text, m.conditionValue);
    }
  }

  /** Each rule builds well-formed actions from captures taken out of the canonical text. */
  lemma OutcomesAreWellFormed(text: string, sheets: seq<string>, p: Patterns)
    requires CapturesFromText(p) && SpacesOnly(text) && NoUpper(text)
    ensures var outcomes := RuleOutcomes(text, sheets, p);
            forall i :: 0 <= i < 7 && outcomes[i].Some? ==> WellFormed(outcomes[i].value, sheets)
  {
    var outcomes := RuleOutcomes(text, sheets, p);
    forall i | 0 <= i < 7 && outcomes[i].Some? ensures WellFormed(outcomes[i].value, sheets) {
      if i == 0 { RenameSheetRuleIsWellFormed(text, sheets, p); }
      else if i == 1 { RenameColumnRuleIsWellFormed(text, sheets, p); }
      else if i == 2 { AddColumnSumRuleIsWellFormed(text, sheets, p); }
      else if i == 3 { DeleteColumnRuleIsWellFormed(text, sheets, p); }
      else if i == 4 { FilterRowsRuleIsWellFormed(text, sheets, p); }
      else if i == 5 { SortByRuleIsWellFormed(text, sheets, p); }
      else { SetValueWhereRuleIsWellFormed(text, sheets, p); }
    }
  }

  /**
   * When the patterns capture pieces of the text they are given, every
   * parsed action is well formed: names are title-cased fixed points of
   * `capitalize`, a named sheet exists, and the quoted literals of
   * set_value_where are copied from the lower-cased text without
   * title-casing, so they hold no upper-case letter.
   */
  lemma ParsedActionIsWellFormed(instruction: string, sheets: seq<string>, p: Patterns)
    requires CapturesFromText(p)
    ensures forall a :: ParseInstruction(instruction, sheets, p) == [a] ==> WellFormed(a, sheets)
  {
    InstructionTextIsCanonical(instruction);
    OutcomesAreWellFormed(InstructionText(instruction), sheets, p);
  }
}
