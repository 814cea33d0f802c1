/** The pandas-free part of the CSV validator (csv_validation.py): the
    configuration merge, and the checks of `validate_csv_full` that need no
    numeric, regular-expression or date parsing — headers, size limits,
    required columns, empty rows and cells, boolean type rules, enum rules and
    unique rules — together with the error count, the `valid` flag and the
    truncated error sample. */
module CsvValidation {
  import opened Wrappers
  import opened Text
  import opened Cells
  import Config

  // ---------------------------------------------------------------------------
  // Configuration

  /** A decoded JSON value. */
  datatype Json = JNull | JBool(b: bool) | JNum(x: real) | JStr(s: string) | JArr(items: seq<Json>) | JObj(fields: map<string, Json>)

  /** `_merge_config`: every key of either side; the override's value wins,
      except that two objects are merged one level deep with the override's
      inner keys winning. `base` is a value and is left as it was. */
  method MergeConfig(base: map<string, Json>, override: map<string, Json>) returns (out: map<string, Json>)
    ensures out.Keys == base.Keys + override.Keys
    ensures forall k :: k in base && k !in override ==> out[k] == base[k]
    ensures forall k :: k in override && k in base && override[k].JObj? && base[k].JObj? ==>
              out[k] == JObj(base[k].fields + override[k].fields)
    ensures forall k :: k in override && !(k in base && override[k].JObj? && base[k].JObj?) ==>
              out[k] == override[k]
  {
    out := base;
    var todo := override.Keys;
    while todo != {}
      invariant todo <= override.Keys
      invariant out.Keys == base.Keys + (override.Keys - todo)
      invariant forall k :: k in base && (k in todo || k !in override) ==> out[k] == base[k]
      invariant forall k :: k in override && k !in todo && k in base && override[k].JObj? && base[k].JObj? ==>
                  out[k] == JObj(base[k].fields + override[k].fields)
      invariant forall k :: k in override && k !in todo && !(k in base && override[k].JObj? && base[k].JObj?) ==>
                  out[k] == override[k]
      decreases todo
    {
      var k :| k in todo;
      var v := override[k];
      if v.JObj? && k in out && out[k].JObj? {
        out := out[k := JObj(out[k].fields + v.fields)];
      } else {
        out := out[k := v];
      }
      todo := todo - {k};
    }
  }

  /** An enum rule: the column, its allowed values, and whether an empty cell
      is an error. */
  datatype EnumRule = EnumRule(column: string, allowed: seq<Value>, required: bool)

  /** A unique rule: the key columns and whether text is compared ignoring case. */
  datatype UniqueRule = UniqueRule(columns: seq<string>, caseInsensitive: bool)

  /** The merged configuration, read into typed settings. `maxRows`,
      `maxCols` and `sampleErrorsLimit` are None when the key is absent or
      null; a type rule is its column and its `type` text. */
  datatype Settings = Settings(
    requiredColumns: seq<string>,
    noEmptyHeaders: bool,
    noEmptyRows: bool,
    noEmptyCells: bool,
    stripWhitespace: bool,
    maxRows: Option<int>,
    maxCols: Option<int>,
    typeRules: seq<(string, string)>,
    enumRules: seq<EnumRule>,
    uniqueRules: seq<UniqueRule>,
    sampleErrorsLimit: Option<int>)

  /** `default_validation_config()` */
  const DEFAULT_SETTINGS := Settings([], true, false, false, true, Some(50000), Some(200), [], [], [], Some(200))

  /** An error record: its code, the column and the row it names. */
  datatype Error = Error(code: string, column: Option<string>, row: Option<nat>)

  const EMPTY_HEADER := "EMPTY_HEADER"
  const TOO_MANY_ROWS := "TOO_MANY_ROWS"
  const TOO_MANY_COLUMNS := "TOO_MANY_COLUMNS"
  const MISSING_COLUMN := "MISSING_COLUMN"
  const EMPTY_ROW := "EMPTY_ROW"
  const EMPTY_CELL := "EMPTY_CELL"
  const TYPE_INVALID := "TYPE_INVALID"
  const MISSING_REQUIRED := "MISSING_REQUIRED"
  const ENUM_FAIL := "ENUM_FAIL"
  const DUPLICATE_ROW := "DUPLICATE_ROW"

  datatype Stats = Stats(emptyRows: nat, emptyCells: nat, duplicates: nat)

  datatype Report = Report(
    valid: bool,
    rowCount: nat,
    columns: seq<string>,
    errorCount: nat,
    warningCount: nat,
    errors: seq<Error>,
    stats: Stats)

  /** Python truthiness of an optional integer setting. */
  predicate Truthy(o: Option<int>) {
    o.Some? && o.value != 0
  }

  // ---------------------------------------------------------------------------
  // The checks, one error list per phase

  /** The frame after `strip_whitespace`: every string cell stripped. */
  function StripStrings(t: Table): (r: Table)
    ensures r.columns == t.columns && |r.rows| == |t.rows|
    ensures forall i :: 0 <= i < |t.rows| ==> |r.rows[i]| == |t.rows[i]|
    ensures forall i, j :: 0 <= i < |t.rows| && 0 <= j < |t.rows[i]| ==> r.rows[i][j] == StripCell(t.rows[i][j])
  {
    Table(t.columns, seq(|t.rows|, i requires 0 <= i < |t.rows| =>
                         seq(|t.rows[i]|, j requires 0 <= j < |t.rows[i]| => StripCell(t.rows[i][j]))))
  }

  /** One EMPTY_HEADER per blank label among the first `n`. */
  function HeaderErrors(cols: seq<string>, n: nat): seq<Error>
    requires n <= |cols|
  {
    if n == 0 then []
    else HeaderErrors(cols, n - 1) + (if IsEmpty(Str(cols[n - 1])) then [Error(EMPTY_HEADER, None, None)] else [])
  }

  function SizeErrors(t: Table, cfg: Settings): seq<Error> {
    (if Truthy(cfg.maxRows) && |t.rows| > cfg.maxRows.value then [Error(TOO_MANY_ROWS, None, None)] else []) +
    (if Truthy(cfg.maxCols) && |t.columns| > cfg.maxCols.value then [Error(TOO_MANY_COLUMNS, None, None)] else [])
  }

  /** One MISSING_COLUMN per absent column among the first `n` required ones. */
  function MissingColumnErrors(cols: seq<string>, required: seq<string>, n: nat): seq<Error>
    requires n <= |required|
  {
    if n == 0 then []
    else MissingColumnErrors(cols, required, n - 1) +
         (if required[n - 1] !in cols then [Error(MISSING_COLUMN, Some(required[n - 1]), None)] else [])
  }

  /** A cell counted as empty by the empty-row check: missing, or blank when
      whitespace is being stripped. */
  predicate BlankCell(v: Value, strip: bool) {
    IsNA(v) || (strip && IsEmpty(v))
  }

  predicate BlankRow(row: seq<Value>, strip: bool) {
    forall k :: 0 <= k < |row| ==> BlankCell(row[k], strip)
  }

  /** One EMPTY_ROW per blank row among the first `n`. */
  function EmptyRowErrors(t: Table, strip: bool, n: nat): seq<Error>
    requires n <= |t.rows|
  {
    if n == 0 then []
    else EmptyRowErrors(t, strip, n - 1) + (if BlankRow(t.rows[n - 1], strip) then [Error(EMPTY_ROW, None, Some(n - 1))] else [])
  }

  /** One EMPTY_CELL per empty cell among the first `m` cells of row `r`. */
  function RowEmptyCells(t: Table, r: nat, m: nat): seq<Error>
    requires Rectangular(t) && r < |t.rows| && m <= |t.columns|
  {
    if m == 0 then []
    else RowEmptyCells(t, r, m - 1) +
         (if IsEmpty(t.rows[r][m - 1]) then [Error(EMPTY_CELL, Some(t.columns[m - 1]), Some(r))] else [])
  }

  /** The empty cells of the first `n` rows, row by row. */
  function EmptyCellErrors(t: Table, n: nat): seq<Error>
    requires Rectangular(t) && n <= |t.rows|
  {
    if n == 0 then [] else EmptyCellErrors(t, n - 1) + RowEmptyCells(t, n - 1, |t.columns|)
  }

  /** One error with `code` per cell of column `c` among the first `n` rows
      that `flagged` picks out. */
  function FlaggedCells(t: Table, c: nat, n: nat, flagged: Value -> bool, code: string): seq<Error>
    requires Rectangular(t) && c < |t.columns| && n <= |t.rows|
  {
    if n == 0 then []
    else FlaggedCells(t, c, n - 1, flagged, code) +
         (if flagged(t.rows[n - 1][c]) then [Error(code, Some(t.columns[c]), Some(n - 1))] else [])
  }

  /** A cell that a "bool" type rule refuses. */
  predicate NotBool(v: Value) {
    !CoerceBool(v).1
  }

  /** One TYPE_INVALID per cell of column `c` among the first `n` rows that
      is not acceptable as a boolean. */
  function BoolColumnErrors(t: Table, c: nat, n: nat): seq<Error>
    requires Rectangular(t) && c < |t.columns| && n <= |t.rows|
  {
    FlaggedCells(t, c, n, NotBool, TYPE_INVALID)
  }

  /** The errors of the first `n` type rules: a "bool" rule (in any case) on a
      present column checks every cell. */
  function TypeRuleErrors(t: Table, rules: seq<(string, string)>, n: nat): seq<Error>
    requires Rectangular(t) && n <= |rules|
  {
    if n == 0 then []
    else
      var (col, typeName) := rules[n - 1];
      TypeRuleErrors(t, rules, n - 1) +
      (if col in t.columns && Lower(typeName) == "bool" then BoolColumnErrors(t, IndexOf(t.columns, col), |t.rows|) else [])
  }

  /** Python's `v in allowed` for a cell that is not empty. */
  predicate Allowed(v: Value, allowed: seq<Value>) {
    exists k :: 0 <= k < |allowed| && SameValue(v, allowed[k])
  }

  /** The error, if any, an enum rule gives one cell. */
  function EnumCellError(v: Value, rule: EnumRule, r: nat): seq<Error> {
    if IsEmpty(v) then (if rule.required then [Error(MISSING_REQUIRED, Some(rule.column), Some(r))] else [])
    else if !Allowed(v, rule.allowed) then [Error(ENUM_FAIL, Some(rule.column), Some(r))]
    else []
  }

  /** An enum rule's errors over the first `n` rows of column `c`. */
  function EnumColumnErrors(t: Table, rule: EnumRule, c: nat, n: nat): seq<Error>
    requires Rectangular(t) && c < |t.columns| && n <= |t.rows|
  {
    if n == 0 then [] else EnumColumnErrors(t, rule, c, n - 1) + EnumCellError(t.rows[n - 1][c], rule, n - 1)
  }

  /** The errors of the first `n` enum rules; a rule for an absent column is skipped. */
  function EnumRuleErrors(t: Table, rules: seq<EnumRule>, n: nat): seq<Error>
    requires Rectangular(t) && n <= |rules|
  {
    if n == 0 then []
    else EnumRuleErrors(t, rules, n - 1) +
         (if rules[n - 1].column in t.columns
          then EnumColumnErrors(t, rules[n - 1], IndexOf(t.columns, rules[n - 1].column), |t.rows|)
          else [])
  }

  /** `str(v)` of a cell, with Python's float text as a parameter. */
  function CellText(v: Value, floatRepr: real -> string): string {
    match v
    case Null => "None"
    case NaN => "nan"
    case Bool(b) => if b then "True" else "False"
    case Int(i) => Config.IntToString(i)
    case Float(r) => floatRepr(r)
    case Str(s) => s
  }

  /** How a cell takes part in a unique key: as itself, or as its lower-cased
      text when the rule ignores case. */
  function UniqueCell(v: Value, caseInsensitive: bool, floatRepr: real -> string): Key {
    if caseInsensitive then KStr(Lower(CellText(v, floatRepr))) else KeyOf(v)
  }

  predicate UniqueApplies(t: Table, rule: UniqueRule) {
    |rule.columns| > 0 && forall k :: 0 <= k < |rule.columns| ==> rule.columns[k] in t.columns
  }

  /** The positions of a unique rule's columns. */
  function KeyColumns(t: Table, rule: UniqueRule): (idx: seq<nat>)
    requires UniqueApplies(t, rule)
    ensures |idx| == |rule.columns| && forall k :: 0 <= k < |idx| ==> idx[k] < |t.columns|
  {
    seq(|rule.columns|, k requires 0 <= k < |rule.columns| => IndexOf(t.columns, rule.columns[k]))
  }

  function RowKey(t: Table, idx: seq<nat>, ci: bool, floatRepr: real -> string, r: nat): seq<Key>
    requires Rectangular(t) && r < |t.rows| && forall k :: 0 <= k < |idx| ==> idx[k] < |t.columns|
  {
    seq(|idx|, k requires 0 <= k < |idx| => UniqueCell(t.rows[r][idx[k]], ci, floatRepr))
  }

  /** `duplicated(keep=False)`: some other row has the same key. */
  predicate Duplicated(t: Table, idx: seq<nat>, ci: bool, floatRepr: real -> string, r: nat)
    requires Rectangular(t) && r < |t.rows| && forall k :: 0 <= k < |idx| ==> idx[k] < |t.columns|
  {
    exists r2 :: 0 <= r2 < |t.rows| && r2 != r && RowKey(t, idx, ci, floatRepr, r2) == RowKey(t, idx, ci, floatRepr, r)
  }

  /** One error with `code` and `column` per row among the first `n` that
      `flagged` picks out. */
  function FlaggedRows(n: nat, flagged: nat -> bool, code: string, column: Option<string>): seq<Error> {
    if n == 0 then []
    else FlaggedRows(n - 1, flagged, code, column) + (if flagged(n - 1) then [Error(code, column, Some(n - 1))] else [])
  }

  /** One DUPLICATE_ROW per duplicated row among the first `n`. */
  function DuplicateErrors(t: Table, idx: seq<nat>, ci: bool, floatRepr: real -> string, joined: string, n: nat): seq<Error>
    requires Rectangular(t) && n <= |t.rows| && forall k :: 0 <= k < |idx| ==> idx[k] < |t.columns|
  {
    FlaggedRows(n, (r: nat) => r < |t.rows| && Duplicated(t, idx, ci, floatRepr, r), DUPLICATE_ROW, Some(joined))
  }

  /** The errors of one unique rule: none when it has no columns or names an
      absent one. */
  function UniqueErrors(t: Table, rule: UniqueRule, floatRepr: real -> string): seq<Error>
    requires Rectangular(t)
  {
    if UniqueApplies(t, rule)
    then DuplicateErrors(t, KeyColumns(t, rule), rule.caseInsensitive, floatRepr, Join(rule.columns, ','), |t.rows|)
    else []
  }

  /** A case-insensitive rule that names a column twice: `subset[c]` is then
      a frame, which has no `.str`, so lower-casing raises AttributeError. */
  predicate UniqueRaises(t: Table, rule: UniqueRule) {
    UniqueApplies(t, rule) && rule.caseInsensitive &&
    exists i, j :: 0 <= i < j < |rule.columns| && rule.columns[i] == rule.columns[j]
  }

  function UniqueRuleErrors(t: Table, rules: seq<UniqueRule>, floatRepr: real -> string, n: nat): seq<Error>
    requires Rectangular(t) && n <= |rules|
  {
    if n == 0 then [] else UniqueRuleErrors(t, rules, floatRepr, n - 1) + UniqueErrors(t, rules[n - 1], floatRepr)
  }

  /** The frame the checks after the header check see. */
  function Checked(t: Table, cfg: Settings): (r: Table)
    requires Rectangular(t)
    ensures Rectangular(r) && r.columns == t.columns && |r.rows| == |t.rows|
  {
    if cfg.stripWhitespace then StripStrings(t) else t
  }

  /** Every error `validate_csv_full` generates, in generation order. */
  function AllErrors(t: Table, cfg: Settings, floatRepr: real -> string): seq<Error>
    requires Rectangular(t)
  {
    var d := Checked(t, cfg);
    (if cfg.noEmptyHeaders then HeaderErrors(d.columns, |d.columns|) else []) +
    SizeErrors(d, cfg) +
    MissingColumnErrors(d.columns, cfg.requiredColumns, |cfg.requiredColumns|) +
    (if cfg.noEmptyRows then EmptyRowErrors(d, cfg.stripWhitespace, |d.rows|) else []) +
    (if cfg.noEmptyCells then EmptyCellErrors(d, |d.rows|) else []) +
    TypeRuleErrors(d, cfg.typeRules, |cfg.typeRules|) +
    EnumRuleErrors(d, cfg.enumRules, |cfg.enumRules|) +
    UniqueRuleErrors(d, cfg.uniqueRules, floatRepr, |cfg.uniqueRules|)
  }

  /** How many of the positions below `n` satisfy `p`: the sum of a boolean
      mask. */
  function CountWhere(n: nat, p: nat -> bool): nat {
    |set r: nat | r < n && p(r)|
  }

  /** The number of empty cells in the first `n` rows: the mask of empty
      cells summed over rows and columns. */
  function EmptyCellCount(t: Table, n: nat): nat
    requires Rectangular(t) && n <= |t.rows|
  {
    if n == 0 then 0
    else EmptyCellCount(t, n - 1) + CountWhere(|t.columns|, (c: nat) => c < |t.columns| && IsEmpty(t.rows[n - 1][c]))
  }

  /** The duplicated rows of each of the first `n` unique rules that apply,
      summed over the rules. */
  function DuplicateCount(t: Table, rules: seq<UniqueRule>, floatRepr: real -> string, n: nat): nat
    requires Rectangular(t) && n <= |rules|
  {
    if n == 0 then 0
    else DuplicateCount(t, rules, floatRepr, n - 1) +
         (if UniqueApplies(t, rules[n - 1])
          then CountWhere(|t.rows|, (r: nat) => r < |t.rows| &&
                 Duplicated(t, KeyColumns(t, rules[n - 1]), rules[n - 1].caseInsensitive, floatRepr, r))
          else 0)
  }

  /** The counters of the report: blank rows, empty cells and duplicated
      rows, each counted over the frame and only when its check is on. */
  function StatsOf(t: Table, cfg: Settings, floatRepr: real -> string): Stats
    requires Rectangular(t)
  {
    var d := Checked(t, cfg);
    Stats(if cfg.noEmptyRows then CountWhere(|d.rows|, (r: nat) => r < |d.rows| && BlankRow(d.rows[r], cfg.stripWhitespace)) else 0,
          if cfg.noEmptyCells then EmptyCellCount(d, |d.rows|) else 0,
          DuplicateCount(d, cfg.uniqueRules, floatRepr, |cfg.uniqueRules|))
  }

  /** `cfg.get("sample_errors_limit", 200) or 200` */
  function ErrorLimit(cfg: Settings): int {
    if cfg.sampleErrorsLimit.None? || cfg.sampleErrorsLimit.value == 0 then 200 else cfg.sampleErrorsLimit.value
  }

  /** Python's `xs[:n]`: a negative `n` counts from the end. */
  function Take<T>(xs: seq<T>, n: int): seq<T> {
    if n >= 0 then (if n <= |xs| then xs[..n] else xs)
    else if |xs| + n >= 0 then xs[..|xs| + n]
    else []
  }

  function MakeReport(t: Table, all: seq<Error>, stats: Stats, cfg: Settings): Report {
    Report(|all| == 0, |t.rows|, t.columns, |all|, 0, Take(all, ErrorLimit(cfg)), stats)
  }

  // ---------------------------------------------------------------------------
  // What the report promises

  /** The report is valid exactly when no error was generated; the count
      covers every error, the sample is the first `limit` of them in order,
      and an unset or zero limit means 200. */
  lemma ReportSample(t: Table, all: seq<Error>, stats: Stats, cfg: Settings)
    ensures var rep := MakeReport(t, all, stats, cfg);
      && (rep.valid <==> rep.errorCount == 0)
      && rep.errorCount == |all|
      && rep.errors <= all
      && (ErrorLimit(cfg) >= 0 ==> |rep.errors| == if ErrorLimit(cfg) < |all| then ErrorLimit(cfg) else |all|)
      && (ErrorLimit(cfg) < 0 ==> |rep.errors| == if |all| + ErrorLimit(cfg) >= 0 then |all| + ErrorLimit(cfg) else 0)
      && (cfg.sampleErrorsLimit.None? || cfg.sampleErrorsLimit == Some(0) ==> ErrorLimit(cfg) == 200)
  {
  }

  /** Under the default configuration only the header and size checks can
      fire. */
  lemma DefaultsCheckHeadersAndSize(t: Table, fr: real -> string)
    requires Rectangular(t)
    ensures var d := Checked(t, DEFAULT_SETTINGS);
      AllErrors(t, DEFAULT_SETTINGS, fr) == HeaderErrors(d.columns, |d.columns|) + SizeErrors(d, DEFAULT_SETTINGS)
  {
    var d := Checked(t, DEFAULT_SETTINGS);
    var front := HeaderErrors(d.columns, |d.columns|) + SizeErrors(d, DEFAULT_SETTINGS);
    var none: seq<Error> := [];
    assert AllErrors(t, DEFAULT_SETTINGS, fr) == front + none + none + none + none + none + none;
    assert front + none == front;
  }

  /** Under the default configuration every counter stays zero and at most
      200 errors are sampled. */
  lemma DefaultsCountNothing(t: Table, all: seq<Error>, fr: real -> string)
    requires Rectangular(t)
    ensures StatsOf(t, DEFAULT_SETTINGS, fr) == Stats(0, 0, 0)
    ensures |MakeReport(t, all, StatsOf(t, DEFAULT_SETTINGS, fr), DEFAULT_SETTINGS).errors| <= 200
  {
  }

  /** One MISSING_COLUMN error per required entry that is absent, naming it. */
  lemma {:induction false} MissingColumnsExact(cols: seq<string>, required: seq<string>, n: nat)
    requires n <= |required|
    ensures forall e :: e in MissingColumnErrors(cols, required, n) ==>
              e.code == MISSING_COLUMN && e.column.Some? && e.column.value !in cols && e.row.None?
    ensures forall c :: c in required[..n] && c !in cols <==>
              Error(MISSING_COLUMN, Some(c), None) in MissingColumnErrors(cols, required, n)
  {
    if n > 0 {
      MissingColumnsExact(cols, required, n - 1);
      assert required[..n] == required[..n - 1] + [required[n - 1]];
    }
  }

  /** An EMPTY_ROW error names row `r` exactly when row `r` is blank. */
  lemma {:induction false} EmptyRowsExact(t: Table, strip: bool, n: nat, r: nat)
    requires n <= |t.rows|
    ensures Error(EMPTY_ROW, None, Some(r)) in EmptyRowErrors(t, strip, n) <==> r < n && BlankRow(t.rows[r], strip)
    ensures forall e :: e in EmptyRowErrors(t, strip, n) ==> e.code == EMPTY_ROW && e.row.Some? && e.row.value < n
  {
    if n > 0 {
      EmptyRowsExact(t, strip, n - 1, r);
    }
  }

  /** Every EMPTY_ROW the validator reports, with or without stripping, names
      a row whose cells are all empty. */
  lemma EmptyRowIsEmpty(row: seq<Value>, strip: bool)
    requires BlankRow(row, strip)
    ensures forall k :: 0 <= k < |row| ==> IsEmpty(row[k])
  {
  }

  /** For an enum rule on a present column, each row gets MISSING_REQUIRED
      exactly when its cell is empty and the rule is required, ENUM_FAIL
      exactly when its cell is non-empty and equals no allowed value, and no
      other error. */
  lemma {:induction false} EnumRuleExact(t: Table, rule: EnumRule, c: nat, n: nat, r: nat)
    requires Rectangular(t) && c < |t.columns| && t.columns[c] == rule.column && n <= |t.rows|
    ensures var errs := EnumColumnErrors(t, rule, c, n);
      && (Error(MISSING_REQUIRED, Some(rule.column), Some(r)) in errs <==>
            r < n && IsEmpty(t.rows[r][c]) && rule.required)
      && (Error(ENUM_FAIL, Some(rule.column), Some(r)) in errs <==>
            r < n && !IsEmpty(t.rows[r][c]) && !Allowed(t.rows[r][c], rule.allowed))
      && (forall e :: e in errs ==> (e.code == MISSING_REQUIRED || e.code == ENUM_FAIL) && e.column == Some(rule.column))
  {
    if n > 0 {
      EnumRuleExact(t, rule, c, n - 1, r);
    }
  }

  /** A cell-by-cell check reports row `r` exactly when its cell is flagged,
      and reports nothing but its own code on its own column. */
  lemma {:induction false} FlaggedCellsExact(t: Table, c: nat, n: nat, flagged: Value -> bool, code: string, r: nat)
    requires Rectangular(t) && c < |t.columns| && n <= |t.rows|
    ensures Error(code, Some(t.columns[c]), Some(r)) in FlaggedCells(t, c, n, flagged, code) <==>
      r < n && flagged(t.rows[r][c])
    ensures forall e :: e in FlaggedCells(t, c, n, flagged, code) ==> e.code == code && e.column == Some(t.columns[c])
  {
    if n > 0 {
      FlaggedCellsExact(t, c, n - 1, flagged, code, r);
    }
  }

  /** A "bool" type rule reports TYPE_INVALID for row `r` exactly when its
      cell is a string, not blank, whose stripped lower-cased text is in
      neither word set. */
  lemma BoolColumnExact(t: Table, c: nat, r: nat)
    requires Rectangular(t) && c < |t.columns|
    ensures Error(TYPE_INVALID, Some(t.columns[c]), Some(r)) in BoolColumnErrors(t, c, |t.rows|) <==>
      && r < |t.rows| && t.rows[r][c].Str? && !AllSpace(t.rows[r][c].s)
      && Word(t.rows[r][c].s) !in TRUE_WORDS && Word(t.rows[r][c].s) !in FALSE_WORDS
    ensures forall e :: e in BoolColumnErrors(t, c, |t.rows|) ==> e.code == TYPE_INVALID && e.column == Some(t.columns[c])
  {
    FlaggedCellsExact(t, c, |t.rows|, NotBool, TYPE_INVALID, r);
    if r < |t.rows| {
      CoerceBoolRefuses(t.rows[r][c]);
    }
  }

  /** A rule for an absent column adds nothing. */
  lemma EnumRuleAbsentColumn(t: Table, rules: seq<EnumRule>, n: nat)
    requires Rectangular(t) && 0 < n <= |rules| && rules[n - 1].column !in t.columns
    ensures EnumRuleErrors(t, rules, n) == EnumRuleErrors(t, rules, n - 1)
  {
  }

  /** A row-by-row check reports row `r` exactly when it is flagged, once. */
  lemma {:induction false} FlaggedRowsExact(n: nat, flagged: nat -> bool, code: string, column: Option<string>, r: nat)
    ensures Error(code, column, Some(r)) in FlaggedRows(n, flagged, code, column) <==> r < n && flagged(r)
  {
    if n > 0 {
      FlaggedRowsExact(n - 1, flagged, code, column, r);
    }
  }

  /** Two flagged rows both count. */
  lemma {:induction false} FlaggedRowsCount(n: nat, flagged: nat -> bool, code: string, column: Option<string>, a: nat, b: nat)
    requires a < b && flagged(a) && flagged(b)
    ensures |FlaggedRows(n, flagged, code, column)| >= (if a < n then 1 else 0) + (if b < n then 1 else 0)
  {
    if n > 0 {
      FlaggedRowsCount(n - 1, flagged, code, column, a, b);
    }
  }

  /** A report comes from a flagged row. */
  lemma {:induction false} FlaggedRowsNonEmpty(n: nat, flagged: nat -> bool, code: string, column: Option<string>)
    requires |FlaggedRows(n, flagged, code, column)| > 0
    ensures exists r :: 0 <= r < n && flagged(r)
  {
    if !flagged(n - 1) {
      FlaggedRowsNonEmpty(n - 1, flagged, code, column);
    }
  }

  /** DUPLICATE_ROW names row `r` exactly when another row has the same key:
      with keep=False every member of a duplicated group is reported. */
  lemma DuplicatesExact(t: Table, idx: seq<nat>, ci: bool, fr: real -> string, joined: string, n: nat, r: nat)
    requires Rectangular(t) && n <= |t.rows| && forall k :: 0 <= k < |idx| ==> idx[k] < |t.columns|
    ensures Error(DUPLICATE_ROW, Some(joined), Some(r)) in DuplicateErrors(t, idx, ci, fr, joined, n) <==>
              r < n && Duplicated(t, idx, ci, fr, r)
  {
    FlaggedRowsExact(n, (r: nat) => r < |t.rows| && Duplicated(t, idx, ci, fr, r), DUPLICATE_ROW, Some(joined), r);
  }

  /** A duplicate group has at least two rows, so a unique rule never
      reports exactly one DUPLICATE_ROW. */
  lemma NeverOneDuplicate(t: Table, idx: seq<nat>, ci: bool, fr: real -> string, joined: string)
    requires Rectangular(t) && forall k :: 0 <= k < |idx| ==> idx[k] < |t.columns|
    ensures |DuplicateErrors(t, idx, ci, fr, joined, |t.rows|)| != 1
  {
    var dup := (r: nat) => r < |t.rows| && Duplicated(t, idx, ci, fr, r);
    var errs := FlaggedRows(|t.rows|, dup, DUPLICATE_ROW, Some(joined));
    assert DuplicateErrors(t, idx, ci, fr, joined, |t.rows|) == errs;
    if |errs| > 0 {
      FlaggedRowsNonEmpty(|t.rows|, dup, DUPLICATE_ROW, Some(joined));
      var r :| 0 <= r < |t.rows| && dup(r);
      var r2 :| 0 <= r2 < |t.rows| && r2 != r && RowKey(t, idx, ci, fr, r2) == RowKey(t, idx, ci, fr, r);
      assert dup(r2) by {
        assert r != r2 && RowKey(t, idx, ci, fr, r) == RowKey(t, idx, ci, fr, r2);
      }
      if r < r2 {
        FlaggedRowsCount(|t.rows|, dup, DUPLICATE_ROW, Some(joined), r, r2);
      } else {
        FlaggedRowsCount(|t.rows|, dup, DUPLICATE_ROW, Some(joined), r2, r);
      }
    }
  }

  /** Counting one more position adds one exactly when it satisfies `p`. */
  lemma CountWhereStep(n: nat, p: nat -> bool)
    requires n > 0
    ensures CountWhere(n, p) == CountWhere(n - 1, p) + (if p(n - 1) then 1 else 0)
  {
    var below := set r: nat | r < n - 1 && p(r);
    if p(n - 1) {
      assert (set r: nat | r < n && p(r)) == below + {n - 1};
    } else {
      assert (set r: nat | r < n && p(r)) == below;
    }
  }

  lemma CountWhereNone(p: nat -> bool)
    ensures CountWhere(0, p) == 0
  {
    assert (set r: nat | r < 0 && p(r)) == {};
  }

  /** A row-by-row check reports as many rows as its mask counts. */
  lemma {:induction false} FlaggedRowsCounted(n: nat, flagged: nat -> bool, code: string, column: Option<string>)
    ensures |FlaggedRows(n, flagged, code, column)| == CountWhere(n, flagged)
  {
    if n == 0 {
      CountWhereNone(flagged);
    } else {
      FlaggedRowsCounted(n - 1, flagged, code, column);
      CountWhereStep(n, flagged);
    }
  }

  /** One EMPTY_ROW per blank row. */
  lemma {:induction false} EmptyRowsCounted(t: Table, strip: bool, n: nat)
    requires n <= |t.rows|
    ensures |EmptyRowErrors(t, strip, n)| == CountWhere(n, (r: nat) => r < |t.rows| && BlankRow(t.rows[r], strip))
  {
    var blank := (r: nat) => r < |t.rows| && BlankRow(t.rows[r], strip);
    if n == 0 {
      CountWhereNone(blank);
    } else {
      EmptyRowsCounted(t, strip, n - 1);
      CountWhereStep(n, blank);
    }
  }

  /** One EMPTY_CELL per empty cell of a row. */
  lemma {:induction false} RowEmptyCellsCounted(t: Table, r: nat, m: nat)
    requires Rectangular(t) && r < |t.rows| && m <= |t.columns|
    ensures |RowEmptyCells(t, r, m)| == CountWhere(m, (c: nat) => c < |t.columns| && IsEmpty(t.rows[r][c]))
  {
    var empty := (c: nat) => c < |t.columns| && IsEmpty(t.rows[r][c]);
    if m == 0 {
      CountWhereNone(empty);
    } else {
      RowEmptyCellsCounted(t, r, m - 1);
      CountWhereStep(m, empty);
    }
  }

  /** One EMPTY_CELL per empty cell of the frame. */
  lemma {:induction false} EmptyCellsCounted(t: Table, n: nat)
    requires Rectangular(t) && n <= |t.rows|
    ensures |EmptyCellErrors(t, n)| == EmptyCellCount(t, n)
  {
    if n > 0 {
      EmptyCellsCounted(t, n - 1);
      RowEmptyCellsCounted(t, n - 1, |t.columns|);
    }
  }

  /** One DUPLICATE_ROW per duplicated row of each unique rule that applies. */
  lemma {:induction false} UniqueRulesCounted(t: Table, rules: seq<UniqueRule>, fr: real -> string, n: nat)
    requires Rectangular(t) && n <= |rules|
    ensures |UniqueRuleErrors(t, rules, fr, n)| == DuplicateCount(t, rules, fr, n)
  {
    if n > 0 {
      UniqueRulesCounted(t, rules, fr, n - 1);
      var rule := rules[n - 1];
      if UniqueApplies(t, rule) {
        var idx := KeyColumns(t, rule);
        FlaggedRowsCounted(|t.rows|, (r: nat) => r < |t.rows| && Duplicated(t, idx, rule.caseInsensitive, fr, r),
                           DUPLICATE_ROW, Some(Join(rule.columns, ',')));
      }
    }
  }

  /** The stats count what the checks report: one error per blank row, one
      per empty cell, one per duplicated row of each unique rule. */
  lemma StatsCountErrors(t: Table, cfg: Settings, fr: real -> string)
    requires Rectangular(t)
    ensures var d := Checked(t, cfg);
      && StatsOf(t, cfg, fr).emptyRows == (if cfg.noEmptyRows then |EmptyRowErrors(d, cfg.stripWhitespace, |d.rows|)| else 0)
      && StatsOf(t, cfg, fr).emptyCells == (if cfg.noEmptyCells then |EmptyCellErrors(d, |d.rows|)| else 0)
      && StatsOf(t, cfg, fr).duplicates == |UniqueRuleErrors(d, cfg.uniqueRules, fr, |cfg.uniqueRules|)|
  {
    var d := Checked(t, cfg);
    EmptyRowsCounted(d, cfg.stripWhitespace, |d.rows|);
    EmptyCellsCounted(d, |d.rows|);
    UniqueRulesCounted(d, cfg.uniqueRules, fr, |cfg.uniqueRules|);
  }

  /** Stripping does not change which cells are empty, so the empty-cell
      errors are the same with or without it. */
  lemma {:induction false} EmptyCellsIgnoreStrip(t: Table, n: nat)
    requires Rectangular(t) && n <= |t.rows|
    ensures EmptyCellErrors(StripStrings(t), n) == EmptyCellErrors(t, n)
  {
    if n > 0 {
      EmptyCellsIgnoreStrip(t, n - 1);
      RowEmptyCellsIgnoreStrip(t, n - 1, |t.columns|);
    }
  }

  lemma {:induction false} RowEmptyCellsIgnoreStrip(t: Table, r: nat, m: nat)
    requires Rectangular(t) && r < |t.rows| && m <= |t.columns|
    ensures RowEmptyCells(StripStrings(t), r, m) == RowEmptyCells(t, r, m)
  {
    if m > 0 {
      RowEmptyCellsIgnoreStrip(t, r, m - 1);
      StripCellKeepsEmpty(t.rows[r][m - 1]);
    }
  }

  // ---------------------------------------------------------------------------
  // The validator, phase by phase

  method CheckHeaders(cols: seq<string>) returns (errs: seq<Error>)
    ensures errs == HeaderErrors(cols, |cols|)
  {
    errs := [];
    for i := 0 to |cols|
      invariant errs == HeaderErrors(cols, i)
    {
      if IsEmpty(Str(cols[i])) {
        errs := errs + [Error(EMPTY_HEADER, None, None)];
      }
    }
  }

  method CheckRequired(cols: seq<string>, required: seq<string>) returns (errs: seq<Error>)
    ensures errs == MissingColumnErrors(cols, required, |required|)
  {
    errs := [];
    for i := 0 to |required|
      invariant errs == MissingColumnErrors(cols, required, i)
    {
      if required[i] !in cols {
        errs := errs + [Error(MISSING_COLUMN, Some(required[i]), None)];
      }
    }
  }

  method CheckEmptyRows(t: Table, strip: bool) returns (errs: seq<Error>)
    ensures errs == EmptyRowErrors(t, strip, |t.rows|)
  {
    errs := [];
    for i := 0 to |t.rows|
      invariant errs == EmptyRowErrors(t, strip, i)
    {
      if BlankRow(t.rows[i], strip) {
        errs := errs + [Error(EMPTY_ROW, None, Some(i))];
      }
    }
  }

  method CheckEmptyCells(t: Table) returns (errs: seq<Error>)
    requires Rectangular(t)
    ensures errs == EmptyCellErrors(t, |t.rows|)
  {
    errs := [];
    for i := 0 to |t.rows|
      invariant errs == EmptyCellErrors(t, i)
    {
      var before := errs;
      for j := 0 to |t.columns|
        invariant errs == before + RowEmptyCells(t, i, j)
      {
        if IsEmpty(t.rows[i][j]) {
          errs := errs + [Error(EMPTY_CELL, Some(t.columns[j]), Some(i))];
        }
      }
    }
  }

  method CheckBoolColumn(t: Table, c: nat) returns (errs: seq<Error>)
    requires Rectangular(t) && c < |t.columns|
    ensures errs == BoolColumnErrors(t, c, |t.rows|)
  {
    errs := [];
    for i := 0 to |t.rows|
      invariant errs == BoolColumnErrors(t, c, i)
    {
      var (_, ok) := CoerceBool(t.rows[i][c]);
      if !ok {
        errs := errs + [Error(TYPE_INVALID, Some(t.columns[c]), Some(i))];
      }
    }
  }

  method CheckTypes(t: Table, rules: seq<(string, string)>) returns (errs: seq<Error>)
    requires Rectangular(t)
    ensures errs == TypeRuleErrors(t, rules, |rules|)
  {
    errs := [];
    for i := 0 to |rules|
      invariant errs == TypeRuleErrors(t, rules, i)
    {
      var (col, typeName) := rules[i];
      var isBool := col in t.columns && Lower(typeName) == "bool";
      assert TypeRuleErrors(t, rules, i + 1) ==
        errs + (if isBool then BoolColumnErrors(t, IndexOf(t.columns, col), |t.rows|) else []);
      if isBool {
        var more := CheckBoolColumn(t, IndexOf(t.columns, col));
        errs := errs + more;
      }
    }
  }

  method CheckEnumColumn(t: Table, rule: EnumRule, c: nat) returns (errs: seq<Error>)
    requires Rectangular(t) && c < |t.columns|
    ensures errs == EnumColumnErrors(t, rule, c, |t.rows|)
  {
    errs := [];
    for i := 0 to |t.rows|
      invariant errs == EnumColumnErrors(t, rule, c, i)
    {
      var v := t.rows[i][c];
      if IsEmpty(v) {
        if rule.required {
          errs := errs + [Error(MISSING_REQUIRED, Some(rule.column), Some(i))];
        }
      } else if !Allowed(v, rule.allowed) {
        errs := errs + [Error(ENUM_FAIL, Some(rule.column), Some(i))];
      }
    }
  }

  method CheckEnums(t: Table, rules: seq<EnumRule>) returns (errs: seq<Error>)
    requires Rectangular(t)
    ensures errs == EnumRuleErrors(t, rules, |rules|)
  {
    errs := [];
    for i := 0 to |rules|
      invariant errs == EnumRuleErrors(t, rules, i)
    {
      if rules[i].column in t.columns {
        var more := CheckEnumColumn(t, rules[i], IndexOf(t.columns, rules[i].column));
        errs := errs + more;
      }
    }
  }

  method CheckUniqueRule(t: Table, rule: UniqueRule, floatRepr: real -> string) returns (r: Result<seq<Error>, string>)
    requires Rectangular(t)
    ensures r.Failure? <==> UniqueRaises(t, rule)
    ensures r.Failure? ==> r.error == "AttributeError"
    ensures r.Success? ==> r.value == UniqueErrors(t, rule, floatRepr)
  {
    if |rule.columns| == 0 || exists k :: 0 <= k < |rule.columns| && rule.columns[k] !in t.columns {
      return Success([]);
    }
    if rule.caseInsensitive && exists i, j :: 0 <= i < j < |rule.columns| && rule.columns[i] == rule.columns[j] {
      return Failure("AttributeError");
    }
    var idx := KeyColumns(t, rule);
    var joined := Join(rule.columns, ',');
    var errs := [];
    for i := 0 to |t.rows|
      invariant errs == DuplicateErrors(t, idx, rule.caseInsensitive, floatRepr, joined, i)
    {
      if Duplicated(t, idx, rule.caseInsensitive, floatRepr, i) {
        errs := errs + [Error(DUPLICATE_ROW, Some(joined), Some(i))];
      }
    }
    r := Success(errs);
  }

  /** The unique rules in order; the first rule that raises ends the
      validation. */
  method CheckUnique(t: Table, rules: seq<UniqueRule>, floatRepr: real -> string) returns (r: Result<seq<Error>, string>)
    requires Rectangular(t)
    ensures r.Failure? <==> exists k :: 0 <= k < |rules| && UniqueRaises(t, rules[k])
    ensures r.Failure? ==> r.error == "AttributeError"
    ensures r.Success? ==> r.value == UniqueRuleErrors(t, rules, floatRepr, |rules|)
  {
    var errs := [];
    for i := 0 to |rules|
      invariant errs == UniqueRuleErrors(t, rules, floatRepr, i)
      invariant forall k :: 0 <= k < i ==> !UniqueRaises(t, rules[k])
    {
      var more := CheckUniqueRule(t, rules[i], floatRepr);
      if more.Failure? {
        return Failure(more.error);
      }
      errs := errs + more.value;
    }
    r := Success(errs);
  }

  /** `validate_csv_full`, for the checks modelled here. */
  method ValidateCsvFull(t: Table, cfg: Settings, floatRepr: real -> string) returns (r: Result<Report, string>)
    requires Rectangular(t)
    ensures r.Failure? <==> exists k :: 0 <= k < |cfg.uniqueRules| && UniqueRaises(t, cfg.uniqueRules[k])
    ensures r.Failure? ==> r.error == "AttributeError"
    ensures r.Success? ==> r.value == MakeReport(t, AllErrors(t, cfg, floatRepr), StatsOf(t, cfg, floatRepr), cfg)
  {
    var d := Checked(t, cfg);
    var headerErrors: seq<Error> := [];
    if cfg.noEmptyHeaders {
      headerErrors := CheckHeaders(d.columns);
    }
    var missing := CheckRequired(d.columns, cfg.requiredColumns);
    var emptyRows: seq<Error> := [];
    if cfg.noEmptyRows {
      emptyRows := CheckEmptyRows(d, cfg.stripWhitespace);
    }
    var emptyCells: seq<Error> := [];
    if cfg.noEmptyCells {
      emptyCells := CheckEmptyCells(d);
    }
    var typeErrors := CheckTypes(d, cfg.typeRules);
    var enumErrors := CheckEnums(d, cfg.enumRules);
    var unique := CheckUnique(d, cfg.uniqueRules, floatRepr);
    if unique.Failure? {
      return Failure(unique.error);
    }
    var duplicates := unique.value;
    var errors := headerErrors + SizeErrors(d, cfg) + missing + emptyRows + emptyCells + typeErrors + enumErrors + duplicates;
    StatsCountErrors(t, cfg, floatRepr);
    r := Success(Report(|errors| == 0, |t.rows|, t.columns, |errors|, 0, Take(errors, ErrorLimit(cfg)),
                     Stats(|emptyRows|, |emptyCells|, |duplicates|)));
  }
}
