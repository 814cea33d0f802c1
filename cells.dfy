/** Cell values of a data frame and the per-cell rules shared by the CSV
    validator (csv_validation.py) and the cleaner (backend/cleaning.py):
    emptiness, and the two boolean coercions. */
module Cells {
  import opened Wrappers
  import opened Text

  /** What a cell can hold: None, a float NaN, a bool, an int, a finite float
      or a string. */
  datatype Value = Null | NaN | Bool(b: bool) | Int(i: int) | Float(r: real) | Str(s: string)

  /** `pd.isna` on a cell. */
  predicate IsNA(v: Value) {
    v.Null? || v.NaN?
  }

  /** `_is_empty`: None, NaN, and strings that are empty once stripped. */
  function IsEmpty(v: Value): (e: bool)
    ensures e <==> v.Null? || v.NaN? || (v.Str? && AllSpace(v.s))
  {
    match v
    case Null => true
    case NaN => true
    case Str(s) => Strip(s) == ""
    case _ => false
  }

  /** A string cell with its surrounding whitespace removed; other cells as they are. */
  function StripCell(v: Value): Value {
    if v.Str? then Str(Strip(v.s)) else v
  }

  /** Stripping a cell does not change whether it is empty. */
  lemma StripCellKeepsEmpty(v: Value)
    ensures IsEmpty(StripCell(v)) == IsEmpty(v)
  {
    if v.Str? {
      StripIdempotent(v.s);
    }
  }

  const TRUE_WORDS: set<string> := {"true", "t", "1", "yes", "y"}
  const FALSE_WORDS: set<string> := {"false", "f", "0", "no", "n"}

  /** The stripped, lower-cased text a string is compared with the word sets as. */
  function Word(s: string): string {
    Lower(Strip(s))
  }

  /** The boolean a stripped, lower-cased word names, if any. */
  function WordValue(w: string): Option<bool> {
    if w in TRUE_WORDS then Some(true)
    else if w in FALSE_WORDS then Some(false)
    else None
  }

  /** `_coerce_bool`: the boolean read from a cell, if any, and whether the
      cell is acceptable as a boolean. */
  function CoerceBool(v: Value): (Option<bool>, bool) {
    if IsEmpty(v) then (None, true)
    else match v
      case Bool(b) => (Some(b), true)
      case Int(i) => (Some(i != 0), true)
      case Float(r) => (Some(r != 0.0), true)
      case Str(s) => (WordValue(Word(s)), WordValue(Word(s)).Some?)
      case _ => (None, false)
  }

  /** `int(x)` on a float: truncation toward zero. */
  function Trunc(r: real): int {
    if r >= 0.0 then r.Floor else -((-r).Floor)
  }

  /** Truncation is zero exactly on the open interval (-1, 1). */
  lemma TruncZero(r: real)
    ensures Trunc(r) == 0 <==> -1.0 < r < 1.0
  {
  }

  /** The cleaner's `to_bool`: None stands for the NaN it returns. */
  function ToBool(v: Value): Option<bool> {
    match v
    case Null => None
    case NaN => None
    case Bool(b) => Some(b)
    case Int(i) => Some(i != 0)
    case Float(r) => Some(Trunc(r) != 0)
    case Str(s) => WordValue(Word(s))
  }

  /** A cell is refused as a boolean exactly when it is a non-blank string
      outside both word sets. */
  lemma CoerceBoolRefuses(v: Value)
    ensures !CoerceBool(v).1 <==> v.Str? && !AllSpace(v.s) && Word(v.s) !in TRUE_WORDS && Word(v.s) !in FALSE_WORDS
    ensures !CoerceBool(v).1 ==> CoerceBool(v).0 == None
  {
  }

  /** Reading a word twice changes nothing, and a word is blank exactly when
      the text it came from is. */
  lemma {:induction false} WordIdempotent(s: string)
    ensures Word(Word(s)) == Word(s)
    ensures Strip(Word(s)) == [] <==> Strip(s) == []
  {
    StripLowerCommute(Strip(s));
    StripIdempotent(s);
    LowerIdempotent(Strip(s));
  }

  /** A string cell coerces by its word alone, once it is not blank. */
  lemma CoerceStr(x: string)
    ensures CoerceBool(Str(x)) == if Strip(x) == [] then (None, true) else (WordValue(Word(x)), WordValue(Word(x)).Some?)
    ensures ToBool(Str(x)) == WordValue(Word(x))
  {
    assert IsEmpty(Str(x)) == (Strip(x) == []);
  }

  /** Case and surrounding whitespace do not matter: a string coerces as its
      stripped, lower-cased form does, in both coercions. */
  lemma CoercionIgnoresCaseAndSpace(s: string)
    ensures CoerceBool(Str(s)) == CoerceBool(Str(Word(s)))
    ensures ToBool(Str(s)) == ToBool(Str(Word(s)))
  {
    WordIdempotent(s);
    CoerceStr(s);
    CoerceStr(Word(s));
  }

  /** The validator's and the cleaner's readings agree on every cell except a
      float strictly between -1 and 1 other than zero: `bool(x)` is true there
      but `bool(int(x))` is false. */
  lemma CoercionsAgree(v: Value)
    requires !(v.Float? && v.r != 0.0 && -1.0 < v.r < 1.0)
    ensures CoerceBool(v).0 == ToBool(v)
  {
    match v
    case Float(r) =>
      TruncZero(r);
      assert !IsEmpty(v);
      assert CoerceBool(v).0 == Some(r != 0.0);
      assert ToBool(v) == Some(Trunc(r) != 0);
      assert (Trunc(r) != 0) == (r != 0.0);
    case Str(s) =>
      assert ToBool(v) == WordValue(Word(s));
    case _ =>
  }

  lemma CoercionsDisagreeOnFractions(r: real)
    requires r != 0.0 && -1.0 < r < 1.0
    ensures CoerceBool(Float(r)).0 == Some(true) && ToBool(Float(r)) == Some(false)
  {
    TruncZero(r);
  }

  /** How cells compare as dictionary keys and with `==`: a bool, an int and a
      float are equal when they are the same number; None and NaN are one
      missing key. */
  datatype Key = KMissing | KNum(x: real) | KStr(s: string)

  function KeyOf(v: Value): Key {
    match v
    case Null => KMissing
    case NaN => KMissing
    case Bool(b) => KNum(if b then 1.0 else 0.0)
    case Int(i) => KNum(i as real)
    case Float(r) => KNum(r)
    case Str(s) => KStr(s)
  }

  /** Python's `a == b` for cells that are not empty. */
  predicate SameValue(a: Value, b: Value) {
    KeyOf(a) == KeyOf(b)
  }

  /** A data frame: column labels and rows of cells. Row labels are the
      positions 0, 1, 2, ... of a frame read from a CSV file. */
  datatype Table = Table(columns: seq<string>, rows: seq<seq<Value>>)

  /** Every row has one cell per column. */
  predicate Rectangular(t: Table) {
    forall r :: 0 <= r < |t.rows| ==> |t.rows[r]| == |t.columns|
  }

  /** Labels are distinct, as in a frame read from a CSV file. */
  predicate DistinctLabels(t: Table) {
    forall i, j :: 0 <= i < j < |t.columns| ==> t.columns[i] != t.columns[j]
  }

  /** The position of label `c`. */
  function IndexOf(cols: seq<string>, c: string): (k: nat)
    requires c in cols
    ensures k < |cols| && cols[k] == c
    ensures forall j :: 0 <= j < k ==> cols[j] != c
  {
    if cols[0] == c then 0 else 1 + IndexOf(cols[1..], c)
  }
}
