/** The row- and column-dropping part of the cleaner (backend/cleaning.py):
    column-name normalisation, trimming, dropping empty rows and columns,
    dropping named columns, dropping rows with missing values, removing rows
    with negative numbers, deduplication, and the counts `clean_df` reports. */
module Cleaning {
  import opened Wrappers
  import opened Text
  import opened Cells

  // ---------------------------------------------------------------------------
  // normalize_colname

  /** `str.isalnum` on ASCII letters and digits. */
  predicate IsAlnum(c: char) {
    'a' <= c <= 'z' || 'A' <= c <= 'Z' || '0' <= c <= '9'
  }

  /** A character a normalised name may hold: a lower-case ASCII letter, a
      digit or `_`. */
  predicate NameChar(c: char) {
    'a' <= c <= 'z' || '0' <= c <= '9' || c == '_'
  }

  /** `s.replace(" ", "_")` */
  function SpacesToUnderscores(s: string): (r: string)
    ensures |r| == |s| && forall k :: 0 <= k < |s| ==> r[k] == if s[k] == ' ' then '_' else s[k]
  {
    if s == [] then [] else [if s[0] == ' ' then '_' else s[0]] + SpacesToUnderscores(s[1..])
  }

  /** `"".join(ch for ch in s if ch.isalnum() or ch == "_")` */
  function KeepNameChars(s: string): (r: string)
    ensures forall k :: 0 <= k < |r| ==> (IsAlnum(r[k]) || r[k] == '_') && r[k] in s
    ensures (forall k :: 0 <= k < |s| ==> IsAlnum(s[k]) || s[k] == '_') ==> r == s
  {
    if s == [] then []
    else
      var head := if IsAlnum(s[0]) || s[0] == '_' then [s[0]] else [];
      var rest := KeepNameChars(s[1..]);
      assert forall k :: 0 <= k < |rest| ==> rest[k] in s by {
        assert forall x :: x in s[1..] ==> x in s;
      }
      head + rest
  }

  /** `"__" in s` */
  predicate HasDouble(s: string) {
    |s| >= 2 && ((s[0] == '_' && s[1] == '_') || HasDouble(s[1..]))
  }

  /** `s.replace("__", "_")`: non-overlapping pairs, left to right. */
  function ReplaceDouble(s: string): (r: string)
    ensures |r| <= |s|
    ensures |s| > 0 ==> |r| > 0 && r[0] == s[0]
    ensures HasDouble(s) ==> |r| < |s|
  {
    if |s| >= 2 && s[0] == '_' && s[1] == '_' then "_" + ReplaceDouble(s[2..])
    else if s == [] then []
    else [s[0]] + ReplaceDouble(s[1..])
  }

  /** Every run of underscores collapsed to one. */
  function Squeeze(s: string): (r: string)
    ensures |s| > 0 ==> |r| > 0 && r[0] == s[0]
    ensures forall k :: 0 <= k < |r| ==> r[k] in s
  {
    if |s| >= 2 && s[0] == '_' && s[1] == '_' then Squeeze(s[1..])
    else if s == [] then []
    else [s[0]] + Squeeze(s[1..])
  }

  /** One pass of `replace("__", "_")` leaves the collapsed form as it was. */
  lemma {:induction false} SqueezeReplaceDouble(s: string)
    ensures Squeeze(ReplaceDouble(s)) == Squeeze(s)
  {
    if |s| >= 2 && s[0] == '_' && s[1] == '_' {
      var t := s[2..];
      SqueezeReplaceDouble(t);
      assert s[1..] == "_" + t;
      assert ReplaceDouble(s) == "_" + ReplaceDouble(t);
    } else if s != [] {
      SqueezeReplaceDouble(s[1..]);
      assert ReplaceDouble(s) == [s[0]] + ReplaceDouble(s[1..]);
    }
  }

  /** A string without "__" is its own collapsed form. */
  lemma {:induction false} SqueezeFixed(s: string)
    requires !HasDouble(s)
    ensures Squeeze(s) == s
  {
    if s != [] {
      SqueezeFixed(s[1..]);
      assert [s[0]] + s[1..] == s;
    }
  }

  /** The collapsed form never holds "__". */
  lemma {:induction false} SqueezeNoDouble(s: string)
    ensures !HasDouble(Squeeze(s))
  {
    if |s| >= 2 && s[0] == '_' && s[1] == '_' {
      SqueezeNoDouble(s[1..]);
    } else if s != [] {
      SqueezeNoDouble(s[1..]);
      var r := Squeeze(s);
      assert r[1..] == Squeeze(s[1..]);
    }
  }

  /** What `normalize_colname` computes: strip, lower-case, spaces to
      underscores, keep letters, digits and underscores, collapse runs of
      underscores. */
  function NormalizedName(c: string): string {
    Squeeze(KeepNameChars(SpacesToUnderscores(Lower(Strip(c)))))
  }

  /** `normalize_colname`, with its `while "__" in c2` loop. */
  method NormalizeColname(c: string) returns (r: string)
    ensures r == NormalizedName(c)
  {
    var c2 := KeepNameChars(SpacesToUnderscores(Lower(Strip(c))));
    ghost var start := c2;
    while HasDouble(c2)
      invariant Squeeze(c2) == Squeeze(start)
      decreases |c2|
    {
      SqueezeReplaceDouble(c2);
      c2 := ReplaceDouble(c2);
    }
    SqueezeFixed(c2);
    r := c2;
  }

  predicate NoUpper(s: string) {
    forall k :: 0 <= k < |s| ==> !('A' <= s[k] <= 'Z')
  }

  predicate AllNameChars(s: string) {
    forall k :: 0 <= k < |s| ==> NameChar(s[k])
  }

  lemma LoweredNoUpper(s: string)
    ensures NoUpper(SpacesToUnderscores(Lower(s)))
  {
    var l := Lower(s);
    var u := SpacesToUnderscores(l);
    forall k | 0 <= k < |u| ensures !('A' <= u[k] <= 'Z') {
      assert l[k] == LowerChar(s[k]);
    }
  }

  lemma KeptNameChars(s: string)
    requires NoUpper(s)
    ensures AllNameChars(KeepNameChars(s))
  {
    var r := KeepNameChars(s);
    forall k | 0 <= k < |r| ensures NameChar(r[k]) {
      assert r[k] in s;
      var j :| 0 <= j < |s| && s[j] == r[k];
    }
  }

  lemma SqueezeNameChars(s: string)
    requires AllNameChars(s)
    ensures AllNameChars(Squeeze(s))
  {
    var r := Squeeze(s);
    forall k | 0 <= k < |r| ensures NameChar(r[k]) {
      assert r[k] in s;
      var j :| 0 <= j < |s| && s[j] == r[k];
    }
  }

  /** A normalised name holds only lower-case ASCII letters, digits and `_`,
      and never "__". */
  lemma NormalizedNameShape(c: string)
    ensures AllNameChars(NormalizedName(c))
    ensures !HasDouble(NormalizedName(c))
  {
    var lowered := SpacesToUnderscores(Lower(Strip(c)));
    LoweredNoUpper(Strip(c));
    KeptNameChars(lowered);
    SqueezeNameChars(KeepNameChars(lowered));
    SqueezeNoDouble(KeepNameChars(lowered));
  }

  /** Lower-casing leaves a string of name characters as it is. */
  lemma NameCharsLowered(n: string)
    requires AllNameChars(n)
    ensures Lower(n) == n
  {
    var l := Lower(n);
    forall k | 0 <= k < |n| ensures l[k] == n[k] {
      assert NameChar(n[k]);
    }
  }

  /** So does replacing spaces, and so does keeping only name characters. */
  lemma NameCharsKept(n: string)
    requires AllNameChars(n)
    ensures SpacesToUnderscores(n) == n
    ensures KeepNameChars(n) == n
  {
    var u := SpacesToUnderscores(n);
    forall k | 0 <= k < |n| ensures u[k] == n[k] && (IsAlnum(n[k]) || n[k] == '_') {
      assert NameChar(n[k]);
    }
  }

  /** A string of name characters passes each of the first four steps unchanged. */
  lemma NameCharsFixed(n: string)
    requires AllNameChars(n)
    ensures KeepNameChars(SpacesToUnderscores(Lower(Strip(n)))) == n
  {
    if n != [] {
      assert NameChar(n[0]) && NameChar(n[|n| - 1]);
    }
    StripUnchanged(n);
    NameCharsLowered(n);
    NameCharsKept(n);
  }

  /** Normalising a normalised name changes nothing. */
  lemma NormalizeIdempotent(c: string)
    ensures NormalizedName(NormalizedName(c)) == NormalizedName(c)
  {
    var n := NormalizedName(c);
    NormalizedNameShape(c);
    NameCharsFixed(n);
    SqueezeFixed(n);
  }

  // ---------------------------------------------------------------------------
  // Tables

  /** A cell `df.replace({"": np.nan}).isna()` reports as missing. */
  predicate Missing(v: Value) {
    IsNA(v) || v == Str("")
  }

  /** The rows `drop` does not select, in their order. */
  function FilterRows(rows: seq<seq<Value>>, drop: seq<Value> -> bool): (r: seq<seq<Value>>)
    ensures |r| <= |rows|
  {
    if rows == [] then []
    else FilterRows(rows[..|rows| - 1], drop) + (if drop(rows[|rows| - 1]) then [] else [rows[|rows| - 1]])
  }

  /** The filter keeps exactly the rows `drop` does not select. */
  lemma {:induction false} FilterRowsMembers(rows: seq<seq<Value>>, drop: seq<Value> -> bool)
    ensures forall k :: 0 <= k < |FilterRows(rows, drop)| ==>
      FilterRows(rows, drop)[k] in rows && !drop(FilterRows(rows, drop)[k])
    ensures forall i :: 0 <= i < |rows| && !drop(rows[i]) ==> rows[i] in FilterRows(rows, drop)
  {
    if rows != [] {
      var prev := rows[..|rows| - 1];
      FilterRowsMembers(prev, drop);
      assert forall i :: 0 <= i < |prev| ==> prev[i] == rows[i];
    }
  }

  /** Filtering keeps every row's width. */
  lemma FilterRowsRectangular(t: Table, drop: seq<Value> -> bool)
    requires Rectangular(t)
    ensures Rectangular(Table(t.columns, FilterRows(t.rows, drop)))
  {
    FilterRowsMembers(t.rows, drop);
  }

  /** The positions below `n` that satisfy `p`, in increasing order. */
  function Positions(n: nat, p: nat -> bool): (r: seq<nat>)
    ensures forall k :: 0 <= k < |r| ==> r[k] < n && p(r[k])
  {
    if n == 0 then [] else Positions(n - 1, p) + (if p(n - 1) then [n - 1] else [])
  }

  /** Every position below `n` that satisfies `p` is listed. */
  lemma {:induction false} PositionsComplete(n: nat, p: nat -> bool)
    ensures forall j :: 0 <= j < n && p(j) ==> j in Positions(n, p)
  {
    if n > 0 {
      PositionsComplete(n - 1, p);
    }
  }

  /** The positions come in increasing order. */
  lemma {:induction false} PositionsAscending(n: nat, p: nat -> bool)
    ensures forall a, b :: 0 <= a < b < |Positions(n, p)| ==> Positions(n, p)[a] < Positions(n, p)[b]
  {
    if n > 0 {
      PositionsAscending(n - 1, p);
    }
  }

  /** Every position below `n` is selected by exactly one of `p` and `q`. */
  lemma {:induction false} PositionsSplit(n: nat, p: nat -> bool, q: nat -> bool)
    requires forall i :: 0 <= i < n ==> q(i) == !p(i)
    ensures |Positions(n, p)| + |Positions(n, q)| == n
  {
    if n > 0 {
      PositionsSplit(n - 1, p, q);
      assert q(n - 1) == !p(n - 1);
    }
  }

  /** The rows at positions `ps`, in that order. */
  function RowsAt(rows: seq<seq<Value>>, ps: seq<nat>): (r: seq<seq<Value>>)
    requires forall k :: 0 <= k < |ps| ==> ps[k] < |rows|
    ensures |r| == |ps|
  {
    if ps == [] then [] else RowsAt(rows, ps[..|ps| - 1]) + [rows[ps[|ps| - 1]]]
  }

  /** Entry `k` is the row at position `ps[k]`. */
  lemma {:induction false} RowsAtIndex(rows: seq<seq<Value>>, ps: seq<nat>)
    requires forall k :: 0 <= k < |ps| ==> ps[k] < |rows|
    ensures forall k :: 0 <= k < |ps| ==> RowsAt(rows, ps)[k] == rows[ps[k]]
  {
    if ps != [] {
      RowsAtIndex(rows, ps[..|ps| - 1]);
    }
  }

  /** Filtering the first `n` rows keeps, in order, the rows at the positions
      `keep` selects. */
  lemma {:induction false} FilterRowsAt(rows: seq<seq<Value>>, drop: seq<Value> -> bool, keep: nat -> bool, n: nat)
    requires n <= |rows|
    requires forall i :: 0 <= i < n ==> keep(i) == !drop(rows[i])
    ensures FilterRows(rows[..n], drop) == RowsAt(rows, Positions(n, keep))
  {
    if n > 0 {
      FilterRowsAt(rows, drop, keep, n - 1);
      FilterRowsSnoc(rows, drop, n);
      var ps := Positions(n - 1, keep);
      if keep(n - 1) {
        assert Positions(n, keep) == ps + [n - 1];
        RowsAtSnoc(rows, ps, n - 1);
      } else {
        assert Positions(n, keep) == ps;
      }
    }
  }

  /** Filtering the first `n` rows loses one row per position `gone`
      selects. */
  lemma {:induction false} FilterRowsLoses(rows: seq<seq<Value>>, drop: seq<Value> -> bool, gone: nat -> bool, n: nat)
    requires n <= |rows|
    requires forall i :: 0 <= i < n ==> gone(i) == drop(rows[i])
    ensures |FilterRows(rows[..n], drop)| + |Positions(n, gone)| == n
  {
    if n > 0 {
      FilterRowsLoses(rows, drop, gone, n - 1);
      FilterRowsSnoc(rows, drop, n);
      assert gone(n - 1) == drop(rows[n - 1]);
    }
  }

  /** Filtering keeps exactly the rows `drop` does not select, in order, and
      loses one row per row it selects. */
  lemma FilterRowsExact(rows: seq<seq<Value>>, drop: seq<Value> -> bool, keep: nat -> bool, gone: nat -> bool)
    requires forall i :: 0 <= i < |rows| ==> keep(i) == !drop(rows[i])
    requires forall i :: 0 <= i < |rows| ==> gone(i) == drop(rows[i])
    ensures forall x :: x in FilterRows(rows, drop) ==> x in rows && !drop(x)
    ensures forall i :: 0 <= i < |rows| && !drop(rows[i]) ==> rows[i] in FilterRows(rows, drop)
    ensures FilterRows(rows, drop) == RowsAt(rows, Positions(|rows|, keep))
    ensures |rows| - |FilterRows(rows, drop)| == |Positions(|rows|, gone)|
  {
    FilterRowsMembers(rows, drop);
    assert rows[..|rows|] == rows;
    FilterRowsAt(rows, drop, keep, |rows|);
    FilterRowsLoses(rows, drop, gone, |rows|);
  }

  lemma FilterRowsSnoc(rows: seq<seq<Value>>, drop: seq<Value> -> bool, n: nat)
    requires 0 < n <= |rows|
    ensures FilterRows(rows[..n], drop) == FilterRows(rows[..n - 1], drop) + (if drop(rows[n - 1]) then [] else [rows[n - 1]])
  {
    assert rows[..n][..n - 1] == rows[..n - 1];
  }

  lemma RowsAtSnoc(rows: seq<seq<Value>>, ps: seq<nat>, x: nat)
    requires (forall k :: 0 <= k < |ps| ==> ps[k] < |rows|) && x < |rows|
    ensures RowsAt(rows, ps + [x]) == RowsAt(rows, ps) + [rows[x]]
  {
    assert (ps + [x])[..|ps|] == ps;
  }

  /** The frame restricted to the columns at `idx`, in that order. */
  function Project(t: Table, idx: seq<nat>): (r: Table)
    requires Rectangular(t) && forall k :: 0 <= k < |idx| ==> idx[k] < |t.columns|
    ensures Rectangular(r) && |r.rows| == |t.rows| && |r.columns| == |idx|
    ensures forall k :: 0 <= k < |idx| ==> r.columns[k] == t.columns[idx[k]]
  {
    Table(seq(|idx|, k requires 0 <= k < |idx| => t.columns[idx[k]]),
          seq(|t.rows|, i requires 0 <= i < |t.rows| => seq(|idx|, k requires 0 <= k < |idx| => t.rows[i][idx[k]])))
  }

  /** The positions of the columns whose label is in `names`. */
  function ColumnsNamed(t: Table, names: seq<string>): (idx: seq<nat>)
    ensures forall k :: 0 <= k < |idx| ==> idx[k] < |t.columns| && t.columns[idx[k]] in names
    ensures forall j :: 0 <= j < |t.columns| && t.columns[j] in names ==> j in idx
  {
    PositionsComplete(|t.columns|, (j: nat) => j < |t.columns| && t.columns[j] in names);
    Positions(|t.columns|, (j: nat) => j < |t.columns| && t.columns[j] in names)
  }

  // ---------------------------------------------------------------------------
  // The steps of clean_df

  /** `df.columns = [normalize_colname(str(c)) for c in df.columns]` */
  function NormalizeHeaders(t: Table): (r: Table)
    ensures r.rows == t.rows && |r.columns| == |t.columns|
    ensures forall k :: 0 <= k < |t.columns| ==> r.columns[k] == NormalizedName(t.columns[k])
  {
    Table(seq(|t.columns|, k requires 0 <= k < |t.columns| => NormalizedName(t.columns[k])), t.rows)
  }

  /** How many string cells of a row stripping changes. */
  function TrimmedInRow(row: seq<Value>): nat {
    if row == [] then 0
    else TrimmedInRow(row[..|row| - 1]) + (if StripCell(row[|row| - 1]) != row[|row| - 1] then 1 else 0)
  }

  function TrimmedCells(rows: seq<seq<Value>>): nat {
    if rows == [] then 0 else TrimmedCells(rows[..|rows| - 1]) + TrimmedInRow(rows[|rows| - 1])
  }

  /** The trim step: every string cell stripped, and the number changed. */
  function TrimStrings(t: Table): (r: (Table, nat))
    ensures r.0.columns == t.columns && |r.0.rows| == |t.rows|
    ensures forall i :: 0 <= i < |t.rows| ==> |r.0.rows[i]| == |t.rows[i]|
    ensures forall i, j :: 0 <= i < |t.rows| && 0 <= j < |t.rows[i]| ==> r.0.rows[i][j] == StripCell(t.rows[i][j])
  {
    (Table(t.columns, seq(|t.rows|, i requires 0 <= i < |t.rows| =>
                          seq(|t.rows[i]|, j requires 0 <= j < |t.rows[i]| => StripCell(t.rows[i][j])))),
     TrimmedCells(t.rows))
  }

  predicate BlankRow(row: seq<Value>) {
    forall k :: 0 <= k < |row| ==> Missing(row[k])
  }

  /** The `drop_empty_rows` step. */
  function DropBlankRows(t: Table): (r: Table)
    requires Rectangular(t)
    ensures Rectangular(r) && |r.rows| <= |t.rows|
  {
    FilterRowsRectangular(t, BlankRow);
    Table(t.columns, FilterRows(t.rows, BlankRow))
  }

  /** Every cell of column `j` is missing. */
  predicate BlankColumn(t: Table, j: nat) {
    forall i :: 0 <= i < |t.rows| && j < |t.rows[i]| ==> Missing(t.rows[i][j])
  }

  /** The `drop_empty_columns` step: the frame without its blank columns, and
      the labels that no longer name any column. */
  function DropBlankColumns(t: Table): (r: (Table, set<string>))
    requires Rectangular(t)
    ensures Rectangular(r.0) && |r.0.rows| == |t.rows|
  {
    var kept := Project(t, Positions(|t.columns|, (j: nat) => j < |t.columns| && !BlankColumn(t, j)));
    (kept, (set c | c in t.columns) - (set c | c in kept.columns))
  }

  /** `df.drop(columns=[c])`: every column labelled `c` removed. */
  function RemoveColumn(t: Table, c: string): (r: Table)
    requires Rectangular(t)
    ensures Rectangular(r) && |r.rows| == |t.rows| && c !in r.columns
    ensures forall d :: d in r.columns <==> d in t.columns && d != c
  {
    var idx := Positions(|t.columns|, (j: nat) => j < |t.columns| && t.columns[j] != c);
    PositionsComplete(|t.columns|, (j: nat) => j < |t.columns| && t.columns[j] != c);
    var r := Project(t, idx);
    assert forall d :: d in r.columns ==> d in t.columns && d != c;
    assert forall d :: d in t.columns && d != c ==> d in r.columns by {
      forall d | d in t.columns && d != c ensures d in r.columns {
        var j :| 0 <= j < |t.columns| && t.columns[j] == d;
        assert j < |t.columns| && t.columns[j] != c;
        assert j in idx;
        var k :| 0 <= k < |idx| && idx[k] == j;
        assert r.columns[k] == d;
      }
    }
    r
  }

  /** The names that label a column of `cols`, each at its first occurrence
      in `names`, in order. */
  function FirstPresent(names: seq<string>, cols: seq<string>): seq<string> {
    if names == [] then []
    else
      var prev := names[..|names| - 1];
      var c := names[|names| - 1];
      FirstPresent(prev, cols) + (if c in cols && c !in prev then [c] else [])
  }

  /** The `drop_columns` loop after its first `n` names: the frame, and the
      names dropped so far. */
  function DropNamed(t: Table, names: seq<string>): (r: (Table, seq<string>))
    requires Rectangular(t)
    ensures Rectangular(r.0) && |r.0.rows| == |t.rows|
  {
    if names == [] then (t, [])
    else
      var (t1, dropped) := DropNamed(t, names[..|names| - 1]);
      var c := names[|names| - 1];
      if c in t1.columns then (RemoveColumn(t1, c), dropped + [c]) else (t1, dropped)
  }

  /** A row with a missing value in a column labelled in `names` (any column
      when `names` is empty). */
  predicate HasNAIn(row: seq<Value>, cols: seq<string>, names: seq<string>) {
    exists k :: 0 <= k < |row| && k < |cols| && (names == [] || cols[k] in names) && IsNA(row[k])
  }

  /** The `drop_nulls` step; a subset naming an absent column raises KeyError. */
  function DropNulls(t: Table, subset: seq<string>): (r: Result<Table, string>)
    requires Rectangular(t)
    ensures r.Success? ==> Rectangular(r.value) && |r.value.rows| <= |t.rows|
  {
    if exists k :: 0 <= k < |subset| && subset[k] !in t.columns then Failure("KeyError")
    else
      var drop := row => HasNAIn(row, t.columns, subset);
      FilterRowsRectangular(t, drop);
      Success(Table(t.columns, FilterRows(t.rows, drop)))
  }

  /** `str.replace(",", "")` */
  function RemoveCommas(s: string): (r: string)
    ensures ',' !in r
  {
    if s == [] then [] else (if s[0] == ',' then [] else [s[0]]) + RemoveCommas(s[1..])
  }

  /** The number the negative-row check reads from a cell: numbers as they
      are, text through `toNumber` after removing commas. */
  function NumberOf(v: Value, toNumber: string -> Option<real>): Option<real> {
    match v
    case Int(i) => Some(i as real)
    case Float(r) => Some(r)
    case Str(s) => toNumber(RemoveCommas(s))
    case _ => None
  }

  predicate HasNegativeIn(row: seq<Value>, cols: seq<string>, targets: seq<string>, toNumber: string -> Option<real>) {
    exists k :: 0 <= k < |row| && k < |cols| && cols[k] in targets &&
      NumberOf(row[k], toNumber).Some? && NumberOf(row[k], toNumber).value < 0.0
  }

  /** A target that labels two columns: `df[c]` is then a frame, which is
      not numeric and has no `.str`, so `to_num` raises AttributeError. */
  predicate SharedTarget(cols: seq<string>, targets: seq<string>) {
    exists i, j :: 0 <= i < j < |cols| && cols[i] == cols[j] && cols[i] in targets
  }

  /** The `remove_negative_rows` step: the target columns are the given ones,
      or all columns when none are given. */
  function RemoveNegativeRows(t: Table, negativeColumns: seq<string>, toNumber: string -> Option<real>): (r: Result<Table, string>)
    requires Rectangular(t)
    ensures r.Success? ==> Rectangular(r.value) && |r.value.rows| <= |t.rows|
  {
    var targets := if negativeColumns != [] then negativeColumns else t.columns;
    if SharedTarget(t.columns, targets) then Failure("AttributeError")
    else
      var drop := row => HasNegativeIn(row, t.columns, targets, toNumber);
      FilterRowsRectangular(t, drop);
      Success(Table(t.columns, FilterRows(t.rows, drop)))
  }

  /** The key `drop_duplicates` compares rows by. */
  function RowKeyAt(row: seq<Value>, idx: seq<nat>): seq<Key>
    requires forall k :: 0 <= k < |idx| ==> idx[k] < |row|
  {
    seq(|idx|, k requires 0 <= k < |idx| => KeyOf(row[idx[k]]))
  }

  predicate FitsRows(rows: seq<seq<Value>>, idx: seq<nat>) {
    forall i, k :: 0 <= i < |rows| && 0 <= k < |idx| ==> idx[k] < |rows[i]|
  }

  /** `drop_duplicates(keep="first")` on rows: a row is kept when no earlier
      row has its key. */
  function DedupeRows(rows: seq<seq<Value>>, idx: seq<nat>): (r: seq<seq<Value>>)
    requires FitsRows(rows, idx)
    ensures |r| <= |rows|
  {
    if rows == [] then []
    else
      var prev := rows[..|rows| - 1];
      var last := rows[|rows| - 1];
      DedupeRows(prev, idx) +
      (if exists j :: 0 <= j < |prev| && RowKeyAt(prev[j], idx) == RowKeyAt(last, idx) then [] else [last])
  }

  /** Deduplication keeps only rows of its input. */
  lemma {:induction false} DedupeRowsMembers(rows: seq<seq<Value>>, idx: seq<nat>)
    requires FitsRows(rows, idx)
    ensures forall k :: 0 <= k < |DedupeRows(rows, idx)| ==> DedupeRows(rows, idx)[k] in rows
  {
    if rows != [] {
      var prev := rows[..|rows| - 1];
      DedupeRowsMembers(prev, idx);
      assert forall i :: 0 <= i < |prev| ==> prev[i] == rows[i];
    }
  }

  /** The `deduplicate` step. An empty frame is returned as it is; otherwise
      a subset naming an absent column raises KeyError and an empty subset
      raises ValueError; no subset means every column. */
  function Dedupe(t: Table, subset: Option<seq<string>>): (r: Result<Table, string>)
    requires Rectangular(t)
    ensures r.Success? ==> Rectangular(r.value) && r.value.columns == t.columns
  {
    if |t.rows| == 0 || |t.columns| == 0 then Success(t)
    else if subset.Some? && exists k :: 0 <= k < |subset.value| && subset.value[k] !in t.columns then Failure("KeyError")
    else if subset.Some? && subset.value == [] then Failure("ValueError")
    else
      var idx := if subset.None? then ColumnsNamed(t, t.columns) else ColumnsNamed(t, subset.value);
      var kept := DedupeRows(t.rows, idx);
      DedupeRowsMembers(t.rows, idx);
      assert forall k :: 0 <= k < |kept| ==> |kept[k]| == |t.columns|;
      Success(Table(t.columns, kept))
  }

  // ---------------------------------------------------------------------------
  // clean_df

  /** The options of `clean_df` this model covers; an empty list stands for
      both None and `[]`, which the code treats alike. */
  datatype CleanOptions = CleanOptions(
    normalizeColumns: bool,
    trimStrings: bool,
    dropEmptyRows: bool,
    dropEmptyColumns: bool,
    dropColumns: seq<string>,
    dropNulls: bool,
    dropNullsSubset: seq<string>,
    deduplicate: bool,
    dedupeSubset: Option<seq<string>>,
    removeNegativeRows: bool,
    negativeColumns: seq<string>)

  /** The `changes` record. `dropped_columns` is the labels in
      `emptyColumnsDropped`, in set order, followed by `droppedColumns`. */
  datatype Changes = Changes(
    trimmedStringCells: nat,
    droppedEmptyRows: nat,
    droppedEmptyColumns: nat,
    emptyColumnsDropped: set<string>,
    droppedColumns: seq<string>,
    droppedNullRows: nat,
    dedupedRows: nat,
    removedNegativeRows: nat)

  // Each step, run only when its option is set.

  function NormalizeStep(t: Table, on: bool): (r: Table)
    ensures Rectangular(t) ==> Rectangular(r)
  {
    if on then NormalizeHeaders(t) else t
  }

  /** With a label shared by two columns `df[c]` is a frame, which has no
      `dtype`, and the trim loop raises AttributeError. */
  function TrimStep(t: Table, on: bool): (r: Result<(Table, nat), string>)
    ensures r.Success? ==> (Rectangular(t) ==> Rectangular(r.value.0)) && |r.value.0.rows| == |t.rows|
  {
    if !on then Success((t, 0))
    else if !DistinctLabels(t) then Failure("AttributeError")
    else Success(TrimStrings(t))
  }

  function BlankRowsStep(t: Table, on: bool): (r: Table)
    requires Rectangular(t)
    ensures Rectangular(r) && |r.rows| <= |t.rows|
  {
    if on then DropBlankRows(t) else t
  }

  function BlankColumnsStep(t: Table, on: bool): (r: (Table, set<string>))
    requires Rectangular(t)
    ensures Rectangular(r.0) && |r.0.rows| == |t.rows|
  {
    if on then DropBlankColumns(t) else (t, {})
  }

  function NullsStep(t: Table, on: bool, subset: seq<string>): (r: Result<Table, string>)
    requires Rectangular(t)
    ensures r.Success? ==> Rectangular(r.value) && |r.value.rows| <= |t.rows|
  {
    if on then DropNulls(t, subset) else Success(t)
  }

  function NegativeStep(t: Table, on: bool, negativeColumns: seq<string>, toNumber: string -> Option<real>): (r: Result<Table, string>)
    requires Rectangular(t)
    ensures r.Success? ==> Rectangular(r.value) && |r.value.rows| <= |t.rows|
  {
    if on then RemoveNegativeRows(t, negativeColumns, toNumber) else Success(t)
  }

  function DedupeStep(t: Table, on: bool, subset: Option<seq<string>>): (r: Result<Table, string>)
    requires Rectangular(t)
    ensures r.Success? ==> Rectangular(r.value) && |r.value.rows| <= |t.rows|
  {
    if on then Dedupe(t, subset) else Success(t)
  }

  /** The column steps of `clean_df`, up to `drop_columns`: the frame, the
      cells trimmed, the empty rows dropped, the labels of the empty columns
      dropped, and the names dropped explicitly; or the error raised. */
  function ColumnSteps(t: Table, o: CleanOptions): (r: Result<(Table, nat, nat, set<string>, seq<string>), string>)
    requires Rectangular(t)
    ensures r.Success? ==> Rectangular(r.value.0) && |t.rows| - |r.value.0.rows| == r.value.2
  {
    var trim := TrimStep(NormalizeStep(t, o.normalizeColumns), o.trimStrings);
    if trim.Failure? then Failure(trim.error)
    else
      var t2 := trim.value.0;
      var t3 := BlankRowsStep(t2, o.dropEmptyRows);
      var emptyCols := BlankColumnsStep(t3, o.dropEmptyColumns);
      var named := DropNamed(emptyCols.0, o.dropColumns);
      Success((named.0, trim.value.1, |t2.rows| - |t3.rows|, emptyCols.1, named.1))
  }

  /** The row steps of `clean_df` after `drop_columns`: the frame and the
      rows dropped for nulls, removed as negative and deduplicated, or the
      error raised. */
  function RowSteps(t: Table, o: CleanOptions, toNumber: string -> Option<real>): (r: Result<(Table, nat, nat, nat), string>)
    requires Rectangular(t)
    ensures r.Success? ==> |t.rows| - |r.value.0.rows| == r.value.1 + r.value.2 + r.value.3
  {
    var r6 := NullsStep(t, o.dropNulls, o.dropNullsSubset);
    if r6.Failure? then Failure(r6.error)
    else
      var r7 := NegativeStep(r6.value, o.removeNegativeRows, o.negativeColumns, toNumber);
      if r7.Failure? then Failure(r7.error)
      else
      var t7 := r7.value;
      var r8 := DedupeStep(t7, o.deduplicate, o.dedupeSubset);
      if r8.Failure? then Failure(r8.error)
      else Success((r8.value, |t.rows| - |r6.value.rows|, |r6.value.rows| - |t7.rows|, |t7.rows| - |r8.value.rows|))
  }

  /** What `clean_df` returns, or the error it raises. */
  function CleanSpec(t: Table, o: CleanOptions, toNumber: string -> Option<real>): Result<(Table, Changes), string>
    requires Rectangular(t)
  {
    var cols := ColumnSteps(t, o);
    if cols.Failure? then Failure(cols.error)
    else
    var (t5, trimmed, emptyRows, emptyCols, dropped) := cols.value;
    var rows := RowSteps(t5, o, toNumber);
    if rows.Failure? then Failure(rows.error)
    else
      var (out, nulls, negative, duplicates) := rows.value;
      Success((out, Changes(trimmed, emptyRows, |emptyCols|, emptyCols, dropped, nulls, duplicates, negative)))
  }

  /** ColumnSteps once normalisation and trimming have left `t2`. */
  lemma ColumnStepsAfterTrim(t: Table, o: CleanOptions, t2: Table, trimmed: nat)
    requires Rectangular(t)
    requires TrimStep(NormalizeStep(t, o.normalizeColumns), o.trimStrings) == Success((t2, trimmed))
    ensures Rectangular(t2)
    ensures var t3 := BlankRowsStep(t2, o.dropEmptyRows);
      var emptyCols := BlankColumnsStep(t3, o.dropEmptyColumns);
      var named := DropNamed(emptyCols.0, o.dropColumns);
      ColumnSteps(t, o) == Success((named.0, trimmed, |t2.rows| - |t3.rows|, emptyCols.1, named.1))
  {
  }

  /** RowSteps fails with the error of `dropna` when that step fails. */
  lemma RowStepsNullsFailure(t: Table, o: CleanOptions, toNumber: string -> Option<real>)
    requires Rectangular(t) && NullsStep(t, o.dropNulls, o.dropNullsSubset).Failure?
    ensures RowSteps(t, o, toNumber) == Failure(NullsStep(t, o.dropNulls, o.dropNullsSubset).error)
  {
  }

  /** RowSteps fails with the error of the negative-row step when that step
      fails. */
  lemma RowStepsNegativeFailure(t: Table, o: CleanOptions, toNumber: string -> Option<real>, t6: Table)
    requires Rectangular(t) && NullsStep(t, o.dropNulls, o.dropNullsSubset).Success?
    requires t6 == NullsStep(t, o.dropNulls, o.dropNullsSubset).value
    requires NegativeStep(t6, o.removeNegativeRows, o.negativeColumns, toNumber).Failure?
    ensures RowSteps(t, o, toNumber) == Failure(NegativeStep(t6, o.removeNegativeRows, o.negativeColumns, toNumber).error)
  {
  }

  /** RowSteps fails with the error of `drop_duplicates` when that step fails. */
  lemma RowStepsDedupeFailure(t: Table, o: CleanOptions, toNumber: string -> Option<real>, t7: Table)
    requires Rectangular(t) && NullsStep(t, o.dropNulls, o.dropNullsSubset).Success?
    requires NegativeStep(NullsStep(t, o.dropNulls, o.dropNullsSubset).value, o.removeNegativeRows, o.negativeColumns, toNumber).Success?
    requires t7 == NegativeStep(NullsStep(t, o.dropNulls, o.dropNullsSubset).value, o.removeNegativeRows, o.negativeColumns, toNumber).value
    requires DedupeStep(t7, o.deduplicate, o.dedupeSubset).Failure?
    ensures RowSteps(t, o, toNumber) == Failure(DedupeStep(t7, o.deduplicate, o.dedupeSubset).error)
  {
  }

  /** CleanSpec from the results of its two stages. */
  lemma CleanSpecFrom(t: Table, o: CleanOptions, toNumber: string -> Option<real>,
                      cols: Result<(Table, nat, nat, set<string>, seq<string>), string>,
                      rows: Result<(Table, nat, nat, nat), string>)
    requires Rectangular(t) && cols == ColumnSteps(t, o)
    requires cols.Success? ==> rows == RowSteps(cols.value.0, o, toNumber)
    ensures cols.Failure? ==> CleanSpec(t, o, toNumber) == Failure(cols.error)
    ensures cols.Success? && rows.Failure? ==> CleanSpec(t, o, toNumber) == Failure(rows.error)
    ensures cols.Success? && rows.Success? ==>
      var c := cols.value;
      CleanSpec(t, o, toNumber) ==
        Success((rows.value.0, Changes(c.1, c.2, |c.3|, c.3, c.4, rows.value.1, rows.value.3, rows.value.2)))
  {
  }

  /** The `drop_columns` loop: each name that labels a column when its turn
      comes is dropped and reported. */
  method DropColumns(t: Table, names: seq<string>) returns (out: Table, dropped: seq<string>)
    requires Rectangular(t)
    ensures (out, dropped) == DropNamed(t, names)
  {
    out, dropped := t, [];
    for i := 0 to |names|
      invariant Rectangular(out)
      invariant (out, dropped) == DropNamed(t, names[..i])
    {
      assert names[..i + 1][..i] == names[..i];
      var c := names[i];
      if c in out.columns {
        out := RemoveColumn(out, c);
        dropped := dropped + [c];
      }
    }
    assert names[..|names|] == names;
  }

  /** The column steps of `clean_df`, reassigning the frame step by step. */
  method CleanColumns(t: Table, o: CleanOptions) returns (r: Result<(Table, nat, nat, set<string>, seq<string>), string>)
    requires Rectangular(t)
    ensures r == ColumnSteps(t, o)
  {
    var df := t;
    if o.normalizeColumns {
      df := NormalizeHeaders(df);
    }
    var trimmed := 0;
    if o.trimStrings {
      if !DistinctLabels(df) {
        return Failure("AttributeError");
      }
      var (stripped, n) := TrimStrings(df);
      df, trimmed := stripped, n;
    }
    ColumnStepsAfterTrim(t, o, df, trimmed);
    var beforeEmpty := |df.rows|;
    if o.dropEmptyRows {
      df := DropBlankRows(df);
    }
    var droppedEmptyRows := beforeEmpty - |df.rows|;
    var emptyCols := {};
    if o.dropEmptyColumns {
      var (kept, gone) := DropBlankColumns(df);
      df, emptyCols := kept, gone;
    }
    var dropped;
    df, dropped := DropColumns(df, o.dropColumns);
    r := Success((df, trimmed, droppedEmptyRows, emptyCols, dropped));
  }

  /** The row steps of `clean_df`: the frame and the rows dropped for nulls,
      removed as negative and deduplicated, or the error raised. */
  method CleanRows(t: Table, o: CleanOptions, toNumber: string -> Option<real>)
    returns (r: Result<(Table, nat, nat, nat), string>)
    requires Rectangular(t)
    ensures r == RowSteps(t, o, toNumber)
  {
    var nulls := Success(t);
    if o.dropNulls {
      nulls := DropNulls(t, o.dropNullsSubset);
    }
    if nulls.Failure? {
      return Failure(nulls.error);
    }
    var df := nulls.value;
    var droppedNullRows := |t.rows| - |df.rows|;
    var beforeNegative := |df.rows|;
    var negative := Success(df);
    if o.removeNegativeRows {
      negative := RemoveNegativeRows(df, o.negativeColumns, toNumber);
    }
    if negative.Failure? {
      return Failure(negative.error);
    }
    df := negative.value;
    var removedNegative := beforeNegative - |df.rows|;
    var beforeDedupe := |df.rows|;
    var res := Success(df);
    if o.deduplicate {
      res := Dedupe(df, o.dedupeSubset);
    }
    if res.Failure? {
      return Failure(res.error);
    }
    df := res.value;
    r := Success((df, droppedNullRows, removedNegative, beforeDedupe - |df.rows|));
  }

  /** `clean_df`: the column steps, then the row steps. */
  method CleanDf(t: Table, o: CleanOptions, toNumber: string -> Option<real>)
    returns (r: Result<(Table, Changes), string>)
    requires Rectangular(t)
    ensures r == CleanSpec(t, o, toNumber)
  {
    var cols := CleanColumns(t, o);
    if cols.Failure? {
      CleanSpecFrom(t, o, toNumber, cols, Failure(cols.error));
      return Failure(cols.error);
    }
    var (df, trimmed, droppedEmptyRows, emptyCols, dropped) := cols.value;
    var rows := CleanRows(df, o, toNumber);
    CleanSpecFrom(t, o, toNumber, cols, rows);
    if rows.Failure? {
      return Failure(rows.error);
    }
    var (out, nulls, negative, duplicates) := rows.value;
    r := Success((out, Changes(trimmed, droppedEmptyRows, |emptyCols|, emptyCols, dropped, nulls, duplicates, negative)));
  }

  // ---------------------------------------------------------------------------
  // What the steps promise

  /** Row bookkeeping: the rows lost are exactly those counted as dropped
      empty, dropped for nulls, removed as negative, and deduplicated. */
  lemma CleanBookkeeping(t: Table, o: CleanOptions, toNumber: string -> Option<real>)
    requires Rectangular(t) && CleanSpec(t, o, toNumber).Success?
    ensures var (out, ch) := CleanSpec(t, o, toNumber).value;
      |t.rows| - |out.rows| == ch.droppedEmptyRows + ch.droppedNullRows + ch.removedNegativeRows + ch.dedupedRows
  {
  }

  /** `drop_empty_rows` removes exactly the rows whose every cell is null or
      "", and keeps the others in order. */
  lemma DropBlankRowsExact(t: Table)
    requires Rectangular(t)
    ensures forall x :: x in DropBlankRows(t).rows ==> x in t.rows && !BlankRow(x)
    ensures forall i :: 0 <= i < |t.rows| && !BlankRow(t.rows[i]) ==> t.rows[i] in DropBlankRows(t).rows
    ensures DropBlankRows(t).columns == t.columns
    ensures DropBlankRows(t).rows == RowsAt(t.rows, Positions(|t.rows|, (i: nat) => i < |t.rows| && !BlankRow(t.rows[i])))
    ensures |t.rows| - |DropBlankRows(t).rows| == |Positions(|t.rows|, (i: nat) => i < |t.rows| && BlankRow(t.rows[i]))|
  {
    FilterRowsExact(t.rows, BlankRow, (i: nat) => i < |t.rows| && !BlankRow(t.rows[i]),
                    (i: nat) => i < |t.rows| && BlankRow(t.rows[i]));
  }

  /** `drop_columns` reports exactly the listed names that label a column,
      in list order, each at its first mention; none of the given names
      survives and every other column is kept. */
  lemma {:induction false} DropNamedExact(t: Table, names: seq<string>)
    requires Rectangular(t)
    ensures forall c :: c in DropNamed(t, names).1 <==> c in names && c in t.columns
    ensures DropNamed(t, names).1 == FirstPresent(names, t.columns)
    ensures forall c :: c in names ==> c !in DropNamed(t, names).0.columns
    ensures forall c :: c in DropNamed(t, names).0.columns <==> c in t.columns && c !in names
  {
    if names != [] {
      DropNamedExact(t, names[..|names| - 1]);
      assert names == names[..|names| - 1] + [names[|names| - 1]];
    }
  }

  /** Names the explicit drop reports come after those of the empty-column
      drop in `dropped_columns`, and each is reported at most once. */
  lemma {:induction false} DropNamedOnce(t: Table, names: seq<string>)
    requires Rectangular(t)
    ensures forall a, b :: 0 <= a < b < |DropNamed(t, names).1| ==> DropNamed(t, names).1[a] != DropNamed(t, names).1[b]
  {
    if names != [] {
      DropNamedOnce(t, names[..|names| - 1]);
      DropNamedExact(t, names[..|names| - 1]);
    }
  }

  /** Rows keep their first occurrence only: the kept rows have pairwise
      different keys. */
  lemma {:induction false} DedupeDistinct(rows: seq<seq<Value>>, idx: seq<nat>)
    requires FitsRows(rows, idx)
    ensures var r := DedupeRows(rows, idx);
      FitsRows(r, idx) && forall a, b :: 0 <= a < b < |r| ==> RowKeyAt(r[a], idx) != RowKeyAt(r[b], idx)
  {
    if rows != [] {
      var prev := rows[..|rows| - 1];
      DedupeDistinct(prev, idx);
      DedupeRowsMembers(prev, idx);
      DedupeRowsMembers(rows, idx);
    }
  }

  /** Every key of the input survives: some kept row has it, namely the
      first row that had it. */
  lemma {:induction false} DedupeCovers(rows: seq<seq<Value>>, idx: seq<nat>, i: nat)
    requires FitsRows(rows, idx) && i < |rows|
    ensures exists j :: 0 <= j <= i && rows[j] in DedupeRows(rows, idx) && RowKeyAt(rows[j], idx) == RowKeyAt(rows[i], idx)
  {
    var prev := rows[..|rows| - 1];
    var last := rows[|rows| - 1];
    var kept := DedupeRows(prev, idx);
    var seen := exists j :: 0 <= j < |prev| && RowKeyAt(prev[j], idx) == RowKeyAt(last, idx);
    assert DedupeRows(rows, idx) == kept + (if seen then [] else [last]);
    if i < |rows| - 1 {
      DedupeCovers(prev, idx, i);
      var j :| 0 <= j <= i && prev[j] in kept && RowKeyAt(prev[j], idx) == RowKeyAt(prev[i], idx);
      assert rows[j] == prev[j];
    } else if seen {
      var j :| 0 <= j < |prev| && RowKeyAt(prev[j], idx) == RowKeyAt(last, idx);
      DedupeCovers(prev, idx, j);
      var j2 :| 0 <= j2 <= j && prev[j2] in kept && RowKeyAt(prev[j2], idx) == RowKeyAt(prev[j], idx);
      assert rows[j2] == prev[j2];
    } else {
      assert rows[i] == last;
    }
  }

  /** Some row before row `i` has its key. */
  predicate RepeatsKey(rows: seq<seq<Value>>, idx: seq<nat>, i: nat)
    requires FitsRows(rows, idx) && i < |rows|
  {
    exists j :: 0 <= j < i && RowKeyAt(rows[j], idx) == RowKeyAt(rows[i], idx)
  }

  /** Row `i` is the first row with its key. */
  predicate FirstOfKey(rows: seq<seq<Value>>, idx: seq<nat>, i: nat)
    requires FitsRows(rows, idx) && i < |rows|
  {
    !RepeatsKey(rows, idx, i)
  }

  lemma DedupeRowsSnoc(rows: seq<seq<Value>>, idx: seq<nat>, n: nat, isFirst: bool)
    requires FitsRows(rows, idx) && 0 < n <= |rows|
    requires isFirst == FirstOfKey(rows, idx, n - 1)
    ensures FitsRows(rows[..n], idx) && FitsRows(rows[..n - 1], idx)
    ensures DedupeRows(rows[..n], idx) == DedupeRows(rows[..n - 1], idx) + (if isFirst then [rows[n - 1]] else [])
  {
    var pre := rows[..n];
    assert pre[..n - 1] == rows[..n - 1];
    assert forall j :: 0 <= j < n - 1 ==> pre[..n - 1][j] == rows[j];
  }

  /** One more row: the kept rows grow by that row exactly when it is the
      first with its key. */
  lemma DedupeRowsAtStep(rows: seq<seq<Value>>, idx: seq<nat>, ps: seq<nat>, n: nat, isFirst: bool)
    requires FitsRows(rows, idx) && 0 < n <= |rows| && forall k :: 0 <= k < |ps| ==> ps[k] < |rows|
    requires isFirst == FirstOfKey(rows, idx, n - 1)
    requires FitsRows(rows[..n - 1], idx)
    requires DedupeRows(rows[..n - 1], idx) == RowsAt(rows, ps)
    ensures DedupeRows(rows[..n], idx) == RowsAt(rows, ps + (if isFirst then [n - 1] else []))
  {
    DedupeRowsSnoc(rows, idx, n, isFirst);
    if isFirst {
      RowsAtSnoc(rows, ps, n - 1);
    } else {
      assert ps + [] == ps;
    }
  }

  /** De-duplicating the first `n` rows keeps, in order, the rows at the
      positions `first` selects. */
  lemma {:induction false} DedupeRowsAt(rows: seq<seq<Value>>, idx: seq<nat>, first: nat -> bool, n: nat)
    requires FitsRows(rows, idx) && n <= |rows|
    requires forall i :: 0 <= i < n ==> first(i) == FirstOfKey(rows, idx, i)
    ensures FitsRows(rows[..n], idx)
    ensures DedupeRows(rows[..n], idx) == RowsAt(rows, Positions(n, first))
  {
    if n > 0 {
      DedupeRowsAt(rows, idx, first, n - 1);
      DedupeRowsAtStep(rows, idx, Positions(n - 1, first), n, first(n - 1));
    }
  }

  /** `keep="first"`: the kept rows are the first rows of their keys, in
      their original order, and the rows lost are those whose key appeared
      earlier. */
  lemma DedupeRowsExact(rows: seq<seq<Value>>, idx: seq<nat>)
    requires FitsRows(rows, idx)
    ensures DedupeRows(rows, idx) == RowsAt(rows, Positions(|rows|, (i: nat) => i < |rows| && FirstOfKey(rows, idx, i)))
    ensures |rows| - |DedupeRows(rows, idx)| == |Positions(|rows|, (i: nat) => i < |rows| && RepeatsKey(rows, idx, i))|
  {
    assert rows[..|rows|] == rows;
    DedupeRowsAt(rows, idx, (i: nat) => i < |rows| && FirstOfKey(rows, idx, i), |rows|);
    PositionsSplit(|rows|, (i: nat) => i < |rows| && FirstOfKey(rows, idx, i), (i: nat) => i < |rows| && RepeatsKey(rows, idx, i));
  }

  /** A label is reported by `drop_empty_columns` exactly when every column
      it labels is blank; every column kept has a value somewhere. */
  lemma DropBlankColumnsExact(t: Table, c: string)
    requires Rectangular(t)
    ensures c in DropBlankColumns(t).1 <==>
      c in t.columns && forall j :: 0 <= j < |t.columns| && t.columns[j] == c ==> BlankColumn(t, j)
  {
    var keep := (j: nat) => j < |t.columns| && !BlankColumn(t, j);
    ProjectedLabels(t, keep, c);
    assert DropBlankColumns(t).0 == Project(t, Positions(|t.columns|, keep));
  }

  /** A label survives a projection onto the positions satisfying `p`
      exactly when some column with that label satisfies `p`. */
  lemma ProjectedLabels(t: Table, p: nat -> bool, c: string)
    requires Rectangular(t)
    ensures c in Project(t, Positions(|t.columns|, p)).columns <==>
      exists j :: 0 <= j < |t.columns| && t.columns[j] == c && p(j)
  {
    var idx := Positions(|t.columns|, p);
    PositionsComplete(|t.columns|, p);
    var kept := Project(t, idx);
    if c in kept.columns {
      var k :| 0 <= k < |kept.columns| && kept.columns[k] == c;
      assert t.columns[idx[k]] == c && p(idx[k]);
    }
    if exists j :: 0 <= j < |t.columns| && t.columns[j] == c && p(j) {
      var j :| 0 <= j < |t.columns| && t.columns[j] == c && p(j);
      assert j in idx;
      var k :| 0 <= k < |idx| && idx[k] == j;
      assert kept.columns[k] == c;
    }
  }

  /** `dropna` raises KeyError exactly when the subset names an absent
      column; otherwise it keeps exactly the rows with no null in the subset
      columns (in any column when the subset is empty). */
  lemma DropNullsExact(t: Table, subset: seq<string>)
    requires Rectangular(t)
    ensures DropNulls(t, subset).Failure? <==> exists c :: c in subset && c !in t.columns
    ensures DropNulls(t, subset).Success? ==>
      var out := DropNulls(t, subset).value;
      && out.columns == t.columns
      && (forall x :: x in out.rows ==> x in t.rows && !HasNAIn(x, t.columns, subset))
      && (forall i :: 0 <= i < |t.rows| && !HasNAIn(t.rows[i], t.columns, subset) ==> t.rows[i] in out.rows)
      && out.rows == RowsAt(t.rows, Positions(|t.rows|, (i: nat) => i < |t.rows| && !HasNAIn(t.rows[i], t.columns, subset)))
      && |t.rows| - |out.rows| == |Positions(|t.rows|, (i: nat) => i < |t.rows| && HasNAIn(t.rows[i], t.columns, subset))|
  {
    if DropNulls(t, subset).Success? {
      var drop := row => HasNAIn(row, t.columns, subset);
      FilterRowsExact(t.rows, drop, (i: nat) => i < |t.rows| && !HasNAIn(t.rows[i], t.columns, subset),
                      (i: nat) => i < |t.rows| && HasNAIn(t.rows[i], t.columns, subset));
    }
  }

  /** The step raises AttributeError exactly when a target labels two
      columns; otherwise a row is removed exactly when one of the target
      columns holds a number below zero, and the others are kept in order. */
  lemma RemoveNegativeRowsExact(t: Table, negativeColumns: seq<string>, toNumber: string -> Option<real>)
    requires Rectangular(t)
    ensures var targets := if negativeColumns != [] then negativeColumns else t.columns;
      RemoveNegativeRows(t, negativeColumns, toNumber).Failure? <==> SharedTarget(t.columns, targets)
    ensures RemoveNegativeRows(t, negativeColumns, toNumber).Failure? ==>
      RemoveNegativeRows(t, negativeColumns, toNumber).error == "AttributeError"
    ensures RemoveNegativeRows(t, negativeColumns, toNumber).Success? ==>
      var targets := if negativeColumns != [] then negativeColumns else t.columns;
      var out := RemoveNegativeRows(t, negativeColumns, toNumber).value;
      && out.columns == t.columns
      && (forall x :: x in out.rows ==> x in t.rows && !HasNegativeIn(x, t.columns, targets, toNumber))
      && (forall i :: 0 <= i < |t.rows| && !HasNegativeIn(t.rows[i], t.columns, targets, toNumber) ==> t.rows[i] in out.rows)
      && out.rows == RowsAt(t.rows, Positions(|t.rows|, (i: nat) => i < |t.rows| && !HasNegativeIn(t.rows[i], t.columns, targets, toNumber)))
      && |t.rows| - |out.rows| == |Positions(|t.rows|, (i: nat) => i < |t.rows| && HasNegativeIn(t.rows[i], t.columns, targets, toNumber))|
  {
    var targets := if negativeColumns != [] then negativeColumns else t.columns;
    if !SharedTarget(t.columns, targets) {
      var drop := row => HasNegativeIn(row, t.columns, targets, toNumber);
      FilterRowsExact(t.rows, drop, (i: nat) => i < |t.rows| && !HasNegativeIn(t.rows[i], t.columns, targets, toNumber),
                      (i: nat) => i < |t.rows| && HasNegativeIn(t.rows[i], t.columns, targets, toNumber));
    }
  }

  /** Two labels that coincide once normalised, when normalisation is on. */
  predicate SameLabel(a: string, b: string, normalize: bool) {
    if normalize then NormalizedName(a) == NormalizedName(b) else a == b
  }

  /** The column steps raise only in the trim loop: AttributeError exactly
      when trimming is on and two columns share a label once the labels are
      normalised (as they are when normalisation is on). */
  lemma ColumnStepsFailure(t: Table, o: CleanOptions)
    requires Rectangular(t)
    ensures ColumnSteps(t, o).Failure? <==>
      o.trimStrings && exists i, j :: 0 <= i < j < |t.columns| && SameLabel(t.columns[i], t.columns[j], o.normalizeColumns)
    ensures ColumnSteps(t, o).Failure? ==> ColumnSteps(t, o).error == "AttributeError"
  {
    var t1 := NormalizeStep(t, o.normalizeColumns);
    assert forall i :: 0 <= i < |t.columns| ==>
      t1.columns[i] == if o.normalizeColumns then NormalizedName(t.columns[i]) else t.columns[i];
  }

  /** Deduplication raises only on a frame with rows and columns: KeyError
      when the subset names an absent column, ValueError when it is empty. */
  lemma DedupeErrors(t: Table, subset: Option<seq<string>>)
    requires Rectangular(t)
    ensures Dedupe(t, subset).Failure? <==>
      |t.rows| > 0 && |t.columns| > 0 && subset.Some? &&
      (subset.value == [] || exists c :: c in subset.value && c !in t.columns)
    ensures Dedupe(t, subset).Failure? ==>
      Dedupe(t, subset).error == if subset.value == [] then "ValueError" else "KeyError"
  {
  }

  lemma {:induction false} TrimmedInRowZero(row: seq<Value>)
    ensures TrimmedInRow(row) == 0 <==> forall j :: 0 <= j < |row| ==> StripCell(row[j]) == row[j]
  {
    if row != [] {
      TrimmedInRowZero(row[..|row| - 1]);
      assert forall j :: 0 <= j < |row| - 1 ==> row[..|row| - 1][j] == row[j];
    }
  }

  /** The trim count is zero exactly when no string cell has surrounding
      whitespace. */
  lemma {:induction false} TrimmedCellsZero(rows: seq<seq<Value>>)
    ensures TrimmedCells(rows) == 0 <==>
      forall i, j :: 0 <= i < |rows| && 0 <= j < |rows[i]| ==> StripCell(rows[i][j]) == rows[i][j]
  {
    if rows != [] {
      TrimmedCellsZero(rows[..|rows| - 1]);
      TrimmedInRowZero(rows[|rows| - 1]);
      assert forall i :: 0 <= i < |rows| - 1 ==> rows[..|rows| - 1][i] == rows[i];
    }
  }

  /** Trimming twice changes nothing the second time, and the second pass
      reports no trimmed cells. */
  lemma TrimStringsIdempotent(t: Table)
    ensures var once := TrimStrings(t).0;
      TrimStrings(once).0 == once && TrimStrings(once).1 == 0
  {
    var once := TrimStrings(t).0;
    forall i, j | 0 <= i < |once.rows| && 0 <= j < |once.rows[i]|
      ensures StripCell(once.rows[i][j]) == once.rows[i][j]
    {
      var v := t.rows[i][j];
      if v.Str? {
        StripIdempotent(v.s);
      }
    }
    TrimmedCellsZero(once.rows);
    var twice := TrimStrings(once).0;
    assert twice.rows == once.rows by {
      forall i | 0 <= i < |once.rows| ensures twice.rows[i] == once.rows[i] {
      }
    }
  }

}
