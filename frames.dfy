/** The slice of a pandas DataFrame the core uses: named columns, rows of cells,
    construction from a list of JSON records, `pd.concat`, and the column-wise
    `bfill()` / `ffill()` fills. A missing cell (NaN, None, NaT) is `Missing`. */
module Frames {
  import opened Wrappers
  import opened Strings
  import opened Json

  datatype Value =
    | Missing
    | Num(n: int)       // an int or float cell (floating point is not modelled)
    | Text(s: string)   // a str cell
    | Boxed(j: Json)    // any other Python object held in an object column

  datatype Frame = Frame(columns: seq<string>, rows: seq<seq<Value>>)

  predicate Distinct(s: seq<string>)
  {
    forall i, j :: 0 <= i < j < |s| ==> s[i] != s[j]
  }

  predicate Rectangular(rows: seq<seq<Value>>, width: nat)
  {
    forall i :: 0 <= i < |rows| ==> |rows[i]| == width
  }

  /** Column labels are unique and every row has one cell per column. */
  predicate WellFormed(f: Frame)
  {
    Distinct(f.columns) && Rectangular(f.rows, |f.columns|)
  }

  /** `DataFrame.empty`: no rows or no columns. */
  predicate IsEmpty(f: Frame)
  {
    |f.rows| == 0 || |f.columns| == 0
  }

  /** Position of a column label. */
  function IndexOf(cols: seq<string>, name: string): (r: Option<nat>)
    ensures r.None? <==> name !in cols
    ensures r.Some? ==> r.value < |cols| && cols[r.value] == name
    ensures r.Some? ==> forall k :: 0 <= k < r.value ==> cols[k] != name
  {
    if cols == [] then None
    else if cols[0] == name then Some(0)
    else match IndexOf(cols[1..], name)
      case None => None
      case Some(k) => Some(k + 1)
  }

  lemma IndexOfDistinct(cols: seq<string>, k: nat)
    requires Distinct(cols) && k < |cols|
    ensures IndexOf(cols, cols[k]) == Some(k)
  {
  }

  /** `df[name]` read at row `i`, `Missing` where the frame has no such column. */
  function Cell(f: Frame, i: nat, name: string): Value
    requires WellFormed(f) && i < |f.rows|
  {
    match IndexOf(f.columns, name)
    case Some(k) => f.rows[i][k]
    case None => Missing
  }

  function Column(rows: seq<seq<Value>>, c: nat): (col: seq<Value>)
    requires forall i :: 0 <= i < |rows| ==> c < |rows[i]|
    ensures |col| == |rows|
    ensures forall i :: 0 <= i < |rows| ==> col[i] == rows[i][c]
  {
    seq(|rows|, i requires 0 <= i < |rows| => rows[i][c])
  }

  /** The cell pandas stores for a JSON value: null is missing. */
  function ToValue(j: Json): (v: Value)
    ensures v.Missing? <==> j.Null?
  {
    match j
    case Null => Missing
    case Int(i) => Num(i)
    case Str(s) => Text(s)
    case _ => Boxed(j)
  }

  /** Appends the labels of `keys` that `cols` does not have yet, in order. */
  function AddKeys(cols: seq<string>, keys: seq<string>): (r: seq<string>)
    ensures Distinct(cols) ==> Distinct(r)
    ensures forall k :: k in r <==> k in cols || k in keys
    ensures |r| >= |cols| && r[..|cols|] == cols
    decreases |keys|
  {
    if keys == [] then cols
    else
      var next := if keys[0] in cols then cols else cols + [keys[0]];
      assert next[..|cols|] == cols;
      var r := AddKeys(next, keys[1..]);
      assert keys == [keys[0]] + keys[1..];
      assert r[..|cols|] == r[..|next|][..|cols|];
      r
  }

  function KeysOf(j: Json): seq<string>
  {
    if j.Obj? then Keys(j.fields) else []
  }

  /** Every key of every dict record. */
  ghost function AllKeys(records: seq<Json>): set<string>
  {
    if records == [] then {}
    else
      var last := KeysOf(records[|records| - 1]);
      AllKeys(records[..|records| - 1]) + set j | 0 <= j < |last| :: last[j]
  }

  lemma {:induction false} AllKeysAt(records: seq<Json>, i: nat, k: string)
    requires i < |records| && k in KeysOf(records[i])
    ensures k in AllKeys(records)
  {
    if i < |records| - 1 {
      AllKeysAt(records[..|records| - 1], i, k);
    }
  }

  /** The columns of `pd.DataFrame(records)` for a list of dicts: every key, in order of
      first appearance. */
  function RecordColumns(records: seq<Json>): (cols: seq<string>)
    ensures Distinct(cols)
    ensures forall k :: k in cols <==> k in AllKeys(records)
  {
    if records == [] then []
    else AddKeys(RecordColumns(records[..|records| - 1]), KeysOf(records[|records| - 1]))
  }

  function RecordCell(record: Json, name: string): Value
  {
    if record.Obj? then
      match Get(record.fields, name)
      case Some(v) => ToValue(v)
      case None => Missing
    else Missing
  }

  function Labels(n: nat): (cols: seq<string>)
    ensures |cols| == n
    ensures Distinct(cols)
    ensures forall k :: 0 <= k < n ==> cols[k] == IntStr(k)
  {
    var cols := seq(n, k requires 0 <= k < n => IntStr(k));
    LabelsDistinct(cols);
    cols
  }

  lemma LabelsDistinct(cols: seq<string>)
    requires forall k :: 0 <= k < |cols| ==> cols[k] == IntStr(k)
    ensures Distinct(cols)
  {
    forall i, j | 0 <= i < j < |cols| ensures cols[i] != cols[j] {
      DecimalValue(i, 1);
      DecimalValue(j, 1);
    }
  }

  function MaxLen(rows: seq<seq<Json>>): (m: nat)
    ensures forall i :: 0 <= i < |rows| ==> |rows[i]| <= m
  {
    if rows == [] then 0
    else
      var rest := MaxLen(rows[1..]);
      assert forall i :: 1 <= i < |rows| ==> rows[i] == rows[1..][i - 1];
      if |rows[0]| > rest then |rows[0]| else rest
  }

  /** `list(row)` for one row of a table whose first record is a list: a list's items, a
      string's characters, a dict's keys; `None` for a value without `len()`. */
  function RowItems(j: Json): (r: Option<seq<Json>>)
    ensures r.Some? <==> j.Arr? || j.Str? || j.Obj?
    ensures j.Arr? ==> r == Some(j.items)
    ensures j.Str? ==> r.Some? && |r.value| == |j.s| && forall k :: 0 <= k < |j.s| ==> r.value[k] == Str([j.s[k]])
    ensures j.Obj? ==> r.Some? && forall k :: 0 <= k < |r.value| ==> r.value[k].Str? && r.value[k].s in Keys(j.fields)
  {
    match j
    case Arr(items) => Some(items)
    case Str(s) => Some(seq(|s|, k requires 0 <= k < |s| => Str([s[k]])))
    case Obj(fields) =>
      var keys := AddKeys([], Keys(fields));
      Some(seq(|keys|, k requires 0 <= k < |keys| => Str(keys[k])))
    case _ => None
  }

  /** The table of rows read positionally: columns `0`, `1`, … as wide as the longest
      row, shorter rows padded with missing cells. */
  function PositionalFrame(rows: seq<seq<Json>>): (f: Frame)
    ensures WellFormed(f) && |f.rows| == |rows|
    ensures forall i, c :: 0 <= i < |rows| && 0 <= c < |rows[i]| ==>
      c < |f.columns| && f.rows[i][c] == ToValue(rows[i][c])
  {
    var width := MaxLen(rows);
    Frame(Labels(width), seq(|rows|, i requires 0 <= i < |rows| =>
      seq(width, c requires 0 <= c < width =>
        if c < |rows[i]| then ToValue(rows[i][c]) else Missing)))
  }

  /** `pd.DataFrame(records)`. The first record decides the layout. Dicts give one column
      per key, and a later record without `keys()` is an AttributeError. A list gives
      positional columns padded with missing cells; each later record is read with
      `list()`, and one without `len()` is a TypeError. Anything else gives the single
      column `0`. */
  function FromRecords(records: seq<Json>): (r: Result<Frame>)
    ensures r.Ok? ==> WellFormed(r.value) && |r.value.rows| == |records|
    ensures r.Err? <==> (|records| > 0 && (
      if records[0].Obj? then exists i :: 0 <= i < |records| && !records[i].Obj?
      else records[0].Arr? && exists i :: 0 <= i < |records| && RowItems(records[i]).None?))
    ensures r.Err? ==> (records[0].Obj? ==> r.error.AttributeError?) && (records[0].Arr? ==> r.error.TypeError?)
    ensures r.Ok? && |records| > 0 && records[0].Obj? ==>
      (forall k :: k in r.value.columns <==> k in AllKeys(records))
      && forall i, c :: 0 <= i < |records| && 0 <= c < |r.value.columns| ==>
           r.value.rows[i][c] == RecordCell(records[i], r.value.columns[c])
    ensures r.Ok? && |records| > 0 && records[0].Arr? ==>
      forall i, c :: 0 <= i < |records| && 0 <= c < |RowItems(records[i]).value| ==>
        c < |r.value.columns| && r.value.rows[i][c] == ToValue(RowItems(records[i]).value[c])
  {
    if records == [] then Ok(Frame([], []))
    else if records[0].Obj? then
      if forall i :: 0 <= i < |records| ==> records[i].Obj? then
        var cols := RecordColumns(records);
        Ok(Frame(cols, seq(|records|, i requires 0 <= i < |records| =>
          seq(|cols|, c requires 0 <= c < |cols| => RecordCell(records[i], cols[c])))))
      else Err(AttributeError("object has no attribute 'keys'"))
    else if records[0].Arr? then
      if forall i :: 0 <= i < |records| ==> RowItems(records[i]).Some? then
        var rows := seq(|records|, i requires 0 <= i < |records| => RowItems(records[i]).value);
        assert forall i :: 0 <= i < |records| ==> rows[i] == RowItems(records[i]).value;
        Ok(PositionalFrame(rows))
      else Err(TypeError("object has no len()"))
    else
      Ok(Frame(Labels(1), seq(|records|, i requires 0 <= i < |records| => [ToValue(records[i])])))
  }

  /** Some value of the dict is a list. */
  predicate HasList(fields: seq<(string, Json)>)
  {
    exists k :: 0 <= k < |fields| && fields[k].1.Arr?
  }

  /** Every list value of the dict has `n` items. */
  predicate ListsOfLength(fields: seq<(string, Json)>, n: nat)
  {
    forall k :: 0 <= k < |fields| && fields[k].1.Arr? ==> |fields[k].1.items| == n
  }

  /** The length of the dict's first list value. */
  function FirstListLength(fields: seq<(string, Json)>): (n: nat)
    requires HasList(fields)
    ensures exists k :: 0 <= k < |fields| && fields[k].1.Arr? && |fields[k].1.items| == n
  {
    if fields[0].1.Arr? then |fields[0].1.items|
    else
      var k :| 0 <= k < |fields| && fields[k].1.Arr?;
      assert fields[1..][k - 1] == fields[k];
      var n := FirstListLength(fields[1..]);
      var j :| 0 <= j < |fields[1..]| && fields[1..][j].1.Arr? && |fields[1..][j].1.items| == n;
      assert fields[j + 1] == fields[1..][j];
      n
  }

  /** Row `i` of a column given by a dict value: a list's item, or the scalar repeated. */
  function ColumnCell(v: Json, i: nat): Value
  {
    if v.Arr? then (if i < |v.items| then ToValue(v.items[i]) else Missing) else ToValue(v)
  }

  /** `pd.DataFrame(d)` for a dict: one column per key, in order. A list value gives the
      column's cells and any other value is repeated down the column. All lists must have
      one length, and a dict of scalars alone has no index to build rows on. */
  function FromColumns(fields: seq<(string, Json)>): (r: Result<Frame>)
    ensures r.Ok? ==> WellFormed(r.value)
    ensures r.Err? <==> fields != [] && (!HasList(fields) || !ListsOfLength(fields, FirstListLength(fields)))
    ensures fields != [] && !HasList(fields) ==>
      r == Err(ValueError("If using all scalar values, you must pass an index"))
    ensures r.Ok? ==> forall key :: key in r.value.columns <==> key in Keys(fields)
    ensures r.Ok? && fields != [] ==> ListsOfLength(fields, |r.value.rows|)
    ensures r.Ok? ==> forall i, c :: 0 <= i < |r.value.rows| && 0 <= c < |r.value.columns| ==>
      Get(fields, r.value.columns[c]).Some? &&
      r.value.rows[i][c] == ColumnCell(Get(fields, r.value.columns[c]).value, i)
  {
    if fields == [] then Ok(Frame([], []))
    else if !HasList(fields) then Err(ValueError("If using all scalar values, you must pass an index"))
    else
      var n := FirstListLength(fields);
      if !ListsOfLength(fields, n) then Err(ValueError("All arrays must be of the same length"))
      else
        var cols := AddKeys([], Keys(fields));
        assert forall c :: 0 <= c < |cols| ==> Get(fields, cols[c]).Some? by {
          forall c | 0 <= c < |cols| ensures Get(fields, cols[c]).Some? {
            assert cols[c] in cols;
          }
        }
        Ok(Frame(cols, seq(n, i requires 0 <= i < n =>
          seq(|cols|, c requires 0 <= c < |cols| => ColumnCell(Get(fields, cols[c]).value, i)))))
  }

  /** A dict whose values are all lists of `n` items, such as
      `{"timestamp": [...], "close": [...]}`, builds a table of `n` rows with one column
      per key, row `i` holding item `i` of each list. */
  lemma FromColumnsOfLists(fields: seq<(string, Json)>, n: nat)
    requires fields != [] && forall k :: 0 <= k < |fields| ==> fields[k].1.Arr? && |fields[k].1.items| == n
    ensures var r := FromColumns(fields);
      r.Ok? && |r.value.rows| == n && (forall key :: key in r.value.columns <==> key in Keys(fields)) &&
      forall i, c :: 0 <= i < n && 0 <= c < |r.value.columns| ==>
        Get(fields, r.value.columns[c]).Some? && Get(fields, r.value.columns[c]).value.Arr? &&
        r.value.rows[i][c] == ToValue(Get(fields, r.value.columns[c]).value.items[i])
  {
    assert fields[0].1.Arr?;
    assert ListsOfLength(fields, FirstListLength(fields));
    var r := FromColumns(fields);
    forall c | 0 <= c < |r.value.columns|
      ensures Get(fields, r.value.columns[c]).Some? && Get(fields, r.value.columns[c]).value.Arr? &&
        |Get(fields, r.value.columns[c]).value.items| == n
    {
      var j :| 0 <= j < |fields| && fields[j] == (r.value.columns[c], Get(fields, r.value.columns[c]).value);
    }
  }

  /** A row laid out for `from` columns, re-laid out for `to` columns (absent ones missing). */
  function Reindex(row: seq<Value>, from: seq<string>, to: seq<string>): (r: seq<Value>)
    requires |row| == |from|
    ensures |r| == |to|
    ensures forall c :: 0 <= c < |to| ==>
      r[c] == match IndexOf(from, to[c]) { case Some(k) => row[k] case None => Missing }
  {
    seq(|to|, c requires 0 <= c < |to| =>
      match IndexOf(from, to[c]) { case Some(k) => row[k] case None => Missing })
  }

  /** `pd.concat([a, b], ignore_index=True)`: the rows of `a` then those of `b`, over the
      union of their columns in order of appearance, cells a frame lacks left missing. */
  function Concat(a: Frame, b: Frame): (r: Frame)
    requires WellFormed(a) && WellFormed(b)
    ensures WellFormed(r)
    ensures |r.rows| == |a.rows| + |b.rows|
    ensures forall k :: k in r.columns <==> k in a.columns || k in b.columns
    ensures forall i, name :: 0 <= i < |a.rows| ==> Cell(r, i, name) == Cell(a, i, name)
    ensures forall i, name :: 0 <= i < |b.rows| ==> Cell(r, |a.rows| + i, name) == Cell(b, i, name)
  {
    var cols := AddKeys(a.columns, b.columns);
    var rows := seq(|a.rows|, i requires 0 <= i < |a.rows| => Reindex(a.rows[i], a.columns, cols))
              + seq(|b.rows|, i requires 0 <= i < |b.rows| => Reindex(b.rows[i], b.columns, cols));
    var r := Frame(cols, rows);
    ConcatCells(a, b, r);
    r
  }

  lemma ConcatCells(a: Frame, b: Frame, r: Frame)
    requires WellFormed(a) && WellFormed(b)
    requires r.columns == AddKeys(a.columns, b.columns)
    requires r.rows == seq(|a.rows|, i requires 0 <= i < |a.rows| => Reindex(a.rows[i], a.columns, r.columns))
                     + seq(|b.rows|, i requires 0 <= i < |b.rows| => Reindex(b.rows[i], b.columns, r.columns))
    ensures WellFormed(r)
    ensures forall i, name :: 0 <= i < |a.rows| ==> Cell(r, i, name) == Cell(a, i, name)
    ensures forall i, name :: 0 <= i < |b.rows| ==> Cell(r, |a.rows| + i, name) == Cell(b, i, name)
  {
    forall i, name | 0 <= i < |a.rows| ensures Cell(r, i, name) == Cell(a, i, name) {
      assert r.rows[i] == Reindex(a.rows[i], a.columns, r.columns);
      ReindexCell(a.rows[i], a.columns, r.columns, name);
    }
    forall i, name | 0 <= i < |b.rows| ensures Cell(r, |a.rows| + i, name) == Cell(b, i, name) {
      assert r.rows[|a.rows| + i] == Reindex(b.rows[i], b.columns, r.columns);
      ReindexCell(b.rows[i], b.columns, r.columns, name);
    }
  }

  /** Reading a column by name gives the same cell before and after re-laying out a row. */
  lemma ReindexCell(row: seq<Value>, from: seq<string>, to: seq<string>, name: string)
    requires |row| == |from|
    requires forall k :: k in from ==> k in to
    ensures (match IndexOf(to, name) { case Some(k) => Reindex(row, from, to)[k] case None => Missing })
         == (match IndexOf(from, name) { case Some(k) => row[k] case None => Missing })
  {
  }

  // ---- Column fills: `Series.bfill()` and `Series.ffill()` ----

  /** The first non-missing position at or after `i`. */
  function NextValid(col: seq<Value>, i: nat): (r: Option<nat>)
    ensures r.Some? ==> i <= r.value < |col| && col[r.value] != Missing
                        && forall k :: i <= k < r.value ==> col[k] == Missing
    ensures r.None? ==> forall k :: i <= k < |col| ==> col[k] == Missing
    decreases |col| - i
  {
    if i >= |col| then None
    else if col[i] != Missing then Some(i)
    else NextValid(col, i + 1)
  }

  /** The last non-missing position strictly before `n`. */
  function PrevValid(col: seq<Value>, n: nat): (r: Option<nat>)
    requires n <= |col|
    ensures r.Some? ==> r.value < n && col[r.value] != Missing
                        && forall k :: r.value < k < n ==> col[k] == Missing
    ensures r.None? ==> forall k :: 0 <= k < n ==> col[k] == Missing
  {
    if n == 0 then None
    else if col[n - 1] != Missing then Some(n - 1)
    else PrevValid(col, n - 1)
  }

  /** `bfill()`: a missing cell takes the nearest later non-missing value. */
  function BFill(col: seq<Value>): (r: seq<Value>)
    ensures |r| == |col|
  {
    seq(|col|, i requires 0 <= i < |col| =>
      match NextValid(col, i) { case Some(k) => col[k] case None => Missing })
  }

  /** `ffill()`: a missing cell takes the nearest earlier non-missing value. */
  function FFill(col: seq<Value>): (r: seq<Value>)
    ensures |r| == |col|
  {
    seq(|col|, i requires 0 <= i < |col| =>
      match PrevValid(col, i + 1) { case Some(k) => col[k] case None => Missing })
  }

  /** `bfill().ffill()` on one column. */
  function Filled(col: seq<Value>): (r: seq<Value>)
    ensures |r| == |col|
  {
    FFill(BFill(col))
  }

  lemma PrevValidIs(col: seq<Value>, n: nat, p: nat)
    requires p < n <= |col| && col[p] != Missing
    requires forall k :: p < k < n ==> col[k] == Missing
    ensures PrevValid(col, n) == Some(p)
  {
  }

  lemma BFillAt(col: seq<Value>, k: nat)
    requires k < |col|
    ensures BFill(col)[k] == match NextValid(col, k) { case Some(j) => col[j] case None => Missing }
  {
  }

  /** What `bfill().ffill()` puts in each cell: the cell itself when present, else the
      nearest later value, else the nearest earlier one, else still missing. */
  lemma FilledAt(col: seq<Value>, i: nat)
    requires i < |col|
    ensures Filled(col)[i] ==
      if col[i] != Missing then col[i]
      else match NextValid(col, i)
        case Some(k) => col[k]
        case None => match PrevValid(col, i) { case Some(k) => col[k] case None => Missing }
  {
    var b := BFill(col);
    assert Filled(col)[i] == match PrevValid(b, i + 1) { case Some(k) => b[k] case None => Missing };
    if NextValid(col, i).Some? {
      FilledFromLater(col, i);
    } else {
      assert col[i] == Missing;
      FilledFromEarlier(col, i);
    }
  }

  /** With a value from `i` on, the forward fill of the back-filled column reads it at `i`. */
  lemma FilledFromLater(col: seq<Value>, i: nat)
    requires i < |col| && NextValid(col, i).Some?
    ensures (match PrevValid(BFill(col), i + 1) { case Some(k) => BFill(col)[k] case None => Missing }) ==
            (if col[i] != Missing then col[i] else col[NextValid(col, i).value])
  {
    var b := BFill(col);
    BFillAt(col, i);
    PrevValidIs(b, i + 1, i);
  }

  /** With no value from `i` on, the forward fill of the back-filled column reads the
      nearest earlier value. */
  lemma FilledFromEarlier(col: seq<Value>, i: nat)
    requires i < |col| && NextValid(col, i).None?
    ensures (match PrevValid(BFill(col), i + 1) { case Some(k) => BFill(col)[k] case None => Missing }) ==
            (match PrevValid(col, i) { case Some(k) => col[k] case None => Missing })
  {
    var b := BFill(col);
    if PrevValid(col, i).Some? {
      var p := PrevValid(col, i).value;
      BFillAt(col, p);
      forall k | p < k < i + 1 ensures b[k] == Missing {
        BFillAt(col, k);
      }
      PrevValidIs(b, i + 1, p);
    } else {
      forall k | 0 <= k <= i ensures b[k] == Missing {
        BFillAt(col, k);
      }
    }
  }

  /** A column with at least one value has no missing cell after the fill. */
  lemma FilledComplete(col: seq<Value>)
    requires exists k :: 0 <= k < |col| && col[k] != Missing
    ensures forall i :: 0 <= i < |col| ==> Filled(col)[i] != Missing
  {
    var w :| 0 <= w < |col| && col[w] != Missing;
    forall i | 0 <= i < |col| ensures Filled(col)[i] != Missing {
      FilledAt(col, i);
      if i <= w { assert NextValid(col, i).Some?; } else { assert PrevValid(col, i).Some?; }
    }
  }

  /** The fill keeps every value that was present. */
  lemma FilledKeeps(col: seq<Value>)
    ensures forall i :: 0 <= i < |col| && col[i] != Missing ==> Filled(col)[i] == col[i]
  {
    forall i | 0 <= i < |col| && col[i] != Missing ensures Filled(col)[i] == col[i] {
      FilledAt(col, i);
    }
  }

  /** A column with no value stays entirely missing. */
  lemma FilledNothing(col: seq<Value>)
    requires forall k :: 0 <= k < |col| ==> col[k] == Missing
    ensures forall i :: 0 <= i < |col| ==> Filled(col)[i] == Missing
  {
    forall i | 0 <= i < |col| ensures Filled(col)[i] == Missing {
      FilledAt(col, i);
    }
  }

  /** A filled cell is missing or a copy of a cell of the column. */
  lemma FilledFrom(col: seq<Value>, i: nat)
    requires i < |col|
    ensures Filled(col)[i] == Missing || exists k :: 0 <= k < |col| && col[k] == Filled(col)[i]
  {
    FilledAt(col, i);
  }
}
