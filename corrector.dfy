/** `fix_dataframe` of `corrector.py`: zero/gap repair of the price columns `open`,
    `high`, `low`, `close` and `underlying_price` (the designated columns). */
module Corrector {
  import opened Wrappers
  import opened Frames

  const Designated: seq<string> := ["open", "high", "low", "close", "underlying_price"]

  predicate IsDesignated(columns: seq<string>, c: int)
  {
    0 <= c < |columns| && columns[c] in Designated
  }

  predicate HasDesignated(columns: seq<string>)
  {
    exists c :: 0 <= c < |columns| && IsDesignated(columns, c)
  }

  /** `[c for c in Designated if c in columns]`. */
  function DesignatedIn(columns: seq<string>): (cols: seq<string>)
    ensures forall n :: n in cols <==> n in Designated && n in columns
    ensures cols == [] <==> !HasDesignated(columns)
  {
    var cols := FilterIn(Designated, columns);
    assert cols != [] ==> HasDesignated(columns) by {
      if cols != [] {
        assert cols[0] in columns;
        var c :| 0 <= c < |columns| && columns[c] == cols[0];
        assert IsDesignated(columns, c);
      }
    }
    assert HasDesignated(columns) ==> cols != [] by {
      if HasDesignated(columns) {
        var c :| 0 <= c < |columns| && IsDesignated(columns, c);
        assert columns[c] in cols;
      }
    }
    cols
  }

  function FilterIn(names: seq<string>, columns: seq<string>): (r: seq<string>)
    ensures forall n :: n in r <==> n in names && n in columns
  {
    if names == [] then []
    else (if names[0] in columns then [names[0]] else []) + FilterIn(names[1..], columns)
  }

  /** Some designated cell of the row is missing (`row[cols].isna().any()`). */
  predicate AnyMissing(columns: seq<string>, row: seq<Value>)
    requires |row| == |columns|
  {
    exists c :: 0 <= c < |row| && IsDesignated(columns, c) && row[c] == Missing
  }

  /** Every designated cell of the row is missing (`row[cols].isna().all()`). */
  predicate AllMissing(columns: seq<string>, row: seq<Value>)
    requires |row| == |columns|
  {
    forall c :: 0 <= c < |row| && IsDesignated(columns, c) ==> row[c] == Missing
  }

  /** Pass 1, `df[cols].replace(0, np.nan)`. */
  function ClearZeros(columns: seq<string>, rows: seq<seq<Value>>): (r: seq<seq<Value>>)
    requires Rectangular(rows, |columns|)
    ensures |r| == |rows| && Rectangular(r, |columns|)
  {
    seq(|rows|, i requires 0 <= i < |rows| =>
      seq(|columns|, c requires 0 <= c < |columns| =>
        if IsDesignated(columns, c) && rows[i][c] == Num(0) then Missing else rows[i][c]))
  }

  /** `row.get(name)` with a missing column read as missing. */
  function Lookup(columns: seq<string>, row: seq<Value>, name: string): Value
    requires |row| == |columns|
  {
    match IndexOf(columns, name)
    case Some(k) => row[k]
    case None => Missing
  }

  /** The first of `names` whose cell is present. */
  function FirstPresent(columns: seq<string>, row: seq<Value>, names: seq<string>): (r: Option<Value>)
    requires |row| == |columns|
    ensures r.Some? ==> r.value != Missing && exists n :: n in names && Lookup(columns, row, n) == r.value
    ensures r.None? ==> forall n :: n in names ==> Lookup(columns, row, n) == Missing
  {
    if names == [] then None
    else if Lookup(columns, row, names[0]) != Missing then Some(Lookup(columns, row, names[0]))
    else FirstPresent(columns, row, names[1..])
  }

  /** The value that fills a partly missing row: its `close` when present, otherwise the
      first present designated value in the order open, high, low, close, underlying_price. */
  function FillValue(columns: seq<string>, row: seq<Value>): Option<Value>
    requires |row| == |columns|
  {
    if Lookup(columns, row, "close") != Missing then Some(Lookup(columns, row, "close"))
    else FirstPresent(columns, row, Designated)
  }

  /** Pass 2 on one row: a partly missing row has its missing designated cells filled
      with `FillValue`; any other row is left as it is. */
  function RepairRow(columns: seq<string>, row: seq<Value>): (r: seq<Value>)
    requires |row| == |columns|
    ensures |r| == |row|
  {
    if AnyMissing(columns, row) && !AllMissing(columns, row) then
      match FillValue(columns, row)
      case Some(v) =>
        seq(|row|, c requires 0 <= c < |row| =>
          if IsDesignated(columns, c) && row[c] == Missing then v else row[c])
      case None => row
    else row
  }

  /** Pass 2 leaves a row that is fully present or fully missing as it is. */
  lemma RepairRowUntouched(columns: seq<string>, row: seq<Value>)
    requires |row| == |columns|
    requires !AnyMissing(columns, row) || AllMissing(columns, row)
    ensures RepairRow(columns, row) == row
  {
  }

  function RepairRows(columns: seq<string>, rows: seq<seq<Value>>): (r: seq<seq<Value>>)
    requires Rectangular(rows, |columns|)
    ensures |r| == |rows| && Rectangular(r, |columns|)
  {
    seq(|rows|, i requires 0 <= i < |rows| => RepairRow(columns, rows[i]))
  }

  /** Pass 3, `df[cols] = df[cols].bfill().ffill()`. */
  function FillDesignated(columns: seq<string>, rows: seq<seq<Value>>): (r: seq<seq<Value>>)
    requires Rectangular(rows, |columns|)
    ensures |r| == |rows| && Rectangular(r, |columns|)
  {
    seq(|rows|, i requires 0 <= i < |rows| =>
      seq(|columns|, c requires 0 <= c < |columns| =>
        if IsDesignated(columns, c) then Filled(Column(rows, c))[i] else rows[i][c]))
  }

  predicate SomeRowAllMissing(columns: seq<string>, rows: seq<seq<Value>>)
    requires Rectangular(rows, |columns|)
  {
    exists i :: 0 <= i < |rows| && AllMissing(columns, rows[i])
  }

  /** Pass 3 runs only when some row is missing in every designated column. */
  function FillGaps(columns: seq<string>, rows: seq<seq<Value>>): (r: seq<seq<Value>>)
    requires Rectangular(rows, |columns|)
    ensures |r| == |rows| && Rectangular(r, |columns|)
  {
    if SomeRowAllMissing(columns, rows) then FillDesignated(columns, rows) else rows
  }

  /** What `fix_dataframe(df)` returns. */
  function Repaired(df: Frame): (r: Frame)
    requires WellFormed(df)
    ensures WellFormed(r) && r.columns == df.columns && |r.rows| == |df.rows|
  {
    if IsEmpty(df) || !HasDesignated(df.columns) then df
    else Frame(df.columns, FillGaps(df.columns, RepairRows(df.columns, ClearZeros(df.columns, df.rows))))
  }

  /** `fix_dataframe`: pass 1 over the designated columns, the row-by-row repair loop of
      pass 2, then the gap fill of pass 3. */
  method FixDataframe(df: Frame) returns (r: Frame)
    requires WellFormed(df)
    ensures r == Repaired(df)
  {
    if IsEmpty(df) {
      return df;
    }
    var columns := df.columns;
    var cols := DesignatedIn(columns);
    if cols == [] {
      return df;
    }

    var rows := ClearZeros(columns, df.rows);
    ghost var cleared := rows;

    var i := 0;
    while i < |rows|
      invariant 0 <= i <= |rows| == |cleared|
      invariant forall k :: 0 <= k < i ==> rows[k] == RepairRow(columns, cleared[k])
      invariant forall k :: i <= k < |rows| ==> rows[k] == cleared[k]
    {
      var row := rows[i];
      assert row == cleared[i];
      if AnyMissing(columns, row) && !AllMissing(columns, row) {
        var fixedRow := RepairRow(columns, row);
        rows := rows[i := fixedRow];
      } else {
        RepairRowUntouched(columns, row);
      }
      assert rows[i] == RepairRow(columns, cleared[i]);
      i := i + 1;
    }
    assert rows == RepairRows(columns, cleared);
    assert Rectangular(rows, |columns|);

    if exists k :: 0 <= k < |rows| && AllMissing(columns, rows[k]) {
      rows := FillDesignated(columns, rows);
    }
    return Frame(columns, rows);
  }

  /** A value that survives pass 1 and is never overwritten: present and non-zero. */
  predicate Usable(v: Value)
  {
    v != Missing && v != Num(0)
  }

  /** The rows after passes 1 and 2. */
  function AfterRowRepair(df: Frame): (rows: seq<seq<Value>>)
    requires WellFormed(df)
    ensures |rows| == |df.rows| && Rectangular(rows, |df.columns|)
  {
    RepairRows(df.columns, ClearZeros(df.columns, df.rows))
  }

  /** A row with a present designated cell has a fill value, taken from one of its
      present designated cells. */
  lemma FillValueFound(columns: seq<string>, row: seq<Value>)
    requires Distinct(columns) && |row| == |columns|
    requires !AllMissing(columns, row)
    ensures FillValue(columns, row).Some?
    ensures exists c :: IsDesignated(columns, c) && row[c] == FillValue(columns, row).value && row[c] != Missing
  {
    var c :| 0 <= c < |row| && IsDesignated(columns, c) && row[c] != Missing;
    IndexOfDistinct(columns, c);
    assert Lookup(columns, row, columns[c]) == row[c];
    var v := FillValue(columns, row).value;
    var n :| n in Designated && Lookup(columns, row, n) == v && v != Missing;
    assert Lookup(columns, row, n) != Missing;
    assert n in columns;
    var k := IndexOf(columns, n).value;
    assert Lookup(columns, row, n) == row[k];
    assert IsDesignated(columns, k) && row[k] == v;
  }

  /** Pass 2 on one row: only missing designated cells change, each to a value present in
      another designated cell of the row, and a partly missing row ends with none missing. */
  lemma RepairRowCells(columns: seq<string>, row: seq<Value>)
    requires Distinct(columns) && |row| == |columns|
    ensures forall c :: 0 <= c < |row| && !(IsDesignated(columns, c) && row[c] == Missing) ==>
      RepairRow(columns, row)[c] == row[c]
    ensures forall c :: 0 <= c < |row| && RepairRow(columns, row)[c] != row[c] ==>
      RepairRow(columns, row)[c] != Missing &&
      exists c' :: IsDesignated(columns, c') && row[c'] == RepairRow(columns, row)[c]
    ensures AnyMissing(columns, row) && !AllMissing(columns, row) ==> !AnyMissing(columns, RepairRow(columns, row))
  {
    if AnyMissing(columns, row) && !AllMissing(columns, row) {
      FillValueFound(columns, row);
    }
  }

  /** Pass 2 fills the holes of a row from its `close` when `close` is present. */
  lemma RepairRowUsesClose(columns: seq<string>, row: seq<Value>)
    requires Distinct(columns) && |row| == |columns|
    requires Lookup(columns, row, "close") != Missing
    ensures forall c :: 0 <= c < |row| && IsDesignated(columns, c) && row[c] == Missing ==>
      RepairRow(columns, row)[c] == Lookup(columns, row, "close")
  {
    var k := IndexOf(columns, "close").value;
    assert IsDesignated(columns, k) && row[k] != Missing;
  }

  /** After pass 2 every row is either fully present or fully missing in the designated columns. */
  lemma RepairRowsSplit(columns: seq<string>, rows: seq<seq<Value>>)
    requires Distinct(columns) && Rectangular(rows, |columns|)
    ensures forall i :: 0 <= i < |rows| ==>
      !AnyMissing(columns, RepairRows(columns, rows)[i]) || AllMissing(columns, RepairRows(columns, rows)[i])
  {
    forall i | 0 <= i < |rows|
      ensures !AnyMissing(columns, RepairRows(columns, rows)[i]) || AllMissing(columns, RepairRows(columns, rows)[i])
    {
      RepairRowCells(columns, rows[i]);
      if !AnyMissing(columns, rows[i]) || AllMissing(columns, rows[i]) {
        RepairRowUntouched(columns, rows[i]);
      }
    }
  }

  /** What pass 3 puts in a designated cell: the cell itself when present, else the
      nearest later present value in its column, else the nearest earlier one. */
  lemma FillDesignatedAt(columns: seq<string>, rows: seq<seq<Value>>, i: nat, c: nat)
    requires Rectangular(rows, |columns|) && i < |rows| && IsDesignated(columns, c)
    ensures FillDesignated(columns, rows)[i][c] ==
      if rows[i][c] != Missing then rows[i][c]
      else match NextValid(Column(rows, c), i)
        case Some(k) => rows[k][c]
        case None => match PrevValid(Column(rows, c), i) { case Some(k) => rows[k][c] case None => Missing }
  {
    FilledAt(Column(rows, c), i);
  }

  /** A row left fully missing by pass 2 takes, per designated column, the nearest later
      present value, else the nearest earlier one. */
  lemma RepairedGapRow(df: Frame, i: nat, c: nat)
    requires WellFormed(df) && i < |df.rows| && IsDesignated(df.columns, c)
    requires AllMissing(df.columns, AfterRowRepair(df)[i])
    ensures Repaired(df).rows[i][c] ==
      match NextValid(Column(AfterRowRepair(df), c), i)
      case Some(k) => AfterRowRepair(df)[k][c]
      case None => match PrevValid(Column(AfterRowRepair(df), c), i)
        { case Some(k) => AfterRowRepair(df)[k][c] case None => Missing }
  {
    var p2 := AfterRowRepair(df);
    assert HasDesignated(df.columns);
    assert SomeRowAllMissing(df.columns, p2);
    FillDesignatedAt(df.columns, p2, i, c);
  }

  /** Cells outside the designated columns, and present non-zero designated cells, come
      out as they went in. */
  lemma RepairedKeeps(df: Frame)
    requires WellFormed(df)
    ensures forall i, c ::
      (0 <= i < |df.rows| && 0 <= c < |df.columns| && (!IsDesignated(df.columns, c) || Usable(df.rows[i][c])))
      ==> Repaired(df).rows[i][c] == df.rows[i][c]
  {
    if !IsEmpty(df) && HasDesignated(df.columns) {
      var C := df.columns;
      var p1 := ClearZeros(C, df.rows);
      var p2 := RepairRows(C, p1);
      forall i, c | 0 <= i < |df.rows| && 0 <= c < |C| && (!IsDesignated(C, c) || Usable(df.rows[i][c]))
        ensures Repaired(df).rows[i][c] == df.rows[i][c]
      {
        assert p1[i][c] == df.rows[i][c];
        RepairRowCells(C, p1[i]);
        assert p2[i][c] == p1[i][c];
        if SomeRowAllMissing(C, p2) && IsDesignated(C, c) {
          FilledKeeps(Column(p2, c));
        }
      }
    }
  }

  /** Pass 2 never writes a zero into a designated cell that had none. */
  lemma RepairRowsNoZeros(columns: seq<string>, rows: seq<seq<Value>>)
    requires Distinct(columns) && Rectangular(rows, |columns|)
    requires forall i, c :: 0 <= i < |rows| && IsDesignated(columns, c) ==> rows[i][c] != Num(0)
    ensures forall i, c :: 0 <= i < |rows| && IsDesignated(columns, c) ==> RepairRows(columns, rows)[i][c] != Num(0)
  {
    forall i, c | 0 <= i < |rows| && IsDesignated(columns, c) ensures RepairRows(columns, rows)[i][c] != Num(0) {
      RepairRowCells(columns, rows[i]);
    }
  }

  /** No designated cell of the result holds 0. */
  lemma RepairedNoZeros(df: Frame)
    requires WellFormed(df)
    requires !IsEmpty(df) && HasDesignated(df.columns)
    ensures forall i, c :: 0 <= i < |df.rows| && IsDesignated(df.columns, c) ==> Repaired(df).rows[i][c] != Num(0)
  {
    var C := df.columns;
    var p1 := ClearZeros(C, df.rows);
    var p2 := RepairRows(C, p1);
    RepairRowsNoZeros(C, p1);
    if SomeRowAllMissing(C, p2) {
      forall i, c | 0 <= i < |df.rows| && IsDesignated(C, c) ensures Repaired(df).rows[i][c] != Num(0) {
        FilledFrom(Column(p2, c), i);
      }
    }
  }

  /** If any designated cell of the input is present and non-zero, no designated cell of
      the result is missing. */
  lemma RepairedComplete(df: Frame)
    requires WellFormed(df)
    requires exists i, c :: 0 <= i < |df.rows| && IsDesignated(df.columns, c) && Usable(df.rows[i][c])
    ensures forall i, c :: 0 <= i < |df.rows| && IsDesignated(df.columns, c) ==> Repaired(df).rows[i][c] != Missing
  {
    var C := df.columns;
    var i0, c0 :| 0 <= i0 < |df.rows| && IsDesignated(C, c0) && Usable(df.rows[i0][c0]);
    assert !IsEmpty(df) && HasDesignated(C);
    var p1 := ClearZeros(C, df.rows);
    var p2 := RepairRows(C, p1);
    RepairRowsSplit(C, p1);
    assert p1[i0][c0] != Missing;
    RepairRowCells(C, p1[i0]);
    assert !AnyMissing(C, p2[i0]) by {
      if !AnyMissing(C, p1[i0]) || AllMissing(C, p1[i0]) { RepairRowUntouched(C, p1[i0]); }
    }
    forall i, c | 0 <= i < |df.rows| && IsDesignated(C, c) ensures Repaired(df).rows[i][c] != Missing {
      if SomeRowAllMissing(C, p2) {
        assert Column(p2, c)[i0] != Missing;
        FilledComplete(Column(p2, c));
      } else {
        assert !AllMissing(C, p2[i]);
      }
    }
  }

  /** If no designated cell of the input is present and non-zero, every designated cell
      of the result is missing. */
  lemma RepairedNothingUsable(df: Frame)
    requires WellFormed(df)
    requires forall i, c :: 0 <= i < |df.rows| && IsDesignated(df.columns, c) ==> !Usable(df.rows[i][c])
    ensures forall i, c :: 0 <= i < |df.rows| && IsDesignated(df.columns, c) ==> Repaired(df).rows[i][c] == Missing
  {
    var C := df.columns;
    if !IsEmpty(df) && HasDesignated(C) {
      var p1 := ClearZeros(C, df.rows);
      var p2 := RepairRows(C, p1);
      forall i | 0 <= i < |p1| ensures p2[i] == p1[i] && AllMissing(C, p1[i]) {
        RepairRowUntouched(C, p1[i]);
      }
      assert SomeRowAllMissing(C, p2) by { assert AllMissing(C, p2[0]); }
      forall i, c | 0 <= i < |df.rows| && IsDesignated(C, c) ensures Repaired(df).rows[i][c] == Missing {
        FilledNothing(Column(p2, c));
      }
    }
  }

  /** A table whose designated cells are all present and non-zero is returned unchanged. */
  lemma RepairedClean(df: Frame)
    requires WellFormed(df)
    requires forall i, c :: 0 <= i < |df.rows| && IsDesignated(df.columns, c) ==> Usable(df.rows[i][c])
    ensures Repaired(df) == df
  {
    var C := df.columns;
    if !IsEmpty(df) && HasDesignated(C) {
      var p1 := ClearZeros(C, df.rows);
      var p2 := RepairRows(C, p1);
      forall i | 0 <= i < |p1| ensures p1[i] == df.rows[i] && p2[i] == p1[i] {
        assert p1[i] == df.rows[i];
        RepairRowUntouched(C, p1[i]);
      }
      assert p2 == df.rows;
      var c :| 0 <= c < |C| && IsDesignated(C, c);
      assert !SomeRowAllMissing(C, p2) by {
        forall i | 0 <= i < |p2| ensures !AllMissing(C, p2[i]) {
          assert p2[i][c] != Missing;
        }
      }
    }
  }

  /** Repairing a repaired table changes nothing. */
  lemma RepairedIdempotent(df: Frame)
    requires WellFormed(df)
    ensures Repaired(Repaired(df)) == Repaired(df)
  {
    if IsEmpty(df) || !HasDesignated(df.columns) {
    } else if exists i, c :: 0 <= i < |df.rows| && IsDesignated(df.columns, c) && Usable(df.rows[i][c]) {
      RepairedUsableFixed(df);
    } else {
      RepairedUnusableFixed(df);
    }
  }

  /** With a usable price somewhere, the repaired table has only usable prices. */
  lemma RepairedUsableFixed(df: Frame)
    requires WellFormed(df) && !IsEmpty(df) && HasDesignated(df.columns)
    requires exists i, c :: 0 <= i < |df.rows| && IsDesignated(df.columns, c) && Usable(df.rows[i][c])
    ensures Repaired(Repaired(df)) == Repaired(df)
  {
    RepairedComplete(df);
    RepairedNoZeros(df);
    RepairedClean(Repaired(df));
  }

  /** With no usable price, every price becomes missing, and stays missing. */
  lemma RepairedUnusableFixed(df: Frame)
    requires WellFormed(df)
    requires forall i, c :: 0 <= i < |df.rows| && IsDesignated(df.columns, c) ==> !Usable(df.rows[i][c])
    ensures Repaired(Repaired(df)) == Repaired(df)
  {
    var r := Repaired(df);
    var C := df.columns;
    RepairedNothingUsable(df);
    RepairedNothingUsable(r);
    RepairedKeeps(r);
    var rr := Repaired(r);
    forall i | 0 <= i < |r.rows| ensures rr.rows[i] == r.rows[i] {
      forall c | 0 <= c < |C| ensures rr.rows[i][c] == r.rows[i][c] {
        if IsDesignated(C, c) { assert r.rows[i][c] == Missing; }
      }
    }
  }
}
