/** The envelope and table helpers of `utils.py`: `parse_response`,
    `verify_data_integrity` and `fix_empty_rows`. */
module Utils {
  import opened Wrappers
  import opened Strings
  import opened Json
  import opened Frames

  /** `parse_response`: an envelope whose `error` field is truthy is an API error;
      otherwise its `response` field, or `[]` when there is none. */
  function ParseResponse(envelope: seq<(string, Json)>): (r: Result<Json>)
    ensures r.Err? <==> Get(envelope, "error").Some? && Truthy(Get(envelope, "error").value)
    ensures r.Err? ==> r.error == ApiError("API Error: " + PyStr(Get(envelope, "error").value))
    ensures r.Ok? && "response" in Keys(envelope) ==> Get(envelope, "response") == Some(r.value)
    ensures r.Ok? && "response" !in Keys(envelope) ==> r.value == Arr([])
  {
    var error := Get(envelope, "error");
    if error.Some? && Truthy(error.value) then Err(ApiError("API Error: " + PyStr(error.value)))
    else
      match Get(envelope, "response")
      case Some(data) => Ok(data)
      case None => Ok(Arr([]))
  }

  /** An envelope carrying a payload and a falsy error gives back the payload. */
  lemma {:induction false} ParseResponseOfEnvelope(payload: Json, error: Json, extra: seq<(string, Json)>)
    requires !Truthy(error)
    ensures ParseResponse([("error", error), ("response", payload)] + extra) == Ok(payload)
    ensures ParseResponse([("response", payload)] + extra) == Ok(payload) || "error" in Keys(extra)
  {
    var e1 := [("error", error), ("response", payload)] + extra;
    assert e1[0] == ("error", error) && e1[1] == ("response", payload);
    assert Get(e1, "response") == Get(e1[1..], "response");
    var e2 := [("response", payload)] + extra;
    assert e2[0] == ("response", payload) && e2[1..] == extra;
    assert Get(e2, "error") == Get(extra, "error");
  }

  /** What `resp.status_code` raises on the decoded body. */
  const StatusAttributeError := AttributeError("'dict' object has no attribute 'status_code'")

  /** `resp and resp.status_code == 200` as written, where `resp` is the decoded body
      that `fetch_with_interval_fallback` returns, not the HTTP response: an empty body
      is falsy and skipped, and any other body has no `status_code`. */
  function StatusCheckAsWritten(resp: seq<(string, Json)>): (r: Result<bool>)
    ensures resp == [] <==> r == Ok(false)
    ensures resp != [] <==> r == Err(StatusAttributeError)
  {
    if resp == [] then Ok(false) else Err(StatusAttributeError)
  }

  /** Number of missing cells of a column (`isnull().sum()`). */
  function NullCount(col: seq<Value>): (n: nat)
    ensures n <= |col|
    ensures n == 0 <==> forall i :: 0 <= i < |col| ==> col[i] != Missing
  {
    if col == [] then 0
    else
      var rest := NullCount(col[1..]);
      assert rest == 0 <==> forall i :: 1 <= i < |col| ==> col[i] != Missing by {
        assert forall i :: 1 <= i < |col| ==> col[i] == col[1..][i - 1];
      }
      (if col[0] == Missing then 1 else 0) + rest
  }

  /** The per-column null counts, in column order. */
  function NullCounts(f: Frame): (counts: seq<(string, nat)>)
    requires WellFormed(f)
    ensures |counts| == |f.columns|
    ensures forall c :: 0 <= c < |f.columns| ==>
      counts[c] == (f.columns[c], NullCount(Column(f.rows, c)))
  {
    seq(|f.columns|, c requires 0 <= c < |f.columns| => (f.columns[c], NullCount(Column(f.rows, c))))
  }

  function TotalNulls(counts: seq<(string, nat)>): (n: nat)
    ensures n == 0 <==> forall c :: 0 <= c < |counts| ==> counts[c].1 == 0
  {
    if counts == [] then 0
    else
      assert forall c :: 1 <= c < |counts| ==> counts[c] == counts[1..][c - 1];
      counts[0].1 + TotalNulls(counts[1..])
  }

  /** `str(null_counts.to_dict())`. */
  function CountsRepr(counts: seq<(string, nat)>): string
  {
    "{" + CountsItems(counts) + "}"
  }

  function CountsItems(counts: seq<(string, nat)>): string
  {
    if counts == [] then ""
    else "'" + counts[0].0 + "': " + IntStr(counts[0].1)
         + (if |counts| > 1 then ", " else "") + CountsItems(counts[1..])
  }

  datatype Report = Report(valid: bool, message: string)

  /** Some cell of the table is missing. */
  predicate HasNull(f: Frame)
    requires WellFormed(f)
  {
    exists i, c :: 0 <= i < |f.rows| && 0 <= c < |f.columns| && f.rows[i][c] == Missing
  }

  /** `verify_data_integrity`: an empty table is invalid ("Empty data"); otherwise the
      table is valid exactly when no cell is missing, and the message lists the null
      count of every column. */
  function VerifyDataIntegrity(data: Frame): (r: Report)
    requires WellFormed(data)
    ensures IsEmpty(data) ==> r == Report(false, "Empty data")
    ensures r.valid <==> !IsEmpty(data) && !HasNull(data)
    ensures !IsEmpty(data) && HasNull(data) ==>
      r.message == "Null values found: " + CountsRepr(NullCounts(data))
    ensures r.valid ==> r.message == "Valid data"
  {
    if IsEmpty(data) then Report(false, "Empty data")
    else
      var counts := NullCounts(data);
      NullsCounted(data);
      if TotalNulls(counts) > 0 then Report(false, "Null values found: " + CountsRepr(counts))
      else Report(true, "Valid data")
  }

  /** The null counts add up to more than zero exactly when some cell is missing. */
  lemma NullsCounted(f: Frame)
    requires WellFormed(f)
    ensures TotalNulls(NullCounts(f)) > 0 <==> HasNull(f)
  {
    var counts := NullCounts(f);
    if HasNull(f) {
      var i, c :| 0 <= i < |f.rows| && 0 <= c < |f.columns| && f.rows[i][c] == Missing;
      assert Column(f.rows, c)[i] == Missing;
      assert counts[c].1 != 0;
    } else {
      forall c | 0 <= c < |counts| ensures counts[c].1 == 0 {
        assert forall i :: 0 <= i < |f.rows| ==> Column(f.rows, c)[i] == f.rows[i][c];
      }
    }
  }

  /** A column `select_dtypes(include=[np.number])` keeps: every cell is a number or missing. */
  predicate IsNumeric(rows: seq<seq<Value>>, c: nat)
    requires forall i :: 0 <= i < |rows| ==> c < |rows[i]|
  {
    forall i :: 0 <= i < |rows| ==> rows[i][c].Num? || rows[i][c] == Missing
  }

  /** `data[numeric] = data[numeric].replace(0, np.nan)`. */
  function ClearNumericZeros(f: Frame): (r: Frame)
    requires WellFormed(f)
    ensures WellFormed(r) && r.columns == f.columns && |r.rows| == |f.rows|
  {
    Frame(f.columns,
      seq(|f.rows|, i requires 0 <= i < |f.rows| =>
        seq(|f.columns|, c requires 0 <= c < |f.columns| =>
          if IsNumeric(f.rows, c) && f.rows[i][c] == Num(0) then Missing else f.rows[i][c])))
  }

  /** `data.bfill().ffill()` over every column. */
  function FillAll(f: Frame): (r: Frame)
    requires WellFormed(f)
    ensures WellFormed(r) && r.columns == f.columns && |r.rows| == |f.rows|
  {
    Frame(f.columns,
      seq(|f.rows|, i requires 0 <= i < |f.rows| =>
        seq(|f.columns|, c requires 0 <= c < |f.columns| => Filled(Column(f.rows, c))[i])))
  }

  /** A pandas DataFrame held by reference: `fix_empty_rows` writes into the caller's frame. */
  class DataFrame {
    var frame: Frame

    constructor (f: Frame)
      ensures frame == f
    {
      frame := f;
    }
  }

  /** `fix_empty_rows`: zeros of numeric columns become missing in the caller's frame,
      then a back- and forward-filled copy is returned. */
  method FixEmptyRows(data: DataFrame) returns (r: Frame)
    requires WellFormed(data.frame)
    modifies data
    ensures data.frame == ClearNumericZeros(old(data.frame))
    ensures r == FillAll(ClearNumericZeros(old(data.frame)))
  {
    data.frame := ClearNumericZeros(data.frame);
    r := FillAll(data.frame);
  }

  /** A cell `fix_empty_rows` treats as a real value: present, and non-zero in a numeric column. */
  predicate KeptValue(f: Frame, i: nat, c: nat)
    requires WellFormed(f) && i < |f.rows| && c < |f.columns|
  {
    f.rows[i][c] != Missing && !(IsNumeric(f.rows, c) && f.rows[i][c] == Num(0))
  }

  /** Real values come out unchanged, and a column holding one has no missing cell left. */
  lemma FixEmptyRowsResult(f: Frame)
    requires WellFormed(f)
    ensures forall i, c :: 0 <= i < |f.rows| && 0 <= c < |f.columns| && KeptValue(f, i, c) ==>
      FillAll(ClearNumericZeros(f)).rows[i][c] == f.rows[i][c]
    ensures forall i, c ::
      (0 <= i < |f.rows| && 0 <= c < |f.columns| && exists k :: 0 <= k < |f.rows| && KeptValue(f, k, c))
      ==> FillAll(ClearNumericZeros(f)).rows[i][c] != Missing
  {
    var z := ClearNumericZeros(f);
    forall i, c | 0 <= i < |f.rows| && 0 <= c < |f.columns| && KeptValue(f, i, c)
      ensures FillAll(z).rows[i][c] == f.rows[i][c]
    {
      FilledKeeps(Column(z.rows, c));
    }
    forall i, c | 0 <= i < |f.rows| && 0 <= c < |f.columns| && exists k :: 0 <= k < |f.rows| && KeptValue(f, k, c)
      ensures FillAll(z).rows[i][c] != Missing
    {
      var k :| 0 <= k < |f.rows| && KeptValue(f, k, c);
      assert Column(z.rows, c)[k] != Missing;
      FilledComplete(Column(z.rows, c));
    }
  }
}
