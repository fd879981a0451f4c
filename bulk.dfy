/** The per-symbol download worker of `bulk.py` (`_worker_main`): it loads the closed
    days of the years in range, walks the trading days, picks the target expirations of
    each day, and for every target and every endpoint flattens the contract listing into
    rows and writes them out. Requests are replaced by their decoded responses, handed
    in as functions of the request; a response that is an `Err` stands for the exception
    the request raises (a status other than 200 once the retries give up), which ends
    the worker. Written files are recorded as values, in order. */
module Bulk {
  import opened Wrappers
  import opened Strings
  import opened Sorting
  import opened Collect
  import opened Json
  import opened Frames
  import opened Dates
  import opened CalendarUtils
  import opened Client

  /** `ENDPOINTS`, in iteration order: the data type and the path it is fetched from. */
  const Endpoints: seq<(string, string)> :=
    [("ohlc", "/option/history/ohlc"), ("greeks", "/option/history/greeks/first_order")]

  // ---------------------------------------------------------------- closed days

  /** The closed day one entry of a holiday listing names: a dict whose `type` is
      `full_close` and whose `date` reads as `YYYY-MM-DD`. An entry of another type adds
      nothing, and so does one whose `date` is missing or unreadable (the exception is
      swallowed by the `try` around the insertion). */
  function EntryClosed(entry: Json): (r: Option<int>)
    ensures r.Some? ==> r.value >= 0
  {
    if entry.Obj? && Get(entry.fields, "type") == Some(Str("full_close")) then
      match Get(entry.fields, "date")
      case Some(Str(s)) =>
        (match ParseIso(s)
         case Ok(d) => DayNumberNonNegative(d); Some(DayNumber(d))
         case Err(_) => None)
      case _ => None
    else None
  }

  /** A full-close entry carrying a date in ISO form names that date; an entry of any
      other type names nothing. */
  lemma EntryClosedOfIso(d: Date, kind: string, extra: seq<(string, Json)>)
    requires ValidDate(d) && 1000 <= d.year <= 9999
    ensures EntryClosed(Obj([("type", Str("full_close")), ("date", Str(Iso(d)))] + extra)) == Some(DayNumber(d))
    ensures kind != "full_close" ==> EntryClosed(Obj([("type", Str(kind)), ("date", Str(Iso(d)))] + extra)) == None
  {
    ParseIsoOfIso(d);
    var fields := [("type", Str("full_close")), ("date", Str(Iso(d)))] + extra;
    assert fields[0] == ("type", Str("full_close")) && fields[1] == ("date", Str(Iso(d)));
    assert Get(fields, "date") == Get(fields[1..], "date");
    var other := [("type", Str(kind)), ("date", Str(Iso(d)))] + extra;
    assert other[0] == ("type", Str(kind));
  }

  /** The closed days the entries of one year's listing add, in listing order. */
  function ClosedIn(entries: seq<Json>): seq<int>
  {
    Picked(entries, EntryClosed)
  }

  /** A day is among those a listing adds exactly when one of its entries names it. */
  lemma ClosedInNames(entries: seq<Json>)
    ensures forall d :: d in ClosedIn(entries) <==> exists i :: 0 <= i < |entries| && EntryClosed(entries[i]) == Some(d)
  {
    PickedIff(entries, EntryClosed);
  }

  /** What one year's listing adds: the exception of the request, of `parse_response`
      or of iterating its payload, otherwise the closed days named by its entries. An
      empty body, which the status test skips, names none. */
  function YearHolidays(fetched: Result<Envelope>): (r: Result<seq<int>>)
    ensures fetched.Err? ==> r == Err(fetched.error)
    ensures fetched == Ok([]) ==> r == Ok([])
  {
    var resp :- fetched;
    var payload :- Utils.ParseResponse(resp);
    var entries :- Iterate(payload);
    Ok(ClosedIn(entries))
  }

  /** The holiday step as written: the status test raises AttributeError on any body
      that is not empty, and an empty body is skipped. */
  function YearHolidaysAsWritten(fetched: Result<Envelope>): (r: Result<seq<int>>)
    ensures fetched.Err? ==> r == Err(fetched.error)
    ensures fetched.Ok? && fetched.value != [] ==> r == Err(Utils.StatusAttributeError)
  {
    var resp :- fetched;
    var passed :- Utils.StatusCheckAsWritten(resp);
    if passed then YearHolidays(fetched) else Ok([])
  }

  /** A listing that names one closed day: as written the worker raises on it, where the
      intended step reads the day. */
  lemma YearHolidaysAsWrittenRaises(d: Date)
    requires ValidDate(d) && 1000 <= d.year <= 9999
    ensures var listing := Ok([("response", Arr([Obj([("type", Str("full_close")), ("date", Str(Iso(d)))])]))]);
      YearHolidaysAsWritten(listing) == Err(Utils.StatusAttributeError) &&
      YearHolidays(listing) == Ok([DayNumber(d)])
  {
    var entry := Obj([("type", Str("full_close")), ("date", Str(Iso(d)))]);
    EntryClosedOfIso(d, "full_close", []);
    assert [("type", Str("full_close")), ("date", Str(Iso(d)))] + [] == entry.fields;
    var env := [("response", Arr([entry]))];
    assert Utils.ParseResponse(env) == Ok(Arr([entry])) by {
      assert Get(env, "error") == None;
      assert Get(env, "response") == Some(Arr([entry]));
    }
    assert Iterate(Arr([entry])) == Ok([entry]);
    assert EntryClosed(entry) == Some(DayNumber(d));
    PickedOne(entry, EntryClosed, DayNumber(d));
    assert YearHolidays(Ok(env)) == Ok([DayNumber(d)]);
  }

  /** `range(start.year, end.year + 1)`. */
  function Years(start: Date, end: Date): (ys: seq<int>)
    ensures |ys| == if end.year < start.year then 0 else end.year - start.year + 1
    ensures forall k :: 0 <= k < |ys| ==> ys[k] == start.year + k
  {
    seq(if end.year < start.year then 0 else end.year - start.year + 1, k => start.year + k)
  }

  /** The holiday listing of each year in range, in order. */
  function HolidayResponses(start: Date, end: Date, holidaysFor: int -> Result<Envelope>): (rs: seq<Result<Envelope>>)
    ensures |rs| == |Years(start, end)|
    ensures forall k :: 0 <= k < |rs| ==> rs[k] == holidaysFor(Years(start, end)[k])
  {
    var ys := Years(start, end);
    seq(|ys|, k requires 0 <= k < |ys| => holidaysFor(ys[k]))
  }

  /** The set `closed_dates` the holiday loop builds, or the exception that ends it. */
  function ClosedDates(responses: seq<Result<Envelope>>): (r: Result<set<int>>)
  {
    var ds :- Gather(responses, YearHolidays);
    Ok(set d | d in ds)
  }

  /** The holiday loop raises exactly when some year's listing does; otherwise a day is
      closed exactly when some year's listing names it. */
  lemma ClosedDatesResult(responses: seq<Result<Envelope>>)
    ensures ClosedDates(responses).Ok? <==> forall y :: 0 <= y < |responses| ==> YearHolidays(responses[y]).Ok?
    ensures ClosedDates(responses).Ok? ==> forall d :: d in ClosedDates(responses).value <==>
      exists y :: 0 <= y < |responses| && YearHolidays(responses[y]).Ok? && d in YearHolidays(responses[y]).value
  {
    if ClosedDates(responses).Ok? {
      forall d ensures d in ClosedDates(responses).value <==>
        exists y :: 0 <= y < |responses| && YearHolidays(responses[y]).Ok? && d in YearHolidays(responses[y]).value
      {
        if y :| 0 <= y < |responses| && YearHolidays(responses[y]).Ok? && d in YearHolidays(responses[y]).value {
          GatherHas(responses, YearHolidays, y);
        }
      }
    }
  }

  /** The entry loop of one year: each entry that names a closed day adds it. */
  method AddClosed(closed: set<int>, items: seq<Json>) returns (r: set<int>)
    ensures forall d :: d in r <==> d in closed || d in ClosedIn(items)
  {
    r := closed;
    for j := 0 to |items|
      invariant forall d :: d in r <==> d in closed || d in ClosedIn(items[..j])
    {
      assert items[..j + 1][..j] == items[..j];
      var c := EntryClosed(items[j]);
      if c.Some? {
        r := r + {c.value};
      }
    }
    assert items[..|items|] == items;
  }

  /** The body of the holiday loop for one year. */
  method LoadYear(closed: set<int>, fetched: Result<Envelope>) returns (r: Result<set<int>>)
    ensures r.Ok? <==> YearHolidays(fetched).Ok?
    ensures r.Err? ==> r.error == YearHolidays(fetched).error
    ensures r.Ok? ==> forall d :: d in r.value <==> d in closed || d in YearHolidays(fetched).value
  {
    if fetched.Err? {
      return Err(fetched.error);
    }
    var payload := Utils.ParseResponse(fetched.value);
    if payload.Err? {
      return Err(payload.error);
    }
    var entries := Iterate(payload.value);
    if entries.Err? {
      return Err(entries.error);
    }
    var added := AddClosed(closed, entries.value);
    return Ok(added);
  }

  /** One year of the holiday loop, against the accumulated listing. */
  lemma LoadYearStep(responses: seq<Result<Envelope>>, k: nat, acc: seq<int>, closed: set<int>, next: Result<set<int>>)
    requires k < |responses| && Gather(responses[..k], YearHolidays) == Ok(acc)
    requires forall d :: d in closed <==> d in acc
    requires next.Ok? <==> YearHolidays(responses[k]).Ok?
    requires next.Err? ==> next.error == YearHolidays(responses[k]).error
    requires next.Ok? ==> forall d :: d in next.value <==> d in closed || d in YearHolidays(responses[k]).value
    ensures next.Err? ==> Gather(responses, YearHolidays) == Err(next.error)
    ensures next.Ok? ==> Gather(responses[..k + 1], YearHolidays) == Ok(acc + YearHolidays(responses[k]).value)
    ensures next.Ok? ==> forall d :: d in next.value <==> d in acc + YearHolidays(responses[k]).value
  {
    GatherStep(responses, YearHolidays, k, acc);
    if next.Err? {
      GatherStop(responses, YearHolidays, k + 1);
    }
  }

  lemma ClosedDatesOf(responses: seq<Result<Envelope>>, acc: seq<int>, closed: set<int>)
    requires Gather(responses, YearHolidays) == Ok(acc)
    requires forall d :: d in closed <==> d in acc
    ensures ClosedDates(responses) == Ok(closed)
  {
    var listed := set d | d in acc;
    assert forall d :: d in listed <==> d in closed;
    assert listed == closed;
  }

  /** The holiday loop: one request per year, each full-close entry added to the set. */
  method LoadClosedDates(start: Date, end: Date, holidaysFor: int -> Result<Envelope>) returns (r: Result<set<int>>)
    ensures r == ClosedDates(HolidayResponses(start, end, holidaysFor))
  {
    var years := Years(start, end);
    ghost var responses := HolidayResponses(start, end, holidaysFor);
    ghost var acc: seq<int> := [];
    var closed: set<int> := {};
    for k := 0 to |years|
      invariant Gather(responses[..k], YearHolidays) == Ok(acc)
      invariant forall d :: d in closed <==> d in acc
    {
      var fetched := holidaysFor(years[k]);
      assert fetched == responses[k];
      var next := LoadYear(closed, fetched);
      LoadYearStep(responses, k, acc, closed, next);
      if next.Err? {
        return Err(next.error);
      }
      closed := next.value;
      acc := acc + YearHolidays(fetched).value;
    }
    assert responses[..|years|] == responses;
    ClosedDatesOf(responses, acc, closed);
    return Ok(closed);
  }

  // ---------------------------------------------------------------- trading days

  /** A weekday that is not a closed day. */
  predicate IsTradingDay(d: int, closed: set<int>)
  {
    Weekday(d) < 5 && d !in closed
  }

  /** The trading days from `first` to `last`, ascending. */
  function TradingDays(first: int, last: int, closed: set<int>): (r: seq<int>)
    ensures StrictlyAscending(r)
    ensures forall d :: d in r <==> first <= d <= last && IsTradingDay(d, closed)
    decreases last - first
  {
    if last < first then []
    else
      var init := TradingDays(first, last - 1, closed);
      assert forall k :: 0 <= k < |init| ==> init[k] < last by {
        forall k | 0 <= k < |init| ensures init[k] < last {
          assert init[k] in init;
        }
      }
      if IsTradingDay(last, closed) then init + [last] else init
  }

  /** The day loop steps past `date.max` after its last day: it runs at all and its
      last day is 9999-12-31 (or, for a model date, later). */
  predicate StepsPastMax(first: int, last: int)
  {
    first <= last && last >= MaxDayNumber
  }

  /** The day loop: from `start` up to and including `end`, one day at a time, keeping
      the weekdays that are not closed. Days are handled as day numbers. The step after
      the last day raises OverflowError when that day is `date.max`. */
  method TradingDaysBetween(start: Date, end: Date, closed: set<int>) returns (days: Result<seq<int>>)
    requires ValidDate(start) && ValidDate(end)
    ensures days == if StepsPastMax(DayNumber(start), DayNumber(end)) then Err(DateOverflow)
                    else Ok(TradingDays(DayNumber(start), DayNumber(end), closed))
  {
    var first, last := DayNumber(start), DayNumber(end);
    var d := first;
    var kept := [];
    while d <= last
      invariant first <= d && (d <= last + 1 || d == first)
      invariant d == first || d - 1 < MaxDayNumber
      invariant kept == TradingDays(first, d - 1, closed)
      decreases last - d
    {
      if Weekday(d) < 5 && d !in closed {
        kept := kept + [d];
      }
      if d >= MaxDayNumber {
        return Err(DateOverflow);
      }
      d := d + 1;
    }
    return Ok(kept);
  }

  // ---------------------------------------------------------------- expirations

  /** `date(int(e[:4]), int(e[4:6]), int(e[6:8]))` for one listed expiration, as a day. */
  function ExpirationDay(e: string): (r: Result<seq<int>>)
    ensures r.Ok? <==> ParseCompact(e).Ok?
    ensures r.Ok? ==> |r.value| == 1 && r.value[0] >= 0
    ensures r.Ok? ==> forall x :: x in r.value ==> x >= 0
  {
    var d :- ParseCompact(e);
    DayNumberNonNegative(d);
    Ok([DayNumber(d)])
  }

  /** Reading back an expiration written as `YYYYMMDD` gives its day. */
  lemma ExpirationDayOfCompact(d: Date)
    requires ValidDate(d) && 1000 <= d.year <= 9999
    ensures ExpirationDay(Compact(d)) == Ok([DayNumber(d)])
  {
    ParseCompactOfCompact(d);
  }

  /** Every day the expiration list parses to is a day number. */
  lemma AvailableDays(exps: seq<string>)
    ensures Gather(exps, ExpirationDay).Ok? ==>
      forall k :: 0 <= k < |Gather(exps, ExpirationDay).value| ==> Gather(exps, ExpirationDay).value[k] >= 0
  {
    if Gather(exps, ExpirationDay).Ok? {
      var avail := Gather(exps, ExpirationDay).value;
      forall k | 0 <= k < |avail| ensures avail[k] >= 0 {
        var i :| 0 <= i < |exps| && ExpirationDay(exps[i]).Ok? && avail[k] in ExpirationDay(exps[i]).value;
      }
    }
  }

  // ---------------------------------------------------------------- contract rows

  /** `{**contract, **datarow}` for each data row of one item, in order; a contract or
      row that is not a dict is a TypeError. */
  function MergeRows(contract: Json, data: seq<Json>): (r: Result<seq<Json>>)
    ensures r.Err? ==> r.error == TypeError("object is not a mapping")
  {
    MergeRowsWith(contract, data, Merge)
  }

  /** The row loop of `MergeRows`, for any way `merge` of combining two dicts' entries. */
  function MergeRowsWith(contract: Json, data: seq<Json>,
                         merge: (seq<(string, Json)>, seq<(string, Json)>) -> seq<(string, Json)>)
    : (r: Result<seq<Json>>)
    ensures r.Err? ==> r.error == TypeError("object is not a mapping")
  {
    if data == [] then Ok([])
    else
      var rows :- MergeRowsWith(contract, data[..|data| - 1], merge);
      var row := data[|data| - 1];
      if contract.Obj? && row.Obj? then Ok(rows + [Obj(merge(contract.fields, row.fields))])
      else Err(TypeError("object is not a mapping"))
  }

  /** Merging succeeds exactly when there is nothing to merge or the contract and every
      data row are dicts, and then yields one dict per data row. */
  lemma {:induction false} MergeRowsResult(contract: Json, data: seq<Json>,
                                           merge: (seq<(string, Json)>, seq<(string, Json)>) -> seq<(string, Json)>)
    ensures MergeRowsWith(contract, data, merge).Ok? <==>
      data == [] || (contract.Obj? && forall k :: 0 <= k < |data| ==> data[k].Obj?)
    ensures MergeRowsWith(contract, data, merge).Ok? ==> |MergeRowsWith(contract, data, merge).value| == |data|
    ensures MergeRowsWith(contract, data, merge).Ok? ==>
      forall k :: 0 <= k < |data| ==> MergeRowsWith(contract, data, merge).value[k].Obj?
  {
    if data != [] {
      var init := data[..|data| - 1];
      assert forall k :: 0 <= k < |init| ==> init[k] == data[k];
      MergeRowsResult(contract, init, merge);
    }
  }

  /** The `k`-th merged row is the contract merged with the `k`-th data row. */
  lemma {:induction false} MergedRowAt(contract: Json, data: seq<Json>,
                                       merge: (seq<(string, Json)>, seq<(string, Json)>) -> seq<(string, Json)>, k: nat)
    requires MergeRowsWith(contract, data, merge).Ok? && k < |data|
    ensures contract.Obj? && data[k].Obj? && |MergeRowsWith(contract, data, merge).value| == |data|
    ensures MergeRowsWith(contract, data, merge).value[k] == Obj(merge(contract.fields, data[k].fields))
  {
    var init := data[..|data| - 1];
    MergeRowsResult(contract, data, merge);
    MergeRowsResult(contract, init, merge);
    if k < |init| {
      MergedRowAt(contract, init, merge, k);
      assert init[k] == data[k];
    }
  }

  /** The rows one listed item adds: a dict with both `contract` and `data` adds its
      contract merged with each data row; any other item adds nothing. */
  function ContractRows(item: Json): (r: Result<seq<Json>>)
    ensures !(HasKey(item, "contract") && HasKey(item, "data")) ==> r == Ok([])
  {
    if HasKey(item, "contract") && HasKey(item, "data") then
      var data :- Iterate(Get(item.fields, "data").value);
      MergeRows(Get(item.fields, "contract").value, data)
    else Ok([])
  }

  /** The `rows` list built from the listed items. */
  function FlattenContracts(items: seq<Json>): (r: Result<seq<Json>>)
  {
    Gather(items, ContractRows)
  }

  /** How many data rows an item carries (none when it is not a contract entry). */
  function DataCount(item: Json): nat
  {
    if HasKey(item, "contract") && HasKey(item, "data") && Iterate(Get(item.fields, "data").value).Ok?
    then |Iterate(Get(item.fields, "data").value).value| else 0
  }

  function TotalData(items: seq<Json>): nat
  {
    if items == [] then 0 else TotalData(items[..|items| - 1]) + DataCount(items[|items| - 1])
  }

  /** Flattening yields one row per data row of the contract entries, and every row is
      a dict. */
  lemma {:induction false} FlattenCount(items: seq<Json>)
    requires FlattenContracts(items).Ok?
    ensures |FlattenContracts(items).value| == TotalData(items)
    ensures forall k :: 0 <= k < |FlattenContracts(items).value| ==> FlattenContracts(items).value[k].Obj?
  {
    if items != [] {
      var init := items[..|items| - 1];
      assert forall i :: 0 <= i < |init| ==> init[i] == items[i];
      FlattenCount(init);
      var last := items[|items| - 1];
      if HasKey(last, "contract") && HasKey(last, "data") && Iterate(Get(last.fields, "data").value).Ok? {
        MergeRowsResult(Get(last.fields, "contract").value, Iterate(Get(last.fields, "data").value).value, Merge);
      }
      var rows := FlattenContracts(items).value;
      assert rows == FlattenContracts(init).value + ContractRows(items[|items| - 1]).value;
    }
  }

  /** The data-row loop of one contract entry. */
  method MergeDataRows(contract: Json, datarows: seq<Json>) returns (r: Result<seq<Json>>)
    ensures r == MergeRows(contract, datarows)
  {
    var rows: seq<Json> := [];
    for j := 0 to |datarows|
      invariant MergeRows(contract, datarows[..j]) == Ok(rows)
    {
      assert datarows[..j + 1][..j] == datarows[..j];
      var datarow := datarows[j];
      if !(contract.Obj? && datarow.Obj?) {
        MergeRowsResult(contract, datarows, Merge);
        return Err(TypeError("object is not a mapping"));
      }
      rows := rows + [Obj(Merge(contract.fields, datarow.fields))];
    }
    assert datarows[..|datarows|] == datarows;
    return Ok(rows);
  }

  /** The flattening loop over the items. */
  method FlattenContractRows(items: seq<Json>) returns (r: Result<seq<Json>>)
    ensures r == FlattenContracts(items)
  {
    var rows: seq<Json> := [];
    for i := 0 to |items|
      invariant Gather(items[..i], ContractRows) == Ok(rows)
    {
      var item := items[i];
      GatherStep(items, ContractRows, i, rows);
      if HasKey(item, "contract") && HasKey(item, "data") {
        var contract := Get(item.fields, "contract").value;
        var data := Iterate(Get(item.fields, "data").value);
        if data.Err? {
          GatherStop(items, ContractRows, i + 1);
          return Err(data.error);
        }
        var merged := MergeDataRows(contract, data.value);
        if merged.Err? {
          GatherStop(items, ContractRows, i + 1);
          return Err(merged.error);
        }
        rows := rows + merged.value;
      } else {
        assert rows + [] == rows;
      }
    }
    assert items[..|items|] == items;
    return Ok(rows);
  }

  // ---------------------------------------------------------------- output files

  /** The directory `output_dir / symbol / dtype / str(day.year) / f"{day.month:02d}"`. */
  function SaveDir(outputDir: string, symbol: string, dtype: string, day: Date): string
    requires ValidDate(day)
  {
    outputDir + "/" + symbol + "/" + dtype + "/" + IntStr(day.year) + "/" + Decimal(day.month, 2)
  }

  /** What follows the symbol in the file name: `_{exp:%Y%m%d}_{day:%Y%m%d}_{dtype}.parquet`. */
  function Stamp(dtype: string, exp: Date, day: Date): string
    requires ValidDate(exp) && ValidDate(day)
  {
    "_" + Compact(exp) + "_" + Compact(day) + "_" + dtype + ".parquet"
  }

  /** The file a data type of one target and day is written to. */
  function OutputPath(outputDir: string, symbol: string, dtype: string, exp: Date, day: Date): string
    requires ValidDate(exp) && ValidDate(day)
  {
    SaveDir(outputDir, symbol, dtype, day) + "/" + symbol + Stamp(dtype, exp, day)
  }

  lemma SuffixEqual(a: string, x: string, b: string, y: string)
    requires a + x == b + y && |x| == |y|
    ensures x == y
  {
    assert x == (a + x)[|a|..];
    assert y == (b + y)[|b|..];
  }

  lemma CompactWidth(d: Date)
    requires ValidDate(d) && d.year <= 9999
    ensures |Compact(d)| == 8
  {
    DecimalWidth(d.year, 4);
    DecimalWidth(d.month, 2);
    DecimalWidth(d.day, 2);
  }

  lemma StampParts(dtype: string, exp: Date, day: Date)
    requires ValidDate(exp) && ValidDate(day) && exp.year <= 9999 && day.year <= 9999
    ensures |Stamp(dtype, exp, day)| == 27 + |dtype|
    ensures Stamp(dtype, exp, day)[1..9] == Compact(exp) && Stamp(dtype, exp, day)[10..18] == Compact(day)
  {
    CompactWidth(exp);
    CompactWidth(day);
    var a, b := Compact(exp), Compact(day);
    var s := Stamp(dtype, exp, day);
    assert s == "_" + a + "_" + b + ("_" + dtype + ".parquet");
  }

  /** Two files of one symbol and data type get the same path only for the same
      expiration and the same day, so no file overwrites another. */
  lemma OutputPathDistinct(outputDir: string, symbol: string, dtype: string, exp1: Date, day1: Date, exp2: Date, day2: Date)
    requires ValidDate(exp1) && ValidDate(day1) && ValidDate(exp2) && ValidDate(day2)
    requires 1000 <= exp1.year <= 9999 && 1000 <= day1.year <= 9999
    requires 1000 <= exp2.year <= 9999 && 1000 <= day2.year <= 9999
    requires OutputPath(outputDir, symbol, dtype, exp1, day1) == OutputPath(outputDir, symbol, dtype, exp2, day2)
    ensures exp1 == exp2 && day1 == day2
  {
    var s1, s2 := Stamp(dtype, exp1, day1), Stamp(dtype, exp2, day2);
    StampParts(dtype, exp1, day1);
    StampParts(dtype, exp2, day2);
    SuffixEqual(SaveDir(outputDir, symbol, dtype, day1) + "/" + symbol, s1,
                SaveDir(outputDir, symbol, dtype, day2) + "/" + symbol, s2);
    ParseCompactOfCompact(exp1);
    ParseCompactOfCompact(exp2);
    ParseCompactOfCompact(day1);
    ParseCompactOfCompact(day2);
  }

  // ---------------------------------------------------------------- the worker

  /** A parquet file the worker writes: its path and the table in it. */
  datatype Write = Write(path: string, table: Frame)

  /** What a worker leaves behind: the files it wrote, in order, and the exception that
      ended it early, if one did (the worker logs it and returns). */
  datatype Run = Run(writes: seq<Write>, error: Option<Error>)

  /** Files written before a later stretch of work. */
  function After(writes: seq<Write>, rest: Run): Run
  {
    Run(writes + rest.writes, rest.error)
  }

  /** Stretches of work done one after another until one raises: the files of each up
      to and including the one that raised, and its exception. */
  function Chain(runs: seq<Run>): (r: Run)
    ensures r.error.Some? <==> exists k :: 0 <= k < |runs| && runs[k].error.Some?
    ensures forall w :: w in r.writes ==> exists k :: 0 <= k < |runs| && w in runs[k].writes
  {
    if runs == [] then Run([], None)
    else if runs[0].error.Some? then runs[0]
    else
      var rest := Chain(runs[1..]);
      assert forall k :: 1 <= k < |runs| ==> runs[1..][k - 1] == runs[k];
      After(runs[0].writes, rest)
  }

  /** One more stretch of the loop that builds a chain. */
  lemma ChainStep(runs: seq<Run>, i: nat, writes: seq<Write>)
    requires i < |runs| && Chain(runs) == After(writes, Chain(runs[i..]))
    ensures runs[i].error.Some? ==> Chain(runs) == Run(writes + runs[i].writes, runs[i].error)
    ensures runs[i].error.None? ==> Chain(runs) == After(writes + runs[i].writes, Chain(runs[i + 1..]))
  {
    assert runs[i..][0] == runs[i] && runs[i..][1..] == runs[i + 1..];
  }

  /** The end of the loop that builds a chain. */
  lemma ChainEnd(runs: seq<Run>, writes: seq<Write>)
    requires Chain(runs) == After(writes, Chain(runs[|runs|..]))
    ensures Chain(runs) == Run(writes, None)
  {
    assert runs[|runs|..] == [];
    assert writes + [] == writes;
  }

  /** Once a stretch raises, the later ones are not done: the chain is what came before
      plus that stretch. */
  lemma {:induction false} ChainStops(runs: seq<Run>, i: nat)
    requires i < |runs| && runs[i].error.Some?
    requires forall k :: 0 <= k < i ==> runs[k].error.None?
    ensures Chain(runs) == After(Chain(runs[..i]).writes, runs[i])
  {
    if i == 0 {
      assert Chain(runs[..0]) == Run([], None);
    } else {
      assert runs[1..][..i - 1] == runs[..i][1..];
      ChainStops(runs[1..], i - 1);
    }
  }

  /** A file written for expiration day `exp` and trading day `day`, under one of the
      endpoints' data types, holding at least one row. */
  predicate Written(w: Write, outputDir: string, symbol: string, exp: nat, day: nat)
  {
    |w.table.rows| > 0 &&
    exists k :: 0 <= k < |Endpoints| && w.path == OutputPath(outputDir, symbol, Endpoints[k].0, DateOf(exp), DateOf(day))
  }

  /** One data type of one target: the request, `parse_response` and the flattening may
      raise, and a file is written only when there are rows. */
  function DtypeRun(outputDir: string, symbol: string, dtype: string, exp: Date, day: Date,
                    fetched: Result<Envelope>): (r: Run)
    requires ValidDate(exp) && ValidDate(day)
    ensures fetched.Err? ==> r == Run([], Some(fetched.error))
    ensures |r.writes| <= 1
    ensures forall w :: w in r.writes ==>
      w.path == OutputPath(outputDir, symbol, dtype, exp, day) && |w.table.rows| > 0
  {
    if fetched.Err? then Run([], Some(fetched.error))
    else
      match Utils.ParseResponse(fetched.value)
      case Err(e) => Run([], Some(e))
      case Ok(payload) =>
        match Iterate(payload)
        case Err(e) => Run([], Some(e))
        case Ok(items) =>
          match FlattenContracts(items)
          case Err(e) => Run([], Some(e))
          case Ok(rows) =>
            if rows == [] then Run([], None)
            else
              match FromRecords(rows)
              case Err(e) => Run([], Some(e))
              case Ok(df) => Run([Write(OutputPath(outputDir, symbol, dtype, exp, day), df)], None)
  }

  /** The runs of the endpoints, in order, for one target expiration and day. */
  function DtypeRuns(outputDir: string, symbol: string, exp: nat, day: nat,
                     dataFor: (string, string, string) -> Result<Envelope>): (runs: seq<Run>)
    ensures |runs| == |Endpoints|
  {
    var e, d := DateOf(exp), DateOf(day);
    seq(|Endpoints|, k requires 0 <= k < |Endpoints| =>
      DtypeRun(outputDir, symbol, Endpoints[k].0, e, d, dataFor(Endpoints[k].1, Compact(e), Compact(d))))
  }

  /** The endpoint loop for one target expiration and day. */
  function DtypesRun(outputDir: string, symbol: string, exp: nat, day: nat,
                     dataFor: (string, string, string) -> Result<Envelope>): Run
  {
    Chain(DtypeRuns(outputDir, symbol, exp, day, dataFor))
  }

  /** Each file of the endpoint loop is one of that target's and day's files. */
  lemma DtypesWritten(outputDir: string, symbol: string, exp: nat, day: nat,
                      dataFor: (string, string, string) -> Result<Envelope>)
    ensures forall w :: w in DtypesRun(outputDir, symbol, exp, day, dataFor).writes ==>
      Written(w, outputDir, symbol, exp, day)
  {
    var runs := DtypeRuns(outputDir, symbol, exp, day, dataFor);
    forall w | w in Chain(runs).writes
      ensures Written(w, outputDir, symbol, exp, day)
    {
      var k :| 0 <= k < |runs| && w in runs[k].writes;
      var e, d := DateOf(exp), DateOf(day);
      assert runs[k] == DtypeRun(outputDir, symbol, Endpoints[k].0, e, d, dataFor(Endpoints[k].1, Compact(e), Compact(d)));
    }
  }

  /** The runs of the targets of one day, in order. */
  function TargetRuns(outputDir: string, symbol: string, targets: seq<int>, day: nat,
                      dataFor: (string, string, string) -> Result<Envelope>): (runs: seq<Run>)
    requires forall k :: 0 <= k < |targets| ==> targets[k] >= 0
    ensures |runs| == |targets|
  {
    seq(|targets|, k requires 0 <= k < |targets| => DtypesRun(outputDir, symbol, targets[k], day, dataFor))
  }

  /** The target loop of one day. */
  function TargetsRun(outputDir: string, symbol: string, targets: seq<int>, day: nat,
                      dataFor: (string, string, string) -> Result<Envelope>): (r: Run)
    requires forall k :: 0 <= k < |targets| ==> targets[k] >= 0
  {
    Chain(TargetRuns(outputDir, symbol, targets, day, dataFor))
  }

  /** Each file of the target loop belongs to one of the targets. */
  lemma TargetsWritten(outputDir: string, symbol: string, targets: seq<int>, day: nat,
                       dataFor: (string, string, string) -> Result<Envelope>)
    requires forall k :: 0 <= k < |targets| ==> targets[k] >= 0
    ensures forall w :: w in TargetsRun(outputDir, symbol, targets, day, dataFor).writes ==>
      exists k :: 0 <= k < |targets| && Written(w, outputDir, symbol, targets[k], day)
  {
    var runs := TargetRuns(outputDir, symbol, targets, day, dataFor);
    forall w | w in Chain(runs).writes
      ensures exists k :: 0 <= k < |targets| && Written(w, outputDir, symbol, targets[k], day)
    {
      var k :| 0 <= k < |runs| && w in runs[k].writes;
      assert runs[k] == DtypesRun(outputDir, symbol, targets[k], day, dataFor);
      DtypesWritten(outputDir, symbol, targets[k], day, dataFor);
    }
  }

  /** A file holding rows, written for some expiration on trading day `day`. */
  ghost predicate WrittenOn(w: Write, outputDir: string, symbol: string, day: nat)
  {
    |w.table.rows| > 0 && exists exp: nat :: Written(w, outputDir, symbol, exp, day)
  }

  /** The listed expirations of a day as day numbers. */
  function ExpirationDays(exps: seq<string>): (r: Result<seq<int>>)
    ensures r.Ok? ==> forall k :: 0 <= k < |r.value| ==> r.value[k] >= 0
  {
    AvailableDays(exps);
    Gather(exps, ExpirationDay)
  }

  /** The targets of a day, each one of its listed expirations. */
  function DayTargets(symbol: string, day: int, avail: seq<int>, closed: set<int>): (targets: seq<int>)
    requires forall k :: 0 <= k < |avail| ==> avail[k] >= 0
    ensures forall k :: 0 <= k < |targets| ==> targets[k] in avail && targets[k] >= 0
  {
    TargetsListed(symbol, day, avail, closed);
    TargetExpirations(symbol, day, avail, closed)
  }

  /** One trading day: list its expirations (an empty list skips the day), parse them,
      pick the targets, and fetch and write each. */
  function DayRun(outputDir: string, symbol: string, day: nat, closed: set<int>,
                  expsFor: string -> Result<Envelope>,
                  dataFor: (string, string, string) -> Result<Envelope>): Run
  {
    var dayStr := Compact(DateOf(day));
    match Expirations(expsFor(dayStr), dayStr)
    case Err(e) => Run([], Some(e))
    case Ok(exps) =>
      if exps == [] then Run([], None)
      else
        match ExpirationDays(exps)
        case Err(e) => Run([], Some(e))
        case Ok(avail) => TargetsRun(outputDir, symbol, DayTargets(symbol, day, avail, closed), day, dataFor)
  }

  /** Each file of one day's work is a file of that day. */
  lemma DayWritten(outputDir: string, symbol: string, day: nat, closed: set<int>,
                   expsFor: string -> Result<Envelope>,
                   dataFor: (string, string, string) -> Result<Envelope>)
    ensures forall w :: w in DayRun(outputDir, symbol, day, closed, expsFor, dataFor).writes ==>
      WrittenOn(w, outputDir, symbol, day)
  {
    var dayStr := Compact(DateOf(day));
    var exps := Expirations(expsFor(dayStr), dayStr);
    if exps.Ok? && exps.value != [] && ExpirationDays(exps.value).Ok? {
      var targets := DayTargets(symbol, day, ExpirationDays(exps.value).value, closed);
      TargetsWritten(outputDir, symbol, targets, day, dataFor);
    }
  }

  /** The runs of the trading days, in order. */
  function DayRuns(outputDir: string, symbol: string, days: seq<int>, closed: set<int>,
                   expsFor: string -> Result<Envelope>,
                   dataFor: (string, string, string) -> Result<Envelope>): (runs: seq<Run>)
    requires forall k :: 0 <= k < |days| ==> days[k] >= 0
    ensures |runs| == |days|
  {
    seq(|days|, k requires 0 <= k < |days| => DayRun(outputDir, symbol, days[k], closed, expsFor, dataFor))
  }

  /** The day loop. */
  function DaysRun(outputDir: string, symbol: string, days: seq<int>, closed: set<int>,
                   expsFor: string -> Result<Envelope>,
                   dataFor: (string, string, string) -> Result<Envelope>): (r: Run)
    requires forall k :: 0 <= k < |days| ==> days[k] >= 0
  {
    Chain(DayRuns(outputDir, symbol, days, closed, expsFor, dataFor))
  }

  /** Each file of the day loop is a file of one of its days. */
  lemma DaysWritten(outputDir: string, symbol: string, days: seq<int>, closed: set<int>,
                    expsFor: string -> Result<Envelope>,
                    dataFor: (string, string, string) -> Result<Envelope>)
    requires forall k :: 0 <= k < |days| ==> days[k] >= 0
    ensures forall w :: w in DaysRun(outputDir, symbol, days, closed, expsFor, dataFor).writes ==>
      exists k :: 0 <= k < |days| && WrittenOn(w, outputDir, symbol, days[k])
  {
    var runs := DayRuns(outputDir, symbol, days, closed, expsFor, dataFor);
    forall w | w in Chain(runs).writes
      ensures exists k :: 0 <= k < |days| && WrittenOn(w, outputDir, symbol, days[k])
    {
      var k :| 0 <= k < |runs| && w in runs[k].writes;
      assert runs[k] == DayRun(outputDir, symbol, days[k], closed, expsFor, dataFor);
      DayWritten(outputDir, symbol, days[k], closed, expsFor, dataFor);
    }
  }

  /** `_worker_main` for one symbol over `start..end`. */
  function Worker(outputDir: string, symbol: string, start: Date, end: Date,
                  holidaysFor: int -> Result<Envelope>,
                  expsFor: string -> Result<Envelope>,
                  dataFor: (string, string, string) -> Result<Envelope>): (r: Run)
    requires ValidDate(start) && ValidDate(end)
  {
    match ClosedDates(HolidayResponses(start, end, holidaysFor))
    case Err(e) => Run([], Some(e))
    case Ok(closed) =>
      if StepsPastMax(DayNumber(start), DayNumber(end)) then Run([], Some(DateOverflow))
      else
        DayNumberNonNegative(start);
        var days := TradingDays(DayNumber(start), DayNumber(end), closed);
        assert forall k :: 0 <= k < |days| ==> days[k] in days;
        DaysRun(outputDir, symbol, days, closed, expsFor, dataFor)
  }

  /** Some year's holiday listing names `day` closed. */
  ghost predicate ListedClosed(day: int, responses: seq<Result<Envelope>>)
  {
    exists y :: 0 <= y < |responses| && YearHolidays(responses[y]).Ok? && day in YearHolidays(responses[y]).value
  }

  /** The day loop writes only for the days it is given. */
  lemma DaysWritesWithin(outputDir: string, symbol: string, days: seq<int>, closed: set<int>,
                         expsFor: string -> Result<Envelope>,
                         dataFor: (string, string, string) -> Result<Envelope>,
                         first: int, last: int)
    requires forall k :: 0 <= k < |days| ==> days[k] >= 0
    requires forall d :: d in days <==> first <= d <= last && IsTradingDay(d, closed)
    ensures forall w :: w in DaysRun(outputDir, symbol, days, closed, expsFor, dataFor).writes ==>
      exists day: nat :: first <= day <= last && IsTradingDay(day, closed) && WrittenOn(w, outputDir, symbol, day)
  {
    DaysWritten(outputDir, symbol, days, closed, expsFor, dataFor);
    forall w | w in DaysRun(outputDir, symbol, days, closed, expsFor, dataFor).writes
      ensures exists day: nat :: first <= day <= last && IsTradingDay(day, closed) && WrittenOn(w, outputDir, symbol, day)
    {
      var k :| 0 <= k < |days| && WrittenOn(w, outputDir, symbol, days[k]);
      var day: nat := days[k];
      assert day in days;
    }
  }

  /** Every file the worker writes holds rows and belongs to a trading day of the range:
      a weekday that no year's holiday listing names closed. A holiday listing that
      raises ends the worker before anything is written, and so does a range ending on
      `date.max`, whose day loop raises OverflowError stepping past it. */
  lemma WorkerWritesTradingDays(outputDir: string, symbol: string, start: Date, end: Date,
                                holidaysFor: int -> Result<Envelope>,
                                expsFor: string -> Result<Envelope>,
                                dataFor: (string, string, string) -> Result<Envelope>)
    requires ValidDate(start) && ValidDate(end)
    ensures ClosedDates(HolidayResponses(start, end, holidaysFor)).Err? ==>
      Worker(outputDir, symbol, start, end, holidaysFor, expsFor, dataFor).writes == []
    ensures ClosedDates(HolidayResponses(start, end, holidaysFor)).Ok? && end == MaxDate && !Before(end, start) ==>
      Worker(outputDir, symbol, start, end, holidaysFor, expsFor, dataFor) == Run([], Some(DateOverflow))
    ensures forall w :: w in Worker(outputDir, symbol, start, end, holidaysFor, expsFor, dataFor).writes ==>
      exists day: nat :: (DayNumber(start) <= day <= DayNumber(end) && Weekday(day) < 5 &&
        !ListedClosed(day, HolidayResponses(start, end, holidaysFor)) && WrittenOn(w, outputDir, symbol, day))
  {
    var responses := HolidayResponses(start, end, holidaysFor);
    ClosedDatesResult(responses);
    if end == MaxDate && !Before(end, start) {
      MaxDayNumberIs();
      if start != end {
        assert Before(start, end);
        DayNumberMonotone(start, end);
      }
    }
    if ClosedDates(responses).Ok? && !StepsPastMax(DayNumber(start), DayNumber(end)) {
      var closed := ClosedDates(responses).value;
      assert forall d :: d in closed <==> ListedClosed(d, responses);
      DayNumberNonNegative(start);
      var days := TradingDays(DayNumber(start), DayNumber(end), closed);
      assert forall k :: 0 <= k < |days| ==> days[k] in days;
      DaysWritesWithin(outputDir, symbol, days, closed, expsFor, dataFor, DayNumber(start), DayNumber(end));
    }
  }

  // ---------------------------------------------------------------- worker methods

  /** The body of the endpoint loop for one data type. */
  method SaveDtype(outputDir: string, symbol: string, dtype: string, exp: Date, day: Date,
                   fetched: Result<Envelope>) returns (run: Run)
    requires ValidDate(exp) && ValidDate(day)
    ensures run == DtypeRun(outputDir, symbol, dtype, exp, day, fetched)
  {
    if fetched.Err? {
      return Run([], Some(fetched.error));
    }
    var payload := Utils.ParseResponse(fetched.value);
    if payload.Err? {
      return Run([], Some(payload.error));
    }
    var items := Iterate(payload.value);
    if items.Err? {
      return Run([], Some(items.error));
    }
    var rows := FlattenContractRows(items.value);
    if rows.Err? {
      return Run([], Some(rows.error));
    }
    if rows.value == [] {
      return Run([], None);
    }
    var df := FromRecords(rows.value);
    if df.Err? {
      return Run([], Some(df.error));
    }
    return Run([Write(OutputPath(outputDir, symbol, dtype, exp, day), df.value)], None);
  }

  /** The endpoint loop of one target. */
  method SaveDtypes(outputDir: string, symbol: string, exp: nat, day: nat,
                    dataFor: (string, string, string) -> Result<Envelope>) returns (run: Run)
    ensures run == DtypesRun(outputDir, symbol, exp, day, dataFor)
  {
    ghost var runs := DtypeRuns(outputDir, symbol, exp, day, dataFor);
    var expDate, dayDate := DateOf(exp), DateOf(day);
    var writes: seq<Write> := [];
    for k := 0 to |Endpoints|
      invariant Chain(runs) == After(writes, Chain(runs[k..]))
    {
      var (dtype, endpoint) := Endpoints[k];
      var fetched := dataFor(endpoint, Compact(expDate), Compact(dayDate));
      var one := SaveDtype(outputDir, symbol, dtype, expDate, dayDate, fetched);
      ChainStep(runs, k, writes);
      if one.error.Some? {
        return Run(writes + one.writes, one.error);
      }
      writes := writes + one.writes;
    }
    ChainEnd(runs, writes);
    return Run(writes, None);
  }

  /** The target loop of one day. */
  method SaveTargets(outputDir: string, symbol: string, targets: seq<int>, day: nat,
                     dataFor: (string, string, string) -> Result<Envelope>) returns (run: Run)
    requires forall k :: 0 <= k < |targets| ==> targets[k] >= 0
    ensures run == TargetsRun(outputDir, symbol, targets, day, dataFor)
  {
    ghost var runs := TargetRuns(outputDir, symbol, targets, day, dataFor);
    var writes: seq<Write> := [];
    for i := 0 to |targets|
      invariant Chain(runs) == After(writes, Chain(runs[i..]))
    {
      var one := SaveDtypes(outputDir, symbol, targets[i], day, dataFor);
      ChainStep(runs, i, writes);
      if one.error.Some? {
        return Run(writes + one.writes, one.error);
      }
      writes := writes + one.writes;
    }
    ChainEnd(runs, writes);
    return Run(writes, None);
  }

  /** The body of the day loop. */
  method ProcessDay(outputDir: string, symbol: string, day: nat, closed: set<int>,
                    expsFor: string -> Result<Envelope>,
                    dataFor: (string, string, string) -> Result<Envelope>) returns (run: Run)
    ensures run == DayRun(outputDir, symbol, day, closed, expsFor, dataFor)
  {
    var dayStr := Compact(DateOf(day));
    var exps := GetExpirations(expsFor(dayStr), dayStr);
    if exps.Err? {
      return Run([], Some(exps.error));
    }
    if exps.value == [] {
      return Run([], None);
    }
    var avail: seq<int> := [];
    for i := 0 to |exps.value|
      invariant Gather(exps.value[..i], ExpirationDay) == Ok(avail)
    {
      GatherStep(exps.value, ExpirationDay, i, avail);
      var d := ExpirationDay(exps.value[i]);
      if d.Err? {
        GatherStop(exps.value, ExpirationDay, i + 1);
        return Run([], Some(d.error));
      }
      avail := avail + d.value;
    }
    assert exps.value[..|exps.value|] == exps.value;
    assert ExpirationDays(exps.value) == Ok(avail);
    var targets := SelectTargetExpirations(symbol, day, avail, closed);
    assert targets == DayTargets(symbol, day, avail, closed);
    run := SaveTargets(outputDir, symbol, targets, day, dataFor);
  }

  /** The day loop. */
  method SaveDays(outputDir: string, symbol: string, days: seq<int>, closed: set<int>,
                  expsFor: string -> Result<Envelope>,
                  dataFor: (string, string, string) -> Result<Envelope>) returns (run: Run)
    requires forall k :: 0 <= k < |days| ==> days[k] >= 0
    ensures run == DaysRun(outputDir, symbol, days, closed, expsFor, dataFor)
  {
    ghost var runs := DayRuns(outputDir, symbol, days, closed, expsFor, dataFor);
    var writes: seq<Write> := [];
    for i := 0 to |days|
      invariant Chain(runs) == After(writes, Chain(runs[i..]))
    {
      var one := ProcessDay(outputDir, symbol, days[i], closed, expsFor, dataFor);
      ChainStep(runs, i, writes);
      if one.error.Some? {
        return Run(writes + one.writes, one.error);
      }
      writes := writes + one.writes;
    }
    ChainEnd(runs, writes);
    return Run(writes, None);
  }

  /** `_worker_main`: the holiday loop, the day loop and, for each trading day, its
      targets; an exception ends the worker with the files written so far. */
  method WorkerMain(outputDir: string, symbol: string, start: Date, end: Date,
                    holidaysFor: int -> Result<Envelope>,
                    expsFor: string -> Result<Envelope>,
                    dataFor: (string, string, string) -> Result<Envelope>) returns (run: Run)
    requires ValidDate(start) && ValidDate(end)
    ensures run == Worker(outputDir, symbol, start, end, holidaysFor, expsFor, dataFor)
  {
    var closed := LoadClosedDates(start, end, holidaysFor);
    if closed.Err? {
      return Run([], Some(closed.error));
    }
    var days := TradingDaysBetween(start, end, closed.value);
    if days.Err? {
      return Run([], Some(days.error));
    }
    DayNumberNonNegative(start);
    assert forall k :: 0 <= k < |days.value| ==> days.value[k] in days.value;
    run := SaveDays(outputDir, symbol, days.value, closed.value, expsFor, dataFor);
  }
}
