/** The decision logic of `ThetaClient` in `client.py`: date compaction, the
    post-processing of the expiration and strike listings, and the spot-proxy derivation
    of `fetch_underlying_ohlc`. Each HTTP call is replaced by its decoded response,
    handed in as a value (or, where the request depends on earlier answers, as a
    function from the request to its response). */
module Client {
  import opened Wrappers
  import opened Strings
  import opened Sorting
  import opened Collect
  import opened Json
  import opened Frames
  import opened Dates
  import opened Corrector
  import opened Utils
  import opened Models
  import opened Aggregation

  /** A decoded response body. */
  type Envelope = seq<(string, Json)>

  /** `_format_date`: every '-' removed. */
  function FormatDate(dateStr: string): (r: string)
    ensures '-' !in r
  {
    Without(dateStr, '-')
  }

  /** Compacting `YYYY-MM-DD` gives `YYYYMMDD`, the other characters kept in order. */
  lemma FormatDateOfIso(d: Date)
    requires ValidDate(d)
    ensures FormatDate(Iso(d)) == Compact(d)
  {
    var y, m, dd := Decimal(d.year, 4), Decimal(d.month, 2), Decimal(d.day, 2);
    assert '-' !in y && '-' !in m && '-' !in dd;
    DashesRemoved(y, m, dd);
  }

  lemma DashesRemoved(y: string, m: string, d: string)
    requires '-' !in y && '-' !in m && '-' !in d
    ensures Without(y + "-" + m + "-" + d, '-') == y + m + d
  {
    assert Without("-", '-') == [];
    WithoutAbsent(y, '-');
    WithoutAbsent(m, '-');
    WithoutAbsent(d, '-');
    WithoutAppend(y, "-", '-');
    assert Without(y + "-", '-') == y;
    WithoutAppend(y + "-", m, '-');
    assert Without(y + "-" + m, '-') == y + m;
    WithoutAppend(y + "-" + m, "-", '-');
    assert Without(y + "-" + m + "-", '-') == y + m;
    WithoutAppend(y + "-" + m + "-", d, '-');
  }

  /** Compacting twice is compacting once. */
  lemma FormatDateIdempotent(dateStr: string)
    ensures FormatDate(FormatDate(dateStr)) == FormatDate(dateStr)
  {
    WithoutIdempotent(dateStr, '-');
  }

  /** `d.get(key)`, with an absent key read as `None`. */
  function GetOrNone(fields: seq<(string, Json)>, key: string): Json
  {
    match Get(fields, key)
    case Some(v) => v
    case None => Null
  }

  // ---------------------------------------------------------------- expirations

  /** What one listed item adds in `get_expirations`: a dict's `expiration`, any other
      item's `str()`, kept when truthy, with its dashes removed. A truthy value that is
      not a string has no `replace` method. */
  function ExpirationOf(item: Json): (r: Result<seq<string>>)
    ensures r.Ok? ==> |r.value| <= 1 && forall k :: 0 <= k < |r.value| ==> '-' !in r.value[k]
    ensures item.Obj? ==> var val := GetOrNone(item.fields, "expiration");
      (!Truthy(val) ==> r == Ok([])) &&
      (val.Str? && val.s != [] ==> r == Ok([Without(val.s, '-')])) &&
      (Truthy(val) && !val.Str? ==> r.Err? && r.error.AttributeError?)
    ensures !item.Obj? ==> r == if PyStr(item) == [] then Ok([]) else Ok([Without(PyStr(item), '-')])
  {
    if item.Obj? then
      var val := GetOrNone(item.fields, "expiration");
      if !Truthy(val) then Ok([])
      else if val.Str? then Ok([Without(val.s, '-')])
      else Err(AttributeError("object has no attribute 'replace'"))
    else
      var val := PyStr(item);
      if val == [] then Ok([]) else Ok([Without(val, '-')])
  }

  /** `[exp for exp in processed if exp >= date_fmt]`. */
  function AtOrAfter(exps: seq<string>, dateFmt: string): (r: seq<string>)
    ensures forall k :: 0 <= k < |r| ==> StrLe(dateFmt, r[k])
    ensures forall e :: multiset(r)[e] == if StrLe(dateFmt, e) then multiset(exps)[e] else 0
  {
    if exps == [] then []
    else
      assert exps == [exps[0]] + exps[1..];
      (if StrLe(dateFmt, exps[0]) then [exps[0]] else []) + AtOrAfter(exps[1..], dateFmt)
  }

  /** The response's items after the per-item processing of `get_expirations`. */
  function ListedExpirations(fetched: Result<Envelope>): (r: Result<seq<string>>)
    ensures r.Ok? ==> forall k :: 0 <= k < |r.value| ==> '-' !in r.value[k]
  {
    var resp :- fetched;
    var data :- ParseResponse(resp);
    var items :- Iterate(data);
    Gather(items, ExpirationOf)
  }

  /** A listing processed to the end is every item's contribution, in the listing's order. */
  lemma ListedExpirationsInOrder(fetched: Result<Envelope>)
    requires ListedExpirations(fetched).Ok?
    ensures fetched.Ok? && ParseResponse(fetched.value).Ok? && Iterate(ParseResponse(fetched.value).value).Ok?
    ensures var items := Iterate(ParseResponse(fetched.value).value).value;
      (forall i :: 0 <= i < |items| ==> ExpirationOf(items[i]).Ok?) &&
      ListedExpirations(fetched).value == Joined(items, ExpirationOf)
  {
    GatherJoined(Iterate(ParseResponse(fetched.value).value).value, ExpirationOf);
  }

  /** The list `get_expirations` returns. */
  function Expirations(fetched: Result<Envelope>, date: string): (r: Result<seq<string>>)
    ensures r.Ok? <==> ListedExpirations(fetched).Ok?
  {
    var processed :- ListedExpirations(fetched);
    StrLeTotalOrder();
    Ok(Sort(AtOrAfter(processed, FormatDate(date)), StrLe))
  }

  /** The expirations come out sorted, none before the request date, without dashes, and
      with every kept listing entry present as often as it was listed. */
  lemma ExpirationsResult(fetched: Result<Envelope>, date: string)
    requires Expirations(fetched, date).Ok?
    ensures SortedBy(Expirations(fetched, date).value, StrLe)
    ensures forall k :: 0 <= k < |Expirations(fetched, date).value| ==>
      StrLe(FormatDate(date), Expirations(fetched, date).value[k]) && '-' !in Expirations(fetched, date).value[k]
    ensures forall e :: (multiset(Expirations(fetched, date).value)[e] ==
      if StrLe(FormatDate(date), e) then multiset(ListedExpirations(fetched).value)[e] else 0)
  {
    var processed := ListedExpirations(fetched).value;
    var kept := AtOrAfter(processed, FormatDate(date));
    var r := Expirations(fetched, date).value;
    StrLeTotalOrder();
    assert multiset(r) == multiset(kept);
    forall k | 0 <= k < |r| ensures StrLe(FormatDate(date), r[k]) && '-' !in r[k] {
      assert r[k] in multiset(kept);
      var j :| 0 <= j < |kept| && kept[j] == r[k];
      assert kept[j] in multiset(processed);
    }
  }

  /** `get_expirations`: the listing loop over the response items, then the filter and sort. */
  method GetExpirations(fetched: Result<Envelope>, date: string) returns (r: Result<seq<string>>)
    ensures r == Expirations(fetched, date)
  {
    var dateFmt := FormatDate(date);
    var resp :- fetched;
    var data :- ParseResponse(resp);
    var items :- Iterate(data);
    var processedExps: seq<string> := [];
    for i := 0 to |items|
      invariant Gather(items[..i], ExpirationOf) == Ok(processedExps)
    {
      var val := ExpirationOf(items[i]);
      GatherStep(items, ExpirationOf, i, processedExps);
      if val.Err? {
        GatherStop(items, ExpirationOf, i + 1);
        return Err(val.error);
      }
      processedExps := processedExps + val.value;
    }
    assert items[..|items|] == items;
    StrLeTotalOrder();
    return Ok(Sort(AtOrAfter(processedExps, dateFmt), StrLe));
  }

  // ---------------------------------------------------------------- strikes

  /** Python's `float(v)` on a listed strike value (strikes are whole numbers here). */
  function ToFloat(v: Json): (r: Result<int>)
    requires !v.Null?
    ensures v.Int? ==> r == Ok(v.i)
    ensures v.Bool? ==> r == Ok(if v.b then 1 else 0)
    ensures v.Str? ==> (r.Ok? <==> ParseNat(v.s).Ok?)
    ensures v.Arr? || v.Obj? ==> r.Err? && r.error.TypeError?
  {
    match v
    case Int(i) => Ok(i)
    case Bool(b) => Ok(if b then 1 else 0)
    case Str(s) =>
      if ParseNat(s).Ok? then Ok(ParseNat(s).value)
      else Err(ValueError("could not convert string to float: '" + s + "'"))
    case Arr(_) => Err(TypeError("float() argument must be a string or a real number, not 'list'"))
    case Obj(_) => Err(TypeError("float() argument must be a string or a real number, not 'dict'"))
  }

  /** The value `get_strikes` reads from one item: a dict's `strike` when truthy, else
      its `value`; any other item itself. */
  function StrikeValue(item: Json): Json
  {
    if item.Obj? then
      var strike := GetOrNone(item.fields, "strike");
      if Truthy(strike) then strike else GetOrNone(item.fields, "value")
    else item
  }

  /** What one listed item adds in `get_strikes`: nothing for `None`, else its `float()`. */
  function StrikeOf(item: Json): (r: Result<seq<int>>)
    ensures StrikeValue(item).Null? ==> r == Ok([])
    ensures !StrikeValue(item).Null? ==>
      (r.Ok? <==> ToFloat(StrikeValue(item)).Ok?) &&
      (r.Ok? ==> r.value == [ToFloat(StrikeValue(item)).value])
  {
    var val := StrikeValue(item);
    if val.Null? then Ok([])
    else
      var x :- ToFloat(val);
      Ok([x])
  }

  /** The response's items after the per-item processing of `get_strikes`. */
  function ListedStrikes(fetched: Result<Envelope>): Result<seq<int>>
  {
    var resp :- fetched;
    var data :- ParseResponse(resp);
    var items :- Iterate(data);
    Gather(items, StrikeOf)
  }

  predicate IntLe(a: int, b: int) { a <= b }

  /** The list `get_strikes` returns. */
  function Strikes(fetched: Result<Envelope>): (r: Result<seq<int>>)
    ensures r.Ok? <==> ListedStrikes(fetched).Ok?
  {
    var listed :- ListedStrikes(fetched);
    Ok(Sort(listed, IntLe))
  }

  /** The strikes come out ascending, holding each listed strike as often as it was
      listed; a dict item with a truthy `strike` contributes that strike. */
  lemma StrikesResult(fetched: Result<Envelope>)
    requires Strikes(fetched).Ok?
    ensures forall i, j :: 0 <= i < j < |Strikes(fetched).value| ==>
      Strikes(fetched).value[i] <= Strikes(fetched).value[j]
    ensures multiset(Strikes(fetched).value) == multiset(ListedStrikes(fetched).value)
    ensures forall item: Json, x: int :: item.Obj? && GetOrNone(item.fields, "strike") == Int(x) && x != 0 ==>
      StrikeOf(item) == Ok([x])
  {
    var r := Strikes(fetched).value;
    assert SortedBy(r, IntLe);
    forall i, j | 0 <= i < j < |r| ensures r[i] <= r[j] {
      assert IntLe(r[i], r[j]);
    }
  }

  /** A listing processed to the end is every item's strike, in the listing's order: one
      entry per item whose strike value is not `None`. */
  lemma ListedStrikesInOrder(fetched: Result<Envelope>)
    requires ListedStrikes(fetched).Ok?
    ensures fetched.Ok? && ParseResponse(fetched.value).Ok? && Iterate(ParseResponse(fetched.value).value).Ok?
    ensures var items := Iterate(ParseResponse(fetched.value).value).value;
      (forall i :: 0 <= i < |items| ==> StrikeOf(items[i]).Ok?) &&
      ListedStrikes(fetched).value == Joined(items, StrikeOf)
  {
    GatherJoined(Iterate(ParseResponse(fetched.value).value).value, StrikeOf);
  }

  /** Every listed item's strike is among the strikes `get_strikes` returns; in particular
      a dict item with a non-zero integer `strike` contributes that strike. */
  lemma StrikesHaveItems(fetched: Result<Envelope>)
    requires Strikes(fetched).Ok?
    ensures fetched.Ok? && ParseResponse(fetched.value).Ok? && Iterate(ParseResponse(fetched.value).value).Ok?
    ensures var items := Iterate(ParseResponse(fetched.value).value).value;
      forall i :: 0 <= i < |items| ==>
        StrikeOf(items[i]).Ok? && forall x :: x in StrikeOf(items[i]).value ==> x in Strikes(fetched).value
    ensures var items := Iterate(ParseResponse(fetched.value).value).value;
      forall i, x :: 0 <= i < |items| && items[i].Obj? && GetOrNone(items[i].fields, "strike") == Int(x) && x != 0 ==>
        x in Strikes(fetched).value
  {
    var items := Iterate(ParseResponse(fetched.value).value).value;
    var listed := ListedStrikes(fetched).value;
    assert multiset(Strikes(fetched).value) == multiset(listed);
    forall i | 0 <= i < |items|
      ensures StrikeOf(items[i]).Ok? && forall x :: x in StrikeOf(items[i]).value ==> x in Strikes(fetched).value
    {
      GatherHas(items, StrikeOf, i);
      forall x | x in StrikeOf(items[i]).value ensures x in Strikes(fetched).value {
        assert x in multiset(listed);
      }
    }
  }

  /** `get_strikes`: the listing loop over the response items, then the sort. */
  method GetStrikes(fetched: Result<Envelope>) returns (r: Result<seq<int>>)
    ensures r == Strikes(fetched)
  {
    var resp :- fetched;
    var data :- ParseResponse(resp);
    var items :- Iterate(data);
    var processedStrikes: seq<int> := [];
    for i := 0 to |items|
      invariant Gather(items[..i], StrikeOf) == Ok(processedStrikes)
    {
      var val := StrikeValue(items[i]);
      GatherStep(items, StrikeOf, i, processedStrikes);
      if !val.Null? {
        var x := ToFloat(val);
        if x.Err? {
          GatherStop(items, StrikeOf, i + 1);
          return Err(x.error);
        }
        processedStrikes := processedStrikes + [x.value];
      } else {
        assert processedStrikes + [] == processedStrikes;
      }
    }
    assert items[..|items|] == items;
    return Ok(Sort(processedStrikes, IntLe));
  }

  /** `strikes[len(strikes) // 2]`: the at-the-money strike of a non-empty sorted list. */
  function MiddleStrike(strikes: seq<int>): (x: int)
    requires |strikes| > 0
    ensures x in strikes
    ensures SortedBy(strikes, IntLe) ==>
      (forall i :: 0 <= i < |strikes| / 2 ==> strikes[i] <= x) &&
      (forall i :: |strikes| / 2 < i < |strikes| ==> x <= strikes[i])
  {
    strikes[|strikes| / 2]
  }

  // ---------------------------------------------------------------- flattening

  /** What one response item adds to `rows`: a dict carrying `data` adds that value's
      items, anything else adds itself. */
  function FlattenItem(item: Json): (r: Result<seq<Json>>)
    ensures !(item.Obj? && "data" in Keys(item.fields)) ==> r == Ok([item])
  {
    if item.Obj? && "data" in Keys(item.fields) then Iterate(Get(item.fields, "data").value)
    else Ok([item])
  }

  /** The `rows` list built from a truthy response payload. */
  function Flatten(raw: Json): Result<seq<Json>>
  {
    var items :- Iterate(raw);
    Gather(items, FlattenItem)
  }

  /** Items without nested `data` pass through unchanged and in order. */
  lemma FlattenPlain(items: seq<Json>)
    requires forall i :: 0 <= i < |items| ==> !(items[i].Obj? && "data" in Keys(items[i].fields))
    ensures Flatten(Arr(items)) == Ok(items)
  {
    GatherSelf(items, FlattenItem);
  }

  /** A v3 envelope `[{"data": rows, ...}]` gives back `rows`. */
  lemma FlattenNested(rows: seq<Json>, rest: seq<(string, Json)>)
    ensures Flatten(Arr([Obj([("data", Arr(rows))] + rest)])) == Ok(rows)
  {
    var item := Obj([("data", Arr(rows))] + rest);
    assert Keys(item.fields)[0] == "data";
    assert Get(item.fields, "data") == Some(Arr(rows));
    assert FlattenItem(item) == Ok(rows);
    GatherStep([item], FlattenItem, 0, []);
    assert [item][..1] == [item];
    assert [] + rows == rows;
  }

  /** The flattening loop of `fetch_underlying_ohlc`. */
  method FlattenRows(items: seq<Json>) returns (r: Result<seq<Json>>)
    ensures r == Gather(items, FlattenItem)
  {
    var rows: seq<Json> := [];
    for i := 0 to |items|
      invariant Gather(items[..i], FlattenItem) == Ok(rows)
    {
      var item := items[i];
      GatherStep(items, FlattenItem, i, rows);
      if item.Obj? && "data" in Keys(item.fields) {
        var nested := Iterate(Get(item.fields, "data").value);
        if nested.Err? {
          GatherStop(items, FlattenItem, i + 1);
          return Err(nested.error);
        }
        rows := rows + nested.value;
      } else {
        rows := rows + [item];
      }
    }
    assert items[..|items|] == items;
    return Ok(rows);
  }

  // ---------------------------------------------------------------- the spot proxy

  /** The outcome of one greeks request: the value `fetch_underlying_ohlc` ends with
      (a record or an exception), or `Skip` when it moves on to the next candidate. */
  datatype Step = Found(result: Result<UnderlyingData>) | Skip

  /** One greeks response, from the decoded envelope to the underlying record: an empty
      payload, an empty table or one without `underlying_price` is skipped; the minute
      bars are repaired by `fix_dataframe` before the record is built. */
  function TryResponse(symbol: string, date: string, interval: string, fetched: Result<Envelope>): (s: Step)
    ensures Derived(s, symbol, date, interval)
    ensures fetched.Err? ==> s == Found(Err(fetched.error))
  {
    match fetched
    case Err(e) => Found(Err(e))
    case Ok(resp) =>
      match ParseResponse(resp)
      case Err(e) => Found(Err(e))
      case Ok(raw) =>
        if !Truthy(raw) then Skip
        else
          match Flatten(raw)
          case Err(e) => Found(Err(e))
          case Ok(rows) =>
            match FromRecords(rows)
            case Err(e) => Found(Err(e))
            case Ok(df) =>
              if IsEmpty(df) || "underlying_price" !in df.columns then Skip
              else
                match Aggregate(df)
                case Err(e) => Found(Err(e))
                case Ok(ohlc) => Found(MakeUnderlyingData(symbol, Repaired(ohlc), date, interval))
  }

  /** A greeks response is passed over exactly when it decodes to a falsy payload, or to a
      table that is empty or has no `underlying_price` column; anything else, an
      exception included, ends the search. */
  lemma SkippedResponse(symbol: string, date: string, interval: string, fetched: Result<Envelope>)
    ensures TryResponse(symbol, date, interval, fetched) == Skip <==>
      fetched.Ok? && ParseResponse(fetched.value).Ok? &&
      var raw := ParseResponse(fetched.value).value;
      (!Truthy(raw) ||
       (Flatten(raw).Ok? && FromRecords(Flatten(raw).value).Ok? &&
        var df := FromRecords(Flatten(raw).value).value;
        IsEmpty(df) || "underlying_price" !in df.columns))
  {
  }

  /** A record found for a request carries its symbol, date and interval and a
      non-empty table of minute bars. */
  predicate Derived(s: Step, symbol: string, date: string, interval: string)
  {
    s.Found? && s.result.Ok? ==>
      s.result.value.symbol == symbol && s.result.value.date == date && s.result.value.interval == interval &&
      s.result.value.data.columns == OhlcColumns && |s.result.value.data.rows| >= 1
  }

  /** The loop over the rights: the first response that is not skipped decides. */
  function TryRights(symbol: string, date: string, interval: string, exp: string, strike: int,
                     greeksFor: (string, int, string) -> Result<Envelope>, rights: seq<string>): (s: Step)
    ensures s == Skip <==> SkippedBefore(symbol, date, interval, exp, strike, greeksFor, rights, |rights|)
    ensures s.Found? ==> exists j :: 0 <= j < |rights| && s == TryResponse(symbol, date, interval, greeksFor(exp, strike, rights[j])) &&
                                     SkippedBefore(symbol, date, interval, exp, strike, greeksFor, rights, j)
    ensures Derived(s, symbol, date, interval)
  {
    if rights == [] then Skip
    else
      match TryResponse(symbol, date, interval, greeksFor(exp, strike, rights[0]))
      case Skip =>
        var s := TryRights(symbol, date, interval, exp, strike, greeksFor, rights[1..]);
        SkippedShift(symbol, date, interval, exp, strike, greeksFor, rights);
        assert s.Found? ==> exists j :: 0 <= j < |rights| && s == TryResponse(symbol, date, interval, greeksFor(exp, strike, rights[j])) &&
                                        SkippedBefore(symbol, date, interval, exp, strike, greeksFor, rights, j) by {
          if s.Found? {
            var j :| 0 <= j < |rights[1..]| && s == TryResponse(symbol, date, interval, greeksFor(exp, strike, rights[1..][j])) &&
              SkippedBefore(symbol, date, interval, exp, strike, greeksFor, rights[1..], j);
            assert rights[1..][j] == rights[j + 1];
          }
        }
        s
      case found =>
        assert SkippedBefore(symbol, date, interval, exp, strike, greeksFor, rights, 0);
        found
  }

  /** The first `j` rights' responses are all skipped. */
  predicate SkippedBefore(symbol: string, date: string, interval: string, exp: string, strike: int,
                          greeksFor: (string, int, string) -> Result<Envelope>, rights: seq<string>, j: nat)
    requires j <= |rights|
  {
    forall i :: 0 <= i < j ==> TryResponse(symbol, date, interval, greeksFor(exp, strike, rights[i])) == Skip
  }

  /** With the first right skipped, the rights before `j + 1` are skipped exactly when the
      remaining rights before `j` are. */
  lemma SkippedShift(symbol: string, date: string, interval: string, exp: string, strike: int,
                     greeksFor: (string, int, string) -> Result<Envelope>, rights: seq<string>)
    requires rights != [] && TryResponse(symbol, date, interval, greeksFor(exp, strike, rights[0])) == Skip
    ensures forall j :: 0 <= j < |rights| ==>
      (SkippedBefore(symbol, date, interval, exp, strike, greeksFor, rights, j + 1) <==>
       SkippedBefore(symbol, date, interval, exp, strike, greeksFor, rights[1..], j))
  {
    forall j | 0 <= j < |rights|
      ensures SkippedBefore(symbol, date, interval, exp, strike, greeksFor, rights, j + 1) <==>
              SkippedBefore(symbol, date, interval, exp, strike, greeksFor, rights[1..], j)
    {
      assert forall i :: 0 < i < j + 1 ==> rights[i] == rights[1..][i - 1];
    }
  }

  /** The loop over the expirations: an expiration without strikes is skipped, a failed
      strike listing raises, otherwise the middle strike's call and then put are tried. */
  function TryExpirations(symbol: string, date: string, interval: string, exps: seq<string>,
                          strikesFor: string -> Result<Envelope>,
                          greeksFor: (string, int, string) -> Result<Envelope>): (s: Step)
    ensures Derived(s, symbol, date, interval)
    ensures s == Skip ==> forall j :: 0 <= j < |exps| ==> Strikes(strikesFor(exps[j])).Ok?
  {
    if exps == [] then Skip
    else
      match Strikes(strikesFor(exps[0]))
      case Err(e) => Found(Err(e))
      case Ok(strikes) =>
        if strikes == [] then TryExpirations(symbol, date, interval, exps[1..], strikesFor, greeksFor)
        else
          match TryRights(symbol, date, interval, exps[0], MiddleStrike(strikes), greeksFor, ["C", "P"])
          case Skip => TryExpirations(symbol, date, interval, exps[1..], strikesFor, greeksFor)
          case found => found
  }

  /** An expiration with no strikes, or whose call and put are both skipped, passes the
      search on to the next expiration; a failed strike listing ends it. */
  lemma NextExpiration(symbol: string, date: string, interval: string, exps: seq<string>,
                       strikesFor: string -> Result<Envelope>,
                       greeksFor: (string, int, string) -> Result<Envelope>)
    requires exps != []
    ensures var strikes := Strikes(strikesFor(exps[0]));
      strikes.Err? ==> TryExpirations(symbol, date, interval, exps, strikesFor, greeksFor) == Found(Err(strikes.error))
    ensures var strikes := Strikes(strikesFor(exps[0]));
      strikes.Ok? && (strikes.value == [] ||
        TryRights(symbol, date, interval, exps[0], MiddleStrike(strikes.value), greeksFor, ["C", "P"]) == Skip) ==>
      TryExpirations(symbol, date, interval, exps, strikesFor, greeksFor) ==
      TryExpirations(symbol, date, interval, exps[1..], strikesFor, greeksFor)
    ensures var strikes := Strikes(strikesFor(exps[0]));
      strikes.Ok? && strikes.value != [] &&
      TryRights(symbol, date, interval, exps[0], MiddleStrike(strikes.value), greeksFor, ["C", "P"]).Found? ==>
      TryExpirations(symbol, date, interval, exps, strikesFor, greeksFor) ==
      TryRights(symbol, date, interval, exps[0], MiddleStrike(strikes.value), greeksFor, ["C", "P"])
  {
  }

  /** The expirations `fetch_underlying_ohlc` tries: the first two. */
  function FirstTwo(exps: seq<string>): (r: seq<string>)
    ensures |r| == if |exps| < 2 then |exps| else 2
    ensures r == exps[..|r|]
  {
    exps[..if |exps| < 2 then |exps| else 2]
  }

  /** `fetch_underlying_ohlc`. `expsFetched` is the expiration listing's response,
      `strikesFor(e)` the strike listing's response for expiration `e`, and
      `greeksFor(e, k, right)` the greeks history's response for one contract. */
  function FetchUnderlying(symbol: string, date: string, interval: string, expsFetched: Result<Envelope>,
                           strikesFor: string -> Result<Envelope>,
                           greeksFor: (string, int, string) -> Result<Envelope>): Result<UnderlyingData>
  {
    var exps :- Expirations(expsFetched, date);
    if exps == [] then Err(NoExpirations("No expirations available for " + symbol + " on " + date))
    else
      match TryExpirations(symbol, date, interval, FirstTwo(exps), strikesFor, greeksFor)
      case Found(r) => r
      case Skip => Err(DerivationFailed("Could not derive underlying price for " + symbol + " after trying multiple expirations."))
  }

  /** A derived record carries the request's symbol, date and interval and a non-empty
      table of minute bars; a listing with no expiration from the requested date on
      raises "no expirations". */
  lemma FetchUnderlyingResult(symbol: string, date: string, interval: string, expsFetched: Result<Envelope>,
                              strikesFor: string -> Result<Envelope>,
                              greeksFor: (string, int, string) -> Result<Envelope>)
    ensures var r := FetchUnderlying(symbol, date, interval, expsFetched, strikesFor, greeksFor);
      r.Ok? ==> r.value.symbol == symbol && r.value.date == date && r.value.interval == interval &&
                r.value.data.columns == OhlcColumns && |r.value.data.rows| >= 1
    ensures Expirations(expsFetched, date) == Ok([]) ==>
      FetchUnderlying(symbol, date, interval, expsFetched, strikesFor, greeksFor) ==
      Err(NoExpirations("No expirations available for " + symbol + " on " + date))
  {
    var exps := Expirations(expsFetched, date);
    if exps.Ok? && exps.value != [] {
      var s := TryExpirations(symbol, date, interval, FirstTwo(exps.value), strikesFor, greeksFor);
      assert Derived(s, symbol, date, interval);
    }
  }

  /** When every strike listing succeeds and every greeks response is skipped, the search
      comes back empty-handed. */
  lemma {:induction false} AllSkipped(symbol: string, date: string, interval: string, exps: seq<string>,
                                      strikesFor: string -> Result<Envelope>,
                                      greeksFor: (string, int, string) -> Result<Envelope>)
    requires forall i :: 0 <= i < |exps| ==> Strikes(strikesFor(exps[i])).Ok?
    requires forall e, k, right :: TryResponse(symbol, date, interval, greeksFor(e, k, right)) == Skip
    ensures TryExpirations(symbol, date, interval, exps, strikesFor, greeksFor) == Skip
  {
    if exps != [] {
      assert forall i :: 0 <= i < |exps[1..]| ==> exps[1..][i] == exps[i + 1];
      AllSkipped(symbol, date, interval, exps[1..], strikesFor, greeksFor);
    }
  }

  /** Only the first two listed expirations are consulted: listings that agree on them
      give the same outcome. */
  lemma OnlyFirstTwo(symbol: string, date: string, interval: string, a: Result<Envelope>, b: Result<Envelope>,
                     strikesFor: string -> Result<Envelope>,
                     greeksFor: (string, int, string) -> Result<Envelope>)
    requires Expirations(a, date).Ok? && Expirations(b, date).Ok?
    requires |Expirations(a, date).value| >= 2 && |Expirations(b, date).value| >= 2
    requires Expirations(a, date).value[..2] == Expirations(b, date).value[..2]
    ensures FetchUnderlying(symbol, date, interval, a, strikesFor, greeksFor) ==
            FetchUnderlying(symbol, date, interval, b, strikesFor, greeksFor)
  {
  }

  /** A usable call quote for the middle strike of the first expiration wins outright. */
  lemma FirstUsableWins(symbol: string, date: string, interval: string, expsFetched: Result<Envelope>,
                        strikesFor: string -> Result<Envelope>,
                        greeksFor: (string, int, string) -> Result<Envelope>)
    requires Expirations(expsFetched, date).Ok? && Expirations(expsFetched, date).value != []
    requires var e := Expirations(expsFetched, date).value[0];
      Strikes(strikesFor(e)).Ok? && Strikes(strikesFor(e)).value != [] &&
      TryResponse(symbol, date, interval, greeksFor(e, MiddleStrike(Strikes(strikesFor(e)).value), "C")).Found?
    ensures var e := Expirations(expsFetched, date).value[0];
      FetchUnderlying(symbol, date, interval, expsFetched, strikesFor, greeksFor) ==
      TryResponse(symbol, date, interval, greeksFor(e, MiddleStrike(Strikes(strikesFor(e)).value), "C")).result
  {
    var exps := Expirations(expsFetched, date).value;
    var targets := FirstTwo(exps);
    assert targets[0] == exps[0];
    var e := exps[0];
    var strike := MiddleStrike(Strikes(strikesFor(e)).value);
    var call := TryResponse(symbol, date, interval, greeksFor(e, strike, "C"));
    assert ["C", "P"][0] == "C";
    assert TryRights(symbol, date, interval, e, strike, greeksFor, ["C", "P"]) == call;
    NextExpiration(symbol, date, interval, targets, strikesFor, greeksFor);
    assert TryExpirations(symbol, date, interval, targets, strikesFor, greeksFor) == call;
  }

  /** One greeks request of `fetch_underlying_ohlc`, step by step. */
  method TryGreeks(symbol: string, date: string, interval: string, fetched: Result<Envelope>) returns (step: Step)
    ensures step == TryResponse(symbol, date, interval, fetched)
  {
    if fetched.Err? { return Found(Err(fetched.error)); }
    var parsed := ParseResponse(fetched.value);
    if parsed.Err? { return Found(Err(parsed.error)); }
    var rawItems := parsed.value;
    if !Truthy(rawItems) { return Skip; }
    var items := Iterate(rawItems);
    if items.Err? { return Found(Err(items.error)); }
    var rows := FlattenRows(items.value);
    if rows.Err? { return Found(Err(rows.error)); }
    var df := FromRecords(rows.value);
    if df.Err? { return Found(Err(df.error)); }
    if IsEmpty(df.value) || "underlying_price" !in df.value.columns { return Skip; }
    var ohlc := Aggregate(df.value);
    if ohlc.Err? { return Found(Err(ohlc.error)); }
    var fixed := FixDataframe(ohlc.value);
    return Found(MakeUnderlyingData(symbol, fixed, date, interval));
  }

  /** The inner loop of `fetch_underlying_ohlc`: the call, then the put. */
  method TryBothRights(symbol: string, date: string, interval: string, targetExp: string, targetStrike: int,
                       greeksFor: (string, int, string) -> Result<Envelope>) returns (step: Step)
    ensures step == TryRights(symbol, date, interval, targetExp, targetStrike, greeksFor, ["C", "P"])
  {
    var rights := ["C", "P"];
    for j := 0 to |rights|
      invariant TryRights(symbol, date, interval, targetExp, targetStrike, greeksFor, rights) ==
                TryRights(symbol, date, interval, targetExp, targetStrike, greeksFor, rights[j..])
    {
      assert rights[j..][0] == rights[j] && rights[j..][1..] == rights[j + 1..];
      step := TryGreeks(symbol, date, interval, greeksFor(targetExp, targetStrike, rights[j]));
      if step.Found? {
        return step;
      }
    }
    assert rights[|rights|..] == [];
    return Skip;
  }

  /** The outer loop of `fetch_underlying_ohlc`, over the expirations it tries. */
  method TryTargets(symbol: string, date: string, interval: string, targets: seq<string>,
                    strikesFor: string -> Result<Envelope>,
                    greeksFor: (string, int, string) -> Result<Envelope>) returns (step: Step)
    ensures step == TryExpirations(symbol, date, interval, targets, strikesFor, greeksFor)
  {
    for t := 0 to |targets|
      invariant TryExpirations(symbol, date, interval, targets, strikesFor, greeksFor) ==
                TryExpirations(symbol, date, interval, targets[t..], strikesFor, greeksFor)
    {
      var targetExp := targets[t];
      assert targets[t..][0] == targetExp && targets[t..][1..] == targets[t + 1..];
      var strikes := GetStrikes(strikesFor(targetExp));
      if strikes.Err? {
        return Found(Err(strikes.error));
      }
      if |strikes.value| == 0 {
        continue;
      }
      var targetStrike := strikes.value[|strikes.value| / 2];
      step := TryBothRights(symbol, date, interval, targetExp, targetStrike, greeksFor);
      if step.Found? {
        return step;
      }
    }
    assert targets[|targets|..] == [];
    return Skip;
  }

  /** `fetch_underlying_ohlc`: the expiration listing, then the search over the first two
      expirations and the two rights. */
  method FetchUnderlyingOhlc(symbol: string, date: string, interval: string, expsFetched: Result<Envelope>,
                             strikesFor: string -> Result<Envelope>,
                             greeksFor: (string, int, string) -> Result<Envelope>)
    returns (r: Result<UnderlyingData>)
    ensures r == FetchUnderlying(symbol, date, interval, expsFetched, strikesFor, greeksFor)
  {
    var exps :- GetExpirations(expsFetched, date);
    if |exps| == 0 {
      return Err(NoExpirations("No expirations available for " + symbol + " on " + date));
    }
    var step := TryTargets(symbol, date, interval, FirstTwo(exps), strikesFor, greeksFor);
    if step.Found? {
      return step.result;
    }
    return Err(DerivationFailed("Could not derive underlying price for " + symbol + " after trying multiple expirations."));
  }
}
