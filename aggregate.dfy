/** The minute aggregation at the end of `fetch_underlying_ohlc`: quotes keyed by a
    millisecond timestamp are sorted by time, grouped by the minute they fall in, and
    each group becomes one bar (first, highest, lowest and last price, and the number
    of quotes). */
module Aggregation {
  import opened Wrappers
  import opened Sorting
  import opened Collect
  import opened Frames

  /** One usable quote: a millisecond timestamp and an underlying price. */
  datatype Tick = Tick(ts: int, price: int)

  /** One row of the result: the minute (counted in minutes from the epoch) and the
      aggregates of the prices quoted during it. */
  datatype Bar = Bar(minute: int, open: int, high: int, low: int, close: int, volume: nat)

  /** `dt.floor('min')`, in minutes; floors towards the past for times before the epoch. */
  function Minute(ts: int): (m: int)
    ensures m * 60000 <= ts < m * 60000 + 60000
  {
    ts / 60000
  }

  lemma MinuteMonotone(a: int, b: int)
    requires a <= b
    ensures Minute(a) <= Minute(b)
  {
  }

  predicate ByTime(a: Tick, b: Tick) { a.ts <= b.ts }

  // ------------------------------------------------------------ the reference grouping

  /** The prices of the quotes of minute `m`, in their order. */
  function PricesIn(ticks: seq<Tick>, m: int): (ps: seq<int>)
    ensures |ps| <= |ticks|
  {
    if ticks == [] then []
    else (if Minute(ticks[0].ts) == m then [ticks[0].price] else []) + PricesIn(ticks[1..], m)
  }

  function SeqMax(ps: seq<int>): (x: int)
    requires ps != []
    ensures x in ps && forall i :: 0 <= i < |ps| ==> ps[i] <= x
  {
    if |ps| == 1 then ps[0]
    else
      var rest := SeqMax(ps[1..]);
      assert forall i :: 1 <= i < |ps| ==> ps[i] == ps[1..][i - 1];
      if ps[0] >= rest then ps[0] else rest
  }

  function SeqMin(ps: seq<int>): (x: int)
    requires ps != []
    ensures x in ps && forall i :: 0 <= i < |ps| ==> x <= ps[i]
  {
    if |ps| == 1 then ps[0]
    else
      var rest := SeqMin(ps[1..]);
      assert forall i :: 1 <= i < |ps| ==> ps[i] == ps[1..][i - 1];
      if ps[0] <= rest then ps[0] else rest
  }

  /** `agg(open='first', high='max', low='min', close='last', volume='count')` of one group. */
  function BarOf(m: int, ps: seq<int>): (b: Bar)
    requires ps != []
    ensures b.low <= b.open <= b.high && b.low <= b.close <= b.high
  {
    Bar(m, ps[0], SeqMax(ps), SeqMin(ps), ps[|ps| - 1], |ps|)
  }

  /** `bars` is the groupby of `ticks` by minute: one bar per minute that has a quote,
      in ascending minute order, each holding the aggregates of that minute's prices. */
  predicate GroupedBy(ticks: seq<Tick>, bars: seq<Bar>)
  {
    MinutesAscending(bars) && Summarised(ticks, bars) && Covered(ticks, bars)
  }

  predicate MinutesAscending(bars: seq<Bar>)
  {
    forall i, j :: 0 <= i < j < |bars| ==> bars[i].minute < bars[j].minute
  }

  /** Each bar aggregates the (non-empty) prices of its minute. */
  predicate Summarised(ticks: seq<Tick>, bars: seq<Bar>)
  {
    forall k :: 0 <= k < |bars| ==>
      PricesIn(ticks, bars[k].minute) != [] && bars[k] == BarOf(bars[k].minute, PricesIn(ticks, bars[k].minute))
  }

  /** Every quote's minute has a bar. */
  predicate Covered(ticks: seq<Tick>, bars: seq<Bar>)
  {
    forall i :: 0 <= i < |ticks| ==> exists k :: 0 <= k < |bars| && bars[k].minute == Minute(ticks[i].ts)
  }

  // ------------------------------------------------------------ the computation

  /** The bars of time-sorted quotes: a quote opens a new bar unless the bar after it
      (built from the later quotes) is of the same minute, in which case it becomes that
      bar's first quote. */
  function Bars(ticks: seq<Tick>): (bars: seq<Bar>)
    ensures |bars| <= |ticks|
    ensures ticks != [] ==> bars != [] && bars[0].minute == Minute(ticks[0].ts)
  {
    if ticks == [] then []
    else
      var m, p := Minute(ticks[0].ts), ticks[0].price;
      var rest := Bars(ticks[1..]);
      if rest != [] && rest[0].minute == m then
        var b := rest[0];
        [Bar(m, p, if p >= b.high then p else b.high, if p <= b.low then p else b.low, b.close, b.volume + 1)]
          + rest[1..]
      else [Bar(m, p, p, p, p, 1)] + rest
  }

  /** The quotes of a minute before the first quote's minute: none. */
  lemma PricesBefore(ticks: seq<Tick>, m: int)
    requires SortedBy(ticks, ByTime) && ticks != [] && m < Minute(ticks[0].ts)
    ensures PricesIn(ticks, m) == []
  {
    if |ticks| > 1 {
      assert ByTime(ticks[0], ticks[1]);
      MinuteMonotone(ticks[0].ts, ticks[1].ts);
      PricesBefore(ticks[1..], m);
    }
  }

  /** Built from time-sorted quotes, the bars are exactly the per-minute groupby. */
  lemma {:induction false} BarsGrouped(ticks: seq<Tick>)
    requires SortedBy(ticks, ByTime)
    ensures GroupedBy(ticks, Bars(ticks))
  {
    if ticks != [] {
      assert SortedBy(ticks[1..], ByTime);
      BarsGrouped(ticks[1..]);
      LaterBars(ticks);
      var rest := Bars(ticks[1..]);
      if rest != [] && rest[0].minute == Minute(ticks[0].ts) {
        MergeStep(ticks);
      } else {
        OpenStep(ticks);
      }
    }
  }

  /** The bars of the later quotes are all of the first quote's minute or later. */
  lemma LaterBars(ticks: seq<Tick>)
    requires SortedBy(ticks, ByTime) && ticks != []
    requires GroupedBy(ticks[1..], Bars(ticks[1..]))
    ensures forall k :: 0 <= k < |Bars(ticks[1..])| ==> Minute(ticks[0].ts) <= Bars(ticks[1..])[k].minute
  {
    var t0, tail := ticks[0], ticks[1..];
    var rest := Bars(tail);
    forall k | 0 <= k < |rest| ensures Minute(t0.ts) <= rest[k].minute {
      assert PricesIn(tail, rest[k].minute) != [];
      if rest[k].minute < Minute(t0.ts) {
        assert ByTime(t0, tail[0]);
        MinuteMonotone(t0.ts, tail[0].ts);
        PricesBefore(tail, rest[k].minute);
      }
    }
  }

  /** The first quote joins the first later bar, which is of its minute. */
  lemma MergeStep(ticks: seq<Tick>)
    requires SortedBy(ticks, ByTime) && ticks != []
    requires GroupedBy(ticks[1..], Bars(ticks[1..]))
    requires Bars(ticks[1..]) != [] && Bars(ticks[1..])[0].minute == Minute(ticks[0].ts)
    ensures GroupedBy(ticks, Bars(ticks))
  {
    var tail, rest := ticks[1..], Bars(ticks[1..]);
    var m, p := Minute(ticks[0].ts), ticks[0].price;
    var ps := PricesIn(tail, m);
    assert PricesIn(ticks, m) == [p] + ps;
    var b := rest[0];
    assert b == BarOf(m, ps) && ps != [];
    var first := Bar(m, p, if p >= b.high then p else b.high, if p <= b.low then p else b.low, b.close, b.volume + 1);
    BarOfCons(m, p, ps);
    assert Bars(ticks) == [first] + rest[1..];
    MergeGroup(ticks, rest, first);
  }

  /** One more price in front of a group. */
  lemma BarOfCons(m: int, p: int, ps: seq<int>)
    requires ps != []
    ensures BarOf(m, [p] + ps) ==
      var b := BarOf(m, ps);
      Bar(m, p, if p >= b.high then p else b.high, if p <= b.low then p else b.low, b.close, b.volume + 1)
  {
    assert ([p] + ps)[1..] == ps;
  }

  /** The first quote's bar `b` replaces the first later bar, which is of the same minute. */
  lemma MergeGroup(ticks: seq<Tick>, rest: seq<Bar>, b: Bar)
    requires ticks != [] && GroupedBy(ticks[1..], rest)
    requires rest != [] && rest[0].minute == Minute(ticks[0].ts) && b.minute == rest[0].minute
    requires b == BarOf(b.minute, PricesIn(ticks, b.minute))
    ensures GroupedBy(ticks, [b] + rest[1..])
  {
    DropFirstBar(ticks[1..], rest);
    AscendingCons(b, rest[1..]);
    SummarisedCons(ticks, b, rest[1..]);
    CoveredMerge(ticks, rest, b);
  }

  /** The bars after the first still group their minutes, and all come later. */
  lemma DropFirstBar(tail: seq<Tick>, rest: seq<Bar>)
    requires GroupedBy(tail, rest) && rest != []
    ensures MinutesAscending(rest[1..]) && Summarised(tail, rest[1..])
    ensures forall k :: 0 <= k < |rest[1..]| ==> rest[0].minute < rest[1..][k].minute
  {
    forall k | 0 <= k < |rest[1..]| ensures rest[1..][k] == rest[k + 1] {
    }
  }

  /** A bar of an earlier minute in front of ascending bars keeps them ascending. */
  lemma AscendingCons(b: Bar, rest: seq<Bar>)
    requires MinutesAscending(rest)
    requires forall k :: 0 <= k < |rest| ==> b.minute < rest[k].minute
    ensures MinutesAscending([b] + rest)
  {
    var bars := [b] + rest;
    forall i, j | 0 <= i < j < |bars| ensures bars[i].minute < bars[j].minute {
      assert bars[j] == rest[j - 1];
      if i > 0 {
        assert bars[i] == rest[i - 1];
      }
    }
  }

  /** The first quote adds nothing to the groups of later minutes. */
  lemma PricesInTail(ticks: seq<Tick>, m: int)
    requires ticks != [] && Minute(ticks[0].ts) != m
    ensures PricesIn(ticks, m) == PricesIn(ticks[1..], m)
  {
  }

  /** The later bars, of later minutes, still summarise their minutes once the first
      quote is put in front, and `b` summarises the first quote's minute. */
  lemma SummarisedCons(ticks: seq<Tick>, b: Bar, rest: seq<Bar>)
    requires ticks != [] && Summarised(ticks[1..], rest)
    requires b.minute == Minute(ticks[0].ts) && b == BarOf(b.minute, PricesIn(ticks, b.minute))
    requires forall k :: 0 <= k < |rest| ==> b.minute < rest[k].minute
    ensures Summarised(ticks, [b] + rest)
  {
    SummarisedLater(ticks, rest);
    assert PricesIn(ticks, b.minute) != [] by {
      assert PricesIn(ticks, b.minute)[0] == ticks[0].price;
    }
    SummarisedFront(ticks, b, rest);
  }

  /** Bars of minutes after the first quote's summarise the same prices with or without it. */
  lemma SummarisedLater(ticks: seq<Tick>, rest: seq<Bar>)
    requires ticks != [] && Summarised(ticks[1..], rest)
    requires forall k :: 0 <= k < |rest| ==> Minute(ticks[0].ts) < rest[k].minute
    ensures Summarised(ticks, rest)
  {
    forall k | 0 <= k < |rest|
      ensures PricesIn(ticks, rest[k].minute) == PricesIn(ticks[1..], rest[k].minute)
    {
      PricesInTail(ticks, rest[k].minute);
    }
  }

  /** A bar that summarises its minute, put in front of bars that do. */
  lemma SummarisedFront(ticks: seq<Tick>, b: Bar, rest: seq<Bar>)
    requires Summarised(ticks, rest)
    requires PricesIn(ticks, b.minute) != [] && b == BarOf(b.minute, PricesIn(ticks, b.minute))
    ensures Summarised(ticks, [b] + rest)
  {
    PrependAll(b, rest, (x: Bar) => PricesIn(ticks, x.minute) != [] && x == BarOf(x.minute, PricesIn(ticks, x.minute)));
  }

  /** A property of `b` and of every element of `rest` holds of every element of `[b] + rest`. */
  lemma PrependAll<T>(b: T, rest: seq<T>, ok: T -> bool)
    requires ok(b) && forall k :: 0 <= k < |rest| ==> ok(rest[k])
    ensures forall k :: 0 <= k < |[b] + rest| ==> ok(([b] + rest)[k])
  {
    forall k | 0 <= k < |[b] + rest| ensures ok(([b] + rest)[k]) {
      if k > 0 {
        assert ([b] + rest)[k] == rest[k - 1];
      }
    }
  }

  /** A bar of the first quote's minute in front of bars covering the later quotes
      covers all the quotes. */
  lemma CoveredCons(ticks: seq<Tick>, b: Bar, rest: seq<Bar>)
    requires ticks != [] && Covered(ticks[1..], rest) && b.minute == Minute(ticks[0].ts)
    ensures Covered(ticks, [b] + rest)
  {
    var bars := [b] + rest;
    forall i | 0 <= i < |ticks|
      ensures exists k :: 0 <= k < |bars| && bars[k].minute == Minute(ticks[i].ts)
    {
      if i > 0 {
        assert ticks[i] == ticks[1..][i - 1];
        var k :| 0 <= k < |rest| && rest[k].minute == Minute(ticks[1..][i - 1].ts);
        assert bars[k + 1] == rest[k];
      } else {
        assert bars[0] == b;
      }
    }
  }

  /** Replacing the first bar by one of the same minute keeps every quote covered. */
  lemma CoveredMerge(ticks: seq<Tick>, rest: seq<Bar>, b: Bar)
    requires ticks != [] && Covered(ticks[1..], rest)
    requires rest != [] && b.minute == rest[0].minute && b.minute == Minute(ticks[0].ts)
    ensures Covered(ticks, [b] + rest[1..])
  {
    var bars := [b] + rest[1..];
    forall i | 0 <= i < |ticks|
      ensures exists k :: 0 <= k < |bars| && bars[k].minute == Minute(ticks[i].ts)
    {
      if i > 0 {
        assert ticks[i] == ticks[1..][i - 1];
        var k :| 0 <= k < |rest| && rest[k].minute == Minute(ticks[1..][i - 1].ts);
        if k > 0 {
          assert bars[k] == rest[k];
        } else {
          assert bars[0].minute == rest[0].minute;
        }
      } else {
        assert bars[0] == b;
      }
    }
  }

  /** The first quote opens a bar of its own, before the later ones. */
  lemma OpenStep(ticks: seq<Tick>)
    requires SortedBy(ticks, ByTime) && ticks != []
    requires GroupedBy(ticks[1..], Bars(ticks[1..]))
    requires forall k :: 0 <= k < |Bars(ticks[1..])| ==> Minute(ticks[0].ts) <= Bars(ticks[1..])[k].minute
    requires !(Bars(ticks[1..]) != [] && Bars(ticks[1..])[0].minute == Minute(ticks[0].ts))
    ensures GroupedBy(ticks, Bars(ticks))
  {
    var t0, tail := ticks[0], ticks[1..];
    var m, p := Minute(t0.ts), t0.price;
    var rest := Bars(tail);
    assert PricesIn(tail, m) == [] by {
      if tail != [] {
        assert ByTime(t0, tail[0]);
        MinuteMonotone(t0.ts, tail[0].ts);
        PricesBefore(tail, m);
      }
    }
    assert PricesIn(ticks, m) == [p];
    OpenGroup(ticks, rest, Bar(m, p, p, p, p, 1));
  }

  /** The first quote's bar `b` goes in front of the later bars, all of later minutes. */
  lemma OpenGroup(ticks: seq<Tick>, rest: seq<Bar>, b: Bar)
    requires ticks != [] && GroupedBy(ticks[1..], rest)
    requires forall k :: 0 <= k < |rest| ==> Minute(ticks[0].ts) < rest[k].minute
    requires b.minute == Minute(ticks[0].ts) && b == BarOf(b.minute, PricesIn(ticks, b.minute))
    ensures GroupedBy(ticks, [b] + rest)
  {
    AscendingCons(b, rest);
    SummarisedCons(ticks, b, rest);
    CoveredCons(ticks, b, rest);
  }

  /** Every quote is counted in exactly one bar. */
  lemma {:induction false} BarsVolume(ticks: seq<Tick>)
    ensures Volume(Bars(ticks)) == |ticks|
  {
    if ticks != [] {
      BarsVolume(ticks[1..]);
      var rest := Bars(ticks[1..]);
      var m := Minute(ticks[0].ts);
      if rest != [] && rest[0].minute == m {
        assert rest == [rest[0]] + rest[1..];
      }
    }
  }

  function Volume(bars: seq<Bar>): nat
  {
    if bars == [] then 0 else bars[0].volume + Volume(bars[1..])
  }

  // ------------------------------------------------------------ from the quote table

  /** The quote one row gives: none when its price is missing (`dropna`) or its
      timestamp is missing (`NaT` keys are left out of the groupby); a price that is not
      a number cannot be aggregated. */
  function TickOf(row: seq<Value>, tc: nat, pc: nat): (r: Result<seq<Tick>>)
    ensures r.Ok? ==> |r.value| <= 1
    ensures tc < |row| && pc < |row| && row[tc].Num? && row[pc].Num? ==> r == Ok([Tick(row[tc].n, row[pc].n)])
    ensures !Priced(row, tc, pc) ==> r == Ok([])
    ensures Priced(row, tc, pc) ==> (r.Ok? <==> row[tc].Num? && row[pc].Num?)
  {
    if tc < |row| && pc < |row| && row[tc] != Missing && row[pc] != Missing then
      if row[tc].Num? && row[pc].Num? then Ok([Tick(row[tc].n, row[pc].n)])
      else Err(TypeError("unsupported operand type for the minute aggregation"))
    else Ok([])
  }

  /** A row with both a timestamp and a price: one that `dropna` and the groupby keep. */
  predicate Priced(row: seq<Value>, tc: nat, pc: nat)
  {
    tc < |row| && pc < |row| && row[tc] != Missing && row[pc] != Missing
  }

  /** The number of rows with both a timestamp and a price. */
  function PricedRows(rows: seq<seq<Value>>, tc: nat, pc: nat): nat
  {
    if rows == [] then 0 else (if Priced(rows[0], tc, pc) then 1 else 0) + PricedRows(rows[1..], tc, pc)
  }

  /** The quotes are one per row with a timestamp and a price, so by `AggregateGrouped`
      the bars' volumes add up to the number of such rows. */
  lemma TicksCounted(rows: seq<seq<Value>>, tc: nat, pc: nat)
    requires Gather(rows, row => TickOf(row, tc, pc)).Ok?
    ensures |Gather(rows, row => TickOf(row, tc, pc)).value| == PricedRows(rows, tc, pc)
  {
    GatherJoined(rows, row => TickOf(row, tc, pc));
    JoinedTicksCounted(rows, tc, pc);
  }

  lemma {:induction false} JoinedTicksCounted(rows: seq<seq<Value>>, tc: nat, pc: nat)
    requires forall i :: 0 <= i < |rows| ==> TickOf(rows[i], tc, pc).Ok?
    ensures |Joined(rows, row => TickOf(row, tc, pc))| == PricedRows(rows, tc, pc)
  {
    if rows != [] {
      assert forall i :: 0 <= i < |rows[1..]| ==> rows[1..][i] == rows[i + 1];
      JoinedTicksCounted(rows[1..], tc, pc);
    }
  }

  /** The six columns of the aggregated table. */
  const OhlcColumns: seq<string> := ["timestamp", "open", "high", "low", "close", "volume"]

  /** The bars as a table, the minute written back as its first millisecond. */
  function OhlcFrame(bars: seq<Bar>): (f: Frame)
    ensures WellFormed(f) && f.columns == OhlcColumns && |f.rows| == |bars|
  {
    Frame(OhlcColumns, seq(|bars|, k requires 0 <= k < |bars| =>
      [Num(bars[k].minute * 60000), Num(bars[k].open), Num(bars[k].high), Num(bars[k].low),
       Num(bars[k].close), Num(bars[k].volume)]))
  }

  /** Some timestamp cell is neither a number nor missing. */
  predicate BadTimestamp(f: Frame, tc: nat)
    requires WellFormed(f) && tc < |f.columns|
  {
    exists i :: 0 <= i < |f.rows| && !f.rows[i][tc].Num? && f.rows[i][tc] != Missing
  }

  /** The aggregated table of a quote table that has an `underlying_price` column: a
      KeyError without a `timestamp` column, a ValueError when a timestamp is not a
      millisecond count, otherwise the bars of the usable quotes sorted by time. */
  function Aggregate(df: Frame): (r: Result<Frame>)
    requires WellFormed(df) && "underlying_price" in df.columns
    ensures "timestamp" !in df.columns ==> r == Err(KeyError("timestamp"))
    ensures r.Ok? ==> r.value.columns == OhlcColumns && WellFormed(r.value) && |r.value.rows| <= |df.rows|
  {
    match IndexOf(df.columns, "timestamp")
    case None => Err(KeyError("timestamp"))
    case Some(tc) =>
      if BadTimestamp(df, tc) then Err(ValueError("non convertible value with the unit 'ms'"))
      else
        var pc := IndexOf(df.columns, "underlying_price").value;
        var ticks :- Gather(df.rows, row => TickOf(row, tc, pc));
        TicksBound(df.rows, tc, pc);
        Ok(OhlcFrame(Bars(Sort(ticks, ByTime))))
  }

  lemma {:induction false} TicksBound(rows: seq<seq<Value>>, tc: nat, pc: nat)
    requires Gather(rows, row => TickOf(row, tc, pc)).Ok?
    ensures |Gather(rows, row => TickOf(row, tc, pc)).value| <= |rows|
  {
    if rows != [] {
      var init := rows[..|rows| - 1];
      assert forall i :: 0 <= i < |init| ==> init[i] == rows[i];
      TicksBound(init, tc, pc);
    }
  }

  /** The bars of the aggregated table are the minute groupby of the usable quotes. */
  lemma AggregateGrouped(ticks: seq<Tick>)
    ensures GroupedBy(Sort(ticks, ByTime), Bars(Sort(ticks, ByTime)))
    ensures multiset(Sort(ticks, ByTime)) == multiset(ticks)
    ensures Volume(Bars(Sort(ticks, ByTime))) == |ticks|
  {
    BarsGrouped(Sort(ticks, ByTime));
    BarsVolume(Sort(ticks, ByTime));
  }
}
