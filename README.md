# thetadata_api — a verified model of the decision logic

`thetadata_api` is a Python client for a local market-data terminal that serves
options, stock and index history over HTTP. Around its HTTP calls sits a layer of
plain decision logic. This project models that layer in Dafny and proves properties
of the model:

- **Calendar** (`calendar_utils.py`): the last trading day of a week, the Wednesday of a
  week, the next listed VIX expiration within 45 days, and which expirations a bulk
  download targets on a given day.
- **Table repair** (`corrector.py`): `fix_dataframe`'s three passes over the price
  columns `open`, `high`, `low`, `close` and `underlying_price`.
- **Response handling** (`utils.py`): unwrapping the `{error, response}` envelope,
  counting nulls, and `fix_empty_rows`.
- **Result records** (`models.py`): `UnderlyingData` and `OptionData` refuse empty
  tables.
- **Client** (`client.py`): date formatting, the expiration and strike listings, and the
  search of `fetch_underlying_ohlc` for a usable greeks response. The search covers the
  first two expirations, the middle strike, and a call before a put. The response is then
  flattened and aggregated into one-minute bars.
- **Realtime feed** (`realtime.py`): the in-memory session store, its deduplicating
  update, the snapshot, and one poll cycle with its per-symbol time cursor.
- **Bulk worker** (`bulk.py`): `_worker_main`. It loads the holidays year by year, walks
  the trading days, picks each day's target expirations, fetches every data type and
  decides which parquet files are written under which paths.

Dates are day numbers: `toordinal() - 1`, so day 0 is a Monday. `Dates.DateOf` and
`Dates.DayNumber` are proved to be inverse to each other.

Responses from the server are parameters of the model. Each one is a total function from
the request to a decoded JSON envelope, or to an `Err` standing for the exception the
request raises (no response, or a non-200 status, which `timed_get` turns into an
exception). Every path that raises in Python is an `Err` carrying the exception class
(`Wrappers.Error`). Functions are the reference definitions. Each loop of the
source is a `method` proved equal to its reference. The realtime feed's state, which the
source mutates in place, is a `class`, as is the caller's DataFrame that
`fix_empty_rows` writes into.

## Model

| member | source | states |
|---|---|---|
| CalendarUtils.Friday | thetadata_api/calendar_utils.py:5 | the Friday of `current`'s week is a Friday lying between two days before and four days after `current`, so a weekend maps back to its own Friday |
| CalendarUtils.FridayWeek | thetadata_api/calendar_utils.py:5-7 | the Friday is its week's Monday plus four, and the five days the scan covers are Monday to Friday in order |
| CalendarUtils.LastTradingDayOfWeek | thetadata_api/calendar_utils.py:3-11 | a returned day is the latest weekday of the week that is not closed; `None` is returned exactly when all five weekdays are closed (away from the first week of Python's date range, see Left out) |
| CalendarUtils.WednesdayOfWeek | thetadata_api/calendar_utils.py:13-15 | the result is a Wednesday in the same Monday-to-Sunday week as `current` |
| CalendarUtils.NextValidVixExpiration | thetadata_api/calendar_utils.py:17-24 | a returned day is the first listed expiration of the 45 days after `current`; `None` is returned exactly when none of those days is listed (away from the last 46 days of Python's date range, see Left out) |
| CalendarUtils.NextExpirationUnique | thetadata_api/calendar_utils.py:17-24 | the next listed expiration is unique, so the search result is determined |
| CalendarUtils.DailyTargets | thetadata_api/calendar_utils.py:32-36 | for SPX, SPXW, SPY and QQQ the targets are `current` when it is listed, plus the week's last trading day when that is listed, and nothing else |
| CalendarUtils.VixTargets | thetadata_api/calendar_utils.py:38-48 | on a Monday or Tuesday whose Wednesday is listed and open, the target is that Wednesday; otherwise it is the next listed expiration within 45 days, if any; `current` itself is never a VIX target |
| CalendarUtils.SelectTargetExpirations | thetadata_api/calendar_utils.py:26-50 | the targets are strictly ascending and all listed; daily symbols and VIX get the sets above; any other symbol gets none |
| CalendarUtils.TargetsListed | thetadata_api/calendar_utils.py:26-50 | every target expiration is one of the listed expirations |
| Dates.DateOfDayNumber | thetadata_api/bulk.py:42-47 | each valid date has one day number and `DateOf` recovers the date from it, so the day loop can run on day numbers |
| Dates.NextDayNumber | thetadata_api/bulk.py:47 | `d + timedelta(days=1)` is the calendar's next day, whose day number is one more; the model's calendar has no last year, Python's range is bounded by `Dates.NextDayOverflow` |
| Dates.NextDayOverflow | thetadata_api/bulk.py:47 | from a date of Python's range the next day stays in the range (year at most 9999) exactly when the date is not 9999-12-31, which has the largest day number; from 9999-12-31 the step raises OverflowError |
| Dates.DayNumberMonotone | thetadata_api/bulk.py:44 | comparing dates agrees with comparing their day numbers |
| Dates.MakeDate | thetadata_api/bulk.py:53 | `date(y, m, d)` succeeds exactly for years 1..9999 and existing month days, otherwise a ValueError |
| Dates.ParseCompactOfCompact | thetadata_api/bulk.py:53 | reading back a date written `%Y%m%d` by field slices gives the date |
| Dates.CompactOfParseCompact | thetadata_api/bulk.py:53 | an eight-character expiration that parses is exactly the `%Y%m%d` form of its date |
| Dates.ParseIso | thetadata_api/bulk.py:36 | `date.fromisoformat` accepts exactly the `YYYY-MM-DD` strings naming a valid date and returns that date |
| Dates.ParseIsoOfIso | thetadata_api/bulk.py:36 | `date.fromisoformat(d.isoformat()) == d` |
| Strings.Without | thetadata_api/client.py:20 | `replace("-", "")` leaves no dash and keeps every other character with its multiplicity |
| Strings.WithoutIdempotent | thetadata_api/client.py:20 | removing dashes twice is removing them once |
| Strings.StrLeTotalOrder | thetadata_api/client.py:37 | Python's string `<=` is total and transitive, so `sorted` on strings is well defined |
| Strings.PySlice | thetadata_api/realtime.py:58 | a Python slice is the Dafny slice when in range and empty when it starts past the end |
| Strings.ParseNat | thetadata_api/bulk.py:53 | `int(s)` succeeds exactly on a non-empty digit string, and writing the value back at that width gives `s` |
| Strings.DecimalValue | thetadata_api/bulk.py:82 | zero-padded decimal formatting reads back as the number |
| Sorting.Sort | thetadata_api/client.py:37 | `sorted` returns an ordered permutation of its input |
| Sorting.SortedSet | thetadata_api/calendar_utils.py:50 | `sorted(list(s))` is strictly ascending and holds exactly the set's elements, each once |
| Collect.Gather | thetadata_api/client.py:96-101 | an accumulating loop succeeds exactly when every item's step succeeds, and each accumulated value comes from some item |
| Collect.GatherHas | thetadata_api/client.py:96-101 | every value an item contributes ends up in the accumulated list |
| Collect.GatherJoined | thetadata_api/client.py:32-36 | a loop that runs to the end accumulates every item's contribution, in item order, as `Joined` lays them end to end |
| Collect.PickedIff | thetadata_api/bulk.py:33-38 | a value is picked exactly when some item yields it |
| Json.Get | thetadata_api/utils.py:93-95 | `d.get(key)` is `None` exactly when the key is absent, and otherwise a stored value of that key |
| Json.Iterate | thetadata_api/bulk.py:74-77 | iterating a JSON value succeeds exactly on lists, strings and dicts; a list yields its items |
| Json.Merge | thetadata_api/bulk.py:78 | `{**a, **b}` reads every key from `b` when `b` has it and from `a` otherwise |
| Frames.FromRecords | thetadata_api/bulk.py:81 | `pd.DataFrame(records)` gives a well-formed table with one row per record. When the first record is a dict, the columns are every dict key, and a later non-dict raises AttributeError. When the first is a list, each later record is read with `list()`: a list's items, a string's characters, a dict's keys. A later record without `len()` raises TypeError. |
| Frames.FromColumns | thetadata_api/realtime.py:56 | `pd.DataFrame(dict)` raises exactly when every value is a scalar or the lists differ in length; otherwise the columns are the keys, the rows as many as the lists' length, a list's cells its items and a scalar repeated down its column |
| Frames.FromColumnsOfLists | thetadata_api/realtime.py:56 | a dict of lists of one length `n` builds a table of `n` rows whose cells are the lists' items, column by column |
| Frames.Concat | thetadata_api/realtime.py:32 | `pd.concat` keeps the rows of the first table, then those of the second, over the union of their columns, every cell read by name unchanged |
| Frames.FilledAt | thetadata_api/utils.py:111 | `bfill().ffill()` puts in a missing cell the nearest later value, else the nearest earlier one |
| Frames.FilledComplete | thetadata_api/utils.py:111 | a column holding any value has no missing cell after the fill |
| Frames.FilledKeeps | thetadata_api/utils.py:111 | the fill never changes a present value |
| Frames.FilledNothing | thetadata_api/corrector.py:34 | a column without values stays entirely missing |
| Corrector.DesignatedIn | thetadata_api/corrector.py:16 | the price columns used are exactly the designated names the table has; there are none exactly when the table has none of them |
| Corrector.FirstPresent | thetadata_api/corrector.py:28 | the fallback value is a present cell of one of the named columns; there is none only when all of them are missing |
| Corrector.FillValueFound | thetadata_api/corrector.py:28 | a row with any present price cell has a fill value, taken from one of its own present price cells |
| Corrector.RepairRowUntouched | thetadata_api/corrector.py:26 | pass 2 leaves alone a row that is fully present or fully missing in the price columns |
| Corrector.RepairRowCells | thetadata_api/corrector.py:25-29 | pass 2 changes only missing price cells, each to a value present in the same row, and leaves a partly missing row fully present |
| Corrector.RepairRowUsesClose | thetadata_api/corrector.py:28-29 | when `close` is present, every hole in the row is filled with `close` |
| Corrector.RepairRowsSplit | thetadata_api/corrector.py:25-29 | after pass 2 each row is fully present or fully missing in the price columns |
| Corrector.FillDesignatedAt | thetadata_api/corrector.py:34 | pass 3 fills a price cell from the nearest later present cell of its column, else the nearest earlier one |
| Corrector.RepairedGapRow | thetadata_api/corrector.py:31-34 | a row left fully missing by pass 2 takes its prices from the neighbouring rows of each column |
| Corrector.Repaired | thetadata_api/corrector.py:8-36 | `fix_dataframe` keeps the table's columns and row count |
| Corrector.FixDataframe | thetadata_api/corrector.py:8-36 | the row-by-row repair loop computes the repaired table |
| Corrector.RepairedKeeps | thetadata_api/corrector.py:15-34 | cells outside the price columns, and present non-zero price cells, come out unchanged |
| Corrector.RepairedNoZeros | thetadata_api/corrector.py:22-34 | no price cell of the result holds 0 |
| Corrector.RepairedComplete | thetadata_api/corrector.py:22-34 | if any price cell is present and non-zero, no price cell of the result is missing |
| Corrector.RepairedNothingUsable | thetadata_api/corrector.py:22-34 | if no price cell is present and non-zero, every price cell of the result is missing |
| Corrector.RepairedClean | thetadata_api/corrector.py:12-34 | a table whose price cells are all present and non-zero is returned unchanged |
| Corrector.RepairedIdempotent | thetadata_api/corrector.py:8-36 | repairing a repaired table changes nothing |
| Utils.ParseResponse | thetadata_api/utils.py:91-97 | an envelope raises "API Error: …" exactly when its `error` is truthy; otherwise the result is its `response`, or `[]` without one |
| Utils.ParseResponseOfEnvelope | thetadata_api/utils.py:91-97 | an envelope with a falsy error gives back its payload |
| Utils.StatusCheckAsWritten | thetadata_api/bulk.py:31 | `resp and resp.status_code == 200` on a decoded dict: an empty dict is false, any other raises AttributeError |
| Utils.VerifyDataIntegrity | thetadata_api/utils.py:99-105 | an empty table is "Empty data"; a table is valid exactly when it is non-empty without a missing cell; otherwise the message lists the per-column null counts |
| Utils.NullsCounted | thetadata_api/utils.py:102-103 | the null counts sum above zero exactly when some cell is missing |
| Utils.FixEmptyRows | thetadata_api/utils.py:107-111 | the caller's table has its numeric zeros replaced by missing, and the returned copy is that table back- and forward-filled |
| Utils.FixEmptyRowsResult | thetadata_api/utils.py:109-111 | real values (present, non-zero where numeric) come out unchanged, and a column holding one has no missing cell left |
| Models.MakeUnderlyingData | thetadata_api/models.py:6-16 | the record is refused with the source's ValueError exactly when the table is empty |
| Models.MakeOptionData | thetadata_api/models.py:18-32 | the record is refused with the source's ValueError exactly when the table is empty |
| Client.FormatDate | thetadata_api/client.py:18-20 | the formatted date holds no dash |
| Client.FormatDateOfIso | thetadata_api/client.py:18-20 | formatting `YYYY-MM-DD` gives `YYYYMMDD` |
| Client.DashesRemoved | thetadata_api/client.py:18-20 | removing the dashes of `y-m-d` joins the parts |
| Client.FormatDateIdempotent | thetadata_api/client.py:18-20 | formatting twice is formatting once |
| Client.ExpirationOf | thetadata_api/client.py:33-36 | a dict item adds its non-empty string `expiration` with the dashes removed, adds nothing when that value is falsy or absent, and raises AttributeError when it is a truthy non-string; any other item adds its `str()` with the dashes removed when that is non-empty; never more than one value, never a dash |
| Client.AtOrAfter | thetadata_api/client.py:37 | the filter keeps exactly the expirations not before the request date, with their multiplicities |
| Client.ListedExpirations | thetadata_api/client.py:30-36 | the listed expirations carry no dash |
| Client.ListedExpirationsInOrder | thetadata_api/client.py:30-36 | a listing processed to the end is its items' contributions laid end to end in listing order |
| Client.Expirations | thetadata_api/client.py:22-37 | `get_expirations` succeeds exactly when every listed item can be processed |
| Client.ExpirationsResult | thetadata_api/client.py:32-37 | the expirations are sorted, none before the request date, without dashes, and each listed expiration on or after that date appears as often as listed |
| Client.GetExpirations | thetadata_api/client.py:22-37 | the listing loop, filter and sort compute `Expirations` |
| Client.ToFloat | thetadata_api/client.py:52 | `float(v)` keeps an int, maps a bool to 0/1, parses a digit string and raises TypeError on a list or dict |
| Client.StrikeOf | thetadata_api/client.py:50-52 | an item whose strike value is `None` adds nothing; any other adds its `float()` |
| Client.Strikes | thetadata_api/client.py:46-53 | `get_strikes` succeeds exactly when every listed item can be processed |
| Client.StrikesResult | thetadata_api/client.py:48-53 | the strikes are ascending and a permutation of the listed ones; a dict item with a non-zero integer `strike` contributes exactly that strike |
| Client.ListedStrikesInOrder | thetadata_api/client.py:48-52 | a listing processed to the end is its items' strikes laid end to end in listing order, one per item whose value is not `None` |
| Client.StrikesHaveItems | thetadata_api/client.py:48-53 | every listed item's strike is among the strikes returned, and so is every non-zero integer `strike` of a dict item |
| Client.GetStrikes | thetadata_api/client.py:39-53 | the listing loop and sort compute `Strikes` |
| Client.MiddleStrike | thetadata_api/client.py:72 | the chosen strike is listed, and in a sorted list at least half of the strikes lie at or below it |
| Client.FlattenItem | thetadata_api/client.py:97-101 | an item without nested `data` passes through as itself |
| Client.FlattenPlain | thetadata_api/client.py:96-101 | items without nested `data` come out unchanged and in order |
| Client.FlattenNested | thetadata_api/client.py:96-101 | the nested envelope `[{"data": rows, …}]` flattens to `rows` |
| Client.FlattenRows | thetadata_api/client.py:96-101 | the flattening loop computes the accumulated rows or the first exception |
| Client.TryResponse | thetadata_api/client.py:87-121 | a failed request ends the search with its error, and a record found carries the request's symbol, date and interval and a non-empty table |
| Client.SkippedResponse | thetadata_api/client.py:90-105 | a greeks response is passed over exactly when its payload is falsy, or its table is empty or has no `underlying_price` column; every other outcome, an exception included, ends the search |
| Client.TryRights | thetadata_api/client.py:76-121 | the rights loop comes back empty-handed exactly when every right's response is skipped; otherwise its outcome is the response of the first right that is not skipped, every earlier right having been skipped |
| Client.TryExpirations | thetadata_api/client.py:66-121 | every record the expiration loop finds belongs to the request, and an empty-handed search had every strike listing succeed |
| Client.NextExpiration | thetadata_api/client.py:66-121 | a failed strike listing ends the search with its exception; an expiration with no strikes, or whose call and put are both skipped, hands the search to the next expiration unchanged; otherwise the middle strike's rights loop decides |
| Client.FetchUnderlyingResult | thetadata_api/client.py:55-123 | a record returned carries the request's symbol, date and interval and a non-empty table; a listing with no expiration from the request date on raises "No expirations available for …" |
| Client.AllSkipped | thetadata_api/client.py:66-123 | when every greeks response is skipped the search finds nothing |
| Client.OnlyFirstTwo | thetadata_api/client.py:66 | listings agreeing on their first two expirations give the same result |
| Client.FirstUsableWins | thetadata_api/client.py:66-121 | a usable call quote for the middle strike of the first expiration is the result |
| Client.TryGreeks | thetadata_api/client.py:87-121 | the response handling, step by step, computes `TryResponse` |
| Client.TryBothRights | thetadata_api/client.py:76-121 | the loop over "C" then "P" computes `TryRights` |
| Client.TryTargets | thetadata_api/client.py:66-121 | the loop over the expirations computes `TryExpirations` |
| Client.FetchUnderlyingOhlc | thetadata_api/client.py:55-123 | the whole method computes `FetchUnderlying` |
| Aggregation.Minute | thetadata_api/client.py:112 | `floor('min')` puts a millisecond timestamp into the minute that contains it |
| Aggregation.MinuteMonotone | thetadata_api/client.py:112 | later quotes never fall in an earlier minute |
| Aggregation.SeqMax | thetadata_api/client.py:114 | `max` is an element bounding all others from above |
| Aggregation.SeqMin | thetadata_api/client.py:114 | `min` is an element bounding all others from below |
| Aggregation.BarOf | thetadata_api/client.py:113-114 | a bar's open and close lie between its low and high |
| Aggregation.Bars | thetadata_api/client.py:111-115 | there are no more bars than quotes, and the first bar is the first quote's minute |
| Aggregation.BarsGrouped | thetadata_api/client.py:111-115 | on time-sorted quotes the bars are the groupby by minute: minutes strictly ascending, each bar aggregating exactly its minute's prices, every quote's minute present |
| Aggregation.BarsVolume | thetadata_api/client.py:114 | the volumes add up to the number of quotes |
| Aggregation.TickOf | thetadata_api/client.py:109 | a row with a numeric time and price gives that quote; a row whose time or price is missing gives none; a present non-numeric one raises |
| Aggregation.OhlcFrame | thetadata_api/client.py:113-115 | the result table has columns timestamp, open, high, low, close, volume and one row per bar |
| Aggregation.Aggregate | thetadata_api/client.py:108-115 | no `timestamp` column raises KeyError; a result has the six bar columns and no more rows than the input |
| Aggregation.TicksBound | thetadata_api/client.py:109 | dropping missing prices never adds quotes |
| Aggregation.TicksCounted | thetadata_api/client.py:109-114 | there is one quote per row with both a time and a price, so the bars' volumes, which `AggregateGrouped` sums to the quotes, count exactly those rows |
| Aggregation.AggregateGrouped | thetadata_api/client.py:108-115 | the bars are the minute groupby of the sorted quotes, the sort is a permutation, and every quote is counted once |
| Realtime.SessionKey | thetadata_api/realtime.py:42 | the key is the symbol followed by `_underlying` |
| Realtime.Endpoint | thetadata_api/realtime.py:45 | SPX and VIX poll the index history, every other symbol the stock history |
| Realtime.StartTime | thetadata_api/realtime.py:43 | a polled key resumes at its cursor, a new one at 09:30:00 |
| Realtime.KeptIndices | thetadata_api/realtime.py:33 | the kept positions are ascending and are exactly the last occurrences of their keys |
| Realtime.DropDuplicates | thetadata_api/realtime.py:33 | dropping duplicates keeps the columns and never adds rows |
| Realtime.DropDuplicatesResult | thetadata_api/realtime.py:33 | after the drop no two rows share a key, every input key survives, and each row is the last input row of its key |
| Realtime.Updated | thetadata_api/realtime.py:30-35 | an update touches only its own key, and a new key stores the batch as it is |
| Realtime.UpdatedResult | thetadata_api/realtime.py:31-33 | an existing key ends with unique keys, keeps every key of the old table and of the batch, and holds the batch's latest row of each key |
| Realtime.ConcatKeys | thetadata_api/realtime.py:32 | in the concatenation the old rows keep their keys and the batch's rows follow them |
| Realtime.BatchRowKept | thetadata_api/realtime.py:31-33 | the batch's last row of a key survives the drop, laid out for the joint columns |
| Realtime.LastRowKept | thetadata_api/realtime.py:33 | `keep="last"` keeps the last row of every key |
| Realtime.UpdatedAsWritten | thetadata_api/realtime.py:31-33 | as written, the update raises exactly when the joint table lacks a key column, and then it leaves the undeduplicated concatenation stored |
| Realtime.UpdatedAsWrittenRaises | thetadata_api/realtime.py:31-33 | a second poll of the same index candle raises KeyError and leaves two copies stored |
| Realtime.UpdatedDeduplicates | thetadata_api/realtime.py:31-33 | with the corrected update the same second poll keeps one copy |
| Realtime.BatchFrame | thetadata_api/realtime.py:56 | a list builds a table with one row per record, a dict builds one from its columns, and any other payload raises pandas' ValueError |
| Realtime.LastCandleTime | thetadata_api/realtime.py:58 | the cursor is characters 11..19 of the last row's timestamp; an empty table raises IndexError and one without a `timestamp` column KeyError |
| Realtime.FetchBatch | thetadata_api/realtime.py:43-56 | a failed request raises its exception, a falsy payload hands on nothing, and a batch handed on is a well-formed table |
| Realtime.PollSymbol | thetadata_api/realtime.py:41-58 | one symbol's poll keeps the session well-formed (with the corrected tests of the realtime.py:33 and realtime.py:53 findings) |
| Realtime.PollSymbolOtherKeys | thetadata_api/realtime.py:41-58 | a poll changes neither the table nor the cursor of any other key (with the corrected tests of the realtime.py:33 and realtime.py:53 findings) |
| Realtime.PollSymbolResult | thetadata_api/realtime.py:53-58 | an empty payload changes nothing; a batch is stored with `Updated` and the cursor moves to its last candle's time (with the corrected tests of the realtime.py:33 and realtime.py:53 findings) |
| Realtime.PollSymbolAsWritten | thetadata_api/realtime.py:45-53 | as written, a failed request raises, a non-empty decoded body raises AttributeError at the `status_code` test and an empty one is skipped; the state is never changed |
| Realtime.PollSymbolAsWrittenRaises | thetadata_api/realtime.py:53-58 | a body holding one candle raises AttributeError as written, while the corrected poll stores a table under the symbol's key |
| Realtime.PollAll | thetadata_api/realtime.py:41-59 | a cycle keeps the session well-formed (with the corrected tests of the realtime.py:33 and realtime.py:53 findings) |
| Realtime.PollAllOtherKeys | thetadata_api/realtime.py:41-59 | a cycle changes only the keys of the polled symbols (with the corrected tests of the realtime.py:33 and realtime.py:53 findings) |
| Realtime.RealtimeFeed.constructor | thetadata_api/realtime.py:13-24 | a new feed has no session data and no cursors |
| Realtime.RealtimeFeed.GetLatestSnapshot | thetadata_api/realtime.py:26-28 | the snapshot holds every key with its table |
| Realtime.RealtimeFeed.UpdateSession | thetadata_api/realtime.py:30-35 | the feed's session becomes `Updated` of the old one, its cursors unchanged (the corrected update of the realtime.py:33 finding) |
| Realtime.RealtimeFeed.PollCycle | thetadata_api/realtime.py:37-59 | the feed's state and the exception returned are those of `PollAll` over its symbols (with the corrected tests of the realtime.py:33 and realtime.py:53 findings) |
| Bulk.EntryClosed | thetadata_api/bulk.py:34-36 | an entry names a day number, if any |
| Bulk.EntryClosedOfIso | thetadata_api/bulk.py:34-36 | a `full_close` entry with an ISO date names that date; an entry of any other type names nothing |
| Bulk.ClosedInNames | thetadata_api/bulk.py:33-38 | a day is added exactly when one of the listing's entries names it |
| Bulk.YearHolidays | thetadata_api/bulk.py:25-38 | a failed holiday request raises its exception, which ends the worker; an empty body adds nothing |
| Bulk.YearHolidaysAsWritten | thetadata_api/bulk.py:25-31 | as written, a failed request raises, a non-empty decoded body raises AttributeError at the `status_code` test, and only an empty body gets past it, adding nothing |
| Bulk.YearHolidaysAsWrittenRaises | thetadata_api/bulk.py:31-38 | a listing naming one full-close day raises AttributeError as written, while the corrected step adds that day |
| Bulk.ClosedDatesResult | thetadata_api/bulk.py:21-38 | the holiday loop raises exactly when some year's listing raises; otherwise a day is closed exactly when some year names it |
| Bulk.AddClosed | thetadata_api/bulk.py:33-38 | the entry loop adds exactly the days the entries name |
| Bulk.LoadYear | thetadata_api/bulk.py:25-38 | one year's step raises as `YearHolidays` does, a failed request included, and otherwise adds its days |
| Bulk.LoadClosedDates | thetadata_api/bulk.py:20-38 | the holiday loop computes the set of closed dates, or the first exception |
| Bulk.TradingDays | thetadata_api/bulk.py:42-47 | the trading days are strictly ascending and are exactly the weekdays of the range that are not closed |
| Bulk.TradingDaysBetween | thetadata_api/bulk.py:42-47 | the date loop computes `TradingDays` of the range; when the range is not empty and ends on 9999-12-31 the step after the last day raises OverflowError instead |
| Bulk.ExpirationDay | thetadata_api/bulk.py:53 | an expiration parses exactly when its slices form a valid date, giving one day number |
| Bulk.ExpirationDayOfCompact | thetadata_api/bulk.py:53 | an expiration written `%Y%m%d` reads back as its day |
| Bulk.AvailableDays | thetadata_api/bulk.py:53 | every parsed expiration is a day number |
| Bulk.MergeRows | thetadata_api/bulk.py:77-78 | merging fails only with a TypeError on something that is not a mapping |
| Bulk.MergeRowsResult | thetadata_api/bulk.py:77-78 | merging succeeds exactly when there are no rows or the contract and every row are dicts, and then gives one dict per row |
| Bulk.MergedRowAt | thetadata_api/bulk.py:78 | the `k`-th merged row is the contract merged with the `k`-th data row |
| Bulk.ContractRows | thetadata_api/bulk.py:75-78 | an item lacking `contract` or `data` adds no row |
| Bulk.FlattenCount | thetadata_api/bulk.py:74-78 | flattening gives one dict row per data row of the contract entries |
| Bulk.MergeDataRows | thetadata_api/bulk.py:77-78 | the data-row loop computes `MergeRows` |
| Bulk.FlattenContractRows | thetadata_api/bulk.py:74-78 | the item loop computes the flattened rows or the first exception |
| Bulk.CompactWidth | thetadata_api/bulk.py:84 | a date of a four-digit year is written with eight characters |
| Bulk.StampParts | thetadata_api/bulk.py:84 | the file name suffix holds the expiration's and the day's `%Y%m%d` at fixed positions |
| Bulk.OutputPathDistinct | thetadata_api/bulk.py:82-84 | two files of one symbol and data type share a path only for the same expiration and day |
| Bulk.Chain | thetadata_api/bulk.py:49-89 | a loop that ends at the first exception raises exactly when some step raises, and writes only its steps' files |
| Bulk.ChainStops | thetadata_api/bulk.py:88-89 | once a step raises, no later step runs |
| Bulk.DtypeRun | thetadata_api/bulk.py:58-88 | a failed request raises its exception, which ends the worker; at most one file is written, under that data type's path and holding rows |
| Bulk.DtypeRuns | thetadata_api/bulk.py:57 | one run per data type |
| Bulk.DtypesWritten | thetadata_api/bulk.py:57-86 | every file of a target is a non-empty table under one of the data types' paths for that expiration and day |
| Bulk.TargetsWritten | thetadata_api/bulk.py:56-86 | every file of a day's target loop belongs to one of its targets |
| Bulk.ExpirationDays | thetadata_api/bulk.py:53 | the parsed expirations are day numbers |
| Bulk.DayTargets | thetadata_api/bulk.py:54 | each target of a day is one of its listed expirations |
| Bulk.DayWritten | thetadata_api/bulk.py:49-86 | each file of one day's work is written for that day |
| Bulk.DaysWritten | thetadata_api/bulk.py:49-86 | each file of the day loop is written for one of its days |
| Bulk.DaysWritesWithin | thetadata_api/bulk.py:49-86 | the day loop writes only for trading days of the range |
| Bulk.WorkerWritesTradingDays | thetadata_api/bulk.py:15-91 | every file the worker writes holds rows and belongs to a weekday of the range that no holiday listing names; a holiday listing that raises ends the worker before any write, and so does a non-empty range ending on 9999-12-31, with OverflowError as the swallowed error |
| Bulk.SaveDtype | thetadata_api/bulk.py:58-86 | the endpoint body computes `DtypeRun` |
| Bulk.SaveDtypes | thetadata_api/bulk.py:57-86 | the endpoint loop computes the chain of the data types' runs |
| Bulk.SaveTargets | thetadata_api/bulk.py:56-86 | the target loop computes the chain of the targets' runs |
| Bulk.ProcessDay | thetadata_api/bulk.py:50-86 | the day body computes the day's run |
| Bulk.SaveDays | thetadata_api/bulk.py:49-86 | the day loop computes the chain of the days' runs |
| Bulk.WorkerMain | thetadata_api/bulk.py:15-91 | `_worker_main` computes `Worker`: the holiday loop, then the day loop over the trading days |

## Left out

- HTTP transport is a parameter of the model. This covers `timed_get`, the interval
  fallback, timeouts, `RetryAuditLog`, `RequestStats` and the logger (`utils.py:13-89`).
  An `Err` response stands for the exception the request raises: no response, or a
  non-200 status.
- The `status_code` tests at `realtime.py:53`, `bulk.py:31` and `bulk.py:69` are applied
  to the decoded dict, which has no `status_code`. As written, every non-empty response
  raises AttributeError there. `poll_cycle` never reaches `_update_session`, and
  `_worker_main` stops at its first non-empty holiday listing. The model follows the
  evidently intended test, under which a decoded body gets past, and logs the as-written
  behaviour under Findings. The realtime.py:33 finding is reachable only once line 53 is
  corrected.
- Process pools (`_run_worker`, `download_historical_options`), `run_forever`, the
  client's `close`, and the feed's output directory are not modelled. So are clocks:
  `date.today()` and `datetime.now` are parameters.
- Parquet writing is not performed. A write is recorded as a value (path and table), and
  the worker's swallowed exception is recorded in `Run.error`.
- `fix_ohlc_files`, `pipeline.py`, the package's `__init__.py` and the example scripts
  are not part of this model.
- Prices and strikes are integers, not floats, and NaN is the `Missing` cell.
  `pd.to_datetime` is modelled only for millisecond integers.
- Aggregation.Aggregate: timestamps are not range-checked. `pd.to_datetime(..., unit='ms')`
  (`client.py:108`) converts to nanosecond `datetime64`, so a millisecond value outside
  about -9.22e12..9.22e12 (before 1677-09-21 or after 2262-04-11) raises
  OutOfBoundsDatetime there, while the model aggregates it like any other.
- Aggregation.Aggregate: quotes with equal timestamps keep their input order.
  `sort_values('timestamp')` (`client.py:109`) uses quicksort, which pandas does not
  promise to be stable. The `open` and `close` of a minute whose first or last timestamp
  is shared by several quotes may therefore differ from the model's; `high`, `low` and
  `volume` do not depend on the order.
- Corrector.FillValue: when `close` is missing, the fallback is the first present price
  value in the order open, high, low, close, underlying_price. The source takes the first
  non-missing entry of `row.combine_first(row[cols])`. That entry ranges over every
  column of the row, in an order that pandas' index union decides (it may sort the
  labels), so the source can pick a value from a non-price column.
- Json.Get: a JSON object with a repeated key is read at its first occurrence.
- Strings.ParseNat: `int()` is modelled on plain digit strings only. Signs, spaces and
  underscores are not accepted. The same holds for `Client.ToFloat` on strings.
- Dates.ParseIso: only the `YYYY-MM-DD` form of `date.fromisoformat` is accepted.
- Dates.Compact: `%Y` below year 1000 is not padded by Python. `OutputPathDistinct` and
  the round trips are stated for years 1000..9999.
- Bulk.OutputPathDistinct: paths are joined as strings with "/". `Path` normalisation is
  not modelled.
- CalendarUtils.LastTradingDayOfWeek / CalendarUtils.NextValidVixExpiration: day numbers
  are unbounded integers, so the ends of Python's date range are not modelled. In the
  week of 0001-01-01 with all five weekdays closed, `candidate -= timedelta(days=1)`
  (`calendar_utils.py:10`) steps below `date.min` and raises OverflowError, where the model
  returns `None`. From 9999-12-31, or from a day whose next 45 days reach past it with
  nothing listed, `calendar_utils.py:19` or `:23` raises OverflowError, where the model
  returns `None` or keeps searching past 9999-12-31. `CalendarUtils.DailyTargets`,
  `CalendarUtils.VixTargets` and `CalendarUtils.SelectTargetExpirations` inherit this. The
  day loop of `Bulk.TradingDaysBetween` does model its own overflow.
- Realtime.LastCandleTime: a last timestamp that is a JSON list is sliced by Python
  (`realtime.py:58`), and the slice becomes the symbol's cursor. The model's cursor is a
  string, so it raises TypeError for every timestamp that is not text.
- Realtime.PollAll: the first symbol that raises ends the cycle, and the remaining
  symbols are not polled. `poll_cycle` has no `try`, so the model follows the code.
- Frames.FromRecords: a first record that is neither a list nor a dict gives the single column `0`, and later records are read as cells. pandas builds that case through numpy, whose handling of a later list or dict is not modelled. The error messages are shortened.
- Aggregation.TickOf: a present price that is not a number raises TypeError. pandas' `max`, `min`, `first` and `last` succeed on a column of strings, so such a table aggregates there.
- Realtime.BatchFrame: a dict value that is itself a dict is read as a scalar. pandas
  aligns such a value as a column indexed by its keys, or raises.
- Client.FetchUnderlyingResult: a greeks response whose `underlying_price` column is
  entirely null aggregates to an empty table. `UnderlyingData` then raises its ValueError,
  and the model keeps that path.

## Findings

| source | as written | input that shows it | evidently intended | confidence | as-written member | corrected member |
|---|---|---|---|---|---|---|
| thetadata_api/realtime.py:33 | `drop_duplicates(subset=["timestamp", "strike", "right"])` raises KeyError when the table lacks `strike` or `right`. That is always so for the index and stock candles the feed polls. The concatenation has already been stored at line 32, so the session keeps duplicates and the poll cycle ends. This is reachable only once line 53 is corrected. | a second poll of SPX returning the same candle, a table with columns `timestamp` and `close` | deduplicate on the key columns the table has, reading absent ones as missing, so the candle is kept once | not executed | Realtime.UpdatedAsWritten (counterexample Realtime.UpdatedAsWrittenRaises) | Realtime.Updated (proved by Realtime.UpdatedResult and Realtime.UpdatedDeduplicates) |
| thetadata_api/bulk.py:31 | `resp and resp.status_code == 200` tests the decoded dict that `fetch_with_interval_fallback` returns. A non-empty dict has no `status_code`, so the test raises AttributeError, and `except Exception` at line 88 ends the worker; an empty dict is skipped. The same test at line 69 ends the worker at its first non-empty download. | a year whose holiday listing is `{"response": [{"type": "full_close", "date": "2024-12-25"}]}` | read the decoded body (a non-200 status has already raised in `timed_get`) and add the closed days it lists | not executed | Bulk.YearHolidaysAsWritten (counterexample Bulk.YearHolidaysAsWrittenRaises) | Bulk.YearHolidays (proved by Bulk.ClosedDatesResult and Bulk.WorkerWritesTradingDays) |
| thetadata_api/realtime.py:53 | the same test on the decoded dict raises AttributeError for every non-empty body, so `poll_cycle` ends before `_update_session` is reached; an empty body is skipped | one SPX poll whose body is `{"response": [{"timestamp": "2024-01-02T09:31:00.000", "close": 4700}]}` | read the decoded body and store the batch | not executed | Realtime.PollSymbolAsWritten (counterexample Realtime.PollSymbolAsWrittenRaises) | Realtime.PollSymbol (proved by Realtime.PollSymbolResult) |
