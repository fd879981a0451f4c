/** `RealtimeFeed` of `realtime.py`: a per-key session table that each poll extends
    with the new candles of every symbol, dropping repeated (timestamp, strike, right)
    rows, and a per-key cursor telling the next poll where to start. */
module Realtime {
  import opened Wrappers
  import opened Strings
  import opened Json
  import opened Frames
  import opened Utils

  /** The cursor of a key that has never been polled. */
  const MarketOpen: string := "09:30:00"

  /** The session key of a symbol's underlying candles. */
  function SessionKey(symbol: string): (key: string)
    ensures |key| == |symbol| + 11 && key[..|symbol|] == symbol && key[|symbol|..] == "_underlying"
  {
    symbol + "_underlying"
  }

  /** The history endpoint polled for a symbol: SPX and VIX are indices, the rest stocks. */
  function Endpoint(symbol: string): (path: string)
    ensures symbol in ["SPX", "VIX"] ==> path == "/index/history/ohlc"
    ensures symbol !in ["SPX", "VIX"] ==> path == "/stock/history/ohlc"
  {
    if symbol in ["SPX", "VIX"] then "/index/history/ohlc" else "/stock/history/ohlc"
  }

  /** `last_candle_time.get(key, market_open)`. */
  function StartTime(cursors: map<string, string>, key: string): (t: string)
    ensures key in cursors ==> t == cursors[key]
    ensures key !in cursors ==> t == MarketOpen
  {
    if key in cursors then cursors[key] else MarketOpen
  }

  // ---------------------------------------------------------------- deduplication

  /** The (timestamp, strike, right) of a row; an absent column reads as missing. */
  function Key(f: Frame, i: nat): seq<Value>
    requires WellFormed(f) && i < |f.rows|
  {
    [Cell(f, i, "timestamp"), Cell(f, i, "strike"), Cell(f, i, "right")]
  }

  /** No later row has the same key. */
  predicate IsLastOccurrence(f: Frame, i: nat)
    requires WellFormed(f) && i < |f.rows|
  {
    forall j :: i < j < |f.rows| ==> Key(f, j) != Key(f, i)
  }

  /** The positions below `n` that `keep="last"` keeps, ascending. */
  function KeptIndices(f: Frame, n: nat): (ix: seq<nat>)
    requires WellFormed(f) && n <= |f.rows|
    ensures |ix| <= n
    ensures forall k :: 0 <= k < |ix| ==> ix[k] < n && IsLastOccurrence(f, ix[k])
    ensures forall k1, k2 :: 0 <= k1 < k2 < |ix| ==> ix[k1] < ix[k2]
    ensures forall i :: 0 <= i < n && IsLastOccurrence(f, i) ==> i in ix
  {
    if n == 0 then []
    else
      var prev := KeptIndices(f, n - 1);
      if IsLastOccurrence(f, n - 1) then prev + [n - 1] else prev
  }

  /** `drop_duplicates(subset=["timestamp", "strike", "right"], keep="last")`. */
  function DropDuplicates(f: Frame): (r: Frame)
    requires WellFormed(f)
    ensures WellFormed(r) && r.columns == f.columns && |r.rows| <= |f.rows|
  {
    var ix := KeptIndices(f, |f.rows|);
    Frame(f.columns, seq(|ix|, k requires 0 <= k < |ix| => f.rows[ix[k]]))
  }

  /** The last row of a key. */
  function LastOf(f: Frame, i: nat, n: nat): (j: nat)
    requires WellFormed(f) && i < n <= |f.rows|
    ensures i <= j < n && Key(f, j) == Key(f, i)
    ensures forall m :: j < m < n ==> Key(f, m) != Key(f, i)
  {
    if Key(f, n - 1) == Key(f, i) then n - 1 else LastOf(f, i, n - 1)
  }

  /** No two rows share a key. */
  predicate UniqueKeys(r: Frame)
  {
    WellFormed(r) && forall k1, k2 :: 0 <= k1 < k2 < |r.rows| ==> Key(r, k1) != Key(r, k2)
  }

  /** Some row of `r` carries `key`. */
  predicate HasRowKey(r: Frame, key: seq<Value>)
    requires WellFormed(r)
  {
    exists k :: 0 <= k < |r.rows| && Key(r, k) == key
  }

  /** Every key of `f` is the key of some row of `r`. */
  predicate KeysKept(f: Frame, r: Frame)
  {
    WellFormed(f) && WellFormed(r) &&
    forall i :: 0 <= i < |f.rows| ==> HasRowKey(r, Key(f, i))
  }

  /** `row` is a row of `f` that no later row of `f` shares a key with. */
  predicate IsLastRow(f: Frame, row: seq<Value>)
    requires WellFormed(f)
  {
    exists i :: 0 <= i < |f.rows| && row == f.rows[i] && IsLastOccurrence(f, i)
  }

  /** After dropping duplicates no two rows share a key, every key of the input is still
      there, and each remaining row is the last row of its key. */
  lemma DropDuplicatesResult(f: Frame)
    requires WellFormed(f)
    ensures UniqueKeys(DropDuplicates(f)) && KeysKept(f, DropDuplicates(f))
    ensures var r := DropDuplicates(f); forall k :: 0 <= k < |r.rows| ==> IsLastRow(f, r.rows[k])
  {
    DropSelects(f);
    KeptResult(f, DropDuplicates(f), KeptIndices(f, |f.rows|));
  }

  /** Row `k` of `r` is row `ix[k]` of `f`, with the same columns. */
  predicate Selects(f: Frame, r: Frame, ix: seq<nat>)
  {
    WellFormed(f) && WellFormed(r) && r.columns == f.columns && |r.rows| == |ix| &&
    forall k :: 0 <= k < |ix| ==> ix[k] < |f.rows| && r.rows[k] == f.rows[ix[k]] && Key(r, k) == Key(f, ix[k])
  }

  lemma DropSelects(f: Frame)
    requires WellFormed(f)
    ensures Selects(f, DropDuplicates(f), KeptIndices(f, |f.rows|))
  {
    var r := DropDuplicates(f);
    var ix := KeptIndices(f, |f.rows|);
    forall k | 0 <= k < |ix| ensures r.rows[k] == f.rows[ix[k]] && Key(r, k) == Key(f, ix[k]) {
      assert r.rows[k] == f.rows[ix[k]];
    }
  }

  /** The positions `keep="last"` keeps: ascending, each the last row of its key, and
      every such row among them. */
  predicate KeepsLast(f: Frame, ix: seq<nat>)
    requires WellFormed(f)
  {
    (forall k :: 0 <= k < |ix| ==> ix[k] < |f.rows| && IsLastOccurrence(f, ix[k])) &&
    (forall k1, k2 :: 0 <= k1 < k2 < |ix| ==> ix[k1] < ix[k2]) &&
    (forall i :: 0 <= i < |f.rows| && IsLastOccurrence(f, i) ==> i in ix)
  }

  lemma KeptResult(f: Frame, r: Frame, ix: seq<nat>)
    requires WellFormed(f) && KeepsLast(f, ix) && Selects(f, r, ix)
    ensures UniqueKeys(r) && KeysKept(f, r)
    ensures forall k :: 0 <= k < |r.rows| ==> IsLastRow(f, r.rows[k])
  {
    KeptUnique(f, r, ix);
    KeptAllKeys(f, r, ix);
    KeptLastRows(f, r, ix);
  }

  lemma KeptUnique(f: Frame, r: Frame, ix: seq<nat>)
    requires WellFormed(f) && KeepsLast(f, ix) && Selects(f, r, ix)
    ensures UniqueKeys(r)
  {
    forall k1, k2 | 0 <= k1 < k2 < |r.rows| ensures Key(r, k1) != Key(r, k2) {
      assert ix[k1] < ix[k2] < |f.rows| && IsLastOccurrence(f, ix[k1]);
      assert Key(f, ix[k2]) != Key(f, ix[k1]);
      assert Key(r, k1) == Key(f, ix[k1]) && Key(r, k2) == Key(f, ix[k2]);
    }
  }

  lemma KeptAllKeys(f: Frame, r: Frame, ix: seq<nat>)
    requires WellFormed(f) && KeepsLast(f, ix) && Selects(f, r, ix)
    ensures KeysKept(f, r)
  {
    forall i | 0 <= i < |f.rows| ensures HasRowKey(r, Key(f, i)) {
      var j := LastOf(f, i, |f.rows|);
      assert IsLastOccurrence(f, j);
      assert j in ix;
      var k :| 0 <= k < |ix| && ix[k] == j;
      assert Key(r, k) == Key(f, ix[k]);
    }
  }

  lemma KeptLastRows(f: Frame, r: Frame, ix: seq<nat>)
    requires WellFormed(f) && KeepsLast(f, ix) && Selects(f, r, ix)
    ensures forall k :: 0 <= k < |r.rows| ==> IsLastRow(f, r.rows[k])
  {
    forall k | 0 <= k < |r.rows| ensures IsLastRow(f, r.rows[k]) {
      var i := ix[k];
      assert 0 <= i < |f.rows| && r.rows[k] == f.rows[i] && IsLastOccurrence(f, i);
    }
  }

  // ---------------------------------------------------------------- the session table

  predicate SessionWellFormed(session: map<string, Frame>)
  {
    forall key :: key in session ==> WellFormed(session[key])
  }

  /** `_update_session`: a new key stores the batch as it is; an existing key stores the
      old rows followed by the batch, duplicates dropped. The other keys are untouched.
      (A key column absent from the table reads as missing; see `UpdatedAsWritten`.) */
  function Updated(session: map<string, Frame>, key: string, df: Frame): (r: map<string, Frame>)
    requires SessionWellFormed(session) && WellFormed(df)
    ensures SessionWellFormed(r)
    ensures r.Keys == session.Keys + {key}
    ensures forall k :: k in session && k != key ==> r[k] == session[k]
    ensures key !in session ==> r[key] == df
  {
    if key in session then session[key := DropDuplicates(Concat(session[key], df))]
    else session[key := df]
  }

  /** After an update of an existing key: no two rows share a key, every key of the old
      rows and of the batch is present, and a key's row is the batch's last row with that
      key whenever the batch has one. */
  lemma UpdatedResult(session: map<string, Frame>, key: string, df: Frame)
    requires SessionWellFormed(session) && WellFormed(df) && key in session
    ensures UniqueKeys(Updated(session, key, df)[key])
    ensures KeysKept(session[key], Updated(session, key, df)[key])
    ensures KeysKept(df, Updated(session, key, df)[key])
    ensures var r := Updated(session, key, df)[key];
      forall i :: 0 <= i < |df.rows| && IsLastOccurrence(df, i) ==>
        exists k :: 0 <= k < |r.rows| && r.rows[k] == Reindex(df.rows[i], df.columns, r.columns)
  {
    var a := session[key];
    var c := Concat(a, df);
    var r := DropDuplicates(c);
    assert Updated(session, key, df)[key] == r;
    ConcatKeys(a, df);
    KeysSurvive(a, df, c);
    forall i | 0 <= i < |df.rows| && IsLastOccurrence(df, i)
      ensures exists k :: 0 <= k < |r.rows| && r.rows[k] == Reindex(df.rows[i], df.columns, r.columns)
    {
      BatchRowKept(a, df, i);
    }
  }

  /** Dropping the duplicates of a table whose rows carry the keys of `a`'s rows and then
      of `b`'s leaves distinct keys and keeps every key of `a` and of `b`. */
  lemma KeysSurvive(a: Frame, b: Frame, c: Frame)
    requires KeysLead(c, a) && KeysFollow(c, b, |a.rows|)
    ensures UniqueKeys(DropDuplicates(c))
    ensures KeysKept(a, DropDuplicates(c)) && KeysKept(b, DropDuplicates(c))
  {
    var r := DropDuplicates(c);
    DropDuplicatesResult(c);
    forall i | 0 <= i < |a.rows| ensures HasRowKey(r, Key(a, i)) {
      var k :| 0 <= k < |r.rows| && Key(r, k) == Key(c, i);
      assert Key(c, i) == Key(a, i);
    }
    forall i | 0 <= i < |b.rows| ensures HasRowKey(r, Key(b, i)) {
      var k :| 0 <= k < |r.rows| && Key(r, k) == Key(c, |a.rows| + i);
      assert Key(c, |a.rows| + i) == Key(b, i);
    }
  }

  /** The batch's last row of a key survives the drop, laid out for the joint columns. */
  lemma BatchRowKept(a: Frame, df: Frame, i: nat)
    requires WellFormed(a) && WellFormed(df) && i < |df.rows| && IsLastOccurrence(df, i)
    ensures var r := DropDuplicates(Concat(a, df));
      exists k :: 0 <= k < |r.rows| && r.rows[k] == Reindex(df.rows[i], df.columns, r.columns)
  {
    ConcatKeys(a, df);
    ConcatRowAt(a, df, i);
    FollowingRowKept(Concat(a, df), df, |a.rows|, i);
  }

  /** A row of `b` that is the last of its key, found at `n + i` in `c` after `b`'s
      other rows' keys, survives the drop. */
  lemma FollowingRowKept(c: Frame, b: Frame, n: nat, i: nat)
    requires KeysFollow(c, b, n) && i < |b.rows| && IsLastOccurrence(b, i)
    requires c.rows[n + i] == Reindex(b.rows[i], b.columns, c.columns)
    ensures var r := DropDuplicates(c);
      exists k :: 0 <= k < |r.rows| && r.rows[k] == Reindex(b.rows[i], b.columns, r.columns)
  {
    LastShifted(c, b, n, i);
    LastRowKept(c, n + i);
  }

  /** Row `|a.rows| + i` of `pd.concat([a, b])` is `b`'s row `i` laid out for the joint
      columns. */
  lemma ConcatRowAt(a: Frame, b: Frame, i: nat)
    requires WellFormed(a) && WellFormed(b) && i < |b.rows|
    ensures var c := Concat(a, b); c.rows[|a.rows| + i] == Reindex(b.rows[i], b.columns, c.columns)
  {
  }

  /** In `pd.concat([a, b])` the rows of `a` keep their keys and `b`'s follow them. */
  lemma ConcatKeys(a: Frame, b: Frame)
    requires WellFormed(a) && WellFormed(b)
    ensures KeysLead(Concat(a, b), a) && KeysFollow(Concat(a, b), b, |a.rows|)
  {
    LeadFromCells(Concat(a, b), a);
    FollowFromCells(Concat(a, b), b, |a.rows|);
  }

  /** Rows with the same cells have the same keys. */
  lemma LeadFromCells(c: Frame, a: Frame)
    requires WellFormed(c) && WellFormed(a) && |a.rows| <= |c.rows|
    requires forall i, name :: 0 <= i < |a.rows| ==> Cell(c, i, name) == Cell(a, i, name)
    ensures KeysLead(c, a)
  {
  }

  lemma FollowFromCells(c: Frame, b: Frame, n: nat)
    requires WellFormed(c) && WellFormed(b) && |c.rows| == n + |b.rows|
    requires forall i, name :: 0 <= i < |b.rows| ==> Cell(c, n + i, name) == Cell(b, i, name)
    ensures KeysFollow(c, b, n)
  {
  }

  /** The first rows of `c` carry the keys of `a`'s rows. */
  predicate KeysLead(c: Frame, a: Frame)
  {
    WellFormed(c) && WellFormed(a) && |a.rows| <= |c.rows| &&
    forall i :: 0 <= i < |a.rows| ==> Key(c, i) == Key(a, i)
  }

  /** The rows of `c` from `n` on carry the keys of `b`'s rows, and nothing follows them. */
  predicate KeysFollow(c: Frame, b: Frame, n: nat)
  {
    WellFormed(c) && WellFormed(b) && |c.rows| == n + |b.rows| &&
    forall i :: 0 <= i < |b.rows| ==> Key(c, n + i) == Key(b, i)
  }

  lemma LastShifted(c: Frame, b: Frame, n: nat, i: nat)
    requires KeysFollow(c, b, n) && i < |b.rows| && IsLastOccurrence(b, i)
    ensures IsLastOccurrence(c, n + i)
  {
    forall j | n + i < j < |c.rows| ensures Key(c, j) != Key(c, n + i) {
      assert Key(c, j) == Key(b, j - n);
    }
  }

  /** `keep="last"` keeps the last row of every key. */
  lemma LastRowKept(f: Frame, p: nat)
    requires WellFormed(f) && p < |f.rows| && IsLastOccurrence(f, p)
    ensures var r := DropDuplicates(f); exists k :: 0 <= k < |r.rows| && r.rows[k] == f.rows[p]
  {
    var ix := KeptIndices(f, |f.rows|);
    var k :| 0 <= k < |ix| && ix[k] == p;
    assert DropDuplicates(f).rows[k] == f.rows[p];
  }

  /** `_update_session` as written: the concatenation is stored before the duplicates
      are dropped, and `drop_duplicates` raises a KeyError when the table lacks one of
      the three key columns, which the underlying candles (no strike, no right) do. */
  function UpdatedAsWritten(session: map<string, Frame>, key: string, df: Frame): (r: (map<string, Frame>, Option<Error>))
    requires SessionWellFormed(session) && WellFormed(df)
    ensures r.1.None? <==> key !in session || HasKeyColumns(Concat(session[key], df))
    ensures r.1.None? ==> r.0 == Updated(session, key, df)
    ensures r.1.Some? ==> r.0 == session[key := Concat(session[key], df)]
  {
    if key in session && !HasKeyColumns(Concat(session[key], df)) then
      (session[key := Concat(session[key], df)], Some(KeyError("['strike', 'right']")))
    else (Updated(session, key, df), None)
  }

  /** The table has all three columns `drop_duplicates` is asked to compare. */
  predicate HasKeyColumns(f: Frame)
  {
    "timestamp" in f.columns && "strike" in f.columns && "right" in f.columns
  }

  /** The second poll of the same minute's candle keeps both copies and raises. */
  lemma UpdatedAsWrittenRaises()
    ensures var candle := Frame(["timestamp", "close"], [[Text("2024-01-02T09:31:00"), Num(4700)]]);
      var r := UpdatedAsWritten(map["SPX_underlying" := candle], "SPX_underlying", candle);
      r.1.Some? && |r.0["SPX_underlying"].rows| == 2 &&
      Key(r.0["SPX_underlying"], 0) == Key(r.0["SPX_underlying"], 1)
  {
    var candle := Frame(["timestamp", "close"], [[Text("2024-01-02T09:31:00"), Num(4700)]]);
    var c := Concat(candle, candle);
    assert "strike" !in c.columns;
    assert Key(c, 0) == Key(candle, 0) == Key(c, 1);
  }

  /** With the corrected update the same second poll keeps one copy and goes on. */
  lemma UpdatedDeduplicates()
    ensures var candle := Frame(["timestamp", "close"], [[Text("2024-01-02T09:31:00"), Num(4700)]]);
      |Updated(map["SPX_underlying" := candle], "SPX_underlying", candle)["SPX_underlying"].rows| == 1
  {
    var candle := Frame(["timestamp", "close"], [[Text("2024-01-02T09:31:00"), Num(4700)]]);
    var c := Concat(candle, candle);
    assert Key(c, 0) == Key(candle, 0) == Key(c, 1);
    assert !IsLastOccurrence(c, 0) && IsLastOccurrence(c, 1);
    assert KeptIndices(c, 2) == [1];
  }

  // ---------------------------------------------------------------- one poll

  datatype FeedState = FeedState(session: map<string, Frame>, cursors: map<string, string>)

  /** The state after a poll, and the exception that ended it, if any. */
  datatype Outcome = Outcome(state: FeedState, error: Option<Error>)

  /** `pd.DataFrame(raw)` for a truthy payload: a list of records, or a dict of columns,
      builds a table; a scalar payload is refused. */
  function BatchFrame(raw: Json): (r: Result<Frame>)
    ensures r.Ok? ==> WellFormed(r.value)
    ensures raw.Arr? ==> r == FromRecords(raw.items)
    ensures raw.Obj? ==> r == FromColumns(raw.fields)
    ensures !raw.Arr? && !raw.Obj? ==> r == Err(ValueError("DataFrame constructor not properly called!"))
  {
    if raw.Arr? then FromRecords(raw.items)
    else if raw.Obj? then FromColumns(raw.fields)
    else Err(ValueError("DataFrame constructor not properly called!"))
  }

  /** `df.iloc[-1]["timestamp"][11:19]`: the time of day of the batch's last candle. */
  function LastCandleTime(df: Frame): (r: Result<string>)
    requires WellFormed(df)
    ensures |df.rows| == 0 ==> r == Err(IndexError("single positional indexer is out-of-bounds"))
    ensures |df.rows| > 0 && "timestamp" !in df.columns ==> r == Err(KeyError("timestamp"))
    ensures r.Ok? ==> (|df.rows| > 0 &&
      Cell(df, |df.rows| - 1, "timestamp").Text? &&
      r.value == PySlice(Cell(df, |df.rows| - 1, "timestamp").s, 11, 19))
  {
    if |df.rows| == 0 then Err(IndexError("single positional indexer is out-of-bounds"))
    else
      match IndexOf(df.columns, "timestamp")
      case None => Err(KeyError("timestamp"))
      case Some(c) =>
        match df.rows[|df.rows| - 1][c]
        case Text(s) => Ok(PySlice(s, 11, 19))
        case Missing => Err(TypeError("'float' object is not subscriptable"))
        case Num(_) => Err(TypeError("'int' object is not subscriptable"))
        case Boxed(_) => Err(TypeError("object is not subscriptable"))
  }

  /** The request and decoding of one symbol's poll: the new candles, or `None` when the
      payload is empty. `fetch(endpoint, symbol, start, end)` is the decoded response to
      the history request. */
  function FetchBatch(cursors: map<string, string>, symbol: string, now: string,
                      fetch: (string, string, string, string) -> Result<seq<(string, Json)>>): (r: Result<Option<Frame>>)
    ensures r.Ok? && r.value.Some? ==> WellFormed(r.value.value)
    ensures var resp := fetch(Endpoint(symbol), symbol, StartTime(cursors, SessionKey(symbol)), now);
      (resp.Err? ==> r == Err(resp.error)) &&
      (resp.Ok? && ParseResponse(resp.value).Ok? && !Truthy(ParseResponse(resp.value).value) ==> r == Ok(None))
  {
    var resp :- fetch(Endpoint(symbol), symbol, StartTime(cursors, SessionKey(symbol)), now);
    var raw :- ParseResponse(resp);
    if !Truthy(raw) then Ok(None)
    else
      var df :- BatchFrame(raw);
      Ok(Some(df))
  }

  /** The poll of one symbol: the batch is stored, then the cursor moves to its last
      candle's time. An exception keeps what was stored before it. */
  function PollSymbol(s: FeedState, symbol: string, now: string,
                      fetch: (string, string, string, string) -> Result<seq<(string, Json)>>): (o: Outcome)
    requires SessionWellFormed(s.session)
    ensures SessionWellFormed(o.state.session)
  {
    var key := SessionKey(symbol);
    match FetchBatch(s.cursors, symbol, now, fetch)
    case Err(e) => Outcome(s, Some(e))
    case Ok(None) => Outcome(s, None)
    case Ok(Some(df)) =>
      var session := Updated(s.session, key, df);
      match LastCandleTime(df)
      case Err(e) => Outcome(FeedState(session, s.cursors), Some(e))
      case Ok(t) => Outcome(FeedState(session, s.cursors[key := t]), None)
  }

  /** One symbol's poll as written: the status test raises AttributeError on any body
      that is not empty and skips an empty one, so no batch is ever stored. */
  function PollSymbolAsWritten(s: FeedState, symbol: string, now: string,
                               fetch: (string, string, string, string) -> Result<seq<(string, Json)>>): (o: Outcome)
    requires SessionWellFormed(s.session)
    ensures o.state == s
    ensures var resp := fetch(Endpoint(symbol), symbol, StartTime(s.cursors, SessionKey(symbol)), now);
      (resp.Err? ==> o.error == Some(resp.error)) &&
      (resp.Ok? && resp.value != [] ==> o.error == Some(StatusAttributeError)) &&
      (resp == Ok([]) ==> o.error.None?)
  {
    match fetch(Endpoint(symbol), symbol, StartTime(s.cursors, SessionKey(symbol)), now)
    case Err(e) => Outcome(s, Some(e))
    case Ok(resp) =>
      match StatusCheckAsWritten(resp)
      case Err(e) => Outcome(s, Some(e))
      case Ok(_) => Outcome(s, None)  // only an empty body gets past the test, and it is skipped
  }

  /** A response carrying one candle: as written the poll raises and stores nothing,
      where the intended poll stores the candle under the symbol's key. */
  lemma PollSymbolAsWrittenRaises(s: FeedState, symbol: string, now: string,
                                  fetch: (string, string, string, string) -> Result<seq<(string, Json)>>,
                                  candle: seq<(string, Json)>)
    requires SessionWellFormed(s.session)
    requires fetch(Endpoint(symbol), symbol, StartTime(s.cursors, SessionKey(symbol)), now)
      == Ok([("response", Arr([Obj(candle)]))])
    ensures PollSymbolAsWritten(s, symbol, now, fetch) == Outcome(s, Some(StatusAttributeError))
    ensures SessionKey(symbol) in PollSymbol(s, symbol, now, fetch).state.session
  {
    OneCandleBatch(s.cursors, symbol, now, fetch, candle);
  }

  /** A response carrying one candle hands on a batch. */
  lemma OneCandleBatch(cursors: map<string, string>, symbol: string, now: string,
                       fetch: (string, string, string, string) -> Result<seq<(string, Json)>>,
                       candle: seq<(string, Json)>)
    requires fetch(Endpoint(symbol), symbol, StartTime(cursors, SessionKey(symbol)), now)
      == Ok([("response", Arr([Obj(candle)]))])
    ensures FetchBatch(cursors, symbol, now, fetch).Ok? && FetchBatch(cursors, symbol, now, fetch).value.Some?
  {
    var env := [("response", Arr([Obj(candle)]))];
    var records := [Obj(candle)];
    assert ParseResponse(env) == Ok(Arr(records)) by {
      assert Get(env, "error") == None;
      assert Get(env, "response") == Some(Arr(records));
    }
    assert Truthy(Arr(records));
    assert FromRecords(records).Ok? by {
      assert forall i :: 0 <= i < |records| ==> records[i].Obj?;
    }
    assert BatchFrame(Arr(records)) == FromRecords(records);
  }

  /** A poll touches only its own key. */
  lemma PollSymbolOtherKeys(s: FeedState, symbol: string, now: string,
                            fetch: (string, string, string, string) -> Result<seq<(string, Json)>>, k: string)
    requires SessionWellFormed(s.session) && k != SessionKey(symbol)
    ensures var o := PollSymbol(s, symbol, now, fetch);
      (k in o.state.session <==> k in s.session) && (k in s.session ==> o.state.session[k] == s.session[k]) &&
      (k in o.state.cursors <==> k in s.cursors) && (k in s.cursors ==> o.state.cursors[k] == s.cursors[k])
  {
  }

  /** An empty payload changes nothing; a batch is stored under the symbol's key, and
      the cursor then reads the last candle's time of day. */
  lemma PollSymbolResult(s: FeedState, symbol: string, now: string,
                         fetch: (string, string, string, string) -> Result<seq<(string, Json)>>)
    requires SessionWellFormed(s.session)
    ensures FetchBatch(s.cursors, symbol, now, fetch) == Ok(None) ==>
      PollSymbol(s, symbol, now, fetch) == Outcome(s, None)
    ensures var b := FetchBatch(s.cursors, symbol, now, fetch);
      b.Ok? && b.value.Some? ==>
        var o := PollSymbol(s, symbol, now, fetch);
        var df := b.value.value;
        o.state.session == Updated(s.session, SessionKey(symbol), df) &&
        (o.error.None? <==> LastCandleTime(df).Ok?) &&
        (o.error.None? ==>
          o.state.cursors[SessionKey(symbol)] == PySlice(Cell(df, |df.rows| - 1, "timestamp").s, 11, 19))
  {
    match FetchBatch(s.cursors, symbol, now, fetch)
    case Err(_) =>
    case Ok(None) =>
    case Ok(Some(df)) =>
      var o := PollSymbol(s, symbol, now, fetch);
      assert o.state.session == Updated(s.session, SessionKey(symbol), df);
  }

  /** `poll_cycle`: the symbols in order; the first exception ends the cycle. */
  function PollAll(s: FeedState, symbols: seq<string>, now: string,
                   fetch: (string, string, string, string) -> Result<seq<(string, Json)>>): (o: Outcome)
    requires SessionWellFormed(s.session)
    ensures SessionWellFormed(o.state.session)
    decreases |symbols|
  {
    if symbols == [] then Outcome(s, None)
    else
      var first := PollSymbol(s, symbols[0], now, fetch);
      if first.error.Some? then first
      else PollAll(first.state, symbols[1..], now, fetch)
  }

  /** A cycle changes only the keys of the polled symbols. */
  lemma {:induction false} PollAllOtherKeys(s: FeedState, symbols: seq<string>, now: string,
                                            fetch: (string, string, string, string) -> Result<seq<(string, Json)>>,
                                            k: string)
    requires SessionWellFormed(s.session)
    requires forall i :: 0 <= i < |symbols| ==> k != SessionKey(symbols[i])
    ensures var o := PollAll(s, symbols, now, fetch);
      (k in o.state.session <==> k in s.session) && (k in s.session ==> o.state.session[k] == s.session[k]) &&
      (k in o.state.cursors <==> k in s.cursors) && (k in s.cursors ==> o.state.cursors[k] == s.cursors[k])
    decreases |symbols|
  {
    if symbols != [] {
      PollSymbolOtherKeys(s, symbols[0], now, fetch, k);
      var first := PollSymbol(s, symbols[0], now, fetch);
      if first.error.None? {
        assert forall i :: 0 <= i < |symbols[1..]| ==> symbols[1..][i] == symbols[i + 1];
        PollAllOtherKeys(first.state, symbols[1..], now, fetch, k);
      }
    }
  }

  // ---------------------------------------------------------------- the feed object

  class RealtimeFeed {
    var sessionData: map<string, Frame>
    var lastCandleTime: map<string, string>
    var symbols: seq<string>

    predicate Valid()
      reads this
    {
      SessionWellFormed(sessionData)
    }

    function State(): FeedState
      reads this
    {
      FeedState(sessionData, lastCandleTime)
    }

    /** `RealtimeFeed(symbols)`: no session data and no cursor yet. */
    constructor (symbols: seq<string>)
      ensures Valid()
      ensures sessionData == map[] && lastCandleTime == map[] && this.symbols == symbols
    {
      sessionData := map[];
      lastCandleTime := map[];
      this.symbols := symbols;
    }

    /** `get_latest_snapshot`: every key with its table, as values the feed's later
        updates cannot reach. */
    method GetLatestSnapshot() returns (r: map<string, Frame>)
      ensures r.Keys == sessionData.Keys
      ensures forall k :: k in r ==> r[k] == sessionData[k]
    {
      r := map k | k in sessionData :: sessionData[k];
    }

    /** `_update_session`. */
    method UpdateSession(key: string, df: Frame)
      requires Valid() && WellFormed(df)
      modifies this
      ensures Valid()
      ensures sessionData == Updated(old(sessionData), key, df)
      ensures lastCandleTime == old(lastCandleTime) && symbols == old(symbols)
    {
      if key in sessionData {
        ghost var before := sessionData;
        sessionData := sessionData[key := Concat(sessionData[key], df)];
        sessionData := sessionData[key := DropDuplicates(sessionData[key])];
        assert sessionData == before[key := DropDuplicates(Concat(before[key], df))];
      } else {
        sessionData := sessionData[key := df];
      }
    }

    /** `poll_cycle` at the time of day `now`; returns the exception that ended it, if any. */
    method PollCycle(now: string, fetch: (string, string, string, string) -> Result<seq<(string, Json)>>)
      returns (err: Option<Error>)
      requires Valid()
      modifies this
      ensures Valid() && symbols == old(symbols)
      ensures State() == PollAll(old(State()), symbols, now, fetch).state
      ensures err == PollAll(old(State()), symbols, now, fetch).error
    {
      for i := 0 to |symbols|
        invariant Valid() && symbols == old(symbols)
        invariant PollAll(old(State()), symbols, now, fetch) == PollAll(State(), symbols[i..], now, fetch)
      {
        var symbol := symbols[i];
        assert symbols[i..][0] == symbol && symbols[i..][1..] == symbols[i + 1..];
        var key := SessionKey(symbol);
        var startT := StartTime(lastCandleTime, key);
        var resp := fetch(Endpoint(symbol), symbol, startT, now);
        if resp.Err? { return Some(resp.error); }
        var raw := ParseResponse(resp.value);
        if raw.Err? { return Some(raw.error); }
        if Truthy(raw.value) {
          var df := BatchFrame(raw.value);
          if df.Err? { return Some(df.error); }
          assert FetchBatch(lastCandleTime, symbol, now, fetch) == Ok(Some(df.value));
          UpdateSession(key, df.value);
          var t := LastCandleTime(df.value);
          if t.Err? { return Some(t.error); }
          lastCandleTime := lastCandleTime[key := t.value];
        }
      }
      assert symbols[|symbols|..] == [];
      return None;
    }
  }
}
