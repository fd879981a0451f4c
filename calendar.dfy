/** The expiration selector of `calendar_utils.py`. Dates are day numbers (see module
    `Dates`): day 0 is a Monday and `Weekday(d)` is `d % 7`, Monday 0 .. Sunday 6. */
module CalendarUtils {
  import opened Wrappers
  import opened Sorting
  import opened Dates

  /** Friday of the Monday-to-Sunday week holding `current` (a weekend maps back to it). */
  function Friday(current: int): (f: int)
    ensures Weekday(f) == 4
    ensures current - 2 <= f <= current + 4
  {
    current + (4 - Weekday(current))
  }

  /** Monday of the week holding `current`. */
  function Monday(current: int): (m: int)
    ensures Weekday(m) == 0
    ensures m <= current < m + 7
  {
    current - Weekday(current)
  }

  lemma FridayWeek(current: int)
    ensures Friday(current) == Monday(current) + 4
    ensures forall d :: Friday(current) - 4 <= d <= Friday(current) ==> Weekday(d) == d - Monday(current)
  {
    var m := Monday(current);
    assert m == 7 * (current / 7);
    forall d | m <= d <= m + 4 ensures Weekday(d) == d - m {
      assert d == 7 * (current / 7) + (d - m);
    }
  }

  predicate OpenWeekday(d: int, closed: set<int>)
  {
    Weekday(d) < 5 && d !in closed
  }

  /** `w` is the latest day of Monday..Friday of `current`'s week that is not closed. */
  predicate IsLastTradingDay(current: int, closed: set<int>, w: int)
  {
    Friday(current) - 4 <= w <= Friday(current) && OpenWeekday(w, closed) &&
    forall d :: w < d <= Friday(current) ==> !OpenWeekday(d, closed)
  }

  /** All five weekdays of `current`'s week are closed. */
  predicate WeekClosed(current: int, closed: set<int>)
  {
    forall d :: Friday(current) - 4 <= d <= Friday(current) ==> d in closed
  }

  /** `last_trading_day_of_week`: scans back from Friday to Monday. */
  method LastTradingDayOfWeek(current: int, closed: set<int>) returns (r: Option<int>)
    ensures r.Some? ==> IsLastTradingDay(current, closed, r.value)
    ensures r.None? <==> WeekClosed(current, closed)
  {
    FridayWeek(current);
    var friday := current + (4 - Weekday(current));
    var candidate := friday;
    while candidate >= friday - 4
      invariant friday - 5 <= candidate <= friday
      invariant forall d :: candidate < d <= friday ==> !OpenWeekday(d, closed)
      decreases candidate - (friday - 5)
    {
      if Weekday(candidate) < 5 && candidate !in closed {
        return Some(candidate);
      }
      candidate := candidate - 1;
    }
    forall d | friday - 4 <= d <= friday ensures d in closed {
      assert !OpenWeekday(d, closed);
    }
    return None;
  }

  /** `wednesday_of_week`: the day with weekday 2 in the same Monday-to-Sunday week. */
  function WednesdayOfWeek(current: int): (w: int)
    ensures Weekday(w) == 2
    ensures Monday(current) <= w < Monday(current) + 7
  {
    FridayWeek(current);
    current + (2 - Weekday(current))
  }

  /** `e` is the first day of `current + 1 .. current + 45` that is available. */
  predicate IsNextExpiration(current: int, avail: set<int>, e: int)
  {
    current < e <= current + 45 && e in avail &&
    forall d :: current < d < e ==> d !in avail
  }

  predicate NoExpirationWithin(current: int, avail: set<int>)
  {
    forall d :: current < d <= current + 45 ==> d !in avail
  }

  /** `get_next_valid_vix_expiration`: the search is limited to 45 days after `current`. */
  method NextValidVixExpiration(current: int, avail: set<int>) returns (r: Option<int>)
    ensures r.Some? ==> IsNextExpiration(current, avail, r.value)
    ensures r.None? <==> NoExpirationWithin(current, avail)
  {
    var candidate := current + 1;
    for i := 0 to 45
      invariant candidate == current + 1 + i
      invariant forall d :: current < d < candidate ==> d !in avail
    {
      if candidate in avail {
        return Some(candidate);
      }
      candidate := candidate + 1;
    }
    return None;
  }

  /** `set(available)`. */
  function AsSet(s: seq<int>): (r: set<int>)
    ensures forall x :: x in r <==> x in s
  {
    set x | x in s
  }

  /** Symbols with daily (same-day) expirations. */
  predicate IsDailySymbol(symbol: string)
  {
    symbol in ["SPX", "SPXW", "SPY", "QQQ"]
  }

  /** On a Monday or Tuesday the VIX target is this week's Wednesday when it is listed and open. */
  predicate VixWednesdayApplies(current: int, avail: set<int>, closed: set<int>)
  {
    Weekday(current) < 2 && WednesdayOfWeek(current) in avail && WednesdayOfWeek(current) !in closed
  }

  /** The targets of a daily symbol: `current` when listed, and the weekly expiration
      when it is listed. */
  function DailyTargetSet(current: int, avail: set<int>, closed: set<int>): set<int>
  {
    set e | e in avail && (e == current || IsLastTradingDay(current, closed, e))
  }

  /** The VIX target: this week's Wednesday when it applies, otherwise the next listed
      day within 45 days. */
  function VixTargetSet(current: int, avail: set<int>, closed: set<int>): set<int>
  {
    if VixWednesdayApplies(current, avail, closed) then {WednesdayOfWeek(current)}
    else set e | e in avail && IsNextExpiration(current, avail, e)
  }

  /** The expirations `select_target_expirations` picks, ascending. */
  function TargetExpirations(symbol: string, current: int, available: seq<int>, closed: set<int>): seq<int>
  {
    var avail := AsSet(available);
    SortedSet(
      if IsDailySymbol(symbol) then DailyTargetSet(current, avail, closed)
      else if symbol == "VIX" then VixTargetSet(current, avail, closed)
      else {})
  }

  /** There is at most one next expiration. */
  lemma NextExpirationUnique(current: int, avail: set<int>, e1: int, e2: int)
    requires IsNextExpiration(current, avail, e1) && IsNextExpiration(current, avail, e2)
    ensures e1 == e2
  {
  }

  /** The targets of a daily symbol: `current` when listed, and the weekly expiration
      when there is one, it is not `current` and it is listed. */
  method DailyTargets(current: int, avail: set<int>, closed: set<int>) returns (targets: set<int>)
    ensures forall e :: e in targets <==>
      ((e == current && current in avail) ||
       (e != current && e in avail && IsLastTradingDay(current, closed, e)))
    ensures targets == DailyTargetSet(current, avail, closed)
  {
    var weekly := LastTradingDayOfWeek(current, closed);
    targets := {};
    if current in avail {
      targets := targets + {current};
    }
    if weekly.Some? && weekly.value != current && weekly.value in avail {
      targets := targets + {weekly.value};
    }
    forall e | e != current && e in avail && IsLastTradingDay(current, closed, e)
      ensures e in targets
    {
      assert weekly.Some? && IsLastTradingDay(current, closed, weekly.value);
    }
  }

  /** The VIX target: this week's Wednesday on a Monday or Tuesday when it is listed and
      open, otherwise the next listed day within 45 days, if any. */
  method VixTargets(current: int, avail: set<int>, closed: set<int>) returns (targets: set<int>)
    ensures VixWednesdayApplies(current, avail, closed) ==> targets == {WednesdayOfWeek(current)}
    ensures !VixWednesdayApplies(current, avail, closed) ==>
      (targets == {} && NoExpirationWithin(current, avail)) ||
      (exists e :: targets == {e} && IsNextExpiration(current, avail, e))
    ensures current !in targets
    ensures targets == VixTargetSet(current, avail, closed)
  {
    targets := {};
    var wedThisWeek := WednesdayOfWeek(current);
    if Weekday(current) in [0, 1] {
      if wedThisWeek in avail && wedThisWeek !in closed {
        targets := targets + {wedThisWeek};
      } else {
        var nextExp := NextValidVixExpiration(current, avail);
        if nextExp.Some? { targets := targets + {nextExp.value}; }
      }
    } else {
      var nextExp := NextValidVixExpiration(current, avail);
      if nextExp.Some? { targets := targets + {nextExp.value}; }
    }
    if !VixWednesdayApplies(current, avail, closed) {
      forall e | e in avail && IsNextExpiration(current, avail, e) ensures e in targets {
        var x :| targets == {x} && IsNextExpiration(current, avail, x);
        NextExpirationUnique(current, avail, e, x);
      }
    }
  }

  /** `select_target_expirations`: the same-day and weekly expiration for the daily
      symbols, the Wednesday cycle for VIX, nothing for other symbols; sorted, no repeats. */
  method SelectTargetExpirations(symbol: string, current: int, available: seq<int>, closed: set<int>)
    returns (r: seq<int>)
    ensures StrictlyAscending(r)
    ensures forall e :: e in r ==> e in available
    ensures IsDailySymbol(symbol) ==>
      forall e :: e in r <==>
        ((e == current && current in available) ||
         (e != current && e in available && IsLastTradingDay(current, closed, e)))
    ensures symbol == "VIX" && VixWednesdayApplies(current, AsSet(available), closed) ==>
      r == [WednesdayOfWeek(current)]
    ensures symbol == "VIX" && !VixWednesdayApplies(current, AsSet(available), closed) ==>
      (r == [] && NoExpirationWithin(current, AsSet(available))) ||
      (|r| == 1 && IsNextExpiration(current, AsSet(available), r[0]))
    ensures symbol == "VIX" ==> current !in r
    ensures !IsDailySymbol(symbol) && symbol != "VIX" ==> r == []
    ensures r == TargetExpirations(symbol, current, available, closed)
  {
    var availSet := AsSet(available);
    var targets: set<int> := {};
    if symbol in ["SPX", "SPXW", "SPY", "QQQ"] {
      targets := DailyTargets(current, availSet, closed);
    } else if symbol == "VIX" {
      targets := VixTargets(current, availSet, closed);
    }
    r := SortedSet(targets);
    SortedSetSmall(targets);
  }

  /** Every target is one of the listed expirations. */
  lemma TargetsListed(symbol: string, current: int, available: seq<int>, closed: set<int>)
    ensures forall e :: e in TargetExpirations(symbol, current, available, closed) ==> e in available
  {
  }
}
