/** The record types of `models.py`; their constructors refuse an empty table. */
module Models {
  import opened Wrappers
  import opened Frames

  /** Derived underlying prices (the spot proxy). */
  datatype UnderlyingData = UnderlyingData(symbol: string, data: Frame, date: string, interval: string)

  /** Historical data of one option contract. */
  datatype OptionData = OptionData(
    symbol: string, expiration: string, strike: int, right: string,
    data: Frame, date: string, interval: string, dataType: string)

  /** `UnderlyingData(...)`: a ValueError when the table is empty, otherwise the record
      holding exactly the given fields. */
  function MakeUnderlyingData(symbol: string, data: Frame, date: string, interval: string): (r: Result<UnderlyingData>)
    ensures r.Err? <==> IsEmpty(data)
    ensures r.Err? ==> r.error == ValueError("Underlying data for " + symbol + " is empty.")
    ensures r.Ok? ==> r.value == UnderlyingData(symbol, data, date, interval)
    ensures r.Ok? ==> |r.value.data.rows| >= 1 && |r.value.data.columns| >= 1
  {
    if |data.rows| == 0 || |data.columns| == 0 then Err(ValueError("Underlying data for " + symbol + " is empty."))
    else Ok(UnderlyingData(symbol, data, date, interval))
  }

  /** `OptionData(...)`: a ValueError when the table is empty, otherwise the record
      holding exactly the given fields. */
  function MakeOptionData(symbol: string, expiration: string, strike: int, right: string,
                          data: Frame, date: string, interval: string, dataType: string): (r: Result<OptionData>)
    ensures r.Err? <==> IsEmpty(data)
    ensures r.Err? ==> r.error == ValueError("Option data for " + symbol + " is empty.")
    ensures r.Ok? ==> r.value == OptionData(symbol, expiration, strike, right, data, date, interval, dataType)
    ensures r.Ok? ==> |r.value.data.rows| >= 1 && |r.value.data.columns| >= 1
  {
    if |data.rows| == 0 || |data.columns| == 0 then Err(ValueError("Option data for " + symbol + " is empty."))
    else Ok(OptionData(symbol, expiration, strike, right, data, date, interval, dataType))
  }
}
