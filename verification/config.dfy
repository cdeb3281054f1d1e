/**
 The collector's static configuration (config.py): market hours, the cycle
 cadence and the configured underlyings, in the order the cycle visits them.
 */
module Config {
  import opened Maybe
  import opened Clock

  const MARKET_START_TEXT: string := "09:15:01"
  const MARKET_END_TEXT: string := "15:30:00"

  /** Market open and close as times of day; both instants themselves are inside the session. */
  const MARKET_START: nat := 9 * HOUR + 15 * MINUTE + 1 * SECOND
  const MARKET_END: nat := 15 * HOUR + 30 * MINUTE

  /** Seconds between the end of one cycle and the minute of the next. */
  const COLLECTION_INTERVAL: nat := 60
  /** The second of the minute at which a cycle starts. */
  const START_TIME_OFFSET: nat := 1

  /** One underlying: where it trades, how many expiries and strikes to fetch, and its strike spacing. */
  datatype SymbolConfig = SymbolConfig(
    name: string,
    exchange: string,
    numExpiries: nat,
    numStrikes: nat,
    strikeGap: nat)
  {
    predicate Valid()
    {
      numExpiries >= 1 && numStrikes >= 1 && strikeGap > 0
    }
  }

  /** `ALL_SYMBOLS`: the index options followed by the stock options. */
  const SYMBOLS: seq<SymbolConfig> := [
    SymbolConfig("NIFTY", "INDEX", 2, 25, 50),
    SymbolConfig("SENSEX", "INDEX", 1, 20, 100),
    SymbolConfig("RELIANCE", "NSE", 1, 20, 10)
  ]

  /** The clock texts read back as the market-time constants, and open precedes close. */
  lemma MarketTimesFromText()
    ensures ParseClock(MARKET_START_TEXT) == Some(MARKET_START)
    ensures ParseClock(MARKET_END_TEXT) == Some(MARKET_END)
    ensures MARKET_START < MARKET_END < DAY
  {
  }

  /** Every configured underlying has at least one expiry and strike and a positive gap, and names are distinct. */
  lemma SymbolsValid()
    ensures forall i :: 0 <= i < |SYMBOLS| ==> SYMBOLS[i].Valid()
    ensures forall i, j :: 0 <= i < j < |SYMBOLS| ==> SYMBOLS[i].name != SYMBOLS[j].name
  {
  }
}
