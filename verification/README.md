# Option-chain collector: a Dafny model of its decisions

The collector wakes once a minute during Indian market hours. For each
configured underlying (NIFTY, SENSEX, RELIANCE) it does the following:

- reads the spot price from the broker;
- for every configured expiry, asks for the at-the-money strike and the option chain;
- reshapes the chain into a fixed 33-column row layout;
- inserts the rows into a PostgreSQL table named after the underlying and the expiry label.

Around that I/O sit a handful of exact decisions, and this project models
and proves them:

- the market-hours gate and the wake-time arithmetic of the main loop;
- the spot price read, the ATM fallback, the chain-shape check and the expiry-label parse of `fetch_symbol_data`;
- the row normaliser of `save_option_chain_data`;
- the table naming and the insert of `database.py`;
- `round_to_minute`.

The broker SDK, the clock and the database are not called. Each of them is an
input: one reply per call, as the calls happen.

Modules, one per component:

- `Maybe` (maybe.dfy): the option type.
- `Clock` (clock.dfy): instants as microseconds since 0001-01-01. That day is a Monday, so weekday = day number mod 7, as `datetime.weekday()` numbers them. The module also holds `round_to_minute` and the `%H:%M:00` stamp.
- `Config` (config.dfy): market hours, the interval, the start-second offset and the configured underlyings, in the order `ALL_SYMBOLS` lists them.
- `TimeGate` (gate.dfy): the gate's weekend, before-open and after-close branches; the loop that re-evaluates it; the wake alignment.
- `Text` (text.dfy): Python's `str.split()`, `' '.join`, single-character `replace` and `str(int)`.
- `Frames` (frame.dfy): a DataFrame as a column list plus rows keyed by column; pandas' column assignment, `insert` and selection; the normaliser.
- `Storage` (storage.dfy): table naming, the DDL/INSERT column lists, and `insert_option_chain_data` with its failure cases.
- `Fetch` (fetch.dfy): `get_initial_data`, one expiry iteration, and `fetch_symbol_data` as a loop.
- `Cycle` (cycle.dfy): one collection cycle over all underlyings, and where its writes land.

Behaviour the model keeps as the code has it, though a reader of the
project's description might expect otherwise:

- On a Saturday the gate sleeps until Sunday's opening time, not Monday's. Only the Sunday evaluation sleeps on to Monday.
- After a cycle the loop always sleeps, for more than one second and at most 61 seconds. The wait is measured from the cycle's end, so the branch that skips the sleep is never taken.
- An option name with fewer than four tokens gives the label `None`. `create_symbol_table` then fails on `None.replace`, and nothing is stored for that expiry.
- An ATM selection that fails after an earlier one succeeded leaves the earlier call name bound. When that name is a text, the expiry is labelled, and stored, as the earlier expiry. `Expiry_<i>` is used when `split` raises: while no name has been bound, or when the SDK bound a name that is not a text, such as `None`.
- `df.insert` raises when the chain already has a `Spot Price` or `ATM Strike` column. The expiry is then abandoned.
- A chain tuple with more than two elements raises at unpacking, and is abandoned the same way. So is a pair whose second element is not a DataFrame, at the first `df.insert`.
- The SDK's strike is inserted as it came, `None` included; only a raised selection falls back to the computed strike.

## Model

| member | source | states |
|---|---|---|
| Clock.RoundToMinute | utils.py:29-31 | second and microsecond are zero; day, hour and minute are kept; the result is at most the input and less than a minute below it, so it truncates rather than rounds |
| Clock.RoundToMinuteIsFloor | utils.py:31 | truncation is rounding down to a whole minute since the origin |
| Clock.RoundToMinuteIdempotent | utils.py:31 | truncating a truncated instant changes nothing |
| Clock.MinuteStamp | main.py:49 | the row timestamp is an eight-character `HH:MM:00` text |
| Clock.MinuteStampRoundTrip | main.py:191 | reading the stamp back gives exactly the hour and minute of the truncated clock reading |
| Clock.ParseClock | main.py:258-259 | a clock text that parses denotes a time of day below 24 hours |
| Config.MarketTimesFromText | config.py:4-5 | the texts 09:15:01 and 15:30:00 read back as the open and close constants, and open precedes close within the day |
| Config.SymbolsValid | config.py:12-41 | every configured underlying has at least one expiry and strike and a positive strike gap, and no name repeats |
| TimeGate.Gate | main.py:274-317 | collects exactly on weekday instants from open to close, both inclusive; a weekend instant waits until the next calendar day's open; before the open it waits until today's open; after the close it waits until the next day's open; every wait is strictly positive and skips no trading instant |
| TimeGate.GateAtOpening | main.py:275-300 | at a day's opening instant the gate collects on a weekday and waits for the next day's opening otherwise |
| TimeGate.SaturdayGoesToSunday | main.py:275-287 | a Saturday evaluation wakes on Sunday, which waits again; only Monday's opening collects |
| TimeGate.Settle | main.py:269-317 | re-evaluating the gate after each sleep reaches a trading instant, and no trading instant lies between the start and it |
| TimeGate.SettleWithinThreeWaits | main.py:269-317 | three sleeps always reach a trading instant, which is the start itself or some day's opening |
| TimeGate.SettleFromOpening | main.py:275-287 | from a day's opening, one sleep per remaining weekend day reaches an opening where the gate collects |
| TimeGate.FridayEveningToMonday | main.py:275-313 | Friday after the close needs exactly three sleeps, two are not enough, and the collection starts at Monday's opening |
| TimeGate.AlignedWake | main.py:334-335 | the wake falls on second START_TIME_OFFSET, microsecond 0, of the minute of the advanced instant, with day, hour and minute kept |
| TimeGate.InitialWake | main.py:262-263 | the first cycle starts on second START_TIME_OFFSET, microsecond 0, of the minute after start-up, strictly after start-up |
| TimeGate.NextCycleWake | main.py:334-335 | the next cycle starts on second START_TIME_OFFSET, microsecond 0, of the minute COLLECTION_INTERVAL seconds after the cycle's end, strictly after that end |
| TimeGate.PauseUntil | main.py:336-340 | the loop sleeps exactly when the wake lies ahead, and then for exactly the gap |
| TimeGate.InitialWakeMatchesCycle | main.py:262-264 | the start-up alignment and the between-cycle alignment give the same wake |
| TimeGate.CycleAlwaysPauses | main.py:333-340 | after any cycle the wait is positive, more than the offset and at most a minute plus the offset, and the next cycle starts in the minute after the cycle ended |
| Text.Split | main.py:196 | every token of `split()` is non-empty and free of whitespace |
| Text.SplitJoin | main.py:196-198 | splitting words joined by single spaces gives the words back |
| Text.ReplaceChar | database.py:72 | every occurrence of the character is replaced, and every other character and the length are kept |
| Text.DecimalText | main.py:203 | the decimal text of the index is non-empty digits without a leading zero |
| Text.DecimalRoundTrip | main.py:203 | the decimal text reads back as the number, so different indices print differently |
| Frames.ColumnOrderShape | main.py:52-62 | the normalised order has 33 distinct columns |
| Frames.SetColumn | main.py:43-49 | assigning a scalar column sets that cell in every row and appends the column when it is new; the frame stays well formed |
| Frames.InsertColumn | main.py:186-187 | inserting a column fails exactly when it exists or the position is past the end; otherwise the column is placed at the position and set in every row |
| Frames.AddMissing | main.py:65-67 | the listed columns are added as `None` where missing, and present cells are untouched |
| Frames.Select | main.py:70 | the selection has exactly the listed columns in order, with the cells unchanged |
| Frames.Reshape | main.py:65-70 | after adding and selecting, each listed column holds the row's own value or `None` |
| Frames.Stamp | main.py:43-49 | every row gets the symbol, expiry, fetch time and timestamp in the four identifying columns, and keeps every other cell it had; the frame stays well formed |
| Frames.StampCell | main.py:43-49 | after stamping, each cell holds its normalised content, and the stamped columns are never missing |
| Frames.Normalize | main.py:43-70 | the result has exactly the 33 columns in order and as many rows as the input; each row holds the stamped Symbol, expiry, fetch time and timestamp, the input's own value for every other listed column, `None` for one it lacks, and nothing else |
| Frames.NormalizeTo | main.py:43-70 | normalisation to any distinct column list keeps the row count and gives each row exactly those columns with their normalised content |
| Frames.NormalizeIdempotent | main.py:43-70 | normalising a normalised frame with the same stamps changes nothing |
| Storage.SanitizeLabel | database.py:72 | the sanitised label has the same length, no space and no hyphen, each of them turned into `_`, and every other character kept |
| Storage.SanitizeIdempotent | database.py:72 | sanitising twice is sanitising once |
| Storage.SanitizeFixedPoints | database.py:72 | a label is left unchanged exactly when it has no space and no hyphen |
| Storage.DistinctLabelsShareTable | database.py:72-76 | two labels of one underlying share a table exactly when they agree everywhere except where both hold a space, hyphen or underscore, so "14 NOV", "14-NOV" and "14_NOV" share one |
| Storage.TableName | database.py:72 | the table name is the underlying, an underscore, then a label-length part free of spaces and hyphens |
| Storage.QualifiedTable | database.py:76 | the CREATE target lies in the schema `option_chain_<symbol>.` and is as long as that prefix, the symbol, an underscore and the label |
| Storage.SameTableIffSameSanitized | database.py:72-76 | within one underlying, two labels name the same table exactly when they sanitise alike |
| Storage.CreateAndInsertAgree | database.py:120-138 | the INSERT, qualifying the name `create_symbol_table` returned, targets the table the CREATE made |
| Storage.ColumnListsAgree | database.py:78-157 | the DDL's data columns, the INSERT's columns and its parameter keys all equal the normaliser's order |
| Storage.MissingKey | database.py:164 | binding fails exactly when some parameter key is not a column, and names such a key |
| Storage.Bind | database.py:134-164 | one record per row, each holding that row's value for every parameter key in order |
| Storage.InsertWith | database.py:126-172 | the insert succeeds exactly with a label, a database that accepts, and every key bound (or no rows); it then reports the number of rows and writes each row's values into the label's table; a missing label fails as such |
| Storage.InsertOptionChainData | database.py:168 | a successful insert reports the number of rows given |
| Storage.StoreNormalized | database.py:126-172 | a normalised frame is stored exactly when there is a label and the database accepts, into the label's table, one record of 33 values per row |
| Storage.StoredRecordCell | database.py:134-164 | value `j` of stored record `k` is row `k`'s cell in the `j`-th normalised column |
| Fetch.InitialData | main.py:83-112 | a spot price exists exactly when the reply is a dict holding a non-`None` price for the symbol, and it is that price; a raised call or another reply gives none |
| Fetch.RoundHalfEven | main.py:155 | Python's `round` lies within a half of its argument and is even on an exact half |
| Fetch.RoundHalfEvenUnique | main.py:155 | no other integer has both of those properties |
| Fetch.FallbackAtm | main.py:153-158 | the fallback strike is a multiple of the gap within half a gap of the spot, the even multiple on a tie |
| Fetch.FallbackAtmUnique | main.py:153-158 | any multiple of the gap with those properties is the fallback |
| Fetch.FallbackAtmExamples | main.py:155 | at a gap of 50, spot 19987 and the tie 19975 go to 20000, and the tie 19925 goes to 19900 |
| Fetch.ExpiryLabel | main.py:194-203 | when the name is unbound or not a text the label is `Expiry_<index>`; for a text name there is a label exactly when it has at least four tokens, and it is tokens 1 and 2 joined by a space |
| Fetch.LabelOfOptionName | main.py:196-198 | for a name of at least four words joined by single spaces, such as `<SYM> <DD> <MON> <STRIKE> <SIDE>`, the label is the second and third words |
| Fetch.FallbackLabelsDistinct | main.py:203 | fallback labels of different indices differ |
| Fetch.Prepared | main.py:186-191 | preparing fails exactly when the chain already has a column it inserts; otherwise the spot and strike columns come first and a timestamp column follows, and each row gets the spot, the strike and the minute stamp |
| Fetch.ChainOutcome | main.py:182-221 | a chain is rejected exactly when it is `None`, not a tuple, or a tuple of at most one element; the iteration raises exactly on a failed call, a longer tuple, a second element that is not a DataFrame, or a clashing column; it is stored exactly when the chain is usable, a label exists and the database accepts, in the label's table with one row per chain row |
| Fetch.SavePrepared | main.py:39-81 | a prepared chain is saved exactly when a label exists and the database accepts, in the label's table with one 33-value record per row; storage failures are swallowed, and a missing label is reported as such |
| Fetch.FetchTime | main.py:190 | the fetch time is the clock reading truncated to the second |
| Fetch.PreparedCell | main.py:186-191 | normalising a prepared row gives each column its stored value: spot, strike, the stamped columns, or the chain's own cell |
| Fetch.SavedCell | main.py:39-81 | value `j` of stored record `k` is what the stored-value table gives column `j` of chain row `k` |
| Fetch.ExpiryStep | main.py:129-227 | the name is rebound only by a successful selection; the strike is the selection's or else the fallback; the attempt is stored exactly when the chain is usable, the label exists and the database accepts, in the label's table |
| Fetch.FetchSymbolData | main.py:114-233 | with no spot price nothing is attempted; otherwise every expiry index is attempted in order, each from its own replies and the name the earlier indices left bound |
| Fetch.FailedSelectionReusesTable | main.py:137-198 | a failed selection after a successful one keeps the earlier name; when that name is a text it gets the earlier expiry's label and table |
| Cycle.RunCycle | main.py:319-326 | one cycle fetches every configured underlying in configuration order, each from its own inputs |
| Cycle.WritesStayInSchema | database.py:76 | every row an underlying stores lands in that underlying's schema |
| Cycle.SchemasApart | database.py:76 | no table lies in the schemas of two configured underlyings |
| Cycle.NoSpotNoWrites | main.py:123-125 | an underlying without a spot price stores nothing |

## Left out

- The broker SDK (`get_ltp_data`, `ATM_Strike_Selection`, `get_option_chain`) is foreign code; its replies are inputs.
- PostgreSQL I/O is left out: connections, DDL execution, `create_tables`, `get_db_connection`, `get_db_session` and `test_database_connection`. Each insert's outcome is an input: create fails, insert fails, or both succeed.
- PostgreSQL folds unquoted identifiers to lower case, so `option_chain_NIFTY` lands in the lower-case schema `create_tables` made. Tables are compared as texts, without that folding.
- Logging, SSL setup, `.env` loading and `print` are left out: they decide nothing.
- `time.sleep`, `datetime.now` and `get_current_time` are clock side effects. Clock readings are inputs, and every sleep is taken to wake at its target.
- Signal handling, `sys.exit`, `KeyboardInterrupt` and the 60-second retry after an unexpected loop error are process control, and are left out.
- `calculate_next_run_time` (utils.py:37-50) is never called. It would raise, since it compares a `time` with a `str`.
- Spot prices and strikes are exact rationals, not floats. `round` is round-half-even on them.
- Fetch.FetchTime: the fetch time is the truncated instant, not the `'%Y-%m-%d %H:%M:%S'` text; the calendar rendering is not modelled.
- `datetime` overflow past year 9999 is left out. The gate never nears it.
- The market-time texts are read as exactly `HH:MM:SS`. The leniency of `int()` about signs and surrounding spaces in other texts is left out.
- A DataFrame with duplicate column labels, and SDK cells that are not numbers, texts or `None`, are left out. Frames are well formed: distinct labels, every row keyed by them.
- The failing SDK calls are not distinguished by exception type. Any raised call is one failure.
- A call name that is not a text is taken to have no `split`. An object of another type that has its own `split` is left out.
