# Currency statistics service: a Dafny model

This project models the core of a small cryptocurrency price service.

- **Ingestion.** `CurrencyStatsService.createStats` reads a CSV file of `timestamp,symbol,price` rows for one currency. It validates the rows and stores them through the stats repository in batches (`saveAll`).
- **Queries.** Three query methods answer questions about the stored prices over a time window:
  - min/max statistics of one currency;
  - all currencies ranked by normalized price, (max - min) / min;
  - the currency with the highest normalized price on one day.
- **Repository.** The JPQL queries of `CurrencyStatsRepository` filter, group, aggregate and sort. They are written as pure functions over the table of stored rows.

Time is modelled as follows:

- a local date-time is an `int` count of milliseconds;
- a date is an `int` day number, whose start of day is `day * MillisPerDay`;
- the configured default period is a whole number of days, possibly negative;
- prices (`BigDecimal`) are `real`.

The modules are:

| file | module | models |
|---|---|---|
| `wrappers.dfy` | `Wrappers` | `Option`, `Result`, `Outcome` |
| `records.dfy` | `Records` | the stored row, the min/max projection, the normalized-price projection |
| `text.dfy` | `Text` | `String.equalsIgnoreCase` |
| `batching.dfy` | `Batching` | how the ingestion loop cuts rows into `saveAll` calls |
| `ingestion.dfy` | `Ingestion` | the row checks of `createStats`, and the outcome, flushes and lookups of a run as functions of the lines |
| `ingestion_service.dfy` | `IngestionService` | the service as a class whose `createStats` loop is proved against those functions |
| `ranking.dfy` | `Ranking` | `ORDER BY normalizedPrice DESC` |
| `aggregation.dfy` | `StatsRepository` | the three repository queries |
| `queries.dfy` | `StatsQueries` | defaulting, validation and the three query methods |
| `example.dfy` | `StatsExample` | a hand-built table that gives the integration test's asserted results |

## Model

Paths are relative to the repository root. `CurrencyStatsService.java` is `src/main/java/org/cryptos/service/CurrencyStatsService.java`. `CurrencyStatsRepository.java` is `src/main/java/org/cryptos/persistence/repository/CurrencyStatsRepository.java`.

| member | source | states |
|---|---|---|
| IngestionService.CurrencyStatsService.CreateStats | src/main/java/org/cryptos/service/CurrencyStatsService.java:62-92 | The outcome equals `IngestOutcome`. The `saveAll` log grows by exactly `IngestFlushes` (full in-loop batches, then the remainder only when the file was read to the end). The registry is consulted exactly as `IngestLookups` says. |
| IngestionService.CurrencyStatsService.ReadRows | src/main/java/org/cryptos/service/CurrencyStatsService.java:75-88 | Once line 1 has been accepted, the loop over the later lines and the final flush give the outcome `IngestOutcome` and append exactly `IngestFlushes` to the `saveAll` log. |
| IngestionService.CurrencyStatsService.SaveAll | src/main/java/org/cryptos/service/CurrencyStatsService.java:81 | One `saveAll` call appends its batch to the log and changes nothing else. |
| IngestionService.CurrencyStatsService.constructor | src/main/java/org/cryptos/service/CurrencyStatsService.java:43-49 | A new service has the given batch size and registry, and has made no calls yet. |
| Ingestion.FirstRejected | src/main/java/org/cryptos/service/CurrencyStatsService.java:75-84 | The loop stops at the first later line the checks reject: every line before it passes, and the line it names fails. |
| Ingestion.CheckLineAccepts | src/main/java/org/cryptos/service/CurrencyStatsService.java:76-78 | A later line passes the column, symbol and number checks exactly when it is valid. Its entity then carries line 1's currency with the line's own time and price. |
| Ingestion.StopLineIsFirstInvalid | src/main/java/org/cryptos/service/CurrencyStatsService.java:67-84 | A run stops at the header when it cannot be read; otherwise at the first invalid data line; otherwise at the end. Every data line before the stop is valid. |
| Ingestion.AddedAreValidLines | src/main/java/org/cryptos/service/CurrencyStatsService.java:73-78 | The rows added to the batch are exactly the entities of the data lines before the stop, in file order. |
| Ingestion.SucceedsIffWellFormed | src/main/java/org/cryptos/service/CurrencyStatsService.java:62-92 | Ingestion succeeds if and only if the header is readable and every data line is valid. A successful run looked up line 1's symbol exactly once. |
| Ingestion.SuccessPersistsEveryLine | src/main/java/org/cryptos/service/CurrencyStatsService.java:73-88 | On success, the concatenated flushes are all data lines, in order. Each is the line's entity, so the number persisted equals the number of data lines. |
| Ingestion.SuccessFlushShape | src/main/java/org/cryptos/service/CurrencyStatsService.java:65-88 | On success with batch size n >= 2: there are ceil(M / n) flushes for M data lines, none empty, and all but the last hold exactly n. With n below 2 there is one flush holding all M lines. |
| Ingestion.FailureFlushesOnlyFullBatches | src/main/java/org/cryptos/service/CurrencyStatsService.java:75-91 | A failed run flushed only full batches of n rows (nothing when n < 2). Those rows are valid lines strictly before the failing one, in order. |
| Ingestion.WrongColumnCountFails | src/main/java/org/cryptos/service/CurrencyStatsService.java:70-76 | The first examined line without 3 cells fails the run with the column-count error and its exact message. This holds for line 1 before the registry lookup and for later lines before the symbol check. |
| Ingestion.MismatchedSymbolFails | src/main/java/org/cryptos/service/CurrencyStatsService.java:77 | The first later line whose symbol differs from line 1's up to case fails the run with a mismatch naming both symbols. |
| Ingestion.MismatchComesFromLaterLine | src/main/java/org/cryptos/service/CurrencyStatsService.java:179-185 | A mismatch error always names line 1's symbol and the symbol of some later line, and the two really differ up to case. Line 1 itself is never symbol-checked. |
| Ingestion.NotRegisteredIff | src/main/java/org/cryptos/service/CurrencyStatsService.java:69-72 | The not-registered error occurs exactly when line 1 has 3 cells and its symbol is not registered. Then line 1's symbol was looked up once and nothing was flushed. |
| Ingestion.StopAt | src/main/java/org/cryptos/service/CurrencyStatsService.java:75-84 | After a valid prefix, the first invalid line is where the run stops. |
| Ingestion.EarlyStop | src/main/java/org/cryptos/service/CurrencyStatsService.java:67-73 | A run that fails on the header or on line 1 reports that failure and flushes nothing. |
| Ingestion.LoopStop | src/main/java/org/cryptos/service/CurrencyStatsService.java:75-88 | A run that enters the loop and stops at line k ends in success with all batches only when k is the end of the file; otherwise it ends in line k's error with the full batches only. |
| Ingestion.AcceptedStep | src/main/java/org/cryptos/service/CurrencyStatsService.java:78 | Accepting one more line appends its entity to the batch contents. |
| Batching.BatchesFlatten | src/main/java/org/cryptos/service/CurrencyStatsService.java:80-88 | The batches of a complete run, concatenated, are the added rows in order. |
| Batching.BatchesShape | src/main/java/org/cryptos/service/CurrencyStatsService.java:80-88 | With batch size n >= 2 there are ceil(M / n) batches. Each holds 1 to n rows, and all but the last hold exactly n. |
| Batching.BatchesBelowTwo | src/main/java/org/cryptos/service/CurrencyStatsService.java:65-88 | With batch size below 2, a complete run makes one `saveAll` of every row. |
| Batching.NoLoopFlushBelowTwo | src/main/java/org/cryptos/service/CurrencyStatsService.java:80 | With batch size below 2 the in-loop size test never fires, so the whole input stays pending. |
| Batching.LoopBatchesThenPending | src/main/java/org/cryptos/service/CurrencyStatsService.java:78-84 | The in-loop flushes followed by the pending batch are the added rows, in order. |
| Batching.LoopBatchesArePrefix | src/main/java/org/cryptos/service/CurrencyStatsService.java:78-84 | What the loop has flushed is a prefix of the added rows. |
| Batching.LoopBatchesAreFull | src/main/java/org/cryptos/service/CurrencyStatsService.java:80-83 | Every in-loop flush holds exactly n rows. For n >= 2 the pending batch holds fewer than n, and there are floor(M / n) in-loop flushes. |
| Batching.AddRow | src/main/java/org/cryptos/service/CurrencyStatsService.java:78-83 | Adding a row flushes exactly when the batch then holds n rows; the batch is emptied then and extended otherwise. |
| Text.EqualsIgnoreCaseByLowering | src/main/java/org/cryptos/service/CurrencyStatsService.java:180 | The case-insensitive comparison holds exactly when the lower-cased strings are equal. |
| Text.EqualsIgnoreCaseIsEquivalence | src/main/java/org/cryptos/service/CurrencyStatsService.java:180 | The comparison is reflexive, symmetric and transitive. |
| Text.Lowered | src/main/java/org/cryptos/service/CurrencyStatsService.java:180 | Lower-casing keeps the length and folds each character on its own. |
| StatsRepository.InRange | src/main/java/org/cryptos/persistence/repository/CurrencyStatsRepository.java:39-40 | A row is kept exactly when its time t satisfies start <= t < end. |
| StatsRepository.OfSymbol | src/main/java/org/cryptos/persistence/repository/CurrencyStatsRepository.java:38 | A row is kept exactly when its symbol equals the argument. |
| StatsRepository.MinTime | src/main/java/org/cryptos/persistence/repository/CurrencyStatsRepository.java:32 | The result is the time of some row and no later than any row's time. |
| StatsRepository.MaxTime | src/main/java/org/cryptos/persistence/repository/CurrencyStatsRepository.java:33 | The result is the time of some row and no earlier than any row's time. |
| StatsRepository.MinPrice | src/main/java/org/cryptos/persistence/repository/CurrencyStatsRepository.java:34 | The result is the price of some row and at most every row's price. |
| StatsRepository.MaxPrice | src/main/java/org/cryptos/persistence/repository/CurrencyStatsRepository.java:35 | The result is the price of some row and at least every row's price. |
| StatsRepository.FindStatsBySymbol | src/main/java/org/cryptos/persistence/repository/CurrencyStatsRepository.java:30-45 | The result is empty exactly when no row of the symbol lies in [start, end). Otherwise it names the symbol. |
| StatsRepository.FindStatsIsMinMax | src/main/java/org/cryptos/persistence/repository/CurrencyStatsRepository.java:31-40 | When present, the aggregate holds the min and max time and the min and max price of the selected rows, each attained by a row. Hence oldest <= newest, min <= max, and both dates lie in [start, end). |
| StatsRepository.MinMaxIsUnique | src/main/java/org/cryptos/persistence/repository/CurrencyStatsRepository.java:31-35 | The selected rows determine the aggregate: two aggregates that both fit them are equal. |
| StatsRepository.Symbols | src/main/java/org/cryptos/persistence/repository/CurrencyStatsRepository.java:65 | The groups are exactly the symbols occurring in the rows, each once. |
| StatsRepository.SymbolsHaveRows | src/main/java/org/cryptos/persistence/repository/CurrencyStatsRepository.java:57-65 | Every group has at least one row in the window. |
| StatsRepository.RankingFailsIffZeroMinimum | src/main/java/org/cryptos/persistence/repository/CurrencyStatsRepository.java:60 | The ranking query fails with a division error exactly when some symbol with rows in the window has minimum price 0. |
| StatsRepository.RankingSortedAndDistinct | src/main/java/org/cryptos/persistence/repository/CurrencyStatsRepository.java:57-66 | A successful ranking is sorted by normalized price, largest first, and lists each symbol at most once. |
| StatsRepository.RankingCoversWindow | src/main/java/org/cryptos/persistence/repository/CurrencyStatsRepository.java:57-65 | Every symbol with a row in the window has an entry. |
| StatsRepository.RankingEntryValues | src/main/java/org/cryptos/persistence/repository/CurrencyStatsRepository.java:60-65 | Every entry belongs to a symbol with rows in the window. Its value is (max - min) / min of that symbol's prices there. |
| StatsRepository.RankingNonNegative | src/main/java/org/cryptos/persistence/repository/CurrencyStatsRepository.java:60 | When every price in the window is positive, the ranking succeeds and every value is >= 0. |
| StatsRepository.PositiveGroup | src/main/java/org/cryptos/persistence/repository/CurrencyStatsRepository.java:60 | A symbol whose own rows in the window all have positive prices has a positive minimum and a non-negative normalized value, whatever other symbols hold. |
| StatsRepository.PositiveMinimumEntries | src/main/java/org/cryptos/persistence/repository/CurrencyStatsRepository.java:57-66 | In any successful ranking, every entry whose symbol has a positive minimum price in the window has a normalized value >= 0, even when other symbols have negative prices. |
| StatsRepository.NormalizedNonNegative | src/main/java/org/cryptos/persistence/repository/CurrencyStatsRepository.java:60 | (max - min) / min >= 0 whenever 0 < min <= max. |
| Ranking.Insert | src/main/java/org/cryptos/persistence/repository/CurrencyStatsRepository.java:66 | Inserting adds exactly that entry: the result is the input plus the entry, as a multiset. |
| Ranking.InsertSorted | src/main/java/org/cryptos/persistence/repository/CurrencyStatsRepository.java:66 | Inserting into a list sorted largest first keeps it sorted. |
| Ranking.SortDesc | src/main/java/org/cryptos/persistence/repository/CurrencyStatsRepository.java:66 | The result is sorted largest first and is a permutation of the input. |
| Ranking.InsertKeepsDistinct | src/main/java/org/cryptos/persistence/repository/CurrencyStatsRepository.java:65-66 | Inserting an entry whose symbol is new keeps the symbols distinct. |
| Ranking.SortKeepsDistinct | src/main/java/org/cryptos/persistence/repository/CurrencyStatsRepository.java:65-66 | Sorting keeps the symbols distinct. |
| StatsQueries.GetCurrencyStats | src/main/java/org/cryptos/service/CurrencyStatsService.java:104-112 | The period error, carrying the resolved bounds, occurs exactly when the resolved start is after the resolved end. Not-found, naming the symbol, occurs exactly when the window holds no row of the symbol. Every failure is one of these two values. On success the aggregate fits the rows (min/max facts, both dates in the window). |
| StatsQueries.GetAllCurrenciesNormalized | src/main/java/org/cryptos/service/CurrencyStatsService.java:123-131 | The period error occurs exactly when start > end. Otherwise the call succeeds exactly when the repository query does, and a failure passes the query's own error on. A success returns the repository's list unchanged. It is sorted largest first, names each symbol with rows in the window once with its (max - min) / min, and is empty exactly when the window holds no row. |
| StatsQueries.GetHighestNormalizedPriceForDay | src/main/java/org/cryptos/service/CurrencyStatsService.java:141-151 | Not-found, naming the day as given, occurs exactly when the day window holds no row. The only other failure is the ranking query's own error, passed on when that query fails. On success the result is the ranking's first entry, whose value is at least every entry's. |
| StatsQueries.HighestOf | src/main/java/org/cryptos/service/CurrencyStatsService.java:145-150 | For a fixed window: not-found exactly when it holds no row. Otherwise, unless the ranking query fails on a zero minimum (its error is then passed on), the result is the ranking's first entry, which is maximal. |
| StatsQueries.HeadIsHighest | src/main/java/org/cryptos/persistence/repository/CurrencyStatsRepository.java:80-92 | The first entry of a non-empty ranking has the largest normalized value and is a symbol with rows in the window. |
| StatsQueries.EmptyWindowRanksNothing | src/main/java/org/cryptos/persistence/repository/CurrencyStatsRepository.java:80-92 | A window without rows gives an empty ranking, not an error. |
| StatsQueries.RankingFacts | src/main/java/org/cryptos/persistence/repository/CurrencyStatsRepository.java:57-69 | A successful ranking is sorted, distinct and covers the window, with entry values as above. It is empty exactly when the window holds no row. |
| StatsQueries.DayWindowSpan | src/main/java/org/cryptos/service/CurrencyStatsService.java:142-143 | A given day d gives the window [start of d, start of d + 1). A defaulted day gives one day when both clock readings agree, and one more day for each day the date moved between them. |
| StatsQueries.DefaultWindowIsValid | src/main/java/org/cryptos/service/CurrencyStatsService.java:245-257 | With a non-negative default period, both bounds defaulted and a clock that does not go back, validation passes and the window spans at least the default period. |
| StatsQueries.NegativePeriodIsRejected | src/main/java/org/cryptos/service/CurrencyStatsService.java:45 | A negative default period puts the defaulted start after now, so with both bounds defaulted the query fails with the period error unless the clock advanced by at least the period's length between the two readings. |
| StatsQueries.StatsFoundOnValidWindow | src/main/java/org/cryptos/service/CurrencyStatsService.java:109-111 | A valid window holding rows of the symbol always gives success, with exactly the repository's aggregate. |
| StatsQueries.HighestFoundOnNonEmptyDay | src/main/java/org/cryptos/service/CurrencyStatsService.java:145-150 | A day window holding rows, whose ranking query succeeds, always gives success with the ranking's first entry. |
| StatsQueries.CurrencyNotFoundMessage | src/main/java/org/cryptos/service/CurrencyStatsService.java:111 | A valid window without rows of the symbol fails with not-found. Its message (built by `QueryMessage`) is "Currency '<symbol>' not found". |
| StatsQueries.WrongPeriodMessage | src/main/java/org/cryptos/service/CurrencyStatsService.java:194-198 | A query whose start is after its end reports "The start date '<start>' must be before the end date '<end>'" with the resolved bounds. |
| StatsQueries.DefaultedDayMessage | src/main/java/org/cryptos/service/CurrencyStatsService.java:141-151 | A day query without a day on a table with no rows today fails with not-found, and its message is "Prices not found for the day 'null'". |
| StatsExample.ExampleCurrencyStats | src/test/java/integration/spring/CurrencyStatsTest.java:163-176 | On a hand-built table with BTC rows at 20 and 50 in the window, the stats query returns minimum 20 and maximum 50, the values the integration test asserts. |
| StatsExample.ExampleRanking | src/test/java/integration/spring/CurrencyStatsTest.java:178-197 | On a hand-built table with BTC at 20 and 50 and ETH at 10 and 50, the ranking is exactly ETH at 4.0, then BTC at 1.5, the order and values the integration test asserts. |
| StatsExample.ExampleRepositoryRanking | src/main/java/org/cryptos/persistence/repository/CurrencyStatsRepository.java:57-66 | On the example rows the repository's ranking query returns exactly ETH at 4.0, then BTC at 1.5. |
| StatsExample.ExampleStats | src/main/java/org/cryptos/persistence/repository/CurrencyStatsRepository.java:30-45 | On the example rows the aggregate of BTC is 20 to 50 and that of ETH is 10 to 50. |
| StatsExample.TwoEntryOrder | src/main/java/org/cryptos/persistence/repository/CurrencyStatsRepository.java:65-66 | A sorted, symbol-distinct list made of two entries lists the larger one first and nothing else. |

## Left out

- CSV tokenising (quotes, separators) by OpenCSV is not modelled. The input is the sequence of already-split lines. A read failure on a line (`IOException`, `CsvValidationException`) is the `Unreadable` line, which becomes the stream-read error.
- `Long.parseLong`, `new BigDecimal(...)` and the epoch-millisecond to local date-time conversion in the system time zone are parameters (`Parsers`). Their `NumberFormatException` is the `MalformedNumber` error. The service does not catch it, so it has no message of its own.
- `LocalDateTime.now()` and `LocalDate.now()` are parameters. Each defaulting helper reads the clock separately, so a request carries two readings.
- The default period is a whole number of days, which may be negative, as `Period.parse` accepts (`P-30D`). Month or year periods, and daylight-saving gaps in local time, are not modelled.
- IngestionService.CurrencyStatsService.CreateStats: requires at least two lines. With fewer, the source passes `null` to the column check and fails with a `NullPointerException`.
- IngestionService.CurrencyStatsService.CreateStats: the batch size is a `nat`. A negative configured size makes `new ArrayList<>(batchSize)` throw before any line is read.
- Transactions are not modelled. On a failure the service's transaction would be rolled back, so flushes recorded in the `saveAll` log need not stay in the database. The log records calls, not commits.
- The registry is a set of symbols, and `findById` is exact membership. Case folding is ASCII-only, whereas Java folds all of Unicode. The repository's `c.symbol = :currencySymbol` is exact equality; a database collation may differ.
- Decimal scale and rounding are not modelled. The prices are exact reals, and the division of the normalized price is exact, whereas the database rounds it.
- A division by a zero minimum is an error value, `DivisionByZero`, not a precondition. The service does not catch it.
- SQL's `ORDER BY` leaves the order of equal normalized prices open, and the model sorts with one particular tie order. The lemmas state only sortedness, distinctness, coverage and values, which hold for any tie order.
- The day-query lemmas therefore say only that the head has the largest value; with ties the database may pick another entry of the same value.
- The example module uses a hand-built table over a window [0, 10) rather than the integration test's CSV files over [2000-01-01, 2030-01-01). The contents of those files are not part of this model, so the table was chosen to give the results the test asserts.
- Messages with dates (`WrongTimePeriod`, `DayPricesNotFound`) take the ISO rendering of dates as parameters (`QueryMessage`).
- `CurrencyService`, the controllers, the exception handler, the DTOs and the domain conversions are not modelled. The conversions copy fields one to one.
- The queries take the stored table as a parameter instead of reading a database.
