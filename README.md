# Entry-signal decision engine

A Dafny model of the entry-point service of a trend-following trading bot
(`src/main/service/EntryPointService.js`). The service decides whether the
newest candle of an instrument is a moment to open a position, and lists
the past moments that would have qualified. It reads a sequence of
crossover events. Each event carries a timestamp, a MACD cross value, an
RSI value and the stochastic %K and %D lines.

The model has three modules:

- `EntryRules` (`entry_rules.dfy`) covers crossover-pair verification. The
  last crossover is compared with the one before it. The MACD cross must
  rise strictly. The RSI must rise strictly and exceed 50. %K must exceed
  %D. Finally, (%K, %D) must lie outside three inclusive blacklisted bands:
  [90,99]×[90,99], [80,89]×[80,89] and [80,84]×[70,79]. The source stops
  at the first failed rule by throwing and catching a message. Here the
  checks return a `Verdict`, which is `Pass`, `NoPrevious` or
  `Fail(rule)`, and the rule named is always the first one to fail. Each
  rule's meaning is written once as `Holds`. The source's chain of range
  tests (`InRange`, inside `Blacklisted`) is proved equal to a table of bands. Indicator values are `real`,
  so the gaps between bands stay gaps: `k = 89.5` is in no band.
- `HistoricalEntries` (`historical_entries.dfy`) covers the historical
  filter, written as `HistoricalFilter` over `KeptUpTo`. It keeps crossover
  `i` when the prefix ending at `i` verifies.
  The source finds `i` with an identity search (`indexOf`). In this value
  model the crossover's own position is used. That is what the identity
  search returns when the collaborator hands back distinct objects. A value
  search would give a different answer when two crossovers are equal.
- `EntryPointService` (`entry_point_service.dfy`) covers the two public
  operations. The open-position query and the crossover computation are
  function parameters. Results are `Result` values; input failures are
  `Err` values, kept apart from a plain "no entry". A `Candle` carries its
  open, high, low and close prices for the crossover computation; the
  service itself reads only the ticker and the time.

The source and a plain reading of its intent differ in one place, and the
model follows the source. The live check returns "no entry" when the
crossover result is missing (`null`/`undefined`). An empty crossover array
is truthy in JavaScript, however, so the check goes on to read the time of
element `-1`, which throws. The model returns `Err(NoCrossovers)` for it.
An empty candle window also throws, in both operations: each reads
`candles[0].ticker`, the historical one inside its log message. In the
historical operation, a missing crossover result throws when it is
filtered.

Every decision is a pure function of its arguments, so evaluating twice
gives the same answer by construction.

## Model

| member | source | states |
|---|---|---|
| `EntryRules.Blacklisted` | src/main/service/EntryPointService.js:100-109 | the source's disjunction of inclusive range tests holds exactly when (k, d) lies in one of the three bands of the blacklist table |
| `EntryRules.VerifyMacd` | src/main/service/EntryPointService.js:81-85 | passes exactly when the current MACD cross is strictly above the previous one, and otherwise fails naming the MACD rule |
| `EntryRules.VerifyRsi` | src/main/service/EntryPointService.js:87-94 | passes exactly when the RSI rises strictly and is strictly above 50; a failure names the rising rule when RSI did not rise, and the above-50 rule only when it did |
| `EntryRules.VerifyStoch` | src/main/service/EntryPointService.js:96-105 | reads only the current crossover; passes exactly when %K > %D and (%K, %D) is in no blacklisted band; %K ≤ %D is reported before the band test |
| `EntryRules.CheckPair` | src/main/service/EntryPointService.js:65-77 | passes exactly when every rule holds for (previous, current); otherwise names a failing rule such that every rule checked before it holds (MACD, then RSI, then stochastic) |
| `EntryRules.Diagnose` | src/main/service/EntryPointService.js:59-78 | fewer than two crossovers give NoPrevious and nothing else does; otherwise the verdict is a first-failure report over the second-to-last and last crossovers |
| `EntryRules.ShouldEnterFromCrossovers` | src/main/service/EntryPointService.js:59-78 | true exactly when there are at least two crossovers and every rule holds for the last two |
| `EntryRules.ShortSequenceNeverEnters` | src/main/service/EntryPointService.js:60-63 | a sequence of fewer than two crossovers is never an entry and is reported as having no previous crossover |
| `EntryRules.MacdShortCircuits` | src/main/service/EntryPointService.js:69-85 | a non-rising MACD cross fails on the MACD rule whatever the RSI and stochastic readings |
| `EntryRules.RsiRejects` | src/main/service/EntryPointService.js:70-94 | with MACD passing, an RSI that is not above the previous one, or not above 50, fails on the matching RSI rule |
| `EntryRules.StochMisalignedRejects` | src/main/service/EntryPointService.js:96-99 | with MACD and RSI passing, %K ≤ %D fails on the alignment rule |
| `EntryRules.BandRejects` | src/main/service/EntryPointService.js:100-104 | with MACD and RSI passing and %K > %D, a reading inside any band of the table still fails, on the band rule |
| `EntryRules.BlacklistSamples` | src/main/service/EntryPointService.js:100-109 | (95,92), (85,87), (82,75) and all twelve corners of the three inclusive bands are blacklisted; (89.5,85), (85,75) and (99.5,95) fall in the gaps and are not |
| `EntryRules.OnlyLastPairMatters` | src/main/service/EntryPointService.js:66-67 | two sequences with the same last two crossovers get the same verdict |
| `EntryRules.PrependIrrelevant` | src/main/service/EntryPointService.js:66-67 | putting earlier crossovers in front of a sequence of at least two never changes its verdict |
| `EntryRules.AcceptedPair` | src/main/service/EntryPointService.js:59-78 | MACD 0.1→0.3, RSI 45→55 and stochastic (60, 40) make an entry |
| `EntryRules.MisalignedPair` | src/main/service/EntryPointService.js:96-99 | the same pair with stochastic (92, 95) fails on the %K > %D rule, before the band test |
| `HistoricalEntries.KeptIndices` | src/main/service/EntryPointService.js:49-51 | the kept positions are strictly increasing, lie within the range examined, and never include position 0 |
| `HistoricalEntries.KeptUpToAtIndices` | src/main/service/EntryPointService.js:49-51 | the filter's result has one element per kept position: the crossover at that position, in order |
| `HistoricalEntries.KeptIndicesExactly` | src/main/service/EntryPointService.js:49-51 | position i is kept exactly when the prefix ending at i verifies |
| `HistoricalEntries.HistoricalFilterSpec` | src/main/service/EntryPointService.js:49-51 | the filter returns the order-preserving subsequence of crossovers whose prefix verifies; the first crossover is never kept |
| `HistoricalEntries.KeptUpToGrows` | src/main/service/EntryPointService.js:49-51 | the filter over a shorter prefix is a prefix of the filter over a longer one |
| `HistoricalEntries.KeptUpToReadsPrefix` | src/main/service/EntryPointService.js:50 | the decisions about the first n crossovers read only those n crossovers |
| `HistoricalEntries.NoLookahead` | src/main/service/EntryPointService.js:49-51 | appending later crossovers never changes or removes an earlier entry; the old result is a prefix of the new one |
| `HistoricalEntries.HistoricalIsForwardScan` | src/main/service/EntryPointService.js:49-51 | re-verifying every prefix gives exactly the result of one forward pass comparing each crossover with its predecessor |
| `EntryPointService.ShouldEnter` | src/main/service/EntryPointService.js:27-43 | "enter" exactly when the candles are non-empty, no position is open for the ticker, crossovers are returned, and the last one is on the last candle's time and is an entry against its predecessor; errors exactly for an empty candle window or, with no open position, an empty crossover array |
| `EntryPointService.OpenPositionShortCircuits` | src/main/service/EntryPointService.js:28-33 | with an open position the answer is "no entry", the same for every crossover computation, so none is needed |
| `EntryPointService.MissingCrossoversNoEntry` | src/main/service/EntryPointService.js:37 | a missing crossover result gives "no entry" rather than an error |
| `EntryPointService.FreshnessGate` | src/main/service/EntryPointService.js:38-41 | a last crossover whose time differs from the last candle's gives "no entry"; otherwise the answer is exactly the pair verification |
| `EntryPointService.HistoricalEntryPoints` | src/main/service/EntryPointService.js:45-56 | fails exactly for an empty candle window or a missing crossover result; otherwise returns the single-forward-pass result over the computed crossovers |

## Left out

- Logging (`console.log`, date formatting) and the text of the reason messages. A failed rule is a `Rule` tag instead.
- The promise plumbing (`.then`, `Promise.resolve`). Both operations are modelled as returning their settled value.
- A rejected crossover computation: the collaborator is a total function here, so its own failures, which the source lets propagate unchanged, are not modelled.
- `TechnicalAnalysisService.calculatePositiveCrossovers` is not part of this model. It is a parameter from candles to an optional crossover sequence.
- `OpenPositionService.getOpenPosition` is not part of this model. It is a parameter predicate on the ticker.
- The `CONFIG` indicator periods (lines 8-22). They are only forwarded to the crossover computation and never branch a decision.
- Floating-point values such as NaN: indicator readings are exact reals.
- The `!crossovers` guard inside `shouldEnterFromCrossovers` (line 60) for a missing sequence. Neither caller can pass one, and sequences here are never null.
- Object identity: `indexOf` is modelled by position, as explained above.
