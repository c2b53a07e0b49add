# tdx-cpp: a verified model of the market-data core

tdx-cpp collects Chinese stock quotes over the TDX protocol, publishes them to other processes
through a shared-memory table, resamples and adjusts K-lines, and evaluates strategies on them.
This project models its seven hardest components in Dafny and proves what they are for.

| files | component |
|---|---|
| `SnapshotLayout`, `Probing`, `BoundedMap`, `SnapshotTable`, `SnapshotProtocol`, `SnapshotRuns`, `PausedPut` | the lock-free quote table: key buffers and probe paths, the open-addressing index, runs of puts on a bounded map, the table written in place as such a map, the seqlock protocol with one load or store per step, and whole runs of it |
| `Bytes`, `Codec`, `RecordStream`, `DeltaRecords`, `DeltaRoundTrip`, `QuotesDetail`, `Calendar`, `KLineParser`, `Bitmap`, `CutShort` | the wire format: the variable-length integer, delta-coded lists, five-level quotes, the K-line message with guessed counts, bitmap-driven rows, and messages that end too early |
| `Grouping`, `Resampler`, `ResampleTwice` | resampling of bars over a split trading day |
| `Sorting`, `Adjust`, `AdjustPython`, `AdjustersCompared` | forward price adjustment, in its two implementations, and when they agree |
| `CircuitBreaker` | the timed circuit breaker with capped exponential backoff |
| `MarketCode`, `Shards`, `HandOff`, `Paging`, `Resume` | the collection pipeline: sharded batch loops, the hand-off to the ingest thread, paged downloads, crash and resume |
| `Indicators`, `Backtest` | DEMA, RSI and the cash/shares ledger of the dip-buying backtest |
| `Options`, `Powers`, `Reals`, `Sequences` | shared vocabulary |

Loops and objects of the source are methods and classes here, each proved equal to a specification
function; the properties are lemmas about those functions. Protocols between threads or processes
are state machines whose results hold for every interleaving. `dafny verify dfyconfig.toml` checks
everything.

## What turned out conditional or false

Where a property does not hold of the code on all inputs, the model keeps the code as it is and
proves exactly when it holds.

- **The batch loop of a collecting worker** advances its cursor by the number of accepted codes,
  not by the window it looked at. It ends if and only if every window of its shard holds a code with
  a market prefix (`Shards.TerminatesExactly`), and of a loop that ends, every code is requested
  exactly once if and only if all codes parse (`Shards.CoversExactly`). A bare `600000` passes the
  target filter (src/cli/fetch_quotes.cpp:101) and then loops for ever
  (`Shards.BareCodeNeverEnds`).
- **Ticks** are read as offsets from the first nonzero value, so a list whose first price or average
  is zero is misread unless nothing follows the first nonzero one (`TickRoundTrip.TicksRoundTrip`).
- **Messages cut short.** Of quotes and rows that end anywhere exactly those that have come whole are
  returned (`CutQuotes.QuotesCutShort`, `CutRows.RowsCutShort`), of trades those of which all but an
  unused field has come (`CutRecords.TradesCutShort`), of K-lines those of which at most the counts
  are missing (`CutKLines.KLinesCutShort`). An order is taken before its volume has come, with a
  made-up volume (`CutRecords.VolumeIsMadeUp`), and a tick list is filled up to its count with ticks
  that never came (`CutRecords.TicksAreMadeUp`).
- **K-line counts** are taken for the next bar's date if and only if the count word spells a time
  later than its own bar's (`KLineRoundTrip.KLinesRoundTrip`).
- **Resampling in two stages** guesses the second stage's source period from its first two bars. For
  traded bars it equals one stage if and only if the guess labels every intermediate bar as the true
  period would or, when the first stage leaves a single bar, both periods label the first instant
  alike (`ResampleTwice.ComposesExactly`). Data that starts beside the lunch break fails
  (`ResampleTwice.LunchBreaksComposition`).
- **HALF_OPEN** admits every request, not one probe, although include/tdx/proto/retry.hpp:48 and
  src/proto/retry.cpp:31 speak of one: in every run one request is admitted before the next outcome
  if and only if only one is made (`CircuitBreaker.ProbesAreAsManyAsAsked`).
- **Shutdown** loses chunks that are not counted as dropped when the stop flag is raised before the
  last write of a round. From every reachable state, every completion without a further signal and
  with a database that connects is clean if and only if the flag is down, or no write of the round is
  left and the ingest thread, if gone, has left nothing queued (`HandOff.CleanExactly`). So a first
  signal is harmless exactly when no write of its round is left: in the wait or the Hong Kong round,
  not while fetching or writing A-shares (`HandOff.SignalIsHarmlessExactly`).
- **Paged downloads** do not compare the count of a reply with the request. A server's texts are never
  too long if and only if none of its replies exceeds its request (`Paging.NeverTooLongExactly`).
  Within 64 KB of 4 GB the offset wraps and the loop need not end (`Paging.WrappedOffsetNeverEnds`).
- **Ex-rights prices.** Amounts are published per ten shares (include/tdx/types.hpp:84-87) and
  copied as they are (src/proto/parsers_quotes.cpp:133-136), but one below 1 is not divided by ten
  (src/data/adjust.cpp:29-32). For amounts that are not negative the adjusted close is the exchange's
  price at every close, and value is conserved, if and only if no amount lies strictly between 0 and 1
  (`Adjust.MeetsExchangeExactly`, `Adjust.ValueIsConserved`). A dividend of 0.5 per ten shares at a
  close of 10 leaves a gap from 9.5 to 9.95 (`Adjust.SmallDividendLeavesGap`).
- **The two adjusters** anchor an event at 15:00 and at midnight. They agree when no row lies on an
  event's date before 15:00, as on daily bars (`AdjustPython.ImplementationsAgree`). On rows in time
  order, with a priced row just before each event that any row precedes, they agree if and only if the
  two closes give every such event the same factor (`AdjustersCompared.ImplementationsAgreeExactly`),
  which for closes that pass the zero guards means equal closes or an event that moves no cash
  (`AdjustPython.FactorsEqualExactly`). A bar in the morning of the ex-date fails
  (`AdjustersCompared.MorningBarDiffers`).
- **A completion mark** names one batch and no period: marking a code in a batch takes it out of any
  other (`Resume.MarkCompletes`), and a second period under the same batch id returns nothing
  (`Resume.FetchTwoPeriods`).
- **A lookup may give up** on a code that is in the table, but only if during the call a write was
  under way in a slot that its probe comes to, or the code is absent from a full table
  (`SnapshotRuns.GivesUpOnlyUnderAPut`). One paused writer is enough, and from every fresh table a run
  leads to it (`PausedPut.StoredCodeGivesUp`).

## Model

| member | source | states |
|---|---|---|
| SnapshotProtocol.NoTornOrStaleRead | src/shm/snapshot.cpp:30-67 | in every interleaving of one writer and any number of readers, store by store, a `Get` that returns true returns, in every word, the abstract map's quote for that code at all moments between its two stamp loads |
| SnapshotProtocol.MissMeansAbsent | src/shm/snapshot.cpp:47-69 | a `Get` that returns false at an empty slot is right at every moment that slot was observed, although earlier slots were read during concurrent inserts |
| SnapshotProtocol.NextOk | src/shm/snapshot.cpp:16-72 | every writer or reader step keeps the table invariant and what every reader knows, and changes no slot behind an even, unchanged stamp |
| SnapshotProtocol.ReachableOk | src/shm/snapshot.cpp:16-72 | the invariant holds in every reachable state and the history is the map of every earlier moment |
| SnapshotRuns.MapIsRunOfPuts | src/shm/snapshot.cpp:16-41 | at every moment of every interleaved run the abstract map is what the `Put`s completed so far make of a bounded map, one after the other |
| SnapshotRuns.GetReturnsLastPut | src/shm/snapshot.cpp:16-72 | with no more distinct codes put than slots, a concurrent `Get` returns the last completed `Put` of its code, and misses only a code never put, at every moment it vouches for |
| SnapshotRuns.GivesUpOnlyUnderAPut | src/shm/snapshot.cpp:47-72 | a `Get` exhausts its eight rounds only if during the call a write was under way in a slot that its probe comes to, all slots before it on the path holding other keys, or its key is missing from a full table |
| PausedPut.PausedPutExhausts | src/shm/snapshot.cpp:47-52 | from any state in which a write stands in the home slot of a code, eight steps of its reader make it give up, stored or not |
| PausedPut.StoredCodeGivesUp | src/shm/snapshot.cpp:30-52 | from every fresh table and for every code a run of one writer and one reader is reached in which the reader gives up although the map holds the code, with one quote, during the whole call |
| SnapshotProtocol.DroppedOnlyWhenFull | src/shm/snapshot.cpp:20-40 | a `Put` that runs out of probes found every slot taken by another key |
| SnapshotProtocol.KeysArePermanent | src/shm/snapshot.cpp:30-37 | over any stretch of a run no slot changes its key or is emptied, stamps never decrease, and an even, unchanged stamp means an unchanged slot |
| SnapshotProtocol.ReaderIsStable | src/shm/snapshot.cpp:51-61 | no step of anyone else invalidates what a reader has established |
| SnapshotProtocol.ConcludeOk | src/shm/snapshot.cpp:59-67 | the verdict on a copy between two equal even stamps is right about the key since the first stamp load |
| SnapshotTable.SnapshotTable.constructor | src/shm/snapshot.cpp:16-19 | zeroed slots are the empty map |
| SnapshotTable.SnapshotTable.Put | src/shm/snapshot.cpp:16-41 | in place, `Put` is an update of a bounded map: its own key only, a new key on a full table dropped, a code that is empty or longer than seven bytes ignored |
| SnapshotTable.SnapshotTable.WriteSlot | src/shm/snapshot.cpp:32-37 | the stores leave the slot with an advanced even stamp, the padded key and the quote, and no other slot changed |
| SnapshotTable.SnapshotTable.Store | src/shm/snapshot.cpp:30-38 | storing where the probe stopped adds or updates exactly that key |
| SnapshotTable.SnapshotTable.Get | src/shm/snapshot.cpp:44-72 | with no writer at work `Get` returns the map's value, or nothing for an absent or bad code |
| SnapshotTable.PutAll | src/shm/snapshot.cpp:16-41 | any run of `Put`s on a fresh table, bad codes and overflow included, leaves the bounded map of that run, with the last value put of every key while the distinct keys fit |
| BoundedMap.RunReturnsLastPut | src/shm/snapshot.cpp:16-72 | after any run of `Put`s with at most `count_` distinct accepted codes, the keys are those codes and every one has the last value put |
| BoundedMap.FullTableKeepsItsKeys | src/shm/snapshot.cpp:28-40 | once full the key set never changes: new keys are dropped, stored ones still update |
| SnapshotLayout.Hash | src/shm/snapshot.cpp:6-13 | the loop computes 32-bit FNV-1a of the bytes |
| SnapshotLayout.MatchesIsKeyEquality | src/shm/snapshot.cpp:24-27 | the prefix compare with terminator test on a padded buffer is equality of keys |
| SnapshotLayout.ReadersCompareAlike | scripts/fetch-today.py:290-293 | the Python reader's comparison decides like the C++ one on every buffer |
| SnapshotLayout.HashesAlike | scripts/fetch-today.py:269-271 | the writer's hash is the Python reader's on every code: FNV-1a over 32 bits from its published start, exclusive-or first |
| SnapshotLayout.ProbesAlike | scripts/fetch-today.py:272-300 | and both visit the same slots in the same order |
| SnapshotLayout.PathCovers | src/shm/snapshot.cpp:18-21 | one round of probing reaches every slot |
| SnapshotLayout.PathInjective | src/shm/snapshot.cpp:18-21 | and reaches it once |
| Probing.StoredKeyIsFound | src/shm/snapshot.cpp:49-67 | a stored key's probe stops at its own slot |
| Probing.EmptySlotProvesAbsence | src/shm/snapshot.cpp:63-63 | other keys up to an empty slot prove that the key is nowhere in the table |
| Probing.ProbeFailsOnlyWhenFull | src/shm/snapshot.cpp:20-40 | probing fails if and only if the table is full of other keys |
| Probing.StoreKeepsWellFormed | src/shm/snapshot.cpp:20-38 | storing where the probe stops keeps keys unique and every probe path gapless |
| Codec.GetPrice | src/proto/codec.cpp:13-41 | the loop, with its 64-bit wrap and its nine-byte cap, is the recursive decoder |
| Codec.DecodeEncode | src/proto/codec.cpp:13-41 | for every value below 2^62 in magnitude, at any position and before any bytes, decoding the canonical encoding gives the value and consumes exactly its bytes |
| Codec.CursorAdvances | src/proto/codec.cpp:14-33 | on arbitrary bytes and from any position, past the end included, the cursor advances by one to ten, and passes the end exactly when it started there or the value is cut short, by at most one |
| Codec.DecodedRange | src/proto/codec.cpp:21-32 | with at most eight continuation bytes the magnitude is below 2^62 |
| Codec.DecodedValue | src/proto/codec.cpp:16-39 | any one to nine bytes of the form, canonical or not, decode to six bits and a sign in the first and groups of weight 64, 64 * 128, ... after it |
| Codec.DecodedFits | src/proto/codec.cpp:22-40 | no bytes take the value out of a signed 64-bit integer, its negation included, and a value that never ends is given up after ten bytes |
| Codec.SumOfTwoFits | src/proto/parsers_quotes.cpp:63-71 | a base plus a delta fits a signed 64-bit integer |
| RecordStream.RawRoundTrip | src/proto/parsers.cpp:180-209 | any printed records are read back, at any position and before any bytes, and no end-of-buffer check cuts them short |
| DeltaRecords.DeserializeTransaction | src/proto/parsers.cpp:171-212 | the cursor loop yields the running sums of the records that fit |
| DeltaRecords.DeserializeHistoryOrders | src/proto/parsers.cpp:414-437 | the same for historical orders |
| DeltaRecords.DeserializeHistoryTransaction | src/proto/parsers.cpp:454-482 | the same for historical trades |
| DeltaRecords.DeserializeTick | src/proto/parsers.cpp:134-156 | the loop that locks in the first nonzero price and average as bases |
| DeltaRoundTrip.TransactionsRoundTrip | src/proto/parsers.cpp:171-212 | trades printed as successive price differences are parsed back, whatever follows, with 60 seconds for every minute of the day and with side 0 bought, 1 sold and any other neutral |
| DeltaRoundTrip.OrdersRoundTrip | src/proto/parsers.cpp:414-437 | historical orders round trip |
| DeltaRoundTrip.HistoryRoundTrip | src/proto/parsers.cpp:454-482 | historical trades round trip |
| CutRecords.TradesCutShort | src/proto/parsers.cpp:179-209 | trades of a message that ends anywhere are a beginning of the list, exact, with one trade for every record of which all but the unused last field has come |
| CutRecords.OrdersCutShort | src/proto/parsers.cpp:423-435 | historical orders of a message that ends anywhere are a beginning of the list, exact but perhaps for the volume of the last one |
| CutRecords.VolumeIsMadeUp | src/proto/parsers.cpp:424-433 | an order cut before its volume comes back with volume zero |
| TickRoundTrip.TicksRoundTrip | src/proto/parsers.cpp:134-156 | ticks printed as offsets from the first round trip if and only if both columns are recoverable: first value nonzero, or nothing after the first nonzero one |
| TickRoundTrip.ZeroBaseColumn | src/proto/parsers.cpp:152-153 | a column of absolute values read from base zero is right exactly while all but the last are zero |
| TickRoundTrip.ZeroFirstPriceIsMisread | src/proto/parsers.cpp:134-156 | the printed message of ticks priced 0, 5, 7 is parsed as 0, 5, 12 |
| CutRecords.TicksAreMadeUp | src/proto/parsers.cpp:142-154 | on any bytes as many ticks are returned as the header counts, and a header alone gives nothing but zeros |
| QuotesDetail.DeserializeQuotesDetail | src/proto/parsers_quotes.cpp:28-93 | the cursor loop over heads, amount words and five levels, with its three end checks |
| QuotesDetail.ReadLevels | src/proto/parsers_quotes.cpp:75-85 | each level's prices are restored from the base, in order |
| QuotesDetail.QuotesRoundTrip | src/proto/parsers_quotes.cpp:28-93 | any number of printed quotes is parsed back with every price restored from the base and five levels, whatever follows |
| CutQuotes.QuotesCutShort | src/proto/parsers_quotes.cpp:34-91 | of a message that ends anywhere after its header exactly the quotes that have come whole are returned |
| Calendar.DateWordDecodes | src/proto/codec.cpp:76-96 | the word of every valid date up to 2100 decodes to 15:00 of that day |
| Calendar.MinuteWordDecodes | src/proto/codec.cpp:57-75 | the packed word of every valid date from 2004 to 2035, not after the current year, and every minute of the day decodes to that minute of that day |
| Calendar.DateOrder | src/util/time_util.cpp:17-20 | comparing valid YYYYMMDD dates is comparing days |
| Calendar.CivilIsInverse | src/util/time_util.cpp:26-31 | the civil date of a day number has that day number |
| Calendar.MonthStartsOrdered | src/data/resampler.cpp:95-97 | later days have later or equal month starts |
| Calendar.DailyIsAtClose | src/proto/codec.cpp:76-95 | a date without time of day decodes to 15:00 or to none |
| Calendar.DateWordsOrdered | src/proto/codec.cpp:76-95 | later date words from 1990 to 2100 decode to later instants |
| Calendar.EncodingsFallBack | src/proto/codec.cpp:68-95 | a word that does not read as the expected encoding is read as the other one, at 15:00, and as no date if it does not read as that either |
| Calendar.CivilOf | src/util/time_util.cpp:17-31 | the day number of every valid date has that date |
| Calendar.GregorianYears | src/util/time_util.cpp:17-20 | years have 365 days, 366 when divisible by 4 but not by 100 or by 400; the epoch is 8:00 in China on 1970-01-01 |
| KLineParser.DeserializeKline | src/proto/parsers.cpp:41-118 | the loop with its end checks, the trading-hours filter and the guess of the count word |
| KLineRoundTrip.CountedBar | src/proto/parsers.cpp:80-109 | a printed bar with counts, before any bytes, is read as that bar if and only if its count word does not spell a later time |
| KLineRoundTrip.PlainBar | src/proto/parsers.cpp:80-109 | a printed bar without counts is read as that bar when the message ends or the word of a later bar follows |
| KLineRoundTrip.DatesIncrease | src/proto/parsers.cpp:88-96 | increasing date words of daily and longer bars decode to increasing instants, so printed dates in order satisfy the round trip's order |
| KLineRoundTrip.KLinesRoundTrip | src/proto/parsers.cpp:41-118 | for every period, of bars of strictly increasing valid times, each with or without counts, exactly those stamped in trading hours are recovered, in order, if and only if none of them has a count word that spells a time later than its own; the end checks never cut a message short. A bar out of hours may have such a word only at the end |
| KLineRoundTrip.ParsedInHours | src/proto/parsers.cpp:58-63 | of arbitrary bytes, every returned bar with a time from 1970 to 2100 lies at 15:00 for the daily period and from 9:30 to 11:30 or 13:00 to 15:00 for any other |
| KLineRoundTrip.StampsByPeriod | src/proto/parsers.cpp:47-56 | periods 0 to 3, 7 and 8 carry a compact date and a minute, which decode to that minute, and all others a date, which decodes to its 15:00 |
| CutKLines.KLinesCutShort | src/proto/parsers.cpp:52-78 | a K-line message that ends anywhere after its count gives the bars in hours whose amount has come, exact but for counts that are cut |
| KLineRoundTrip.CountsTakenForADate | src/proto/parsers.cpp:88-96 | a bar of 1990-01-02 whose counts spell 1990-01-03 is such a failing input |
| Bitmap.BuildBitmap | src/proto/bitmap.cpp:11-21 | in place, the 20 bytes become the bitmap of the in-range fields |
| Bitmap.WithBitSets | src/proto/bitmap.cpp:17-17 | or-ing a bit sets that bit and no other |
| Bitmap.OneFieldBitmap | src/proto/bitmap.cpp:16-18 | field `b` is the bit of weight 2^(b % 8) of byte b / 8 and no other |
| Bitmap.ScanYieldsSortedFields | src/proto/bitmap.cpp:11-21 | scanning the bitmap of any field list yields exactly its in-range bits, distinct and ascending |
| Bitmap.CollectActiveBits | src/proto/bitmap.cpp:93-98 | the nested byte and bit loops list the set bits in ascending order |
| Bitmap.DeserializeSymbolQuotes | src/proto/bitmap.cpp:87-126 | the row loop under the bitmap, stopping at a row that does not fit |
| Bitmap.SymbolQuotesRoundTrip | src/proto/bitmap.cpp:87-126 | rows printed under the bitmap of any field list are parsed back with every word attached to its own bit |
| CutRows.RowsCutShort | src/proto/bitmap.cpp:104-123 | of rows that end anywhere after the header exactly the whole ones are returned |
| Grouping.LabelsIncrease | src/data/resampler.cpp:56-80 | output labels strictly increase, for any input order |
| Grouping.GroupingConserves | src/data/resampler.cpp:64-79 | total volume and amount are conserved, for any input and labels |
| Grouping.SortedGroupsAreRuns | src/data/resampler.cpp:56-80 | on sorted input every group is a contiguous run, and the runs in order are the input |
| Grouping.HighestIsMaximum | src/data/resampler.cpp:69-76 | the folded high and low are attained extremes of the group |
| Grouping.GroupingTwice | src/data/resampler.cpp:56-80 | grouping by a fine label and then by a monotone coarse one is grouping once, in labels and in every folded value |
| Resampler.BarEndMonotone | src/data/resampler.cpp:25-44 | the session-aware label is monotone in time across lunch and day boundaries for every period |
| Resampler.BarEndIsCeiling | src/data/resampler.cpp:25-44 | the label lies strictly after its instant and, in session, at most a period after |
| Resampler.BarEndTable | src/data/resampler.cpp:25-44 | the label, in minutes of the day: the next whole period after 9:30 or 13:00, the first one of the session for what lies before it, the instant itself for a period that is not positive |
| Resampler.BarEndComposes | src/data/resampler.cpp:25-44 | labelling by `p` and then by a multiple `q` is labelling by `q`, for every instant |
| Resampler.WeekKeyIsMonday | src/data/resampler.cpp:15-21 | the weekly key is the midnight that starts the bar's Monday |
| Resampler.WeeklyTogether | src/data/resampler.cpp:93-94 | bars share a weekly bar exactly when their days have the same Monday |
| Resampler.MonthKeyIsFirst | src/data/resampler.cpp:95-97 | the monthly key of any minute of any valid date is midnight of the first of its month |
| Resampler.MonthlyTogether | src/data/resampler.cpp:95-97 | bars share a monthly bar exactly when they share year and month |
| Resampler.MinuteFrequencies | src/data/resampler.cpp:48-129 | for targets of 5, 15, 30 and 60 minutes, with the source period guessed as the whole minutes between the first two bars (at least one, five if the second is not later), the output bar of a source bar that starts at a given minute ends at the next such multiple after 9:30 or 13:00 |
| Resampler.GroupAndFold | src/data/resampler.cpp:63-81 | an ordered map of groups, folded key by key, is the recursive grouping |
| Resampler.CollectGroups | src/data/resampler.cpp:55-61 | the map holds exactly the non-empty groups, in input order |
| Resampler.FoldGroup | src/data/resampler.cpp:65-79 | first open, last close, maximum, minimum and sums of the group |
| Resampler.ResampleMinute | src/data/resampler.cpp:48-82 | the source period is guessed from the first two bars, then bars are grouped by label |
| Resampler.ResampleKline | src/data/resampler.cpp:84-137 | the dispatch over frequencies, weekly and monthly grouping included |
| Resampler.ResamplingConserves | src/data/resampler.cpp:48-137 | every frequency conserves volume and amount, and one-minute and daily targets, and minute targets of fewer than two bars, return their input |
| Resampler.ResampledBarsAreRuns | src/data/resampler.cpp:25-120 | on sorted input, whenever the frequency groups (a single bar under weekly or monthly included), labels strictly increase and every output bar has its contiguous run's first open, last close, attained extremes and totals |
| Resampler.ResamplingComposes | src/data/resampler.cpp:48-82 | resampling to `p` and then to `q` is resampling to `q` when the first two `p`-bars are `p` minutes apart |
| Resampler.TwoStages | src/data/resampler.cpp:48-82 | regrouping `p`-bars with `p` known as their period is always resampling to `q` |
| ResampleTwice.ComposesExactly | src/data/resampler.cpp:48-82 | for any sorted bars, any number of them and any number left by the first stage, two stages are one if the guessed period labels every `p`-bar as `p` would (for a single `p`-bar: if both periods label the first instant alike); for traded bars only then |
| ResampleTwice.OneBarComposes | src/data/resampler.cpp:50-50 | when the first stage leaves one bar, which the second keeps as it is, two stages are one if and only if both periods label the first instant alike, traded or not |
| ResampleTwice.GroupsGiveLabels | src/data/resampler.cpp:56-80 | of traded bars, equal groupings have equal labels |
| ResampleTwice.LunchBreaksComposition | src/data/resampler.cpp:50-53 | one-minute bars of 11:29, 11:30 and 13:01 resampled to 5 and then to 30 minutes differ from 30 minutes |
| Sorting.SortBySorts | src/data/adjust.cpp:43-51 | the sort is an ordered permutation |
| Adjust.ComputeFactorFromXdxr | src/data/adjust.cpp:34-91 | the loop yields the running products of the event factors, newest event first |
| Adjust.FindPreClose | src/data/adjust.cpp:57-61 | the scan finds the close before the event |
| Adjust.ApplyAdjust | src/data/adjust.cpp:93-128 | in place, every bar's prices are scaled by the first factor dated after it, volume and amount are not |
| Adjust.QfqIsProduct | src/data/adjust.cpp:34-128 | with distinct event dates the factor of a day is the product of the factors of exactly the events dated strictly after it |
| Adjust.AdjustedByProduct | src/data/adjust.cpp:107-127 | and every bar is scaled by its product |
| Adjust.AdjustedFields | src/data/adjust.cpp:107-127 | open, close, high and low of every bar are multiplied by that product and nothing else of it changes; without adjustment, events or bars nothing does |
| Adjust.OtherEventsChangeNothing | src/data/adjust.cpp:71-73 | an event whose category is neither 1 nor 2 and whose name is not the ex-rights one changes no bar |
| Adjust.FactorFromLatest | src/data/adjust.cpp:55-61 | the factor of an event comes from the latest bar before 15:00 of its date |
| Adjust.NoFalseGap | src/data/adjust.cpp:34-128 | in the adjusted output, the daily close before an ex-date is the event's reference price for that close times the very factor that scales the first bar at or after the ex-date, and the reference price is the exchange's when no amount lies strictly between 0 and 1 |
| Adjust.MeetsExchangeExactly | src/data/adjust.cpp:29-80 | for amounts that are not negative, the adjusted close is the exchange's price (10p - dividend + price of rights) / (10 + bonus + rights) for every close that passes the zero guards, if and only if no amount lies strictly between 0 and 1 |
| Adjust.SmallDividendLeavesGap | src/data/adjust.cpp:29-32 | a dividend of 0.5 per ten shares at a close of 10 is adjusted to 9.5 where the exchange's price, and the next bar, is 9.95 |
| Adjust.ValueIsConserved | src/data/adjust.cpp:29-80 | for amounts published per ten shares and not negative, ten shares less the dividend plus the price of the rights are worth what the resulting shares are worth at the adjusted close, for every close that passes the guards, if and only if no amount lies strictly between 0 and 1 |
| Adjust.CloseBeforeIsLatest | src/data/adjust.cpp:56-61 | the close found is that of the latest bar before the event |
| AdjustPython.ApplyQfq | scripts/common.py:119-170 | the second implementation as a loop over rows |
| AdjustPython.RowFields | scripts/common.py:149-170 | open, high, low and close of every row are multiplied by the product of the factors of exactly the events dated after its day, and nothing else changes |
| AdjustPython.RowFactorFromLatest | scripts/common.py:135-136 | the factor of an event comes from the latest row before midnight of its date |
| AdjustPython.AccumulateFactors | scripts/common.py:132-148 | its cumulative pass |
| AdjustPython.FactorsEqualExactly | scripts/common.py:139-148 | two closes that pass the zero guards give an event the same factor if and only if they are equal or the event moves no cash; a guarded one, whose factor is one, agrees with the other exactly when numerator and denominator are equal there |
| AdjustPython.ImplementationsAgree | scripts/common.py:119-170 | on rows in time order, daily or intraday, none of them on an event's date before 15:00, both implementations adjust every row alike |
| AdjustersCompared.ImplementationsAgreeExactly | scripts/common.py:119-170 | on rows in time order, with distinct event dates and, for each event that a row precedes, a priced row since the event before it, both give the same output if and only if the close before midnight and the close before 15:00 give every such event the same factor; events on or before the first row's day may be anything |
| AdjustersCompared.MorningBarDiffers | src/data/adjust.cpp:55-61 | a close of 10, a 9:31 bar of 5 on the ex-date and a dividend of 10 give factors 0.9 and 0.8 and different output |
| CircuitBreaker.CircuitBreaker.constructor | src/proto/retry.cpp:17-18 | a closed breaker without failures |
| CircuitBreaker.CircuitBreaker.AllowRequest | src/proto/retry.cpp:20-37 | rejects exactly when open and before the backoff has passed, else admits, an open breaker becoming half open |
| CircuitBreaker.CircuitBreaker.RecordSuccess | src/proto/retry.cpp:39-44 | closes the breaker and resets both counts |
| CircuitBreaker.CircuitBreaker.RecordFailure | src/proto/retry.cpp:46-56 | counts with a cap, reopens a half-open breaker, opens a closed one at the threshold |
| CircuitBreaker.ProbeDelay | src/proto/retry.cpp:20-56 | in every run, from an opening and without success, the `k`-th step from open to half open comes no sooner than the base timeout times the sum of `k` multipliers |
| CircuitBreaker.AdmittedExactly | src/proto/retry.cpp:20-56 | on every run from a new breaker, after a failure that completes the threshold and `k` rounds of an admitted request and a failure, the last failure at `t`, a request is admitted if and only if it comes at or after `t` plus the timeout times 1, 2, 4, 8, 16 or, from `k` = 5 on, 32 |
| CircuitBreaker.AsNewAfterSuccess | src/proto/retry.cpp:39-44 | a success closes the breaker, half open or not, and from then on it answers and counts as a new one |
| CircuitBreaker.FailureCountExact | src/proto/retry.cpp:46-48 | the failure count is the number of failures since the last success, up to ten times the threshold |
| CircuitBreaker.BackoffClosedForm | src/proto/retry.cpp:28-29 | that sum is 2^k - 1 up to six and 63 + 32(k - 6) beyond |
| CircuitBreaker.OpensAtThreshold | src/proto/retry.cpp:46-55 | a closed breaker opens exactly on the failure that completes the threshold with no success between |
| CircuitBreaker.ProbesAreAsManyAsAsked | src/proto/retry.cpp:27-36 | in every run from a new breaker, after the request that steps to half open every request is admitted until an outcome is recorded, so there is one probe if and only if nothing more is asked |
| MarketCode.ParseMarketCode | include/tdx/consts.hpp:82-90 | a non-empty code is the rest after its market's prefix; an empty one means that there is no prefix |
| MarketCode.PrefixedIsParsed | include/tdx/consts.hpp:82-90 | every code of at least six characters behind sh, sz or bj is read back with its market |
| Shards.ShardsPartition | src/batch/batch_fetch.cpp:58-58 | the strided shards partition the indices: `i` is in the shard of worker `i % n` and no other, once |
| Shards.WorkerRun | src/cli/fetch_quotes.cpp:451-470 | the requests of a worker, one by one, until the stop flag or the end, for codes that parse or not; whether the loop came to its end |
| Shards.CollectBatch | src/cli/fetch_quotes.cpp:459-469 | one window's accepted codes, in order |
| Shards.BatchesFit | src/cli/fetch_quotes.cpp:451-471 | no request of a worker is empty or for more than a batch of codes, all of its shard and accepted |
| Shards.BatchesAreFull | src/cli/fetch_quotes.cpp:451-471 | when all codes parse every request but the last is for a full batch |
| Shards.TerminatesExactly | src/cli/fetch_quotes.cpp:451-471 | the loop ends if and only if every window of the shard holds a code that is accepted |
| Shards.CoversExactly | src/cli/fetch_quotes.cpp:451-471 | of a loop that ends, every code is requested exactly once if and only if all parse |
| Shards.CursorCountsRequests | src/cli/fetch_quotes.cpp:470-470 | the cursor has moved by as many positions as codes were requested, with repetitions |
| Shards.EveryCodeOnce | src/cli/fetch_quotes.cpp:451-471 | when all codes parse, and for Hong Kong codes always, every worker's loop ends and the workers together request every index exactly once |
| Shards.BareCodeNeverEnds | src/cli/fetch_quotes.cpp:466-471 | a shard of one code without prefix never ends |
| Shards.BatchFetchKline | src/batch/batch_fetch.cpp:58-58 | the plain strided loop visits its shard, parsed or not |
| Shards.RoundRobin | scripts/fetch-today.py:112-120 | bucket `w` of the round robin is shard `w`; empty buckets are left out, except a single one |
| Shards.EveryIsShard | scripts/fetch-today.py:118-119 | a bucket's items are those at its shard's indices, in order |
| Shards.NonEmptyKeeps | scripts/fetch-today.py:120-120 | exactly the buckets that are not empty are kept, in order |
| HandOff.Conservation | src/cli/fetch_quotes.cpp:722-725 | in every interleaving chunks are ingested first in, first out and once, and every chunk offered is ingested, in hand, queued or counted as dropped |
| HandOff.StepKeeps | src/cli/fetch_quotes.cpp:751-782 | every step of either thread, and a signal at any time, keeps conservation |
| HandOff.DropsExactlyWhenFull | src/cli/fetch_quotes.cpp:722-724 | in every run at most 63 accepted chunks are waiting to be taken, and the next one written is dropped exactly when 63 are |
| HandOff.CleanExactly | src/cli/fetch_quotes.cpp:874-933 | from every reachable state, every way to the end without a further signal and with a connecting database has offered = ingested + dropped, if and only if the flag is down, or no write of the round is left and the ingest thread, if gone, has left the queue empty |
| HandOff.SignalIsHarmlessExactly | src/cli/fetch_quotes.cpp:919-933 | a first signal keeps every such way clean if and only if no A-share write of its round is left |
| HandOff.RaisedTooEarlyCanLose | src/cli/fetch_quotes.cpp:777-782 | from every reachable state with the flag raised and writes ahead, or chunks left behind, some schedule with a connecting database loses a chunk that is not counted, however many chunks the round yields |
| HandOff.CleanShutdown | src/cli/fetch_quotes.cpp:929-933 | when the database connects and the flag is first raised after the last write, offered = ingested + dropped, in order |
| HandOff.NoSignalStopsLast | src/cli/fetch_quotes.cpp:926-933 | without a signal the flag is raised after the last write |
| HandOff.LoopNeverCloses | src/cli/fetch_quotes.cpp:874-927 | with the loop option and without a signal the collection never comes to an end, round after round |
| HandOff.OneRoundWithoutLoop | src/cli/fetch_quotes.cpp:874-927 | without it nothing is fetched a second time and the collection closes after its round |
| HandOff.SignalBeforeTheWriteLoses | src/cli/fetch_quotes.cpp:777-781 | a signal before a round's write loses a chunk that is not counted |
| HandOff.JoinReturns | src/cli/fetch_quotes.cpp:757-782 | once the flag is raised and nothing is written the ingest thread ends within a bounded number of its steps, whatever the database does |
| HandOff.NothingIngestedUnconnected | src/cli/fetch_quotes.cpp:757-763 | in every run in which no connection succeeds nothing is ingested and all that was accepted stays queued, and a failed connection ends the drain |
| Paging.GetFullText | src/quotes/std_quotes.cpp:344-366 | the request loop against any server, watched for a number of requests, with its 32-bit offset wrapping: the texts collected and whether it has ended |
| Paging.ShortTextsEnd | src/quotes/std_quotes.cpp:349-364 | for a text at least 64 KB short of 4 GB the loop ends against any server within as many requests as it has bytes, with the text that the unbounded offset gives |
| Paging.PrefixServersEnd | src/quotes/std_quotes.cpp:349-364 | against a server that answers with prefixes of a file of at most 4 GB it ends for any text |
| Paging.WrappedOffsetNeverEnds | src/quotes/std_quotes.cpp:349-364 | asked for 2^32 - 1 bytes, a server whose every reply has 65,534 bytes keeps the loop going for ever |
| Paging.EarlyStopKeepsPrefix | src/quotes/std_quotes.cpp:349-364 | against a server of one file that answers with prefixes of any length and may stop, the bytes collected are a prefix of the slice, short only if the server stopped there |
| Paging.PagesReassemble | src/quotes/std_quotes.cpp:349-364 | a server that never stops yields exactly file[start .. start+length] |
| Paging.AnyPageLengthsReassemble | src/quotes/std_quotes.cpp:354-363 | the same from printed reply bodies, for any choice of page lengths |
| Paging.PageOfPrinted | src/quotes/std_quotes.cpp:356-361 | the header's count and text are read back from a printed reply |
| Paging.OnlyCountedBytesMatter | src/quotes/std_quotes.cpp:355-362 | cutting every reply down to its header and the bytes it counts, and to nothing if it is short, counts none or counts beyond its end, leaves the text the same |
| Paging.FullPagesCount | src/quotes/std_quotes.cpp:348-364 | against a server that fills every request a text takes one request for every 32000 bytes begun |
| Paging.NeverTooLongExactly | src/quotes/std_quotes.cpp:357-362 | the texts collected from a server are never longer than asked if and only if no reply of it is longer than its request |
| Paging.AtMostOnePageOver | src/quotes/std_quotes.cpp:357-362 | against an arbitrary server it is at most one page too long |
| Paging.ReplyMayExceedRequest | src/quotes/std_quotes.cpp:357-362 | asked for one byte, a server that sends two gets both kept |
| Resume.SyncState.constructor | src/data/sync_state.cpp:63-84 | a new process starts from the file |
| Resume.SyncState.MarkStockComplete | src/data/sync_state.cpp:139-148 | one entry changes, keeps its retry count and error, and the file follows |
| Resume.FailureReopens | src/data/sync_state.cpp:128-160 | a failure entry takes the code out of the completed ones of every batch, so the next run of any batch that lists it asks for it again |
| Resume.SyncState.UpdateSync | src/data/sync_state.cpp:100-107 | one entry's dates change, its batch fields do not, and the file follows |
| Resume.MarkCompletes | src/data/sync_state.cpp:128-148 | a mark adds the stock to its batch and takes it out of every other |
| Resume.SyncKeepsCompleted | src/data/sync_state.cpp:100-107 | a sync without batch changes no batch's completions |
| Resume.FetchHistory | src/data/tdx_data.cpp:13-46 | the loop for a period and a batch, dying after any number of requests and marks: what it requested and marked, the bars of that period that it returns (daily ones for an unknown name), and the completions on file of this and every other batch |
| Resume.MarkedIsNeverAskedAgain | src/data/tdx_data.cpp:31-43 | across any attempts and crashes no code is requested again after its mark is on file |
| Resume.CompleteRunMarksAll | src/data/tdx_data.cpp:29-46 | an attempt that gets to its end leaves every parseable code of its list marked, and one more asks for nothing |
| Resume.RequestsBounded | src/data/tdx_data.cpp:29-46 | the total of `Bars` calls is at most the distinct parseable codes not yet done plus the number of crashes |
| Resume.FinishedRunReturns | src/data/tdx_data.cpp:28-46 | an attempt that gets to its end returns, in list order, that period's bars of its fresh codes |
| Resume.FreshExactly | src/data/tdx_data.cpp:29-35 | under a batch id a code is fresh if and only if it is listed, parses and had no mark in the batch, and then it is once |
| Resume.UnbatchedFetchesAll | src/data/tdx_data.cpp:29-46 | without a batch id every code with a prefix is requested as often as it is listed, in order, whatever was done before |
| Resume.FetchTwoPeriods | src/data/tdx_data.cpp:13-46 | two runs of one list under one batch id: a first that finishes returns the bars of its fresh codes, and the second, for any other period, returns nothing |
| Indicators.EmaBetween | scripts/find-bottom.py:60-62 | the exponential mean stays within the range of its values |
| Indicators.EmaIsWeightedSum | scripts/find-bottom.py:60-61 | the recursive mean is the sum of all values with weights fading by `1 - 2/(span+1)` a bar |
| Indicators.EmaZeroExactly | scripts/find-bottom.py:69-70 | the mean of non-negative values is zero exactly while all have been zero |
| Indicators.DemaPrefix | scripts/find-bottom.py:58-62 | the DEMA up to a bar depends on closes up to that bar |
| Indicators.DemaOfFlat | scripts/find-bottom.py:62-62 | of a constant price the DEMA is that price |
| Indicators.DemaOfLastMove | scripts/find-bottom.py:58-62 | after a flat stretch at `P` the DEMA of a close `c` is P + (c - P)(1 - (1 - a)^2) with a = 2/(period + 1) |
| Indicators.RsiIsRatio | scripts/find-bottom.py:65-72 | with `u` and `d` the weighted sums of the rises and falls so far, the RSI times u + d is 100 u, and 100 where d is zero or there is no bar before |
| Indicators.StepIsRiseOrFall | scripts/find-bottom.py:67-69 | the rise less the fall of a step is the change of the close, and one of the two is zero |
| Indicators.RsiExtremes | scripts/find-bottom.py:65-72 | the RSI is within 0 and 100, is 100 exactly while no close has fallen, and 0 exactly when some has fallen and none has risen |
| Indicators.RsiPrefix | scripts/find-bottom.py:65-72 | the RSI up to a bar depends on closes up to that bar |
| Indicators.SignalsPrefix | scripts/find-bottom.py:75-83 | entry and exit signals of a bar are known at its close |
| Backtest.Backtest | scripts/find-bottom.py:87-118 | the loop returns the final equity less one, the holding return, the number of round trips, the rate of those that sold above cost, and the worst drawdown |
| Backtest.LedgerFollowsTrips | scripts/find-bottom.py:98-113 | at every bar cash, shares, trades and wins are what the money-free list of round trips says |
| Backtest.EquityIsProduct | scripts/find-bottom.py:103-113 | equity is the product of the round-trip ratios, times the open position's, and positive |
| Backtest.CostOnlyHurts | scripts/find-bottom.py:85-118 | trades fall on the same bars whatever the cost; a higher cost never raises equity or wins and lowers equity exactly when something has been bought |
| Backtest.NoLookAhead | scripts/find-bottom.py:93-113 | what is held after a bar depends on earlier closes and opens up to it, and equity besides on that bar's close |
| Backtest.BuysExactly | scripts/find-bottom.py:75-102 | when flat, all cash goes into shares at the next open plus cost exactly if the bar closes below twice the mean less the mean of the mean |
| Backtest.SellsExactly | scripts/find-bottom.py:80-109 | when long, all shares go at the next open less cost exactly if the RSI was at or below the level a bar before and is above it |
| Backtest.TripPays | scripts/find-bottom.py:99-109 | a round trip multiplies its stake by exit open less cost over entry open plus cost, and wins when that exceeds one |
| Backtest.BuysTheDip | scripts/find-bottom.py:75-113 | after a flat stretch the first lower close is bought at the next open, and a close that is not lower is not; the equity then is the next close over the price paid |
| Backtest.FlatMarketNeverTrades | scripts/find-bottom.py:75-113 | while the close never moves nothing is bought and equity stays at one, at any cost |
| Backtest.MaxDrawdown | scripts/find-bottom.py:114-117 | the number found is the worst fall from an earlier value, and is attained |

## Left out

- Sockets, fibers, memory mapping and file locks, SQL, text conversion, compression, command lines and printing: I/O or foreign calls. Clocks, servers, signals and databases appear as parameters or nondeterministic steps.
- Weak memory: the seqlock protocol is proved under sequential consistency, with unbounded stamps and in one generation of the segment; re-creating a segment over a live file resets the stamps.
- SnapshotTable.SnapshotTable.Put: the slot mask is modelled as a remainder, which it is for the power-of-two sizes the source asks for; codes hold no zero byte.
- SnapshotProtocol.NoTornOrStaleRead: the copying reader of scripts/scalper.py, which copies after its second stamp load, is not covered.
- Codec.GetPrice: the ninth continuation byte's shift leaves the signed range, which is undefined in C++; it is modelled as two's-complement wrap-around. Values from canonical encodings never reach it.
- DeltaRecords.DeserializeTransaction: running sums are unbounded integers; on arbitrary bytes the source's 64-bit sum could overflow.
- Scaling factors, lot correction, the 32-bit float views of volume and amount words, the clock time of five-level quotes, code and name text decoding, and the names and formats of bitmap fields: fixed tables and conversions applied after parsing. Everything is stated on raw words.
- Adjust.QfqIsProduct: hfq and events that share a date are left out; the library sort is not stable on them. Minute bars are adjusted by the same code but the gap theorem is about daily closes.
- Library sorts and ordered maps are modelled as an insertion sort and as a map visited by least key.
- Rounding: prices, factors, indicators and equity are exact reals.
- Resampler.BarEndMonotone: the civil date of a day is found by counting days, which the source's library computes at once.
- Shards.WorkerRun: the network requests made for a batch, and the stop flag inside a batch, are not modelled; the loop is bounded by the turn that finds the flag raised.
- HandOff.Conservation: the queue's write and read are single steps; its ring of slots belongs to a library. The Hong Kong round and the wait are one phase, since neither queues anything.
- Paging.GetFullText: the loop need not end, so it is watched for a number of requests that the caller names.
- AdjustersCompared.ImplementationsAgreeExactly: where no priced row lies between two events that rows precede, only the product of their factors shows in the output, and the converse is not claimed.
- Resume.FetchHistory: the state file is written and read whole; a torn write, which `Load` ignores, forgets marks.
- Backtest.Backtest: an empty history, on which the source raises an error, and prices that are not positive are excluded.
- The stroke and fractal engine, screeners, reports, fixed-size record parsers, the heartbeat counter and the table of expanded markets: thresholds and plumbing, or only declared in the source.
