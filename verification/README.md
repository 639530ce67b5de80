# Trading_Labs: verified models of its protocols, loops and simulators

A Dafny project beside the Trading_Labs repository (a FastAPI trading backend, a React front end and
their scripts). It models the repository's self-contained hard pieces and proves what they promise,
or, where the code breaks a promise, exactly when it keeps it. `dafny verify dfyconfig.toml` checks
everything.

| files | what they model |
|---|---|
| `Decimals`, `MigrationModel`, `TableCopy`, `BadRows`, `MigrationRun`, `RunVerdicts`, `RunStatuses`, `MigrationExactlyOnce`, `MigrationRounding`, `MigrationScript` | the resumable SQLite to PostgreSQL migration: decimal cast, ordered read, one table loop, whole runs and histories of runs, and the script on a mutable session |
| `Candles` | the candle copy that relies on ON CONFLICT DO NOTHING |
| `MarketData`, `NearHigh`, `TrailingStops`, `TrailingRules`, `TrailingLoops` | the single-position backtest simulators |
| `EventStream`, `EventMeanings` | the incremental event-stream reader of the screener, and what its calls and outcome are by the fields of the events |
| `Lifespan`, `LifespanModes` | startup and shutdown of the API pods around one singleton lease, and what each mode runs |
| `TokenSteps`, `TokenOutcomes`, `TokenRetry` | the broker token generator: login steps, error classes, retries under a time budget |
| `Drawdown` | drawdown by running peak and the composite score, in both of its versions |
| `Unescape` | the chain of replacements that unescapes an exported document |
| `ScanRuns`, `ScanEvents`, `ScanSnapshot`, `ScanHistory` | overlapping scans on the dashboard, the snapshot fetched on mount, and the bounded scan history |
| `Heads` | the heads of the migration graph |

`Options` holds the optional value they share.

## What the code does not keep

These were found while modelling. Each is stated with its exact condition.

- **A dry run can write, and a live run can commit rows without a checkpoint.** The `finally` block of
  `run_migration` commits without a rollback (`backend/scripts/migrate_sqlite_to_pg.py:131-134`), and
  the session factory has autoflush off (`backend/app/db/session.py:277`), so an exception from a row
  conversion (a bad number, or a date stored as a number, `BadRows.NumericDateSpoils`) leaves the rows
  staged before it in the session and that commit writes them.
  `BadRows.BadRowVerdict` says exactly when, for every source: some unread row does not convert, the
  first such row is not the first of its chunk, and the target takes the rows before it (all unread
  ones in a live run, those of its chunk in a dry run). `RunVerdicts.RunVerdict` lifts this to runs
  over all tables, `RunVerdicts.HistoryVerdict` to histories, and `TableCopy.StuckForever` shows that
  such a table can never finish again. Even so `MigrationRun.SuccessMeansComplete` holds for every
  history.
- **A refused commit leaves no manifest.** After the target refuses a commit, the unlock or the commit in
  the `finally` block raises and `write_manifest` is not reached. `RunVerdicts.RunVerdict` says from
  which source and target that happens.
- **SUCCESS does not mean that every row was copied.** A row with an id of zero or less is never read
  (`MigrationExactlyOnce.RowZeroIsSkipped`); `MigrationExactlyOnce.SuccessCopiesPositiveIds` says that
  exactly the others are there.
- **Column totals can move by more than rounding.** A NULL in a mapped column with a default becomes
  that default (`backend/app/models/paper_trading.py:31-33`), so an account without a balance gains a
  million. `MigrationRounding.MigratedColumnDrift` accounts for it; `MigrationRounding.PlainDriftExact`
  says when the plain bound holds.
- **The four workers are singletons only under conditions.** `Lifespan.SingletonCondition`: if and only
  if the database is PostgreSQL (`backend/app/db/locks.py:50-52` grants the lease to everyone
  otherwise) and the two stop calls whose exceptions are swallowed always work. The token bootstrap
  task is started with them and never stopped, so it overlaps after a graceful handover
  (`Lifespan.SingletonConditionWithBootstrap`).
- **The inner one-time-code retry can send the refused code again**, although its comment promises the
  next window (`fyers_token.py:815`): `TokenSteps.RetryCanRepeatTheCode` is a case with the default cap,
  `TokenSteps.SameCodeExactly` says exactly when.
- **A book without any drawdown loses its Calmar points**: `Drawdown.ZeroDrawdownScoresLower`, with the
  exact condition for every book in `Drawdown.ZeroDrawdownCondition`.
- **The snapshot fetched on mount can replace a newer scan on screen**, although the comment at
  `frontend/src/Dashboard.tsx:109` says a refresh never does: `ScanSnapshot.SnapshotCondition` and, while
  no further scan is started, `ScanSnapshot.QuietSnapshotCondition` say from which states it can.
- **The bold placeholder can leak**: `Unescape.ChainIsOnePass` says for exactly which texts.

## Model

| member | source | states |
|---|---|---|
| Decimals.HalfEvenIsNearest | backend/scripts/migrate_sqlite_to_pg.py:27-30 | the rounding inside the cast is the only integer within one half, or at one half and even |
| Decimals.QuantizeLaws | backend/scripts/migrate_sqlite_to_pg.py:27-30 | the decimal cast moves a value by at most half a unit in the last place, changes nothing when repeated, and keeps order |
| Decimals.ColumnDrift | backend/scripts/migrate_sqlite_to_pg.py:27-30 | casting a column of n values moves its total by at most n half units |
| Decimals.CastDecimalExactly | backend/scripts/migrate_sqlite_to_pg.py:27-30 | for every cell: NULL stays NULL, anything but a number is refused, and a number becomes its nearest multiple of 10^-p, ties to even, if and only if that needs at most 28 digits |
| MigrationModel.CastCellsPointwise | backend/scripts/migrate_sqlite_to_pg.py:216-226 | casting the decimal columns of a row succeeds exactly when every one is present and accepted, and then casts each by its own places |
| MigrationModel.ConvertsExactly | backend/scripts/migrate_sqlite_to_pg.py:216-226 | the row constructor raises exactly when a decimal column fails or another column cannot be read, and else builds the row with the same id and account |
| MigrationModel.ColumnsExactly | backend/scripts/migrate_sqlite_to_pg.py:216-429 | how many decimal columns each table has, which are in cents and which to eight places, which accept NULL and which replace it |
| MigrationModel.ConvertedCells | backend/scripts/migrate_sqlite_to_pg.py:216-429 | each decimal column of a converted row is its nearest multiple at the places of the column, a NULL the replacement of that column or NULL |
| MigrationModel.SelectAfterSorted | backend/scripts/migrate_sqlite_to_pg.py:208-208 | the read of a table loop is ascending by id and holds exactly the rows above the checkpoint |
| MigrationModel.ResumeExactly | backend/scripts/migrate_sqlite_to_pg.py:204-208 | restarting from the checkpoint after k rows reads exactly row k onwards: nothing skipped, nothing read twice |
| TableCopy.ChunkKeepsConsistent | backend/scripts/migrate_sqlite_to_pg.py:214-238 | committing the next chunk with its checkpoint keeps table and checkpoint in step, and its max_id exceeds the earlier checkpoint although it restarts from last_pk |
| TableCopy.CopyTableOutcome | backend/scripts/migrate_sqlite_to_pg.py:202-239 | however a table loop and the closing commit end, other tables are untouched and this one is consistent or stuck; last_processed_chunk grows by the chunks committed, dry loops change nothing before the closing commit, and a finished live loop holds every row |
| TableCopy.StuckForever | backend/scripts/migrate_sqlite_to_pg.py:125-134 | once a row was committed without its checkpoint, no run repairs the table and no live loop over it finishes |
| TableCopy.DiesExactly | backend/scripts/migrate_sqlite_to_pg.py:209-239 | a process that dies before its chunk k + 1 has committed exactly the chunks before it, wherever that is; one whose loop ends earlier ends as one that never dies |
| BadRows.BadRowVerdict | backend/scripts/migrate_sqlite_to_pg.py:125-134 | for every source: a surviving table loop and the closing commit leave the table inconsistent (dry: change it) if and only if some unread row does not convert, the first such row is not first in its chunk, and the target takes the rows before it; also how many rows are then written |
| BadRows.SurvivingLoop | backend/scripts/migrate_sqlite_to_pg.py:209-239 | a loop of a surviving process finishes if and only if every row converts and, when live, the target takes every row; what it leaves pending can be committed exactly when the rows spoil the table |
| BadRows.DryRunCanWrite | backend/scripts/migrate_sqlite_to_pg.py:231-236 | a dry loop over two accounts, the second malformed, writes the first |
| BadRows.NumericDateSpoils | backend/scripts/migrate_sqlite_to_pg.py:32-41 | a date stored as a number spoils the transactions table, which has no decimal column |
| RunVerdicts.RunVerdict | backend/scripts/migrate_sqlite_to_pg.py:96-137 | from consistent tables, a run the process survives leaves one inconsistent (a dry run: changes the target) if and only if the first planned table that does not finish is spoiled by its unread rows, and writes no manifest if and only if the target refuses a commit of that table; a run cut short by the death of the process does no harm |
| RunVerdicts.HistoryVerdict | backend/scripts/migrate_sqlite_to_pg.py:60-138 | a history leaves every table in step with its checkpoint if and only if none of its runs does such harm |
| RunVerdicts.DryRunWrites | backend/scripts/migrate_sqlite_to_pg.py:231-236 | a whole first dry run over those two accounts changes the target for good |
| RunStatuses.StatusExactly | backend/scripts/migrate_sqlite_to_pg.py:103-137 | from consistent tables, unless the process dies: the status is SUCCESS if and only if the rows of every wanted table convert and, live, are taken, the hashes are equal, and a full live run has no child row without its account; no manifest if and only if the target refuses a commit; FAILED in all other cases. After a live SUCCESS every wanted table is complete, single-table runs included |
| RunStatuses.SequencesExactly | backend/scripts/migrate_sqlite_to_pg.py:149-152 | only a full live run touches the sequences, all five or none, and a SUCCESS leaves each exactly one above the highest id of its table, two for an empty one |
| RunStatuses.LongRun | backend/scripts/migrate_sqlite_to_pg.py:60-138 | a process that lives for more chunks than the wanted tables have rows does exactly what one that never dies does, for every state of the target |
| MigrationRun.HistorySound | backend/scripts/migrate_sqlite_to_pg.py:60-138 | after any history of live, dry, single-table, failed and killed runs every table is consistent or stuck |
| MigrationRun.SuccessMeansComplete | backend/scripts/migrate_sqlite_to_pg.py:115-124 | after any history, a full live run recorded SUCCESS has all five tables equal to the converted source rows with a positive id, no orphans, equal hashes, and every sequence above every migrated id |
| MigrationRun.HistoryRises | backend/scripts/migrate_sqlite_to_pg.py:180-192 | no checkpoint ever falls, whatever rows fail and whatever state a table is in |
| MigrationRun.HistoryCountsChunks | backend/scripts/migrate_sqlite_to_pg.py:184-189 | in every history, whatever rows fail, last_processed_chunk is the number of committed chunks |
| MigrationRun.AccountsLoopCovers | backend/scripts/migrate_sqlite_to_pg.py:104-113 | after any history, a finished live accounts loop leaves every child row of a source without orphans with its account in the target |
| MigrationRun.HistoryHasNoOrphans | backend/scripts/migrate_sqlite_to_pg.py:104-113 | in full live runs cut anywhere, no committed state holds a child row without its account when the source has none, even on a target that does not check: the table order suffices |
| MigrationRun.EnforcedHistoryHasNoOrphans | backend/app/models/paper_trading.py:42-42 | on a target that checks the account key this holds for every source and every history |
| MigrationExactlyOnce.RunExact | backend/scripts/migrate_sqlite_to_pg.py:60-138 | when all rows convert, one run keeps every table exact, lowers no checkpoint, and changes nothing at all when dry |
| MigrationExactlyOnce.ExactlyOnce | backend/scripts/migrate_sqlite_to_pg.py:172-239 | when all rows convert, after any history every table holds exactly the rows up to its checkpoint, rows_migrated is its size and last_processed_chunk the number of committed chunks |
| MigrationExactlyOnce.ConsistentMeans | backend/scripts/migrate_sqlite_to_pg.py:172-239 | a source row is in the target, converted, if and only if its id is at or below the checkpoint; nothing else is there and no id occurs twice |
| MigrationExactlyOnce.SuccessCopiesPositiveIds | backend/scripts/migrate_sqlite_to_pg.py:172-178 | on SUCCESS a source row is in the target if and only if its id is positive |
| MigrationExactlyOnce.RowZeroIsSkipped | backend/scripts/migrate_sqlite_to_pg.py:172-178 | a run over one account with id 0 records SUCCESS without it |
| MigrationRounding.HistoryTraced | backend/scripts/migrate_sqlite_to_pg.py:172-239 | in every history, whatever rows fail, every committed row is the conversion of a source row and no id is committed twice |
| MigrationRounding.OriginsOfConsistent | backend/scripts/migrate_sqlite_to_pg.py:204-208 | for a table in step with its checkpoint the source rows its rows come from are the first ones read |
| MigrationRounding.MigratedColumnDrift | backend/scripts/migrate_sqlite_to_pg.py:323-345 | for every source, after any history, hence for any chunking, the total of a cast column over the n rows of a target table is within n half units of the total of the source rows they come from plus the defaults that replaced its NULLs |
| MigrationRounding.PlainDriftExact | backend/app/models/paper_trading.py:31-33 | up to two million rows, it is within n half units of the source total itself if and only if no NULL was replaced by a default other than zero |
| MigrationRounding.NullTakesTheDefault | backend/app/models/paper_trading.py:31-33 | a NULL balance migrates as one million, a NULL risk limit as two percent |
| MigrationExactlyOnce.CleanSourceMigrates | backend/scripts/migrate_sqlite_to_pg.py:104-124 | whatever ran before, one uninterrupted full live run over an unmodified source whose rows convert, fit their columns, have distinct keys and have their accounts records SUCCESS: the table order satisfies every foreign key |
| MigrationScript.StageChunk | backend/scripts/migrate_sqlite_to_pg.py:214-229 | the inner loop leaves pending exactly the rows before the first that does not convert, and computes the chunk's max_id |
| MigrationScript.MigrateTable | backend/scripts/migrate_sqlite_to_pg.py:202-239 | the table loop on a mutable session computes the table copy: same committed state, same pending rows, same exception |
| MigrationScript.Finally | backend/scripts/migrate_sqlite_to_pg.py:131-137 | the finally block commits what is pending if the target takes it, and lets an exception escape before the manifest when the session is inactive or that commit is refused |
| MigrationScript.Migrate | backend/scripts/migrate_sqlite_to_pg.py:103-137 | the whole script on a mutable session computes the run: same committed state, same manifest status or none |
| MigrationScript.PgSession.Commit | backend/scripts/migrate_sqlite_to_pg.py:237-238 | pending rows and checkpoint become durable together, or the transaction is rolled back and nothing changes |
| Candles.MigrateCandles | backend/scripts/migrate_candles.py:34-65 | the chunk loop with its one commit per chunk is the chunked copy of the model |
| Candles.InsertNewMerges | backend/scripts/migrate_candles.py:56-60 | inserting with conflicts ignored gives, for every key, the old row and otherwise the first source row with that key |
| Candles.HistoryIsPrefix | backend/scripts/migrate_candles.py:30-65 | any history of partial runs over any source, with any chunk sizes, leaves the table merged with the rows up to where the furthest run got |
| Candles.CopyIsIndependent | backend/scripts/migrate_candles.py:30-65 | after any history of runs with one chunk size, a run to its end gives the merge of old table and the rows before the first refused chunk, and a further run changes nothing |
| Candles.CopyIgnoresChunking | backend/scripts/migrate_candles.py:30-65 | for a source the table takes as a whole the result does not depend on the chunk sizes of the history either |
| Candles.CompletesIffTaken | backend/scripts/migrate_candles.py:44-63 | a run to the end completes if and only if every date could be read and the table takes every row |
| Candles.ReachedExactly | backend/scripts/migrate_candles.py:34-65 | a run commits whole chunks of acceptable rows and stops only at the end of the rows or of its life, or because the table refuses a row of the very next chunk: the chunks before a refused one stay |
| MarketData.PriorMax | scratch/w52_tv_rule_search.py:29-32 | no prior high before enough bars, otherwise one of the values just before t that bounds them all |
| MarketData.TrueRangeIsSpan | scratch/w52_tv_rule_search.py:206-213 | the true range is the span of the bar together with the close before it |
| MarketData.AtrSlides | scratch/w52_tv_rule_search.py:206-213 | the average true range moves by a fourteenth of the newest true range minus the one 14 bars back |
| MarketData.AtrBetween | scratch/w52_tv_rule_search.py:206-213 | and lies between any two bounds of its 14 true ranges |
| MarketData.MaxOf | scratch/w52_tv_rule_search.py:29-32 | the maximum is an element and bounds all elements |
| NearHigh.HeldIffNear | scratch/w52_tv_rule_search.py:105-130 | after a bar the loop is in a position exactly when that bar is near the high, whatever the stop |
| NearHigh.NearExactly | scratch/w52_tv_rule_search.py:113-115 | near means 252 bars before and a close within the band of every one of their highs |
| NearHigh.HeldSince | scratch/w52_tv_rule_search.py:105-130 | a position held was opened at the close of a bar since when every bar was near and none reached the stop, and which follows a bar that was not near or stopped the position before out |
| NearHigh.NearHighLoop | scratch/w52_tv_rule_search.py:105-130 | the near-high loop earns the close-to-close moves after near bars, whatever the stop, plus the slippage of stop fills when the low triggers them |
| NearHigh.OneBarBlock | scratch/w52_tv_rule_search.py:304-312 | the separate one-bar-hold block earns the close-to-close moves after near bars whose prior high is not zero, for positive highs after all near bars |
| NearHigh.SameTotal | scratch/w52_tv_rule_search.py:304-312 | with close fills and positive highs the two simulators have equal totals, whatever the stop |
| TrailingStops.TradesChained | scratch/w52_tv_rule_search.py:164-203 | trades are disjoint and in order, each entering on the bar after the previous exit |
| TrailingStops.StopNeverFalls | scratch/w52_tv_rule_search.py:176-177 | during a trade the stop never falls, for ATR trails and for percent trails of at most 100 percent |
| TrailingStops.PnlConserved | scratch/w52_tv_rule_search.py:164-183 | with close fills, profits plus exit-to-entry gaps equal last close minus first close |
| TrailingStops.LossBound | scratch/w52_tv_rule_search.py:185-203 | with low fills no trade, the final marked one included, loses more than the risk of its entry bar |
| TrailingStops.EntryRiskValue | scratch/w52_tv_rule_search.py:196-199 | that risk is s percent of the entry, or k average true ranges, and never negative |
| TrailingRules.TradesByTheRule | scratch/w52_tv_rule_search.py:164-265 | on the bars alone, for every rule: each trade is held through every bar whose close is at or above (whose low is above) s percent below the maximum so far, or the maximum of close less k average true ranges; it is closed by the first bar that is not, at the close or the stop, or stays open to the end |
| TrailingRules.TradesUnique | scratch/w52_tv_rule_search.py:164-265 | and trades that follow each other, all obey that and reach the end of the window can only be these |
| TrailingLoops.PercentTrailClose | scratch/w52_tv_rule_search.py:166-183 | the running high-water mark with close exits gives the trades of the first-breach rule |
| TrailingLoops.PercentTrailLow | scratch/w52_tv_rule_search.py:186-203 | the same with highs in the mark and fills at the stop |
| TrailingLoops.AtrTrailClose | scratch/w52_tv_rule_search.py:216-235 | the running stop level with close exits gives the trades of the first-breach rule |
| TrailingLoops.AtrTrailLow | scratch/w52_tv_rule_search.py:238-265 | the same with fills at the stop, and the skip flag changes no trade |
| TrailingLoops.AtrTrails | scratch/w52_tv_rule_search.py:216-265 | both on the bars of a date window, with the average true range of the whole series |
| EventStream.SplitSound | frontend/src/api.ts:283-284 | cutting on blank lines loses nothing and leaves no blank line inside a part |
| EventStream.SplitIncremental | frontend/src/api.ts:282-284 | cutting what has arrived, keeping the fragment and cutting again equals cutting the whole text |
| EventStream.FragmentIgnored | frontend/src/api.ts:284-286 | an unterminated last fragment yields no event |
| EventStream.Read | frontend/src/api.ts:235-351 | for every cutting into chunks the reader makes the same progress calls and ends the same way as parsing the whole text at once |
| EventStream.ThrownIsFinal | frontend/src/api.ts:341-345 | text after a throw changes neither calls nor outcome |
| EventMeanings.PayloadExactly | frontend/src/api.ts:336-351 | the reader returns a payload if and only if no event throws and the last completing result event carries it |
| EventMeanings.QuietExactly | frontend/src/api.ts:286-351 | when no event throws, the calls are one per progress event with its defaults, one per completing event and one per comment before the first progress, and without a result the reader fails with its own error |
| EventMeanings.FailureExactly | frontend/src/api.ts:327-345 | otherwise the first event that throws decides the error, after exactly the calls of the events before it |
| EventMeanings.InProgressExactly | frontend/src/api.ts:327-335 | the in-progress flag is on an error if and only if a result event has the status error and that code |
| EventMeanings.TrimExactly | frontend/src/api.ts:287-306 | trimming takes white space from both ends, all of it and nothing else |
| Lifespan.RunKeepsInvariant | backend/app/main.py:437-1076 | in every reachable state of a dependable deployment a pod with running workers holds the lease, and only pods past the lease gate run any |
| Lifespan.SingletonCondition | backend/app/main.py:1056-1077 | over any pods and interleavings at most one pod runs scheduler, engine, alert monitor or gap replay, if and only if the lock is PostgreSQL's and both swallowed stop calls work |
| Lifespan.SingletonConditionWithBootstrap | backend/app/main.py:883-895 | counting the token bootstrap too, exclusion holds if and only if it is also switched off |
| Lifespan.SafeModeBlocksWorkers | backend/app/main.py:488-518 | in a dependable deployment a safe-mode pod that got the lease keeps it until its process dies, and no other pod runs a stopped worker meanwhile |
| LifespanModes.ModesKept | backend/app/main.py:869-1031 | in every reachable state of every deployment a pod in test, safe or quarantine mode runs no worker, and a pod that serves the API alone has neither lease nor workers |
| LifespanModes.GateOutcome | backend/app/main.py:437-518 | where a launched pod stands after the lease gate and its checks, whether it has the lease and who holds the lock, for every mode and every failing step |
| LifespanModes.StartupOutcome | backend/app/main.py:869-1031 | which workers a startup leaves running for each of its six steps failing or not: none in quarantine, none after a failed scheduler, and otherwise exactly those whose own start worked |
| LifespanModes.ShutdownOutcome | backend/app/main.py:1056-1077 | which workers a shutdown leaves running and whether the lease is free, for each of its four steps failing or not |
| LifespanModes.OtherEvents | backend/app/main.py:1033-1056 | a worker that ends, a dead process and a shutdown request change exactly what they should |
| LifespanModes.FatalHandsOver | backend/app/main.py:687-701 | a pod whose initialisation fails can be followed by another with the lease and all workers |
| LifespanModes.SecondPodServes | backend/app/main.py:437-518 | while one pod holds the lease with all its workers another can serve the API alone |
| TokenSteps.LoginClassified | fyers_token.py:754-918 | every authentication error any login step can raise carries a permanent marker |
| TokenSteps.PostJsonClassified | fyers_token.py:401-480 | the same for one JSON request |
| TokenOutcomes.PostJsonExactly | fyers_token.py:401-480 | which answers of a request give their body, which a connection error (no answer, 5xx, 429, unreadable by the SDK's own exception), and that all others are authentication errors |
| TokenOutcomes.LoginSucceedsExactly | fyers_token.py:754-918 | a login returns a token if and only if every step goes well; it is the SDK's, and the time is that of the hops made and the pause |
| TokenOutcomes.LoginRetriedExactly | fyers_token.py:754-918 | it fails with a connection error, hence may be tried again, if and only if the first step that does not go well lost its connection |
| TokenOutcomes.LoginErrorClasses | fyers_token.py:754-918 | it raises a configuration error, or an exception not of the module, exactly in the stated cases |
| TokenOutcomes.LoginDrift | fyers_token.py:401-480 | a successful login leaves the clock drift of the last answer that had a Date |
| TokenSteps.LoginTime | fyers_token.py:764-918 | one attempt sleeps at most once, never past half a second before the deadline, and takes at most six hops and the SDK step besides |
| TokenSteps.RetryReachesNextStep | fyers_token.py:824-837 | the pause after a refused one-time code ends in the next 30 s step if cap and budget reach the end of the step, and else in the same one |
| TokenSteps.FullPause | fyers_token.py:824-837 | with enough cap and budget the pause ends between one and two seconds into the next step |
| TokenSteps.SameCodeExactly | fyers_token.py:786-837 | the retry computes its code for the step of the refused code exactly when that was the step of the refusal, or of the one after it if the pause reaches that far |
| TokenSteps.RetryCanRepeatTheCode | fyers_token.py:118-121 | with the default cap of ten seconds and ample budget a code computed one second into a step and refused at two is sent again |
| TokenRetry.Generate | fyers_token.py:751-966 | one to three logins, each with the clock drift the one before left; another follows exactly when a login failed with a connection error, fewer than three were made and at least five seconds remain, and starts after the drawn pause, cut to the time left; the result is that of the last login, and giving up is a connection error that begins with its message; the defensive raises are unreachable; sleep is within the budget and the call within the time bound |
| Drawdown.MaxDrawdown | scratch/run_strategy_backtests.py:98-110 | on every curve the loop finds the lowest change from the running peak |
| Drawdown.MaxDrawdownSkipping | scratch/compare_strategy_backtests.py:100-109 | so does the loop that skips points without a number, on the points that have one |
| Drawdown.PeakDropIsDrawdown | scratch/run_strategy_backtests.py:98-110 | on every curve that is never negative this is the worst return from any point above zero to a later one |
| Drawdown.DrawdownUnique | scratch/compare_strategy_backtests.py:100-109 | the worst return is unique |
| Drawdown.DrawdownRange | scratch/run_strategy_backtests.py:98-110 | it lies between -1 and 0, above -1 for a positive curve, and at most at the total return |
| Drawdown.DrawdownScales | scratch/run_strategy_backtests.py:105-110 | it does not depend on the unit of the curve |
| Drawdown.ScoreMonotoneInDrawdown | scratch/run_strategy_backtests.py:111-123 | a shallower drawdown never lowers the score as long as it is not zero |
| Drawdown.ZeroDrawdownScoresLower | scratch/run_strategy_backtests.py:111-123 | a book with no drawdown can score 80 where one percent of drawdown scores 100 |
| Drawdown.ZeroDrawdownCondition | scratch/run_strategy_backtests.py:111-123 | for every book with some drawdown, reaching zero does not lower the score if and only if the book brings its own Calmar ratio or its growth is at most 1.5 times the drawdown times the share of drawdown points it costs |
| Drawdown.ScoreRange | scratch/compare_strategy_backtests.py:116-133 | the composite score lies between 0 and 100, whatever numbers are missing |
| Drawdown.EachMetricAlone | scratch/run_strategy_backtests.py:111-123 | the share of the score each metric earns by itself and the mark where it is full |
| Drawdown.MetricsAddUp | scratch/run_strategy_backtests.py:111-123 | the score is the sum of those shares: metrics do not interact, except that growth and drawdown make a missing Calmar ratio |
| Drawdown.FullMarks | scratch/run_strategy_backtests.py:111-123 | the score is 100 if and only if every metric is at its mark |
| Unescape.MarkedIsTwoSteps | scratch/clean_re002.py:8-9 | the first two replacements are one scan that marks escaped bold and frees single asterisks |
| Unescape.PlaceholderRestored | scratch/clean_re002.py:8-10 | on an unambiguous text the placeholder has no effect |
| Unescape.ChainIsOnePass | scratch/clean_re002.py:6-19 | the whole chain equals one left-to-right pass if and only if the text holds neither the placeholder nor all of it but its last sign before an escaped bold mark |
| Unescape.NoSignNoAmbiguity | scratch/clean_re002.py:6-19 | in particular on every text without a section sign |
| Unescape.PassUndoesEscape | scratch/clean_re002.py:6-19 | the one pass gives back every text that was escaped |
| Unescape.ChainUndoesEscape | scratch/clean_re002.py:6-19 | the chain does so if and only if the escaped text is unambiguous, in particular for every text without a section sign |
| ScanRuns.LatestRunWins | frontend/src/Dashboard.tsx:299-394 | for every interleaving at most the newest scan is unaborted and writes happen in strictly increasing start order |
| ScanRuns.AbortedNeverWrites | frontend/src/Dashboard.tsx:350-366 | an aborted scan never stores a result or an error |
| ScanEvents.WritesExactly | frontend/src/Dashboard.tsx:299-394 | by the events alone: a scan stores something if and only if its first answer comes when no later scan was started and the page is still there, and a result if and only if that answer is a success |
| ScanEvents.ScreenExactly | frontend/src/Dashboard.tsx:299-394 | the screen shows exactly what the last event that put something there did |
| ScanEvents.FlagsExactly | frontend/src/Dashboard.tsx:299-394 | a scan is aborted if and only if a later one was started or the page is gone, and settled if and only if it was answered |
| ScanSnapshot.SnapshotCondition | frontend/src/Dashboard.tsx:107-177 | from any reached state, no continuation lets the snapshot replace a newer scan if and only if the mount fetch has settled, came back empty, or the page is gone |
| ScanSnapshot.QuietSnapshotCondition | frontend/src/Dashboard.tsx:107-177 | no continuation without a further start does if and only if that holds or the snapshot is at least as new as what is on screen and as the scan under way |
| ScanRuns.Dashboard.HandleRunScanner | frontend/src/Dashboard.tsx:299-305 | starting a scan aborts the one before it and installs a fresh controller |
| ScanRuns.Dashboard.OnSettled | frontend/src/Dashboard.tsx:350-388 | a settled scan writes only if its own controller is not aborted |
| ScanHistory.HistoryIsNewestTwenty | frontend/src/App.tsx:1615-1631 | after any saves from an empty history the list is the first twenty of the uncut newest-first list, with unique ids |
| ScanHistory.NewestFirstMeans | frontend/src/Dashboard.tsx:766-768 | the uncut list holds the newest item of every saved id and nothing else |
| ScanHistory.NewestComesFirst | frontend/src/App.tsx:1615-1631 | the uncut list runs from the most recently saved item to the least |
| Heads.FindHeads | scratch/find_heads.py:4-20 | the dictionary and set loops compute exactly the revisions no file names as a parent |
| Heads.GraphOfExactly | scratch/find_heads.py:4-16 | the parents of a revision are those of the last file with its id |
| Heads.HeadsAreTheLeastCover | scratch/find_heads.py:17-20 | in an acyclic graph the heads cover every revision, exist when revisions do, and lie in every covering set |

## Assumptions

- Prices, equities and clock times are reals; floating-point rounding is not modelled.
- The network, the SDK, the databases' drivers, clocks and random jitter are inputs with any values in
  their stated ranges. `fetchmany` with a size of zero or less sets no limit, as in the Python the
  repository pins.
- The target enforces its primary keys, the unique index on the idempotency key of orders and on the
  open positions, its NUMERIC(18, p) and NOT NULL columns as `backend/app/models/paper_trading.py`
  declares them, and, where a statement says so, the account foreign key.
- The mapper leaves an attribute that is None out of an INSERT and applies the column default.
- The backend answers the mount fetch with the scan it completed last.
- The advisory lock of the lease is held by at most one pod and lost only with its process or by release.
- Migration runs do not overlap and the source does not change between runs.

## Left out

- Which dates `localize_utc` can read, defaults of text columns and the raw columns of transactions: carried along as uninterpreted text with two flags, whether the row constructor raises on them and whether they fit their target columns.
- Manifest writing, hashing, the port check and advisory-lock connection details of the migration.
- Crashes on the mutable session: the death of the process between chunks is modelled on the functions of `TableCopy` and `MigrationRun`, the methods of `MigrationScript` are for a process that survives.
- The Donchian, close-above-prior and green/red one-bar blocks of the rule search: one-bar holds like the block in `NearHigh`.
- UTF-8 decoding of the byte stream, the two field patterns and JSON.parse: functions given to the reader.
- The stall clock and the connect timeout of the reader, and use of the payload after the stream closed.
- A progress callback that throws.
- One-time-code generation, Base64, credential loading and log redaction of the token generator.
- HTTP status numbers inside error messages: only the part that matters for classification is kept.
- PeakDropIsDrawdown: says nothing about curves that go below zero, where a loss has no meaning as a share of an earlier equity; the loops themselves are specified on those too.
- Compound growth (a fractional power) and rounding for display in the metrics; the grade letters.
- The WebSocket reconnect effect and the loading flag of the dashboard.
- File globbing, the text patterns and the printed order in the head finder.
