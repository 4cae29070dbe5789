# netrics: a verified model of its protocols and transformations

A Dafny 4.11 model of the parts of netrics whose correctness depends on order, retries or exact arithmetic. Each module
models one component; operations that the source performs in place are class methods proved against functions, and what
the source promises is proved about those functions for every input and every run. `dafny verify dfyconfig.toml` checks
the whole project.

PostgreSQL is an in-memory store: a transaction is one atomic step and an error leaves the state unchanged. Clocks,
random ids, byte sizes, quotas, failing calls and the order in which the database returns equally ranked rows are
parameters, so a theorem holds for all of them. Digests are structural equality. Numbers are exact.

## What is modelled

- **Paged dataset ingestion.** `DatasetTypes` (definitions, pages, values, record keys), `DatasetGuarantees` (what
  every valid record guarantees), `DatasetSchemas` (when a schema version may follow another), `DatasetMerge` (the
  merge of a refresh into the previous generation), `DatasetStore` (one delivery as a transaction), `DatasetRuns` (any
  sequence of deliveries), `DatasetAcceptance` (which versions and deliveries are accepted, and why others are not),
  `DatasetPublication` (what a final delivery publishes), `DatasetDeadlines` (how long rows and replayed refreshes
  last), `DatasetExamples` (concrete deliveries), `ConnectorStages` (staged pages and their provenance) and
  `StageEffects` (which stages are stored, and as what). `RecordKeys` and `Timestamps` hold the canonical forms of
  decimals and UTC timestamps (RFC 3339, sections 5.1 and 5.6) that keys and windows rest on.
- **The compare-widget compiler.** `CompareMeasure` is the compiler, `CompareAcceptance` says which widgets it accepts
  and which rows its filters select, `DataEngine` holds the engine forms it emits, `CompareWidget` the widget's own
  numbers, `CompareCorrectness` the proof that they agree, and `ComparePeriods` the calendar: which periods a model
  offset can follow.
- **Locks.** `SessionLockQueue` (in-process turns built from promise chains), `SessionLockCalls` (a turn, a pooled
  connection and a session lock around a function) and `GrantLocks` (several session locks on one pooled connection),
  all with any number of interleaved callers.
- **Jobs.** `Jobs` and `JobRuns` (the durable queue with its SQL claim function and unique indexes), `JobEffects`
  (what each operation does to the rows it finds), `Worker` (what one execution asks of the queue, jobs in flight,
  leases), `Scheduler` (planning ticks) and `TickEffects` (what a tick leaves behind).
- **Exact arithmetic.** `DecimalAmount` over `Digits`, `AmountMeaning` (what an amount is worth), and `CompactFormat`.
- **Reviews.** `AppReviews` (upsert, then deletion inside fully read windows) and `ReviewEffects` (what becomes of
  each row).

`Common` and `Arithmetic` hold shared vocabulary and a few facts about products.

## Where the code and its promises part

Each of these is stated with the exact condition under which the promise holds.

- A retry can be refused by a unique index. While a sync (or backfill) runs, another one may be queued for the same
  connection. Putting the running one back, after a retryable failure or a stale lease, then violates the index of one
  waiting job per connection. The recorded failure is refused (`JobRuns.FailureRefusedIff`), and a stale lease in that
  position refuses every claim of every worker (`JobRuns.ClaimRefusedIff`, `JobRuns.RefusedClaimsStayRefused`) until its
  holder ends the job or its connection is deleted (`JobRuns.JamEndsIff`); the state is reachable
  (`JobRuns.ClaimsCanJam`).
- Replayed or staged data outlive their source when they join a refresh that was opened with a later deadline: the first
  page fixes the deadline of the refresh (`DatasetRuns.ProvenanceDeadlineIff`, `DatasetDeadlines.ReplayedRefresh`,
  `DatasetExamples.StagedPageCanOutliveItsSource`, `DatasetExamples.ReplayCanOutliveItsSource`). Under append, a record
  that meets an equal row leaves that row its own, possibly later deadline; that is the one case
  (`ConnectorStages.StagedRowOutlivesIff`, `DatasetExamples.AppendedRowCanOutliveItsSource`).
- A timestamp may be written without seconds. It then has another key than the same instant with seconds, and sorts
  before it (`Timestamps.TimeKeyOrder`, `Timestamps.OneInstantTwoKeys`).
- Starting a worker again while a claim loop of an earlier start is alive makes two, and more than `concurrency` jobs can
  run; a start that finds none is safe (`Worker.StartIsSafeIff`, `Worker.RestartDuringStopExceeds`).
- A lease survives one missed renewal exactly when jobs go stale after half a second or more
  (`Worker.LeaseSurvivesOneMissIff`).
- A sync that outlasts the next plan brings its connection's slot forward, so two plans can be closer than the poll
  interval: it is kept exactly when the last change of the slot before the next plan, if any, was the end of a sync that
  started at or after the plan, or a request for a sync that much later (`Scheduler.DueAnIntervalLaterIff`,
  `Scheduler.LongSyncShortensTheInterval`).
- Schema compatibility is not transitive through snapshot versions (`DatasetSchemas.SnapshotChainsForget`); along chains
  that end in any other mode it is (`DatasetSchemas.CompatibleAlongChainsIff`).
- Capping review text twice is capping it once exactly when the cap leaves room for a character or there is no text
  (`AppReviews.CapTextIdempotent`).

## Model

| member | source | states |
|---|---|---|
| `DatasetTypes.KeysAgree` | packages/connector-sdk/src/datasets.ts:330-354 | Two records have the same key exactly when each key field denotes the same thing: the same rational, the same instant written alike, or the same value. |
| `DatasetTypes.RecordsHaveKeys` | packages/connector-sdk/src/datasets.ts:277-325 | Every record of a valid page, a tombstone too, carries all key fields with valid values. |
| `DatasetTypes.ShortestRetention` | packages/connector-sdk/src/datasets.ts:195-203 | The effective retention is the shortest of the dataset's and its fields' day counts, attained by one of them, and absent only when none is finite. |
| `DatasetGuarantees.MoneyHasCurrency` | packages/connector-sdk/src/datasets.ts:99-115 | In every record of a valid page an amount of money is exact, or missing where it may be, and names a currency of three capital letters. |
| `DatasetGuarantees.KeyValuesAreScalar` | packages/connector-sdk/src/datasets.ts:277-300 | No key field of a record, a tombstone included, is missing, null or structured, and each is named once in the key. |
| `DatasetGuarantees.RowsHaveTime` | packages/connector-sdk/src/datasets.ts:311-324 | Where rows are reported by time, and in every window refresh, each row has a date or a UTC timestamp. |
| `DatasetGuarantees.TombstoneIsAKey` | packages/connector-sdk/src/datasets.ts:284-302 | A tombstone is a key and nothing else, and only an upsert has one. |
| `DatasetGuarantees.DecimalsAreBounded` | packages/connector-sdk/src/datasets.ts:217-223 | A decimal has at most 38 digits, no more of them after its point than its scale, and never more than 18. |
| `DatasetGuarantees.RetentionIsSound` | packages/connector-sdk/src/datasets.ts:121-126 | Finite retentions are at least a day, and a personal field's is never only its dataset's default. |
| `RecordKeys.CanonicalDecimalAgrees` | packages/connector-sdk/src/datasets.ts:337-345 | Canonical decimals are equal exactly when the rationals are, "-0.0" and "0" included. |
| `Timestamps.TimeKeyOrder` | packages/connector-sdk/src/datasets.ts:369-375 | The string order of time keys is chronological, seconds-less texts first among equal instants; keys are equal exactly for equal instants with both or neither written with seconds. |
| `Timestamps.OneInstantTwoKeys` | packages/connector-sdk/src/datasets.ts:224-231 | One instant has two keys when only one of its texts has seconds. |
| `Timestamps.StampReadsBack` | packages/connector-sdk/src/datasets.ts:224-231 | The accepted timestamps are exactly the texts of valid stamps, and a text reads back as its stamp. |
| `DatasetSchemas.ChainIsCompatible` | packages/database/src/datasets.ts:69-111 | Compatibility is transitive along every registered chain that ends in a non-snapshot version, published or not. |
| `DatasetSchemas.SnapshotChainsForget` | packages/database/src/datasets.ts:73-85 | Through a snapshot version it is not: a field can be dropped and return with another classification. |
| `DatasetSchemas.CompatibleAlongChainsIff` | packages/database/src/datasets.ts:69-111 | The ends of every chain that ends in a mode are compatible exactly when the mode is not a snapshot. |
| `DatasetSchemas.CarriedRowFits` | packages/database/src/datasets.ts:480-484 | A row of an earlier version, null-filled, has exactly the later version's fields with valid values and keeps its key. |
| `DatasetSchemas.CarriesIff` | packages/database/src/datasets.ts:85-111 | Of two versions whose keys, mode, reporting and field meanings are the same, one may follow the other exactly when every row of the earlier one, null-filled, fits the later one. |
| `DatasetSchemas.CompatibleIff` | packages/database/src/datasets.ts:69-111 | A version may follow another exactly when the retention and every shared field's policy are the same and, but for a snapshot, keys, mode, reporting and field meanings are too and rows carry over. |
| `DatasetMerge.MergeStaged` | packages/database/src/datasets.ts:463-559 | The loops over staged pages and records compute the specified merge, or the first conflict. |
| `DatasetMerge.MergeMeetsSpec` | packages/database/src/datasets.ts:532-559 | The merge is accepted exactly when the set of records has one record per key and appended records repeat the rows they meet; then it is the overlay of the unexpired base rows with those records. |
| `DatasetMerge.SplitDoesNotMatter` | packages/database/src/datasets.ts:532-559 | Two ways to split, order or repeat the same records are both accepted or both refused, and publish the same rows. |
| `DatasetMerge.DeadlinesNeverLengthen` | packages/database/src/datasets.ts:485-557 | Every merged row has its refresh's deadline or is carried with a deadline no later than before and no later than the retention allows; appended rows that exist are carried. |
| `DatasetMerge.WindowIsReplaced` | packages/database/src/datasets.ts:490-511 | After a window refresh the rows inside the window and partition are exactly the refresh's rows. |
| `DatasetMerge.OutsideWindowSurvives` | packages/database/src/datasets.ts:480-511 | A previous row outside the window whose key is not sent again survives exactly when it is unexpired, changed only by null-filled fields. |
| `DatasetMerge.MergedFits` | packages/database/src/datasets.ts:480-557 | Merging rows of an earlier carried version with valid records gives rows that fit the new version under their own keys. |
| `DatasetMerge.UnsentRowStaysIff` | packages/database/src/datasets.ts:463-511 | Without a window, a previous row that no record sends is merged exactly when the mode is not a snapshot and neither its own deadline nor the retention has ended it; then it is that row, null-filled, lasting no longer than before. |
| `DatasetMerge.SentRowIs` | packages/database/src/datasets.ts:532-559 | A record that is sent and not a tombstone is a row with its values and the refresh's times, or under append with those of the kept row it repeats. |
| `DatasetMerge.AcceptedIff` | packages/database/src/datasets.ts:532-552 | A merge is refused exactly when two records of one key differ or, under append, a record differs from the kept row it meets. |
| `DatasetMerge.RetentionCountsDays` | packages/database/src/datasets.ts:45-53 | Data are kept while fewer whole days than the retention have passed since they were collected. |
| `DatasetStore.Publish` | packages/database/src/datasets.ts:441-561 | Refuses a refresh older than the newest generation or over the row limits; otherwise the merged rows. |
| `DatasetStore.LatestDeadline` | packages/database/src/datasets.ts:562-571 | A generation's deadline is the latest of its own and its rows', and none when one of them has none. |
| `DatasetStore.Dataset.RegisterVersion` | packages/database/src/datasets.ts:114-208 | Registers a newer compatible version, finds an equal one, or names the conflict. |
| `DatasetStore.Dataset.AdmitPage` | packages/database/src/datasets.ts:263-367 | Admission: quota, schema, page, retained deadline, version, refresh deadline and header, in that order. |
| `DatasetStore.Dataset.StagePage` | packages/database/src/datasets.ts:398-617 | A new page joins its refresh in order and within limits; a final page publishes the next generation. |
| `DatasetStore.Dataset.IngestPage` | packages/database/src/datasets.ts:254-617 | The statements of one delivery give the specified answer and, without an error, the specified store. |
| `DatasetStore.Dataset.IngestDatasetPage` | packages/database/src/datasets.ts:683-708 | One delivery as a transaction: the specified answer and store, and no change after an error. |
| `DatasetStore.Dataset.ReplayDatasetRefresh` | packages/database/src/datasets.ts:842-922 | Accepted exactly when the keys differ, the source is complete and unexpired, and each page is accepted in turn; the answer and the store are those of the last delivery, and anything else changes nothing. |
| `DatasetRuns.RunsKeepInv` | packages/database/src/datasets.ts:254-617 | In every reachable store records fit their version under their own keys and expire no later than their generation, generations are consecutive and in order, and every refresh is a linked chain of valid pages with a generation exactly when complete. |
| `DatasetRuns.RegisterKeeps` | packages/database/src/datasets.ts:170-206 | Registration only adds a newer version; registering a known one changes nothing. |
| `DatasetAcceptance.RegistersIff` | packages/database/src/datasets.ts:114-208 | A version is accepted exactly when the connection exists, a source may be added, and it is known or newer than every known version and may follow the last; then it is known and nothing else changes. |
| `DatasetAcceptance.RegistrationRefusalIsTrue` | packages/database/src/datasets.ts:114-208 | The reason given for refusing a version is true of the store and the version. |
| `DatasetAcceptance.DeliveryAcceptedIff` | packages/database/src/datasets.ts:254-617 | A delivery is accepted exactly when its page is valid and lasts, its version may be registered, its refresh is open to it, and the page is held already or is the next one within the limits, which, when final, may be published. |
| `DatasetAcceptance.DeliveryRefusalIsTrue` | packages/database/src/datasets.ts:254-617 | Each of the reasons for which a delivery is refused is true of the store and the delivery. |
| `DatasetAcceptance.ReplayedAnswerIs` | packages/database/src/datasets.ts:369-397 | A delivery is answered as replayed exactly when its refresh holds the page; it changes nothing and names the refresh's generation, which exists once a page was final. |
| `DatasetRuns.EffectiveShape` | packages/database/src/datasets.ts:398-617 | A delivery that adds a page adds exactly it to its refresh, and a generation exactly when the page is final. |
| `DatasetRuns.IneffectiveChangesNothing` | packages/database/src/datasets.ts:369-405 | A delivery that is refused or replayed leaves the whole store as it was. |
| `DatasetRuns.OnlyKeptStepsMatter` | packages/database/src/datasets.ts:343-440 | Dropping all duplicates, retries and out-of-order attempts from any run leaves a run to the same store. |
| `DatasetAcceptance.ReplayAcceptedIff` | packages/database/src/datasets.ts:842-922 | A replay of a complete refresh that still lasts is accepted exactly when the copies of its pages are accepted in turn, and leaves what they leave. |
| `DatasetAcceptance.ReplayRefusedAtOnce` | packages/database/src/datasets.ts:842-880 | A replay under its own key, or of a refresh that is not there, not complete or no longer lasts, is refused, and a refused one changes nothing. |
| `DatasetRuns.PagesAreKeptOnce` | packages/database/src/datasets.ts:369-427 | A refresh holds exactly the pages its accepted deliveries brought, each once, in that order. |
| `DatasetRuns.DeliveredPagesAreAPrefix` | packages/database/src/datasets.ts:398-427 | For a well-linked page list delivered in any order and number, between any other deliveries, the refresh always holds a prefix of the list. |
| `DatasetRuns.PublishedExactlyOnce` | packages/database/src/datasets.ts:398-617 | Its generation exists once, and exactly when the whole list has arrived. |
| `DatasetRuns.AcceptedPagesReplay` | packages/database/src/datasets.ts:369-397 | An accepted page delivered again before its deadline changes nothing and is answered with the refresh's generation. |
| `DatasetRuns.PublishedWindowIsTheRefresh` | packages/database/src/datasets.ts:490-511 | In a published window generation every record the refresh's pages sent is a row with the refresh's times, and no other row lies inside the window. |
| `DatasetRuns.PublishedOutsideWindowSurvives` | packages/database/src/datasets.ts:480-511 | A row of the generation before that lies outside the window and is not sent again is in the published one exactly when it is unexpired, changed only by null-filled fields and a shortened deadline. |
| `DatasetRuns.PublishedDeadlines` | packages/database/src/datasets.ts:485-571 | No published row outlives its refresh or the row it was carried from. |
| `DatasetPublication.PublishedUnsentRowStaysIff` | packages/database/src/datasets.ts:463-511 | A row of the generation before that the refresh did not send is published exactly while neither its deadline nor the retention has ended it, in every mode but a snapshot, which keeps none. |
| `DatasetPublication.PublishedRecordIs` | packages/database/src/datasets.ts:532-559 | A tombstone's key is gone; any other record is published as it was sent with its refresh's times, or under append with those of the kept row it repeats. |
| `DatasetPublication.PublishedRowsComeFrom` | packages/database/src/datasets.ts:463-559 | Every published row was sent or was published before, and in a snapshot was sent. |
| `DatasetPublication.PublishedGenerationIs` | packages/database/src/datasets.ts:562-617 | Only a final page publishes, one generation, numbered next, of its version and refresh, begun when the refresh was opened and ending with the last of its rows or the delivery. |
| `DatasetPublication.OpenedBy` | packages/database/src/datasets.ts:330-361 | A refresh has the version, window, start and times of the delivery that opened it; later pages only join it, and other refreshes stay as they are. |
| `DatasetPublication.RetentionIs` | packages/database/src/datasets.ts:302-313 | The days rows are kept are the shortest of the declared ones, or the connection's choice, and the policy's. |
| `DatasetPublication.ExpiryIs` | packages/database/src/datasets.ts:315-321 | A delivery's rows end with the retention, or with the data they were made from where that is earlier. |
| `DatasetRuns.ProvenanceDeadlineIff` | packages/database/src/datasets.ts:315-361 | After a delivery with provenance its refresh ends by the source's deadline exactly when the delivery opened the refresh or the refresh already ended by then. |
| `DatasetDeadlines.RunsKeepDeadlines` | packages/database/src/datasets.ts:485-557 | In every reachable store each row of each generation ends with the refresh that sent it, or is carried from the generation before and ends no later than there; only an append carries a row that was sent again. |
| `DatasetDeadlines.RefreshTimesAreFixed` | packages/database/src/datasets.ts:330-361 | The deadline and collection time of a refresh never change once its first page has opened it. |
| `DatasetDeadlines.RowsEndWithRefresh` | packages/database/src/datasets.ts:546-557 | When a refresh ends by some time, so does each row it published, unless the row was carried from the generation before. |
| `DatasetDeadlines.SentRowEndsIff` | packages/database/src/datasets.ts:480-557 | Whether the row of a sent record ends by a given time is decided before the final delivery: by the row it meets, under append, and otherwise by its refresh. |
| `DatasetDeadlines.PublishedUnsentRow` | packages/database/src/datasets.ts:480-557 | Every row that the refresh did not send is the unexpired row of the generation before, as carried. |
| `DatasetDeadlines.ReplayedRefresh` | packages/database/src/datasets.ts:842-922 | An accepted replay leaves exactly the source's pages under the new key and the source as it was; the copy ends no later than its source exactly when the replay opened it or it ended by then before. |
| `DatasetDeadlines.CompleteListIsAll` | packages/database/src/datasets.ts:398-427 | Linked pages that contain a complete linked list are that list. |
| `DatasetExamples.StagedPageCanOutliveItsSource` | packages/database/src/datasets.ts:355-357 | A concrete second page from a stage ending in a second joins a refresh kept for thirty days. |
| `DatasetExamples.ReplayCanOutliveItsSource` | packages/database/src/datasets.ts:842-922 | A concrete accepted replay of a refresh ending in a second joins one opened for thirty days, and the copy outlives its source. |
| `DatasetExamples.AppendedRowCanOutliveItsSource` | packages/database/src/datasets.ts:546-552 | A concrete row kept for thirty days is sent again by a refresh ending in a second, and keeps its thirty days under append. |
| `DatasetRuns.PreviewHidesNothingLive` | packages/database/src/datasets.ts:638-668 | When a preview refuses an expired generation, none of its rows is live. |
| `DatasetRuns.GenerationsOnlyGrow` | packages/database/src/datasets.ts:574-596 | Published generations are never changed or dropped by later deliveries. |
| `DatasetRuns.GenerationsNeverGoBack` | packages/database/src/datasets.ts:441-457 | Sequence numbers are consecutive, and neither the source start nor the schema version ever decreases. |
| `ConnectorStages.StageStore.StoreConnectorStage` | packages/database/src/connector-staging.ts:188-330 | Stores a stage with its fixed deadlines, finds a live equal one, or changes nothing. |
| `ConnectorStages.StageStore.ProvenanceOf` | packages/database/src/connector-staging.ts:333-367 | Provenance is given exactly for a page whose rows a live stage holds under its page key, and carries that stage's collection time and source deadline. |
| `StageEffects.StoreAcceptedIff` | packages/database/src/connector-staging.ts:188-330 | A stage is accepted exactly when it is valid and the live one of its key holds the same, or there is none and the budget has room for one that still lasts. |
| `StageEffects.StoredStageIs` | packages/database/src/connector-staging.ts:252-305 | A new stage replaces a dead one of its key, holds each page under its key and nothing else, and ends with the day, the requested retention or the policy, whichever is first; every other stage stays. |
| `StageEffects.ProvesIff` | packages/database/src/connector-staging.ts:333-367 | A stage vouches for a page exactly while it lasts, when the page is of its dataset and version and is, but for its place in the refresh, the staged page it refers to. |
| `StageEffects.StoreRefusalIsTrue` | packages/database/src/connector-staging.ts:188-330 | A refused stage changes nothing, and the reason given is true. |
| `ConnectorStages.StageRunsAreOk` | packages/database/src/connector-staging.ts:274-278 | Every stage lives at most a day, never past its source, and ids are unique. |
| `ConnectorStages.StagesAreImmutable` | packages/database/src/connector-staging.ts:252-305 | While a stage exists, its contents and both deadlines are those it was stored with. |
| `ConnectorStages.RestoringIsIdempotent` | packages/database/src/connector-staging.ts:252-261 | Storing the same content again while the stage is live changes nothing and returns the same stage. |
| `ConnectorStages.StagedRowsDoNotOutlive` | packages/database/src/connector-staging.ts:363-366 | Every row published by a refresh that a stage's page opened ends no later than the stage's source, unless it is carried from the generation before; one whose record was sent is carried only under append. |
| `ConnectorStages.StagedRowOutlivesIff` | packages/database/src/connector-staging.ts:363-366 | The published row of a record that such a refresh sent outlives the stage's source exactly when the dataset is an append and the record meets an unexpired row of the generation before whose deadline, as kept, is later. |
| `ConnectorStages.StagedRefreshEndsBySource` | packages/database/src/connector-staging.ts:363-366 | A refresh that a page with a stage's provenance opens has the stage's collection time and ends no later than its source. |
| `CompareMeasure.CompileCompareMeasure` | packages/domain/src/compare-measure.ts:165-395 | The loops emit the specified preparation and model, or the first refusal that applies. |
| `CompareMeasure.EmitNodes` | packages/domain/src/compare-measure.ts:213-264 | The loop over both sides emits source, scope and tag of each side, then the append with its column mappings. |
| `CompareMeasure.EmitMeasures` | packages/domain/src/compare-measure.ts:290-377 | The loop over both sides emits their aggregates, then ratio, previous ratio and change. |
| `CompareAcceptance.AcceptedIff` | packages/domain/src/compare-measure.ts:165-211 | A widget is compiled exactly when its sides are daily sums or means over a period with an exact offset, every dimension has a field and every amount per currency a currency, and the units fit: money only over the same money, percentages only without. |
| `CompareAcceptance.RefusalIsTrue` | packages/domain/src/compare-measure.ts:165-211 | Each refusal's reason is true of the widget. |
| `CompareAcceptance.FiltersSelect` | packages/domain/src/compare-measure.ts:182-199 | The filters of an accepted side select a row exactly when it has all the side's dimensions and, for an amount per currency without a currency dimension, the pinned currency. |
| `CompareAcceptance.KeepsUnitIff` | packages/domain/src/compare.ts:154-164 | The ratio keeps the numerator's unit exactly when it is money of a known currency over a value that is none. |
| `CompareCorrectness.CompiledMeasureIsTheWidget` | packages/domain/src/compare-measure.ts:165-395 | For every accepted widget and all fitting datasets, also one dataset on both sides, the evaluated model has the widget's numerator, denominator, ratio, previous ratio and change. |
| `CompareCorrectness.CompiledResolves` | packages/domain/src/compare-measure.ts:213-393 | For every accepted widget, whatever data there is, every node input and measure reference resolves to an earlier, uniquely named one. |
| `CompareCorrectness.PreparationRuns` | packages/domain/src/compare-measure.ts:213-264 | The compiled preparation is accepted by the engine, and its output is the tagged, mapped rows each side's filters select. |
| `CompareCorrectness.OutputKeepsCurrency` | packages/domain/src/compare-measure.ts:245-262 | Where a side's amounts have a currency, each of its output rows keeps it in the side's own field. |
| `CompareCorrectness.ScopeIsTheFilter` | packages/domain/src/compare-measure.ts:223-236 | The sorted conjunction keeps exactly the rows that have every filtered value; nulls are dropped. |
| `CompareCorrectness.RoleTotal` | packages/domain/src/compare-measure.ts:294-307 | The sum filtered by a side's tag over the appended output is the side's sum over its own dataset. |
| `CompareCorrectness.RoleDays` | packages/domain/src/compare-measure.ts:312-324 | The distinct dates filtered by a side's tag are as many as the days on which the side has a value. |
| `CompareCorrectness.MeanOfDays` | packages/domain/src/compare-measure.ts:325-330 | Total divided by distinct dates is the mean of the day totals, null without one. |
| `ComparePeriods.OffsetExistsIff` | packages/domain/src/compare-measure.ts:74-102 | An offset defined over a whole range (a range, up to twelve months, a year) reaches the widget's previous window on every day of the calendar for exactly the accepted periods; for those the range offset does, and for no other. |
| `ComparePeriods.RefusedMisses` | packages/domain/src/compare-measure.ts:78-87 | For every refused period and every such offset there is a concrete day on which it misses the previous window. |
| `ComparePeriods.PreviousComesBefore` | packages/domain/src/metrics.ts:357-461 | On every day every period's previous window is not empty and lies before the period's own dates. |
| `ComparePeriods.PeriodLengths` | packages/domain/src/metrics.ts:411-424 | Today and the last 7, 30 and 90 days end today, and the previous window is as long and ends the day before. |
| `ComparePeriods.QuarterIs` | packages/domain/src/metrics.ts:357-461 | A quarter runs from its first month's first day to today, and its previous window goes as far into the quarter before, but not beyond it. |
| `ComparePeriods.YearIs` | packages/domain/src/metrics.ts:357-461 | A year runs from January to today, and its previous window to the same day a year before, or the end of a shorter month. |
| `ComparePeriods.TwelveMonthsAre` | packages/domain/src/metrics.ts:357-461 | Twelve months run from the first of the twelfth month, this one included, to today; the previous window is the twelve before as far into the last. |
| `ComparePeriods.OffsetIs` | packages/domain/src/data-model-windows.ts:218-252 | A range offset goes back by the range's own length; a month offset to the same days so many months before, the end of a range at a month's end to a month's end. |
| `ComparePeriods.DatesAreCivil` | packages/domain/src/metrics.ts:305-323 | Months numbered from the calendar's first and days in them are exactly the civil dates, in their order of days. |
| `ComparePeriods.CompiledMeasureOnEveryDay` | packages/domain/src/compare-measure.ts:165-395 | On every day, for every accepted widget and fitting datasets, the compiled model over the period's dates gives the widget's ratio, the ratio over the widget's own previous window, and their change. |
| `CompareWidget.SpanTotalIsDayTotals` | packages/domain/src/metrics.ts:103-115 | Adding all values of a span is adding its day totals. |
| `CompareWidget.AggregateIsNumber` | packages/domain/src/metrics.ts:103-115 | A side's number is the sum of the values of the rows that count, or that sum divided by the number of days that have one, and none without a row. |
| `SessionLockQueue.SessionLocks.Take` | packages/database/src/reserved.ts:139-155 | A caller joins the name's chain behind its tail and is counted. |
| `SessionLockQueue.SessionLocks.Resume` | packages/database/src/reserved.ts:157-176 | A waiter gets its turn when its predecessor is settled, or gives up at its deadline. |
| `SessionLockQueue.SessionLocks.Finish` | packages/database/src/reserved.ts:151-156 | The first call passes the turn on and deletes an entry nobody needs; later calls change nothing. |
| `SessionLockQueue.RunsKeepInv` | packages/database/src/reserved.ts:126-178 | In every interleaving chains, counts, the name map and the order of tickets stay consistent. |
| `SessionLockQueue.ChainSettled` | packages/database/src/reserved.ts:147-150 | The awaited promise is settled exactly when every earlier ticket of the entry has passed. |
| `SessionLockQueue.ArrivalOrder` | packages/database/src/reserved.ts:133-177 | When a ticket holds or has passed, every earlier ticket of its name has passed, also across deleted and re-created entries. |
| `SessionLockQueue.MutualExclusion` | packages/database/src/reserved.ts:133-177 | At most one ticket of a name holds the turn. |
| `SessionLockQueue.EntryExistsWhileNeeded` | packages/database/src/reserved.ts:115-124 | A name has an entry exactly while one of its tickets has not passed. |
| `SessionLockQueue.SomebodyMoves` | packages/database/src/reserved.ts:157-177 | While an entry exists its turn is held, or can be granted or passed on at once. |
| `SessionLockQueue.DoneTwiceIsDoneOnce` | packages/database/src/reserved.ts:150-156 | A second call of done leaves the queue as it is. |
| `SessionLockQueue.IdentityCheckIsRedundant` | packages/database/src/reserved.ts:154-155 | An entry with an unpassed ticket is always the one its name maps to. |
| `SessionLockCalls.WorldRunsKeepInv` | packages/database/src/reserved.ts:185-266 | With any number of calls, failures, late reservations and other processes, a call has its turn exactly from its grant to its end, connections are conserved, and locks and open transactions end with the cleanup. |
| `SessionLockCalls.FunctionsRunAlone` | packages/database/src/reserved.ts:212-250 | While a function runs its session holds the lock, no other process does, and no other call of the process with that name has a turn or a connection. |
| `SessionLockCalls.OneConnectionPerName` | packages/database/src/reserved.ts:119-124 | Two calls of one name that hold a connection are the same call. |
| `SessionLockCalls.NobodyIsStuck` | packages/database/src/reserved.ts:157-266 | With a pool of at least one, unfinished work always has an enabled step that is neither a failure nor a new call. |
| `SessionLockCalls.LateReservationsAddUp` | packages/database/src/reserved.ts:183-211 | In every run the reservations pending are those given up and not yet answered, each at most once. |
| `SessionLockCalls.OnlyBoundedGivesUp` | packages/database/src/reserved.ts:157-211 | Only a call that began with a deadline ever gives up its turn or its reservation. |
| `SessionLockCalls.FinishedIsClean` | packages/database/src/reserved.ts:81-102 | When all work is finished no lock is held, no transaction is open, and every connection is back, late ones included. |
| `SessionLockCalls.Session.WithSessionAdvisoryLock` | packages/database/src/reserved.ts:229-266 | Each statement of the call is a step of the interleaved calls; the function runs exactly when every statement before it succeeds, and finds its turn, its connection and its lock, without timeout or transaction. |
| `SessionLockCalls.Session.ReserveBefore` | packages/database/src/reserved.ts:183-211 | A reservation in time is used; a rejected one ends the call; one given up at the deadline is left pending among the late ones, which go straight back when they arrive. |
| `SessionLockCalls.Session.ReleaseReserved` | packages/database/src/reserved.ts:78-102 | Whichever cleanup statement finds the connection gone, the session ends without lock, timeout and transaction, and the connection is back. |
| `GrantLocks.LockOrder` | packages/database/src/oauth.ts:348-363 | The accounts in strictly ascending order, for each lock name the last key that has it. |
| `GrantLocks.LockOrderKeepsAccounts` | packages/database/src/oauth.ts:348-363 | Without U+001F in providers exactly the given accounts are locked. |
| `GrantLocks.LockNameIsInjective` | packages/database/src/oauth.ts:350-352 | Without U+001F in providers the lock name determines the account. |
| `GrantLocks.Session.WithGrantLocks` | packages/database/src/oauth.ts:386-415 | The statements of one call are a run of the interleaved calls that ends with it done; whichever acquisition or release fails, the connection returns holding nothing, and the function ran exactly when all acquisitions succeeded, holding each account once. |
| `GrantLocks.Session.ReleaseHeld` | packages/database/src/oauth.ts:400-414 | Releasing in reverse, with everything unlocked after a failed release, leaves no hold. |
| `GrantLocks.RunsKeepInv` | packages/database/src/oauth.ts:386-415 | In every interleaving each session holds exactly what its phase says, and connections are conserved. |
| `GrantLocks.RunningCallsAreDisjoint` | packages/database/src/oauth.ts:365-385 | Two calls that share an account never run their functions at the same time. |
| `GrantLocks.NoDeadlock` | packages/database/src/oauth.ts:365-415 | With a pool of at least one, every reachable state with an unfinished call has a step that is not a failure. |
| `GrantLocks.RunsAreBounded` | packages/database/src/oauth.ts:386-415 | No run is longer than the calls' lock counts allow, failures included. |
| `GrantLocks.RunsEndClean` | packages/database/src/oauth.ts:400-415 | A run that only failures could extend has finished every call, holds no lock and has every connection back. |
| `Jobs.JobQueue.EnqueueJob` | packages/database/src/jobs.ts:39-66 | A new job carries its identity in columns and payload, whatever payload the caller gave. |
| `Jobs.JobQueue.EnqueueSyncJob` | packages/database/drizzle/0010_one_pending_sync.sql:23-51 | Enqueues unless the slot key exists or a sync already waits for the connection; an unknown connection raises. |
| `Jobs.JobQueue.RequestConnectionSync` | packages/database/src/jobs.ts:272-309 | Returns the connection's one waiting sync, new or already there. |
| `Jobs.JobQueue.RequestConnectionBackfill` | packages/database/src/jobs.ts:320-361 | Supersedes the waiting backfill; afterwards the new one is the only one waiting. |
| `Jobs.JobQueue.ClaimJobs` | packages/database/drizzle/0055_sync_continuations.sql:10-70 | Requeues stale jobs and claims in visit order, or refuses as a whole when an index refuses the requeueing. |
| `Jobs.JobQueue.ClaimDue` | packages/database/drizzle/0055_sync_continuations.sql:34-67 | The loop that asks the table as it is by then takes what the specification takes. |
| `Jobs.JobQueue.CompleteJob` | packages/database/src/jobs.ts:128-141 | Succeeds exactly for the lease holder, and releases the lock. |
| `Jobs.JobQueue.DeferJob` | packages/database/src/jobs.ts:144-157 | Releases a checkpoint exactly for the lease holder, due in a second, keeping attempts. |
| `Jobs.JobQueue.RenewJobLease` | packages/database/src/jobs.ts:164-176 | Renews exactly for the lease holder. |
| `Jobs.JobQueue.FailJob` | packages/database/src/jobs.ts:196-238 | A retryable failure with attempts left puts the job back, as a checkpoint if it has a continuation, due after the doubled delay; any other one ends it as dead, or as failed without dead letter. It spends one attempt and records the error; fenced and refused calls change nothing. |
| `Jobs.JobQueue.CancelAndDetach` | packages/database/src/connections.ts:280-303 | Deleting a connection cancels its waiting jobs and detaches all of its jobs. |
| `Jobs.BackoffDoubles` | packages/database/src/jobs.ts:214-219 | The delay is 15 seconds, doubled by every attempt spent, up to 15 minutes. |
| `JobEffects.EnqueueIs` | packages/database/src/jobs.ts:39-66 | A job is added exactly when no row has its key and no pending sync or backfill of its connection is like it; it is pending, due when asked or at once, with its identity in columns and payload and eight attempts unless told otherwise. |
| `JobEffects.RequestSyncIs` | packages/database/src/jobs.ts:272-309 | A request adds a pending sync of the connection, due at once, exactly when none is pending. |
| `JobEffects.RequestBackfillIs` | packages/database/src/jobs.ts:320-361 | A backfill fails the workspace's waiting ones of the connection and takes their place, and changes nothing when another workspace's is pending. |
| `JobEffects.FailIs` | packages/database/src/jobs.ts:196-238 | A failure takes effect exactly for the holder and unless it would put a sync or backfill back beside a pending one; it spends an attempt and puts the job back, as a checkpoint if it has one, or ends it as failed or dead. |
| `JobEffects.DeferIs` | packages/database/src/jobs.ts:144-157 | A deferred job is a checkpoint due in a second, without error and lock, with the new continuation or the one it had. |
| `JobEffects.DeleteConnectionIs` | packages/database/src/connections.ts:280-303 | The workspace's waiting jobs of the connection fail, every job of it loses it, and no other row changes. |
| `JobEffects.ClaimIs` | packages/database/drizzle/0055_sync_continuations.sql:23-70 | Row by row, a claim puts stale jobs back or ends them, gives due jobs to the worker and leaves the others; it changes nothing exactly when a stale job would go back beside a pending one. |
| `JobEffects.ClaimedIff` | packages/database/drizzle/0055_sync_continuations.sql:34-67 | A visited job is claimed exactly when fewer than the limit were claimed before it and its connection has no running job, no job claimed before it and no checkpoint ahead of it. |
| `JobEffects.ClaimedAre` | packages/database/drizzle/0055_sync_continuations.sql:34-67 | The claimed jobs are visited ones, in their order, each once. |
| `JobRuns.RunsKeepInv` | packages/database/src/jobs.ts:39-361 | In every reachable table exactly running jobs are locked, live jobs have attempts left, payloads name their columns unless the connection was deleted, indexes hold, and a connection has at most one running job. |
| `JobRuns.TerminalIsForever` | packages/database/src/jobs.ts:128-238 | A terminal row only ever loses its connection. |
| `JobRuns.OnlyHolderOrStaleness` | packages/database/src/jobs.ts:128-238 | A running job changes only by its holder or by a claim that finds its lease stale, apart from losing its connection. |
| `JobRuns.AttemptsCountFailures` | packages/database/src/jobs.ts:144-238 | A job's attempts equal the number of its recorded failures and stale leases over the run. |
| `JobRuns.WhatSpends` | packages/database/src/jobs.ts:144-238 | Only the holder's failure or a stale lease spends an attempt, one each; deferral spends none. |
| `JobRuns.RetriesAreBounded` | packages/database/src/jobs.ts:184-238 | A job is put back at most maxAttempts - 1 times over any run. |
| `JobRuns.DelaysNeverShrink` | packages/database/src/jobs.ts:206-221 | Retry delays of a job lie between 30 s and 15 min and never shrink. |
| `JobRuns.IdentityKeptUnlessDeleted` | apps/server/src/worker.ts:48-62 | A step makes a job fail the worker's identity check exactly when it deletes the job's connection. |
| `JobRuns.ClaimTakesOnlyFree` | packages/database/drizzle/0055_sync_continuations.sql:34-67 | A claim takes at most its limit of waiting, due jobs, none beside a running job or before a checkpoint's turn. |
| `JobRuns.ClaimLeavesOnlyBlocked` | packages/database/drizzle/0055_sync_continuations.sql:34-67 | A visited job left over below the limit is blocked. |
| `JobRuns.TakenAreApart` | packages/database/drizzle/0055_sync_continuations.sql:40-60 | Taken jobs share no connection with a running job or with each other. |
| `JobRuns.FailureRefusedIff` | packages/database/src/jobs.ts:205-228 | A recorded failure is refused exactly when it would retry a job without checkpoint beside a waiting one of its kind. |
| `JobRuns.ClaimRefusedIff` | packages/database/drizzle/0055_sync_continuations.sql:23-32 | A claim is refused exactly when some stale job would be requeued beside a waiting one of its kind. |
| `JobRuns.JamEndsIff` | packages/database/drizzle/0055_sync_continuations.sql:23-32 | A jam ends exactly when the holder completes, defers or finally fails the job or its connection is deleted; enqueueing, claiming, superseding, pruning, renewal and a retryable failure do not end it. |
| `JobRuns.RefusedClaimsStayRefused` | packages/database/drizzle/0055_sync_continuations.sql:23-32 | Over every continuation in which nobody frees a jam, each claim late enough to find the jamming lease stale changes nothing. |
| `JobRuns.ClaimsCanJam` | packages/database/drizzle/0055_sync_continuations.sql:23-32 | A reachable table from which, over every continuation that nobody frees, no late claim of any worker takes any job. |
| `Worker.Execution.ExecuteJob` | apps/server/src/worker.ts:130-222 | The issued calls end the job as its handler did; when the first one reports an error that the executor catches, a second one has the job tried again. A job is handled exactly when its identity matches and its kind is known, renewed while handled, and renewal is off on every path. |
| `Worker.ExecutionEnds` | apps/server/src/worker.ts:130-222 | Wherever the job is held, and unless an index refuses to put it back, the issued calls end it as its handler did: succeeded, a checkpoint, failed for a terminal error, dead for a non-retryable one or a rejected job, and for any other error waiting again while attempts are left and dead at the last. |
| `Worker.SecondCallFollowsTerminal` | apps/server/src/worker.ts:137-221 | An execution makes at most two queue calls, the second only after the first raised, and then the first ends the job if it takes effect. |
| `Worker.AtMostOneTakesEffect` | apps/server/src/worker.ts:137-221 | In every run at most one of an execution's calls changes the queue, also when it commits but reports an error and whoever steps in between. |
| `Worker.InFlightIsBounded` | apps/server/src/worker.ts:224-256 | From any pool within its limit with at most one loop, jobs in flight never exceed concurrency as long as no loop is started while another is alive. |
| `Worker.RunsStayWithin` | apps/server/src/worker.ts:224-288 | In every run whose starts each find no live loop, jobs in flight never exceed concurrency. |
| `Worker.StartIsSafeIff` | apps/server/src/worker.ts:224-288 | After a start, jobs in flight stay within a positive concurrency for good exactly when the start found no claim loop alive. |
| `Worker.TwoLoopsExceed` | apps/server/src/worker.ts:224-256 | From every pool with two live loops some moves without another start exceed the limit. |
| `Worker.RestartDuringStopExceeds` | apps/server/src/worker.ts:267-288 | A start during a pending stop makes two loops that together run twice the concurrency. |
| `Worker.StopEndsClaims` | apps/server/src/worker.ts:224-288 | After a stop and until a start no claim begins: over any moves, jobs in flight and those that claims under way may bring never become more, nor do live loops. |
| `Worker.StoppedCanDrain` | apps/server/src/worker.ts:267-288 | From every stopped pool some moves end all loops and leave no job in flight. |
| `Worker.ClaimsAskForSome` | apps/server/src/worker.ts:224-240 | In every run each claim under way asked for at least one job. |
| `Worker.LeaseSurvivesOneMissIff` | apps/server/src/worker.ts:110-128 | Leases renewed on schedule with single misses are never old enough to reclaim exactly when staleAfterSeconds is at least 0.5. |
| `Scheduler.Database.RunTick` | apps/server/src/scheduler.ts:77-131 | A tick plans every due connection and counts exactly; without the lock or after an abort nothing changes. |
| `TickEffects.TickAddsJobs` | apps/server/src/scheduler.ts:94-122 | A tick adds exactly the syncs of planned slots for which no job had the slot's key and no sync of the connection was pending when it began, and changes no other job; one slot does not depend on another. |
| `TickEffects.TickAdvances` | apps/server/src/scheduler.ts:94-122 | A due, healthy connection is due again an interval after the tick; every other one stays as it is. |
| `TickEffects.TickCounts` | apps/server/src/scheduler.ts:94-131 | The counts are the numbers of due connections, of those skipped for either reason, and of jobs added. |
| `Scheduler.PlannedConnections` | apps/server/src/scheduler.ts:98-122 | Each due, healthy connection advances by its interval from now; every other one keeps its slot. |
| `Scheduler.ScannedAddsUp` | apps/server/src/scheduler.ts:94-129 | Scanned is planned plus skipped for either reason. |
| `Scheduler.EnqueuedAtMostPlanned` | apps/server/src/scheduler.ts:107-116 | At most one job is enqueued per planned connection. |
| `Scheduler.PlannedSlotsAreCovered` | apps/server/src/scheduler.ts:63-72 | Afterwards every planned slot has a job with its key, or a sync waits for its connection. |
| `Scheduler.TickMovesSlots` | apps/server/src/scheduler.ts:117-121 | A tick moves a planned connection's slot strictly later and no other slot. |
| `Scheduler.DueAnIntervalLaterIff` | apps/server/src/scheduler.ts:77-131 | Up to its next plan a connection can be due only an interval after a plan exactly when the last sync end or immediate request in between, if any, put its slot that late. |
| `Scheduler.PlansAreAnIntervalApart` | apps/server/src/scheduler.ts:77-131 | Any two plans of a connection, however many lie between, are at least its poll interval apart and use different slots, when each plan's interval is kept up to the next. |
| `Scheduler.LongSyncShortensTheInterval` | apps/server/src/sync/engine.ts:929-949 | A sync started before a plan and finished after it brings the next plan closer than the interval. |
| `DecimalAmount.ParseRoundsHalfEven` | packages/connectors/src/decimal-amount.ts:49-87 | A well-formed amount is its exact value in minor units rounded half to even, flagged exactly when that is not an integer, and refused exactly beyond 2^53 - 1. |
| `DecimalAmount.RoundingExists` | packages/connectors/src/decimal-amount.ts:64-80 | The digit-wise result is a half-even rounding, for every well-formed amount and exponent. |
| `DecimalAmount.RoundedMagnitudeIsHalfEven` | packages/connectors/src/decimal-amount.ts:69-80 | Cutting digits and comparing strings rounds the exact quotient half to even. |
| `DecimalAmount.HalfEvenMonotone` | packages/connectors/src/decimal-amount.ts:74-79 | Half-even rounding is monotone in the rational, hence a function of it. |
| `AmountMeaning.AmountIs` | packages/connectors/src/decimal-amount.ts:49-87 | An amount is the integer nearest to its digits times ten to its currency's places over ten to its own places, the even one of two; flagged when that is not exact, refused beyond 2^53 - 1. |
| `AmountMeaning.RefusedIff` | packages/connectors/src/decimal-amount.ts:49-62 | Before its value is looked at, an amount is refused exactly for its currency, for more than forty characters, or when it is not an optional minus, digits, and optionally a point and digits. |
| `DecimalAmount.ParseIsOdd` | packages/connectors/src/decimal-amount.ts:41-87 | A credit rounds like the charge it reverses. |
| `DecimalAmount.ParseIsMonotone` | packages/connectors/src/decimal-amount.ts:49-87 | A larger amount never has fewer minor units, however both are written. |
| `Digits.LexIsNumeric` | packages/connectors/src/decimal-amount.ts:76-77 | The string order of equally long digit strings is the order of their numbers. |
| `CompactFormat.SuffixCompact` | packages/domain/src/compact-format.ts:37-50 | The loop with one promotion chooses the specified tier and tenths. |
| `CompactFormat.CompactBounds` | packages/domain/src/compact-format.ts:42-50 | One promotion suffices: below the last tier under 10,000 tenths, above the first at least 10, and off by at most half a tenth of the tier. |
| `CompactFormat.CompactMonotone` | packages/domain/src/compact-format.ts:37-50 | A larger value is never shown as a smaller one, across tiers, promotions and zero. |
| `CompactFormat.TierNeverFalls` | packages/domain/src/compact-format.ts:38-49 | A larger magnitude has a higher tier, or the same tier and no fewer tenths. |
| `AppReviews.ReviewStore.Ingest` | packages/database/src/app-reviews.ts:129-208 | The batched upsert and the window deletions give the specified table, and both counts are exact. |
| `AppReviews.ReviewStore.Deduplicate` | packages/database/src/app-reviews.ts:135-141 | One row per id: the last accepted report. |
| `AppReviews.ReviewStore.UpsertInBatches` | packages/database/src/app-reviews.ts:158-184 | Batches upsert every row in order and count the written ones. |
| `AppReviews.ReviewStore.DeleteInWindows` | packages/database/src/app-reviews.ts:186-206 | Every window is pruned in turn, and the count is the number of rows gone. |
| `AppReviews.ReviewStore.Hide` | packages/database/src/app-reviews.ts:237-265 | Hides a review of the workspace; hiding twice keeps the first time. |
| `AppReviews.WindowsHoldOnlyReturned` | packages/database/src/app-reviews.ts:98-107 | Afterwards every stored review inside a window was returned for that window's resource. |
| `AppReviews.ReportedReviewsSurvive` | packages/database/src/app-reviews.ts:98-107 | No window deletes a review of the page; each id's last accepted report is stored. |
| `ReviewEffects.ReportIsStored` | packages/database/src/app-reviews.ts:129-184 | The last report of an id that is no older than the limit is stored with its capped texts and its territory, keeping the hidden time, unless another workspace has the key. |
| `ReviewEffects.UnreportedStaysIff` | packages/database/src/app-reviews.ts:186-206 | Any other row is deleted exactly when it is of the page's connection and workspace, a window of its resource covers its time, and no report of that resource has its id; otherwise it stays as it is. |
| `ReviewEffects.LatestIs` | packages/database/src/app-reviews.ts:135-157 | The report that counts for an id is the last one no older than the limit. |
| `ReviewEffects.WrittenAre` | packages/database/src/app-reviews.ts:158-184 | The counted rows are those of reported ids that no other workspace has. |
| `AppReviews.OthersUntouched` | packages/database/src/app-reviews.ts:186-206 | A row the page does not name and no window covers stays as it was. |
| `AppReviews.IngestIdempotent` | packages/database/src/app-reviews.ts:129-208 | Ingesting the same page again changes nothing and deletes nothing. |
| `AppReviews.HideIsPermanent` | packages/database/src/app-reviews.ts:237-265 | Through any sequence of later hides and ingests a hidden review that is not deleted keeps its first hidden time, and hiding it again changes nothing. |
| `AppReviews.CapTextShape` | packages/database/src/app-reviews.ts:64-73 | Capped text is at most the cap long and neither starts nor ends with white space. |
| `ReviewEffects.CapTextIs` | packages/database/src/app-reviews.ts:64-73 | Capped text is the text without its outer white space, none when nothing is left, cut at the cap and without white space before the cut. |
| `AppReviews.CapTextIdempotent` | packages/database/src/app-reviews.ts:64-73 | Capping again changes nothing exactly when the cap allows a character or there is no text. |

## Left out

- Row-level security, connection handling, statement timeouts and pools beyond the number of free connections: plumbing.
- Encryption, hashing, egress filtering, HTTP routes, the web and Swift clients: foreign calls and user interface.
- Byte sizes and quotas: each limit that counts bytes or rows of other datasets is a yes-or-no parameter of a delivery.
- The engines' recursion over nodes and measures listed in any order: the model evaluates them in the order they are
  listed in, which the compiler makes resolve.
- Times of day, time zones and instants of a period's windows: days only, from year 102 on.
- Floating-point rounding: numbers and compact tiers are exact; decimal quotients are not cut to eighteen places.
- Units and currencies inside the data engine: the compiler's unit rules and refusals are modelled, the engine's checks
  of units, value types of appended columns and result status (partial, missing) are not.
- Lexical rules of names and ids, and time-zone names, in dataset definitions: every string is an id.
- The order and limit of preview rows: a preview is the set of live rows.
- Deletion of pruned dataset history and of whole connections' datasets: a run only delivers and registers.
- `DatasetStore.Dataset.ReplayDatasetRefresh`: limits and retention are given per page, as the source reads them per page.
- `Jobs.JobQueue.ClaimJobs`: the visit order is any order by run time, with locked rows skipped; two claims never overlap
  because the source holds a transaction lock.
- `SessionLockCalls.Session.WithSessionAdvisoryLock`: a call that waits for a connection or for another process's lock is
  modelled in the interleaved calls; the method is the call once both are there or it has given up.
- A worker start whose first heartbeat fails, which leaves the worker marked as running without a loop.
- The order of texts with characters beyond U+FFFF, which the source compares by code unit.
- `SessionLockQueue.SessionLocks.Resume`: whether the timer or the predecessor wins a race is a parameter.
- `GrantLocks.Session.WithGrantLocks`: accounts are taken to have distinct lock keys, so a hash collision that would make
  two accounts one lock is not covered.
- `CompareCorrectness.CompiledMeasureIsTheWidget`: datasets are taken to be complete observation tables with a date and a
  value in every row, as the observation adapter delivers them.
- The scheduler's maintenance loop, prune functions and exchange-rate job: they only delete or fetch.
- `Intl` number formatting: only tier and tenths are modelled, for the language with its own suffixes.
