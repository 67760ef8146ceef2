# Events data loader — a Dafny model

This project models `data-loaders/events.php` from the TicketEvolution PHP framework. The script copies upstream events into two local tables:

- `tevoEvents`, one row per event;
- `tevoEventPerformers`, one row per (event, performer) association.

It then stamps the run in `tevoDataLoaderStatus`. The model covers the script's four pieces of logic:

- **The page loop** (`Paging`, `Loader.FetchPages`, `Loader.LoopPass`).
  - Pages are fetched from the starting page up to `$maxPages`.
  - A timeout (exception code 1000) retries the same page, by decrementing `$currentPage` before the loop's own increment.
  - At most 3 attempts are made for any page. A timeout on the third attempt, or any other exception, ends the script.
  - `$tryCount` is unset after a success.
  - `$maxPages` is replaced by the reported page count while it still equals `$defaultMaxPages`.
  - `Paging.Schedule` is the pure specification of the loop: the sequence of attempts and how the run ends. The imperative loop is proved to produce exactly that trace.
- **The event upsert** (`EventSync.EventData`, `EventSync.UpsertEvent`, `Loader.Store.SaveEvent`).
  - Each record becomes a field dictionary. `configurationId` is included only when the record has a configuration.
  - The dictionary is written over the stored row (`setFromArray`) or becomes a new row (`createRow`), keyed by `eventId`.
  - A failed `save()` changes nothing and processing goes on.
- **The association upsert and the NOT-IN delete** (`EventSync.ApplyPerformances`, `EventSync.DeleteNotIn`, `EventSync.RecordStep`, `Loader.Store.SavePerformers`, `Loader.Store.DeleteStalePerformers`).
  - Each performance naming a performer is upserted by (eventId, performerId), and its id is appended to `$performerArray`.
  - When that array is set, every association of the event whose performer is not in it is deleted, and the array is unset.
- **The run-status write** (`Loader.StatusAfterRun`, `Loader.Store.SaveStatus`, `Loader.Run`). The status row (`table = events`, `type = active`, `lastRun = start time`) is created or overwritten. This happens only when the page loop completes.

How the model is built:

- **Tables.** Each table is a map from its primary key to a row. A row is a map from column to value, and a column absent from a row holds its default. `setFromArray` is then map union, and `find()->current()` is a key lookup.
- **The store.** The three tables are the fields of the class `Loader.Store`. Its methods update them in place. Each method is proved against a specification function on values: `EventSync.RecordStep` for one record, `EventSync.PageStep` for one page, `Loader.ApplyTrace` for a run.
- **The world.** Everything the script does not decide comes from a `World` value:
  - the answer of each `listEvents` call, indexed by page and try;
  - the answer of each `save()`;
  - the run's start time, which is a parameter.
- **A worked run.** The `Scenario` module proves the outcome of one concrete run. Upstream reports two pages: event 100 with primary performer 7, and event 101 with no performances. Both pages are fetched on their first try. Events 100 and 101 end up stored with `eventStatus = 1`. The single association (100, 7) is stored as primary, and no association references event 101.

The model follows the code exactly, including these points:

- **Retries.** The script makes at most 3 *attempts* per page, that is 2 retries. The model and `Paging.AtMostMaxTriesPerPage` say so.
- **Association save failures.** A failed association `save()` is neither reported nor handled: its result is ignored. Its row is simply not written.
- **The first page.** It is fetched even when the count it reports is lower than the page number, because the bound is checked before the fetch. `Paging.LastPageFetched` states this.

## Model

| member | source | states |
|---|---|---|
| Rows.SetFromArray | data-loaders/events.php:105-106 | the row keeps its columns and gains the supplied ones; every supplied column has the supplied value, every other column its old value |
| Rows.Upsert | data-loaders/events.php:105-113 | a failed save leaves the table unchanged; otherwise the key is present, its row holds every supplied value, keeps unsupplied columns of an existing row, and no other key changes |
| Rows.ActionFor | data-loaders/events.php:105-111 | the action reported for a record: UPDATE when `find()` returns a row for the key, INSERT otherwise (used by `Loader.Store.SaveEvent`'s contract) |
| Rows.UpsertTwice | data-loaders/events.php:105-113 | upserting the same data under the same key twice gives the table that one upsert gives |
| EventSync.EventData | data-loaders/events.php:88-103 | the dictionary has exactly the eleven fixed columns plus `configurationId` iff the record has one, with `eventId`, `eventStatus = 1`, `lastModifiedDate = startTime` and the configuration id |
| EventSync.UpsertEvent | data-loaders/events.php:88-113 | after a successful save exactly the old keys plus the record's id are present, its row holds every mapped value, an unsupplied `configurationId` keeps its stored value (absent for a new row), and no other event row changes; after a failed save nothing changes |
| EventSync.PerformerData | data-loaders/events.php:138-144 | the association dictionary supplies all five columns, with the ids, isPrimary as 1/0, the start time and status 1 |
| EventSync.UpsertPerformance | data-loaders/events.php:137-151 | one performance: skipped when it names no performer, otherwise upserted under (eventId, performerId) with its association data; its effect row by row is `EventSync.ApplyPerformancesRows` |
| EventSync.ApplyPerformances | data-loaders/events.php:132-162 | the association table after the performance loop, each performance upserted in order with its own save outcome; characterised by `EventSync.ApplyPerformancesRows` and implemented by `Loader.Store.SavePerformers` |
| EventSync.CollectIds | data-loaders/events.php:137-154 | `$performerArray` after the performance loop: each observed id appended, which sets it when unset; characterised by `EventSync.CollectIdsAppends` |
| EventSync.PerformerDataOverwrites | data-loaders/events.php:146-150 | over the modelled schema, whose five columns are exactly the supplied ones, an UPDATE of an association row leaves exactly the row an INSERT would |
| EventSync.DeleteNotIn | data-loaders/events.php:169-172 | a row remains exactly when it belongs to another event or its performer is in the kept list, and remaining rows are unchanged |
| EventSync.Reconcile | data-loaders/events.php:169-174 | the delete runs only when `$performerArray` is set: without it the table is unchanged; it only ever removes rows, never changes one, and never removes a row of another event |
| EventSync.ArrayAfterRecord | data-loaders/events.php:169-174 | `$performerArray` once a record is done: unset by the delete when it was set, and left unset otherwise |
| EventSync.ArrayNeverLeaks | data-loaders/events.php:169-174 | for every value carried into a record, `$performerArray` is unset when the next record starts |
| EventSync.RecordStep | data-loaders/events.php:88-174 | both tables after one record: the event upsert, the performance loop, then the delete when `$performerArray` is set; implemented by `Loader.Store.ProcessRecord`, its properties are the `EventSync` lemmas below |
| EventSync.PageStep | data-loaders/events.php:87-175 | both tables after records `i..` of a page, each record starting with the `$performerArray` the previous one left; implemented by `Loader.Store.ProcessPage` |
| EventSync.CollectIdsAppends | data-loaders/events.php:137-154 | `$performerArray` ends as the carried ids followed by every observed performer id, and is left as it was (unset) when no performance names a performer |
| EventSync.LastSavedObserved | data-loaders/events.php:137-151 | a performer with a successful save was observed; if every save succeeds, every observed performer has one |
| EventSync.LastOccurrenceWins | data-loaders/events.php:146-151 | the last successfully saved performance naming a performer decides its isPrimary flag |
| EventSync.ApplyPerformancesRows | data-loaders/events.php:132-162 | after the performance loop each saved performer's row is its last saved data, and every other row is exactly as before |
| EventSync.OtherEventsUntouched | data-loaders/events.php:132-174 | processing a record leaves the association rows of every other event unchanged, including through the delete |
| EventSync.NoPerformerIdsNoChange | data-loaders/events.php:137-174 | a record whose performances name no performer writes and deletes no association row, so stale rows remain |
| EventSync.ReconciledAssociations | data-loaders/events.php:132-174 | with at least one performer id, the event's association rows afterwards are exactly those of observed performers stored before or saved now; saved ones hold their last data, others are unchanged |
| EventSync.AssociationsConverge | data-loaders/events.php:132-174 | with at least one performer id and every save succeeding, the set of stored performer ids of the event equals the set of observed ids |
| EventSync.LastPerformanceWins | data-loaders/events.php:146-155 | for a performer named more than once, the row holds the data of its last performance, whose isPrimary flag wins |
| EventSync.RecordStepIdempotent | data-loaders/events.php:88-174 | processing the same record twice in a row leaves both tables as processing it once |
| EventSync.RecordStepKeepsKeys | data-loaders/events.php:105-150 | processing a record keeps every row filed under the key its own id columns hold, so no event id or (event, performer) pair has two rows |
| Paging.NextMaxPages | data-loaders/events.php:79-82 | the bound after a successful fetch: the reported page count while the bound still equals the default, the bound itself otherwise |
| Paging.Schedule | data-loaders/events.php:37-82 | the reference trace of the page loop: every attempt in order (page, try count, answer) and whether the loop completes or aborts with a code; its properties are the `Paging` lemmas below and `Loader.FetchPages` is proved to produce it |
| Paging.ScheduleStarts | data-loaders/events.php:37-52 | an attempt is made exactly when the page is within the bound, and the first is of that page with the current try count |
| Paging.ScheduleBounds | data-loaders/events.php:37-73 | every attempt is of the starting page or a later one, with a try count from 1 to 3 |
| Paging.ScheduleSteps | data-loaders/events.php:42-77 | after a timeout the next attempt is of the same page with the counter one higher; after a success it is of the next page with the counter back at 1 |
| Paging.ScheduleEnds | data-loaders/events.php:60-73 | the run aborts exactly when its last attempt failed, with that failure's code, and a timeout aborts only on the third try |
| Paging.FatalErrorIsFinal | data-loaders/events.php:71-73 | an error other than a timeout is the last attempt and aborts the run with its code |
| Paging.ScheduleOrder | data-loaders/events.php:37-77 | pages never go backwards, and two attempts of one page are consecutive failed tries of it |
| Paging.AtMostMaxTriesPerPage | data-loaders/events.php:45-73 | no page is attempted more than 3 times |
| Paging.PagesFetchedOnceInOrder | data-loaders/events.php:37-82 | each page is fetched successfully at most once, in increasing page order |
| Paging.TimeoutsExhaustRetries | data-loaders/events.php:60-70 | timeouts on every remaining try give exactly those attempts of the page and abort with code 1000; no fourth attempt is made |
| Paging.ConfiguredBoundRespected | data-loaders/events.php:79-82 | a bound that differs from the default is never replaced, so no page beyond it is attempted |
| Paging.StableTotalCoversPages | data-loaders/events.php:37-82 | when every fetch succeeds with the same page count, exactly the pages from the start to the last page are fetched, once each, on the first try, in order, and the run completes |
| Loader.StatusData | data-loaders/events.php:23-26 | the status dictionary holds exactly `table = events`, `type = active` and `lastRun = startTime` |
| Loader.StatusDataOverwrites | data-loaders/events.php:185-186 | over the modelled schema, whose three columns are exactly the supplied ones, overwriting any existing status row with that dictionary yields the dictionary itself |
| Loader.StatusAfterRun | data-loaders/events.php:183-190 | a successful save leaves the status row equal to the dictionary, whether it was created or overwritten; a failed save leaves the prior status |
| Loader.ApplyTrace | data-loaders/events.php:37-181 | both tables after a run's attempts: each fetched page's records processed in order, failed attempts changing nothing; `Loader.FetchPages` is proved to produce it |
| Loader.PageStepLeavesOthers | data-loaders/events.php:87-175 | processing a page leaves the rows, in both tables, of every event that the page does not contain |
| Loader.ApplyTraceLeavesOthers | data-loaders/events.php:37-181 | a run writes and deletes nothing for an event that no fetched page contains |
| Loader.PageStepKeepsKeys | data-loaders/events.php:87-175 | processing a page keeps every row filed under the key its id columns hold |
| Loader.ApplyTraceKeepsKeys | data-loaders/events.php:37-181 | processing every fetched page of a run keeps every row filed under the key its id columns hold |
| Loader.Store.constructor | data-loaders/events.php:32-35 | a store over given tables whose rows are filed under their own keys satisfies `Valid()`, as `Loader.Run` requires |
| Loader.Store.SaveEvent | data-loaders/events.php:105-113 | the action is UPDATE iff a row with the id existed before; the event table becomes `UpsertEvent` of the old one; the other tables are unchanged |
| Loader.Store.SavePerformers | data-loaders/events.php:132-162 | the association table becomes the performances applied in order, the returned `$performerArray` is the carried value extended by the observed ids, and the other tables are unchanged |
| Loader.Store.DeleteStalePerformers | data-loaders/events.php:169-173 | the association table becomes `DeleteNotIn` of the old one; the other tables are unchanged |
| Loader.Store.ProcessRecord | data-loaders/events.php:87-174 | both tables become `RecordStep` of the old ones, the report gives the record's id, UPDATE or INSERT and the save's outcome, row keys stay consistent, and `$performerArray` is `ArrayAfterRecord` of its value on entry, that is unset afterwards |
| Loader.Store.ProcessPage | data-loaders/events.php:87-175 | both tables become `PageStep` of the old ones over every record of the page in order, whatever each save returns; the status row is unchanged |
| Loader.Store.ProcessAttempt | data-loaders/events.php:84-175 | processing the records of a fetched attempt extends the specification `ApplyTrace` by that attempt |
| Loader.Store.SaveStatus | data-loaders/events.php:183-190 | the status row becomes `StatusAfterRun` of the old one; the event tables are unchanged |
| Loader.LoopPass | data-loaders/events.php:38-180 | one pass of the loop body: the attempt uses the current page and try count; on abort the trace so far is the whole trace; otherwise the rest of the trace continues from the next loop variables, which either retry the page with the counter one higher or advance with the counter unset and the bound updated |
| Loader.FetchPages | data-loaders/events.php:37-181 | the loop's attempts and outcome are exactly `Schedule` from the starting page, and the tables are `ApplyTrace` of the old ones over those attempts |
| Loader.Run | data-loaders/events.php:37-190 | the script's trace is `Schedule`; the tables are `ApplyTrace` of those attempts with consistent keys; the status row is written only when the loop completes and is unchanged after an abort |
| Scenario.ExampleSchedule | data-loaders/events.php:37-82 | with two reported pages and the default bound, pages 1 and 2 are fetched once each and the loop completes |
| Scenario.ExampleTables | data-loaders/events.php:87-175 | that run stores events 100 and 101 with status 1 and exactly the association (100, 7) as primary |

## Left out

- HTML output: `echo`, `htmlentities`, the `$performerList` string and the output-buffer flushes are presentation only. The per-record outcome is returned by `Loader.Store.ProcessRecord` as a `Report`.
- Loader.Store.ProcessPage: the per-record reports are not collected, because no later step reads them.
- The API client (`listEvents`, the exception classes) is replaced by the `World.fetch` oracle. An escaping exception is modelled as `Aborted` with the code of the exception that was caught. The wrapping `TicketEvolution_Webservice_Exception`, and whatever code it carries, is not modelled.
- Date formatting: the ISO-8601 rendering of the start time and of the record's dates. Timestamps are opaque strings, and the record fields arrive already formatted.
- Table schemas: `tevoEventPerformers` is taken to have exactly the five columns the script supplies, and `tevoDataLoaderStatus` exactly the three it supplies, because the schemas are defined outside the script. If either table had another column, an UPDATE would keep that column's stored value, as the model does for `configurationId` of `tevoEvents`. `EventSync.PerformerDataOverwrites`, `Loader.StatusDataOverwrites` and the row equalities that rest on them (`EventSync.ApplyPerformancesRows`, `EventSync.ReconciledAssociations`, `EventSync.LastPerformanceWins`, `Loader.StatusAfterRun`) hold for that schema.
- The database layer: the Zend table classes, SQL quoting and `delete($where)`. They are modelled as map lookup, overwrite or insert, and a filtered map.
  - Each `save()` answer is a `World` parameter.
  - A `save()` or `delete()` that throws is not modelled.
  - The literal SQL `NOT IN ()` of an empty list cannot arise: the array is set only once an id has been appended.
- The bootstrap: `bootstrap.php` and `includes/common.php` are not part of this model.
  - `$options['page']`, `$maxPages`, `$defaultMaxPages` and the start time are parameters.
  - The prior status row is the store's initial `status`.
  - `$tryCount` and `$performerArray` are taken to be unset when the script starts.
- PHP casts of raw API fields: records arrive already typed, and the loose `==` comparisons are between integers.
- Request options other than the page number are not modelled.
- Idempotence is proved per record (`EventSync.RecordStepIdempotent`), not for a whole run processed twice.
