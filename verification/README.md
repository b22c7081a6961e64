# CouchDB to DHIS2 death-review integration, modelled in Dafny

The service watches a CHT (Community Health Toolkit) CouchDB database for
`death_review` reports. It turns each one into a DHIS2 tracker event and posts
the event to DHIS2. A JSON ledger records which documents were delivered and
where the changes feed should resume.

This project models the core of that service:

- **The transform** `transformToTrackerEvent` (`FieldMapping`).
  - Seventeen mapped fields, each with a data element and an optional normaliser: date completion, capitalisation, and the education, occupation and nationality vocabularies.
  - The fixed cadre entry and the report-date entry.
  - The event header: org unit fallback, `storedBy` fallback, coordinates.
  - Every way the transform throws: a non-string date of death, a normaliser applied to a non-string, an invalid reported date.
- **The JavaScript values the transform reads** (`JsValues`, `Text`, `Documents`).
  - `undefined`, `null`, strings, integers and booleans.
  - Truthiness, `a || b`, `String(v)`, and the string methods the normalisers call.
- **The sync ledger** `SyncStateManager` (`Ledger`).
  - It holds the cursor `lastSeq`, the map of synced document ids and `lastSyncTime`.
  - Operations: mark, update cursor, get stats, clear.
- **The CouchDB layer** (`CouchDb`).
  - The changes-feed filter, which forwards undeleted `death_review` and `cha_verbal_autopsy` documents with their `seq`.
  - The `since` value the feed opens at.
  - The view query behind `getDocumentsByForm`.
  - The TLS `rejectUnauthorized` switch.
- **The DHIS2 post** `postEvent` (`Dhis2`). It succeeds exactly when DHIS2 answers with status `"OK"`.
- **The orchestrator** in `src/index.js` (`Integration`).
  - `processDeathReview`: skip if synced, transform, post, mark, move the cursor only when `seq` is truthy.
  - `backfillHistoricalData`.
  - The live pass of the changes feed.
  - The `initialize` and `start` guards.
  - The boot sequence: initialize, then backfill, then start.
- **The dry-run service** in `test-mode.js` (`TestMode`).
  - Its `processDeathReview` sets the event id to `medic-<id>` and records `testMode: true`. It always assigns the cursor.
  - `processExisting`.

Effects are parameters:

- The clock, the `Date` conversion of `reported_date` and DHIS2's answer are one `Moment` per document step.
- The ledger file is a value passed in and returned. Each write to the file is one element of `saves`.
- CouchDB answers are `ViewResponse` and `CouchConnect` values.

Points about the code that a reader might not expect:

- **A DHIS2 connection failure is fatal.** `initialize` awaits `testConnection()` inside its `try` and rethrows (`src/index.js:41-53`). `Integration.Initialize` therefore fails with `Dhis2Unavailable`.
- **One document gives one event.** Nothing is fanned out, and no age is computed. A `cha_verbal_autopsy` document the feed forwards goes through the same death-review mapping.
- **The cursor is assigned, not advanced.** `updateLastSeq` stores whatever it is given. Nothing keeps `lastSeq` monotone, and test mode assigns it even when `seq` is `null` or `"existing"`.
- **Marking overwrites.** `markDocumentSynced` replaces an existing entry.
- **The database handle is set before `db.info()` is awaited.** After a failed `initialize` whose URL parsed, `start` would still find a handle. Only `isRunning` stops it.
- **A failed post is not recorded**, and the live cursor does not move for it. A later delivered change moves the cursor past it. Such a document is retried when a later change to it reaches the feed again. A later backfill also retries it, but only a `death_review` document among the rows the view returns within its limit of 100. `processed` in the backfill counts failed attempts as processed.

## Model

| member | source | states |
|---|---|---|
| JsValues.Or | src/config/field-mapping.js:156 | `a \|\| b` yields `a` when it is truthy and `b` otherwise |
| JsValues.PresentButFalsy | src/config/field-mapping.js:61 | the presence test of `addDataValue` and truthiness differ exactly on `0` and `false` |
| JsValues.ToJsString | src/config/field-mapping.js:68 | `String(v)` is the string itself, the decimal form of a number, or `"true"`/`"false"` |
| JsValues.PresentRendersNonEmpty | src/config/field-mapping.js:61-68 | a value that passes the presence test never renders as the empty string |
| JsValues.NatToDecimal | src/config/field-mapping.js:68 | a natural number renders as a non-empty digit string without a leading zero |
| JsValues.DecimalRoundTrip | src/config/field-mapping.js:68 | reading back the decimal form of a natural number gives that number |
| JsValues.IntToDecimal | src/config/field-mapping.js:68 | an integer renders with a leading digit exactly when it is non-negative, and with a leading `-` exactly when it is negative |
| JsValues.IntToDecimalInjective | src/config/field-mapping.js:68 | two integers with the same decimal form are equal, so the rendered value identifies the number |
| Text.ToLowerIdempotent | src/config/field-mapping.js:102 | `toLowerCase()` leaves no upper-case letter and lower-casing twice is lower-casing once |
| Text.Capitalise | src/config/field-mapping.js:83 | the result has the input's length and the same lower-case form; its first letter is not lower-case and the rest has no upper-case letter |
| Text.CapitaliseIdempotent | src/config/field-mapping.js:91-93 | capitalising an already capitalised value changes nothing |
| Text.CompleteDate | src/config/field-mapping.js:52 | a date without `T` gets the midnight UTC suffix appended; a value containing `T` is kept; the result always contains `T` and extends the input |
| Text.CompleteDateIdempotent | src/config/field-mapping.js:76-78 | completing an already completed date changes nothing |
| Text.BeforeFirst | src/config/field-mapping.js:142 | `split('T')[0]` is the longest prefix without `T`, cut exactly at the first `T` |
| Documents.Get | src/config/field-mapping.js:60 | a missing key reads as `undefined`, a present key as its value |
| FieldMapping.NormaliseEducation | src/config/field-mapping.js:95-103 | a value whose lower-case form is in the education vocabulary becomes its label; any other value is kept unchanged |
| FieldMapping.NormaliseOccupation | src/config/field-mapping.js:105-113 | a known occupation becomes its label, with `unemployed` and `not employed` both becoming `Not employed`; any other value is capitalised |
| FieldMapping.NormaliseNationality | src/config/field-mapping.js:115-121 | the result is always `Kenyan` or `Other`, and `Other` exactly when the value lower-cases to `other` |
| FieldMapping.DataElementInjective | src/config/field-mapping.js:12-36 | no two mapped fields share a DHIS2 data element |
| FieldMapping.RulesWellFormed | src/config/field-mapping.js:74-130 | the transform maps seventeen distinct fields, none of them the cadre or the report date |
| FieldMapping.AddDataValue | src/config/field-mapping.js:59-71 | `addDataValue` throws exactly when a string normaliser meets a present non-string value; otherwise it pushes one entry exactly when the value is present |
| FieldMapping.Emitted | src/config/field-mapping.js:59-71 | the rules that push an entry are exactly the rules whose source value is present |
| FieldMapping.RuleEntries | src/config/field-mapping.js:74-130 | when the `addDataValue` calls all complete, they push exactly one entry per rule whose source value is present; which entries, and in what order, is stated by `RuleEntriesMeaning` |
| FieldMapping.RuleEntriesSucceed | src/config/field-mapping.js:74-130 | the sequence of `addDataValue` calls completes exactly when every rule can render its value |
| FieldMapping.RuleEntriesMeaning | src/config/field-mapping.js:59-130 | when it completes, the sequence of calls pushes, in table order, one rendered entry for each present field and nothing else |
| FieldMapping.ReportDateEntries | src/config/field-mapping.js:140-147 | a falsy `reported_date` adds nothing; a truthy one adds the date part of its ISO form, or throws when the date is invalid |
| FieldMapping.DeathDate | src/config/field-mapping.js:50 | the date of death is the form's `date_of_death` when that is truthy, and the clock's ISO time otherwise, so an empty string or `0` falls back to the clock |
| FieldMapping.CoordinateOf | src/config/field-mapping.js:150-173 | the event carries coordinates exactly when the geolocation has a truthy latitude and a truthy longitude, and then those two values |
| FieldMapping.TransformToTrackerEvent | src/config/field-mapping.js:45-176 | the transform returns an event exactly when the date of death is a string (or falsy), every normalised field present is a string and a truthy reported date converts; otherwise it throws |
| FieldMapping.EventDataValues | src/config/field-mapping.js:56-147 | the event's data values are the entries of the present fields in table order, then the cadre, then the report date |
| FieldMapping.DataValuesCount | src/config/field-mapping.js:56-147 | an event holds one entry per present field, the cadre, and the report date exactly when `reported_date` is truthy: between 1 and 19 entries |
| FieldMapping.TrailingEntries | src/config/field-mapping.js:132-147 | the cadre `CHA` follows the mapped entries; the report-date entry, when there is one, comes last and is a bare date without time |
| FieldMapping.DataElementsDistinct | src/config/field-mapping.js:12-147 | no data element occurs twice in an event |
| FieldMapping.FieldEmittedIffPresent | src/config/field-mapping.js:59-71 | a mapped field's data element occurs in the event exactly when its source value is present, carrying the rendered value |
| FieldMapping.EventHeader | src/config/field-mapping.js:150-173 | the event is `COMPLETED` with no id and `occurredAt` equal to `eventDate`; the org unit falls back from `chu_tracker_id` to the configured one, and `storedBy` from `chv_name` to `medic-integration`; coordinates are attached exactly when the geolocation's latitude and longitude are both truthy, and then they are those two values |
| FieldMapping.EventDateFromDeathDate | src/config/field-mapping.js:50-78 | the event date is the completed date of death, or the clock's time when it is falsy; the date-of-death entry carries the same value |
| FieldMapping.EducationLabelsStable | src/config/field-mapping.js:95-103 | every education label maps to itself when sent again |
| FieldMapping.OccupationLabelsStable | src/config/field-mapping.js:105-113 | every occupation label maps to itself when sent again |
| FieldMapping.NationalityLabelsStable | src/config/field-mapping.js:115-121 | every nationality label maps to itself when sent again |
| FieldMapping.NormaliseIdempotent | src/config/field-mapping.js:76-121 | every normaliser applied to its own output changes nothing |
| FieldMapping.OccupationExamples | src/config/field-mapping.js:105-113 | an unknown occupation is capitalised (`farmer` becomes `Farmer`); a known one takes its label |
| FieldMapping.FallbackExamples | src/config/field-mapping.js:95-121 | the lookups ignore case; an unknown education passes through; an unknown nationality becomes `Kenyan` |
| FieldMapping.DateExamples | src/config/field-mapping.js:76-78 | a bare date gets `T00:00:00.000Z`, a date-time is kept |
| FieldMapping.ZeroExample | src/config/field-mapping.js:61-68 | a numeric `0` is present and is sent as `"0"` |
| Ledger.Initial | src/services/sync-state.js:8-12 | a fresh ledger resumes from `now`, holds no document and has no sync time |
| Ledger.IsDocumentSynced | src/services/sync-state.js:53-55 | a predicate with no contract of its own: `MarkDocumentSynced` makes it hold for the marked id and keeps it for every other, `ClearSyncedDocuments` makes it fail for every id, and `Integration.ProcessDeathReview` skips a document exactly when it holds |
| Ledger.GetLastSeq | src/services/sync-state.js:83-85 | an accessor with no contract of its own: `GetStats` reports it as the cursor, and `Integration.Start` opens the feed at it, or at `now` when it is `undefined` |
| Ledger.MarkDocumentSynced | src/services/sync-state.js:62-68 | marking adds exactly the id, keeps every other entry, the cursor and the sync time; the entry is the metadata plus `syncedAt` |
| Ledger.UpdateLastSeq | src/services/sync-state.js:74-78 | the cursor becomes the given value and the sync time the clock's; the synced documents stay |
| Ledger.GetStats | src/services/sync-state.js:90-96 | the stats count the synced ids and report the cursor and sync time |
| Ledger.ClearSyncedDocuments | src/services/sync-state.js:101-105 | clearing forgets every id and keeps the cursor and sync time |
| Ledger.MarkCountsOnce | src/services/sync-state.js:62-96 | marking raises the count by one for a new id and not at all for a known one, whose entry is overwritten |
| Ledger.MarkTwiceOverwrites | src/services/sync-state.js:62-68 | marking an id twice equals marking it once with the later metadata |
| Ledger.ClearResetsCount | src/services/sync-state.js:90-105 | after clearing the count is zero and the cursor is unchanged |
| Ledger.MarkAndUpdateCommute | src/services/sync-state.js:62-78 | marking a document and then moving the cursor equals doing the two in the other order |
| CouchDb.RejectUnauthorized | src/services/couchdb.js:22 | certificates are checked unless the setting is exactly the string `"false"` |
| CouchDb.Forward | src/services/couchdb.js:65-76 | a change reaches the callback exactly when it carries a document, is not deleted and has a watched form, and then with its own `seq` |
| CouchDb.Forwarded | src/services/couchdb.js:65-76 | the filtered feed is never longer than the feed; `ForwardedMembers` states that it holds exactly the accepted changes |
| CouchDb.ForwardedMembers | src/services/couchdb.js:65-76 | the feed passes on exactly the changes the filter accepts, and nothing else |
| CouchDb.ForwardedAreWatched | src/services/couchdb.js:67-74 | every document the feed passes on is a `death_review` or a `cha_verbal_autopsy` |
| CouchDb.WatchSince | src/services/couchdb.js:53-59 | watching fails exactly when no database handle exists; otherwise the feed opens at the given cursor, or `now` when it is `undefined` |
| CouchDb.GetDocumentsByForm | src/services/couchdb.js:104-117 | a failed query fails; otherwise the documents are those of the rows, in order |
| Dhis2.PostEvent | src/services/dhis2.js:82-91 | a post succeeds exactly when DHIS2 answers with status `OK` |
| Integration.Record | src/index.js:85-94 | a delivery records the id as `auto-generated` with response `OK`, keeps every other entry and moves the cursor only for a truthy `seq`, saving once per write |
| Integration.ProcessDeathReview | src/index.js:61-101 | a synced document is skipped; otherwise its event is posted when the transform succeeds; the ledger changes only on an `OK` answer, adding exactly that id, and the cursor moves only then and only to a truthy `seq` |
| Integration.PersistOrder | src/index.js:85-94 | the document is marked in the first save, the cursor written in the second, and the last save is the final ledger |
| Integration.ProcessIdempotent | src/index.js:63-67 | handing over again a document that the first pass delivered or found synced is skipped as synced, posts nothing and changes nothing |
| Integration.Backfill | src/index.js:138-153 | every document is either skipped or processed; the cursor does not move; the ledger gains exactly the ids delivered |
| Integration.BackfillCounts | src/index.js:138-153 | over documents with distinct ids, `skipped` counts the documents the ledger held when the backfill started, and `processed` counts every other one, whatever its transform or post led to |
| Integration.BackfillProcessesEveryNewDocument | src/index.js:138-153 | over new documents with distinct ids, every document counts as processed and none as skipped, whatever DHIS2 answers |
| Integration.BackfillDeliversFreshIds | src/index.js:141-149 | the backfill delivers only ids that were not synced before and that belong to the queried documents |
| Integration.BackfillDeliversOnce | src/index.js:141-149 | no id is delivered twice in one backfill, even when the query repeats a document |
| Integration.BackfillHistoricalData | src/index.js:131-160 | the backfill fails exactly when the view query fails; otherwise every returned row is counted and the cursor stays |
| Integration.BackfillIdempotent | src/index.js:141-145 | over documents that are all synced, the backfill skips every one and posts nothing |
| Integration.BackfillRerunNeverRedelivers | src/index.js:141-149 | a second backfill over the same documents never delivers an id the first one delivered |
| Integration.Feed | src/services/couchdb.js:65-76 | the feed posts and delivers at most once per change, whatever the callback; `FeedResume` and `FeedLastStep` state how it splits |
| Integration.Live | src/index.js:115-118 | the callback handed to `watchChanges`, with no contract of its own: the change's document and `seq` go to `processDeathReview` with the moment of that feed position; `TailKeepsLedger`, `TailCounts` and `TailCursorFromFeed` state what it does over a feed |
| Integration.Tail | src/index.js:115-118 | the live pass, with no contract of its own: `TailCounts` bounds its posts by the forwarded changes, `TailKeepsLedger` states that it adds exactly the delivered ids, and `TailReplayIsNoOp` that a replay over synced documents changes nothing |
| Integration.FeedResume | src/services/couchdb.js:65-76 | a stretch of the changes feed can be processed in two parts, the second resuming from the ledger the first left |
| Integration.FeedLastStep | src/services/couchdb.js:65-76 | after a stretch ending in a forwarded change, the ledger is the one the callback left for that change |
| Integration.TailCounts | src/index.js:115-118 | the live pass posts at most once per forwarded change and delivers at most once per post |
| Integration.TailKeepsLedger | src/index.js:115-118 | the live pass keeps every existing ledger entry and adds exactly the ids it delivered |
| Integration.TailCursorFromFeed | src/index.js:91-94 | after the live pass, the cursor is the old one or the `seq` of a forwarded change |
| Integration.TailReplayIsNoOp | src/index.js:63-67 | replaying changes whose documents are all synced posts nothing and leaves the ledger, cursor included, unchanged |
| Integration.TailCursorFollowsLastDelivery | src/index.js:91-94 | when changes are handled one at a time and the last forwarded change is delivered with a truthy `seq`, the cursor ends on it; when it is not delivered, the ledger is what the earlier changes left |
| Integration.TailDeliversFreshIds | src/index.js:63-94 | the live pass delivers only ids not synced before, each the id of a forwarded document |
| Integration.TailDeliversOnce | src/index.js:63-94 | when changes are handled one at a time, the live pass never delivers the same id twice |
| Integration.NewService | src/index.js:26-27 | a new service is not running and has no database handle |
| Integration.Initialize | src/index.js:33-54 | initialisation succeeds exactly when CouchDB and DHIS2 both answer, and only then sets `isRunning`; the handle exists once the URL parses |
| Integration.Start | src/index.js:106-125 | `start` refuses a service that is not running, fails without a handle, and otherwise opens the feed at the ledger's cursor |
| Integration.InitializeKeepsConsistent | src/index.js:33-54 | a running service always holds a database handle, so `start` after a successful `initialize` succeeds |
| Integration.BootSequence | src/index.js:174-200 | boot succeeds exactly when CouchDB and DHIS2 answer and the backfill query succeeds; the feed then runs over the backfilled ledger |
| Integration.BootOpensFeedAtLoadedCursor | src/index.js:181-185 | the backfill never moves the cursor, so the feed opens where the loaded ledger left off |
| TestMode.TestConfig | test-mode.js:56-59 | test mode files the event under the configured program and org unit, with no program stage |
| TestMode.ProcessDeathReview | test-mode.js:44-97 | the dry run skips synced documents, records each transformable one with its `medic-` id and `testMode`, and sets the cursor to the given `seq` |
| TestMode.DryRunLogsTheProductionEvent | test-mode.js:55-61 | the dry run logs an event exactly when the service, given the same configuration, would post one, and it is the same event apart from the `medic-` event id |
| TestMode.DryRunMovesCursorOnFalsySeq | test-mode.js:91 | with a `null` `seq`, the dry run sets the cursor to `null` where the service would keep it |
| TestMode.Live | test-mode.js:109-112 | the dry run's callback, with no contract of its own: `DryRunCursorFollowsLastLog` states what it leaves after each change of the feed |
| TestMode.DryRunCursorFollowsLastLog | test-mode.js:109-112 | in the dry-run feed, a change whose document is logged leaves the cursor on its `seq`, truthy or not; a change whose document is skipped or fails to transform leaves the ledger as the earlier changes left it |
| TestMode.Existing | test-mode.js:128-131 | one outcome per document; existing entries are kept; the cursor becomes `existing` once any document is recorded |
| TestMode.ExistingSkipsSynced | test-mode.js:46-49 | a document already in the ledger is skipped by `processExisting` |
| TestMode.ExistingRecordsSynced | test-mode.js:85-91 | every id `processExisting` adds belongs to a document whose outcome is recorded |
| TestMode.ProcessExisting | test-mode.js:121-138 | `processExisting` fails exactly when the view query fails; otherwise it gives one outcome per row |

## Left out

- Loading and saving the ledger file are left out. The ledger is passed in, and each write shows up as one element of `saves`. A file that fails to load starts from the initial ledger, and that is all the model says about loading.
- The clock, `new Date(reported_date).toISOString()` and DHIS2's answer are parameters. Within one document step, all three clock reads give one value: the event-date fallback, `syncedAt` and `lastSyncTime`. The program reads the clock three times, so in the program `syncedAt` and `lastSyncTime` need not be equal. The model does not interpret ISO date formatting.
- JsValues.ToJsString: a number renders as its full decimal numeral. JavaScript renders magnitudes of `1e21` or more in exponent form, such as `1e+21`, and cannot represent every integer above 2^53 exactly. Both are left out, because the numeric fields mapped here are ages and counts.
- Numbers are integers. Floating-point values, `NaN` and the JavaScript rendering of fractions are left out. Objects and arrays as field values are also left out, because the documents carry strings, numbers and booleans.
- The vocabulary lookups use only their own keys. JavaScript's inherited keys, such as `constructor`, would resolve to functions. That is left out.
- Case mapping covers ASCII letters only.
- The source does not await the callbacks the changes feed fires, so they could interleave. The model processes changes one at a time, in feed order. In the program, a second revision of a document that arrives while the first post is still in flight passes the synced check and is posted again. `TailDeliversOnce` and `TailCursorFollowsLastDelivery` therefore hold only for one-at-a-time handling.
- The 500 ms delays, logging, console output, signal handlers and `process.exit` are left out, because they do not affect any value the model tracks.
- The DHIS2 client set-up is left out: the DNS override, the TLS agent, authentication, `testConnection` and the HTTP error reporting. The connection test is a boolean, and the post's outcome is a `SinkResponse`.
- The view key and limit passed to CouchDB are left out. The response is given as rows. `limit` only bounds their number.
- The feed's `error` handler, `getDocument` and `getStatus` are left out. They log or read state without changing it.
- `query-dhis2-program.js` is not part of this model. It is a separate utility, not part of the service.
- CouchDb.Forwarded: its own contract states only the length bound. Which changes it forwards is stated by `CouchDb.ForwardedMembers`.
- FieldMapping.TransformToTrackerEvent: its own contract states only when it throws. The event's contents are stated by `EventHeader`, `EventDataValues`, `DataValuesCount`, `TrailingEntries`, `FieldEmittedIffPresent` and `EventDateFromDeathDate`.
