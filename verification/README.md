# Verified model of the MinIO archiver and the plaintext-payload scanner

This project models two parts of the Temporal server image in Dafny and proves what they keep over all
inputs and all runs.

**History archival.** `Archive` drives a resumable iterator over history blobs, checks every blob against the
request, heartbeats its cursor after each one and puts a single object at the last blob. A retry may restore
the cursor, but the batches gathered before the failure are gone: `ArchiveAttempt` says exactly what one
attempt does, `ArchiveOutcomes` tells it by events, statuses and codec alone, `ArchiveRuns` says what any
sequence of attempts leaves behind, and `HistoryArchiving` is the imperative form (iterator, progress manager,
store) proved equal to it. `Paging` and `HistoryRetrieval` say what a reader gets who follows the one-byte page
tokens of `Get`, and `PagingTermination` when that ever ends.

**Visibility.** `VisibilityArchiving` holds the archiver object: `Archive` puts one object for each allowed
record, `Query` is a nested loop over listing batches. `VisibilityWalk` is what a call and a whole token walk
mean, compared with filtering the listing. `Keys`, `Text` and `Calendar` are the object keys with their
decimal, zero-padded and Gregorian parts; `VisibilityOrder` puts keys, store and walk together.
`VisibilityBatches` tells from the listing alone which records a walk returns, and `VisibilityClient` is the
reader that repeats `Query` with its own tokens.

**Plaintext payloads.** `PlaintextRequests` flattens a frontend request into the payload lists that are
covered; `PlaintextLabels` tells from the request alone what is reported, under which labels, how often and in
which order; `PlaintextInterception` is the interceptor that walks the request and writes to counter and log.

`Configuration` parses the status allowlist that both archivers apply. `Storage` is the object store,
`Packing` stands for the JSON and gzip codecs, `Histories` has events, batches and blobs, `Filtering` and
`Wrappers` are helpers.

## Where documented intentions hold only under a condition

- An archived history is complete exactly when its upload started at a cursor that skips no batches
  (`StoredExactly`). Every proper suffix can become the stored object (`SuffixReachable`), and once the end
  cursor has been recorded before a failed put, restoring retries report success and write nothing for ever
  (`LostAfterFailedPut`, `LossReachable`, `RetryUploadsExactly`).
- A history key can be parsed back and belongs to one execution when namespace and run IDs hold no slash
  (`HistoryKeyRoundTrip`, `HistoryKeyInjective`); with a slash in a namespace ID two executions share a key
  (`SlashInNamespaceCollides`).
- The one-byte token rebuilds a history exactly up to the least multiple of the page size that is at least 256
  (`FollowExactly`). Beyond that a walk returns too much, and it ends at all exactly up to
  256 - gcd(page size, 256) + page size batches (`FollowEndsExactly`).
- The comment on `Query` says the next call resumes from the continuation token. The token points behind the
  batch in which the page filled up, so matching records after the fill point are skipped (`CollectedExactly`).
  A walk is complete exactly when no batch the server cuts straddles a multiple of the page size of matching
  records (`WalkCompleteExactly`). Without a filter, over readable objects and from a server that fills its
  batches up to a cap, that is so only when everything fits one page or the page size is a multiple of the cap
  (`ReadableCompleteByCap`). Two records of a namespace, archived into an empty store and read with pages of
  one, lose the later one (`ArchivedButLost`).
- Visibility keys list in time order exactly within spans where the digit count of the nanosecond timestamp is
  constant (`TimeOrderedExactly`); that covers 2001-09-09 to 2262. The date ranges that the same comment promises
  for prefixes hold for every close time (`PrefixSelectsDates`).
- The comment on `Query` calls the status filter case-insensitive. The status name is looked up as written, so
  `failed` is an error (`FilterNames`).
- The comment on `VisibilityPrefix` mentions narrowing by date, and the one on `eventTypeToStatus` a result of
  -1; the code does neither, and the model follows the code.

## Assumptions

- The upstream history iterator is a cursor over a fixed sequence of blobs, its saved state is the cursor, and
  (where a lemma asks for `WellMarked`) it marks exactly the final blob as last. Every read may deliver, find
  the history gone, or fail; every save and put may fail.
- `Codec` is any pair of encoder and compressor, each with a reader for its output; that the readers undo them
  (`Invertible`) is required only where a lemma reads objects back.
- A listing shows the keys in byte order and does not change during a walk. The server chooses the size of
  each batch: at least one key while any remain, at most the number asked for. A continuation token is a
  position, and a download outcome is fixed for each key during one walk (a walk downloads a key at most once).
- A `string` is a Go string with one `char` for each byte.

## Model

| member | source | states |
|---|---|---|
| HistoryArchiving.HistoryArchiver.Archive | images/server/archiver/history_archiver.go:80-157 | the loop over the iterator, with its heartbeats and the upload, ends and changes store and progress exactly as `Attempt` says, for every environment |
| HistoryArchiving.HistoryArchiver.BuildIterator | images/server/archiver/history_archiver.go:264-284 | the iterator starts at recorded progress when that exists, loads and restores, and at the beginning otherwise |
| HistoryArchiving.HistoryArchiver.Upload | images/server/archiver/history_archiver.go:159-206 | the packed batches are put under the history key, or the store is unchanged and the error says which step failed |
| HistoryArchiving.HistoryIterator.Next | images/server/archiver/history_archiver.go:112-124 | a delivered blob moves the cursor by one, a failed read leaves it |
| HistoryArchiving.ProgressManager.RecordProgress | images/server/archiver/history_archiver.go:286-300 | a save that fails is silent and keeps the earlier progress |
| ArchiveAttempt.ScanMeaning | images/server/archiver/history_archiver.go:104-157 | the loop's verdict, progress and gathered batches are those of its stopping place: the first blob that is gone, unreadable or mutated, or the first last-marked one |
| ArchiveAttempt.AttemptUploads | images/server/archiver/history_archiver.go:80-206 | exactly when an attempt uploads, and that it then stores exactly the batches from its start cursor to the end and otherwise changes no object |
| ArchiveAttempt.AttemptRecords | images/server/archiver/history_archiver.go:134-135 | progress is left alone or advanced to a cursor whose saving succeeded, past clean blobs only |
| ArchiveAttempt.AttemptRecordsEnd | images/server/archiver/history_archiver.go:134-151 | an attempt that gets to its upload has offered the end cursor for recording, whatever becomes of the upload |
| ArchiveAttempt.SuccessMeans | images/server/archiver/history_archiver.go:112-156 | no error means exactly: object put, final status not allowed, history gone, or nothing left to iterate; only the first writes |
| ArchiveAttempt.NothingLeftExactly | images/server/archiver/history_archiver.go:112-156 | an attempt does nothing and succeeds exactly when it starts at the end cursor |
| ArchiveAttempt.GuardsAcceptExactly | images/server/archiver/history_archiver.go:318-342 | for a contiguous history the per-blob guards together accept exactly the requests whose close failover version and NextEventID fit its last event |
| ArchiveAttempt.UploadedEvents | images/server/archiver/history_archiver.go:318-342 | for a contiguous history an upload has stored exactly the events after the skipped ones up to NextEventID - 1, versions up to the close failover version and the last equal to it |
| ArchiveAttempt.FreshUploadIsComplete | images/server/archiver/history_archiver.go:75-79 | an attempt from the beginning that uploads has stored the full history, events 1 to NextEventID - 1 |
| ArchiveOutcomes.UploadExactly | images/server/archiver/history_archiver.go:104-206 | an attempt gets to its upload exactly when URI and request are valid and every blob left is delivered and fits, the last event closing with an allowed status or none; encoding, compression and put then decide between the object and the error |
| ArchiveOutcomes.SkipsStatusExactly | images/server/archiver/history_archiver.go:132-147 | a history is skipped with a status exactly when all blobs left fit and the last event closes with that status, which is not allowed |
| ArchiveOutcomes.StopsAtFirstUnfit | images/server/archiver/history_archiver.go:112-130 | at the first blob that is gone, unreadable or does not fit, the attempt ends with that verdict, writes nothing and records no cursor beyond it |
| ArchiveOutcomes.RecordsExactly | images/server/archiver/history_archiver.go:132-133 | recorded progress is the furthest cursor reached past fitting blobs whose saving worked, or what it was |
| ArchiveOutcomes.RejectsExactly | images/server/archiver/history_archiver.go:93-102 | wrong scheme, missing bucket and invalid request are told apart, in this order, and change nothing |
| Histories.MutatedExactly | images/server/archiver/history_archiver.go:318-342 | a blob passes the check exactly when its last event is no newer than the request and, in the final blob, has its version and the number before NextEventID modulo 2^64 |
| Histories.TerminalStatusExactly | images/server/archiver/history_archiver.go:25-34 | the status of a blob is the one with which its last event closes, by the six pairs of event type and status |
| ArchiveRuns.RunStores | images/server/archiver/history_archiver.go:104-151 | after any run the object is the packed batches from the start cursor of the last upload to the end |
| ArchiveRuns.RunWithoutUpload | images/server/archiver/history_archiver.go:104-157 | a run in which no attempt uploads changes no object |
| ArchiveRuns.RunKeepsOthers | images/server/archiver/history_archiver.go:188-194 | no run touches an object other than the one history object |
| ArchiveRuns.StartWasRecorded | images/server/archiver/history_archiver.go:266-284 | every attempt starts at the beginning or at a cursor an earlier attempt recorded past clean blobs |
| ArchiveRuns.UploadedWasChecked | images/server/archiver/history_archiver.go:126-130 | when a run uploads, every blob of the history, skipped or stored, was found unmutated by that attempt or an earlier one |
| ArchiveRuns.StoredExactly | images/server/archiver/history_archiver.go:104-157 | skipped and stored batches make up the history; the object is the full history exactly when no batch was skipped |
| ArchiveRuns.StoredCompleteExactly | images/server/archiver/history_archiver.go:104-157 | for non-empty blobs the object is complete exactly when its upload started at cursor 0 |
| ArchiveRuns.WithoutRestoreComplete | images/server/archiver/history_archiver.go:104-151 | whatever fails, a run in which no attempt restores progress can only store the full history |
| ArchiveRuns.SuffixReachable | images/server/archiver/history_archiver.go:104-151 | for every cursor a two-attempt run exists that stores exactly the suffix from there |
| ArchiveRuns.ExhaustedSticks | images/server/archiver/history_archiver.go:112-156 | once the end cursor is recorded, any run of restoring attempts changes nothing |
| ArchiveRuns.LostAfterFailedPut | images/server/archiver/history_archiver.go:190-199 | after recorded end progress and a failed put, every restoring retry succeeds and writes nothing |
| ArchiveRuns.LossReachable | images/server/archiver/history_archiver.go:104-151 | for every history that can be archived an attempt exists that records the end cursor and fails to pack or put |
| ArchiveRuns.RetryUploadsExactly | images/server/archiver/history_archiver.go:266-284 | a retry in which everything works uploads unless it restores the end cursor, and only then |
| Paging.FollowExactly | images/server/archiver/history_archiver.go:344-367 | following tokens ends with the whole history exactly when it is no longer than the wrap point |
| Paging.FollowWithin | images/server/archiver/history_archiver.go:344-367 | up to the wrap point the walk is exact; beyond it a walk that ends returns at least 256 batches too many |
| Paging.PageExactly | images/server/archiver/history_archiver.go:344-367 | a page holds the batches from the token's index on, and its token is the low byte of the next index |
| Paging.WrapPointIsLeastMultiple | images/server/archiver/history_archiver.go:355-358 | the wrap point is the least multiple of the page size that is at least 256 |
| Paging.FollowDiverges | images/server/archiver/history_archiver.go:346-367 | above 255 batches plus a page every walk goes on for ever |
| PagingTermination.FollowEndsExactly | images/server/archiver/history_archiver.go:344-367 | following tokens from the start ever ends exactly when the history has at most 256 - gcd(page size, 256) + page size batches |
| PagingTermination.LastMultipleReached | images/server/archiver/history_archiver.go:344-358 | some call of an unending walk starts at the last multiple below 256 of gcd(page size, 256) |
| PagingTermination.GcdIsGreatest | images/server/archiver/history_archiver.go:355-358 | the recursively computed divisor divides both numbers, and every common divisor divides it |
| Paging.WalkCycles | images/server/archiver/history_archiver.go:346-367 | for page sizes that divide 256 and longer histories, call k starts at pageSize * k modulo 256, never ends and never returns a batch from 256 on |
| HistoryRetrieval.ReadBackExactly | images/server/archiver/history_archiver.go:210-260 | after any run, a token walk of `Get` returns exactly the stored suffix, if and only if it fits the wrap point |
| HistoryRetrieval.RoundTrip | images/server/archiver/history_archiver.go:210-260 | archive without restored progress, read back within the wrap point: exactly the history |
| HistoryRetrieval.RoundTripEvents | images/server/archiver/history_archiver.go:210-260 | for a contiguous history the batches read back hold exactly events 1 to NextEventID - 1 |
| HistoryRetrieval.DefaultVersionFinds | images/server/archiver/history_archiver.go:222-237 | a request without failover version is answered with the first page of the stored batches when the history was archived under version 0, and finds nothing otherwise |
| Keys.HistoryKeyRoundTrip | images/server/archiver/keys.go:9-20 | a parser recovers all four fields from a history key; the workflow ID may contain slashes |
| Keys.HistoryKeyCollision | images/server/archiver/keys.go:16-20 | for any IDs, two keys coincide exactly when the slash-joined IDs and the versions coincide |
| Keys.HistoryKeyInjective | images/server/archiver/keys.go:9-20 | without slashes in namespace and run IDs, distinct executions never share a key |
| Keys.HistoryKeyFormat | images/server/archiver/keys.go:9-20 | the history key has the documented format, for paths with and without a leading slash |
| Keys.VisibilityKeyFormat | images/server/archiver/keys.go:22-45 | visibility key and prefix have the documented format, with the UTC date on which the close time lies |
| Keys.VisibilityKeyCollision | images/server/archiver/keys.go:29-38 | two visibility keys coincide exactly when namespace, close time and first eight run-ID bytes do |
| Keys.PrefixSelectsNamespace | images/server/archiver/keys.go:40-45 | the prefix of a namespace is a prefix of a visibility key exactly for that namespace |
| Keys.PrefixSelectsDates | images/server/archiver/keys.go:26-37 | a prefix down to year, month or day is a prefix of a visibility key exactly for that namespace and that part of the UTC date on which the close time lies, told by the closed-form day number |
| Keys.PrefixSelectsDay | images/server/archiver/keys.go:26-37 | the prefix of day n after the epoch selects exactly the records of the namespace whose close time lies in its 86,400 seconds |
| Keys.EarlierKeyIsLess | images/server/archiver/keys.go:26-38 | with equal digit counts the earlier close time has the byte-wise smaller key, whatever the run IDs |
| Keys.KeyOrderFlipsAtPower | images/server/archiver/keys.go:26-38 | at every power of ten nanoseconds the order is reversed |
| Keys.TimeOrderedExactly | images/server/archiver/keys.go:26-38 | listing order is close-time order over an interval exactly when the digit count is constant on it |
| Keys.TimeOrderedSince2001 | images/server/archiver/keys.go:26-38 | so it is for all 64-bit nanosecond times from 10^18 on |
| Calendar.DateOfDayRoundTrip | images/server/archiver/keys.go:31-37 | the date counted from 1970-01-01 is the one with that closed-form day number |
| Calendar.InstantOnDate | images/server/archiver/keys.go:31-37 | an instant up to 86,400 seconds after the midnight of a date falls on that date |
| Calendar.DateMonotone | images/server/archiver/keys.go:26-38 | later days have later dates, year first |
| Text.PaddedOrder | images/server/archiver/keys.go:36-37 | zero-padded numbers that fit their width are ordered like the numbers |
| Text.PaddedInjective | images/server/archiver/keys.go:36-37 | zero-padded texts of any two integers are the same only for the same integer |
| Text.DecimalOrder | images/server/archiver/keys.go:36-37 | decimal texts of equal width are ordered like the numbers |
| VisibilityArchiving.VisibilityArchiver.Archive | images/server/archiver/visibility_archiver.go:90-165 | scheme, bucket, request, status, encoding, compression and put are checked in this order; only when all pass is the compressed encoding stored under the visibility key |
| VisibilityArchiving.VisibilityArchiver.Query | images/server/archiver/visibility_archiver.go:184-279 | validation errors, listing errors, and otherwise the page and token of `CallFrom`; whatever is returned shows a listed record, field by field, and has the status that the clause names |
| VisibilityArchiving.VisibilityArchiver.ReadBatches | images/server/archiver/visibility_archiver.go:210-276 | the loop over listing batches, with early exit and forwarded token, answers as `CallFrom` says |
| VisibilityArchiving.VisibilityArchiver.FillPage | images/server/archiver/visibility_archiver.go:240-264 | the inner loop takes the matching records of a batch, in order, up to the fill point |
| VisibilityArchiving.VisibilityArchiver.ReadRecord | images/server/archiver/visibility_archiver.go:245-263 | an object is returned exactly when it downloads, its attributes parse and the filter is absent or equals its status, and then shows it field by field |
| VisibilityArchiving.FateExactly | images/server/archiver/visibility_archiver.go:245-263 | which of its four fates an object meets, told by its download, the parse of its attributes, its status and the filter |
| VisibilityArchiving.FailureExactly | images/server/archiver/visibility_archiver.go:223-237 | a call fails with the listing error at its position, and only with an error of the server at or after it |
| VisibilityWalk.CallFromFits | images/server/archiver/visibility_archiver.go:223-276 | a page holds the first matching records of its stretch, at most PageSize; a page that is not full has seen the rest of the listing; the position grows |
| VisibilityWalk.FillInLastBatch | images/server/archiver/visibility_archiver.go:266-276 | the token points to the end of the very batch in which the page filled; less than a batch lies behind the fill point |
| VisibilityWalk.CallAddsUp | images/server/archiver/visibility_archiver.go:240-264 | every listed object was returned, failed to download, failed to convert, had the wrong status or lies after the fill point, and the counts add up |
| VisibilityWalk.WalkConserves | images/server/archiver/visibility_archiver.go:210-276 | the number of records a walk returns and the number it leaves behind add up to all matching records (a step; which ones they are says `CollectedExactly`) |
| VisibilityWalk.WalkExactly | images/server/archiver/visibility_archiver.go:167-183 | a walk equals the filtered listing exactly when the stretch each of its calls consumed holds at most a page of matching records (a step to `WalkCompleteExactly`) |
| VisibilityWalk.SmallListingFits | images/server/archiver/visibility_archiver.go:210-276 | at most a page of matching records in all makes every walk complete |
| VisibilityWalk.OneBatchListing | images/server/archiver/visibility_archiver.go:223-276 | a listing that fits one batch gives the first PageSize matching records and no token |
| VisibilityWalk.WalkKeepsOrder | images/server/archiver/visibility_archiver.go:223-276 | results stand at strictly growing listing positions: no object twice, listing order kept |
| VisibilityBatches.WalkCompleteExactly | images/server/archiver/visibility_archiver.go:167-183 | a token walk returns the filtered listing exactly when no batch the server cuts straddles a multiple of the page size of matching records, counted from the batch after the last full page; told without any call |
| VisibilityBatches.CollectedExactly | images/server/archiver/visibility_archiver.go:240-276 | the positions a walk returns are exactly the matching ones that lie behind no call's fill point |
| VisibilityBatches.GapsInLastBatch | images/server/archiver/visibility_archiver.go:266-276 | for every call of a walk, what lies between fill point and token is inside the call's last batch |
| VisibilityBatches.WalkServes | images/server/archiver/visibility_archiver.go:210-276 | the positions a walk returns are those served batch by batch: of each batch the first matching ones for which the page has room |
| VisibilityBatches.FullBatchesServe | images/server/archiver/visibility_archiver.go:210-276 | when every object matches and the server fills its batches, of the whole batches that one page consumes exactly the first PageSize objects are served, for every page and batch size |
| VisibilityClient.QueryAll | images/server/archiver/visibility_archiver.go:184-279 | repeating `Query` with its own tokens ends, and gives the collected pages of `Walk` at the batch size of the query, or its first error; every result shows a listed record of the wanted status |
| VisibilityClient.ReadablePositions | images/server/archiver/visibility_archiver.go:202-276 | without a filter, over readable objects, from a server that fills its batches up to a cap, position p is returned exactly when p modulo the span of a page in whole batches is below the page size |
| VisibilityClient.ReadableCompleteExactly | images/server/archiver/visibility_archiver.go:202-276 | such a walk is complete exactly when all objects fit one page or the page size is a multiple of the number of keys listed at once |
| VisibilityClient.ReadableCompleteByCap | images/server/archiver/visibility_archiver.go:210-218 | for page sizes below 2^30 that is: all objects fit one page, or the page size is a multiple of the cap |
| VisibilityClient.ArchivedIsReturnedExactly | images/server/archiver/visibility_archiver.go:184-279 | from any store, a record that was archived, not overwritten and can be read is in what a reader gets exactly when its listing position is served |
| VisibilityClient.ArchivedButLost | images/server/archiver/visibility_archiver.go:216-276 | two records of a namespace, closed between 2001 and 2262 and archived into an empty store, are both listed and readable, and a reader with pages of one gets the earlier and never the later, without an error |
| VisibilityOrder.ArchivalsAreWellKeyed | images/server/archiver/visibility_archiver.go:145-153 | archivals keep that every object of the bucket holds a record whose key it is stored under |
| VisibilityOrder.ArchivalsKeepRegular | images/server/archiver/visibility_archiver.go:145-153 | archivals for any namespaces keep that what can be read under one prefix are records of that namespace, each under its own key, and that they closed in the span, whatever else the store holds |
| VisibilityOrder.SurvivorIsStored | images/server/archiver/visibility_archiver.go:145-158 | a record that is not overwritten is what its object holds |
| VisibilityOrder.OverwrittenOnlyByTwin | images/server/archiver/visibility_archiver.go:145-153 | only a record of the same namespace, close time and short run ID overwrites one |
| VisibilityOrder.WalkInTimeOrder | images/server/archiver/visibility_archiver.go:202-276 | the results of a token walk over a namespace are non-decreasing in close time; only what stands under the prefix of the namespace has to be regular |
| VisibilityOrder.FindableIsFound | images/server/archiver/visibility_archiver.go:184-279 | a stored record that can be read and converted and has the wanted status is in the results exactly when its listing position is served batch by batch, and that is exactly when the position lies in no call's gap |
| VisibilityOrder.ArchiversAgree | images/server/archiver/history_archiver.go:137-151 | under one allowlist a fitting fresh history whose last event closes with status s gets to its upload exactly when a record of status s does; one that closes with no status always does |
| Configuration.ParseConfig | images/server/archiver/config.go:31-106 | accepted exactly when the four texts are there and every entry is the text of a status; then the texts are taken over and a status is allowed exactly when there are no entries or its text is one; otherwise the first fault is reported |
| PlaintextInterception.PlaintextInterceptor.Intercept | images/server/interceptors/plaintext_payload.go:61-69 | the handler's result is returned unchanged, and exactly the detections of the request were counted and logged one to one |
| PlaintextInterception.PlaintextInterceptor.Check | images/server/interceptors/plaintext_payload.go:71-124 | counter records equal the unencrypted positions of the flattening, in visiting order, for every request, and each has one warning with the same labels |
| PlaintextInterception.PlaintextInterceptor.CheckOperations | images/server/interceptors/plaintext_payload.go:105-115 | the loop over operations emits those of the inner requests in order |
| PlaintextInterception.PlaintextInterceptor.ScanCommands | images/server/interceptors/plaintext_payload.go:126-152 | the command loop emits those of each covered command in order |
| PlaintextInterception.PlaintextInterceptor.ScanScheduleAction | images/server/interceptors/plaintext_payload.go:154-166 | only a start-workflow action emits anything |
| PlaintextInterception.PlaintextInterceptor.ScanFailure | images/server/interceptors/plaintext_payload.go:168-205 | the recursion emits those of every node of the cause chain, outermost first |
| PlaintextInterception.PlaintextInterceptor.ScanPayloads | images/server/interceptors/plaintext_payload.go:207-249 | the loop counts and logs exactly the unencrypted payloads of a list |
| PlaintextRequests.MultiOperationComposes | images/server/interceptors/plaintext_payload.go:105-115 | a multi-operation detects the concatenation of what its inner requests would alone |
| PlaintextRequests.CauseChainComposes | images/server/interceptors/plaintext_payload.go:168-197 | a failure detects what its own node does and then what its cause does |
| PlaintextRequests.DetectedUnderOuterName | images/server/interceptors/plaintext_payload.go:105-115 | every detection is unencrypted and carries the outer operation name |
| PlaintextRequests.FlatteningCovers | images/server/interceptors/plaintext_payload.go:71-205 | the flattening holds exactly the payloads that stand in covered places, at any depth |
| PlaintextRequests.SilentExactly | images/server/interceptors/plaintext_payload.go:214-218 | nothing is emitted exactly when no covered payload has an unencrypted encoding |
| PlaintextLabels.DetectedExactly | images/server/interceptors/plaintext_payload.go:71-249 | a detection is reported exactly when a payload with its unencrypted encoding stands in a covered place, at any depth, with its namespace, workflow type, task queue, operation and location |
| PlaintextLabels.ReportedExactly | images/server/interceptors/plaintext_payload.go:71-249 | each detection is reported as often as there are payloads with its encoding in covered places with its labels |
| PlaintextLabels.ListOrder | images/server/interceptors/plaintext_payload.go:207-249 | a list is reported payload after payload |
| PlaintextLabels.PayloadReport | images/server/interceptors/plaintext_payload.go:207-249 | one payload is reported once, with its encoding, when that is json/plain or binary/plain, and an absent list not at all |
| PlaintextLabels.CommandOrder | images/server/interceptors/plaintext_payload.go:126-152 | commands are reported one after the other |
| PlaintextLabels.FailureOrder | images/server/interceptors/plaintext_payload.go:168-197 | a failure is reported with its encoded attributes, then its details, then its cause |
| PlaintextLabels.SignalOrder | images/server/interceptors/plaintext_payload.go:76-79 | the input of a workflow is reported before the signal that comes with it |
| PlaintextLabels.HeartbeatOrder | images/server/interceptors/plaintext_payload.go:120-123 | the failure of an activity is reported before its last heartbeat |

Smaller lemmas say of single functions what they mean: `GetExactly` for every answer of `Get`, `BatchSizeExactly` for
the 32-bit batch size, `PackRoundTrip` for the stored body, `FilterNames` for the status clause.

## Left out

- Get: a page size below one is rejected here; the upstream validator is not part of this model. The same holds for its other checks, which are a yes or no of the environment.
- Paginate: does not model 64-bit overflow of start index plus page size, which needs a page size within 255 of 2^63.
- VisibilityKey: close times outside 64-bit nanoseconds, for which Go leaves `UnixNano` undefined, print their exact value here.
- Archive: log lines, metrics handlers and the identity of wrapped errors are not modelled; outcomes name the reason instead, and a non-retryable marker is a flag of the outcome.
- QueryAll: the repository has no such reader; the loop stands for a caller who follows the tokens as the comment on `Query` says.
- Query: the regular expression that finds the status clause is an optional name given as input; objects added or removed during a walk are not modelled.
- Check: a request whose protobuf wrapper holds a nil inner message, on which the code panics, cannot be written in the model; the operation name is an input, as the function that cuts it from the method path is upstream code.
- The upstream iterator's reading and blob sizing, search-attribute parsing and the S3 client, credentials and HTTP bodies (`client.go`, `compress.go`).
- `images/server/auth`, `main.go`, `factory.go`, the poller and the scripts: wiring and short table lookups.
- Charts, dashboards, alerts and shell scripts: deployment configuration.
