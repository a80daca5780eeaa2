# Meristem: a verified model of the coordination core

Meristem keeps everything it knows in one event log. Each state change is an
event whose id is derived from its content, each table is a fold of the log,
and each write goes through a durable idempotency protocol. This project models
that core in Dafny and proves what it promises: over every input, every run and
every interleaving, not over chosen cases.

    dafny verify dfyconfig.toml

## How the model is built

Each module follows one component. Code that computes a value is a function;
code that changes fields or walks a list in a loop is a method, proved against a
function that says what it computes, and that function is then reasoned about in
lemmas. Concurrent protocols are step systems: a step is one database-visible
action of one participant, a run is any sequence of enabled steps, and faults and
crashes are steps like any other.

| module | component |
|---|---|
| `CanonicalJson`, `EventIdentity` | canonical encoding and content-derived event ids |
| `IdempotencyProtocol`, `IdempotencyAnswers`, `HandlerConvergence` | concurrent replay protocol, what it records and answers, and what retried handlers leave behind |
| `Projectors`, `Rebuild` | the event writer with its tables, and the rebuild that folds the log again |
| `EventLog`, `Cursor`, `Taxonomy`, `FeedPaging` | feed cursors, kind classes, batched scans and pages |
| `SseWire`, `FeedWatch` | the server-sent event stream, cut anywhere, with its reconnecting reader |
| `ApprovalGate`, `ApprovalOutcomes` | approvals, connector actions and the leased outbox |
| `Grants`, `Access`, `TreeWalk` | delegated authority, access checks and the tree walks under them |
| `Routes`, `NodeRefs`, `Uuids` | cross-node route selection, delivery and references |
| `JobQueue` | leased jobs |
| `ProviderPolicy`, `ProviderExport` | the context exporter and its independent reducer |
| `Reducers`, `ChecksProposal`, `WorkItems` | convergence verdicts and checks proposals |
| `Registry` | versioned definitions |
| `Options`, `Sequences`, `Strings`, `SortedStrings` | shared helpers |

## Assumptions

- A hash is assumed to tell apart only the inputs a statement compares; each
  statement names the pairs it needs.
- A transaction is atomic. Row locks and advisory locks hold until released.
- Rows of the log become visible in `seq` order.
- Idempotency scopes contain no `|`.
- The projection-cursor envelope and the marshalling of feed items are
  parameters: an injective codec of more than 8 bytes, and one non-empty line the
  client can decode. Stream lines fit the client's 1 MB scanner.
- The actor's access does not change while a watch lasts.
- Clocks, random UUIDs, HTTP answers, blob contents and content scanning are
  parameters or choices of a step.
- Text is a sequence of code points. Where bytes matter (canonical JSON, cursors,
  UUIDs, hash input) the model works on bytes.

## What the proofs found

- **Rebuild passes numbers through float64.** The rebuild decodes payloads without
  `UseNumber`, so it is not always the live tables: it is the live tables with each
  JSON column reread, or a failure when a number is out of range
  (`RebuildMirrorsLive`). It is exact exactly when every payload is readable and no
  column changes under rereading (`RebuildExactIff`). `ChangedNumberDiverges` shows
  a family that is not: the approval of a connector write keeps the body as it came
  in, so one number in it that float64 changes is enough. Connector actions always match, because their request has
  been through float64 once already (`ActionsRebuildExactly`). The comment in the
  source says that the two paths converge.
- **A connection error can look like a refused cursor.** `isInvalidCursorErr`
  matches any text containing `400`, so a refused connection to an address that
  contains it, such as port 4001, restarts the watch at the head
  (`ConnectionErrorTakenForRefusal`). `WatchGapIff` says exactly which watches miss
  an event, and `RestartLoses` that a restart behind a waiting one does.
- **An expired idempotency row is not refreshed** when the re-run of the handler
  answers as before: the recording collapses onto the old event
  (`RecordingMakesReplayable` is the exact condition).
- **One tropism version can be defined twice** when JSONB writes a number back
  differently from how it was sent and the caller sends what it read
  (`RewrittenBodyRepeatsVersion`). `VersionsInOrderIff` says that such a call is the
  only thing that breaks the numbering 1 to n, and breaks it for good.
- **The map comparison of the registry is not equality** on maps with zero entries
  (`ZeroEntryMisleads`); the normalizer removes them, and then it is
  (`GoMapsEqualIff`).
- **The kind prefilter drops matches** of a filter that names the administrative
  class without listing every administrative kind (`PrefilterCompleteIff`);
  normalized filters never do.
- **References are formatted back to themselves** only when the UUID is written in
  the 36-character lower-case form (`NodeRefs.FormatParsedIff`).
- **What is sent is a rereading of what was approved.** The body of an outgoing
  write is the body the approver saw with its numbers read through float64;
  `DispatchApproved` relates the two by the function `read`.
- **The depth query of delegation ends** exactly when no cycle is reachable from its
  root (`WalkEndsIff`); the membership walk always ends.
- **The reason given for an unknown classified check** follows the order of a Go
  map. Every other refusal has one reason, so submitting a rejected proposal again
  records nothing (`RepeatRecordsNothing`) unless it classifies an unknown check.

## Model

| member | source | states |
|---|---|---|
| `CanonicalJson.WriteUnambiguous` | internal/events/canonical.go:50-95 | the encoding of a value followed by any delimiting bytes determines the value and the bytes, for all nested values; without the delimiter numbers break it |
| `CanonicalJson.WriteInjective` | internal/events/canonical.go:50-95 | two values with one encoding are equal, whatever the order of their object keys |
| `CanonicalJson.QuoteUnambiguous` | internal/events/canonical.go:63-69 | an escaped string literal followed by anything determines the string and what follows |
| `CanonicalJson.EscapedIff` | internal/events/canonical.go:63-69 | exactly control characters, quotes, backslashes, angle brackets, ampersands and the two line separators are escaped; everything else is its UTF-8 bytes |
| `CanonicalJson.Utf8Means` | internal/events/canonical.go:63-69 | those bytes are the shortest form of section 3 of RFC 3629 and spell the code point |
| `CanonicalJson.SortedListingUnique` | internal/events/canonical.go:53-57 | a set of keys has one sorted listing, so the order a map is ranged in cannot show |
| `CanonicalJson.SortStrings` | internal/events/canonical.go:57 | sorting yields that one listing |
| `CanonicalJson.Buffer.WriteCanonical` | internal/events/canonical.go:50-95 | the writer appends exactly the encoding of the value to the shared buffer, whatever order the map is ranged in |
| `CanonicalJson.Buffer.WriteElements` | internal/events/canonical.go:74-84 | the array loop appends the items with a comma before every one but the first |
| `CanonicalJson.Buffer.WriteMembers` | internal/events/canonical.go:58-73 | the key loop appends the members in the given key order with commas between |
| `EventIdentity.PreimageIdentity` | internal/events/events.go:84-106 | for kinds without a colon, two specs hash the same bytes if and only if subject, kind and discriminator are equal and the payloads are equal as JSON values |
| `EventIdentity.EventIdIdentity` | internal/events/events.go:84-120 | with a hash that tells the two preimages apart, event ids are shared exactly by specs of one identity |
| `EventIdentity.ColonInKindCollides` | internal/events/events.go:94-107 | a kind with a colon can absorb a payload, so the restriction is needed: two different specs with the same hashed bytes |
| `EventIdentity.RequestHashIdentity` | internal/idempotency/middleware.go:508-524 | request bodies share a request hash exactly when they are equal as JSON values, an absent body being the empty object |
| `IdempotencyProtocol.InvPreserved` | internal/idempotency/middleware.go:83-319 | every step of every request keeps: the lock names whoever is in its critical section, and a handler runs only while its key has no live row |
| `IdempotencyProtocol.RunKeepsInv` | internal/idempotency/middleware.go:83-319 | that holds in every state of every run, with any lock-key function and any faults |
| `IdempotencyProtocol.MutualExclusion` | internal/idempotency/middleware.go:367-423 | at most one request per lock key, hence per idempotency key, is between taking and releasing the lock |
| `IdempotencyProtocol.WindowOpens` | internal/idempotency/middleware.go:265-319 | when a fresh recording commits, nobody else is in the critical section of its key and the row is in the table |
| `IdempotencyProtocol.ReplayWindow` | internal/idempotency/middleware.go:83-319 | from that commit to the row's expiry the row never changes and every undecided request of the key is answered from it: the recorded response for the recorded hash, a conflict for any other, unless an infrastructure fault actually hit it; the only exception is the HTTP winner of a redacted response |
| `IdempotencyProtocol.NoHandlerInWindow` | internal/idempotency/middleware.go:226-250 | no handler of the key runs at any point of that window |
| `IdempotencyProtocol.RecordingsSeparated` | internal/idempotency/middleware.go:464-499 | fresh recordings of one key are at least a full lifetime apart |
| `IdempotencyProtocol.RecordingMakesReplayable` | internal/idempotency/middleware.go:477-498 | a committed recording leaves a live row if and only if the same recording was never made before and has not already expired |
| `IdempotencyProtocol.UndisturbedRequestRecords` | internal/idempotency/middleware.go:83-319 | a first request that is left alone and answered with a status below 500 runs its handler, leaves its response as the live row for a full lifetime, answers from that row and holds no lock afterwards |
| `IdempotencyAnswers.RecordingIsAnswer` | internal/idempotency/middleware.go:464-499 | in every run a committed recording is the answer an earlier step of its own handler gave: its key, its hash, its status, below 500, and the body it answered with or the one it set in its place |
| `IdempotencyAnswers.RowIsRecording` | internal/idempotency/middleware.go:464-499 | a row changes only by a committed recording of its own key, and then says what was recorded, for a full lifetime |
| `IdempotencyAnswers.NoServerErrorRecorded` | internal/idempotency/middleware.go:142-144 | in every run all recordings added and all rows written since its start have a status below 500 |
| `IdempotencyAnswers.ServerErrorEnds` | internal/idempotency/middleware.go:258-263 | once a handler answers with 500 or more, rows and recordings stay, its request never records, and it ends with that error, or crashed, without the lock |
| `IdempotencyAnswers.FinishedHoldsNothing` | internal/idempotency/middleware.go:367-418 | in every run a request that is done holds no lock |
| `IdempotencyAnswers.FailuresAnswered` | internal/idempotency/middleware.go:321-345 | what every infrastructure fault and a failing handler answer, and that they record nothing |
| `IdempotencyAnswers.RedactedWinnerAnswers` | internal/idempotency/middleware.go:265-319 | a first HTTP request whose handler sets another body for the record answers with its own body and leaves the other one for replays |
| `HandlerConvergence.DiscriminatorIdentity` | internal/idempotency/context.go:63-72 | discriminators are one-to-one on (token, scope, key) as long as scopes contain no bar; keys may |
| `HandlerConvergence.SeedIdentity` | internal/idempotency/context.go:47-61 | the text a subject id is hashed from is one-to-one on the whole request and the label |
| `HandlerConvergence.CaptureSays` | internal/inbox/service.go:33-80 | a captured text leaves a captured work item with the trimmed text as body and a message with the text that names the item, under ids hashed from the request; a blank one nothing |
| `HandlerConvergence.EnqueueSays` | internal/crossnode/queue.go:154-188 | an enqueued command leaves one event on its target node with the command, its origin key and actor, discriminated by the request; an invalid target nothing |
| `HandlerConvergence.DifferentCallersDiffer` | internal/inbox/service.go:33-80 | requests that differ in token, scope or key never share an event |
| `HandlerConvergence.OwnDraftsDiffer` | internal/inbox/service.go:50-76 | the events of one execution do not collapse onto each other |
| `HandlerConvergence.SharedEvent` | internal/idempotency/context.go:47-69 | requests that share one event share all of them and come from one (token, scope, key), whatever their bodies |
| `HandlerConvergence.OwnExecution` | internal/events/events.go:152-183 | the first committed execution adds all events of its request, a later one nothing |
| `HandlerConvergence.OthersLeaveAlone` | internal/events/events.go:152-183 | executions of requests with other events leave the events of this one as they are, the same caller's other bodies included |
| `HandlerConvergence.Converges` | internal/crossnode/queue.go:154-188 | after any interleaving of executions, committed or cut off, reused keys included, the log holds for each request exactly the events of one execution in order, from the first commit of a request with these events, or none |
| `HandlerConvergence.FirstCommitIsOwn` | internal/inbox/service.go:33-80 | that first commit is an execution of the same (token, scope, key), and no earlier execution of the request itself committed |
| `HandlerConvergence.EventTable.Append` | internal/events/events.go:152-183 | the next append of a transaction adds its row unless its event id is in the table |
| `HandlerConvergence.EventTable.Transact` | internal/inbox/service.go:46-82 | a transaction cut off before any of its statements leaves the table as it was, otherwise it holds all its appends |
| `HandlerConvergence.EventTable.CaptureText` | internal/inbox/service.go:33-86 | capturing text is that transaction over the two events derived from the request; blank text is refused |
| `HandlerConvergence.EventTable.Enqueue` | internal/crossnode/queue.go:154-188 | enqueueing is that transaction over the one queued event; an invalid target is refused |
| `Projectors.Database.constructor` | internal/events/events.go:132-137 | an empty log folds to empty tables |
| `Projectors.Database.Execute` | internal/httpconnector/projectors.go:25-136 | the statement a projector runs has exactly the effect on the tables that the fold gives it |
| `Projectors.Database.Append` | internal/events/events.go:152-198 | a known id changes nothing; a new event is inserted and accepted exactly when it is well formed for its kind, and then changes exactly the row it is about, to what its own fields say; success keeps the tables the fold of the log |
| `Projectors.Database.Transact` | internal/events/events.go:145-198 | a transaction commits exactly when nothing aborts it and all its novel events are well formed, and then adds them and keeps the tables the fold of the log; otherwise it changes neither log nor tables |
| `Projectors.ProjectorWrites` | internal/httpconnector/projectors.go:25-136 | for every kind, the projector accepts exactly the events whose payload it can read, and leaves exactly the row they spell out |
| `Projectors.Created` | internal/approvals/projectors.go:26-62 | approval.created: a pending row with work item, summary, request and expiry of the payload, unless there is one |
| `Projectors.Decided` | internal/approvals/projectors.go:68-98 | approval.decided: status and decision are the payload's own "decision", approved or denied, with decider, reason and time of the event |
| `Projectors.Expired` | internal/approvals/projectors.go:102-124 | approval.expired: the row is expired, with actor, reason and time of the event |
| `Projectors.Requested` | internal/httpconnector/projectors.go:25-71 | action_requested: mode, verb, URL and request of the payload; a read waits for nothing, a write for the approval it names |
| `Projectors.ApprovedOrSent` | internal/httpconnector/projectors.go:75-136 | action_approved and action_sent: an action not yet sent is approved; one is sent with the status and body of the response |
| `Projectors.Recorded` | internal/idempotency/projectors.go:25-66 | idempotency.recorded: the row of token, scope and key gets hash, status, body and expiry of the payload, and keeps its creation time |
| `Rebuild.ReadEvents` | cmd/meristem/rebuild.go:258-291 | all payloads are decoded before any projector runs, and it fails exactly when one holds a number float64 cannot |
| `Rebuild.FoldEvents` | cmd/meristem/rebuild.go:229-300 | the rebuild succeeds exactly when the reread log folds, and then its tables are that fold |
| `Rebuild.DecodeReread` | internal/approvals/projectors.go:26-124 | a projector that accepts an event accepts it on the rebuild too, with its JSON columns reread |
| `Rebuild.ApplyReread` | internal/idempotency/projectors.go:25-66 | rereading commutes with what a projector does to its row |
| `Rebuild.RebuildMirrorsLive` | cmd/meristem/rebuild.go:258-300 | for every log, the rebuild is the live tables with each JSON column reread, or fails on an unreadable payload |
| `Rebuild.RebuildExactIff` | cmd/meristem/rebuild.go:270-284 | the rebuild equals the live tables if and only if every payload is readable and no JSON column changes under rereading |
| `Rebuild.ActionsRebuildExactly` | internal/httpconnector/projectors.go:25-71 | connector actions rebuild to their live rows whatever numbers the other tables hold |
| `Rebuild.StoredRequestStays` | internal/httpconnector/service.go:597-606 | a request that was reread when it was stored is not changed by being reread again |
| `Rebuild.ChangedNumberDiverges` | internal/httpconnector/service.go:166-182 | the approval of one connector write whose body holds, at any depth, a number that float64 changes is enough for the rebuild to differ |
| `Rebuild.EffectIsLocal` | internal/projections/projections.go:79-86 | the effect of an event depends on its own row alone and leaves every other row alone |
| `Rebuild.FoldRow` | internal/projections/projections.go:79-86 | a row of the fold is the fold of the events that touch it |
| `Rebuild.RowOrderSuffices` | cmd/meristem/rebuild.go:245-253 | any two orders of the log that agree on the order of each row's events fold to the same tables |
| `Rebuild.SwapNeighbours` | cmd/meristem/rebuild.go:293-297 | swapping adjacent events that touch different rows never changes the fold |
| `Cursor.DecodeEncode` | internal/feed/cursor.go:57-67 | unpadded base64url decoding inverts encoding for byte strings of every length |
| `Cursor.AlphabetIs` | internal/feed/cursor.go:57-60 | the 64 characters are those of section 5 of RFC 4648, in order |
| `Cursor.GroupIsNumber` | internal/feed/cursor.go:57-60 | three bytes and the four digits they are written in are one number; shorter groups are padded with zero bits |
| `Cursor.PlainRoundTrip` | internal/feed/cursor.go:57-79 | a plain cursor decodes to its position for every non-negative int64 and is refused for every negative one |
| `Cursor.ProjectionRoundTrip` | internal/feed/cursor.go:88-146 | a projection cursor decodes to its position, name and version, and is no plain cursor |
| `Cursor.PlainIsNoProjectionCursor` | internal/feed/cursor.go:124-146 | no plain cursor is accepted as a projection cursor |
| `Cursor.IssuedCursor` | internal/feed/cursor.go:98-122 | an issued cursor is accepted by the feed it was issued for with its position, and refused as a mismatch by the plain feed and by every other projection or version |
| `Cursor.CursorIsOneWord` | internal/feed/cursor.go:57-96 | a cursor is non-empty and contains no line break |
| `Taxonomy.KnownKindsAreListed` | internal/domain/models.go:115-165 | the listed kinds are exactly the known kinds |
| `Taxonomy.TaxonomyTotal` | internal/feed/taxonomy.go:90-141 | a kind has no class exactly when it is unknown |
| `Taxonomy.IncludedIff` | internal/feed/feed.go:30-72 | the unprojected feed shows every known kind but those of tokens, idempotency, nodes and commands |
| `Taxonomy.DynamicMeans` | internal/feed/taxonomy.go:143-166 | an appended event is a decision exactly when its inner kind is one of coordination, and progress otherwise, unreadable payloads included |
| `Taxonomy.ListedKinds` | internal/feed/taxonomy.go:185-195 | the first loop collects the listed kinds once each |
| `Taxonomy.ClassKinds` | internal/feed/taxonomy.go:196-207 | the second loop adds exactly the kinds a class of the filter asks for |
| `Taxonomy.QueryKinds` | internal/feed/taxonomy.go:184-209 | the query kinds are the queried kinds, without repetition |
| `Taxonomy.PrefilterCompleteIff` | internal/feed/taxonomy.go:176-209 | the prefilter admits every event the filter matches, for every payload, if and only if the filter does not name the administrative class or lists every administrative kind |
| `Taxonomy.NormalizedFilter` | internal/feed/taxonomy.go:40-63 | a normalized filter has a complete prefilter, matches what the filter as given matches, and never an administrative or unknown kind |
| `Taxonomy.NormalizedIff` | internal/feed/taxonomy.go:40-63 | a projection filter is accepted exactly when it names something, and nothing unknown or administrative |
| `EventLog.CutStable` | internal/feed/feed.go:464-535 | a later snapshot is cut at the same row by a position that was visible before |
| `FeedPaging.ScanBatch` | internal/feed/feed.go:474-505 | one query and its row loop find exactly what the filter shows in the rows passed, stopping one match past the limit |
| `FeedPaging.ScanLoop` | internal/feed/feed.go:464-510 | the loop over batches finds all matches up to its end although rows may be appended between two queries |
| `FeedPaging.CutPage` | internal/feed/feed.go:512-535 | the page is the first `limit` matches, `has_more` is exact, and the next cursor stands where the next page starts |
| `FeedPaging.QueryAfter` | internal/feed/feed.go:464-535 | the batched, prefiltered scan returns the naive page of the last snapshot it read |
| `FeedPaging.ListBatch` | internal/feed/feed.go:168-213 | one newest-first query walks back over the matches below a row |
| `FeedPaging.List` | internal/feed/feed.go:168-213 | the listing is the last `limit` matches of the first snapshot read, newest first |
| `FeedPaging.StartVisible` | internal/feed/feed.go:373-432 | an accepted start never lies behind what is visible |
| `FeedPaging.IssuedCursorResumes` | internal/feed/feed.go:410-432 | a cursor issued for a visible row or for the start is accepted again for the same feed, at the same position |
| `FeedPaging.StartIs` | internal/feed/feed.go:373-432 | without a cursor a reader starts behind the last visible row; an issued one starts it at its position when that is 0 or of a visible row, is refused as invalid otherwise, and as a mismatch by every other feed |
| `FeedPaging.PrefilterLosesNothing` | internal/feed/feed.go:464-481 | for every filter the service uses, the kinds in the query lose nothing the filter shows |
| `FeedPaging.EmptyPageSkipped` | internal/feed/feed.go:313-338 | after an empty page, the page behind it is the page from the original start |
| `FeedPaging.PollPages` | internal/feed/feed.go:313-338 | polling on empty pages returns the naive page of the last snapshot, and an empty one only after every poll |
| `FeedPaging.ReadPage` | internal/feed/feed.go:264-339 | a page is refused exactly as its start is; otherwise it is the naive page after the start, of a snapshot no older than the request, with a cursor for where it ends |
| `FeedPaging.PagesExact` | internal/feed/feed.go:264-339 | following `next_cursor` with appends in between, the pages concatenate to exactly the matches between the start and where the walk stands |
| `FeedPaging.PagesComplete` | internal/feed/feed.go:464-535 | the last page says there is no more if and only if the walk has seen every match visible to it |
| `SseWire.TextIsFormat` | internal/api/sse.go:188-236 | a frame and a keepalive are the printed text |
| `SseWire.ScanLine` | cmd/meristem/feed.go:406-415 | one scanner step returns the next line and where the one behind it starts |
| `SseWire.ConsumeStream` | cmd/meristem/feed.go:378-467 | the line loop hands over exactly what the line-by-line specification does, and its last id |
| `SseWire.ChunkRead` | cmd/meristem/feed.go:414-456 | a whole frame hands over exactly its id and data, a keepalive nothing |
| `SseWire.CutHasNoBlank` | internal/api/sse.go:219-236 | a chunk cut short anywhere contains no blank line, so it cannot be dispatched |
| `SseWire.ReadCut` | cmd/meristem/feed.go:378-481 | a stream cut after any number of characters hands over exactly the frames that arrived whole, in order, and the resume id is that of the last |
| `FeedWatch.WriteFrames` | internal/api/sse.go:160-177 | a batch writes one frame per item the actor may see, in order |
| `FeedWatch.Poll` | internal/api/sse.go:141-200 | one turn of the server loop sends the visible rows of the next stretch and passes at least a full batch of what is visible, or all of it; when it passes nothing it sends a keepalive or nothing |
| `FeedWatch.Serve` | internal/api/sse.go:141-201 | from a resolved start the stream carries exactly the visible rows of a stretch of the log, whatever is appended meanwhile, and enough turns carry every row visible when it started |
| `FeedWatch.CutDelivers` | cmd/meristem/feed.go:378-467 | cut after any number of characters, the client is handed exactly the frames that arrived whole: the visible rows of a shorter stretch from the same start; it resumes behind the last |
| `FeedWatch.ConnectsAt` | internal/feed/feed.go:410-432 | a reconnect starts right behind the last row handed over, or at the head without a resume id, and is never refused |
| `FeedWatch.Connect` | cmd/meristem/feed.go:170-185 | one streamed attempt adds exactly the visible rows from that start, all the server had turns for when it is not cut, and ends with the id of the last |
| `FeedWatch.Try` | cmd/meristem/feed.go:163-204 | one turn of the client loop: what it hands over and from where, the resume id it keeps, and that it stays resumable unless its error was taken for a refused cursor |
| `FeedWatch.Watch` | cmd/meristem/feed.go:161-205 | over any sequence of attempts each takes such a turn; the client is handed visible events in log order, none twice, its resume id is never refused, nothing visible is missing from the first event on as long as no error was taken for a refused cursor, and in any case something is missing exactly when a connection passed over it |
| `FeedWatch.GapIff` | cmd/meristem/feed.go:187-192 | what a further connection adds leaves a gap if and only if there was one before or something visible lies between the last row handed over and the new start |
| `FeedWatch.WatchGapIff` | cmd/meristem/feed.go:161-205 | over a whole watch something visible is missing between the first row handed over and the last if and only if some connection started behind it and handed something over |
| `FeedWatch.RestartLoses` | cmd/meristem/feed.go:187-192 | a watch that restarts behind a waiting visible event and goes on loses that event |
| `FeedWatch.InvalidCursorErrorIff` | cmd/meristem/feed.go:272-278 | an error is taken for a refused cursor exactly when its text contains "invalid_cursor" or "400" somewhere |
| `FeedWatch.RefusalRecognized` | cmd/meristem/feed.go:389-404 | an answer with status 400 is recognized as a refusal, whatever else it says |
| `FeedWatch.ConnectionErrorTakenForRefusal` | cmd/meristem/feed.go:272-278 | a refused connection is taken for a refused cursor whenever the address dialled contains 400 |
| `ApprovalGate.StepKeeps` | internal/httpconnector/projectors.go:25-136 | no step changes the content of an action, removes an event, or changes an approval that has left pending |
| `ApprovalGate.GatedPreserved` | internal/httpconnector/service.go:137-222 | every write action names an approval created with it, which shows that action with that verb, URL and body for that requester |
| `ApprovalGate.BackedPreserved` | internal/httpconnector/service.go:224-282 | every approved event describes its action and is backed by an approved approval, and every outbox row by such an event |
| `ApprovalGate.WorkersPreserved` | internal/httpconnector/service.go:284-395 | what each worker has read before it acts still holds when it acts, across all interleavings and crashes |
| `ApprovalGate.InvPreserved` | internal/httpconnector/service.go:137-395 | every enabled step keeps all of these together |
| `ApprovalGate.RunKeepsInv` | internal/httpconnector/service.go:137-395 | they hold in every state of every run with service-derived ids |
| `ApprovalGate.ApprovalFinal` | internal/approvals/service.go:205-327 | an approval leaves pending at most once and never changes after, and what it asks for never changes |
| `ApprovalGate.OneOutboxRow` | internal/httpconnector/projectors.go:75-109 | an action has at most one outbox row in every reachable state |
| `ApprovalGate.ApprovedByDecision` | internal/approvals/service.go:205-272 | an approved approval was decided earlier in the run by a non-root human other than its requester, while it was pending |
| `ApprovalGate.SendingIsApproved` | internal/httpconnector/service.go:284-370 | a worker about to send either sends a GET or HEAD or an approved write with the content of its row |
| `ApprovalGate.DispatchApproved` | internal/httpconnector/service.go:284-370 | in every run each request sent with another verb was let through by an earlier decision "approved" of a non-root human other than the requester, on a pending approval that showed this action, verb, URL and body |
| `ApprovalGate.ApprovedWriteIsSent` | internal/httpconnector/service.go:137-316 | the gate does open: a write requested, approved by another non-root human, enqueued and dispatched is sent exactly once with the verb, URL and body asked for, and is marked sent and delivered |
| `ApprovalOutcomes.DecisionCloses` | internal/approvals/service.go:205-272 | a non-root human other than the requester closes a pending approval on an open item as approved with the item running, or as denied with the item failed; any other decision changes nothing |
| `ApprovalOutcomes.ExpiryCloses` | internal/approvals/service.go:274-327 | expiring a pending approval closes it as expired with the item blocked; a closed one stays as it is |
| `ApprovalOutcomes.PlainApprovalWaits` | internal/approvals/service.go:136-203 | an approval asked for on its own is pending, shows what was asked and holds its item; an ended item refuses it |
| `ApprovalOutcomes.WriteWaits` | internal/httpconnector/service.go:137-222 | a write request leaves its approval pending, its item held and its action waiting, with what was asked for |
| `ApprovalOutcomes.ReadIsSent` | internal/httpconnector/service.go:137-222 | a read is sent at once as it was asked for, without an approval |
| `ApprovalOutcomes.RequestRefused` | internal/httpconnector/service.go:465-482 | a request on a missing or ended item changes nothing |
| `ApprovalOutcomes.ClosedNeverSent` | internal/httpconnector/service.go:284-316 | in every run, once an approval is denied or expired no write that names it is sent |
| `ApprovalOutcomes.DeniedNeverSent` | internal/approvals/service.go:239-259 | so a write that was denied while it was pending is never sent |
| `ApprovalOutcomes.ClaimsSeparated` | internal/httpconnector/service.go:484-524 | in every run two claims of one outbox row are at least the first lease apart, and a delivered row is not claimed |
| `ApprovalOutcomes.AbandonedIsReclaimed` | internal/httpconnector/service.go:484-524 | a send without an answer, and a crash, leave the row leased and the action as it was, and it can be claimed again when the lease is over |
| `TreeWalk.Subtree` | internal/access/access.go:342-351 | the deduplicating walk ends on every finite graph and finds exactly what any root reaches |
| `TreeWalk.WalkEndsIff` | internal/grants/service.go:531-563 | the walk that keeps one row per path ends if and only if no cycle is reachable from its root |
| `TreeWalk.MinDepth` | internal/grants/service.go:531-563 | the depth is known exactly when the target is reachable, and then it is the shortest distance |
| `TreeWalk.InTree` | internal/grants/service.go:489-505 | the single-item check is reachability |
| `TreeWalk.TreeRelation` | internal/grants/service.go:469-487 | the relation is same or descendant exactly when some root reaches the target |
| `TreeWalk.RelationMeans` | internal/grants/service.go:469-487 | unknown exactly without roots, outside exactly when no root reaches the target; otherwise the first root that reaches it decides: same when it is the target, descendant when it is above it |
| `TreeWalk.InsideIff` | internal/grants/service.go:469-487 | the early-exit loop over the roots and its specification agree with reachability from any root |
| `TreeWalk.DelegationDepth` | internal/grants/service.go:531-563 | where the query ends, the depth is known exactly when the relation is same or descendant, and is the least over all roots |
| `Access.TreeRootsAre` | internal/access/access.go:366-379 | the roots are exactly the non-nil UUIDs of the tree scopes |
| `Access.ScopesAllow` | internal/access/access.go:139-178 | what a token may read and write, by its scopes as written: everything for root, unscoped and `_all`, and otherwise what a tree scope reaches, a write scope reading too |
| `Access.FeedScopesAllow` | internal/access/access.go:180-236 | what a token is fed: everything for root, unscoped and feed.read, and with feed.read_assigned what hinges on an item its trees reach |
| `Access.InAnyTrees` | internal/access/access.go:333-364 | one walk over all roots answers for every candidate as the single-item check would |
| `Access.FilterWorkItems` | internal/access/access.go:115-154 | the batch filter keeps, in order, exactly the items the single-item check lets through, and is denied exactly without a reading scope |
| `Access.FilterFeedItems` | internal/access/access.go:180-236 | one walk over all anchors keeps, in order, exactly the items one of whose own anchors is visible |
| `Grants.GrantMeans` | internal/grants/reducer.go:65-126 | a grant implies a live, scoped, non-root agent parent, a target inside its trees within the budget, covered scopes, and human approval for writing |
| `Grants.GrantedIff` | internal/grants/reducer.go:65-126 | a request is granted if and only if none of the sixteen reasons stands against it |
| `Grants.FirstAgainst` | internal/grants/reducer.go:65-126 | otherwise the first reason in the order of the checks is given, as a denial for a missing or revoked parent, a missing root or an unknown template, and as an escalation for every other |
| `Grants.GrantScopes` | internal/grants/reducer.go:121-147 | the granted scopes are exactly those of the named template for the requested root |
| `Grants.Evaluate` | internal/grants/service.go:291-341 | evaluation hands the reducer the tree relation of the parent's roots and the shortest distance from any of them, and refuses exactly a nil parent, a nil item or a blank scope |
| `Grants.ChildMay` | internal/grants/reducer.go:128-147 | a granted token reads exactly what the root of its tree reaches, writes exactly that as a worker and nothing otherwise, and is fed exactly what hinges on something there |
| `Grants.ChildTreeInside` | internal/grants/reducer.go:149-162 | every item in the child's tree is in one of the parent's, on the graph of the grant and on every later one |
| `Grants.ParentHolds` | internal/grants/reducer.go:163-175 | the parent itself holds the named scopes of the template or the wider feed scope |
| `Grants.GrantNarrows` | internal/grants/reducer.go:65-176 | what a granted token can read, write and see in the feed is contained in what its parent can, on every graph the relations grow into, and one that can write anything was granted as a worker with human approval |
| `Grants.ChainNarrows` | internal/grants/service.go:291-341 | along every chain of grants that holds against every ancestor, and a token that can write anything was granted as a worker for an item whose human review had approved it |
| `NodeRefs.ParseFormat` | internal/domain/qualifiedref.go:52-75 | every formatted reference parses back to itself |
| `NodeRefs.ParseIff` | internal/domain/qualifiedref.go:20-67 | parsed are exactly a label of 1 to 32 lower-case letters, digits and inner dashes, a colon and a UUID, or a UUID alone |
| `NodeRefs.FormatParsedIff` | internal/domain/qualifiedref.go:52-75 | a parsed reference is formatted back to the same text if and only if its UUID is written in the 36-character lower-case form |
| `Routes.RouteKeyInjective` | internal/crossnode/select.go:111-116 | for valid node ids a route key names one kind, target and hop |
| `Routes.AddHops` | internal/crossnode/select.go:30-98 | a relay loop adds its hops that are not cooling down, in order |
| `Routes.SelectRoutes` | internal/crossnode/select.go:30-98 | selection is direct, then relays, then queues, without the routes that are cooling down |
| `Routes.SelectionIs` | internal/crossnode/select.go:30-98 | the selection is the direct route, then one relay and then one queue per usable hop in registered order, with URL and key of each, and nothing else; without any it fails |
| `Routes.UsableIff` | internal/crossnode/select.go:48-109 | a hop is usable exactly when its node is registered with a URL and its own key did not fail within the last minute |
| `Routes.LastRegistered` | internal/crossnode/select.go:31-34 | of several nodes with one id the last counts |
| `Routes.UnknownIff` | internal/crossnode/select.go:35-38 | a target is unknown exactly when no node has its id |
| `Routes.SelectedAreKeyed` | internal/crossnode/select.go:48-89 | every selected candidate carries the key of its own route, through a hop registered for the target if through any |
| `Routes.Deliver` | internal/crossnode/deliver.go:58-99 | delivery stops at the first post that answers with a status below 500, tries nothing behind it, and cools down exactly the candidates before it, each of which failed or answered 500 or more |
| `Routes.WarmAfter` | internal/crossnode/select.go:100-109 | within the window, cooling down some routes removes exactly those from a list of candidates |
| `Routes.SelectAfterDeliver` | internal/crossnode/deliver.go:58-99 | selecting again within 60 seconds of a delivery is the old selection in the same order without exactly the routes that failed; from then on it is the old selection |
| `Routes.NamedIsSameRoute` | internal/crossnode/select.go:100-116 | two candidates share a cooldown exactly when they are the same route to the same target |
| `JobQueue.InvPreserved` | internal/jobqueue/jobqueue.go:56-116 | every step keeps: leases of one job are disjoint, attempts count claims, and a held row is held once and was ready |
| `JobQueue.LeasesDisjoint` | internal/jobqueue/jobqueue.go:87-116 | in every run an earlier lease of a job has run out when a later one begins, and attempts equals the number of claims |
| `JobQueue.TerminalForever` | internal/jobqueue/jobqueue.go:152-168 | a terminal job keeps its row and is never claimed again |
| `JobQueue.ClaimsAreDisjoint` | internal/jobqueue/jobqueue.go:53-86 | two open claims hold different jobs |
| `JobQueue.PassedOverIsHeld` | internal/jobqueue/jobqueue.go:87-100 | a claim passes over an earlier ready row only while another worker holds it |
| `JobQueue.ClaimHandsOut` | internal/jobqueue/jobqueue.go:56-116 | as long as some job is waiting, a claim leases the oldest waiting one from now for the lease asked for, counts the attempt and changes nothing else |
| `JobQueue.RollbackLetsGo` | internal/jobqueue/jobqueue.go:66-70 | a rolled-back claim leaves the jobs alone and lets its row go |
| `JobQueue.LeaseRunsOut` | internal/jobqueue/jobqueue.go:89-96 | a leased job waits again exactly from the moment its lease has run out |
| `JobQueue.MarkEnds` | internal/jobqueue/jobqueue.go:152-168 | marking ends a leased job as asked and leaves any other as it is |
| `ProviderPolicy.MatchPrefix` | internal/providercontext/policy.go:140-150 | a literal followed by a star matches what starts with it |
| `ProviderPolicy.MatchSuffix` | internal/providercontext/policy.go:140-150 | a star followed by a literal matches what ends with it |
| `ProviderPolicy.MatchInfix` | internal/providercontext/policy.go:140-150 | a literal between stars matches what contains it |
| `ProviderPolicy.MatchMeans` | internal/providercontext/reduce.go:216-218 | what every pattern of literals, stars and question marks matches: its characters one by one, and two parts what splits between them |
| `ProviderPolicy.AllowMeans` | internal/providercontext/policy.go:132-157 | an allow entry covers what is at or below it, or with wildcards what matches as a whole or by its base name; a blank one nothing |
| `ProviderPolicy.DenyMeans` | internal/providercontext/policy.go:161-191 | a deny entry covers besides every path with a part that is the named directory, or that a bare entry names or matches |
| `ProviderPolicy.SegmentsIff` | internal/providercontext/policy.go:161-191 | the segments of a path are the only slash-free texts that make it up |
| `ProviderPolicy.CleanMeans` | internal/providercontext/policy.go:109-130 | a clean entry is a relative path below the root without a part that leads upwards, whichever way its slashes lean |
| `ProviderPolicy.DenyIsWider` | internal/providercontext/policy.go:154-191 | whatever an entry covers on the allow side it covers on the deny side |
| `ProviderPolicy.CoveredIsListed` | internal/providercontext/reduce.go:175-187 | a deny list covers a built-in secret only by listing it |
| `ProviderPolicy.SecretsDenied` | internal/providercontext/policy.go:80-87 | once the built-in secrets are covered, every path with a secret segment at any depth is denied |
| `ProviderExport.Plan` | internal/providerexport/plan.go:48-96 | the plan keeps exactly the allowed, undenied regular text paths in listing order, records why others were left out, and refuses exactly an unhygienic policy |
| `ProviderExport.OneMoreEntry` | internal/providerexport/plan.go:48-84 | of the listing exactly the allowed, undenied, regular entries with text paths are kept, in order, and every other allowed entry is left out with its reason |
| `ProviderExport.HygienicIff` | internal/providerexport/plan.go:48-60 | a policy is refused unless it allows something, is clean throughout and lists every built-in secret |
| `ProviderExport.SelectedAllowed` | internal/providerexport/plan.go:48-84 | every selected path comes from the listing and passed every check |
| `ProviderExport.ReadAndScan` | internal/providerexport/export.go:92-120 | the loop reads the planned paths in order, succeeds exactly when every blob is readable and clean, keeps all of them then, and otherwise stops at the first that is not, with its complaint |
| `ProviderExport.Export` | internal/providerexport/export.go:44-157 | an export succeeds exactly when the policy is hygienic, names the redaction and every selected blob is readable and clean; it is then assembled from all selected files, unchanged; a refused policy reads nothing |
| `ProviderExport.NoDeniedRead` | internal/providerexport/export.go:66-120 | whatever the outcome, every blob read is of an allowed and undenied path |
| `ProviderExport.NoSecretRead` | internal/providerexport/export.go:66-120 | no path read or exported has a secret segment at any depth |
| `ProviderExport.ExportPassesReduce` | internal/providercontext/reduce.go:59-131 | an export never fails the reducer's hygiene, deny and manifest checks, and with an open anchor fails its redaction check exactly when the generator or redaction id is not registered |
| `ProviderExport.ReduceIs` | internal/providercontext/reduce.go:59-173 | the verdict follows from the first of the eight checks with something against the export: rejected, or escalated for a blocking review or an unapproved direct launch, and accepted if and only if nothing is |
| `ProviderExport.FramedInjective` | internal/providerexport/manifest.go:58-71 | the bytes a bundle digest is taken of determine the paths, modes and content sums in order |
| `Reducers.MajorityVote` | internal/convergence/reducers.go:41-80 | the counting loop gives the verdict of the pass and fail counts |
| `Reducers.MajorityMeans` | internal/convergence/reducers.go:56-80 | accepted, rejected or escalated exactly on a strict majority of passes, of failures, or a tie |
| `Reducers.Unanimous` | internal/convergence/reducers.go:100-137 | the counting loop gives the strict verdict of the pass and fail counts |
| `Reducers.UnanimousMeans` | internal/convergence/reducers.go:100-137 | accepted exactly when somebody voted and every vote passes, rejected exactly when some vote fails, escalated exactly when nobody voted |
| `Reducers.VotesPermuted` | internal/convergence/reducers.go:41-137 | both votes give the same disposition and reason for every permutation of the signals |
| `Reducers.Collapse` | internal/convergence/reducers.go:218-250 | the map loop leaves a name failed when any signal failed it, and passed when one passed and none failed it |
| `Reducers.AllPassChecklist` | internal/convergence/reducers.go:218-283 | the loops compute the checklist verdict |
| `Reducers.ChecklistMeans` | internal/convergence/reducers.go:218-283 | accepted exactly when something is required and every required name has a passing and no failing signal; escalated exactly when nothing is required |
| `Reducers.ChecklistPermuted` | internal/convergence/reducers.go:218-283 | the checklist gives the same disposition and reason for every permutation |
| `Reducers.ChecksProposal` | internal/convergence/reducers.go:290-324 | the loop computes the proposal verdict from the failures, sorted |
| `Reducers.ProposalMeans` | internal/convergence/reducers.go:290-324 | rejected exactly when some validity signal failed, accepted exactly when there is one and none failed |
| `Reducers.ProposalPermuted` | internal/convergence/reducers.go:290-324 | the proposal verdict is the same for every permutation |
| `ChecksProposal.CheckLoop` | internal/convergence/checks_proposal.go:236-251 | the first loop trims and refuses the first blank or repeated check by position or name |
| `ChecksProposal.ClassifyLoop` | internal/convergence/checks_proposal.go:253-264 | the second loop reads the classes and refuses a blank check or a second class |
| `ChecksProposal.FirstError` | internal/convergence/checks_proposal.go:271-297 | the last loop reports the first check whose class does not suit it |
| `ChecksProposal.Validate` | internal/convergence/checks_proposal.go:229-304 | a proposal is accepted exactly when it is acceptable, and then with the trimmed checks; otherwise it is refused for the first thing wrong with it |
| `ChecksProposal.AcceptedIff` | internal/convergence/checks_proposal.go:229-304 | accepted if and only if it comes from the valid scribe child of a parent without checks, proposes some, none blank or repeated, and classes them all once, suitably by prefix, and nothing else |
| `ChecksProposal.CheckedShape` | internal/convergence/checks_proposal.go:236-248 | checks that get through are trimmed, not blank and pairwise different, in order |
| `ChecksProposal.AcceptedChecks` | internal/convergence/checks_proposal.go:271-297 | every accepted check has the class its prefix calls for, and a query check is a known one |
| `ChecksProposal.Board.Propose` | internal/convergence/checks_proposal.go:107-227 | a proposal is validated against the parent and the child it names, recorded and applied as its verdict says, and never changes the checks of a parent that has some |
| `ChecksProposal.Board.Record` | internal/convergence/checks_proposal.go:173-221 | a proposal with the inputs of the last rejection, child id included, records nothing; otherwise the verdict is recorded with the next attempt and its effects applied |
| `ChecksProposal.ProposalLeaves` | internal/convergence/checks_proposal.go:173-221 | a proposal that is not stale leaves one more verdict, the checks of an accepted one, and a valid child that is done once the parent has checks and blocked for review by a third rejection |
| `ChecksProposal.AttemptsCount` | internal/convergence/checks_proposal.go:160-189 | for every run of proposals the recorded attempts are exactly 1 to n, each with the verdict on its inputs |
| `ChecksProposal.ChecksStick` | internal/convergence/checks_proposal.go:229-235 | once a parent has checks, validation refuses every later proposal of any run and the checks stay |
| `ChecksProposal.StaleRecordsNothing` | internal/convergence/checks_proposal.go:180-187 | a rejected proposal with the same outcome records nothing the second time |
| `ChecksProposal.AppliedChecksStay` | internal/convergence/checks_proposal.go:196-221 | an accepted proposal is applied, and whatever is proposed after it the parent keeps exactly its trimmed checks |
| `ChecksProposal.RepeatRecordsNothing` | internal/convergence/checks_proposal.go:180-187 | submitting the same rejected proposal again has the same outcome and records nothing, unless it classifies an unknown check |
| `ChecksProposal.OtherChildIsRecorded` | internal/convergence/checks_proposal.go:332-339 | a proposal that names another child than the one before it is recorded, whatever else it repeats |
| `ChecksProposal.OutcomeUnique` | internal/convergence/checks_proposal.go:229-304 | validation is a function of the proposal, unless it classifies an unknown check |
| `Registry.Store.Append` | internal/registry/store.go:106-122 | a definition in the log changes nothing; a new one is appended and becomes the row of its name |
| `Registry.Store.Define` | internal/registry/service.go:150-283 | a define call answers and changes the registry as its checks decide |
| `Registry.VersionsInOrderIff` | internal/registry/service.go:150-283 | after every serial run of define calls the row of each name is its last definition, and each name has versions 1 to n in log order if and only if no call repeated a current row that the log does not hold |
| `Registry.VersionsInOrder` | internal/registry/service.go:150-283 | so versions are in order after every run whose bodies the column keeps |
| `Registry.AnswerIs` | internal/registry/service.go:150-283 | after every run whose bodies the column keeps, a logged definition is a repetition, and any other gets in if and only if it is the next version of an open name, with the error that fits otherwise |
| `Registry.CallNumbersIff` | internal/registry/service.go:150-201 | a call keeps the numbering exactly when it is not such a repetition |
| `Registry.KeptIsOnSequence` | internal/registry/store.go:216-251 | a run whose logged bodies the column keeps contains no such call |
| `Registry.ReplayChangesNothing` | internal/projectiondefs/service.go:76-134 | repeating any definition that is in the log is answered as defined and changes nothing |
| `Registry.RootstockFinal` | internal/registry/service.go:226-283 | once a rootstock is current, a run appends nothing for that name and leaves its row alone if and only if no call about the name is such a repetition |
| `Registry.OffSequenceIff` | internal/registry/service.go:150-201 | a call gets in without being the next version if and only if it equals the current row without being in the log |
| `Registry.RewrittenBodyRepeatsVersion` | internal/registry/store.go:216-251 | a body that the column rewrites can be defined twice under one version, so such runs exist |
| `Registry.GoMapsEqual` | internal/registry/store.go:265-275 | the comparison loop holds exactly when the sizes agree and every key of the first map has its value in the second, missing keys reading as zero |
| `Registry.GoMapsEqualIff` | internal/registry/store.go:265-275 | on maps without zero entries that is equality |
| `Registry.ZeroEntryMisleads` | internal/registry/store.go:265-275 | with a zero entry two different maps compare equal |
| `Registry.WithoutZeros` | internal/registry/service.go:392-417 | normalization drops exactly the zero entries |

## Left out

- ApprovalGate: the outbox claim takes any ready row, so the claim order (`created_at`, `id`) is not modelled; caller-chosen action and approval ids are not either. An approval may be expired at any time, as in the code.
- Rebuild: covers the approvals, connector-action and idempotency tables; outbox rows and the other tables are not part of it, nor is the rewriting of numbers by the JSONB columns themselves.
- HandlerConvergence: the 80-byte cut of the title is an arbitrary function of the text, and reading back the captured row is left out.
- ChecksProposal.Validate: which unknown classified check the reason names is open, because it follows the order of a Go map; changes of the parent or child by others between two proposals are not part of a run.
- Registry.VersionsInOrderIff: define calls are serial, so two concurrent first definitions of a name are not covered.
- TreeWalk.DelegationDepth: stated for graphs on which the query ends; `WalkEndsIff` says which those are.
- JobQueue: `markTerminal` does not check who holds the lease, so no statement says that only the leaseholder ends a job.
- ProviderPolicy: globs with character classes or escapes are an arbitrary predicate; `*` and `?` are modelled.
- Idempotency: `SetRecordedResponse` appears only as the overridden body a handler returns; the waiting time of the lock loop is left open.
- JSON decoding into Go structs, including its case-insensitive field names, is not modelled beyond the fields each component reads.
- Which work items each event kind anchors on (`feedItemAnchors`): a feed item comes with its anchors.
- The default feed listing by time, mention filters and the formatting of items by the client.
- HTTP routing, tool schemas, command-line flags, OAuth metadata and error texts.
- PostgreSQL itself, connection handling, git subprocesses, staging directories and renames.
- Secret generation, hash strength and constant-time comparison.
- Content-scanning expressions, which appear as an arbitrary predicate.
- The `Threshold` and `HumanAck` reducers, whose results depend on the order of the signals.
- Draining and acknowledging the cross-node queue, where a second acknowledgement may overwrite the first, and its projectors.
- Escalations, which append transitions without the transition check.
- The registration order of several projectors for one kind; each modelled kind has one.
- Trimming and name rules of the registry and filter normalizers; definitions and filters enter already trimmed.
