# Verified model of lite-mail

lite-mail receives mail and never sends any. A Cloudflare Worker gets each
message, posts the raw bytes to a Go server and, independently, writes a preview
to a KV namespace and sends Telegram notifications. The server deduplicates by
SHA-256, parses the message, and stores it in four SQL tables and two
content-addressed file areas. This project models those parts in Dafny and
proves what they promise.

`dafny verify dfyconfig.toml` checks everything.

## What is modelled

**Ingest protocol** (`Ingest`, `IngestAlone`, `IngestHandler`, `WorkerIngest`,
`IngestSystem`, `IngestRace`). One request is a sequence of steps, one SQL
statement or file operation each; every step may succeed, fail, or succeed and
be reported as failed. `IngestHandler` is the handler as an imperative program
over a mutable store, and each run of it is proved to be a run of those steps.
`IngestSystem` lets any number of Worker deliveries and requests interleave,
with lost replies, arbitrary error statuses, dead connections, killed Workers
and redeliveries. The results: a delivery that ends without `setReject` left
exactly one complete message row for exactly its bytes; messages and accepted
events correspond one to one; a request run alone commits if and only if its
hash is new and its attachment keys are free, and otherwise changes no table;
of n concurrent fault-free deliveries exactly one commits and none rejects.

**Read side** (`ReadApi`). Downloads and the detail view over the same store:
the reply for a committed message is a function of its bytes and the session.

**Parser** (`Utf8`, `Mail`). The mutually recursive traversal of the part tree
against a left-to-right fold over leaves, the charset repair, and the fallback
for mail that cannot be parsed.

**Rate limiter** (`RateLimit`). The token bucket, its eviction, exactly what each
answer is, and bounds over whole runs.

**Migrations** (`Strings`, `SqlSplit`, `SqlComments`, `Migrations`,
`MigrationRuns`). The SQL splitter with its normal form and exactly what it does
to comments, the ledger state machine with failures at any operation, any
sequence of calls of its entry points, and the role of the list's order.

**Worker** (`Streams`, `Render`, `WorkerParse`, `WorkerTelegram`,
`TelegramAlone`, `TelegramRuns`, `TelegramMarks`, `TelegramRepeats`,
`TelegramProgram`, `WorkerEmail`). Chunked reading and truncation, HTML escaping
and length caps, the local parse with its size policies, exactly when the
`tg-sent:` marker is found over all interleavings with Workers killed anywhere,
the sending program against those deliveries, and the independence of the two
paths of `email()` in one shared world, exceptions included.

## Assumptions

- A SHA-256 digest determines the data (`Common.Hash` carries its preimage).
- A file write happens completely or not at all. AUTO_INCREMENT ids are fresh.
- An insert that meets a unique key of another open transaction waits until that
  transaction ends; it fails only against committed rows or its own.
- A 2xx reply that reaches the Worker was sent by the handler, after the answer
  it reports; every other status, timeout or network error may appear at any time.
- The rate limiter's clock does not run backwards for one client, and `Allow` and
  the eviction of one entry are atomic. Recovery is computed in integer
  nanoseconds, truncated, instead of in floating point.
- The KV namespace is linearizable.

## Where the code and its own words disagree

- `deliverToGo` says that an unrecognised status is treated as accepted
  (`worker/src/index.ts:275-280`). `attemptIngest` returns such a 2xx as an HTTP
  status, so `postToIngestWithStatus` rejects; only an unreadable 2xx body is
  treated as accepted. The model follows the code.
- `splitSQL` is said to strip comments, but it splits at every `;` first and
  drops comment lines of the pieces: of `-- a; b` it executes `b`
  (`SqlComments.CommentExample`). `SqlComments.CommentsHarmlessIff` says exactly
  which files are split as if their comment lines were not there: those in which
  no comment line has text after a semicolon, and no semicolon of a comment line
  stands inside a statement.
- `RollbackMigration` leaves the caller's slice in descending order. If a slice
  in any order is given to `RunMigrations`, every stopping point leaves a prefix
  if and only if the unrecorded migrations stand in it in ascending order
  (`MigrationRuns.PrefixIffOrdered`); for the descending slice that means that at
  most one migration is missing (`MigrationRuns.DescendingIff`).
- The storage key of an attachment is its content hash, unique over all mail. A
  message that repeats an attachment, or shares one with stored mail, can never
  be stored: `IngestSystem.StuckForever`, with an instance in
  `IngestSystem.StuckExample`, and `IngestSystem.CanBeStoredIff` for the exact
  condition. Every delivery of it that comes to an end has called `setReject`.
- Mail that cannot be parsed is stored without recipients and attachments, so
  only administrators can read it (`ReadApi.UnparsedIsForAdmins`).
- Retransmits are said to be suppressed by the Telegram marker
  (`worker/src/index.ts:57-59`). Two finished deliveries both contact every chat
  if and only if neither lookup saw a living marker
  (`TelegramMarks.BothContactIff`), so two that look before the first marker is
  written do (`TelegramMarks.OverlapContactsTwice`, with an instance in
  `TelegramRepeats.OverlapSendsTwice`).

## Model

| member | source | states |
|---|---|---|
| Ingest.StepKeepsOwn | internal/ingest/handler.go:87-207 | Every step of a request, whatever its outcome, keeps the store invariant (complete rows and files for each message, one event per message, unique keys, files named by their content) and the request's own invariant |
| Ingest.StepKeepsOther | internal/ingest/handler.go:165-207 | A step of one request keeps the invariant of every other request and keeps the two apart, as long as it takes no unique key the other holds uncommitted |
| Ingest.StepKeepsMessages | internal/ingest/handler.go:165-207 | No step changes or removes a committed message or attachment row |
| Ingest.StepGrows | internal/ingest/handler.go:122-205 | Only the commit changes a table; every other step at most adds a file under its own hash or draws an id |
| Ingest.EventIsMessage | internal/ingest/handler.go:153-163 | The duplicate check finds an event exactly when a message with that hash is committed |
| Ingest.CommitKeeps | internal/ingest/handler.go:200-206 | Committing a finished transaction keeps the store invariant and makes the message present under its id |
| Ingest.AddAttachmentKeeps | internal/ingest/handler.go:191-199 | An attachment insert keeps the request's rows in part order under increasing ids with their blobs on disk, or fails on a taken key |
| Ingest.BeginKeeps | internal/ingest/handler.go:165-184 | A transaction starts under an id that no row uses |
| Ingest.StepWorks | internal/ingest/handler.go:87-207 | Every step brings the request closer to its reply |
| IngestAlone.AllOrNothing | internal/ingest/handler.go:165-207 | Under any faults a request run to its end leaves the tables unchanged or adds exactly its own complete message, and does the latter whenever it answers accepted |
| IngestAlone.StoredAloneIff | internal/ingest/handler.go:87-207 | Without faults a message is committed if and only if its hash has no event, its attachment hashes are pairwise distinct and none is a stored key; otherwise all four tables are unchanged |
| IngestAlone.SecondPostIsDuplicate | internal/ingest/handler.go:87-108 | Posting the same bytes again answers duplicate and changes no table |
| IngestAlone.OkStep | internal/ingest/handler.go:165-207 | Without a fault a transaction goes on, commits with free keys, or fails on a taken one, and never anything else |
| IngestHandler.PersistAttachment | internal/ingest/handler.go:191-199 | One round of the attachment loop is the steps SaveBlob and AddAttachment |
| IngestHandler.Persist | internal/ingest/handler.go:165-207 | The imperative transaction is a run of the step system from RawSaved to its reply, under the same I/O outcomes |
| IngestHandler.IngestAdmitted | internal/ingest/handler.go:87-150 | The imperative request is a run of the step system from Received to its reply |
| IngestHandler.Handler.ServeHttp | internal/ingest/handler.go:39-151 | 405 exactly for another method, else 401 exactly for a missing or different key, else 400 exactly for an unreadable body, else 413 exactly above the limit (26214400 bytes unless configured); none of these touches anything, and every other request runs the steps on its complete body |
| WorkerIngest.AttemptIngest | worker/src/index.ts:359-429 | A final status comes exactly from a positive reply, and is duplicate or accepted exactly when a 2xx says so; a rejection comes exactly from 401 and 413, with the reason that reply deserves; every other status is left to the caller with that status; only a missing response raises |
| WorkerIngest.PostToIngest | worker/src/index.ts:436-519 | A second POST is made exactly after a response with a status of 500 to 599; the last reply alone decides: null for an unreadable 2xx, accepted or duplicate for a 2xx that says so, and for every other reply the rejection with the reason that belongs to its status, timeout or error |
| WorkerIngest.DeliverToGo | worker/src/index.ts:243-281 | Missing configuration rejects without a POST; otherwise one POST is made, or two exactly after a 5xx, and the reason is that of the last reply, or none |
| IngestSystem.ActionKeeps | worker/src/index.ts:283-351 | Every action of any Worker, request, network or crash keeps the system invariant |
| IngestSystem.ExecutionKeeps | worker/src/index.ts:283-351 | The invariant holds after every run |
| IngestSystem.AnsweredIsCommitted | internal/ingest/handler.go:98-150 | The handler answers 200 only when a message with that hash is committed |
| IngestSystem.NoRejectMeansStoredOnce | worker/src/index.ts:283-351 | In every run, each delivery that ended without setReject and each POST answered 200 has exactly one committed row for exactly its bytes, complete with recipients, attachments and files; no hash ever has two |
| IngestSystem.OneEventPerMessage | internal/ingest/handler.go:153-207 | In every reachable state accepted events and messages correspond one to one with distinct hashes, no two requests were accepted for the same bytes, and duplicate was answered only for a committed hash |
| IngestSystem.StuckForever | internal/db/migrations/001_create_mailbox_tables.up.sql:49 | Once an uncommitted message's attachment key is taken or repeated, no run ever stores it, and every delivery of it that ends has called setReject |
| IngestSystem.CanBeStoredIff | internal/ingest/handler.go:165-207 | In every state that keeps the invariant, with any transactions open, some run stores a mail if and only if it is stored already or its attachment keys are distinct and free |
| IngestSystem.RepeatedIsStuck | internal/db/migrations/001_create_mailbox_tables.up.sql:49 | A mail with the same attachment twice is stored in no reachable state, and each of its deliveries that ended has called setReject |
| IngestSystem.SharedIsStuck | internal/db/migrations/001_create_mailbox_tables.up.sql:49 | Nor can a mail be stored that shares an attachment with other, stored mail |
| IngestSystem.RepeatedIsRejected | internal/ingest/handler.go:191-199 | With nothing failing, the first delivery of a mail with a repeated attachment is posted twice, gets 500 twice and ends with setReject |
| IngestSystem.StuckExample | internal/ingest/handler.go:191-199 | An instance: a run from the empty system with two equal attachments that ends so |
| IngestRace.StepBeforeCommit | internal/ingest/handler.go:165-207 | Before the winner's commit no fault-free step fails, and the step that changes the tables is a commit of the whole message |
| IngestRace.StepAfterCommit | internal/ingest/handler.go:98-108 | After the commit no step changes a table and a request that starts is answered duplicate |
| IngestRace.NoDeadlock | internal/ingest/handler.go:165-207 | While a delivery is unfinished some fault-free action is possible, although inserts may wait for each other's transactions |
| IngestRace.CleanUsesFuel | worker/src/index.ts:436-504 | Every fault-free action uses up a bounded amount of work |
| IngestRace.RaceHasOneWinner | worker/src/index.ts:446-482 | For n concurrent deliveries of one storable message without faults every run is bounded and ends with exactly one accepted request, the tables extended by that message only, every loser's 500 after the commit, every retry answered duplicate, and no setReject |
| ReadApi.OrderIsOrdered | internal/api/attachments.go:81 | ORDER BY id returns the selected rows, all of them, by ascending id |
| ReadApi.ColumnsAreParsed | internal/ingest/handler.go:165-199 | In every reachable state each column of each message row holds the field of that name of the parse of its bytes, and its recipient and attachment rows hold, in order, the parsed recipients and the name, type, size and hash of the parsed attachments |
| ReadApi.GetRawMime | internal/api/messages.go:55-87 | Serves the stored bytes of the authorised message or nothing; a failed query is a 500, an unreadable file a 404 |
| ReadApi.GetAttachment | internal/api/attachments.go:27-68 | Serves the row at the offset with its blob and metadata or nothing; a failed query is a 500, an unreadable file a 404 |
| ReadApi.ListAttachments | internal/api/messages.go:194-209 | One entry per attachment row of the message, in id order |
| ReadApi.ListRecipients | internal/api/messages.go:177-192 | One entry per recipient row of the message, in insertion order |
| ReadApi.GetMessage | internal/api/messages.go:89-175 | The authorised message with its recipients and attachment entries; a 500 exactly when a query that is executed fails |
| ReadApi.ReadersAreRecipients | internal/api/messages.go:211-223 | A committed message can be read by administrators and by exactly the addresses among the parsed recipients of its bytes |
| ReadApi.RawRoundTrip | internal/api/messages.go:55-87 | Raw download of a committed message returns the posted bytes to those entitled and 404 to all others |
| ReadApi.AttachmentRoundTrip | internal/api/attachments.go:42-82 | Attachment download idx returns content, size, type and trimmed name of the idx-th parsed attachment to those entitled, and 404 past the end and to all others |
| ReadApi.DetailAgrees | internal/api/messages.go:157-223 | To the entitled the detail view of a committed message shows sender, subject, both bodies, recipients and attachments as parsed from its bytes, and entry idx has the name, type and size that download idx serves; everyone else gets a 404 |
| ReadApi.NothingThere | internal/api/messages.go:55-109 | Without a session, and for an id of no message even for administrators, the detail view and both downloads are 404 |
| ReadApi.DownloadsAreFaithful | internal/ingest/handler.go:122-199 | In every reachable state, with any rolled-back or open requests and their left-over files, both downloads and the detail view are a function of the message's bytes and the session, and 404 for those not entitled |
| ReadApi.RepliesNeverChange | internal/api/attachments.go:42-82 | No later ingest changes what a committed message's downloads and detail view return |
| ReadApi.UnparsedIsForAdmins | internal/ingest/handler.go:110-117 | A message stored by the fallback can be read by administrators only |
| Utf8.ValidIffEncoding | internal/ingest/parser.go:215 | A byte string is valid exactly when it is the encoding of some scalar values (section 4 of RFC 3629) |
| Utf8.ValidConcat | internal/ingest/parser.go:192-197 | Concatenating valid texts gives valid text |
| Utf8.ToValidIsValid | internal/ingest/parser.go:228-231 | Replacing invalid runs always gives valid text |
| Utf8.ToValidIdentityIff | internal/ingest/parser.go:228-231 | The replacement changes nothing exactly when the text is valid |
| Utf8.RepairRun | internal/ingest/parser.go:228-231 | The replacement keeps valid text and turns each longest run of bytes outside it into one U+FFFD |
| Mail.DecodedIsValid | internal/ingest/parser.go:207-244 | decodeText and decodeHeaderText return valid UTF-8 for all bytes, all labels and all charset tables |
| Mail.DecodeIdentityIff | internal/ingest/parser.go:207-220 | Under a UTF-8, ASCII or missing label the content is returned unchanged exactly when it is valid |
| Mail.DecodedAsDeclared | internal/ingest/parser.go:207-232 | The declared charset decides: what its reader returns is the text, unchanged exactly if valid; windows-1252 takes its place for an unknown charset and for invalid content under a UTF-8, ASCII or missing label; what no reader can decode is repaired as it stands |
| Mail.HeaderAsDecoded | internal/ingest/parser.go:234-244 | A header is the text of its encoded words, or the header itself if they cannot be decoded, unchanged exactly if valid |
| Mail.ParseEntity | internal/ingest/parser.go:117-147 | For every part tree the traversal ends, and the record gains exactly the contributions of the leaves before the first failure, on success and on error |
| Mail.ParsePart | internal/ingest/parser.go:149-159 | The same for one part, which may be a multipart itself |
| Mail.ConsumeLeaf | internal/ingest/parser.go:161-199 | An unreadable leaf adds nothing and fails; any other goes to the attachments, to one body, or nowhere |
| Mail.AttachmentIsLeaf | internal/ingest/parser.go:179-190 | There are as many attachments as leaves with a file name or attachment disposition, and such a leaf with k others before it is attachment k, with its content, media type, file name, size and hash |
| Mail.BodyAroundLeaf | internal/ingest/parser.go:192-197 | A body is the decoded text of the inline leaves of its type in message order; every other leaf leaves no trace in it |
| Mail.LeavesInOrder | internal/ingest/parser.go:117-159 | A multipart is read part by part from left to right, and anything else is one leaf with its header and content |
| Mail.FlatLeaves | internal/ingest/parser.go:124-143 | A multipart of leaves has exactly its parts as leaves, in their order |
| Mail.FailsIff | internal/ingest/parser.go:117-170 | A parse of the tree fails exactly when some multipart reached has no boundary or cannot be read to its end, or some leaf cannot be read |
| Mail.BodyIsValid | internal/ingest/parser.go:192-197 | A body accumulated over any leaves is valid UTF-8 |
| Mail.ParseMime | internal/ingest/parser.go:57-92 | Without an error every field is that of the message: sender from the parsed address or the decoded header, decoded subject, recipients, the concatenated text/html and text/plain leaves, text made from HTML only if there is no text, and the attachment leaves; the error is the first failure in the tree |
| Mail.FallbackParsedMessage | internal/ingest/handler.go:209-265 | Sender only from a parsed address, decoded subject, the first top-level text/html part with content (or the body of a text/html message), the error as text, no recipients and no attachments |
| Mail.ParseForStorage | internal/ingest/handler.go:110-120 | What is stored is the complete parse, or the fallback marked failed |
| Mail.StoredFields | internal/ingest/handler.go:110-120 | What is stored has the fields of the complete parse and no mark if the message and its tree can be read, and otherwise the fields of the fallback and the mark |
| Mail.SingleLeaf | internal/ingest/parser.go:161-199 | A readable message without parts: one attachment and no body with a file name or attachment disposition; otherwise the decoded content as text body for text/plain or no type, as HTML body for text/html, and nothing for any other type |
| Mail.StoredTextIsValid | internal/ingest/handler.go:110-117 | Subject and HTML body are valid UTF-8 on the normal and the fallback path, and so is a text body made from text/plain leaves |
| Mail.FailedHasNoAttachments | internal/ingest/handler.go:209-265 | Failed mail is stored without recipients and attachments, under the hash of its bytes |
| RateLimit.LevelsStayInRange | internal/middleware/ratelimit.go:48-95 | In every table reached by any requests and evictions, for any clock readings, every level is within 0..rpm |
| RateLimit.AllowedIff | internal/middleware/ratelimit.go:74-94 | A request is allowed exactly when a token was left or the gap times rpm reaches the window |
| RateLimit.IdleMinuteRefills | internal/middleware/ratelimit.go:77-83 | A full idle window refills the bucket to rpm |
| RateLimit.EvictionInvisible | internal/middleware/ratelimit.go:48-83 | With evictions at arbitrary times, also by passes that read the clock before the requests they overtake, and other clients in between, a client gets the answers of a bucket that is never evicted |
| RateLimit.AdmissionBound | internal/middleware/ratelimit.go:61-95 | In any interval of length T a client is allowed at most rpm + floor(T*rpm/window) requests |
| RateLimit.FractionsAreLost | internal/middleware/ratelimit.go:74-94 | A client whose gaps all stay below window/rpm is allowed exactly its first rpm requests, however long the run |
| RateLimit.AnswersFollow | internal/middleware/ratelimit.go:61-95 | Every answer to a client, evictions included, follows from the one before: allowed exactly if what that left plus the whole tokens of the gap, capped at rpm, is positive, one less remaining, and a reset 60 s away in whole seconds; the first finds rpm tokens |
| RateLimit.Burst | internal/middleware/ratelimit.go:74-94 | Of n requests at one instant T, after an answer at t that left k tokens, exactly min(n, rpm, k + floor((T-t)*rpm/window)) are allowed, the earliest ones, with any evictions in between |
| RateLimit.RemainingIsExact | internal/middleware/ratelimit.go:84-94 | `remaining` is the number of further requests allowed at that same instant |
| RateLimit.PassIsSweeps | internal/middleware/ratelimit.go:48-59 | A cleanup pass equals evicting its keys one at a time, in any order and number of visits |
| RateLimit.RateLimitEntry.Consume | internal/middleware/ratelimit.go:74-94 | The in-place update of an entry and its answer are those of the bucket model |
| RateLimit.RateLimiter.Allow | internal/middleware/ratelimit.go:61-95 | The table changes in the caller's entry only, as the transition system says; entries are never shared |
| RateLimit.RateLimiter.Cleanup | internal/middleware/ratelimit.go:48-59 | Exactly the entries whose last update is more than 60 s ago disappear |
| SqlSplit.SplitSqlMethod | internal/db/migrate.go:94-112 | The loop computes the split function |
| SqlSplit.SplitIsNormal | internal/db/migrate.go:94-112 | Every statement is non-empty, has no semicolon, and all its lines are trimmed, non-empty and no comments |
| SqlSplit.NormalIff | internal/db/migrate.go:94-112 | Splitting undoes joining exactly on lists of such statements |
| SqlSplit.SplitTwice | internal/db/migrate.go:94-112 | Splitting the joined statements of any text gives the same statements |
| SqlSplit.NothingIsLost | internal/db/migrate.go:94-112 | There is one statement for each fragment between semicolons that holds text, in file order, and its lines are exactly the trimmed lines of the fragment that are neither blank nor comments |
| SqlComments.CutsCommute | internal/db/migrate.go:96-98 | Cutting at semicolons and then at line ends gives the same fragments as cutting at line ends first and regrouping |
| SqlComments.CommentsHarmlessIff | internal/db/migrate.go:91-112 | Splitting a file gives what splitting it without its comment lines gives if and only if, line by line, no text follows a semicolon in a comment line and no such semicolon stands inside a statement |
| SqlComments.CommentTextIsExecuted | internal/db/migrate.go:96-102 | Of a comment line with one semicolon and text after it, that text is executed |
| SqlComments.CommentExample | internal/db/migrate.go:96-102 | Of `-- a; b` the statement `b` is executed |
| Migrations.SortSlice | internal/db/migrate.go:67-69 | The array is sorted in place, a permutation of what it was |
| Migrations.KeepFirst | internal/db/migrate.go:40-65 | The loop with its `seen` map keeps the first file of each name, in directory order |
| Migrations.FirstOfEachIff | internal/db/migrate.go:40-65 | A file is kept exactly when no earlier one has its name |
| Migrations.LoadMigrations | internal/db/migrate.go:25-89 | Each migration has version and name of a kept file, that file's up text as its up script and its down text as its down script, and each kept file has its migration; by version, strictly ascending if versions are distinct; an error exactly if a text is missing |
| Migrations.ApplyOne | internal/db/migrate.go:173-192 | The statements run in order up to a failure; the version is recorded only after all of them, and surely without an error; it fails exactly if an operation failed |
| Migrations.Visit | internal/db/migrate.go:164-195 | One round skips a recorded migration or applies the next one of the list |
| Migrations.RunMigrations | internal/db/migrate.go:159-198 | Wherever it fails, exactly the first so many missing migrations are recorded, and exactly their statements and some first statements of the next were executed; it fails exactly if one of its operations failed, and otherwise none is missing |
| Migrations.RollbackMigration | internal/db/migrate.go:200-244 | The caller's array is sorted descending in place; only the highest recorded migration is taken back, and only after all its statements; it fails exactly if one of its operations failed |
| Migrations.UndoOne | internal/db/migrate.go:218-237 | The down statements run in order up to a failure; the row goes only after all of them, and surely without an error |
| MigrationRuns.Migrate | internal/db/migrate.go:264-277 | It fails exactly if a file cannot be read, and then touches nothing, or an operation failed; ledger and executed statements are those of the first so many missing migrations, of all of them without an error |
| MigrationRuns.MigrateFresh | internal/db/migrate.go:264-277 | On an empty ledger a successful Migrate executes exactly the statements of the up files, file by file in ascending version, and records exactly their versions |
| MigrationRuns.ScriptsAreFiles | internal/db/migrate.go:71-86 | The scripts of a loaded migration are the up and the down text of a kept file with its version and name |
| MigrationRuns.LoadedFiles | internal/db/migrate.go:40-86 | Exactly the kept files are loaded |
| MigrationRuns.Rollback | internal/db/migrate.go:279-292 | It fails exactly if a file cannot be read, and then touches nothing, or an operation failed; it executes first statements of the down file of the highest recorded version, all of them without an error, and the ledger loses at most that version, without an error exactly that one, or none is recorded |
| Migrations.MigrateKeepsPrefix | internal/db/migrate.go:164-195 | A failed or successful Migrate takes a prefix of the ascending list to a longer prefix |
| Migrations.RollbackKeepsPrefix | internal/db/migrate.go:205-241 | A failed or successful Rollback takes a prefix to the same prefix or the one shorter by one |
| Migrations.AlwaysPrefix | internal/db/migrate.go:159-244 | Any history of ledgers whose steps are those of RunMigrations and RollbackMigration ends with a prefix of the ascending list |
| MigrationRuns.RunCalls | internal/db/migrate.go:264-292 | On an empty database, after every call of any sequence of Migrate and Rollback, with operations failing anywhere, the recorded versions are a prefix of the ascending list of the files |
| MigrationRuns.MigrateTwice | internal/db/migrate.go:264-277 | After a successful Migrate every version is recorded and another Migrate executes and records nothing; without failing operations and unreadable files both succeed |
| Migrations.SuccessIsComplete | internal/db/migrate.go:164-197 | A successful Migrate records exactly all versions and leaves nothing for the next one to execute |
| MigrationRuns.PrefixIffOrdered | internal/db/migrate.go:164-207 | From any ledger that holds a prefix, RunMigrations on the list in any order leaves a prefix at every stopping point if and only if the unrecorded migrations stand in it in ascending order, that is, are applied as in the ascending list |
| MigrationRuns.DescendingIff | internal/db/migrate.go:205-207 | For the descending list that RollbackMigration leaves, if and only if at most one migration is missing |
| MigrationRuns.LoadsAgree | internal/db/migrate.go:40-69 | With distinct versions every load gives the same list |
| Streams.CollectStream | worker/src/index.ts:183-202 | The concatenation of all chunks, or a failure exactly when reading fails |
| Streams.Truncator.Transform | worker/src/mail/parse.ts:133-151 | After each chunk the output is the first maxBytes of the input so far |
| Streams.TruncateStream | worker/src/mail/parse.ts:127-154 | Exactly the first min(maxBytes, total) bytes come out, however they are cut into chunks |
| Render.EscapeIsPerCharacter | worker/src/mail/render.ts:43-45 | The three replaces in sequence equal one substitution per character |
| Render.UnescapeEscape | worker/src/mail/render.ts:43-45 | Escaping has a left inverse |
| Render.EscapedIsSafe | worker/src/mail/render.ts:43-45 | The result has no angle bracket and no ampersand outside the three entities |
| Render.BuildSummaryText | worker/src/mail/render.ts:80-102 | A prefix of the full text, all of it up to 3500 units and its first 3500 beyond; cut only if the escaped header lines exceed 1998 units, and safe whenever it is not cut |
| Render.SummaryReadsBack | worker/src/mail/render.ts:80-97 | Unescaping the uncut summary gives From, To, Subject and Date lines with the cache's own fields and, after an empty line, the first 300 units of the text, or nothing more without text |
| Render.FullTextIsSafe | worker/src/mail/render.ts:80-97 | The summary before the final cut is safe |
| WorkerParse.ParseEmail | worker/src/mail/parse.ts:49-121 | Both bodies are non-empty; they depend on the admitted prefix of the bytes only, not on chunks; the note is added exactly to a truncated parse that succeeded; id, addresses, the first Subject and the trimmed first Message-ID, or the id in place of a blank one, are kept |
| WorkerParse.ApplyPolicy | worker/src/mail/parse.ts:63-86 | Only an oversized message is dropped or cut, as the policy says; otherwise the whole stream is parsed |
| WorkerParse.FillBodies | worker/src/mail/parse.ts:88-107 | Text and HTML are those of the parser; missing text is made from HTML, and what is still missing gets its default; a throw of either library is reported |
| WorkerParse.AdmittedIsPrefix | worker/src/mail/parse.ts:68-86 | Nothing is parsed exactly if the message is too big and the policy says unhandled; under truncate a big one is cut to the first maxSize of the posted bytes, and otherwise all are parsed, equally for all ways of cutting them |
| WorkerParse.FirstHeaderWins | worker/src/mail/parse.ts:10-28 | A header's value is that of the first entry with its name, whatever the case, and none without one |
| WorkerParse.NumeralOfDigits | worker/src/mail/parse.ts:70-112 | The sizes in the notes read back as the numbers they were |
| WorkerTelegram.KeyIsStableIff | worker/src/index.ts:70-79 | The marker's key is a function of Message-ID and bytes, whether the parse succeeded or not, except exactly when the header equals the random cache id |
| WorkerTelegram.SameKeyIff | worker/src/index.ts:70-79 | Two messages share a key exactly if their usable trimmed Message-IDs are equal or, with none usable, their bytes; a Message-ID meets the key of other bytes only by spelling out their digest |
| WorkerTelegram.ChatsRoundTrip | worker/src/index.ts:112-114 | A comma-joined list of trimmed, non-blank ids without commas is read back as it was |
| WorkerTelegram.ChatsOfItems | worker/src/index.ts:112-114 | Each item adds its trimmed text at its place, or nothing if it is blank |
| TelegramProgram.SendAll | worker/src/index.ts:112-132 | The loop over TELEGRAM_ID sends to each trimmed, non-blank item in order and remembers whether any send succeeded |
| TelegramProgram.SendTelegramForCache | worker/src/index.ts:81-148 | Disabled without token or ids; otherwise the calls, the log, KV and the end are those of the delivery's steps: every trimmed item of TELEGRAM_ID is contacted in order unless hashing throws, the key of this message is found, or rendering throws, and KV then holds the cache id under that key for ttl from the write on, exactly if a send was confirmed and the write took place |
| TelegramAlone.AloneContacts | worker/src/index.ts:93-148 | A delivery contacts all of its chats in order unless hashing throws, it finds the marker, or rendering throws; it ends with an exception exactly if hashing throws, or the marker is missed and rendering throws; KV changes exactly if a send was confirmed and the marker could be written, and then in that key only |
| TelegramProgram.SendTwice | worker/src/index.ts:93-148 | Two calls of the program under one key, with a cache id: after a confirmed send and a written marker the key is found at exactly the times before the write plus ttl, and a second call whose lookup works within that time contacts nobody and leaves KV alone |
| TelegramProgram.ProgramIsRun | worker/src/index.ts:81-148 | The job the program makes of a cache entry with an id can arrive in the interleaved system at any moment, and its run there leaves what the program leaves |
| TelegramRuns.ContactsInOrder | worker/src/index.ts:94-132 | In every interleaving, with Workers killed anywhere, each delivery has contacted a prefix of its chats in order; a finished one has looked, and contacted nobody if and only if its lookup hit or it has no chats |
| TelegramMarks.LookupHitsIff | worker/src/index.ts:94-101 | In every interleaving a lookup finds the marker if and only if it works and comes after a marker of its key within that marker's lifetime, or before any marker on an entry that KV began with |
| TelegramMarks.NoSendAfterMark | worker/src/index.ts:93-148 | Whatever KV began with, a delivery that looks after a living marker contacts no chat |
| TelegramMarks.FinishedContactsIff | worker/src/index.ts:93-148 | A finished delivery contacted nobody if its lookup saw a living marker and every chat otherwise: nothing is dropped for another reason |
| TelegramMarks.BothContactIff | worker/src/index.ts:93-148 | Two finished deliveries both contact every chat if and only if neither lookup saw a living marker |
| TelegramMarks.OverlapContactsTwice | worker/src/index.ts:93-141 | Finished deliveries that looked before the first marker all contact every chat |
| TelegramRepeats.OncePerOccurrence | worker/src/index.ts:93-148 | However often a message is redelivered without overlap, with working KV and living marker, each chat gets at most one confirmed send per occurrence in TELEGRAM_ID, and one more for each Worker killed in the middle |
| TelegramRepeats.OverlapSendsTwice | worker/src/index.ts:93-141 | An instance of overlap: a run without any fault that sends twice to a chat that occurs once |
| WorkerEmail.PathsDoNotInterfere | worker/src/index.ts:208-351 | Under every interleaving in one shared world, with hashing and rendering throwing at will, email() never ends by an exception; rejection is decided by the replies to its own POSTs, two exactly if the first got a 5xx; KV contents, lookups and sends are those of the preview path alone given the same answers |
| WorkerEmail.OnlyRepliesDecide | worker/src/index.ts:334-350 | Deliveries in different worlds with different preview paths and equal ingest replies end with the same rejection |
| WorkerEmail.OnlyAnswersNotify | worker/src/index.ts:334-346 | Deliveries with equal KV and Telegram answers leave the same KV contents, lookups, sends and writes, whatever happened to their POSTs |
| WorkerEmail.DecisionIsDelivered | worker/src/index.ts:243-281 | The decision of the concurrent model is that of deliverToGo on the same replies |
| WorkerEmail.DeliverPreviewAndTelegram | worker/src/index.ts:208-236 | Whatever throws inside, it returns; the preview is under the cache id for ttl if it could be written, and Telegram is tried in any case, with the key and the id of this cache entry |
| WorkerEmail.PreviewDelivers | worker/src/index.ts:208-236 | What email() leaves on the preview path is what that program leaves when its calls end in the same way: the preview if it could be written, the whole delivery in any case, and the report of an exception if there was one |
| WorkerEmail.RunBoth | worker/src/index.ts:337-346 | Whatever the event loop picks, both paths come to their end and email() returns |
| WorkerEmail.LocalParse | worker/src/index.ts:305-332 | The cache has bodies, a message id and the message's own addresses and first Subject, even if the parse itself throws |
| WorkerEmail.Email | worker/src/index.ts:283-351 | An unreadable stream is rejected and nothing else happens; otherwise it returns, the bytes of the stream are posted, the replies alone decide about setReject, and the preview path runs as if alone, with the marker's value the cache id and its key free of that random id |

## Left out

- Timestamps: message date and received-at times are not stored or compared.
- The SQL engine: tables are sequences with the named unique indexes; column widths, collations and full-text search are not modelled, so `ReadApi.ReadersAreRecipients` compares addresses byte for byte.
- Message list and search (`ListMessages`): its order is undetermined between mails received in the same second.
- Ids of recipient rows: the rows of one message are kept in insertion order, which is their id order.
- HTTP plumbing, routing, URL parameters, response headers, file name sanitising, sessions, login, logging and configuration parsing.
- Internals of the mail, MIME, charset, postal-mime and html-to-text libraries: total functions or given part trees.
- Address list parsing: the recipients and the sender address arrive parsed and canonicalised.
- File names of migrations: directory entries arrive as recognised version and name; the scripts of each are a parameter, absent when a file cannot be read.
- The connection to the database: `Migrate` and `Rollback` start from an open one.
- Torn file writes, and the directories that hold the files.
- Hexadecimal spelling of digests in the server; in the Worker it is a parameter.
- The HTTP preview route of the Worker and the decoding of its KV entries.
- Timers: a timeout is one of the possible replies.
- Upper- and lower-casing beyond ASCII, and UTF-16 surrogates: strings are sequences of characters.
- `X-Forwarded-For` and the client address: a client is the key it was given.
- The JSON of the preview entry that the Worker writes to KV; the model keeps its key and lifetime.
- Mail.StoredTextIsValid: says nothing about a text body that html-to-text or an error message produced, because both come from libraries.
- RateLimit.FractionsAreLost: uses exact integers where the program computes in floating point.
- TelegramRepeats.OncePerOccurrence: counts confirmed sends only, because a send whose reply is lost is repeated by the next delivery; all deliveries under one key share one TELEGRAM_ID list, as the configuration is fixed.
