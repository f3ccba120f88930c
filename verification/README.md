# A model of the Sentry-compatible ingest service

The service takes Sentry envelopes over HTTP, checks the public key and a per-key rate
limit, archives the body and each item in an object store, puts one metadata row per item
into an index table, groups event rows by a fingerprint in scheduled runs, and lists rows
page by page. This project models that behaviour in Dafny and proves what it keeps.

`dafny verify dfyconfig.toml` checks everything. Code that changes state is modelled by
classes and methods and tied to functions; what holds of every input, run or reachable
state is stated by lemmas about these functions.

| file | component |
|---|---|
| `EnvelopeGrammar.dfy`, `EnvelopeFaults.dfy` | the wire format as a parser over byte sequences and as a grammar, and what is wrong with bodies it refuses |
| `EnvelopeReader.dfy` | the parser as it runs: a fixed window over a source of arbitrary chunks |
| `Refills.dfy`, `SharedPayloads.dfy`, `SmallBodies.dfy`, `SharedSamples.dfy` | what payloads kept as views of that window show in the end |
| `RateLimiter.dfy` | token buckets on the heap, and what whole runs of calls admit |
| `StorageKeys.dfy`, `Text.dfy` | storage keys and the string functions they are made with |
| `Persist.dfy`, `WriteLog.dfy` | persisting a request when any write may fail |
| `Handler.dfy`, `HandlerAnswers.dfy`, `HandlerResults.dfy`, `HandlerRuns.dfy` | the ingest handler: order of decisions, effects, answers, whole runs |
| `Dsn.dfy`, `AuthHeader.dfy`, `Auth.dfy` | the forms of authentication |
| `Fingerprint.dfy`, `Grouping.dfy`, `IssueIDs.dfy`, `Processor.dfy` | issue ids, when they are shared, and one scheduled run |
| `Protocol.dfy`, `ProtocolFingerprints.dfy`, `ProtocolRefinement.dfy`, `ProtocolResends.dfy` | any interleaving of requests and runs |
| `QueryPlan.dfy`, `Paging.dfy`, `Cursor.dfy`, `Listings.dfy` | listings: plan, pages, cursors, and from ingest to listing |

JSON decoding, SHA-256, Unicode lower case, decompression, key validation and the AI summary
are parameters: every theorem holds whatever they answer. Time is a parameter of each call.

## Findings

Where the code and what it promises differ, the model follows the code.

- A payload without declared length is kept as a view of the reader's window
  (`lambda/ingest/envelope.go:162`), and reading on can overwrite it: an unended last line
  does (`SharedSamples.SampleIsDisturbed`), and above 16385 bytes so can any later line
  (`EndedIsDisturbed`) and even the blank line at the end (`BlankIsDisturbed`).
  `EnvelopeReader.ParseEnvelope` says for every body what each payload shows in the end, so
  exactly when all are as they were sent. Up to 16385 bytes `SmallBodies.UndisturbedIff` says so
  in terms of the body alone: they are unless a last line without newline is moved over bytes of
  an earlier line payload that differ from it.
- At most 99 items are accepted: the count is checked before the end is seen (line 105).
  The size check at line 166 can never fail. An item header without `length` at the end of
  the body is refused, although `docs/COMPATIBILITY.md:98` reads to the end of input there.
- A listing with a time bound, `type=all` and no level builds an alias table and does not
  attach it (`lambda/query/main.go:224-227`); the store refuses such a query. It also refuses
  one whose `to` is before its `from`: the range is asked for as it is (line 180). Either way the
  caller gets a server error, and no other listing's plan is refused (`QueryPlan.AcceptedIff`).
- Retry-After is cut to whole seconds; below one token a second it can be too short.
- With two `sentry_key` pairs in one header, ingest takes the last and queries the first. With
  both spellings of the header, or a key among repeated query values only, they can differ too
  (`Auth.HandlersAgree`).
- Fields are hashed with `|` between them and are not escaped (`lambda/processor/main.go:188-204`).
  Events of different groups share an issue id where a `|` can move from one field to another:
  where two of type, value, file and function may hold one, or the platform or the message alone
  may. In any one of those four alone it does no harm (`Grouping.GroupsExactlyIff`).
- If an event id is sent again with another payload while a run works on the row, the stale
  update passes its condition and leaves the row grouped under the old payload's fingerprint
  until the event is sent once more (`ProtocolResends.StaleUpdatePrintsWrong`), although no write failed.
- The scan of the processor names the attribute `status` in its filter
  (`lambda/processor/main.go:263`), a word that its own update aliases (line 314) because the
  store reserves it; the store refuses such a filter (`QueryPlan.ScanIsRefused`). What a run
  does is modelled as if the filter were accepted.
- Retrying on another UTC day archives the request a second time, unless the first attempt
  stored nothing (`Persist.RetryConvergesIff`).

## Model

| member | source | states |
|---|---|---|
| EnvelopeGrammar.ParseIffDerives | lambda/ingest/envelope.go:75-175 | a body is accepted with some content exactly when the grammar, which does not mention reading, derives that content from it: soundness and completeness, limits included |
| EnvelopeGrammar.DerivationUnique | lambda/ingest/envelope.go:75-84 | the grammar is unambiguous: a body has at most one derivation |
| EnvelopeGrammar.RenderThenParse | lambda/ingest/envelope.go:80-84 | every well-formed envelope, whatever bytes its length-prefixed payloads hold, is read back as it was written |
| EnvelopeGrammar.ParseThenRender | lambda/ingest/envelope.go:95-171 | writing back what was read gives the body, up to one extra or two missing newlines at the end: no byte is lost or invented |
| EnvelopeGrammar.NextLineSound | lambda/ingest/envelope.go:54-73 | a line and what follows it make up the input; a line holds no newline and at most 16384 bytes |
| EnvelopeGrammar.ItemsComplete | lambda/ingest/envelope.go:104-172 | any spelling of a well-formed item list parses to that list |
| EnvelopeGrammar.ItemsSound | lambda/ingest/envelope.go:104-172 | what the item loop returns is well-formed and spelled by its input |
| EnvelopeGrammar.ItemSize | lambda/ingest/envelope.go:139-169 | an item takes its header, its payload and two newlines, of which one or two may be missing only at the end of the body |
| EnvelopeGrammar.LimitsAreMet | lambda/ingest/envelope.go:12-16 | whatever can be written down as an envelope is read back as written exactly if it has at most 99 items, header lines and line payloads of at most 16384 bytes and declared payloads of at most 1048576 bytes |
| EnvelopeFaults.FaultIff | lambda/ingest/envelope.go:85-175 | a body is refused with a given error exactly if, behind some whole items, what that error says is wrong with it |
| EnvelopeReader.Reader.ReadSlice | lambda/ingest/envelope.go:55 | whatever the chunks, the window shows the input up to the next newline, or all of it at the end, or is full without one; nothing is skipped |
| EnvelopeReader.Reader.ReadLine | lambda/ingest/envelope.go:54-73 | the returned view shows the next line of the whole body, and what is left is what follows it |
| EnvelopeReader.Reader.ReadFull | lambda/ingest/envelope.go:148-151 | fills the payload with the next bytes of the body, from the window and past it, and fails exactly when fewer are left |
| EnvelopeReader.ReadPayload | lambda/ingest/envelope.go:139-169 | agrees with the payload the byte-sequence parser cuts off, errors included, in an array of its own unless it is a shared line |
| EnvelopeReader.ReadItem | lambda/ingest/envelope.go:104-171 | one turn of the loop agrees with one step of the byte-sequence parser |
| EnvelopeReader.ParseEnvelope | lambda/ingest/envelope.go:85-175 | for every body and every chunking the answer is that of the byte-sequence parser; after all slides and refills headers, declared payloads and copied lines hold their bytes; from a source in memory, a shared line of a body of any size shows exactly what the last refills put there, and all are as sent if and only if none is disturbed |
| EnvelopeReader.Reader.ReadByte | lambda/ingest/envelope.go:153 | the next byte of the body or its end, and at which offset the window is refilled for it |
| SmallBodies.UndisturbedIff | lambda/ingest/envelope.go:162-171 | all payloads of a body that fits the window are as sent exactly when each byte of a line payload in front of the last item equals the byte of the body as far behind the beginning of its unended last line as that one is behind the beginning of the body, if there is one |
| SharedPayloads.OutOfReachStands | lambda/ingest/envelope.go:162 | a shared line is as sent if no refill after it reaches its place in the window |
| SmallBodies.EndedBodiesStand | lambda/ingest/envelope.go:86 | every payload is as sent when the body fits the window and ends with a newline |
| SharedPayloads.PlaceFits | lambda/ingest/envelope.go:54-73 | at whatever offsets the window was refilled, a line is returned from a place where all of it shows |
| SharedSamples.SampleIsDisturbed | lambda/ingest/envelope.go:162-171 | an 18-byte envelope whose first payload is overwritten by its unended last line |
| SharedSamples.ReadSample | lambda/ingest/envelope.go:85-175 | the reader, run on that envelope with shared lines, returns another payload than was sent |
| SharedSamples.EndedIsDisturbed | lambda/ingest/envelope.go:162-171 | an envelope of 16391 bytes, every line ended, whose first payload is overwritten by the second |
| SharedSamples.BlankIsDisturbed | lambda/ingest/envelope.go:115-131 | an envelope whose only payload is overwritten when the blank line at its end is read |
| RateLimiter.Limiter.Allow | lambda/ingest/ratelimit.go:37-65 | decides as the bucket of the key alone says, changes no other key's bucket, and keeps bucket objects unshared |
| RateLimiter.TokenBucket.Take | lambda/ingest/ratelimit.go:47-64 | refill, cap, decrement and wait agree with the decision function |
| RateLimiter.KeysAreIsolated | lambda/ingest/ratelimit.go:41-52 | in any interleaved run a key gets the answers and the bucket it would get alone |
| RateLimiter.AffordableIffWindowBounded | lambda/ingest/ratelimit.go:47-56 | a full bucket can pay for exactly the selections of calls that keep to burst plus rate times duration in every window |
| RateLimiter.GrantsAreWindowBounded | lambda/ingest/ratelimit.go:41-56 | between any call and a later admitted one, at most burst plus rate times duration are admitted |
| RateLimiter.GreedyIsOptimal | lambda/ingest/ratelimit.go:37-65 | at every prefix of a run no selection that the same bucket could pay for has admitted more |
| RateLimiter.GrantsAreBest | lambda/ingest/ratelimit.go:37-65 | for a fresh key, no selection that keeps to the rate in every window has admitted more at any prefix |
| RateLimiter.DeniedCallsAreInvisible | lambda/ingest/ratelimit.go:47-64 | leaving out any denied calls changes no other answer, now or later |
| RateLimiter.WaitedIsAllowed | lambda/ingest/main.go:425-429 | with rate and burst at least 1, a client whose calls since a denial were denied is admitted once the printed seconds have passed |
| RateLimiter.WaitIsLeast | lambda/ingest/ratelimit.go:59-64 | a refused call is told to wait at least a second, and a longer time only if at no moment before it the bucket has a token; when it has passed there is one, if the bucket can hold one |
| RateLimiter.ShortPrint | lambda/ingest/main.go:425-427 | for every rate below 1 there is a run in which the printed seconds are too few |
| RateLimiter.HeaderSufficesIff | lambda/ingest/main.go:425-427 | waiting as printed is always enough exactly when rate and burst are at least 1 |
| StorageKeys.CheckEventID | lambda/ingest/main.go:275-288 | the scan accepts exactly 1 to 64 hexadecimal digits |
| StorageKeys.SanitizeSound | lambda/ingest/main.go:298-304 | sanitized types are non-empty, trimmed, free of separators and of `..`; exactly such types are left alone; sanitizing twice is sanitizing once |
| StorageKeys.SeparatorReplaced | lambda/ingest/main.go:303 | each slash, backslash and pair of dots in a type, read from the left, becomes one underscore, and what is around it is replaced on its own |
| StorageKeys.SanitizeBlank | lambda/ingest/main.go:299-302 | a type of blanks only becomes `unknown` |
| StorageKeys.EnvelopePath | lambda/ingest/main.go:178 | split at slashes, an envelope key is the projects folder, project, day and a file named by the id |
| StorageKeys.ItemPath | lambda/ingest/main.go:186 | an item key has in the same folder one for the id, the items folder, and number and type of the item |
| StorageKeys.SortKeyPath | lambda/ingest/main.go:252-257 | a row key is the bare id for the first item, and else id, type and number between hash signs |
| StorageKeys.ItemKeyInjective | lambda/ingest/main.go:186 | equal item keys come from equal project, date, event, index and sanitized type |
| StorageKeys.EnvelopeKeyInjective | lambda/ingest/main.go:178 | equal envelope keys come from equal project, date and event |
| StorageKeys.ItemKeyIsNoEnvelopeKey | lambda/ingest/main.go:177-186 | no item is stored under the key of an envelope |
| StorageKeys.SortKeyInjective | lambda/ingest/main.go:252-257 | equal row keys come from the same event and index |
| Text.DecimalInjective | lambda/ingest/main.go:186 | decimal printing of indices loses nothing |
| Text.DecimalReads | lambda/ingest/main.go:186 | a printed number reads as that number, without leading zeros |
| Text.TrimIff | lambda/ingest/main.go:299 | trimming yields the one text without outer blanks that the string is with blanks around |
| Text.WhiteSpace | lambda/ingest/main.go:299 | blanks are exactly the 25 code points that Unicode calls white space |
| Text.LessIff | lambda/query/main.go:176-195 | strings are ordered by their first difference, a prefix first |
| Persist.DerivedIDReads | lambda/ingest/main.go:293-296 | the derived id writes out the first 16 bytes of the body's hash, two lower-case hexadecimal digits each |
| Persist.RetriedRow | lambda/ingest/main.go:195-212 | the row of a retry is the same row but for the time it came in: its time unless the event gives one, the folder of its day, and its expiry, later by as much as the retry is |
| Persist.PersistItem | lambda/ingest/main.go:184-218 | one item writes its object and, only behind an acknowledged object, its row |
| Persist.Persist | lambda/ingest/main.go:170-230 | both stores and the reported outcome are those of the write logs, for every pattern of failed and unacknowledged writes |
| Persist.RetryConverges | lambda/ingest/main.go:170-230 | after any failed attempt, a clean retry on the same day leaves exactly what it would have left alone |
| Persist.RetryOnAnotherDay | lambda/ingest/main.go:177-178 | on another day the rows still converge and the archive keeps a second copy |
| Persist.RetryConvergesIff | lambda/ingest/main.go:170-230 | for a request whose envelope was not stored before, a clean retry leaves what it would have left alone exactly if it comes on the same day or the failed attempt had stored no envelope |
| Persist.OtherEventsUntouched | lambda/ingest/main.go:177-217 | no object and no row of another event, in any project and on any day, is touched |
| Persist.SuccessMeansStored | lambda/ingest/main.go:157-163 | success is reported exactly when the envelope and, if there are items, both writes of one are acknowledged; these are stored |
| Persist.ItemStored | lambda/ingest/main.go:184-217 | an item whose writes are acknowledged is in both stores at the end, not overwritten by later items |
| Persist.StoredRowMeans | lambda/ingest/main.go:195-217 | the row that an acknowledged item has in the end points at its payload, counts 1, is not grouped, has the platform that an event gives itself and none otherwise, and expires never without a time to live, and else from the moment on that as many whole days of 86400 seconds have passed since it came in |
| Auth.ExtractAuthKey | lambda/ingest/auth.go:25-54 | fails exactly when header and query string name different keys, and falls back to the envelope only without both |
| Auth.AuthOf | lambda/ingest/auth.go:21-54 | present when any form is; the key agrees with every form that names one |
| Auth.HandlersAgree | lambda/query/main.go:128-145 | a request that ingest accepts by header or query string is listed under the same key exactly if the first key in its headers, in either spelling, is the query string's, or there is none and the query string has it as a single value; or, without one in the query string, if it is the last key of the header that ingest reads |
| Auth.OrdinaryHandlersAgree | lambda/query/main.go:128-145 | for one spelling of the header and single query values: exactly if the first key in the header is the query string's or empty, or without one there the same as the last in the header |
| Auth.HeaderDsnIsParsed | lambda/ingest/auth.go:107-131 | the DSN peeked at before parsing is the one in the parsed envelope |
| AuthHeader.ParseAuthHeaderParams | lambda/ingest/auth.go:70-86 | the map holds under each name the last value the header gives it |
| AuthHeader.SentryKeyFromAuthHeader | lambda/query/main.go:147-159 | the key is the first value the header gives it |
| AuthHeader.HeaderReadsBack | lambda/ingest/auth.go:56-86 | a header written from any pairs reads back as these pairs |
| AuthHeader.BareHeaderReadsBack | lambda/ingest/auth.go:70-78 | a pair without blanks is read also where no scheme stands in front |
| AuthHeader.PairAmongBlanks | lambda/ingest/auth.go:79-83 | blanks around names, values and equals signs do not count |
| AuthHeader.NoPair | lambda/ingest/auth.go:80-82 | exactly parts without an equals sign are passed over |
| AuthHeader.DuplicateKeysDisagree | lambda/query/main.go:147-159 | with two keys in a header, ingest takes the second and queries the first |
| Dsn.FormulaReadsBack | lambda/ingest/auth.go:139-167 | of a DSN made by the documented formula, with any secret, host and path, the key reads back exactly when it is non-empty without `@` and `:`, the project exactly when it has no slash |
| Dsn.NoProtocol | lambda/ingest/auth.go:145-149 | a DSN without `://` is read from its beginning |
| Dsn.RegisteredReadsBack | scripts/register/main.go:99 | the DSN the registration tool prints reads back as its key and project |
| Dsn.ProjectReadsBack | lambda/ingest/main.go:346-369 | the project is what follows the last slash behind the userinfo, whatever comes before |
| Dsn.KeyIff | lambda/ingest/auth.go:144-167 | a key is read exactly off what begins with a key without `@` and `:`, maybe a secret, and `@`; everything else names none |
| Dsn.ProjectIff | lambda/ingest/main.go:355-369 | the project is what follows the last slash of what is behind the first `@`, and empty without a slash |
| Handler.EventIDFromItems | lambda/ingest/main.go:261-270 | the id is the first valid one an event item gives itself |
| Handler.FirstIDFrom | lambda/ingest/main.go:261-270 | it is empty exactly when no event item gives itself a valid id, and else the id that the first event item to have a valid one gives itself |
| Handler.HandleRequest | lambda/ingest/main.go:51-144 | answer, both stores and all buckets are those of the decision function, for every request, limiter state and failure pattern, with line payloads shared as in the code or copied |
| Handler.Handled | lambda/ingest/main.go:51-144 | any answer but acceptance and failed persistence leaves both stores as they were |
| HandlerResults.IDIsSafe | lambda/ingest/main.go:171-175 | the revalidation before the keys never replaces the id the handler chose |
| HandlerAnswers.AnsweredID | lambda/ingest/main.go:119-143 | an accepted request is answered with the valid id that its first event item to have one gives itself, or without one with the first half of the hash of the decompressed body |
| HandlerAnswers.OneIDOf | lambda/ingest/main.go:121-127 | there is only one such id |
| HandlerAnswers.RefusedAs | lambda/ingest/main.go:54-86 | 400 exactly for bodies that are not base64 or too long; else 403 exactly without any form of authentication, 500 exactly if the registry fails on the key the request speaks for, 401 exactly if there is a form, and no key it speaks for that is valid or fails |
| HandlerAnswers.RefusedForItsBody | lambda/ingest/main.go:96-117 | behind that and the limiter, 400 exactly for bodies that cannot be decompressed, and envelopes that cannot be parsed, with the parser's error |
| HandlerAnswers.HeaderSpeaks | lambda/ingest/auth.go:56-66 | without query keys, a usual `X-Sentry-Auth` header makes the request speak for its key, in either spelling of the name, the capitalized one first |
| HandlerAnswers.QuerySpeaks | lambda/ingest/auth.go:91-105 | without a header, so does `sentry_key` in the query string, as a single value or else as the first of several |
| HandlerAnswers.NoQueryKey | lambda/ingest/auth.go:91-105 | there is no query key exactly without a non-empty single value and a non-empty first of several |
| HandlerAnswers.KeylessHeader | lambda/ingest/auth.go:33-51 | a header without a key counts as authentication and keeps a DSN from being looked at, so that the request speaks for no key; an empty header does not count, whatever its other spelling holds |
| HandlerAnswers.DsnSpeaks | lambda/ingest/main.go:336-369 | without both, so does a DSN made by the documented formula in the envelope header; its project is that of the request if the path names none |
| HandlerAnswers.DsnIsNone | lambda/ingest/auth.go:107-131 | without both, the request counts as unauthenticated exactly if no key is read off a DSN |
| HandlerAnswers.PathNamesProject | lambda/ingest/main.go:336-343 | the project in the path counts before that of the DSN, and without both it is empty |
| HandlerAnswers.StoreRequests | lambda/ingest/main.go:315-322 | a resource that ends in `/store` or a path that holds `/store/` makes the whole body one event; every other request is an envelope |
| HandlerAnswers.EnvelopeRequests | lambda/ingest/main.go:106-117 | the items of an envelope are all kept in order, with their types, and with their payloads unless sharing disturbs one |
| HandlerAnswers.EncodingIs | lambda/ingest/main.go:324-332 | the content encoding is that of the capitalized header unless this is missing or empty, then that of the lower-case one, and empty without both |
| HandlerAnswers.RefusalSeconds | lambda/ingest/main.go:425-429 | a 429 prints at least one second; if more, the bucket of the key has no token at any moment before they have passed, and it has one a second later if it can hold one |
| HandlerResults.WritesNameTheAnswer | lambda/ingest/main.go:119-143 | every object and row written for an accepted request is under the id answered, in its project |
| HandlerResults.AcceptedMeansStored | lambda/ingest/main.go:157-163 | after a 200 the decompressed body is archived under the answered id, and some item, if there are any, is in both stores |
| HandlerResults.OnlyValidKeysAreCharged | lambda/ingest/main.go:79-94 | the limiter changes no bucket but that of a key validated for the project of the request |
| HandlerResults.NoEntryWithoutValidKey | lambda/ingest/main.go:66-86 | a request that names no key valid for its project, in any form of authentication, is not accepted and changes no object, no row and no bucket |
| HandlerResults.ItemsAsSentIff | lambda/ingest/main.go:106-117 | what is persisted is what was sent exactly when sharing disturbs no line payload of the decompressed body |
| HandlerResults.SharingKeepsOutcome | lambda/ingest/main.go:51-144 | whatever sharing does to payloads, it changes no refusal, no bucket and not whether a request is accepted |
| HandlerResults.HandledAsMeant | lambda/ingest/main.go:51-144 | a request whose payloads are not disturbed is handled exactly as if they were copied |
| HandlerResults.CarefulHandledAsMeant | lambda/ingest/main.go:51-144 | so is every request of a sender who ends bodies of at most 16385 bytes with a newline, or declares the length of every item |
| HandlerResults.ResendingConverges | lambda/ingest/main.go:121-127 | sending a request again on the same day gives the same id and leaves the stores as if it had been sent once |
| HandlerRuns.LimiterFollows | lambda/ingest/main.go:88-94 | over any run of requests the buckets are those made by one call per admitted request, under its validated key, and no other |
| HandlerRuns.PassesKeepToTheRate | lambda/ingest/main.go:51-144 | over any run of requests of any keys, the requests admitted under a key are answered 429 exactly as the limiter would deny calls at their times to that key alone; so in every window at most burst plus rate times its length pass |
| Grouping.GroupsExactlyIff | lambda/processor/main.go:188-204 | for a lower-casing that leaves lower-case letters, hyphens and bars alone: if bars may occur in a given set of the six fields, equal hashed texts mean equal platform, shape, type and value, and location or message after normalisation, exactly when the set is empty or only the type, only the value, only the file or only the function |
| Grouping.EventsCollide | lambda/processor/main.go:188-204 | for every other set, two events of different groups with bars there only and one hashed text |
| Fingerprint.TextJoinsFields | lambda/processor/main.go:188-204 | the hashed text lists the fields of the group, a bar between each two |
| IssueIDs.GroupIff | lambda/processor/main.go:188-204 | two events are of one group exactly if platform and either message, or type and value of the first exception and file, function and line of its first frame, are the same but for case and surrounding blanks |
| IssueIDs.SameCrashSameIssue | lambda/processor/main.go:185-204 | such events have one issue id, whatever the digest |
| IssueIDs.IssuesAreCrashesIff | lambda/processor/main.go:185-204 | for a digest without collisions, equal issue ids mean such events exactly if bars occur in at most one of type, value, file and function |
| IssueIDs.RunGroupsCrashes | lambda/processor/main.go:141-170 | two rows grouped by a run have one issue id exactly if their payloads are such events |
| IssueIDs.ReachableIssues | lambda/processor/main.go:158-169 | so have any two grouped rows in any reachable state, whichever runs grouped them, if event ids keep their items |
| IssueIDs.SummarySays | lambda/processor/main.go:208-222 | without AI, a summary is type and value of the first exception, or the type alone, or the message, blanks cut off, or else `unknown error` |
| IssueIDs.GroupedSummary | lambda/processor/main.go:154-161 | a grouped row has the summary of the AI if there is one and it answers, and else that one |
| Processor.Scan | lambda/processor/main.go:257-286 | whatever the pages, the scan returns each waiting row once and nothing else |
| Processor.Update | lambda/processor/main.go:300-318 | sets status, issue id and summary unless there is an issue id; every other attribute and row stays |
| Processor.HandleRun | lambda/processor/main.go:135-174 | a run writes what its log says; the rows scanned are those grouped plus those skipped at each of three places, and for each row its payload and its state after the run show why |
| Processor.FateExplains | lambda/processor/main.go:141-170 | a row counts as grouped exactly when its payload parses and its update is acknowledged, and is then grouped under the payload's fingerprint; an unfetched or unparsed one is unchanged; one not updated is unchanged unless its update was done unacknowledged |
| Processor.FairRunGroupsAll | lambda/processor/main.go:135-174 | a run in which nothing fails groups exactly the waiting rows whose payload parses and changes no other |
| Processor.SecondRunIsIdle | lambda/processor/main.go:135-174 | after it, another run changes nothing, whatever fails in it |
| Protocol.AlwaysGood | lambda/ingest/main.go:177-219 | in every state that interleaved requests and runs can reach, with any failures and stale scans: archived items have their envelope, rows point at archived items under their own place, and a row is grouped exactly when it has an issue id |
| Protocol.UpdateKeeps | lambda/processor/main.go:300-318 | a conditional update of a row seen at any earlier moment keeps that |
| ProtocolFingerprints.AlwaysPrinted | lambda/processor/main.go:158-169 | if an event id is always sent with the same items, every issue id is at all times the fingerprint of the payload at the row's path |
| ProtocolRefinement.RequestAlonePersists | lambda/ingest/main.go:170-230 | after any run, there are protocol steps for a request that leave the stores as persisting it does, for every failure pattern, and everything else as it was |
| ProtocolRefinement.RunAloneProcesses | lambda/processor/main.go:135-174 | after any run, there are protocol steps for a run of the processor that leave the index as its loop over all waiting rows does, for every pattern of failed fetches and updates, and everything else as it was |
| ProtocolRefinement.ReachableIsReady | lambda/processor/main.go:257-267 | in every reachable state waiting rows have no issue id and their payloads are archived |
| ProtocolRefinement.FairRunFromReachable | lambda/processor/main.go:135-174 | so from every reachable state an undisturbed run groups every waiting row whose payload parses and changes no other |
| ProtocolResends.NextPrintsIff | lambda/ingest/main.go:187 | exactly which steps keep every issue id the fingerprint of what its row points at: an object put fails or has the fingerprint of the grouped rows at its path; an update fails, or its payload does not parse, or the row has an issue id, or points at a payload of the same fingerprint by now |
| ProtocolResends.AlwaysPrintedIff | lambda/processor/main.go:158-169 | throughout a run every issue id is such a fingerprint exactly if every step is of that kind |
| ProtocolResends.StaleUpdatePrintsWrong | lambda/processor/main.go:300-318 | for any two payloads of different fingerprints, a run from nothing and without failure that ends with a row grouped under the old one while its path holds the new one |
| ProtocolResends.IssueIDsStay | lambda/processor/main.go:310-313 | only putting a row again changes a row that has an issue id |
| QueryPlan.BuildPlan | lambda/query/main.go:168-227 | the plan built step by step is the plan function's |
| QueryPlan.AcceptedIff | lambda/query/main.go:168-227 | the store takes the plan - every placeholder used is defined and every one defined is used, no range is reversed, and the key condition fixes the hash key and bounds only the range key of the table or index it queries - except exactly for a time bound with `type=all` and no level, and for bounds of which the later comes first |
| QueryPlan.KeysFit | infra/main.tf:137-163 | a listing with time bounds queries the index whose range key is the timestamp, one without the table itself, and the filter names no key |
| QueryPlan.SelectsIff | lambda/query/main.go:168-227 | for a plan that is not refused, evaluating key condition, filter and tables on any row says project matches, timestamp is in bounds, type and level rules hold |
| QueryPlan.ScanIsRefused | lambda/processor/main.go:260-267 | the processor's filter as it is written uses a reserved name that nothing aliases |
| Paging.LimitOf | lambda/query/main.go:90-100 | limits are 1 to 200, larger ones cut to 200, 50 if none is given, and exactly what is not a number, not positive or beyond a 64-bit integer is refused |
| Paging.StaticScanReturnsAll | lambda/query/main.go:228-257 | on a table nobody writes to, the pages return the filtered rows in key order, each once, for any limits |
| Paging.StaticScanEnds | lambda/query/main.go:250-257 | there, following cursors ends within one page more than there are rows |
| Paging.KeysGoUp | lambda/query/main.go:228-257 | whatever is written between pages, keys only go up from page to page |
| Paging.StayingKeyReturnedOnce | lambda/query/main.go:228-257 | if a row that passes the filter is there under a key throughout a scan, the same or one written in its place, exactly one page returns a row under that key, whatever else is written |
| Paging.ReturnedOnceOnPage | lambda/query/main.go:228-257 | and that page returns one such row |
| Listings.ListingReturnsMatches | lambda/query/main.go:168-257 | following the keys of a listing that is not refused to the end returns exactly the rows that match it, in key order |
| Listings.ListingInOrder | lambda/query/main.go:174-205 | they come in the order of event ids without time bounds, and of timestamps with one |
| Listings.ClientGetsMatches | lambda/query/main.go:228-301 | so does a client that sends back each `next_cursor` text until it gets an empty one |
| Listings.CursorRefusedIff | lambda/query/main.go:228-234 | a page starts exactly at cursors that are empty, or decode to JSON pairs |
| Listings.IngestedItemIsListed | lambda/ingest/main.go:195-212 | an item whose writes are acknowledged has a row, and the listings that select it, of those not refused, are those for its project, its sanitized type or all types, the event's own time or else the time it came in, and an event's own level |
| Listings.ScanMeansWaiting | lambda/processor/main.go:257-267 | the processor's filter, once accepted, selects exactly the event rows not grouped yet |
| Cursor.EncodeCursor | lambda/query/main.go:262-282 | succeeds exactly for keys of string attributes, and lists each pair once |
| Cursor.DecodeCursor | lambda/query/main.go:284-301 | the key of the listed pairs, or an error for what is neither base64url nor JSON |
| Cursor.Base64RoundTrip | lambda/query/main.go:281-288 | unpadded base64url (section 5 of RFC 4648) decodes what it encoded, for every byte string |
| Cursor.DecodableIff | lambda/query/main.go:284-288 | exactly texts of letters of the alphabet and line ends decode, unless one letter is left over behind groups of four |
| Cursor.SameBits | lambda/query/main.go:281 | three bytes and their four sextets are the same bits; a rest is filled up with zero bits |
| Cursor.AlphabetRuns | lambda/query/main.go:281 | sextets are written as the characters of table 2 of RFC 4648 |
| Cursor.CursorRoundTrip | lambda/query/main.go:262-301 | in whatever order a key was listed, its cursor decodes to the key |

## Left out

- EnvelopeReader.ParseEnvelope: of shared line payloads it says what they show when the source hands out as much as fits, like the reader over a body in memory that the handler uses; from other sources that depends on the chunks.
- EnvelopeReader.Source: hands out at least one byte per read and reports the end on its own. A source that reports the end together with its last bytes would let one unended line of 16385 bytes pass; read errors other than the end are not modelled.
- RateLimiter: reals instead of floating point, and no rounding of durations to nanoseconds; the mutex makes calls atomic.
- Cursor: that JSON decoding undoes JSON encoding of pairs is a hypothesis.
- Paging: keys are compared as one string; with the time index that string is the timestamp and what breaks ties.
- Persist: the store writes themselves (requests, credentials, timeouts) are an outcome each: done, failed, or done and reported as failed.
- Persist.StoredRowMeans: times to live are unbounded; beyond 106751 days the source's duration in nanoseconds overflows.
- Protocol: expiry of rows and objects; an update of a row that expired in between would create a partial one.
- Processor: prompts and the AI endpoint, whose summary is any text.
- Query handler: its own refusals (no project, no key, key not valid, no such limit), which repeat those of the ingest handler.
- Handler: base64 decoding of bodies, decompression, CORS headers, response bodies and logging.
- QueryPlan: the text of expressions; a plan is its clauses and tables.
- Key validation, environment parsing, Lambda entry points, infrastructure, the browser example and the registration tool except for the DSN it prints.
