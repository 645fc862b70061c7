# Verified model of the Proxmox MCP server

This project models, in Dafny, the parts of the server whose correctness is not visible from one function body,
and proves what they promise. It has three cores.

**The managed-credential protocol** (`ManagedAuth`, `AuthProtocol`, `ApiClients`). A cluster that starts on
bootstrap credentials is given an API token that the server mints over SSH, keeps in memory, rotates on a timer
and repairs when a request is refused. `AuthProtocol` is a step system: request callers, the rotation timer,
reconcile passes, scripts running on the host and outside interference interleave at every `await`, and everything
between two awaits is one step. `repairPromise` is the lock. `ManagedAuth` holds the arithmetic of the deadlines and
the object `ManagedAuthLifecycle` with the maps it updates in place. `ApiClients` is the client cache with its
fingerprint, while credentials are exchanged and logins come back late.

**Translations that must preserve meaning** (`Shell`, `FileTransport`, `Utf8`, `Base64`, `MaybeBase64`, `Json`,
`UpidHandle`, `Regex`, `Glob`, `PathTemplate`, `Catalog`, `BootDiagnostics`). Quoting is proved against a tokenizer with
quote removal (section 2.2, Quoting, of XCU chapter 2 of IEEE Std 1003.1) and a small interpreter for pipelines,
redirections and nested shells; base64 and base64url follow sections 4 and 5 of RFC 4648; UTF-8 follows sections 3
and 4 of RFC 3629, with the replacement rule of the runtime's decoder; JSON strings follow section 7 of RFC 8259.
`Regex` has a parser and a backtracking matcher for the expressions that the program builds as text; glob patterns,
path templates and indexed parameter names are proved against it and against direct definitions.

**Job and artifact state machines** (`Jobs`, `UpidSnapshot`, `Artifacts`). Every call and callback is an event, the
job registry's meaning is the fold of its events, and the class `JobManager` is proved to follow that fold step by
step; each call of `ArtifactManager` is proved to do what a run of artifact events does, so the theorems about
runs hold of any sequence of its calls, with other events in between. The properties are about every run: many jobs,
many artifacts, expiry, removal, asynchronous reads and other programs that share the file system. A record is proved
to be its history, field by field.

`Common`, `JsValues` and `Text` hold shared types and the string operations of the source language.

`dafny verify dfyconfig.toml` checks the whole project.

## What the proofs found

Each of these is a lemma with the exact condition, or a concrete run.

- A file read of the path `-` reads standard input instead of the file, because `base64 -w0 -- -` does. Write then
  read is the identity if and only if the path is not `-` (`FileTransport.WriteThenRead`).
- `*` is the only special character of exactly the glob patterns without `?`: the translation leaves `?` unescaped,
  where it is a quantifier (`Glob.FaithfulIffNoQuestion`). The `.` of the translation does not cross line terminators.
- Validation changes nothing when it is applied again, and gives schema types, for every argument but a list of
  commands for a parameter typed as a number or flag (`Catalog.CoerceTypes`, `Catalog.ValidateTwice`). The vendored
  schema has no such parameter; it takes a schema supplied through `PVE_DOCS_SCHEMA_PATH`.
- A UPID-backed job that this process calls completed may read back as failed or cancelled: the two agree exactly when the
  task's exit status is empty or OK (`UpidSnapshot.CompletedJobsStayEnded`, with a run in which they differ in
  `UpidSnapshot.CompletedHereFailedThere`).
- Dropping an expired artifact leaves its temp file behind for good: temp files go exactly with removals of
  registered artifacts (`Artifacts.TempFileGoesIffRemoved`).
- `getApiClientFingerprint` is not injective: a colon may stand in a user name or in a realm
  (`ApiClients.FingerprintIsNotInjective`). No writer of the credentials in the program turns that into a wrong client:
  all of them write tokens, and then a handed-out ticket is always that of the current login
  (`ApiClients.TicketsAreCurrent`). `ApiClients.CurrentIffTellApart` says exactly when it would matter.
- A section body whose last line is not ended swallows its own end marker and the section is lost
  (`BootDiagnostics.PresentIffEnded`).
- Without the single-flight lock the server can end up with a dead token (`AuthProtocol.LockIsNeeded`), and the lock
  alone does not exclude it either: the script of a pass that lost its connection outlives the pass and may delete the
  next pass's token (`AuthProtocol.LostScriptKillsToken`). `AuthProtocol.AgreeExactly` says exactly when they agree.
- A log limit of zero would return the whole log (`Jobs.LastLogs`). No tool asks for one: `listLogs` has no
  caller, and `job_logs`, which slices by itself, takes positive limits only.

## Model

| member | source | states |
|---|---|---|
| ManagedAuth.RotationBeforeExpiry | src/managed-auth.ts:388-408 | A commit arms the stored timer for fifteen minutes later and disarms the previous one; that moment is strictly before the token expires if and only if the pass, from building its script to committing, took less than 300 s minus the milliseconds the rounding dropped; 299 s always suffice |
| ManagedAuth.UpsertedLookup | src/managed-auth.ts:324-333 | After an upsert the new profile is found under its name and every other name finds what it found before |
| ManagedAuth.ManagedAuthLifecycle.constructor | src/managed-auth.ts:61-82 | Exactly the clusters on bootstrap credentials are managed, each with nothing reconciled, no promise and no timer |
| ManagedAuth.ManagedAuthLifecycle.ResolveManagedClusterName | src/managed-auth.ts:84-94 | A managed name resolves to itself, any other name to the only managed cluster if there is exactly one, otherwise to none |
| ManagedAuth.ManagedAuthLifecycle.EnsureCluster | src/managed-auth.ts:132-150 | Leads a new pass, joins the one under way, or does nothing; only leading changes the state, and then only the stored promise |
| ManagedAuth.ManagedAuthLifecycle.RepairCluster | src/managed-auth.ts:153-173 | The promise awaited is the one stored afterwards, and a pass starts exactly when none was stored |
| ManagedAuth.ManagedAuthLifecycle.ClearRepair | src/managed-auth.ts:165-170 | The cleanup clears the stored promise of its cluster and nothing else |
| ManagedAuth.ManagedAuthLifecycle.UpsertRuntimeProfiles | src/managed-auth.ts:318-351 | Both hidden profiles, with their names, users, passwords and ports, can be looked up afterwards, other profiles and other clusters are untouched, the node is listed once on the bootstrap profile |
| ManagedAuth.ManagedAuthLifecycle.ScheduleRotation | src/managed-auth.ts:353-369 | The previous timer is disarmed, the new one is armed for exactly fifteen minutes later and stored, other timers stay |
| ManagedAuth.ManagedAuthLifecycle.CommitPass | src/managed-auth.ts:388-409 | Credentials, deadlines, profiles, node entry and timer of one cluster change together, and every other cluster stays; the armed timer is due before the new token expires exactly when the pass was fast enough |
| AuthProtocol.ReachableInv | src/managed-auth.ts:132-173 | Every interleaving keeps the lock, timer, commit, token and caller invariants |
| AuthProtocol.SingleFlight | src/managed-auth.ts:153-173 | At most one pass runs, the stored promise is set exactly from its start until its cleanup, at most one timer is armed |
| AuthProtocol.OutcomesAreFinal | src/managed-auth.ts:165-172 | A settled outcome never changes and a finished pass never comes back, over any continuation |
| AuthProtocol.NoSecondPass | src/managed-auth.ts:160-165 | While a pass is under way nothing starts another, however many callers, timers and startups ask |
| AuthProtocol.EnsureJoins | src/managed-auth.ts:139-142 | A caller that checks its credentials during a pass awaits that pass and starts nothing |
| AuthProtocol.EnsureLeads | src/managed-auth.ts:132-150 | A caller that checks its credentials joins the pass under way, goes on when more than 30 s remain before both deadlines, and otherwise leads a new pass, one more than it led before |
| AuthProtocol.TimerLeads | src/managed-auth.ts:363-368 | A timer fires exactly when it is armed and due, is then disarmed, and starts a pass exactly when none is under way; so does the start of the server |
| AuthProtocol.RotationComesFirst | src/managed-auth.ts:388-408 | Over every run from the moment a pass built its script to its commit, the only armed timer afterwards is due fifteen minutes after the commit, and before the token expires exactly when the pass took less than 300 s minus the rounding |
| AuthProtocol.AuthFailureJoins | src/services.ts:360-362 | A caller whose first try failed in a way that counts as one of authentication, during a pass, awaits that pass and starts nothing |
| AuthProtocol.AuthFailureRepairs | src/services.ts:360-363 | A first try that failed in a way that counts as one of authentication always ends up awaiting a pass under way: the one whose promise is stored, or else a new one, which it leads |
| AuthProtocol.OtherRepliesEnd | src/services.ts:357-366 | An accepted request ends the call with success; a failed retry, or a failure of any other kind, ends it with that failure and starts nothing |
| AuthProtocol.EveryRequestIsEnsured | src/services.ts:355-355 | In every run, at every moment, a call has sent at most as many requests as it has gone through the credential check |
| AuthProtocol.SuccessIffAccepted | src/services.ts:357-366 | In every run a finished call succeeded if and only if the host accepted a request of it |
| AuthProtocol.RepairedCallSucceeds | src/services.ts:347-368 | From every reachable state with a failed first try and no pass under way there is a run in which the caller leads a pass, the host mints, the pass commits and the retry is accepted |
| AuthProtocol.NobodyIsStuck | src/managed-auth.ts:132-173 | In every reachable state every unfinished caller can go on, or the pass it awaits can fail, settle or be cleaned up |
| AuthProtocol.WaitersShareTheOutcome | src/managed-auth.ts:160-172 | Every caller that awaited a pass still does, or resumed with exactly that pass's outcome |
| AuthProtocol.ServerAndHostAgree | src/managed-auth.ts:371-409 | When the host's last token event is a mint by a committed pass and nothing outside replaced the credentials, the server uses exactly the token the host accepts and knows when it expires |
| AuthProtocol.AgreeExactly | src/managed-auth.ts:371-409 | When no secret is minted twice, the server uses the token live on the host if and only if the last thing that happened to that token is a mint by a committed pass and nothing outside replaced the server's credentials |
| AuthProtocol.LostScriptKillsToken | src/managed-auth.ts:299-300 | A run with the lock in which the script of a failed pass deletes the token that the next pass has minted and committed |
| AuthProtocol.LockIsNeeded | src/managed-auth.ts:160-163 | A run of the same steps without the lock ends with both passes committed and the server on the older, dead token |
| AuthProtocol.CallIsBounded | src/services.ts:347-367 | One call, of `apiRequest` or of `runSshCommand` (lines 729-752), sends at most two requests and starts at most three passes, whichever failures count as ones of authentication; a second request is always the retry |
| AuthProtocol.RetryIsAccepted | src/services.ts:360-363 | The retry after a successful repair is not refused while that repair's mint is the last token event and unexpired |
| AuthProtocol.InFlightIsFrozen | src/services.ts:357-358 | A request in flight keeps the credentials it was sent with until the host has checked them |
| AuthProtocol.UndisturbedRequestIsAccepted | src/services.ts:347-358 | A request, first try or retry, sent while server and host agree is not answered 401 if nothing touches the host's token before the host checks it and it has not expired by then |
| AuthProtocol.SkippedRepairIsSafe | src/managed-auth.ts:144-147 | A caller that skips repair while server and host agree has more than 30 s before the host's token expires |
| ApiClients.FingerprintDecides | src/services.ts:306-317 | When no field but the password or secret contains a colon, two fingerprints are equal if and only if they stand for the same login |
| ApiClients.TicketsAreCurrent | src/services.ts:320-332 | After any sequence of requests, late logins and swaps to tokens, the only swaps the program makes, the client handed out has no ticket or one obtained with exactly the cluster's current login, whatever names and passwords contain |
| ApiClients.CurrentIffTellApart | src/services.ts:306-332 | If ticket logins were swapped too: all runs over a set of logins keep handed-out tickets current if and only if no two different logins of the set share a fingerprint |
| ApiClients.SeparableLoginsStayCurrent | src/services.ts:310-311 | That is the case when no field but the password contains a colon |
| ApiClients.AssignedOver | src/services.ts:320-332 | A client logged in as one user is handed out after another login is assigned if and only if the two fingerprints are equal |
| ApiClients.LoggedInOnce | src/api.ts:102-104 | While a client holds a whole ticket and the login stays, no request logs in again |
| ApiClients.FingerprintIsNotInjective | src/services.ts:306-317 | Two logins that differ in where a colon stands share a fingerprint |
| ApiClients.ProxmoxApiClient.EnsureTicket | src/api.ts:97-130 | Logs in exactly when half of the ticket is missing; a failed login leaves the old values |
| ApiClients.ClientCache.GetApiClient | src/services.ts:320-332 | Returns the cached object exactly when the fingerprint is the stored one, otherwise a fresh one without a ticket; other clusters untouched |
| ApiClients.ClientCache.SetClusterAuth | src/services.ts:558-562 | Replaces one cluster's credentials and forgets its client, nothing else |
| Shell.TokenizeJoin | src/utils.ts:74-81 | The shell reads a joined argument vector back exactly if and only if it is free of NUL, whatever quotes, newlines, dollars or backslashes it contains |
| Shell.JoinInjective | src/utils.ts:79-81 | Two argument vectors never share a command line |
| Shell.UnwrapWrapAll | src/ssh.ts:223-225 | A command wrapped to any depth, in any mixture of the two styles, unwraps to the original after as many tokenizations |
| FileTransport.WriteLineRuns | src/services.ts:1094-1123 | A write command, run on the node or through `pct exec`, puts exactly the bytes at exactly the path and prints nothing |
| FileTransport.ReadLineRuns | src/services.ts:1018-1040 | A read returns the file's bytes, fails when there is no file, and takes the path `-` for standard input |
| FileTransport.WriteThenRead | src/services.ts:1018-1123 | Writing and then reading returns exactly the bytes written, for every byte string, target and standard input, if and only if the path is not `-` |
| FileTransport.OtherFilesUntouched | src/services.ts:1098-1118 | Running a write command succeeds and leaves every other file on the node and in every container as it was, and a client reads the same from it as before |
| FileTransport.NodeScriptIsDelivered | src/services.ts:755-759 | The host's bash is given exactly the UTF-8 bytes of the generated script |
| Utf8.DecodeEncode | src/artifacts.ts:56-56 | Decoding the encoding of a text gives the text back |
| Utf8.EncodeDecode | src/mcp-common.ts:50-58 | Bytes that decode without a replacement character are the encoding of what they decode to |
| Utf8.CleanDecoding | src/mcp-common.ts:50-58 | A decoding is free of replacement characters if and only if the bytes encode some text free of them |
| Utf8.ScalarInTable | src/artifacts.ts:56-56 | Each character is encoded by the table of section 3 of RFC 3629 |
| Utf8.IllFormedIsMaximal | src/mcp-common.ts:50-58 | One replacement character stands for the longest beginning of a well-formed sequence, or for one byte when there is none |
| Base64.DecodeEncode | src/services.ts:1025-1025 | The runtime's decoder inverts padded base64 and base64url on every byte string |
| Base64.StrictDecodeEncode | src/services.ts:1100-1100 | The command line decoder inverts padded base64 on every byte string |
| Base64.PackInjective | src/utils.ts:169-169 | Distinct byte strings have distinct encodings even without padding |
| Base64.EncodersFollowTheTables | src/utils.ts:150-169 | Both encoders write groups of 24 bits with the digits listed in RFC 4648, the padded one filling the last group |
| Text.TrimMeaning | src/boot/diagnostics.ts:121-143 | White space around a text, and nothing else of it, is trimmed |
| Text.UpperMeaning | src/schema.ts:180-180 | Every small ASCII letter becomes its capital and every other character stays |
| MaybeBase64.BufferCharacterised | src/utils.ts:157-173 | The result is the data whose encoding, up to padding and with white space anywhere, the text is, or the text's own bytes when it is that of none, and nothing else; no text is no bytes |
| MaybeBase64.BufferReadsEncodings | src/utils.ts:157-173 | The encoding of non-empty data decodes to it with white space inserted anywhere |
| MaybeBase64.TextRoundTrip | src/utils.ts:138-154 | Every text comes back from the base64 of its UTF-8 bytes, with white space inserted anywhere |
| MaybeBase64.TextCharacterised | src/utils.ts:138-154 | A text that spells some encoding is decoded to exactly that text, and any result other than the input re-encodes to the input |
| Json.ParsePrint | src/jobs.ts:38-53 | Parsing printed JSON gives the value back, for all strings of UTF-16 code units |
| UpidHandle.HandleRoundTrip | src/jobs.ts:31-74 | Parsing a made job id returns exactly the operation, target and UPID it was made from, with or without the optional fields |
| UpidHandle.IdsAreDistinct | src/jobs.ts:31-39 | Distinct payloads never share an id |
| UpidHandle.LocalIdIsNoHandle | src/jobs.ts:42-45 | A process-local job id is never taken for a handle |
| UpidHandle.HandleMeaning | src/jobs.ts:42-74 | The id made of any JSON value parses to a handle if and only if the value is an object of version 1 that names the operation, a target with a cluster and a kind, and the UPID, the last of repeated names counting; text after the value makes it no handle |
| Regex.TestUnfold | src/schema.ts:67-67 | Backtracking finds a match exactly when some permitted repetition of the first item leaves a text the rest matches |
| Regex.ParseLiterals | src/schema.ts:60-60 | Escaped text parses to its own characters in front of anything but a quantifier |
| Regex.ExecLiterals | src/utils.ts:14-15 | Literals match exactly their own text, compared as the flags ask, in front of what the rest matches |
| Glob.WildcardIsGlob | src/utils.ts:13-16 | For every pattern without a question mark the expression exists and agrees with a direct glob matcher on every value |
| Glob.OneLine | src/utils.ts:14-14 | On values without line terminators the matcher is the plain glob in which a star takes anything |
| Glob.StarAlone | src/utils.ts:14-15 | A lone star matches exactly the values without one of the four line terminators |
| Glob.FaithfulIffNoQuestion | src/utils.ts:13-16 | The star is the only special character of a pattern if and only if it has no question mark; otherwise the expression fails to build or accepts too much |
| Glob.MatchesPatternMeaning | src/utils.ts:19-30 | A value passes if there are no patterns or one of them matches; a missing value passes if the star is listed |
| Glob.FirstPatternDecides | src/utils.ts:28-29 | For patterns of any kind: the first that is not passed over decides, by matching or by having no expression |
| PathTemplate.PathTemplateToRegex | src/schema.ts:56-70 | The rewriting loop produces text that parses to the template's literals with one slash-free group per placeholder, and the placeholder names in order |
| PathTemplate.TemplateParses | src/schema.ts:56-67 | The same for the functions the loop is proved against |
| PathTemplate.NamesAreProper | src/schema.ts:57-57 | Whatever the template, a placeholder name is not empty, has no closing brace and stands in the template in braces |
| PathTemplate.AcceptsExactlyInstances | src/schema.ts:56-70 | A path is accepted if and only if it is the template with a non-empty slash-free string for each placeholder |
| PathTemplate.CapturesRebuild | src/schema.ts:186-195 | Whatever is captured are such strings, one per placeholder, and they rebuild the path |
| PathTemplate.InstancesAreUnique | src/schema.ts:56-70 | With whole-segment placeholders no other strings rebuild the path |
| Catalog.CoerceTypes | src/schema.ts:78-108 | A value gets its schema's type, and coercing again changes nothing, if and only if it is not a command list for a number or flag |
| Catalog.CoerceMeaning | src/schema.ts:78-108 | What each value becomes: texts that begin with an integer become it and other texts NaN, numbers the integer next to them towards zero, exactly four words count as true, text stays text |
| Catalog.FlagsAreRead | src/schema.ts:93-99 | A successful validation reads a text given for a flag as true if and only if, in lower case, it is one of the four words |
| Catalog.IntegersAreRead | src/schema.ts:88-89 | It reads the decimal text of any integer, behind white space and in front of anything but a digit, as that integer |
| Catalog.IndexedMeaning | src/schema.ts:121-129 | A marked schema name resolves an argument name if and only if that is the text before the first `[n]`, digits, and the text after it |
| Catalog.ResolveSchemaProperty | src/schema.ts:111-133 | An exact name wins, otherwise the first marked name in schema order that matches |
| Catalog.Validate | src/schema.ts:209-257 | The three loops over arguments and schema compute a per-argument outcome that does not depend on the order of overwriting, with the first unknown or missing parameter as the error |
| Catalog.ValidatedWhen | src/schema.ts:215-232 | Validation succeeds if and only if nothing is missing and, for a closed schema, nothing is unknown |
| Catalog.ValidatedErrors | src/schema.ts:215-232 | The error names the first unknown argument of a closed schema, or else the first missing parameter in schema order |
| Catalog.ValidatedKeeps | src/schema.ts:234-256 | Success keeps exactly the keys, leaves path parameters, nulls and undescribed values alone and makes of the others what their parameters ask for, of their type unless they clash |
| Catalog.ValidateTwice | src/schema.ts:209-257 | Validating a result again succeeds and changes nothing if and only if there was no clashing argument |
| Catalog.ApiCatalog.Walk | src/schema.ts:155-174 | The recursive walk appends exactly the depth-first list of entries, or fails when a template does not compile, which templates of ordinary literals and names never do |
| Catalog.EntriesAreTheMethods | src/schema.ts:155-172 | The walk stores an entry for every method of every node with a path, at any depth, and nothing else |
| Catalog.WalkIsPreOrder | src/schema.ts:156-172 | The entries of a node stand, in the order of its methods, behind everything of the nodes before it and in front of those of its children |
| Catalog.CallsFindInstances | src/schema.ts:155-206 | In a walked tree of such templates an entry answers a call if and only if its method is the call's in capitals and the path is an instance of its template |
| Catalog.ApiCatalog.Find | src/schema.ts:179-206 | The first entry in walk order whose method is the call's in capitals and whose expression accepts the path, and none only if there is none; in a walked tree of such templates the match rebuilds the path |
| Catalog.FoundParamsRebuildPath | src/schema.ts:193-195 | Path parameters are non-empty and slash-free, one for each name of the template, and substituted back by name rebuild the path that was looked up |
| Catalog.FromEntriesMeaning | src/schema.ts:193-195 | Exactly the names become keys, each with the value that stands where the name stands last |
| Catalog.TreeMatchesRebuildPath | src/schema.ts:155-195 | The same for every entry that walking a tree of templates of ordinary literals and distinct names stores |
| BootDiagnostics.Parse | src/boot/diagnostics.ts:105-164 | The parser's loop is the fold of one line at a time, and the report is read off its result |
| BootDiagnostics.JoinedLinesSplit | src/boot/diagnostics.ts:112-147 | Joining lines and splitting the text gives the lines back |
| BootDiagnostics.PrintedSectionsParse | src/boot/diagnostics.ts:16-142 | Parsing printed sections, with LF or CRLF line by line, yields each key's last closed body trimmed, and nothing under a blank key; abandoned sections contribute nothing, stray ends are ignored, mount and error lines count anywhere |
| BootDiagnostics.BodiesLookup | src/boot/diagnostics.ts:131-136 | A key is present if and only if some section was closed under it, and holds the last such body |
| BootDiagnostics.PresentIffEnded | src/boot/diagnostics.ts:16-20 | Among any other sections, one with a last body line that is ended contributes its body, one with a last line that is not ended changes nothing; so it is present if and only if that line is ended, unless another section has its key |
| Jobs.ReachableInv | src/jobs.ts:83-244 | In every run a controller exists exactly while a job runs, a completion has settled exactly when the job has ended, a completed job has a result reference, the related UPID agrees with it, and logs are available exactly when there are some |
| Jobs.JobsOnlyAdvance | src/jobs.ts:151-215 | In every continuation a job moves forward only; once it has ended its state, result and error never change, and its log only grows |
| Jobs.OneStageAtATime | src/jobs.ts:151-215 | One event takes a job from pending to running or from running to an end at most |
| Jobs.EndsExplained | src/jobs.ts:196-201 | A cancelled job was aborted while it ran, a failed one never was |
| Jobs.CancelledIffAborted | src/jobs.ts:196-201 | Of jobs whose executor threw, exactly those aborted while running are cancelled |
| Jobs.CompletedHoldsResult | src/jobs.ts:188-195 | A completed job holds what its executor returned |
| Jobs.RecordIsHistory | src/jobs.ts:89-213 | In every run each field of a record is what the events say: the messages logged in order, the progress, artifacts and UPID set last, the result and error its executor ended with, the time of its last event |
| Jobs.SettledIsTerminal | src/mcp-common.ts:139-156 | In every wait mode a non-null result has ended if and only if the job was run; a job never run comes back pending |
| Jobs.LastLogs | src/jobs.ts:145-148 | The last lines, as many as asked for and there are; all of them for a limit of zero |
| Jobs.JobManager.Create | src/jobs.ts:89-120 | Adds one pending record and hands out the object that the registry goes on changing |
| Jobs.JobManager.CreateUpidJob | src/jobs.ts:123-128 | The new job's id parses back to the target, operation and UPID it was made from |
| Jobs.JobManager.Run | src/jobs.ts:151-157 | The record runs, with a fresh controller and an unsettled completion; nothing happens for an unknown id |
| Jobs.JobManager.AppendLog | src/jobs.ts:163-168 | One record's log grows by the line; no other record changes |
| Jobs.JobManager.SetProgress | src/jobs.ts:169-173 | One record's progress is replaced; no other record changes |
| Jobs.JobManager.SetRelatedUpid | src/jobs.ts:174-180 | Related UPID and result reference of one record change together |
| Jobs.JobManager.SetArtifacts | src/jobs.ts:181-185 | One record's artifact list is replaced |
| Jobs.JobManager.Return | src/jobs.ts:188-195 | One record completes with its result and a result reference, its controller goes, its completion settles |
| Jobs.JobManager.Throw | src/jobs.ts:196-211 | One record ends as cancelled or failed after its own controller, keeping a thrown result if there is one |
| Jobs.JobManager.Abort | src/jobs.ts:237-241 | Signals exactly the registered controller of that job |
| Jobs.JobManager.ListLogs | src/jobs.ts:145-148 | The last lines of a known job's log, nothing for an unknown one |
| UpidSnapshot.RehydratedJob | src/tools/escape/register.ts:67-96 | Reading back succeeds exactly when the UPID names a node and the cluster answers; the job is the one the id was made from, running unless the task stopped, completed if it ended well, else cancelled or failed by what its exit status says, which is the error |
| UpidSnapshot.ClassifyMeaning | src/tools/escape/register.ts:49-65 | Completed means stopped with an empty exit status or the two letters of OK, cancelled means one that mentions aborting, cancelling or interrupting in any case, failed any other |
| UpidSnapshot.UpidNodeMeaning | src/tools/escape/register.ts:9-15 | The node is the part between the first colon and the next one or the end, and must not be empty |
| UpidSnapshot.WaitForUpidJobSnapshot | src/tools/escape/register.ts:98-112 | Returns the first snapshot that is not running or was taken after the timeout, within one turn more than the timeout has seconds |
| UpidSnapshot.TurnsBounded | src/tools/escape/register.ts:98-112 | With sleeps of a second or more no turn beyond the timeout's seconds goes on waiting |
| UpidSnapshot.WaitForUpid | src/services.ts:400-440 | Returns only the status of a stopped task and the log read after it, having reported progress once per unfinished turn, counting up |
| UpidSnapshot.CompletedJobsStayEnded | src/services.ts:424-439 | Once a job completed locally every later snapshot has ended with the same status, and agrees that it completed if and only if the exit status is empty or OK |
| UpidSnapshot.CompletedHereFailedThere | src/jobs.ts:188-190 | A run for every UPID in which the job is completed in this process and its snapshot says failed |
| UpidSnapshot.CancelReachesTheTask | src/tools/escape/register.ts:361-375 | A UPID-backed job is cancelled at the cluster and by the UPID in its id, and the snapshot that follows succeeds exactly when the UPID names a node and the cluster answers; a process-local job is cancelled in process, or through its task, after which the snapshot fails; an unknown one not at all |
| Artifacts.RunKeepsInv | src/artifacts.ts:64-237 | Every interleaving of creation, registration, links, reads, removals, deletions and other programs keeps the store consistent |
| Artifacts.CreatedBytesReadBack | src/artifacts.ts:64-162 | No read of an artifact ever returns other bytes than it was created with; while it is registered and unexpired it returns them, whatever the backing, and so does a read under way |
| Artifacts.ArtifactLivesItsLifetime | src/artifacts.ts:64-267 | In every run from an empty store, an artifact with a made id is found by its own URI and, while registered, read back with its bytes if and only if its lifetime, an hour unless given and endless for zero, has not passed since its creation |
| Artifacts.DeadForever | src/artifacts.ts:192-221 | A removed or expired id fails every read in every continuation |
| Artifacts.OthersUnaffected | src/artifacts.ts:64-202 | Events that name other ids, and other programs' files, never change what an id reads as |
| Artifacts.TempFileGoesIffRemoved | src/artifacts.ts:192-221 | In every continuation a temp file is deleted or about to be if and only if its artifact was removed while registered; once deleted it stays deleted, and that of an artifact dropped as expired stays for good with its bytes |
| Artifacts.RemovalDeletes | src/artifacts.ts:192-202 | After a removal the deletion of the temp file can follow, and then the file is gone |
| Artifacts.PublishedBytesReadBack | src/artifacts.ts:64-162 | What a creating call stored is all that its id ever reads as, and is read back while it is registered and unexpired, whatever follows the call |
| Artifacts.UriResolves | src/artifacts.ts:223-237 | An artifact's URI resolves to its id if and only if the id is one plain path segment |
| Artifacts.ReferenceMeaning | src/artifacts.ts:223-237 | A given id counts before a given URI, and a URI counts exactly if it is that of one plain path segment |
| Artifacts.LinksReadThrough | src/artifacts.ts:98-162 | In every continuation a linked file reads as what is at its path, on this host or at its target, at the moment of the read, while it is registered and unexpired |
| Artifacts.ResourceCarriesBytes | src/artifacts.ts:177-188 | A resource carries the artifact's exact bytes, as text or as base64 |
| Artifacts.ArtifactManager.CreateBinaryArtifact | src/artifacts.ts:64-95 | The record is filed under its id and its backing reads as the data; a temp file is written exactly above the threshold or on request |
| Artifacts.ArtifactManager.CreateTextArtifact | src/artifacts.ts:47-61 | The same for the UTF-8 encoding of a text |
| Artifacts.ArtifactManager.LinkLocalFile | src/artifacts.ts:98-115 | Files a record for a local file without copying it |
| Artifacts.ArtifactManager.LinkProxmoxFile | src/artifacts.ts:118-137 | Files a record for a file on a target |
| Artifacts.ArtifactManager.Find | src/artifacts.ts:209-221 | An unknown or expired id is an error, and only an expired record is dropped |
| Artifacts.ArtifactManager.ReadArtifactBuffer | src/artifacts.ts:146-162 | Resolves the reference, looks the record up and reads its backing, with the error of the first step that fails |
| Artifacts.ArtifactManager.ReadResource | src/artifacts.ts:170-189 | The content of a live artifact, or the error of the look-up or the read |
| Artifacts.ArtifactManager.RemoveArtifact | src/artifacts.ts:192-202 | Drops the record and deletes exactly a managed temp file |
| Artifacts.ArtifactResult | src/mcp-common.ts:61-81 | Inlined text re-encodes to the data, a published artifact reads back as the data, published text is always behind a temp file, and publishing is the run of events that creates the artifact |
| Artifacts.TextMeansCleanUtf8 | src/mcp-common.ts:50-58 | Data counts as text if and only if it encodes a text without U+FFFD |

## Left out

- HTTP, SSH, `pct exec`, the cluster and the file system: they are events, parameters or a small interpreter. The host answers an API request with 401 exactly when the request does not carry its live, unexpired token; any other reply may come for any reason.
- Clock differences: server and host measure the token's expiry by one clock. A host whose clock is ahead expires tokens earlier than the server expects by that much.
- Several managed clusters interleaving: the step system of `AuthProtocol` is one cluster. The cluster states share nothing but the profile list, which `ManagedAuthLifecycle` covers.
- The bodies of the enrollment, reconcile and snippet scripts: opaque strings, only their quoting and delivery is modelled. The `sudo` variant of the bootstrap command is not; it is the same wrapping once more.
- The text of failures: every 401 counts as a failure of authentication, and any other failed request may or may not, since its text may contain the words or the number that the classification looks for.
- `reloadSecrets` after the first hydration, static tokens, secret stores and Vault.
- Shell expansions, comments, assignments and two-character operators: the tokenizer refuses unquoted text that would need them, and no command line built here contains any. The interpreter takes a bound on nested shells, two for the command lines here.
- FileTransport.WriteLineRuns: does not model the empty path, which the tool schema rejects.
- File reads and writes through the guest agent: the base64 guess makes the round trip false for some texts, as `MaybeBase64.BufferCharacterised` says exactly.
- JSON fractions, exponents and white space: no made id contains any. Strings outside the JSON modules are sequences of Unicode scalar values, so unpaired surrogates are covered only there.
- Path templates with unbalanced braces, or with `*` or `?` in their literals, and parameter names with regular expression syntax: the vendored schema has none. A template whose expression does not compile makes the walk fail.
- Catalog.CoerceTypes: does not model `parseFloat`, `JSON.stringify`, `String` and `toLowerCase`, which are parameters, nor negative zero and rounding; numbers are reals, NaN or infinite.
- Catalog.ApiCatalog.Find: does not model upper-casing beyond ASCII, since HTTP methods are ASCII.
- Properties found on the prototype chain: schema properties and arguments are finite lists and maps.
- Jobs.ReachableInv: does not model ids that are created or run twice, which no tool does; `JobManager.Create` and `JobManager.Run` themselves state what the code then does.
- The timeout of `wait`: a job read before it has settled is the record as it stands, which `Jobs.JobsOnlyAdvance` covers.
- The start time of a snapshot, which is parsed from the UPID.
- UpidSnapshot.WaitForUpidJobSnapshot: does not model timers that fire early; the bounds assume sleeps of at least a second, as the loop asks for.
- The Unicode case folding of the `i` flag: `Glob` is stated for any folding function, and the if-and-only-if for those that fold nothing onto `?`.
- Artifact listing and the resource templates of the MCP library.
- HTTP authentication and transport, tool registration, prompts, policies, configuration parsing, the documentation generators and the PowerShell scripts.
