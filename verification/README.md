# Verified model of media-cookie-broker

media-cookie-broker moves the login cookies of a browser to machines that need them. A browser extension
uploads cookie lists, a broker keeps the last five revisions of each scope (a provider and a profile), and
`cookie-sync` keeps a Netscape cookie file up to date on the machine of a reader. Readers report back when
the cookies stop working, and the extension starts a recovery.

This project models the parts of that system which keep state, and proves what they promise over every
input and every run. `dafny verify dfyconfig.toml` verifies all of it.

| file | what it models |
|---|---|
| `Cookies.dfy` | cookies, scopes, digests |
| `Tables.dfy`, `Store.dfy` | the broker's tables, and the store as a class with one method per transaction |
| `History.dfy`, `Audit.dfy` | the meaning of a history of requests, told without tables, and the proof that the tables agree with it |
| `Upload.dfy`, `AuthHint.dfy` | validation, canonical order and digest of an upload; the expiry hint |
| `Netscape.dfy`, `UploadSize.dfy` | the printed cookie file, a parser for it, and its size |
| `Disks.dfy` | files, and the replacement of one by way of a temporary file |
| `Sync.dfy`, `SyncRuns.dfy`, `SyncAll.dfy` | one fetch of cookie-sync; the steps of many between crashes, tampering and publications; a whole pass with the combined jar |
| `Pipeline.dfy` | an upload from validation to the file of a reader |
| `Paging.dfy` | reading diagnostic events page by page |
| `Recovery.dfy`, `Starts.dfy`, `Poller.dfy`, `Expiry.dfy`, `Diagnostics.dfy` | the state machines of the extension |

## How it is modelled

- **Broker.** `Store.Store` updates its tables in place, statement by statement. Each method is proved equal to
  a transaction on table values (`Tables.Apply`), and `Tables.Run` folds a history of requests. `History` says
  what a history means with an append-only log per scope, a role per user, and the latest report of each user.
  `Audit.TablesAgree` connects the two, and the theorems about health, retention and reports follow from it.
- **cookie-sync.** `Sync.Target.Fetch` writes files through `Disks.Files` and is proved equal to `Sync.FetchRun`.
  A write is a sequence of calls on a disk that also holds the temporary file; only the rename is atomic, and a power loss cuts what was not flushed.
  `SyncRuns` cuts the fetches of any number of targets on one disk into steps, between which the broker may take
  requests, anybody may write any bytes (but no sidecar that cookie-sync never wrote), the process may crash, also
  inside a write, and a wrapper may report on any scope.
- **Extension.** Asynchronous functions are cut at their awaits. An arbitrary sequence of actions chooses which
  call moves next and what the browser answers; a new window may have the wrong mode. A window that the coordinator asks to remove closes later or
  never; exclusion does not rely on its closing.
- **Digests.** SHA-256 and the JSON text of a list or a sidecar are free constructors: equal results have equal
  arguments. A row that holds a sealed cookie list holds the list.
- **Lower case.** The table of the language is a parameter, and every theorem holds for each table that treats ASCII
  as usual and turns no other character into a capital letter or control character of ASCII.
- **Numbers.** Times are integers; hours and thresholds are reals.

## Findings

- **Duplicates.** A key joins domain, path and name by zero bytes, and a zero byte inside a field is not refused.
  `Upload.ZeroBytesCollide` gives two acceptable cookies with different paths and names and one key.
  `Upload.KeysCollideExactly` says which pairs collide: one field of a cookie continues across a zero byte where
  another cookie has its separator (`Upload.Merges`). `Upload.DuplicatesExactly` lifts it to uploads: acceptable
  cookies without a repeated triple are refused exactly when one of them merges into another.
- **Thresholds.** Normalising expiry thresholds twice is normalising once exactly when no item lies strictly between
  0 and 0.005 (`Expiry.NormalizeIsIdempotent`); `Expiry.TinyThresholdIsLost` shows it for 0.001. Saved thresholds
  are normalised again at every poll.
- **Polls.** `run` alone may return a poll whose operation ended before the call (`Poller.RunMayReturnAnOldPoll`). It
  does exactly when the poll in flight is over and its callback has not come, and the poll has yet to begin exactly
  when none was in flight or that one had not begun (`Poller.RunIsFreshExactly`).
- **Sidecars.** The sidecar need not name the current revision: after a recovery with equal cookies a 304 keeps the
  old one (`Sync.RecoveryLeavesSidecar`, and a whole run in `Sync.SidecarMayBeOld`). A successful fetch leaves the
  current revision in it exactly unless a 304 settled the fetch and carried another revision than the sidecar
  (`Sync.SidecarIsCurrentExactly`). It always names *a* revision with exactly its bytes (`SyncRuns.SidecarsAreTrue`).
- **Isolated starts.** A start that succeeds need not have seen its own window at its second check, because a person
  may have closed it (`Recovery.OwnWindowMayBeGone`). It saw no other incognito window, and it saw its own exactly
  when that window was still open when the second list was taken (`Recovery.StartedAlone`).
- **Removals.** A failing isolated start may remove a normal window, if the browser opened one for it
  (`Recovery.NormalWindowMayBeRemoved`). A removed window is incognito exactly when the browser answered the request
  for it with an incognito one (`Recovery.RemovedAsAnswered`).

## Model

| member | source | states |
|---|---|---|
| `Audit.TablesAgree` | internal/broker/store.go:64-96 | after every history the tables show exactly what the history means: revisions, pointers, roles, grants and active reports |
| `Audit.HealthIsHistory` | internal/broker/health.go:57-83 | the status read from the tables is missing exactly until a publication, then shows the current revision and snapshot, and is `refresh_required` exactly when some reader's latest report on the current revision, not ended since by revocation or deletion, is `authentication_required` |
| `Audit.ReportersAreHistory` | internal/broker/health.go:60-64 | on each kept revision a user is counted under a kind exactly when his latest report says so and its grant has not ended |
| `Audit.RegrantRevivesNothing` | internal/broker/users.go:100-165 | after a revocation or deletion, whatever grants and accounts follow, a report made before counts no more |
| `Audit.ReferentialIntegrity` | internal/broker/store.go:70-96 | every reachable state satisfies the foreign keys |
| `Audit.RevisionsAreNeverReused` | internal/broker/store.go:253-282 | the kept numbers are the last five of 1..n, and a number names one snapshot for ever |
| `Audit.PointerMovesFirst` | internal/broker/store.go:274-282 | the retention delete never breaks the pointer's foreign key; done before the pointer moved, it would exactly when the pointer is on the oldest of five kept revisions |
| `Audit.PublicationLifecycle` | internal/broker/store.go:240-286 | an ordinary upload of the cookies that are current, also after a rollback, changes nothing; every other upload and every recovery adds one revision and makes it current |
| `Audit.AcceptedIsHistory` | internal/broker/users.go:30-165 | a request succeeds exactly when the history allows it (a rollback when its revision is among the last five of the scope; a grant when the account exists and does not hold the scope; a report when its author holds a kept revision; and so on), and one that fails changes nothing |
| `Audit.RollbackShowsRevision` | internal/broker/store.go:328-338 | after a rollback the status shows that revision and its snapshot, and nothing but the pointer of the scope has changed |
| `Audit.RowsAreKept` | internal/broker/health.go:43-53 | an accepted report is stored with its kind, time and the present grant, and a new account with its password and role |
| `Audit.AccountsStay` | internal/broker/users.go:100-110 | only its own creation or deletion touches an account |
| `Audit.CountsAreHistory` | internal/broker/health.go:57-83 | for every kind the status counts the users whose report of it stands in the history, and shows no kind without one |
| `Audit.OtherScopesUntouched` | internal/broker/store.go:274-282 | a publication leaves rows, reports and status of all other scopes as they were |
| `History.StandingIsLatest` | internal/broker/health.go:38-43 | the recursive reading of a history finds exactly the report that no later request supersedes |
| `History.EndedGrantStaysEnded` | internal/broker/users.go:100-165 | in the history alone: no later grant makes an older report stand again |
| `History.LogGrows` | internal/broker/store.go:253-276 | later logs extend earlier ones, so publications are never renumbered |
| `Store.Store.NextRevision` | internal/broker/store.go:253-256 | the number is one above the largest kept revision, and free |
| `Store.Store.DeleteOldRevisions` | internal/broker/store.go:280-282 | keeps the five largest revisions and the reports on them, or fails and changes nothing exactly when the pointer would lose its row |
| `Store.Store.Put` | internal/broker/store.go:215-287 | performs the publication transaction, keeps the foreign keys, and returns the status that reading the tables afterwards gives |
| `Store.Store.Rollback` | internal/broker/store.go:328-338 | moves the pointer to a kept revision, or fails and changes nothing |
| `Store.Store.Current` | internal/broker/store.go:289-326 | returns the current snapshot and its health, or that there is none |
| `Store.Store.StatusesForScopes` | internal/broker/health.go:101-115 | gives one status for each scope, in order; an unpublished scope is missing |
| `Store.Store.PutHealthReport` | internal/broker/health.go:29-55 | replaces the reader's report on a kept revision under his present grant, or fails and changes nothing |
| `Store.Store.EnrichStatus` | internal/broker/health.go:57-83 | the loop over the grouped rows ends with the counts and the health of the active reports |
| `Store.Store.CreateUser` | internal/broker/users.go:30-60 | inserts the user and every scope, or fails and changes nothing |
| `Store.Store.DeleteUser` | internal/broker/users.go:100-110 | removes the user with grants and reports, or fails and changes nothing |
| `Store.Store.Grant` | internal/broker/users.go:128-149 | adds one grant with a new number, or fails and changes nothing |
| `Store.Store.Revoke` | internal/broker/users.go:151-165 | removes one grant, or fails and changes nothing |
| `Store.PublishKeepsForeignKeys` | internal/broker/store.go:274-282 | a new revision gets a free number, survives the retention delete, and no pointer loses its row |
| `Store.NewRevisionIsHealthy` | internal/broker/store.go:286 | the hard-coded healthy status with no counts is what the reports on the new revision give |
| `Store.CountsGiveHealth` | internal/broker/health.go:75-83 | counts per kind over all kinds present determine the health |
| `Upload.Upload.ValidateUpload` | internal/broker/validate.go:37-104 | checks, normalises in place and sorts, with the verdict, reason, list and digest of the specification |
| `Upload.Upload.NormaliseAll` | internal/broker/validate.go:60-90 | the loop succeeds exactly when every cookie is acceptable and no key repeats, and then every cookie is normalised |
| `Upload.NormaliseOne` | internal/broker/validate.go:61-84 | gives the normalised cookie exactly when the cookie is acceptable |
| `Upload.SortSorts` | internal/broker/validate.go:91-100 | sorting distinct triples gives a strictly sorted permutation |
| `Upload.SortIsCanonical` | internal/broker/validate.go:91-100 | there is one strictly sorted arrangement, so the choice of sorting procedure does not matter |
| `Upload.AcceptedIsCanonical` | internal/broker/validate.go:85-103 | every accepted list is strictly sorted, has pairwise distinct (domain, path, name), is a permutation of the normalised upload, and has the digest of its cookies |
| `Upload.AcceptedLosesNothing` | internal/broker/validate.go:60-68 | an accepted upload keeps the name, value, expiration and flags of every cookie, and its cookies are the uploaded ones with nothing changed but white space around domain and path and the case of the domain; an unspecified reason becomes `ordinary` |
| `Upload.AcceptedExactly` | internal/broker/validate.go:37-104 | an upload is accepted exactly when schema, reason, time and number of cookies are in order, every cookie is proper field by field, no triple repeats, and no cookie merges into another |
| `Upload.TidiedIsNormal` | internal/broker/validate.go:66-67 | the fieldwise reading of normalisation (the longest white space at both ends goes, the domain is folded character by character) has one result, that of the code |
| `Upload.AllowedIsWithin` | internal/broker/validate.go:106-114 | a domain is allowed exactly when, without one leading dot, it is a root or ends in a dot and a root |
| `Upload.AcceptedIsOrdered` | internal/broker/validate.go:91-100 | accepted cookies come by domain, then path, then name, each decided at the first character that differs |
| `Upload.LessExactly` | internal/broker/validate.go:91-100 | one string is less than another exactly when it is a proper prefix or has the smaller character where they first differ |
| `Upload.OrderIndependent` | internal/broker/validate.go:60-103 | two uploads that are permutations of one another get the same verdict, list and digest |
| `Upload.KeysCollideExactly` | internal/broker/validate.go:85-89 | two cookies share a key exactly when they share domain, path and name, or a field of one continues across a zero byte where the other has its separator |
| `Upload.DuplicatesExactly` | internal/broker/validate.go:60-90 | acceptable cookies are accepted exactly when no triple repeats and no cookie merges into another in that way |
| `Upload.KeysSeparateTriples` | internal/broker/validate.go:85-89 | without zero bytes two cookies share a key exactly when they share domain, path and name |
| `Upload.ZeroBytesCollide` | internal/broker/validate.go:85-89 | with zero bytes two different acceptable cookies share a key |
| `AuthHint.AuthExpiry` | internal/broker/validate.go:116-139 | the running minimum is the earliest positive expiry of an auth cookie, or nothing when there is none |
| `AuthHint.HintIsUnique` | internal/broker/validate.go:125-138 | the hint does not depend on the order of the cookies |
| `Netscape.RenderNetscape` | internal/broker/http.go:366-385 | the loop builds the text that the strict reader takes back: two header lines and one row for each cookie |
| `Netscape.PrintRow` | internal/broker/http.go:370-382 | a row has the seven columns of `Columns`, whose meaning `ColumnsParse` states |
| `Netscape.RowRoundTrip` | internal/broker/http.go:370-382 | a row of a printable cookie is read back to every field but SameSite by a reader that refuses a second column other than `TRUE` exactly for a leading dot, a flag other than `TRUE` or `FALSE`, and a number with needless zeros |
| `Netscape.ColumnsParse` | internal/broker/http.go:371-382 | column by column: the prefix marks HTTP-only cookies, the second column is `TRUE` exactly for a domain with a leading dot, the fourth exactly for a secure cookie, the fifth is the expiration in decimal, the others are path, name and value |
| `Netscape.DecimalIsNumber` | internal/broker/http.go:382 | a printed number has only digits and no needless zero |
| `Netscape.RowsRoundTrip` | internal/broker/http.go:369-383 | splitting the printed rows at newlines gives exactly one line for each cookie, in order, each read back |
| `Netscape.FileRoundTrip` | internal/broker/http.go:366-385 | the printed file has two header lines and is read back to all cookies without SameSite |
| `Netscape.AcceptedIsPrintable` | internal/broker/validate.go:63-79 | for every lower-casing, validation refuses what would break rows or columns and leaves no capital letter that would make the prefix ambiguous |
| `Netscape.AcceptedRoundTrip` | internal/broker/http.go:366-385 | the file of every accepted upload is read back to the accepted cookies without SameSite |
| `UploadSize.MembersCoverPayload` | internal/broker/http.go:157-164 | the bytes of a JSON object pay for the fields it decodes to, whatever escapes, repetitions and nulls it uses |
| `UploadSize.RowFitsObject` | internal/broker/http.go:370-382 | for every lower-casing, the row of an acceptable cookie is no longer than the ASCII JSON text of its object |
| `UploadSize.RowsFitArray` | internal/broker/http.go:369-383 | all rows together are no longer than the JSON array |
| `UploadSize.AcceptedFileFits` | cmd/cookie-sync/main.go:178-188 | the file of an accepted ASCII upload of at most 1 MiB is below the 2 MiB limit |
| `Disks.TargetIsWhole` | cmd/cookie-sync/main.go:452-483 | after any steps, failures and short writes, and wherever a crash or a power loss, which cuts unflushed bytes, ends the write, the target has its old content or all of the new, and at most one new file besides; success changes the target and nothing else |
| `Disks.EveryStepIsCareful` | cmd/cookie-sync/main.go:456-483 | every step keeps the target untouched until the rename, which moves the whole content |
| `Disks.SidecarsComeFromContent` | cmd/cookie-sync/main.go:456-475 | a write leaves no whole sidecar anywhere but the one it was given |
| `Disks.Files.CreateTemp` | cmd/cookie-sync/main.go:456-460 | finds a name that no file has, other than the target, and creates it empty |
| `Disks.Files.AtomicWrite` | cmd/cookie-sync/main.go:452-483 | the calls of the method are steps of the write, end with the target old or new as their outcome says, remove the temporary file, and report success exactly when all went well |
| `Disks.WellDoneIsDone` | cmd/cookie-sync/main.go:452-483 | a write in which every call succeeds ends with the whole content in the target and no temporary file |
| `Sync.Target.Fetch` | cmd/cookie-sync/main.go:147-218 | memory, files, requests and success of the method are those of the fetch function, in every branch |
| `Sync.FetchIsSafe` | cmd/cookie-sync/main.go:147-218 | against any server: at most two requests, the second unconditional; the cookie file keeps its bytes or takes a complete valid body of at most 2 MiB; memory changes only on success; other files are not touched |
| `Sync.SaveIsSafe` | cmd/cookie-sync/main.go:189-203 | the same for one usable answer: content, sidecar and tag are committed together and only after both writes |
| `Sync.NotModifiedSettlesExactly` | cmd/cookie-sync/main.go:164-170 | a 304 settles a fetch with one request exactly when the cookie file could be read and holds the remembered valid content, and likewise the sidecar if there is to be one |
| `Sync.AnswersAreCurrent` | internal/broker/http.go:199-223 | a 200 carries the current file, revision and tag; a 304 is given exactly when the sent tag is the current one |
| `Sync.AnswersOnlyReaders` | internal/broker/http.go:189-224 | from the history alone: 200 or 304 exactly for an account with the reader role that holds the published scope, 401 exactly without role or grant, 404 exactly for such a reader of a scope never published; a refusal carries no body, tag or revision |
| `Sync.AnswersCarryTimes` | internal/broker/http.go:208-209 | a 200 or 304 names its scope and carries the times of the current publication |
| `Sync.OnlyReadersSucceed` | internal/broker/users.go:167-171 | a fetch succeeds only for an account that has the reader role and the grant at the last answer, whatever it remembers |
| `Sync.NotModifiedIsCurrent` | internal/broker/http.go:204-220 | a 304 to remembered content means that the content is what the current snapshot prints |
| `Sync.FetchRefinesDownload` | cmd/cookie-sync/main.go:147-218 | a successful conditional fetch leaves the file that an unconditional download would have left at the time of the last answer |
| `Sync.SidecarIsCurrentExactly` | cmd/cookie-sync/main.go:164-201 | a successful fetch leaves a sidecar of the current revision exactly unless a 304 settled it while carrying another revision than the sidecar |
| `Sync.SavedSidecarIsCurrent` | cmd/cookie-sync/main.go:283-313 | a saved sidecar has scope, revision, digest and both times of the current publication |
| `Sync.ForeignAnswerIsRefused` | cmd/cookie-sync/main.go:284-293 | an answer for another provider or profile, or without a positive revision, fails the fetch and leaves memory and sidecar as they were |
| `Sync.RecoveryLeavesSidecar` | cmd/cookie-sync/main.go:164-170 | after every recovery with equal cookies a reader in step keeps the sidecar of the old revision |
| `Sync.SidecarMayBeOld` | internal/broker/http.go:204-219 | a run of publication, fetch, recovery and fetch ends with revision 1 in the sidecar and revision 2 current |
| `Sync.FetchSucceeds` | cmd/cookie-sync/main.go:164-203 | one fetch repairs any local state when the reader may read and the files can be written |
| `SyncRuns.RunKeepsSound` | cmd/cookie-sync/main.go:147-218 | every step of every target, crash, tampering and publication keeps the invariant of memory, files, answers and reports |
| `SyncRuns.ReportsAreTrue` | cmd/cookie-sync/main.go:358-407 | a report names revision r of a scope only about exactly the bytes printed for revision r of that scope |
| `SyncRuns.SidecarsAreTrue` | cmd/cookie-sync/main.go:283-313 | every sidecar on disk names a revision that was published with exactly the bytes it records |
| `SyncRuns.LocalBytesAreNeverTrusted` | cmd/cookie-sync/main.go:189-203 | remembered content always came from a publication, whatever was written to the files |
| `SyncRuns.SuccessIsCurrent` | cmd/cookie-sync/main.go:147-218 | in every interleaving a successful fetch ends with the file that was current at the latest answer, whatever the other targets wrote, unless somebody from outside wrote it after it was saved or compared |
| `SyncRuns.UndisturbedFetch` | cmd/cookie-sync/main.go:147-218 | the steps of an undisturbed download end with the files and memory of the fetch function |
| `SyncRuns.UndisturbedCheck` | cmd/cookie-sync/main.go:164-170 | so do those of an undisturbed 304 that finds its files in order |
| `SyncRuns.UndisturbedRepair` | cmd/cookie-sync/main.go:164-203 | so do those of an undisturbed 304 that finds them out of order: the second request goes without a tag and its answer replaces them |
| `SyncRuns.TrueReportLeaves` | cmd/cookie-sync/main.go:358-407 | a report about a target whose file and sidecar are in step leaves, with its scope, revision and bytes |
| `SyncRuns.ReportLeavesExactly` | cmd/cookie-sync/main.go:367-389 | a report leaves exactly when the sidecar read is of its scope, has a positive revision and the digest of the bytes read before |
| `SyncAll.ParseTargets` | cmd/cookie-sync/main.go:220-252 | the target list is accepted exactly when it is not blank, every item parses, and no two share a scope, a file or a sidecar |
| `SyncAll.ParseItemExactly` | cmd/cookie-sync/main.go:229-239 | an item is a scope and an absolute path around its first equals sign, white space aside; without the sign, or with the root as path, it is refused |
| `SyncAll.ParseScopeExactly` | cmd/cookie-sync/main.go:258-271 | a scope is a valid provider, a slash and a valid profile, or the provider alone for the profile `default`, and nothing else |
| `SyncAll.ApartExactly` | cmd/cookie-sync/main.go:238-246 | the pairwise comparison with its asymmetric order means different scopes and no common output file |
| `SyncAll.CombinedAllowedExactly` | cmd/cookie-sync/main.go:437-451 | a combined path is allowed exactly when it is empty, or absolute, not the root, and no output of a target |
| `SyncAll.Collect` | cmd/cookie-sync/main.go:225-251 | the loop with its two maps refuses an item exactly when it does not parse or collides with an earlier one |
| `SyncAll.FetchAll` | cmd/cookie-sync/main.go:101-107 | the targets are fetched in order, and a failure does not stop the others |
| `SyncAll.EachIsFetched` | cmd/cookie-sync/main.go:101-107 | each target has the result of its own fetch on the disk its predecessors left |
| `SyncAll.WriteJar` | cmd/cookie-sync/main.go:108-128 | the loop builds the jar of all last-good contents, writes it when there are any, and reports exactly whether that went well |
| `SyncAll.SyncAll` | cmd/cookie-sync/main.go:101-130 | a pass ends with the memory and the files of the pass function, and reports the jar as failed exactly when it had to be written and could not be |
| `SyncAll.LaterFetchesKeep` | cmd/cookie-sync/main.go:239-246 | no fetch of another target disturbs the file and sidecar of one that succeeded |
| `SyncAll.NothingOverwritten` | cmd/cookie-sync/main.go:437-451 | for every accepted target list and combined path, a successful target has file and sidecar equal to its memory when the whole pass is over |
| `SyncAll.JarLines` | cmd/cookie-sync/main.go:116-120 | the lines of the jar are one header line and then the lines of every content after its own header, in order |
| `SyncAll.JarOfPass` | cmd/cookie-sync/main.go:108-145 | the written jar is a valid cookie file of all last-good contents in target order |
| `SyncAll.JarOfTargets` | cmd/cookie-sync/main.go:108-141 | the jar takes the remembered content of a target before that of its file, holds their lines in target order under one header, and is not written when there are none |
| `Pipeline.PublishedIsCurrent` | internal/broker/http.go:169-175 | after an upload the current file prints the uploaded cookies, also when no revision was added |
| `Pipeline.UploadReachesReader` | internal/broker/http.go:148-224 | an accepted upload, published and fetched by a permitted reader from any remembered state and disk, ends as a file from which the accepted cookies are read back |
| `Paging.Diagnostics` | internal/broker/store.go:156-213 | a page holds the newest matching events before the cursor and leaves out none of them |
| `Paging.LimitIsHonoured` | internal/broker/store.go:157-159 | a limit from 1 to 200 bounds the page, 100 does otherwise, and a matching event is left out only of a full page |
| `Paging.PageIsFiltered` | internal/broker/store.go:156-193 | filter by filter: a page holds only events of the scope that pass every filter given, below the cursor if there is one, and a page that is not full holds all of them |
| `Paging.ReadNeverRepeats` | internal/broker/http.go:120-130 | following the cursors never returns an event twice, however the table changes meanwhile |
| `Paging.ReadIsComplete` | internal/broker/http.go:126-130 | a finished read returned every matching event that was there all along |
| `Paging.ReadIsSound` | internal/broker/store.go:160-193 | every returned event was there and matched when its page was read |
| `Recovery.OneIsolatedWindow` | extension/recovery.js:81-149 | in every interleaving at most one incognito window of an isolated start is open, at most one isolated start is under way, and the flag is up exactly then |
| `Recovery.StartedAlone` | extension/recovery.js:116-133 | an isolated start that succeeds took a second list, saw no incognito window but its own in it, and saw its own exactly when that was still open then |
| `Recovery.StartIsStored` | extension/recovery.js:89-133 | the step that makes a start succeed leaves in storage its context under its window, and every other key as that start read it, except that an isolated start drops all older isolated contexts (by then each is stale) |
| `Recovery.FailedStartRemovesWindow` | extension/recovery.js:134-137 | an exception after an isolated window was created is followed by the request to remove that window |
| `Recovery.StartsSucceed` | extension/recovery.js:81-133 | runs in which a normal and an isolated start succeed and are stored |
| `Starts.FailedStartsRemove` | extension/recovery.js:114-149 | in every interleaving, once setup has returned its window an isolated start ends by reporting that window or by having asked to remove it |
| `Starts.StartedInMode` | extension/recovery.js:67-79 | a start that succeeds reports a window that its own setup opened, in the mode that was asked for |
| `Starts.IsolatedStartWasFree` | extension/recovery.js:90-109 | an isolated start asks for a window only after it was allowed to see incognito windows and its first list showed none open, whoever might have opened one |
| `Starts.FirstListDecides` | extension/recovery.js:93-109 | a stored isolated context of an open window ends the start and leaves storage alone; otherwise the isolated contexts that were read leave storage, and the start goes on exactly if the list is empty |
| `Recovery.OwnWindowMayBeGone` | extension/recovery.js:116-133 | a run in which a person closes the window before the second list is taken and the start succeeds |
| `Recovery.RemovesOnlyItsOwn` | extension/recovery.js:134-172 | the coordinator asks to remove only windows that an isolated setup of its own opened, and `complete` only incognito ones |
| `Recovery.CompletionCloses` | extension/recovery.js:151-172 | the completion of a stored isolated context that is to be closed has asked to remove its window when it ends without an exception, whatever happened in between |
| `Recovery.CompletionForgets` | extension/recovery.js:151-154 | its save leaves the storage it read without the key of that window |
| `Recovery.RemovedWindowIsForgotten` | extension/service-worker.js:386-394 | the listener for a closed window takes its key out of storage |
| `Starts.ClosedWereCompleted` | extension/recovery.js:151-172 | `complete` asks to close a window only if it was called for it, with its isolated context in storage, for a provider that wants it closed |
| `Recovery.RemovedAsAnswered` | extension/recovery.js:67-79 | a removed window is incognito exactly when the browser answered the request for it with an incognito one |
| `Recovery.NormalWindowMayBeRemoved` | extension/recovery.js:70-72 | a run in which the browser opens a normal window for an isolated start, which fails and removes it |
| `Recovery.StepKeepsExclusive` | extension/recovery.js:81-149 | each segment, exception and outside event keeps the mutual exclusion |
| `Recovery.StepKeepsOurs` | extension/recovery.js:111-172 | each of them keeps stored and held contexts pointing at windows of the coordinator |
| `Poller.PollsNeverOverlap` | extension/control-plane.js:14-21 | a poll begins only after every earlier one is over |
| `Poller.ReturnedPollIsFresh` | extension/control-plane.js:23-29 | the poll that `runAfterCurrent` returns begins after the call, whoever else calls `run` in between |
| `Poller.RunAfterCurrentAnswers` | extension/control-plane.js:23-29 | without a poll in flight `runAfterCurrent` returns a new one at once, otherwise it waits for that one and starts nothing |
| `Poller.WaitingCallReturns` | extension/control-plane.js:25-28 | a waiting call whose awaited poll settled returns the poll then in flight, or a new one |
| `Poller.WaitingCallGetsSecondPoll` | extension/control-plane.js:23-29 | a run in which the waiting call returns a second poll |
| `Poller.CallbackClearsItsOwn` | extension/control-plane.js:16-18 | the callback of a poll always finds that poll in flight and frees the coordinator |
| `Poller.RunMayReturnAnOldPoll` | extension/control-plane.js:14-21 | `run` alone may return a poll whose operation ended before the call |
| `Poller.RunIsFreshExactly` | extension/control-plane.js:14-21 | the poll that `run` returns has yet to begin exactly when none was in flight or that one had not begun, and ended before the call exactly when the one in flight was over |
| `Poller.Coordinator.Run` | extension/control-plane.js:14-21 | the method takes the step of the machine and returns the poll in flight or a new one |
| `Poller.Coordinator.RunAfterCurrent` | extension/control-plane.js:23-29 | up to its await the method takes the step of the machine |
| `Poller.Coordinator.Resume` | extension/control-plane.js:25-28 | so does the rest of it, once the awaited poll settled |
| `Poller.Coordinator.Clear` | extension/control-plane.js:16-18 | so does the callback |
| `Expiry.NormalizeForgetsOrder` | extension/control-plane.js:43-50 | order, repetition and unusable items do not matter to the normalised thresholds |
| `Expiry.NormalizeIsIdempotent` | extension/control-plane.js:43-50 | normalising twice is normalising once exactly when no item lies strictly between 0 and 0.005 |
| `Expiry.TinyThresholdIsLost` | extension/control-plane.js:45-48 | the input 0.001 is kept as 0 and then dropped |
| `Expiry.ThresholdsAreItems` | extension/control-plane.js:43-50 | every normalised threshold is within 0.005 of an item above 0 and up to 8760, and every such item has one |
| `Expiry.StateRemembers` | extension/control-plane.js:52-86 | over every run the state holds exactly the thresholds reached on this revision, whether the hint passed, and the last health |
| `Expiry.NoticesFollowHistory` | extension/control-plane.js:60-83 | a refresh notice marks a rising edge of health; a hint notice the first time the hint is seen to have passed; a threshold notice names the time left (times are compared in milliseconds) and the tightest threshold reached, and only when the time was never seen within it before |
| `Expiry.NoticesAreTimely` | extension/control-plane.js:66-83 | in milliseconds: a hint notice comes only when the expiry has passed, and a threshold notice names the time left, which is positive and within the threshold |
| `Expiry.NoticesNeverGoBack` | extension/control-plane.js:66-83 | on one revision, whatever the clock does, threshold notices strictly decrease, the hint notice comes once, and no threshold notice follows it |
| `Diagnostics.Storage.Append` | extension/diagnostics.js:79-83 | the newest batch takes the event, or a new batch begins when it is full |
| `Diagnostics.Storage.Prune` | extension/diagnostics.js:84-102 | the loop ends, with the batches of the pruning function |
| `Diagnostics.Storage.LogDiagnostic` | extension/diagnostics.js:76-106 | one call stores the batches of the logging function |
| `Diagnostics.PruningIsSound` | extension/diagnostics.js:86-102 | pruning keeps a suffix of at most 10000 events in exact batches of 1 to 100, none wholly past the cutoff, and takes an event only if it is past the cutoff or 10000 newer ones stay |
| `Diagnostics.LoggingKeepsTheNewest` | extension/diagnostics.js:76-106 | the same for one call, which keeps its own event when that is not past the cutoff |
| `Diagnostics.NewEventIsPending` | extension/diagnostics.js:76-106 | the batch with the new event waits for upload, and every other batch waits exactly if it did before |
| `Diagnostics.PrunedBatches` | extension/diagnostics.js:86-102 | pruning drops batches at the front, may shorten the first that stays, and leaves the others as they are |
| `Diagnostics.TheLogIsTheRecentPast` | extension/diagnostics.js:76-106 | after any number of calls the log holds the newest events, the very last one unless it is past the cutoff, in good batches none wholly past the cutoff, and a missing event is more than 30 days old or was followed by 10000 others |

## Left out

- AES-GCM, SHA-256, JSON, gzip and Argon2id: library code, replaced by the constructors described above.
- Passwords, authentication and routing: a request of the model has passed them; `ChangePassword`, `userPasswordHash` and the `consumer_state` table would add only easy members.
- Gaps in AUTOINCREMENT: the model counts grants without gaps; only that numbers are new is used.
- The time of the latest report: the database compares text times that do not sort within a second.
- Server-side retention of diagnostic events: it orders by the same text times; `Paging` allows any change of the table instead.
- Upload.Upload.ValidateUpload: sorts by insertion instead of with the library; `Upload.SortIsCanonical` shows that the result is the same.
- SyncAll.ParseTargets: `filepath.Clean` is a parameter, and the theorems hold for every such function.
- SyncAll.SyncAll: takes the combined path already cleaned, where the program cleans it only to compare it.
- SyncRuns.ReportsAreTrue: compares digests exactly, while the program ignores the case of their hexadecimal letters.
- Sync.Target.Fetch: an empty profile is taken as already replaced by `default`, which the parser of target lists always does.
- Disks.Files.AtomicWrite: directories are not modelled, so a power loss that undoes a rename is not either, and removing the temporary file of a failed write is taken to succeed in the method, while `Disks.TargetIsWhole` lets it fail.
- Recovery: the two asynchronous functions are steps on values rather than methods, because a method cannot stop at an await; the resolution of cookie stores is not modelled.
- Expiry.NoticesFollowHistory: computes with reals where the program has floating point, and takes thresholds as numbers rather than as text to be split.
- Diagnostics.TheLogIsTheRecentPast: assumes a clock that never goes back and no upload or clearing in between; compression stands for the list itself.
- The upload of diagnostics, redaction, the popup and options pages, notifications, alarms, cookie collection, installers and containers.
- Error texts and logging: only success and failure are modelled.
