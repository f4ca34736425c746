# Verification of the ZTOps core

A Dafny model of the logic of ZTOps (findings, reports, attachments, approvals and
passkey sign-in) with proofs of what that logic promises. `dafny verify dfyconfig.toml`
checks the whole project.

Every view or service call is one atomic step on the stored rows, as the code takes no locks.
Code that changes rows in place is a class with the same fields; its methods are proved against
a step function on values, and its request methods keep `Valid()`, the invariant of whole runs,
which the lemmas about that function prove.

| File | What it models |
|---|---|
| `OrderedRows.dfy`, `MoveDistance.dfy` | annexes, scope categories and template sections: an unordered table with an `order` column that behaves as a list |
| `Attachments.dfy`, `AttachmentStore.dfy` | rows and content-addressed blobs, with the streaming upload loop and the rights of each view |
| `Cvss31.dfy`, `CvssVector.dfy`, `Findings.dfy` | the CVSS 3.1 calculator in exact reals, its vector parser and printer, severity bands and `Finding.save()` |
| `AuditLog.dfy`, `Approvals.dfy`, `ApprovalEffects.dfy`, `ApprovalService.dfy` | the two-person approval machine, its one handler and user creation |
| `Reviews.dfy`, `ReviewEffects.dfy`, `ReviewViews.dfy`, `ReportClients.dfy`, `Workflow.dfy` | the finding and report review machines, autosave, the client of a report and its findings, and all machines over one log |
| `Base64Url.dfy`, `Enrollment.dfy`, `Ceremonies.dfy`, `CeremonyService.dfy` | stored challenges (sections 3.2, 4 and 5 of RFC 4648), enrollment tokens, and the ceremonies (sections 6.1.1 and 7.2 of WebAuthn Level 2) |
| `Uuid7.dfy`, `InternalIds.dfy`, `TrustedProxies.dfy`, `AffectedHosts.dfy` | primary keys (section 5.7 of RFC 9562), display ids and their backfill, the forwarded-for walk, vendor-scoped hosts |
| `Text.dfy`, `Wrappers.dfy` | split, strip and join; optional values |

Assumptions that are parameters or preconditions: the digest, the password hash, the two
verifiers (they accept only the expected challenge), case folding of hosts, random draws and
clocks are arbitrary; challenges and primary keys are fresh.

Where the code and its own comments disagree the code is modelled. The comment on the
transition table says only superadmins re-open decided findings; the table lets any reviewer do
it (`apps/findings/views.py:640-645`). The comment on the view that adds a finding to a report says
that a report can never reference findings of another client; two edits make it do so
(`apps/reports/views.py:179-181`).

Some laws one would expect do not hold for every input. Each is stated as an exact condition,
and those that requests can reach have a lemma at a failing input: up then down on a first row
(`OrderedRows.UpThenDown`, `UpThenDownExample`), text in front of a header that names only
proxies (`TrustedProxies.PrependChangesIff`, `PrependedHop`), saving a cut host value again
(`AffectedHosts.ResaveIff`, `LongLineLost`), a registration finished with another user's token
(`Ceremonies.FinishRegBalancesIff`, `ForeignTokenExample`), and reports that hold findings of
their own client only, after the client of a report or the vendor of a finding in one was edited
(`ReportClients.OneClientIff`, `OtherClientExample`). `Cvss31.RoundUpBounds` and
`Cvss31.ChangedImpactPeaks` say where the two formulas fall. The others are guards that no
state reachable through the views needs: tied orders (`OrderedRows.MoveTransposesIff`), a
review moved back to pending (`Reviews.UnloggedMoveIff`), scores strictly between 0 and 0.1
(`Findings.BandsAgreeIff`), and creation years without four digits (`InternalIds.BackfillIff`).

## Model

| member | source | states |
|---|---|---|
| `OrderedRows.RunRefines` | apps/reports/views.py:310-393 | From any table with distinct orders (an empty one in particular) every run of create, edit, remove and move keeps the orders distinct, and the rows sorted by order are the list that the same requests build on plain lists |
| `OrderedRows.StepRefines` | apps/reports/views.py:310-393 | One request, for whatever answer the ORDER BY query gives: orders stay distinct and the displayed list changes as on plain lists |
| `OrderedRows.NewRefines` | apps/reports/views.py:319-321 | A new row gets the largest order plus one (0 in an empty table) and so appears at the end |
| `OrderedRows.RemoveRefines` | apps/reports/views.py:658-667 | Removing drops exactly that row from the list, and nothing when the scope is used by a report |
| `OrderedRows.MoveRefines` | apps/reports/views.py:381-392 | A move is one adjacent transposition, nothing at either end, and nothing for an unknown row |
| `OrderedRows.ListingExists` | apps/reports/views.py:381 | The ORDER BY query has an answer for every table |
| `OrderedRows.ListingUnique` | apps/reports/views.py:381 | With distinct orders that answer is unique, so title and database tie-breaks never matter |
| `OrderedRows.MoveConservesOrders` | apps/reports/views.py:385-392 | With distinct orders the equal-order fallback never fires: the two rows trade their order values, all else is untouched |
| `OrderedRows.MoveTransposesIff` | apps/reports/views.py:385-392 | On any table, ties included, the query is sure to show the transposition after a move, whatever it does with ties, if and only if all orders differ, or the only tie is between the two rows and the positions written by the fallback fit strictly between the rows around them |
| `OrderedRows.TiedMoveExample` | apps/reports/views.py:381-392 | A tie elsewhere is enough to fail: with C and D at 0 and A at 1, moving A up leaves two possible lists |
| `OrderedRows.UpThenDown` | apps/reports/views.py:385-392 | Up then down restores the whole table exactly when the row was not first in a list of two or more |
| `OrderedRows.UpThenDownExample` | apps/reports/views.py:385-392 | With two rows, up then down on the first one leaves them exchanged |
| `OrderedRows.RowsAfter` | apps/reports/views.py:310-393 | What a request does to the rows: a new one gets its title and an order larger than all others, the last plus one or 0; an edit writes one title and no order; a removal takes one row unless it is blocked; a move writes no title |
| `OrderedRows.MoveShifts` | apps/reports/views.py:381-392 | On the displayed list "up" exchanges a row with the one before it and any other direction with the one behind it; at the ends nothing moves |
| `OrderedRows.ListAfter` | apps/reports/views.py:310-369 | On the displayed list a new row is appended, a removal cuts one element out, and an edit leaves it alone |
| `OrderedRows.OrderedTable.OrderBy` | apps/reports/views.py:381 | Returns every row once, ordered by the order column |
| `OrderedRows.OrderedTable.New` | apps/reports/views.py:748-758 | Adds the row in place; the new table is the specified one |
| `OrderedRows.OrderedTable.Edit` | apps/reports/views.py:335-346 | Changes the title only, so the orders stay distinct |
| `OrderedRows.OrderedTable.Remove` | apps/reports/views.py:658-667 | Deletes in place, or refuses a blocked row; the new table is the specified one |
| `OrderedRows.OrderedTable.Move` | apps/reports/views.py:371-393 | Swaps two order values in place for whatever list the query returned, or reports an unknown row |
| `MoveDistance.EveryArrangementIsReachable` | apps/reports/views.py:371-393 | Any arrangement of the rows is reached by at most n(n-1)/2 moves, and the returned sequence of moves is a shortest one |
| `MoveDistance.SwapInversions` | apps/reports/views.py:387-388 | Exchanging unequal neighbours changes the number of inversions by exactly one |
| `MoveDistance.InversionsBound` | apps/reports/views.py:371-393 | n values have at most n(n-1)/2 inversions |
| `MoveDistance.Reach` | apps/reports/views.py:371-393 | Any arrangement is reached by as many moves as there are inversions |
| `MoveDistance.NoShorter` | apps/reports/views.py:371-393 | No sequence of moves reaches it in fewer |
| `Attachments.RowsAndDiskAgree` | apps/attachments/storage.py:55-155 | Through any run and for any digest function a blob exists at (finding, digest) exactly when a row refers to it, each row downloads as the bytes stored when it was created with their length as its size, and no temporary file is left |
| `Attachments.StepAgrees` | apps/attachments/views.py:52-134 | Every single request (upload, inline image, delete, new or deleted finding) keeps rows and disk in agreement |
| `Attachments.RecordedForever` | apps/attachments/views.py:52-134 | While a row exists neither it nor what was recorded for it changes |
| `Attachments.UploadOneIff` | apps/attachments/views.py:68-92 | A file is skipped exactly when it is too large, and attached exactly when its whole content arrived and its digest was new to the finding; nothing else changes the tables or the disk |
| `Attachments.UploadCounts` | apps/attachments/views.py:62-97 | Every file of a batch is counted once as created, duplicate or too big unless a transfer crashed, and the created count is the number of new rows |
| `Attachments.FailedChunk` | apps/attachments/storage.py:68-84 | A transfer with a failing chunk stores nothing, wherever the chunk is |
| `Attachments.RemovedIff` | apps/attachments/views.py:41-47 | A row disappears in a request exactly when its uploader or a superadmin deletes it under its own finding, or the reporter or a superadmin deletes that finding |
| `Attachments.AddedRows` | apps/attachments/views.py:52-159 | A new row comes only from a file or an image within the limit sent by somebody who may edit the finding, or with a new finding; it has the digest and length of that content, its sender as uploader, and is inline only for images |
| `Attachments.FindingsAfter` | apps/findings/views.py:421-469 | How findings come, go and change researchers: the reporter is the first researcher, only reporter and superadmins delete or assign, and a rejected image leaves no new finding behind |
| `Attachments.UploadVerdicts` | apps/attachments/views.py:62-92 | In a batch a file is skipped exactly when it is too large, crashes exactly when it fits and some chunk fails, and is otherwise attached when the batch is over |
| `Attachments.BatchEnds` | apps/attachments/views.py:62-92 | A batch reports its files in turn and stops early only at the first crash |
| `Attachments.ImageIff` | apps/attachments/views.py:104-159 | When an inline image is not found, too big, rejected, a duplicate or new, and what it leaves |
| `Attachments.ContentConcat` | apps/attachments/storage.py:68-79 | The content of a transfer is its chunks put together in order |
| `AttachmentStore.Store.HashAndStore` | apps/attachments/storage.py:55-84 | The streaming loop stores the concatenated chunks under their digest and returns digest and length; on a failing chunk the disk is as before |
| `AttachmentStore.Store.StoreBytes` | apps/attachments/storage.py:124-141 | Stores in-memory bytes under their digest; an existing blob is left alone |
| `AttachmentStore.Store.DeleteBlob` | apps/attachments/storage.py:144-148 | Removes one blob and nothing else |
| `AttachmentStore.Store.PurgeFindingBucket` | apps/attachments/storage.py:151-155 | Removes every file of one finding and nothing else |
| `AttachmentStore.Store.Upload` | apps/attachments/views.py:52-97 | For those who may edit the finding the batch loop has the specified effect on rows and disk, and its three counters are the specified counts; for anybody else nothing changes |
| `AttachmentStore.Store.AttachInlineImage` | apps/attachments/views.py:104-134 | Refuses, reuses the row with the same digest, or stores blob and row, as specified |
| `AttachmentStore.Store.UploadImage` | apps/attachments/views.py:140-159 | Attaches an image for those who may edit the finding, as specified, and keeps rows and disk in agreement |
| `AttachmentStore.Store.NewFindingUploadImage` | apps/findings/views.py:421-469 | Creates a finding with its image, or rolls the tables back when the image is refused |
| `AttachmentStore.Store.FindingDelete` | apps/findings/views.py:528-545 | Deletes the finding for its reporter or a superadmin, as specified |
| `AttachmentStore.Store.DeleteAttachment` | apps/attachments/views.py:217-233 | Deletes row and blob for the uploader or a superadmin, otherwise nothing: the specified delete, whose rights RemovedIff gives |
| `AttachmentStore.Store.DeleteFinding` | apps/findings/signals.py:31-44 | Deleting a finding cascades to its rows and purges its bucket |
| `Cvss31.ScoreMonotone` | static/js/cvss31.js:40-61 | For a fixed scope, making any of the seven other metrics more severe never lowers the rounded score |
| `Cvss31.ScoreRange` | static/js/cvss31.js:40-61 | Every score is a multiple of 0.1 in [0, 10], and 0 exactly when C, I and A are all None |
| `Cvss31.ScoreExamples` | static/js/cvss31.js:17-61 | Three well-known vectors score 9.8, 6.1 and 1.8 |
| `Cvss31.UnchangedScores` | static/js/cvss31.js:17-61 | Scores of six vectors of unchanged scope ... |
| `Cvss31.ChangedScores` | static/js/cvss31.js:17-61 | ... and of four of changed scope; between them they use every entry of the weight table, PR:L and PR:H in both scopes, and a change of 0.01 in any one entry changes a score |
| `Cvss31.ChangedImpactIncreases` | static/js/cvss31.js:46 | Changed-scope impact is strictly increasing on the reals from -0.809 to 0.849, which include every sub-score up to 0.849 |
| `Cvss31.ChangedImpactLastStep` | static/js/cvss31.js:46 | It also increases over the one remaining step, from the HHL to the HHH sub-score |
| `Cvss31.ChangedImpactPeaks` | static/js/cvss31.js:46 | Outside that interval it is not monotone: a sub-score between HHL and HHH exceeds the value at HHH, and it falls from -1 to -0.9 |
| `Cvss31.SlopeBelowTwoAround` | static/js/cvss31.js:46 | The 15th power has slope at most 2 on [-0.829, 0.829] |
| `Cvss31.ImpactMonotone` | static/js/cvss31.js:41-47 | On the metric levels impact is monotone in C, I and A for either scope |
| `Cvss31.WeightedImpactMonotone` | static/js/cvss31.js:41-47 | Impact is monotone in all real weights from 0 to 1: everywhere for unchanged scope, up to the sub-score 0.849 for changed scope |
| `Cvss31.ImpactSign` | static/js/cvss31.js:41-48 | Impact is at most 0 exactly when C, I and A are None, and at least 0.1 otherwise |
| `Cvss31.ExploitabilityMonotone` | static/js/cvss31.js:50-52 | Exploitability is monotone in every non-negative real weight |
| `Cvss31.RoundUpIsCeiling` | static/js/cvss31.js:33-38 | The integer-based round-up is the least tenth not below the input rounded to five decimals |
| `Cvss31.RoundUpMonotone` | static/js/cvss31.js:33-38 | roundUp is monotone |
| `Cvss31.RoundUpFixesTenths` | static/js/cvss31.js:33-38 | roundUp fixes every tenth |
| `Cvss31.RoundUpBounds` | static/js/cvss31.js:33-38 | n - 0.000005 < roundUp(n) <= n + 0.099995, and the result is below n exactly for n less than 0.000005 above a tenth |
| `CvssVector.Canonical` | static/js/cvss31.js:71-103 | For every string that parses to a complete metric set, the built vector parses back to the same eight metrics and is a fixed point of parse-then-build |
| `CvssVector.BuildThenParse` | static/js/cvss31.js:71-103 | Parsing a built vector gives back exactly the eight base metrics |
| `CvssVector.MetricsRoundTrip` | static/js/cvss31.js:71-103 | Every choice of metrics survives printing and parsing, with its score |
| `CvssVector.PrintedMetrics` | static/js/cvss31.js:71-103 | Every choice of metrics is printed as CVSS:3.1 with its eight letters in the standard order, and that text parses to the choice |
| `CvssVector.LettersIff` | static/js/cvss31.js:17-29 | Which letter stands for which metric value |
| `CvssVector.BuildText` | static/js/cvss31.js:71-83 | The printed text of any eight values: the prefix CVSS:3.1 and the eight segments in order |
| `CvssVector.ParseIff` | static/js/cvss31.js:85-103 | A string parses exactly when its first non-empty trimmed segment is CVSS:3.0 or CVSS:3.1, every other one has one colon, and all eight metrics are named; it parses to the last value of each key |
| `CvssVector.CompleteIff` | static/js/cvss31.js:124-135 | Complete means a letter of the standard for each of the eight metrics |
| `CvssVector.FillIsLast` | static/js/cvss31.js:92-97 | The parsed object maps each key to its last value, and exists exactly when every segment has one colon |
| `CvssVector.SameLast` | static/js/cvss31.js:92-97 | Only the last value per key matters |
| `CvssVector.OrderIrrelevant` | static/js/cvss31.js:87-101 | Any two strings with the same prefix and the same segments, no key twice, parse alike in whatever order the segments come |
| `CvssVector.EmptySegmentIrrelevant` | static/js/cvss31.js:89 | A doubled slash anywhere in any string changes nothing |
| `CvssVector.TrailingSlashIrrelevant` | static/js/cvss31.js:87-89 | Nor does a slash behind a string that does not end in white space |
| `CvssVector.LeadingSlashIrrelevant` | static/js/cvss31.js:87-89 | Nor does a slash in front of a string that does not start with white space |
| `CvssVector.ExtraMetricIrrelevant` | static/js/cvss31.js:87-101 | In any string a segment with an unknown key behind the prefix changes neither whether the string parses nor the eight metrics |
| `CvssVector.PrefixIrrelevant` | static/js/cvss31.js:91 | CVSS:3.0 and CVSS:3.1 parse alike |
| `CvssVector.ParseVector` | static/js/cvss31.js:85-103 | The loops compute the specified parse of any string, null results included |
| `CvssVector.IsComplete` | static/js/cvss31.js:124-135 | True exactly when all eight metrics have an allowed value |
| `Findings.BandsAgreeIff` | apps/findings/models.py:94-109 | Server and calculator band differ exactly on scores strictly between 0 and 0.1 |
| `Findings.BandsAgreeOnTenths` | static/js/cvss31.js:63-69 | So they agree on every one-decimal score and on every score the calculator can produce |
| `Findings.UnfoldBands` | apps/findings/models.py:94-109 | The bands begin at 9.0, 7.0, 4.0 and 0.1 |
| `Findings.DeriveIsWorse` | apps/findings/models.py:240-242 | The severity of the larger score is the worse of the bands of the two scores |
| `Findings.SaveRates` | apps/findings/models.py:231-247 | A full save stores that severity, and a partial save that writes no score keeps it |
| `Findings.SaveColumns` | apps/findings/models.py:231-247 | save() stores every column, or those in update_fields and no other; a blank display id is filled and any other kept; severity is the worse of the two bands |
| `AuditLog.EntriesAppend` | apps/audit/services.py:57-67 | One appended row extends the history of its own target by one action and no other history |
| `AuditLog.EntriesForeign` | apps/audit/services.py:57-67 | Rows about other targets leave a history as it was |
| `Approvals.TwoPersonRule` | apps/approvals/services.py:58-252 | In every run of the service and of user creation: the log replays to every row and reads REQUESTED, then nothing, or APPROVED EXECUTED, or DENIED, or EXPIRED; each handler call is the only one for its approval, on the payload of the request, in time and by a superadmin other than the requester; behind every superadmin account that appeared there is an executed request with the log entry of a requesting superadmin, the log entry of another approving superadmin, and its one handler call in time; behind every other account there is the log entry of the superadmin who created it |
| `Approvals.StepWitnessed` | apps/approvals/services.py:58-252 | Every step keeps the witnesses: a superadmin signed the request of every row, the approver signed its approval, and every executed row had its handler called |
| `Approvals.RunKeeps` | apps/approvals/services.py:58-252 | Every run keeps the invariant behind it |
| `Approvals.ApproveKeeps` | apps/approvals/services.py:90-131 | Approving, with handler success, handler failure or late expiry, keeps the invariant |
| `Approvals.DenyKeeps` | apps/approvals/services.py:134-168 | Denying keeps it, and a refused denial changes nothing |
| `Approvals.RequestKeeps` | apps/approvals/services.py:58-84 | Requesting keeps it |
| `Approvals.SweepKeeps` | apps/approvals/services.py:239-252 | Sweeping keeps it |
| `Approvals.StepKeeps` | apps/approvals/services.py:58-252 | Every request keeps agreement of log, rows and calls, and the witnesses |
| `Approvals.RunExtends` | apps/approvals/models.py:58-65 | Over any run the log and the calls only grow, a request keeps its action, payload, requester and deadline, and a terminal row never changes |
| `Approvals.SweepEffect` | apps/approvals/services.py:239-252 | A sweep expires exactly the due rows and logs one entry for each |
| `Approvals.SweepTwice` | apps/approvals/services.py:239-252 | After a sweep at t no pending row is due at t, and sweeping again at t or earlier changes nothing and counts 0 |
| `Approvals.RunEnrols` | apps/accounts/views.py:346-397 | Over any run, with direct creation of regular accounts, old accounts stay, new superadmins number the executed approvals and each carries the normalised e-mail and name of one, every new regular account has the entry of its creator, and e-mails stay unique |
| `ApprovalEffects.TypedAccount` | apps/accounts/views.py:346-379 | End to end: one superadmin asks for a superadmin account, any requests follow that leave it pending, another superadmin approves within a day with e-mail and key still free; then exactly the typed account exists, e-mail stripped and in lower case |
| `ApprovalEffects.NewUserIff` | apps/accounts/views.py:346-397 | Past the syntax of its fields, when the form is accepted, and that a regular account is created at once with the typed name, the normalised e-mail and its log entry, while a privileged one changes no account |
| `ApprovalEffects.ApprovalRuns` | apps/approvals/services.py:90-222 | An approval in time executes exactly when the account can be created, and then exactly that account is new; otherwise the row fails with its reason and accounts stay; all columns and log entries are given |
| `ApprovalEffects.LateApproval` | apps/approvals/services.py:108-111 | A late approval expires the row, logs that and does nothing else; any other refusal does nothing |
| `ApprovalEffects.GuardsInOrder` | apps/approvals/services.py:255-273 | Which refusal an approval or a denial gets, in order |
| `ApprovalEffects.RequestIff` | apps/approvals/services.py:58-84 | Exactly superadmins request; the row is pending for 86400 seconds with the terms of the request, and its entry names the requester |
| `ApprovalEffects.DenyIff` | apps/approvals/services.py:134-168 | Exactly another superadmin denies a pending row, with a reason that is not blank; its first 500 characters are kept |
| `ApprovalEffects.SweepEntries` | apps/approvals/services.py:239-252 | A sweep logs one expiry without an actor for each pending row past its deadline, newest first |
| `ApprovalService.Service.RequestApproval` | apps/approvals/services.py:58-84 | Creates the pending row and its log entry in place, or refuses a non-superadmin, as specified |
| `ApprovalService.Service.Approve` | apps/approvals/services.py:90-131 | The guards, the late-expiry path and the two-phase approve-then-execute have the specified effect and errors |
| `ApprovalService.Service.Deny` | apps/approvals/services.py:134-168 | Guards, required reason and the 500-character cap have the specified effect |
| `ApprovalService.Service.Execute` | apps/approvals/services.py:174-222 | Runs the registered handler once, or fails the row when there is none or it raises |
| `ApprovalService.Service.CreateSuperadminUser` | apps/accounts/handlers.py:21-48 | Inserts the account and its log entry, or raises on a missing field or a taken e-mail |
| `ApprovalService.Service.UserNew` | apps/accounts/views.py:346-397 | Requests an approval for a superadmin account and creates any other directly with its log entry, as specified; TypedAccount and NewUserIff say what becomes of the typed e-mail and name |
| `ApprovalService.Service.Expire` | apps/approvals/services.py:225-236 | Marks one row expired and logs it without an actor |
| `ApprovalService.Service.FindDue` | apps/approvals/services.py:241-246 | Returns exactly the pending rows whose deadline has passed |
| `ApprovalService.Service.SweepExpired` | apps/approvals/services.py:239-252 | The loop expires exactly those and returns their number |
| `Reviews.SeparationOfDuty` | apps/findings/models.py:307-318 | In every reachable state an approved finding of a creator without review authority, and every approved or exportable report, was approved in the log by a review authority who was not its creator or was a superadmin |
| `Reviews.LogReplays` | apps/findings/views.py:656-764 | In every reachable state each finding and report has the state its own log entries replay to from its creation |
| `Reviews.StepKeeps` | apps/findings/views.py:656-764 | Each of the sixteen requests keeps the invariant behind both |
| `Reviews.ReportEdges` | apps/reports/views.py:467-554 | The complete set of moves of a report in one request, with the state and the right each needs and the reviewer columns it sets; approval only from in-review by someone who may review it |
| `Reviews.FindingEdges` | apps/findings/views.py:631-764 | The complete set of moves of a review state in one request: only the review views of a reviewer, or a resubmission after rejection by the creator or a superadmin; no edit, link, autosave or report request moves it |
| `Reviews.AutosaveWritesOnlyText` | apps/reports/views.py:401-461 | Autosave changes one text field of one row, the report itself, an annex or a finding of that report: the value is stored whole up to the cap of its field and cut there beyond, the other fields keep theirs, and a refused call changes nothing |
| `Reviews.UnloggedMoveIff` | apps/findings/views.py:631-698 | The shared transition code would break the replay exactly when a reviewer moved a finding back from under review to PENDING, or a superadmin any finding that is not pending: that move is not logged (no view asks for it) |
| `Reviews.LogGrows` | apps/audit/services.py:57-67 | The log of any run extends the log before it |
| `Reviews.OneEntryAtMost` | apps/findings/views.py:656-764 | A request appends nothing, or one entry by its own actor |
| `Reviews.SeverityStaysDerived` | apps/findings/models.py:231-247 | In every reachable state, after full saves, partial saves, autosave and id backfill, the stored severity is the worse of the bands of the two stored scores |
| `ReviewEffects.AutosaveIff` | apps/reports/views.py:421-461 | Autosave takes effect exactly for somebody who may edit the report, a listed field, and a row of that report |
| `ReviewEffects.SavableIff` | apps/reports/views.py:401-418 | The thirteen fields autosave may write, each with its cap |
| `ReviewEffects.TransitionIff` | apps/findings/views.py:631-721 | Reviewers move the findings of others along five moves, superadmins any finding; exactly the review columns and one entry under the right action are written |
| `ReviewEffects.ResubmitIff` | apps/findings/views.py:727-764 | Exactly the creator or a superadmin resubmits, exactly a rejected finding |
| `ReviewEffects.DeleteIff` | apps/findings/views.py:528-560 | Exactly the creator or a superadmin deletes; the finding leaves every report and one entry is written |
| `ReviewEffects.NewFindingIff` | apps/findings/views.py:382-413 | Who may create a finding inside a report, and the new row: scores and text of the form, derived severity, approved for a review authority and pending otherwise; inside a report it is linked and has the client of the report as vendor |
| `ReviewEffects.EditFindingIff` | apps/findings/views.py:493-505 | Who may edit a finding, alone or inside a report, and that exactly scores, vendor, text and severity change; inside a report the vendor stays its client |
| `ReviewEffects.CollaborateIff` | apps/findings/views.py:590-628 | Exactly the creator or a superadmin changes researchers, one at a time, and never removes the creator |
| `ReviewEffects.RenumberIff` | apps/findings/management/commands/reassign_internal_ids.py:101-105 | The backfill writes the display id of an existing finding and no other column |
| `ReviewEffects.SubmitIff` | apps/reports/views.py:491-508 | Exactly editors submit, exactly drafts and rejected reports, each under its own action |
| `ReviewEffects.DecideIff` | apps/reports/views.py:514-554 | Who may approve, reject and reopen a report in which state, and everything that changes |
| `ReviewEffects.LinkIff` | apps/reports/views.py:176-205 | Exactly editors link a finding of the client of the report and unlink any, and no other report changes |
| `ReviewEffects.EditReportIff` | apps/reports/views.py:68-91 | A new report is an empty draft of its creator; exactly editors change its client, text, people and annexes |
| `ReviewEffects.ViewIff` | apps/reports/models.py:161-175 | Accepted reports are exported by anybody and others by nobody; others are seen by those who may review or edit them |
| `ReviewEffects.FindingWriters` | apps/findings/models.py:263-318 | Whatever the request: the creator of a finding never changes, scores, vendor and text change only for researchers, superadmins and editors of a report with it, researchers only for creator and superadmins, review columns only for those and reviewers; and it goes only when creator or superadmin delete it |
| `ReportClients.OneClientIff` | apps/reports/views.py:176-191 | From reports that hold findings of their own client only, a request keeps it so exactly unless it gives a linked finding another vendor on the page of the finding, or a report with findings another client; the guard promises it for all |
| `ReportClients.RunKeepsOneClient` | apps/reports/views.py:176-285 | Over any run without those two edits no report ever holds a finding of another client |
| `ReportClients.OtherClientExample` | apps/reports/views.py:151-163 | A reachable failing input: one user creates a report for one client and a finding in it, and then changes the client of the report; the finding of the first client stays in it |
| `Reviews.DecideKeeps` | apps/reports/views.py:514-538 | Approving and rejecting a report keep the invariant |
| `Reviews.TransitionKeeps` | apps/findings/views.py:703-721 | Starting, approving and rejecting a finding keep the invariant |
| `Reviews.ResubmitKeeps` | apps/findings/views.py:727-764 | Resubmitting keeps the invariant |
| `Reviews.NewFindingKeeps` | apps/reports/views.py:211-245 | A finding born approved (review authority) or pending keeps the invariant, also when created inside a report |
| `ReviewViews.Views.TransitionReview` | apps/findings/views.py:656-698 | Guards, table, superadmin override, column writes and audit entry have the specified effect |
| `ReviewViews.Views.ReviewResubmit` | apps/findings/views.py:727-764 | Owner check, state check, column writes and audit entry have the specified effect |
| `ReviewViews.Views.SaveReview` | apps/findings/views.py:680 | save(update_fields=...) writes the three review columns only |
| `ReviewViews.Views.SetReportState` | apps/reports/views.py:467-485 | Writes status and reviewer and appends one entry |
| `ReviewViews.Views.ReportSubmitReview` | apps/reports/views.py:491-508 | Submits from draft or rejected only, logging the first submission and a resubmission differently |
| `ReviewViews.Views.ReportDecide` | apps/reports/views.py:514-538 | Approves or rejects from in-review only |
| `ReviewViews.Views.ReportReopen` | apps/reports/views.py:544-554 | Reopens an approved report for superadmins only |
| `ReviewViews.Views.ReportAddFinding` | apps/reports/views.py:176-191 | Links a finding for editors, unless its vendor is not the client of the report |
| `ReviewViews.Views.ReportRemoveFinding` | apps/reports/views.py:198-205 | Unlinks a finding for editors and keeps the finding |
| `ReviewViews.Views.ReportAutosave` | apps/reports/views.py:421-461 | Allowlist, truncation and membership checks have the specified effect |
| `Workflow.OneLogReplaysAll` | apps/audit/services.py:30-67 | With approvals, user creation, findings and reports interleaved over one shared log, every state is still the replay of its own entries, every handler call stays justified, every new superadmin account is endorsed in that log and every other new account has the entry of its creator |
| `Workflow.ReviewsUndisturbed` | apps/approvals/services.py:58-252 | Approval entries in the shared log cannot change what a finding or report replays to |
| `Workflow.ApprovalsUndisturbed` | apps/findings/views.py:656-764 | Review entries cannot change what an approval replays to |
| `Base64Url.RoundTrip` | apps/webauthn_auth/services.py:63-69 | Decoding the encoded bytes gives them back, for every byte sequence |
| `Base64Url.PaddingRestores` | apps/webauthn_auth/services.py:63-69 | The stripped text is never 1 modulo 4 long, and -len % 4 restores exactly the padding removed |
| `Base64Url.EncodeInjective` | apps/webauthn_auth/services.py:63-64 | Different bytes have different texts |
| `Base64Url.DecodeAcceptsIff` | apps/webauthn_auth/services.py:67-69 | A text over the alphabet decodes exactly when its length is not 1 modulo 4 |
| `Base64Url.AlphabetIsTable` | apps/webauthn_auth/services.py:63-69 | The alphabet is that of section 5 of RFC 4648, and the decoder also takes the two characters of section 4 |
| `Base64Url.TestVectors` | apps/webauthn_auth/services.py:63-64 | Test vectors of section 10 of RFC 4648 |
| `Base64Url.GroupByGroup` | apps/webauthn_auth/services.py:63-64 | A text is encoded in groups of three bytes |
| `Base64Url.ForeignCharacters` | apps/webauthn_auth/services.py:67-69 | The decoder skips ASCII characters outside its alphabet wherever they stand, and refuses any other |
| `Enrollment.LookupIff` | apps/webauthn_auth/views.py:51-70 | Looking up by 16-character prefix and then verifying returns a row exactly when it is unused, its expiry is in the future and its hash verifies |
| `Enrollment.ConsumeOnce` | apps/webauthn_auth/models.py:135-157 | Consuming a raw token succeeds at most once, marks exactly its row, and later lookups fail |
| `Enrollment.ConsumeIff` | apps/webauthn_auth/models.py:135-157 | Consuming finds exactly the unused, unexpired row of a raw token that starts with zto_enr_ |
| `Enrollment.IssuedToken` | apps/webauthn_auth/models.py:115-133 | A token just issued is found for its user exactly until it expires |
| `Ceremonies.DeadTokenRefused` | apps/webauthn_auth/models.py:107-108 | A raw token whose rows were all used or have reached their expiry opens and finishes no registration, and changes nothing |
| `Ceremonies.RunLookupIff` | apps/webauthn_auth/views.py:51-70 | In every state of a run whose issued raw tokens are new and verify only against their own hashes, the lookup by prefix returns exactly the active row whose hash verifies |
| `Enrollment.LookupActiveToken` | apps/webauthn_auth/views.py:51-70 | The search loop returns the newest matching active row, or none |
| `Ceremonies.NoReplay` | apps/webauthn_auth/services.py:179-277 | In any run over any sessions, accepted responses carry pairwise different challenges that the server issued, so none is accepted twice |
| `Ceremonies.RunKeeps` | apps/webauthn_auth/services.py:75-277 | Every run keeps the challenge invariant |
| `Ceremonies.StoredChallengeDecodes` | apps/webauthn_auth/services.py:197-218 | What a session stores decodes to the very bytes that were issued |
| `Ceremonies.StepChallenges` | apps/webauthn_auth/services.py:75-277 | A step stores one fresh challenge, drops one, or leaves challenges alone; acceptance drops the challenge it answered |
| `Ceremonies.StepAccepts` | apps/webauthn_auth/services.py:201-277 | A step accepts at most one response, to a challenge some session still held |
| `Ceremonies.DeadStaysDead` | apps/webauthn_auth/services.py:201-277 | An issued challenge that no session holds is never answered successfully again, in any later run |
| `Ceremonies.RestartKills` | apps/webauthn_auth/services.py:179-198 | Starting again in a session kills the challenge handed out before |
| `Ceremonies.RegistrationRestartKills` | apps/webauthn_auth/services.py:75-109 | Starting a registration again in a session kills its earlier challenge |
| `Ceremonies.CounterRuleIff` | apps/webauthn_auth/services.py:268-271 | The counter check accepts exactly what section 7.2 of WebAuthn Level 2 accepts |
| `Ceremonies.StepCounters` | apps/webauthn_auth/services.py:268-277 | A stored counter that is positive strictly grows whenever its row changes; owner and key never change |
| `Ceremonies.CountersNeverFall` | apps/webauthn_auth/services.py:268-277 | Over any run no stored counter falls |
| `Ceremonies.SignInEffect` | apps/webauthn_auth/services.py:201-277 | An accepted sign-in drops the challenge and writes the count the verifier returned into the row of the credential that the id decodes to, and nothing else; a refused one drops the challenge only; a crash changes nothing |
| `Ceremonies.SignInCrashesIff` | apps/webauthn_auth/services.py:218-219 | A sign-in crashes exactly when a challenge is open and no credential id decodes |
| `Ceremonies.LaterCountIsLarger` | apps/webauthn_auth/services.py:268-275 | Of two accepted sign-ins with one credential, whatever runs between them, the later carried the larger count, unless both carried 0 |
| `Ceremonies.OneTokenOneCredential` | apps/webauthn_auth/views.py:108-133 | Over any run as many credentials exist as tokens were burned, each owned by a user who was issued a token |
| `Ceremonies.FinishRegBalancesIff` | apps/webauthn_auth/views.py:108-133 | The finish does not compare the owner of the token it burns with the user of the session: an accepted registration keeps credentials and burned tokens balanced for every user exactly when they are the same |
| `Ceremonies.ForeignTokenExample` | apps/webauthn_auth/views.py:96-133 | A reachable failing input: two users get tokens, the session opened with the token of the first is finished with that of the second; it is accepted, the key goes to the first user, the token of the second is burned, and the balance is lost |
| `Ceremonies.PerUserBalance` | apps/webauthn_auth/views.py:96-133 | Over any run whose finishes present a token of the user their session was opened for, every single user has as many credentials as burned tokens |
| `Ceremonies.AcceptedRegistration` | apps/webauthn_auth/services.py:112-156 | Only an accepted registration touches credentials and tokens, and then it burns the token it presented and adds the attested key and counter for the user of the session |
| `Ceremonies.RegistrationEffect` | apps/webauthn_auth/views.py:108-133 | Everything a registration changes: accepted, it closes the ceremony, burns the presented token and adds id, public key and counter that the verifier returned; refused, it closes the ceremony, or changes nothing without a token; crashed, nothing |
| `Ceremonies.StartEffect` | apps/webauthn_auth/views.py:96-101 | A start opens a ceremony for the owner of an active token, with a stored challenge that decodes to the issued bytes, and changes nothing else |
| `Ceremonies.StartAuthEffect` | apps/webauthn_auth/services.py:179-198 | A sign-in start stores the issued bytes in the sign-in slot of that session alone |
| `Ceremonies.UsedStaysUsed` | apps/webauthn_auth/models.py:107-112 | Over any run a used token keeps its row unchanged, and no later lookup or registration finds it, whatever raw token is presented at whatever time |
| `Ceremonies.FinishRegIff` | apps/webauthn_auth/views.py:108-133 | A registration succeeds exactly when the token is active, the session was opened for a user that exists and the response verifies against the issued challenge with a new credential id |
| `Ceremonies.FinishAuthIff` | apps/webauthn_auth/services.py:201-277 | A sign-in succeeds, for the owner of the credential, exactly when the session holds a challenge, the credential is known, its owner is active and named by the user handle, the response verifies against the issued bytes and the counter grew as the standard asks |
| `CeremonyService.Server.StartAuthentication` | apps/webauthn_auth/services.py:179-198 | Stores the encoded challenge in the session |
| `CeremonyService.Server.FinishAuthentication` | apps/webauthn_auth/services.py:201-277 | Pop, lookups, user-handle check, verification, counter check and counter update have the specified effect; a crash restores the session |
| `CeremonyService.Server.RegistrationStart` | apps/webauthn_auth/views.py:96-101 | Opens a ceremony for the owner of an active token |
| `CeremonyService.Server.FinishRegistration` | apps/webauthn_auth/services.py:112-156 | Pops the ceremony, verifies the response and creates the credential, or refuses; a crash restores the session |
| `CeremonyService.Server.RegistrationFinish` | apps/webauthn_auth/views.py:108-133 | Finishes with an active token and burns it on success, as specified, and keeps the challenge invariant |
| `Uuid7.FieldsReadBack` | core/security/uuids.py:32-43 | For every layout with these field widths every field can be read back from the packed value, which fits the width of the layout |
| `Uuid7.Rfc9562Reads` | core/security/uuids.py:32-43 | At the shifts 80, 76, 64 and 62 of the code the value is below 2^128 and gives back the milliseconds modulo 2^48, version 7, variant 2 and both random fields |
| `Uuid7.PackedForm` | core/security/uuids.py:42 | The shifts and ors of the one expression never overlap: their result is the sum of the shifted fields |
| `Uuid7.MaskIsRemainder` | core/security/uuids.py:38 | Masking with n ones is the remainder modulo 2^n |
| `Uuid7.OrderIff` | core/security/uuids.py:32-43 | Values are ordered exactly as (timestamp, first random field, second random field) |
| `Uuid7.LaterIsLarger` | core/security/uuids.py:32-43 | A later millisecond below 2^48 gives a larger value whatever the random fields |
| `Uuid7.TextOrder` | core/security/uuids.py:43 | For all 128-bit values the lexicographic order of the dashed hexadecimal text is the numeric order |
| `Uuid7.TextReads` | core/security/uuids.py:43 | The text has 36 characters with dashes at 8, 13, 18 and 23, and its hexadecimal digits spell the number |
| `Uuid7.TextFollowsTime` | core/security/uuids.py:32-43 | So keys made in later milliseconds sort later as texts |
| `Uuid7.Rfc9562Sorts` | core/security/uuids.py:32-43 | At the shifts of the code keys made in later milliseconds below 2^48 have lexicographically larger dashed texts |
| `InternalIds.HandleEffect` | apps/findings/management/commands/reassign_internal_ids.py:61-109 | A dry run or a failure changes no row; a run that applies keeps ids unique and canonical rows untouched, and with four-digit years leaves only canonical ids, after which a second run with any draws changes nothing |
| `InternalIds.BackfillIff` | apps/findings/management/commands/reassign_internal_ids.py:101-105 | Applying a plan succeeds and makes every id canonical if and only if the rows to change were created in four-digit years; then every intermediate state of the update loop satisfies the UNIQUE constraint |
| `InternalIds.PlanFacts` | apps/findings/management/commands/reassign_internal_ids.py:74-81 | A plan names exactly the non-canonical rows, each once, with pairwise distinct ids not in use |
| `InternalIds.AllocateIff` | apps/findings/management/commands/reassign_internal_ids.py:41-48 | Allocation returns an unused id of that year, and fails exactly when every draw it may use is taken |
| `InternalIds.AllocateFirst` | apps/findings/management/commands/reassign_internal_ids.py:41-48 | Otherwise it takes the first draw that is free |
| `InternalIds.OneRowPlan` | apps/findings/management/commands/reassign_internal_ids.py:41-48 | The command gives a row up exactly after a hundred taken numbers |
| `InternalIds.HandleCounts` | apps/findings/management/commands/reassign_internal_ids.py:83-109 | The number a dry or a real run reports is the number of rows without a canonical id |
| `InternalIds.NewIdCanonicalIff` | apps/findings/management/commands/reassign_internal_ids.py:44 | A generated id matches the canonical pattern exactly for a four-digit year |
| `InternalIds.NewIdReads` | apps/findings/management/commands/reassign_internal_ids.py:44 | A generated id is ZT-, digits that spell the year without leading zeros, a dash, and seven digits that spell the number |
| `InternalIds.ExactIff` | apps/findings/management/commands/reassign_internal_ids.py:38 | The canonical format spelled out: ZT-, four digits, a dash, seven digits, and for Python possibly a final newline |
| `InternalIds.ApplySucceeds` | apps/findings/management/commands/reassign_internal_ids.py:101-105 | When no row holds a planned id, no update of the loop can violate the UNIQUE constraint |
| `InternalIds.CreateKeeps` | apps/findings/models.py:249-261 | The first save keeps ids unique, fails exactly when its fifty draws are taken, and leaves nothing for the backfill |
| `InternalIds.CreateStores` | apps/findings/models.py:249-261 | The first of fifty draws that is free becomes the id of the new row |
| `InternalIds.Command.AllocateId` | apps/findings/management/commands/reassign_internal_ids.py:41-48 | The retry loop computes the specified allocation |
| `InternalIds.Command.PlanChanges` | apps/findings/management/commands/reassign_internal_ids.py:66-81 | The planning loop computes the specified plan |
| `InternalIds.Command.Run` | apps/findings/management/commands/reassign_internal_ids.py:61-109 | The command changes the rows in place as specified and rolls back when an update is refused |
| `TrustedProxies.RightmostIff` | core/security/trusted_proxies.py:43-45 | The search returns a hop exactly when that hop is untrusted and everything to its right is trusted |
| `TrustedProxies.AddressIff` | core/security/trusted_proxies.py:20-49 | The address of every request: none without a remote address, the remote address of a direct connection whatever the header says, otherwise the rightmost hop that is not a trusted proxy, or the remote address when there is none |
| `TrustedProxies.ChainOfPart` | core/security/trusted_proxies.py:42 | One part of a header gives its stripped text, or no hop when blank |
| `TrustedProxies.ChainOfJoin` | core/security/trusted_proxies.py:42 | A header that lists hops reads back as those hops |
| `TrustedProxies.PrependChangesIff` | core/security/trusted_proxies.py:20-49 | Text and a comma put in front of the header change the result exactly when the peer is a trusted proxy, the rest of the header names no untrusted hop and the text does |
| `TrustedProxies.PrependedHop` | core/security/trusted_proxies.py:20-49 | For example, when the header names only the proxy, any untrusted hop put in front of it becomes the result |
| `TrustedProxies.PrependExample` | core/security/trusted_proxies.py:20-49 | Behind the proxy 10.0.0.1, putting 8.8.8.8 in front of a header that names only the proxy changes the result |
| `TrustedProxies.ChainConcat` | core/security/trusted_proxies.py:42 | Splitting and stripping distribute over joining two headers with a comma |
| `TrustedProxies.GetRealClientIp` | core/security/trusted_proxies.py:20-49 | The reversed search computes the specified address |
| `AffectedHosts.VendorIsolation` | apps/findings/views.py:471-488 | In every reachable state all hosts linked to a finding belong to its current vendor, also after edits that change the vendor |
| `AffectedHosts.ResaveIff` | apps/findings/views.py:493-511 | Saving the displayed hosts again changes nothing at all if and only if every linked value is stripped |
| `AffectedHosts.LongLineLost` | apps/findings/views.py:480-488 | It fails for a line of 499 characters, a space and more text: the cut value ends in a space, and saving it again changes the linked hosts |
| `AffectedHosts.ResaveExample` | apps/findings/views.py:480-488 | One such line, 499 letters, a space and a letter |
| `AffectedHosts.ShortLinesResave` | apps/findings/views.py:493-511 | In particular when no stripped line exceeds 500 characters |
| `AffectedHosts.CollectFacts` | apps/findings/views.py:478-487 | The collected values are non-blank, capped, and pairwise different after case folding |
| `AffectedHosts.CollectIff` | apps/findings/views.py:478-487 | Every non-blank line is represented up to case, unless seen before, and nothing else is collected |
| `AffectedHosts.LinkedIff` | apps/findings/views.py:471-488 | Saving links exactly the hosts of the vendor whose value is the first of its kind, up to case, among the lines; hosts are only added, and other findings keep theirs |
| `AffectedHosts.ValueIff` | apps/findings/views.py:481 | A value is a stripped line, or its first 500 characters |
| `AffectedHosts.Views.SyncAffectedHosts` | apps/findings/views.py:471-488 | The loop creates the missing hosts of the vendor and replaces the linked set, as specified |
| `AffectedHosts.Views.SaveFinding` | apps/findings/views.py:493-500 | Saves the vendor and then the hosts, as specified, and keeps every host with the vendor of its finding |
| `Text.SplitJoin` | apps/findings/views.py:507-509 | Joining lines with a newline and splitting again gives the lines back |
| `Text.SplitAt` | core/security/trusted_proxies.py:42 | Splitting at a separator splits both sides independently |
| `Text.StripFacts` | core/security/trusted_proxies.py:42 | Stripping yields a stripped substring and changes exactly the texts that are not stripped |
| `Text.StripCuts` | core/security/trusted_proxies.py:42 | Strip cuts white space off both ends and nothing else |
| `Text.LowerIff` | apps/accounts/forms.py:35 | ASCII letters become small letters and all else stays |
| `Text.Classes` | apps/findings/views.py:480-481 | The ASCII characters of white space in Python, in JavaScript and of line breaks, and where the two kinds of white space differ |

## Left out

- Overlapping requests on the same rows, and a crash between a disk write and a row insert: the code has no lock and no recovery, so all run properties are for one request at a time.
- Edits through the admin site (roles, e-mails, approval rows), which bypass the services.
- Django forms, templates, middleware, rate limits, session cycling at login, and cascades not named above.
- `store_from_path` (`apps/attachments/storage.py:92-121`): no caller in the repository, and the same loop as `hash_and_store`.
- `payload_hash`, and JSON canonicalisation before hashing: the payload itself is kept and proved unchanged.
- The command `register_superadmin_passkey` (`apps/webauthn_auth/management/commands/register_superadmin_passkey.py:71-125`), with which an operator of the host creates or elevates a superadmin without an approval: the claims on accounts are about requests.
- Pillow re-encoding, argon2, the WebAuthn verifiers and transports: parameters.
- The CVSS 4.0 calculator: a finite table lookup that fixes two equivalence classes.
- Floating point in the CVSS 3.1 calculator: exact reals are used, so a product that JavaScript rounds across a multiple of 0.00001 is not captured.
- The database width of `order` columns: orders are unbounded, so an overflow after very many appends is not captured.
- E-mail lower-casing outside ASCII, and database collation of titles (any order of ties is allowed instead).
- Texts of failed handlers and refused calls: only that they fail, and what changes, is modelled.
- A vector segment keyed `__proto__`, which JavaScript does not store as an own property, and a missing metrics object passed to `isComplete`.
- Who may download or view a finding that is not approved (`apps/findings/models.py:293-305`): a read with no effect on the stored rows.
- Finding notes, review notes and points of contact: append-only or plain rows.
- `Approvals.TwoPersonRule`: the code also declares an action that revokes a user, but registers no handler for it, so such approvals end as failed.
- `ReviewEffects.CollaborateIff`: the view also asks that a user to be added exists and is active; accounts are not part of that state.
- `AuditLog.EntriesAppend`: actor e-mail, address and user agent of an entry are not modelled; the actor's roles at that time are kept in the model as history so that separation of duty can be stated.
- `AffectedHosts.VendorIsolation`: vendors are never deleted in the model, and hosts are edited only through findings.
- `Ceremonies.OneTokenOneCredential`: credentials or tokens deleted by an administrator are outside the run.
