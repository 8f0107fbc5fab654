# yatijapp-server data layer, modelled in Dafny

yatijapp is a task tracker. Work is organised as targets, which hold actions, which hold
sessions; a legacy activities table has the same shape as actions. Every item is guarded by
rows of an access-control list. Each row gives a user a role (owner, editor or viewer) on one
resource, and a `roles` table ranks the roles. Creation is metered by a daily quota per user
and resource, and runs inside a database transaction that is retried on transient failures.
The server also keeps users, authentication tokens and per-user list preferences.

This project models that data layer:

- The validators of every entity.
- The INSERT / SELECT / UPDATE / DELETE statements with their permission checks.
- The list queries: filter, order, page, and the role and count columns.
- The transaction helpers and the quota-checked creation.
- The bilingual tokenizer that feeds full-text search.
- The JSON date type.
- The query-string readers of the API handlers.

Modules follow the source packages:

| module | models |
|---|---|
| `Errors` | the error sentinels and driver errors |
| `Validator` | the validator package |
| `Status` | the status values and safelists |
| `Tokenizer` | the tokenizer package |
| `Decimal`, `Text` | digit strings; UTF-8 byte length |
| `InputDates` | `InputDate` |
| `Store` | the tables, the ACL predicate, the lateral role lookup and the `Database` object |
| `Listing` | ordering and paging |
| `Targets` | `TargetModel` |
| `Tasks` | `ActionModel` and `ActivityModel`, which share one shape, over a `TaskTable` argument |
| `Sessions` | `SessionModel` |
| `DailyQuotas` | `DailyQuotaModel` |
| `Models` | `WithTx`, `WithTxRetry`, `withQuotaTx`, `Create*` |
| `Tokens`, `Users`, `Preferences` | their models |
| `Helpers` | `readString`, `readInt` |

How the tables are held:

- The tables a transaction can touch are fields of one `Store.Database` object.
- `Tables` is a snapshot of them.
- Each statement is a pure `…Spec` function on a snapshot, returning the new tables and the error.
- The method that runs the statement changes the database exactly as its spec says, and writes back into the Go struct what the source writes back.
- The tokens, users and preferences tables are objects of their own, since no transaction touches them.

What becomes a parameter:

- Everything the database or the runtime decides on its own: generated uuids, serial ids, the clock, BEGIN/COMMIT failures, statement faults.
- Opaque library functions: sha256, the email regex, NFKC, the Unicode Cf table, the Han character class, jieba's cutter, `ts_rank` and `@@`, encoding/json.

Two behaviours of the source are modelled as written, even though the messages disagree with the checks:

- `ValidateUser` limits the name to 30 runes but reports "must not be more than 40 bytes long".
- `ValidateTarget` accepts exactly the four stored statuses, but its message also lists 'complete' and 'archived'.

## Model

| member | source | states |
|---|---|---|
| Validator.Checked | internal/validator/validator.go:30-41 | One check: a failed check adds its key, and no existing message ever changes |
| Validator.ApplyRulesSnoc | internal/validator/validator.go:37-41 | Running one more check after a sequence is the same as checking the sequence's result |
| Validator.ApplyRulesPrefix | internal/validator/validator.go:37-41 | The errors after k+1 checks are the errors after k checks, checked once more |
| Validator.ApplyRulesAppend | internal/validator/validator.go:37-41 | Running two sequences of checks one after the other composes their effects |
| Validator.FirstMessageSnoc | internal/validator/validator.go:30-34 | A later check never changes which message is first for a key |
| Validator.FirstMessageLast | internal/validator/validator.go:30-34 | A failing check on a key nothing failed for before is that key's first message |
| Validator.ApplyRulesEntry | internal/validator/validator.go:30-41 | After any checks, a key has a message iff it had one or some check for it failed; an old message is kept; otherwise the message is that of the first failing check (first error wins) |
| Validator.ApplyRulesValid | internal/validator/validator.go:25-27 | Starting from an empty map, the validator stays valid iff every check passes |
| Validator.Validator.New | internal/validator/validator.go:20-22 | A new validator has no errors and is valid |
| Validator.Validator.Valid | internal/validator/validator.go:25-27 | Valid iff the error map is empty |
| Validator.Validator.AddError | internal/validator/validator.go:30-34 | The key is present afterwards; no existing message is overwritten; a new key gets the message |
| Validator.Validator.Check | internal/validator/validator.go:37-41 | A failed check records its message as AddError does; a passing check changes nothing |
| Validator.Validator.CheckAll | internal/validator/validator.go:37-41 | A run of Check calls in order leaves the error map ApplyRules describes |
| Validator.PermittedValue | internal/validator/validator.go:44-46 | True iff the value occurs at some index of the permitted list |
| Validator.DistinctCardinality | internal/validator/validator.go:54-62 | The set of a sequence's elements is never larger than the sequence, and is as large iff there are no repeats |
| Validator.Unique | internal/validator/validator.go:54-62 | The set-size comparison returns true iff the values are pairwise distinct |
| Validator.ValidUnicodeChars | internal/validator/validator.go:67-75 | True iff no rune is a control (Cc) or format (Cf) character |
| Status.SafelistMembers | internal/data/status.go:5-18 | The safelist admits exactly queued, in progress, completed and canceled |
| Status.FilterSafelistExtends | internal/data/status.go:20-26 | The filter safelist admits what the safelist admits, plus the "any" value |
| Status.AnyNotStorable | internal/data/status.go:10 | The "any" filter value is "" and is not a storable status |
| Status.StatusesDistinct | internal/data/status.go:5-26 | The five values are distinct; misspellings such as "complete" fail the safelist |
| Text.Utf8Width | internal/data/targets.go:35 | A rune takes 1-4 UTF-8 bytes, and exactly one iff it is ASCII |
| Text.Utf8Len | internal/data/targets.go:35 | Go's `len` of a string lies between its rune count and four times it |
| Text.Utf8LenAscii | internal/data/tokens.go:54 | The byte length equals the rune count iff the text is ASCII |
| Decimal.ValueDigits | cmd/api/helpers.go:139 | Reading back the shortest text gives the number |
| Decimal.ValueFixedDigits | internal/data/time.go:38 | Reading back a fixed-width text gives the number when it fits |
| Decimal.FixedDigitsValue | internal/data/time.go:38 | A digit string's value fits its width and formats back to the same string |
| Decimal.PadFits | internal/data/time.go:57 | Padding a number that fits gives exactly the width and reads back as the number |
| Tokenizer.RunLen | internal/tokenizer/tokenizer.go:16-17 | The longest prefix in the class: every character in it is in the class, and the next one is not |
| Tokenizer.New | internal/tokenizer/tokenizer.go:20-31 | The Chinese string is the segmenter's words of all Han runes glued together, joined by spaces. The English string is well formed (alphanumerics with single inner spaces), empty iff the input has no alphanumeric, keeps exactly the input's alphanumerics in order, and splits into the same runs as the input |
| Tokenizer.FilterAppend | internal/tokenizer/tokenizer.go:21-24 | Filtering distributes over concatenation |
| Tokenizer.FilterAll | internal/tokenizer/tokenizer.go:21-24 | Filtering text that is all in the class keeps it whole |
| Tokenizer.FilterNone | internal/tokenizer/tokenizer.go:21-24 | Filtering text with nothing in the class leaves nothing |
| Tokenizer.ConcatRuns | internal/tokenizer/tokenizer.go:21-24 | FindAllString's runs glued together are exactly the characters of the class, in order |
| Tokenizer.RunsAreWords | internal/tokenizer/tokenizer.go:21-22 | Every run is a non-empty word of the class |
| Tokenizer.RunsEmpty | internal/tokenizer/tokenizer.go:22 | There are no runs iff no character is in the class |
| Tokenizer.RunsOfJoin | internal/tokenizer/tokenizer.go:29 | Joining words with a separator outside the class and splitting again gives back the words |
| Tokenizer.RunOfWord | internal/tokenizer/tokenizer.go:29 | A word followed by a non-class character is one run |
| Tokenizer.FilterJoin | internal/tokenizer/tokenizer.go:29 | The joined English string keeps exactly the words' characters |
| Tokenizer.JoinEnds | internal/tokenizer/tokenizer.go:29 | A join of words starts with the first word's first character and ends with an alphanumeric |
| Tokenizer.JoinSpaceSeparated | internal/tokenizer/tokenizer.go:29 | Joining alphanumeric words with single spaces gives a well-formed English string |
| InputDates.Parse | internal/data/time.go:37-46 | A text that parses with the "2006-01-02" layout names a real calendar date |
| InputDates.Unquote | internal/data/time.go:27-30 | Unquoting succeeds only on text with its two delimiters |
| InputDates.UnmarshalJSON | internal/data/time.go:21-49 | null and "" give an absent date; a quoted calendar date gives that date; anything else is ErrInvalidTimeFormat and leaves the receiver unchanged |
| InputDates.MarshalJSON | internal/data/time.go:51-59 | An absent date marshals to empty output; a present one to its quoted YYYY-MM-DD text |
| InputDates.MarshalJSONNull | internal/data/time.go:51-59 | Corrected marshalling: an absent date is JSON null; a present one is as before |
| InputDates.String | internal/data/time.go:65-72 | "" exactly for an absent date |
| InputDates.StringParses | internal/data/time.go:65-72 | The text of a present calendar date parses back to the date |
| InputDates.GetTime | internal/data/time.go:61-63 | The stored time; the zero time for the absent value |
| InputDates.UnquoteQuote | internal/data/time.go:27-58 | Quote and Unquote are inverse on plain text |
| InputDates.FormatParses | internal/data/time.go:38-57 | A formatted calendar date is ten characters and parses back to the date |
| InputDates.ParseFormats | internal/data/time.go:38-57 | A text that parses is exactly the formatted date, so the layout admits no other spelling |
| InputDates.DecodeAbsent | internal/data/time.go:22-35 | JSON null and "" both decode to the absent date |
| InputDates.DecodeNotString | internal/data/time.go:27-30 | Input that is neither null nor a string literal is a format error |
| InputDates.DecodeDate | internal/data/time.go:32-48 | A non-empty quoted text decodes iff it is the text of a calendar date, and to that date; otherwise ErrInvalidTimeFormat |
| InputDates.RoundTrip | internal/data/time.go:21-59 | Unmarshalling the marshalled form of a present date gives it back |
| InputDates.MarshalAbsentRejected | internal/data/time.go:51-55 | As written: the marshalled absent date is rejected by UnmarshalJSON |
| InputDates.RoundTripNull | internal/data/time.go:21-59 | Corrected: every value the decoder produces survives marshal then unmarshal |
| InputDates.DecodeRange | internal/data/time.go:21-49 | The decoder only produces the absent value or a present calendar date |
| Listing.InsertSorted | internal/data/targets.go:320 | Inserting into an ordered listing keeps it ordered and adds exactly one element |
| Listing.Sort | internal/data/targets.go:320 | The ORDER BY result is ordered by (column dir, rank DESC, tie DESC) and is a permutation of its input |
| Listing.Page | internal/data/targets.go:321 | LIMIT/OFFSET: the page has min(limit, rows left) rows, and they are the rows from the offset on |
| Listing.Elements | internal/data/targets.go:366-394 | A scan lists every element of a set exactly once |
| Listing.SortEnumerates | internal/data/targets.go:320 | Ordering a listing of a set keeps it a listing of that set |
| Listing.MultisetDistinct | internal/data/targets.go:320 | In a listing without repeats every element occurs at most once |
| Store.SetWeight | internal/data/targets.go:78-81 | setweight relabels every lexeme and keeps the rest of the vector |
| Store.Tables.WithTasks | internal/data/actions.go:62-133 | Writing one task table changes that table and its search table, and nothing else |
| Store.GrantsWeaken | internal/data/targets.go:130 | A grant under a cutoff is a grant under every cutoff ranked at or below it |
| Store.RoleHierarchy | internal/data/targets.go:176-290 | With owner ≤ editor ≤ viewer, an owner may edit and view and an editor may view |
| Store.OwnAclGrants | internal/data/targets.go:67-68 | An ACL row with a known role grants under that role's own cutoff |
| Store.GrantsFrame | internal/data/targets.go:124-131 | A permission depends only on the roles table and the ACL rows of that user and resource |
| Store.LowestRole | internal/data/actions.go:452-463 | The lateral lookup returns nothing iff the user has no known-role ACL row on the resources; otherwise it returns a role of least rank among those rows |
| Store.LowestRoleGrants | internal/data/actions.go:452-463 | The reported role ranks at or below any cutoff a grant on one of the resources passes |
| Store.Database.constructor | internal/data/models.go:91-103 | The model's stand-in for the database handle NewModels shares among the models: the given roles table and every other table empty |
| Store.Database.Restore | internal/data/models.go:34-37 | A rollback puts every table back as the snapshot has it |
| Store.Database.SetTasks | internal/data/actions.go:62-133 | Writing one task table changes only it and its search table |
| Targets.Target.constructor | internal/data/targets.go:16-31 | The struct carries the given uuid, fields and version |
| Targets.ValidateFields | internal/data/targets.go:33-49 | The error map is the given one after the five target checks, in source order |
| Targets.ValidateTarget | internal/data/targets.go:33-49 | ValidateTarget records exactly what the target checks record |
| Targets.ValidTarget | internal/data/targets.go:33-49 | A target is valid iff its title is present and at most 200 bytes, its status is one of the four stored statuses, and any due date is later than a day before now |
| Targets.MissingStatusMessage | internal/data/targets.go:36-41 | A missing status is reported as "must be provided", not as outside the safelist |
| Targets.FirstStatusMessage | internal/data/targets.go:36-41 | When the first status check fails, its message is the first one for "status" |
| Targets.Insert | internal/data/targets.go:57-110 | Insert fails iff the uuid is taken, and then changes nothing. Otherwise it stores the row at version 1, makes the caller owner, indexes the text and writes the uuid and version back |
| Targets.Update | internal/data/targets.go:162-230 | Update succeeds iff the row exists at the supplied version and the user is editor or better; then the version goes up by one. Otherwise ErrEditConflict and nothing changes |
| Targets.Delete | internal/data/targets.go:232-264 | Delete succeeds iff the row exists and the user is an owner; otherwise ErrRecordNotFound and nothing changes |
| Targets.Get | internal/data/targets.go:112-160 | Found iff the target exists and the user holds an ACL row on it whose role ranks at or above minRole; then it is the stored row, otherwise ErrRecordNotFound |
| Targets.RoleRows | internal/data/targets.go:324-346 | The final ACL join yields one row per role code |
| Targets.ScanRoles | internal/data/targets.go:366-394 | Scanning a target's rows appends one row per role code and sets the total to the window count |
| Targets.GetAllForUser | internal/data/targets.go:266-403 | Rows are the page of the ordered listing of exactly the visible, matching targets, each repeated per role code the user holds. Total is the count of all of them, or 0 when the page is empty |
| Targets.ScanPage | internal/data/targets.go:366-394 | The scan returns each page target's role rows in order; the total is 0 iff no row was read |
| Targets.InsertThenGet | internal/data/targets.go:57-160 | The creator reads a new target back at any cutoff owner ranks within |
| Targets.InsertThenListed | internal/data/targets.go:272-291 | The creator sees a new target in an unfiltered list |
| Targets.UpdateThenGet | internal/data/targets.go:112-230 | After an update, an editor reads the new fields at the next version |
| Targets.StaleUpdateConflicts | internal/data/targets.go:162-230 | Replaying an update with its old version is an edit conflict and changes nothing |
| Targets.DeleteThenGet | internal/data/targets.go:112-264 | A deleted target is not found by anyone |
| Targets.DirectGrantsOnly | internal/data/targets.go:112-264 | ACL rows on actions, activities or sessions neither reveal a target nor let anyone edit or delete it |
| Targets.OtherTargetsUnchanged | internal/data/targets.go:162-264 | Update and Delete leave every other target row as it was |
| Tasks.Task.constructor | internal/data/actions.go:17-34 | The struct carries the given uuid, fields and version |
| Tasks.ValidateTask | internal/data/actions.go:36-53 | ValidateAction/ValidateActivity record the target-uuid check followed by the target checks |
| Tasks.ValidTask | internal/data/activities.go:35-52 | A task is valid iff it names a target and its fields pass the target checks |
| Tasks.Insert | internal/data/activities.go:60-132 | Insert succeeds iff the target exists, the user is editor or better on it and the uuid is free. Then it stores the row, the owner ACL row and the search row, and writes the uuid and version back; otherwise nothing changes |
| Tasks.InsertAction | internal/data/actions.go:62-133 | ActionModel.Insert is Insert with GenFTS of the action's own text |
| Tasks.Update | internal/data/actions.go:203-316 | Update matches iff the version is current and the permission holds (editor to keep the target, owner of both targets to move); then the version goes up by one. Otherwise ErrEditConflict and nothing changes |
| Tasks.Delete | internal/data/activities.go:317-365 | Delete succeeds iff the task exists and the user is owner of it or of its target |
| Tasks.Get | internal/data/actions.go:135-201 | Found iff the action or activity exists, its target exists (the join), and the user holds a grant at or above minRole on the task or on its target. It is then the stored row with its target's title; otherwise ErrRecordNotFound |
| Tasks.GetAll | internal/data/actions.go:368-526 | Rows are the page of the ordered listing of exactly the visible, matching tasks, one per task, each with the user's lowest-rank role on the task or its target. Total is the count of all of them, or 0 on an empty page |
| Tasks.ScanPage | internal/data/activities.go:486-516 | The scan returns one summary per page task with its least-rank role |
| Tasks.ReachedByGrant | internal/data/actions.go:452-463 | A visible task has some known-role ACL row that the lateral join can choose |
| Tasks.InsertThenGet | internal/data/actions.go:62-201 | The creator reads a new task back with its target's title |
| Tasks.UpdateThenGet | internal/data/activities.go:202-315 | After an update that keeps or moves the task to an existing target, the writer can still edit it |
| Tasks.StaleUpdateConflicts | internal/data/actions.go:304-313 | Replaying an update with its old version conflicts and changes nothing |
| Tasks.MoveNeedsBothOwners | internal/data/actions.go:219-266 | Moving a task between targets succeeds iff the version is current and the user owns both targets |
| Tasks.DeleteThenGet | internal/data/activities.go:134-365 | A deleted task is not found by anyone |
| Tasks.TargetGrantInherited | internal/data/actions.go:150-348 | A grant on the target opens every task under it, and ownership of the target lets the user delete them |
| Tasks.OrphanHidden | internal/data/activities.go:134-393 | A task whose target is gone can be neither read nor listed |
| Tasks.ListedThenGet | internal/data/actions.go:375-395 | Everything the list shows opens with Get at viewer level |
| Tasks.ListedRoleAtLeastViewer | internal/data/activities.go:451-462 | The role a list row reports ranks at or above viewer |
| Tasks.InsertSeparate | internal/data/actions.go:62-133 | Insert leaves the other task table, the targets and the sessions alone |
| Tasks.UpdateSeparate | internal/data/actions.go:203-316 | Update leaves the other task table, the targets, the sessions and the ACL alone |
| Tasks.DeleteSeparate | internal/data/actions.go:318-366 | Delete leaves the other task table, the targets, the sessions and the ACL alone |
| Sessions.Session.constructor | internal/data/sessions.go:16-30 | The struct carries the given uuid, fields and version |
| Sessions.ValidateSession | internal/data/sessions.go:32-37 | Records the action-uuid check, then the ends-after-starts check when an end is given |
| Sessions.ValidSession | internal/data/sessions.go:32-37 | A session is valid iff it names an action and any end lies after its start |
| Sessions.Insert | internal/data/sessions.go:44-101 | Insert succeeds iff the action exists, the user reaches it as editor and the uuid is free. Then it stores the row started now, the owner ACL row and the search row, and writes uuid, start and version back; otherwise nothing changes |
| Sessions.Update | internal/data/sessions.go:166-276 | Update matches iff the version is current and the permission holds; then the version goes up by one. Otherwise ErrEditConflict and nothing changes |
| Sessions.Delete | internal/data/sessions.go:278-317 | Delete removes the row exactly when the user owns the session or reaches it as owner through its action |
| Sessions.Get | internal/data/sessions.go:103-164 | Found iff the session, its action and that action's target all exist, and the user holds a grant at or above minRole on the session, the action or the target. It is then the stored row with the action's title and the target's uuid and title; otherwise ErrRecordNotFound |
| Sessions.GetAll | internal/data/sessions.go:319-464 | Rows are the page of the ordered listing of exactly the visible, matching sessions, each with the lowest-rank role over session, action and target. Total is the count, or 0 on an empty page |
| Sessions.ScanPage | internal/data/sessions.go:428-455 | The scan returns one summary per page session with its least-rank role |
| Sessions.ReachedByGrant | internal/data/sessions.go:393-405 | A visible session has some known-role ACL row that the lateral join can choose |
| Sessions.InsertThenGet | internal/data/sessions.go:44-164 | The creator reads the new session back, started at the insert time |
| Sessions.UpdateThenGet | internal/data/sessions.go:103-276 | After an update that keeps the session attached, the writer can still edit it |
| Sessions.StaleUpdateConflicts | internal/data/sessions.go:166-276 | Replaying an update with its old version conflicts and changes nothing |
| Sessions.MoveNeedsActionOwners | internal/data/sessions.go:215-235 | Moving a session succeeds iff the version is current and the user owns both actions |
| Sessions.DeleteThenGet | internal/data/sessions.go:103-317 | A deleted session is not found by anyone |
| Sessions.DanglingSession | internal/data/sessions.go:278-317 | A session whose action is gone can be deleted by nobody, not even its owner, but can still be edited in place by its owner |
| Sessions.GrantInherited | internal/data/sessions.go:103-164 | A grant on the action or on its target opens every attached session under it |
| Sessions.ListedThenGet | internal/data/sessions.go:330-346 | Everything the list shows opens with Get at viewer level |
| Sessions.ListedRoleAtLeastViewer | internal/data/sessions.go:393-405 | The role a list row reports ranks at or above viewer |
| DailyQuotas.DailyQuota.constructor | internal/data/dailyQuota.go:11-16 | A new quota struct has the given day, resource and limit and no usage read yet |
| DailyQuotas.Insert | internal/data/dailyQuota.go:23-38 | Creates the counter at 0 if it is missing, or leaves an existing one alone |
| DailyQuotas.UpdateLock | internal/data/dailyQuota.go:40-53 | Reads the counter into the struct iff it exists; otherwise sql.ErrNoRows and the struct is unchanged |
| DailyQuotas.Increment | internal/data/dailyQuota.go:55-68 | Adds the increment to an existing counter; a missing counter stays missing |
| DailyQuotas.InsertIdempotent | internal/data/dailyQuota.go:23-38 | Creating a counter twice is creating it once; it never resets a counter in use |
| DailyQuotas.IncrementAdds | internal/data/dailyQuota.go:55-68 | Increments add up and touch no other counter |
| Models.CreateEffect | internal/data/models.go:105-136 | A creation never touches the quota table; on success it adds exactly the new uuid to its table, and on error it changes nothing |
| Models.Create | internal/data/models.go:109-113 | The creation closure runs the entity's Insert |
| Models.QuotaBody | internal/data/models.go:144-169 | The body creates the counter, locks and reads it, refuses at or over the limit, inserts, then increments |
| Models.WithTx | internal/data/models.go:29-43 | As written: the database ends as the body left it only if the commit succeeds, but a failed commit is reported as success |
| Models.WithTxChecked | internal/data/models.go:29-43 | Corrected WithTx: any failure, the commit's included, rolls back and is returned |
| Models.WithTxRetry | internal/data/models.go:45-77 | Runs WithTx as written up to maxRetries + 1 times. It stops at success, including a success WithTx reports after a failed commit, or at an error that is neither a PostgreSQL error nor a deadline; otherwise it ends with the retries-exhausted error |
| Models.WithQuotaTx | internal/data/models.go:138-176 | The quota body under the as-written WithTxRetry with three retries |
| Models.CreateTarget | internal/data/models.go:105-114 | CreateTarget is withQuotaTx around the target insert, with WithTx as written |
| Models.CreateAction | internal/data/models.go:116-125 | CreateAction is withQuotaTx around the action insert, with WithTx as written |
| Models.CreateSession | internal/data/models.go:127-136 | CreateSession is withQuotaTx around the session insert, with WithTx as written |
| Models.BodyEffect | internal/data/models.go:144-169 | A successful body ran under the limit, inserted exactly one new row and raised the counter by one |
| Models.TxAtomic | internal/data/models.go:29-43 | For either WithTx, a reported error leaves every table unchanged. A reported success follows a successful body and leaves its effect when the commit succeeds. When the commit fails, only WithTx as written reports success, and then nothing changed |
| Models.CommitErrorLost | internal/data/models.go:34-42 | As written, a failed commit after a successful body reports success with the row absent |
| Models.CommitErrorLostExample | internal/data/models.go:34-42 | A concrete first target of the day whose commit misses the context deadline is reported created but is not stored; corrected, the deadline error is returned |
| Models.TxSuccessCommitted | internal/data/models.go:29-43 | Corrected: success means the row was inserted and counted |
| Models.RetryFailureUnchanged | internal/data/models.go:51-76 | A failed WithTxRetry leaves every table as it was, over WithTx as written and corrected alike |
| Models.RetrySuccess | internal/data/models.go:51-74 | A successful WithTxRetry either inserted exactly one row under the limit and counted it, or (only over WithTx as written) changed nothing at all. Over the corrected WithTx a success is always committed |
| Models.RetryErrors | internal/data/models.go:51-76 | WithTxRetry returns nil, an error it does not retry, or the exhaustion error, over either WithTx |
| Models.RetryAttempts | internal/data/models.go:51 | Attempts run from 0 to maxRetries: at most maxRetries + 1 of them, over either WithTx |
| Models.AllRetryableExhausts | internal/data/models.go:56-76 | If every attempt of the WithTx in use fails retryably, the result is "failed after N retries" with nothing changed. As written, a failed commit is not such a failure |
| Models.QuotaRespected | internal/data/models.go:156-158 | The counter never passes the limit, over WithTx as written and corrected alike |
| Models.DailyLimit | internal/data/models.go:138-176 | Over any sequence of creations, the counter counts exactly the creations that took effect and stays within the limit. Those are at most the reported successes. Over the corrected WithTx they are all of them |
| Models.ReportedOverLimit | internal/data/models.go:138-176 | As written, with a limit of one, two creations whose commits miss the deadline are both reported created while nothing is stored and the counter stays at zero |
| Tokens.ValidateTokenPlaintext | internal/data/tokens.go:52-55 | Records "must be provided" and then the 26-byte check, first error winning |
| Tokens.ValidTokenPlaintext | internal/data/tokens.go:52-55 | A plaintext is valid iff it is exactly 26 bytes long |
| Tokens.EmptyTokenMessage | internal/data/tokens.go:53 | An empty plaintext is reported missing, not as having the wrong length |
| Tokens.GeneratedPlaintextValid | internal/data/tokens.go:32-50 | What rand.Text produces (26 Base32 characters) passes validation |
| Tokens.TokenModel.constructor | internal/data/tokens.go:57-59 | An empty tokens table |
| Tokens.TokenModel.New | internal/data/tokens.go:62-72 | New builds the token from its parameters (hash of the plaintext, expiry now + ttl) and stores its row |
| Tokens.TokenModel.Insert | internal/data/tokens.go:106-117 | Insert adds the token's row without its plaintext |
| Tokens.TokenModel.Get | internal/data/tokens.go:74-104 | Found iff a row with the plaintext's hash and the scope has not expired; the row comes back without plaintext. Otherwise ErrRecordNotFound |
| Tokens.TokenModel.Delete | internal/data/tokens.go:119-132 | Removes exactly the rows with the hash and scope |
| Tokens.TokenModel.DeleteAllForUser | internal/data/tokens.go:135-145 | Removes exactly the user's rows of the scope |
| Tokens.TokenModel.DeleteAllForUserSession | internal/data/tokens.go:148-158 | Removes exactly the rows of the user's session, every scope |
| Tokens.NewThenGet | internal/data/tokens.go:62-104 | A new token is found until its time to live runs out, and not after |
| Tokens.DeleteThenGet | internal/data/tokens.go:74-132 | After Delete, nothing with that hash and scope is found; every other row stays |
| Tokens.DeleteAllForUserScope | internal/data/tokens.go:135-145 | Only the user's tokens of that scope go |
| Tokens.DeleteAllForUserSessionAllScopes | internal/data/tokens.go:148-158 | No token of the session is found afterwards, whatever its scope; other sessions keep theirs |
| Users.User.constructor | internal/data/users.go:28-37 | The struct carries the given fields |
| Users.AnonymousByIdentity | internal/data/users.go:26-41 | IsAnonymous compares identity: a field-for-field copy of the anonymous user is not anonymous |
| Users.ValidateEmail | internal/data/users.go:93-96 | Records "must be provided" and then the pattern check for "email" |
| Users.ValidatePasswordPlaintext | internal/data/users.go:98-114 | Records the four password checks in source order: non-empty and printable (on the NFKC form), then 8..72 long |
| Users.ValidPassword | internal/data/users.go:98-114 | A password is valid iff its NFKC form is non-empty and has no Cc/Cf rune, and it is 8 to 72 long |
| Users.ValidateUser | internal/data/users.go:116-128 | Records the name, email and (when a plaintext is given) password checks. It panics exactly when the hash is nil |
| Users.ValidUser | internal/data/users.go:116-128 | A user is valid iff the name is present and at most 30 runes, the email passes, and any plaintext password passes |
| Users.UserModel.constructor | internal/data/users.go:130-132 | An empty users table |
| Users.UserModel.Insert | internal/data/users.go:134-157 | A taken email is ErrDuplicateEmail with nothing stored. On success the uuid and version 1 are written back |
| Users.UserModel.GetByEmail | internal/data/users.go:159-190 | Found iff some row has the email, and with unique emails it is that row; otherwise ErrRecordNotFound |
| Users.UserModel.Update | internal/data/users.go:192-224 | A missing or stale version is ErrEditConflict, then a taken email is ErrDuplicateEmail; on success the version goes up by one and is written back |
| Users.UserModel.GetForToken | internal/data/users.go:226-268 | Found iff a live token of the scope and plaintext exists; the result is its user's row |
| Users.WritesKeepEmailsUnique | internal/data/users.go:134-224 | Insert and Update keep emails unique, whatever they return |
| Users.UpdateThenGet | internal/data/users.go:192-224 | Update succeeds iff the version is current and no other user has the email, and then stores the row at the next version |
| Users.StaleUpdateConflicts | internal/data/users.go:210-219 | A stale version is an edit conflict that changes nothing, even when the email is also taken |
| Users.InsertThenGetByEmail | internal/data/users.go:134-190 | A successful Insert makes the user findable by email |
| Preferences.CheckPreferences | internal/data/preferences.go:31-85 | The thirteen checks in source order, under the given session-status key |
| Preferences.ValidatePreferences | internal/data/preferences.go:31-85 | ValidatePreferences as written records the source's checks |
| Preferences.ValidatePreferencesIntended | internal/data/preferences.go:80-84 | Corrected: the session status values are reported under their own key |
| Preferences.ValidPreferences | internal/data/preferences.go:31-85 | Preferences are valid iff the version is current, every sort column and order is in its safelist, every status filter is present and its values are permitted |
| Preferences.SessionStatusKeyOnce | internal/data/preferences.go:67-79 | With a session status given, no earlier check reports under its key |
| Preferences.SessionStatusMisfiled | internal/data/preferences.go:80-84 | As written, invalid session status values land under "filters.action.status" and nothing is under the session's key |
| Preferences.SessionStatusReported | internal/data/preferences.go:80-84 | Corrected: they are reported under "filters.session.status" |
| Preferences.UserPreferencesModel.constructor | internal/data/preferences.go:92-94 | An empty preferences table |
| Preferences.UserPreferencesModel.Put | internal/data/preferences.go:127-145 | Upsert of the document; text that is not JSON is error 22P02 and changes nothing |
| Preferences.UserPreferencesModel.Get | internal/data/preferences.go:97-125 | No row is ErrRecordNotFound; otherwise the decoded document |
| Preferences.PutThenGet | internal/data/preferences.go:97-145 | After Put, Get returns the new document, whether or not there was one |
| Preferences.PutOverwrites | internal/data/preferences.go:127-145 | Putting twice keeps only the second document |
| Helpers.Get | cmd/api/helpers.go:116 | The first value for the key, or "" when it has none |
| Helpers.Atoi | cmd/api/helpers.go:139 | strconv.Atoi only ever yields an int64 |
| Helpers.AtoiItoa | cmd/api/helpers.go:139 | Atoi reads back every int Itoa writes |
| Helpers.AtoiLenient | cmd/api/helpers.go:139 | Atoi also accepts a plus sign, leading zeros and "-0" |
| Helpers.AtoiRejectsNonDigit | cmd/api/helpers.go:139-143 | Any character that is neither a digit nor a leading sign makes Atoi fail |
| Helpers.ReadString | cmd/api/helpers.go:115-122 | The first query value when non-empty, otherwise the default; any other result is the query value |
| Helpers.ReadInt | cmd/api/helpers.go:128-146 | Missing or empty value: the default and no error. Text Atoi rejects: the default and "must be an integer" under the key. Otherwise the parsed value |

## Left out

- Full-text search internals: `to_tsvector`, `plainto_tsquery`, `@@` and `ts_rank` are PostgreSQL functions. Vectors are kept as the text they were built from, and matching and ranking are parameters.
- Opaque library functions are parameters: the `\p{Han}` class, jieba's `CutForSearch`, regexp matching of emails, NFKC normalisation, the Unicode Cf table, SHA-256, `rand.Text` and encoding/json.
- Password.Set and Password.Matches (bcrypt over an HMAC with a pepper) are not modelled: cryptography.
- The list queries' sort-column safelists, `Filters`, `calculateMetadata` and `validator.PermittedValues` over slices come from files that are not part of this model; the column choice and the permitted-values test are parameters.
- Targets.Rules and Tasks.Rules take `time.Now().AddDate(0, 0, -1)` as now minus 86400 seconds. AddDate works on the calendar in the server's time zone, so across a daylight-saving change the day is 23 or 25 hours. A due date within that hour is judged differently from the source.
- The standalone statements return only their sentinel errors. These are the Get, Update, Delete and list methods of targets, actions, activities and sessions, and the token, user and preferences statements. Their `default: return err` paths are not modelled: driver and connection errors, and the 3-second context timeouts. So each "succeeds iff" contract holds only when the statement reaches the database and completes.
- Concurrency: `FOR UPDATE` row locks, serialization failures between concurrent transactions and context timeouts appear only as faults an attempt may meet. Nothing models interleaving.
- WithTxRetry's back-off sleep and every log call have no observable effect on the data and are left out.
- The `created_at`/`updated_at` columns, foreign keys and `ON DELETE CASCADE` are schema behaviour: a delete removes only its own row.
- Version counters are unbounded integers; the int32 column's overflow is not modelled.
- CreateTarget, CreateAction and CreateSession call `Insert(ctx, x, user)`, but TargetModel.Insert and SessionModel.Insert take `(x, fts, user)` (internal/data/models.go:112,134 against internal/data/targets.go:57 and internal/data/sessions.go:44). The model gives each creation the FTS value the entity's own Insert needs.
- After a rollback the Go struct keeps the uuid and version its Insert wrote into it. The model's creation methods write back the same way and do not undo it.
- readJSON, writeJSON and readUUIDParam are HTTP plumbing, not modelled.
- Helpers.Atoi: accepts only ASCII signs and digits. The base prefixes and underscores of ParseInt with base 0 never apply to Atoi, so nothing is lost.
- InputDates.Unquote does not decode backslash escapes. Text containing a backslash is rejected, which Go would accept only when it spelled a date through escapes.
- Tokens.TokenModel.Insert: a collision on the token hash, the primary key, is not modelled; SHA-256 of 130 random bits is taken as collision-free.
- Users.UserModel.Insert: a uuid already taken is reported as a PostgreSQL unique violation, while the database would in practice never generate one.
- The tokens, users and preferences tables are objects of their own, outside the `Tables` snapshot, because no transaction touches them.

## Findings

| source | as written | input that shows it | evidently intended | confidence | as-written member | corrected member |
|---|---|---|---|---|---|---|
| internal/data/models.go:29-43 | The deferred function assigns Commit's error to the local `err` after `return err` has fixed the unnamed result, so a failed commit returns nil | A first target of the day whose body succeeds and whose commit fails because the 3-second context has expired (Commit returns the deadline error): the caller is told it was created, and the row is not there | A failed commit is returned (a named result), so WithTxRetry retries it | high, not executed | Models.CommitErrorLostExample | Models.TxSuccessCommitted |
| internal/data/preferences.go:80-84 | Invalid session status filter values are reported under the key "filters.action.status" | Preferences whose session filter has status ["bogus"] and whose other filters are valid | Report them under "filters.session.status", as the nil check for the same field does | high, not executed | Preferences.SessionStatusMisfiled | Preferences.SessionStatusReported |
| internal/data/time.go:51-55 | MarshalJSON writes an absent date as empty output, which is not JSON and which UnmarshalJSON rejects | An InputDate with Valid false | Write JSON `null`, which UnmarshalJSON maps back to the absent date | medium, not executed | InputDates.MarshalAbsentRejected | InputDates.RoundTripNull |
