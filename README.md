# golang-api ledger core in Dafny

This project models the logic at the centre of a personal-finance REST API
written in Go: the payment ledger and its transaction, the sequence-code
generator, the audit (activity) log, uptime checks, request validators,
response envelopes, the payment controller's helpers, notification settings
and the bearer-token middleware. It proves properties of that model.

Data lives in one `Database.Db` object:
- `accounts`: a map from id to payment account;
- `payments`: a sequence in table order;
- `activityLogs`: an append-only sequence;
- `generates`: a map from alias to counter row.

The repositories hold that object the way the Go structs hold a `*gorm.DB`.
A payment is stored inside a transaction, modelled as a snapshot of accounts
and payments that is put back on error or panic. The audit log, the counter
row and the auto-increment value are written through the non-transactional
handle, so they survive a rollback.

Money is `int64` in minor units. Wrap-around is written out with
`Common.Wrap64`, and Go's truncating `/` and `%` with `Responses.GoQuot` and
`Responses.GoRem`.

Some things are parameters of the methods that need them:
- the clock: `now`, plus `today` as a `060102` stamp;
- the random number behind the fallback code;
- the hash function;
- the HTTP probe outcome;
- the outcome of the govalidator rule checker: `ruleErrors`;
- whether a write fails, for the writes that carry a flag:
  - in the payment store, `Faults`: the counter save, the insert, the reload, the two balance writes and the audit writes;
  - in the repositories and controllers, the `fails`, `saveFails`, `storeFails` and `writeFails` parameters.

The other database calls are taken to succeed; "## Left out" lists them.

The activity-log repository reassigns its own GORM handle the first time
`FindAllPaginated` gets a search. From then on every call through that
repository value adds to one shared statement. The LIKE clauses of later
searches and Counts accumulate there. The LIMIT/OFFSET of the last page also
stays there, so a later Count runs with that window and answers 0 once the
offset is non-zero. The model keeps that statement as the fields `sticky`,
`conditions` and `window`.

## Model

| member | source | states |
|---|---|---|
| Common.Wrap64 | internal/repositories/payment_account.go:90 | an int64 operation equals the exact result when it fits and agrees with it modulo 2^64 otherwise |
| Common.NatToString | internal/service/auth_sevice.go:65 | `%d` of a non-negative number is a non-empty digit string with no leading zero unless the number is 0 |
| Common.IntToString | internal/service/uptime_monitor_service.go:100 | `%d` of any int starts with '-' exactly when the number is negative |
| Common.ParseNat | internal/middleware/auth.go:48-60 | the token id text reads as a number exactly when it is a non-empty string of digits |
| Common.ParseNatRoundTrip | internal/service/auth_sevice.go:65 | a rendered id reads back as the same id |
| Common.DigitsValueOfNatToString | internal/service/auth_sevice.go:65 | the value of the decimal rendering of n is n |
| Common.NatToStringInjective | internal/service/auth_sevice.go:65 | distinct ids render as distinct strings |
| Common.Pad4Facts | internal/repositories/generate_repository.go:54 | `%04d` is at least four characters, exactly four digits for 0..9999, carries a sign when negative, and reads back to its value |
| Common.Pad4Injective | internal/repositories/generate_repository.go:54 | distinct queue numbers give distinct `%04d` renderings |
| Common.IndexOf | internal/middleware/auth.go:37-46 | the first position of a character: None exactly when it is absent, otherwise a position that holds it |
| Common.ReplaceChar | pkg/utils/validator.go:32 | `strings.ReplaceAll` for one character: same length, each matching character replaced and the others kept |
| Dates.ParseYMD | internal/service/payment_service/generate_report_service.go:83-84 | `time.Parse("2006-01-02")` returns the date its year, month and day digits name; on text matching `^\d{4}-\d{2}-\d{2}$` it succeeds exactly when that date is real, and it fails on any other text |
| Dates.FormatYMD | internal/service/payment_service/generate_report_service.go:70-80 | a formatted date matches `^\d{4}-\d{2}-\d{2}$` |
| Dates.FormatYMDRoundTrip | internal/service/payment_service/generate_report_service.go:83-84 | a formatted date parses back to itself |
| Dates.FourDigitsRoundTrip | internal/service/payment_service/generate_report_service.go:83-84 | a four-digit text is the four-digit form of its value |
| Dates.ParseYMDRoundTrip | internal/service/payment_service/generate_report_service.go:83-84 | every accepted text is the formatting of the date it parses to |
| Dates.ParseYYMMDD | internal/repositories/generate_repository.go:39-47 | `time.Parse("060102")` returns the date its fields name, with years 69..99 in the 1900s and the rest in the 2000s; on well-shaped text it succeeds exactly when that date is real; the result lies in 1900..2099 |
| Dates.CenturyPivot | internal/repositories/generate_repository.go:39-47 | "690101" reads as 1 January 1969 and "680101" as 1 January 2068 |
| Dates.FormatYYMMDD | internal/repositories/generate_repository.go:44 | `Format("060102")` is six digits |
| Dates.StampRoundTrip | internal/repositories/generate_repository.go:39-47 | a stamp the generator wrote parses and formats back to itself |
| Generates.SeparatorStamp | internal/repositories/generate_repository.go:39-47 | the separator as compared is six digits: re-formatted when it parses, otherwise today |
| Generates.Emitted | internal/repositories/generate_repository.go:49-52 | on rollover the queue becomes 1 and the separator today; otherwise the row is untouched |
| Generates.Advanced | internal/repositories/generate_repository.go:63-66 | the committed row is the emitted row with its queue plus one |
| Generates.Affixed | internal/repositories/generate_repository.go:56-61 | the prefix and the suffix are added exactly when non-null and non-empty |
| Generates.GenerateRepository.FindByAlias | internal/repositories/generate_repository.go:20-27 | a row is found exactly when the alias has one, and it is that row |
| Generates.GenerateRepository.Update | internal/repositories/generate_repository.go:29-31 | the row replaces the stored row for its alias, or nothing changes when the save fails; the error is reported |
| Generates.GenerateRepository.GetCode | internal/repositories/generate_repository.go:33-69 | unknown alias: the fallback code and no write; otherwise the emitted row's code, stored advanced when committing and the save succeeds; a preview or a failed save leaves the row, as the save's error is dropped |
| Generates.FallbackShape | internal/repositories/generate_repository.go:35-37 | the fallback is "ER-" and five digits worth 10000..99999 |
| Generates.UnparseableSeparator | internal/repositories/generate_repository.go:43-52 | with an unparseable separator only queue 9999 rolls over |
| Generates.MonthlyReset | internal/repositories/generate_repository.go:49-52 | rollover happens exactly at queue 9999 or on a change of YYMM, so the reset is monthly |
| Generates.CodeLayout | internal/repositories/generate_repository.go:54 | queue 1..9998 without affixes: ten digits, YYMM + 4-digit queue + DD |
| Generates.ConsecutiveCodesDistinct | internal/repositories/generate_repository.go:49-66 | two committed calls in the same month below 9999 return different codes when the first call's save succeeds |
| Generates.AffixedPreservesCore | internal/repositories/generate_repository.go:56-61 | the same affixes keep distinct cores of equal length distinct |
| Paging.LimitOffset | internal/repositories/activity_log_repository.go:32 | at most `limit` rows, taken in order from the offset; empty past the end, full when enough rows remain |
| Paging.PageIsLimitOffset | internal/repositories/activity_log_repository.go:26-32 | a page is the limit/offset window at offset (page-1)*limit |
| Paging.Page | internal/repositories/activity_log_repository.go:26-32 | at most `limit` rows, taken in order from offset (page-1)*limit; empty past the end, full when enough rows remain |
| Paging.PageWithin | internal/repositories/payment_account.go:43-51 | every row of a page is a row of the result |
| Paging.PageCovers | internal/repositories/payment_repository.go:36-68 | every row of the result is on page i/limit+1 |
| Paging.PagesAdjacent | internal/repositories/payment_repository.go:36-68 | consecutive pages follow each other without overlap or gap |
| ActivityLogs.Matching | internal/repositories/activity_log_repository.go:17-32 | the selected entries are table entries whose log name contains every condition |
| ActivityLogs.MatchingMembership | internal/repositories/activity_log_repository.go:17-32 | an entry is selected exactly when it is in the table and matches every condition |
| ActivityLogs.MatchingNoConditions | internal/repositories/activity_log_repository.go:17-21 | with no condition, every entry is selected in order |
| ActivityLogs.MatchingEmptySearch | internal/repositories/activity_log_repository.go:17-21 | an empty search (`LIKE '%%'`) selects what the other conditions select |
| ActivityLogs.MatchingNarrows | internal/repositories/activity_log_repository.go:28-30 | an added condition filters the earlier selection, so it can only narrow it |
| ActivityLogs.MergeWindow | internal/repositories/activity_log_repository.go:32 | chaining `Limit(l).Offset(o)` onto a shared statement replaces the limit, and replaces the offset unless the new one is 0 |
| ActivityLogs.CountUnder | internal/repositories/activity_log_repository.go:19 | a count run under a window with a non-zero offset is 0, otherwise the full count |
| ActivityLogs.ActivityLogRepository.Count | internal/repositories/activity_log_repository.go:17-21 | on a fresh handle, the entries matching the search; on a shared statement, its clause stays there, the count is over every clause, and a leftover non-zero offset makes it 0 |
| ActivityLogs.ActivityLogRepository.FindAllPaginated | internal/repositories/activity_log_repository.go:23-35 | a non-empty search makes the statement shared and stays on it; on a fresh handle the rows are the plain page; on a shared statement they are the window after merging, over the entries matching every clause |
| ActivityLogs.ActivityLogRepository.Store | internal/repositories/activity_log_repository.go:37-39 | exactly one entry is appended at the end, or nothing when the insert fails |
| Database.PaymentLogProps | internal/repositories/payment_repository.go:136-154 | the audit properties carry the payment's id, code and amount |
| Database.PaymentCreatedEntryFields | internal/repositories/payment_repository.go:155-170 | the entry is a "Created" event on the payment, caused by the user, holding its properties |
| Database.PaymentIdsAppend | internal/repositories/payment_repository.go:118-129 | inserting under the next id keeps every id distinct and below the new next id |
| PaymentAccounts.Projection | internal/repositories/payment_account.go:138-147 | only id, user_id, name and deposit are read; the other columns are zero values |
| PaymentAccounts.Difference | internal/repositories/payment_account.go:90 | the difference is deposit before minus deposit after, not negated |
| PaymentAccounts.UpdatedEntryFields | internal/repositories/payment_account.go:90-121 | an "Updated" event on the account, caused by the acting user; each property set holds only the account's id, name and deposit, before and after, plus the same difference in both |
| PaymentAccounts.UserAccounts | internal/repositories/payment_account.go:43-51 | the listed accounts belong to the user and are stored accounts |
| PaymentAccounts.UserAccountsComplete | internal/repositories/payment_account.go:43-51 | when the order lists every id, an account is listed exactly when it is the user's |
| PaymentAccounts.PaymentAccountRepository.SelectByID | internal/repositories/payment_account.go:138-147 | found exactly when the id is stored, with the projection of that row |
| PaymentAccounts.PaymentAccountRepository.FindAllPaginated | internal/repositories/payment_account.go:43-51 | one page of the user's accounts, at most `limit` rows, all the user's |
| PaymentAccounts.PaymentAccountRepository.BeforeUpdate | internal/repositories/payment_account.go:66-80 | a supplied snapshot is returned unchanged without a read; otherwise the projected row, or none |
| PaymentAccounts.PaymentAccountRepository.AfterUpdate | internal/repositories/payment_account.go:82-128 | re-read and one "Updated" entry; success exactly when the row is there and the audit write succeeds |
| PaymentAccounts.PaymentAccountRepository.Update | internal/repositories/payment_account.go:54-64 | a failed write is an error with no audit entry; otherwise the deposit is set and success is reported even when the audit write fails |
| Payments.Matching | internal/repositories/payment_repository.go:44-66 | the selected rows are table rows that pass the filter |
| Payments.MatchingMembership | internal/repositories/payment_repository.go:44-66 | a row is selected exactly when it is in the table and passes the filter |
| Payments.NoFilterSelectsAll | internal/repositories/payment_repository.go:44-66 | a filter whose fields are all zero or empty selects the whole table |
| Payments.InsertByUpdated | internal/repositories/payment_repository.go:68 | inserting one row lengthens the listing by one |
| Payments.InsertKeepsSorted | internal/repositories/payment_repository.go:68 | inserting into a listing sorted by updated_at descending keeps it sorted and adds exactly that row |
| Payments.SortedCons | internal/repositories/payment_repository.go:68 | a row no older than the head can go in front of a sorted listing |
| Payments.SortByUpdatedDesc | internal/repositories/payment_repository.go:68 | `ORDER BY updated_at desc`: sorted, and a permutation of the input |
| Payments.SortedSlice | internal/repositories/payment_repository.go:68 | a contiguous part of a sorted listing is sorted |
| Payments.SortedPage | internal/repositories/payment_repository.go:34-70 | a page holds filtered table rows, newest first |
| Payments.PageOfSorted | internal/repositories/payment_repository.go:68 | a page of a sorted listing is sorted |
| Payments.PageOfPermutation | internal/repositories/payment_repository.go:68 | a page of a reordering holds only rows of the original |
| Payments.PaymentRepository.Count | internal/repositories/payment_repository.go:72-103 | the number of rows the same filter as the listing selects |
| Payments.PaymentRepository.FindAllPaginated | internal/repositories/payment_repository.go:34-70 | one page of the filtered rows, newest first, at most `limit`, each passing the filter |
| Payments.PaymentRepository.Create | internal/repositories/payment_repository.go:118-134 | a failed insert or reload is an error with no audit entry; a successful insert always appends a "Created" entry unless that write fails |
| Payments.PaymentRepository.AfterCreate | internal/repositories/payment_repository.go:136-171 | one "Created" entry, or none when its write fails; the failure is only reported |
| PaymentStore.Validate | internal/service/payment_service/store_service.go:195-237 | the rule checker's errors win; otherwise no errors exactly when the domain rules hold, and each missing field gets its messages |
| PaymentStore.Prepared | internal/service/payment_service/store_service.go:80-86 | with items: amount and name cleared and the type set to expense; without items: untouched |
| PaymentStore.PreparedIdempotent | internal/service/payment_service/store_service.go:80-86 | preparing twice is preparing once |
| PaymentStore.PreparedKeepsValid | internal/service/payment_service/store_service.go:80-86 | a payload that passed the domain rules still passes them once prepared |
| PaymentStore.WriteDeposit | internal/repositories/payment_account.go:54-64 | a deposit write changes that account's deposit and nothing else |
| PaymentStore.BalanceUpdate | internal/service/payment_service/store_service.go:113-121 | types outside 1..4 move no money and write nothing |
| PaymentStore.LedgerStep | internal/service/payment_service/store_service.go:59-66 | drafts and scheduled payments move no money and write nothing |
| PaymentStore.ExpenseRule | internal/service/payment_service/store_service.go:130-139 | an expense above the balance fails with "(e01)"; otherwise the balance drops by the amount, which may equal the balance |
| PaymentStore.IncomeRule | internal/service/payment_service/store_service.go:130-139 | income adds the amount in int64 arithmetic, with no balance check |
| PaymentStore.TransferConserves | internal/service/payment_service/store_service.go:164-186 | between two distinct accounts the origin loses and the destination gains the amount, the sum is conserved and nothing else changes |
| PaymentStore.TransferToSelf | internal/service/payment_service/store_service.go:164-186 | with the same account on both sides, the stale snapshot leaves old + amount |
| PaymentStore.TransferInsufficient | internal/service/payment_service/store_service.go:164-170 | an origin balance below the amount fails with "(e02)" before any write |
| PaymentStore.ItemsPaymentPanics | internal/service/payment_service/store_service.go:82-138 | a has_items payment that is neither draft nor scheduled dereferences the nil amount |
| PaymentStore.LedgerStepKeepsKeys | internal/service/payment_service/store_service.go:113-193 | every balance step keeps the same account ids, each account stored under its own id |
| PaymentStore.NewRow | internal/service/payment_service/store_service.go:88-111 | the inserted row has the next id, the user, the generated code, the amount and the parsed date |
| PaymentStore.StoreService.HandleIncomeOrExpense | internal/service/payment_service/store_service.go:123-151 | the accounts and audit entries are those of the specification of a single-account step |
| PaymentStore.StoreService.HandleTransferOrWithdrawal | internal/service/payment_service/store_service.go:153-193 | the accounts and audit entries are those of the two-account specification: both read first, then origin and destination written |
| PaymentStore.StoreService.UpdateBalances | internal/service/payment_service/store_service.go:113-121 | the accounts and audit entries are those of the dispatch on the payment type: income and expense on one account, transfer and withdrawal on two |
| PaymentStore.StoreService.CreatePayment | internal/service/payment_service/store_service.go:88-111 | a committed "payment" code, the insert, the reload and the "Created" entry; accounts untouched |
| PaymentStore.StoreService.SaveLog | internal/service/payment_service/store_service.go:239-272 | the service's own "Created" entry, or nothing when its write fails |
| PaymentStore.StoreService.Ledger | internal/service/payment_service/store_service.go:59-68 | drafts and scheduled payments move nothing; otherwise the balance step of the ledger specification, accounts still keyed |
| PaymentStore.StoreService.Rollback | internal/service/payment_service/store_service.go:52-69 | the accounts and payments tables are back at the snapshot and the database invariant holds |
| PaymentStore.StoreService.Transaction | internal/service/payment_service/store_service.go:52-73 | on error or panic the accounts and payments are put back; the counter, the auto-increment value and the audit entries stay |
| PaymentStore.StoreService.Store | internal/service/payment_service/store_service.go:40-78 | validation failures write nothing; a callback error answers 400 with its message and is rolled back but still consumes the code; success appends the row, the balance entries and two "Created" entries |
| ReportValidation.ValidateDateRange | internal/service/payment_service/generate_report_service.go:67-89 | per date: required message if empty, format message if off-pattern; the order check only runs when both pass; equal dates allowed; other keys kept |
| ReportValidation.ValidateMonthly | internal/service/payment_service/generate_report_service.go:91-99 | periode: required if empty, format if not `^\d{4}-\d{2}$`, otherwise nothing added |
| ReportValidation.Validate | internal/service/payment_service/generate_report_service.go:40-65 | the rule checker's errors win; otherwise no errors exactly when the checks of the chosen report pass; daily adds nothing |
| ReportValidation.SameDayAllowed | internal/service/payment_service/generate_report_service.go:82-88 | a date is not before itself |
| ReportValidation.BadMonthReadsAsZero | internal/service/payment_service/generate_report_service.go:83-84 | a well-formed date with month 13 or above reads as the zero time, before every later date |
| Responses.GoDivNonNegative | pkg/utils/response.go:58-61 | on non-negative operands Go's `/` and `%` are the mathematical ones |
| Responses.LastPageIsCeiling | pkg/utils/response.go:58-61 | lastPage is the ceiling of total/limit, and 0 for no rows |
| Responses.CeilingSteps | pkg/utils/response.go:58-61 | the remainder bump gives the least page count that covers the rows |
| Responses.LastPageIsLastNonEmpty | pkg/utils/response.go:58-61 | the last page has rows and the page after it is empty |
| Responses.SuccessResponse | pkg/utils/response.go:31-37 | status 200 and success, with the message and the data |
| Responses.CreatedResponse | pkg/utils/response.go:40-46 | status 201 and success, with the message and the data |
| Responses.ErrorResponse | pkg/utils/response.go:49-54 | the given status, not success, and no data |
| Responses.PaginatedSuccessResponse | pkg/utils/response.go:57-74 | status 200, the meta echoing page, limit and total, and a last page covering the rows |
| Responses.EnvelopesDistinguished | pkg/utils/response.go:31-54 | success, created and error envelopes never coincide |
| PaymentController.ClampPage | internal/controllers/payment_controller.go:110-112 | at least 1, and a valid page is kept |
| PaymentController.ClampPerPage | internal/controllers/payment_controller.go:114-116 | at least 1, and a valid per_page is kept |
| PaymentController.ClampsNormalise | internal/controllers/payment_controller.go:110-116 | values below 1 become 1 and 10, the clamps are idempotent, and there is no upper bound |
| PaymentController.FirstOfMonth | internal/controllers/payment_controller.go:192-206 | day 1 of today's month, not after today |
| PaymentController.LastOfMonth | internal/controllers/payment_controller.go:192-206 | the last real day of today's month, not before today |
| PaymentController.PeriodBound | internal/controllers/payment_controller.go:192-206 | a non-empty parameter is taken as is; otherwise the default date, formatted so that it parses back |
| PaymentController.DefaultPeriod | internal/controllers/payment_controller.go:192-206 | without parameters the period runs from the first to the last day of the month |
| PaymentController.ScheduledWithinExpense | internal/controllers/payment_controller.go:219-229 | with no negative amounts, scheduled expenses are part of the expense total |
| PaymentController.TypeTotalIgnoresOthers | internal/controllers/payment_controller.go:219-229 | payments of another user, period or type add nothing to a sum |
| PaymentController.Summary | internal/controllers/payment_controller.go:237-271 | initial balance = income + expenses; total after scheduled = balance − scheduled expense; percents only when the initial balance is positive; the requested period is echoed |
| PaymentController.SummaryBounds | internal/controllers/payment_controller.go:237-248 | with non-negative sums that fit in int64, what is left after scheduled expenses lies between the balance minus every expense and the balance; the initial balance is at least the income; no income and no expense means no percents |
| PaymentController.DropTrailingSlashesMeans | internal/controllers/payment_controller.go:306-307 | the longest prefix not ending in '/' |
| PaymentController.LastSegmentMeans | internal/controllers/payment_controller.go:306-307 | the longest '/'-free suffix |
| PaymentController.BaseMeans | internal/controllers/payment_controller.go:306-307 | `path.Base` is never empty, and is "/" or free of slashes |
| PaymentController.ExtMeans | internal/controllers/payment_controller.go:306-307 | `path.Ext` is a suffix starting at '.' with no further '.' or '/', or empty |
| PaymentController.MediumNameOfFile | internal/controllers/payment_controller.go:305-311 | the medium name is "medium-" + the file name, plus a trailing "." when the file has no extension |
| PaymentController.BaseOfFileName | internal/controllers/payment_controller.go:305 | a bare file name is its own base |
| PaymentController.LastSegmentOfPlain | internal/controllers/payment_controller.go:305 | a name without '/' is its own last segment |
| PaymentController.AttachmentFields | internal/controllers/payment_controller.go:304-328 | entry i has id i+1 and points at the medium copy under "images/payment/" behind the CDN URL |
| PaymentController.DecodedAttachments | internal/controllers/payment_controller.go:296-301 | an unparseable or empty column gives no paths |
| PaymentController.FindByID | internal/controllers/payment_controller.go:286-294 | the row with that id, or none when no row has it |
| PaymentController.AttachmentEntries | internal/controllers/payment_controller.go:304-328 | one entry per path, in input order, the k-th being the entry of path k |
| PaymentController.PaymentController.GetAttachments | internal/controllers/payment_controller.go:285-336 | 400 for a non-numeric id, 404 for a missing payment; otherwise the entries and "Attachments found" exactly when there is one |
| Notifications.ScanBodyMeans | internal/controllers/notification_controller.go:65-69 | the scanner accepts token characters up to a final ']' |
| Notifications.ScanHexMeans | internal/controllers/notification_controller.go:65-69 | the scanner accepts exactly lowercase hex digits |
| Notifications.ScannedIsExpoToken | internal/controllers/notification_controller.go:65-69 | a token accepted by the prefix scanner is the prefix, one or more token characters and ']' |
| Notifications.ExpoTokenScans | internal/controllers/notification_controller.go:65-69 | every token of the prefix shape passes the prefix scanner |
| Notifications.ValidateExpoTokenMeans | internal/controllers/notification_controller.go:65-69 | valid exactly when `ExponentPushToken[` + one or more of [A-Za-z0-9_-] + `]`, or 32 lowercase hex characters |
| Notifications.ExpoExamples | internal/controllers/notification_controller.go:65-69 | an issued Expo token passes and an empty bracket does not |
| Notifications.TokenOf | internal/controllers/notification_controller.go:32-35 | the token string when the key holds a non-empty string, otherwise "" |
| Notifications.SettingsUpdates | internal/controllers/notification_controller.go:46-54 | the flag whenever its key is present; the token only when non-empty; no other column |
| Notifications.NotificationController.UpdateSettings | internal/controllers/notification_controller.go:19-63 | an invalid non-empty token answers 400 before any write; an empty update writes nothing; a failed write answers 500 |
| Notifications.InvalidTokenBlocksFlag | internal/controllers/notification_controller.go:37-54 | an invalid token matches neither accepted shape, even when its flag is among the updates |
| Notifications.NothingToUpdate | internal/controllers/notification_controller.go:46-60 | a body with neither key, or an empty or non-string token, updates nothing |
| Auth.ParseHeader | internal/middleware/auth.go:22-46 | empty header: no token; no "Bearer " prefix or no '\|': bad format; otherwise the header is rebuilt from the two parts |
| Auth.HeaderRoundTrip | internal/middleware/auth.go:37-46 | a `"%d\|%s"` token splits back into exactly its id and plain part, whatever the plain part holds |
| Auth.ParseIsUnique | internal/middleware/auth.go:37-46 | a split at a '\|'-free id is the one the parser finds |
| Auth.ExpiryBoundary | internal/middleware/auth.go:62-67 | no expiry never expires; expiring exactly now is still valid; a past expiry is rejected |
| Auth.Lookup | internal/middleware/auth.go:48-60 | a token is found exactly when the id text reads as a stored id whose hash matches, and it is that stored row |
| Auth.TokenStore.Authenticate | internal/middleware/auth.go:16-88 | every rejection is 401 with its message; last_used_at is written after the expiry check; success yields the tokenable id |
| Auth.IssuedTokenAccepted | internal/middleware/auth.go:37-60 | a header built from a stored token and the plain text whose hash it keeps finds that token |
| Validator.Utf8LengthBounds | pkg/utils/validator.go:48-58 | the byte length is between one and four bytes per character, and one per character for ASCII |
| Validator.Display | pkg/utils/validator.go:32 | same length and no '_' left |
| Validator.ExpectedErrors | pkg/utils/validator.go:34-75 | a key for exactly the fields that collected a message |
| Validator.ValidateJSONMap | pkg/utils/validator.go:21-81 | an invalid body gives only the "_error" message; otherwise the data exactly when no field collected a message, and otherwise the errors alone |
| Validator.MissingField | pkg/utils/validator.go:34-41 | an absent or null required field gets exactly the required message; an optional one gets nothing |
| Validator.StringRule | pkg/utils/validator.go:48-58 | min and max are checked on bytes and both messages can appear; a non-string gets "must be a string" |
| Validator.MinMaxMessagesDiffer | pkg/utils/validator.go:52-56 | the minimum and maximum messages are distinct |
| Validator.EmailRule | pkg/utils/validator.go:65-72 | an email passes exactly when it contains both '@' and '.' |
| Validator.OtherRules | pkg/utils/validator.go:43-64 | bool accepts only booleans, numeric any number, and an unknown rule accepts everything |
| Validator.GetString | pkg/utils/validator.go:136-143 | a value exactly when the key holds a string, and it is that string |
| Validator.GetBool | pkg/utils/validator.go:145-152 | a value exactly when the key holds a boolean, and it is that boolean |
| Validator.LookupsExclusive | pkg/utils/validator.go:136-152 | the two lookups never both answer, neither answers for null, and a stored value is read back |
| UptimeMonitors.PerformHttpCheck | internal/service/uptime_monitor_service.go:54-81 | a transport error is 408 and unhealthy; otherwise healthy exactly when 200 ≤ status < 300 |
| UptimeMonitors.EvaluateSlowResponse | internal/service/uptime_monitor_service.go:83-94 | slow exactly when healthy above 300 ms, down exactly when unhealthy, up otherwise (300 ms is up) |
| UptimeMonitors.GenerateErrorMessage | internal/service/uptime_monitor_service.go:96-104 | empty exactly when healthy, otherwise "HTTP <status>" |
| UptimeMonitors.ClassifyStates | internal/service/uptime_monitor_service.go:42-104 | the full classification keeps the code and the verdict; a transport error is down with "HTTP 408" |
| UptimeMonitors.StatsRowFields | internal/service/uptime_monitor_service.go:142-153 | total +1 and exactly one of healthy/unhealthy +1; checked now, next check now + interval; nothing else changes |
| UptimeMonitors.StatsColumns | internal/service/uptime_monitor_service.go:123-139 | the column map built key by key is the stats specification's column map for the monitor as it was |
| UptimeMonitors.AdvanceMonitor | internal/service/uptime_monitor_service.go:142-153 | the struct's new fields are the stats specification's row for the monitor as it was |
| UptimeMonitors.StampCheck | internal/service/uptime_monitor_service.go:142-145 | the status is the check's, the total one more, checked now and next due after the old interval; nothing else changes |
| UptimeMonitors.CountOutcome | internal/service/uptime_monitor_service.go:147-153 | one more healthy check stamped now, or one more unhealthy check stamped now; nothing else changes |
| UptimeMonitors.FieldsAgreeWithMonitor | internal/service/uptime_monitor_service.go:119-156 | the columns written agree with the monitor in memory except last_unhealthy_at, set only in the columns when slow |
| UptimeMonitors.StatsKeepBalance | internal/service/uptime_monitor_service.go:119-153 | total = healthy + unhealthy is kept, both in memory and in the row |
| UptimeMonitors.UptimeMonitor.constructor | internal/models/uptime_monitor.go:21-40 | the struct holds the given row |
| UptimeMonitors.MonitorRepository.FindByID | internal/repositories/uptime_monitor_repository.go:39-43 | a freshly loaded struct exactly when the id is stored, holding that row |
| UptimeMonitors.MonitorRepository.Store | internal/repositories/uptime_monitor_repository.go:45-47 | the next id is assigned to the struct and the row inserted, or nothing on failure |
| UptimeMonitors.MonitorRepository.Update | internal/repositories/uptime_monitor_repository.go:49-51 | Save writes every column of the struct, or nothing on failure |
| UptimeMonitors.MonitorRepository.UpdateFields | internal/repositories/uptime_monitor_repository.go:53-55 | the named columns of that row take the given values |
| UptimeMonitors.LogRepository.Store | internal/repositories/uptime_monitor_log_repository.go:44-46 | one log entry appended |
| UptimeMonitors.HealthyCount | internal/service/uptime_monitor_service.go:167-173 | at most one healthy count per probe |
| UptimeMonitors.UptimeMonitorService.UpdateMonitorStats | internal/service/uptime_monitor_service.go:119-156 | the returned columns and the new struct are those of the stats specification |
| UptimeMonitors.UptimeMonitorService.Check | internal/service/uptime_monitor_service.go:42-52 | returns the health verdict, appends one log entry, advances the monitor and writes its columns |
| UptimeMonitors.UptimeMonitorService.RunScheduledChecks | internal/service/uptime_monitor_service.go:158-182 | each monitor is counted once: total = number of monitors = healthy + unhealthy, and healthy = the healthy probes; the logs appended are the batch's checks in order, each struct is advanced by its own check, and the table is the batch's column writes applied in order |
| UptimeMonitors.CheckLogsPointwise | internal/service/uptime_monitor_service.go:165-172 | the k-th log of a batch is the check of the k-th monitor, with that monitor's id |
| UptimeMonitors.ChecksAppliedKeys | internal/service/uptime_monitor_service.go:165-172 | a batch of checks adds and removes no monitor row |
| UptimeMonitors.ChecksAppliedOthers | internal/service/uptime_monitor_service.go:165-172 | a row whose id is not in the batch is left as it was |
| UptimeMonitors.ChecksAppliedOwn | internal/service/uptime_monitor_service.go:165-172 | with distinct ids, each monitor's row receives exactly the columns of its own check |
| UptimeController.NewMonitor | internal/controllers/uptime_monitor_controller.go:133-139 | code, url, name, interval and is_active are copied; nothing else is set |
| UptimeController.MergedFields | internal/controllers/uptime_monitor_controller.go:171-183 | text fields are replaced only when non-empty, the interval only when non-zero; is_active is always taken; no other field changes |
| UptimeController.MergeIdempotent | internal/controllers/uptime_monitor_controller.go:171-183 | sending the same body twice changes nothing the second time |
| UptimeController.EmptyBodyDeactivates | internal/controllers/uptime_monitor_controller.go:166-183 | an empty body deactivates the monitor and changes nothing else; merges keep the counters balanced |
| UptimeController.AssignRequest | internal/controllers/uptime_monitor_controller.go:171-183 | the in-place assignments produce the merged row |
| UptimeController.UptimeMonitorController.Store | internal/controllers/uptime_monitor_controller.go:118-146 | rule errors first; a failed insert answers 400 and leaves the table; otherwise 200 with the stored monitor under a new id |
| UptimeController.UptimeMonitorController.Update | internal/controllers/uptime_monitor_controller.go:159-190 | unknown id: 404 and no write; bad body: 400; failed save: 400 and no write; otherwise the merged monitor saved and returned |

## Left out

- HTTP and framework plumbing (fiber contexts, routes, JSON encoding): only the handlers' decisions are modelled.
  - Body parsing becomes an `Option` input.
  - `strconv.Atoi` of a path id becomes an `int` or `Option<int>` input.
- The clock: every `time.Now()` of one request is the single `now`/`today` parameter. Times are whole seconds.
- Randomness: the `ER-` fallback number is the parameter `rnd`.
- Hashing: bcrypt and SHA-256 are a function parameter.
- The network: the uptime HTTP GET is the `Probe` parameter.
- `ProcessDueForCheck` batching: `RunScheduledChecks` receives the due monitors and their probes directly, each monitor a separate struct.
- Database errors on calls without a flag are not modelled; those calls always succeed:
  - the `FindByAlias` lookup inside `GetCode`, whose error gives the `ER-` fallback code;
  - the commit of the payment store's transaction;
  - the log insert and the column update inside `Check`, whose errors the code drops;
  - the `last_used_at` update in the token middleware, whose error the code drops.
- The payment store's audit writes share one `auditFails` flag: they fail together or not at all, never one without the other.
- The govalidator rule checks (`required`, `numeric`, `in:`, date formats) belong to a foreign library. Their outcome is the `ruleErrors` input.
- GORM and SQL are reduced to maps and sequences.
  - `LIKE` is modelled as case-sensitive substring containment, without wildcards. MySQL's default collation compares case-insensitively, so the database can match rows the model does not.
  - `Updates(struct)` skipping zero values is not modelled: a deposit write always sets the deposit.
  - Payments.MatchesFilter: the date bounds are read strictly with the "2006-01-02" layout. A bound in any other form, such as "2024-1-5" or "20240105", reads as the zero date 0001-01-01, so a malformed `date_to` selects nothing and a malformed `date_from` selects everything. MySQL's own coercion of such strings against a DATE column is not modelled.
  - Payments.SortByUpdatedDesc: rows with the same `updated_at` keep table order, one fixed choice; the database may return such ties in any order.
  - ActivityLogs.ActivityLogRepository.Store: the INSERT is taken to ignore the clauses left on a shared statement.
  - Concurrency, isolation and row locks are not modelled.
  - MySQL's conversion of the token-id text is modelled as reading a plain digit string.
- Floating point:
  - `Summary` percents are reduced to the flag saying whether they are computed.
  - JSON numbers are `real`.
- PaymentController.Summary's SQL is reduced to the integer totals.
  - `PaymentController.TypeTotal` specifies the sums.
  - The controller takes the totals as input.
- Index, Show, Destroy and the other handlers not named in the table are not modelled beyond the `Index` clamps. They only call the repositories modelled here.
- Formatting helpers (`FormatRupiah`, date and file-size formatting) and the `AfterFind` hooks are not modelled.
- `models.Generate` and `dto.GenerateReportRequest` are not part of this model: their fields are inferred from their uses, with the queue as an integer. `models.PersonalAccessToken` is not part of this model either.
- The source's wiring inconsistencies are not modelled. Each function is modelled as written:
  - `Create` argument counts;
  - `ValidateJSON` is undefined;
  - `PaginatedSuccessResponse` arity.
- Store answers 200 through `SuccessResponse`, as the code does, not 201.
- The double "Created" audit entry is modelled, because the code writes both.
- The has_items nil dereference is modelled as a panic. Fiber's recover answers it with 500, and GORM rolls the transaction back.
- UptimeMonitors.StatsRowFields: Go's fixed-width overflow of the check counters is not modelled. Counters are unbounded.
- PaymentStore.ExpenseRule: spending the whole balance leaves zero only under the explicit deposit write. The Go code's `Updates(struct)` skips the zero, so the stored balance stays as it was.
- PaymentStore.TransferConserves: conservation holds only under the explicit deposit write. A transfer that empties the origin writes a zero deposit, which `Updates(struct)` skips, so the destination is credited and the origin is not debited.
- Paging.Page: the product (page-1)*limit is not checked for int overflow. Page and limit are required to be at least 1, the value the controllers' clamps guarantee.
- PaymentAccounts.PaymentAccountRepository.Update: it requires the snapshot or the row to exist. Otherwise the Go code dereferences a nil `before`.
