# Event management backend: attendance, registration and badges, in Dafny

This project models the core of an event-management web backend and proves properties of that model:

- **QR attendance reconciliation.** A scanned QR text is decoded as JSON and its fields are checked. A badge older than 24 hours is refused. The scan either reports the existing check-in for the (registration, event) pair or inserts one attendance row. That row's details come from the registration table, or from the QR text when no registration exists.
- **Attendance HTTP handlers.** The error-message to status mapping, the `parseInt(...) || default` pagination parameters with their range check, and the bank-details update.
- **Staff badge scan.** Check-in by registration ID. It requires an approved registration and refuses a second check-in.
- **Registration lifecycle.** Submission, one registration per national ID and event, the pending to approved/rejected review, and the unguarded status update.
- **Badge issue.** Two generators exist. One stores the JSON payload and always inserts a badge row. The other stores the bare registration ID and upserts one row per registration. Both write the file `badge_<id>.pdf`.
- **Badge retrieval handlers.**
- **SMS notification.** Rwandan phone-number normalisation, the `^250\d{9}$` check, and the message text.
- **Authentication middleware.** The bearer token and the two role guards.

Each database table is a sequence of rows held in a class field (`AttendanceTable`, `RegistrationTable`, `BadgeTable`). The methods change those rows in place. Each method is specified by a pure function of the old rows. The table's unique keys are a class invariant (`Valid`), and every method is proved to keep it.

`findOne` and `LIMIT 1` return the first matching row in table order (`Base.FirstIndex`).

JavaScript semantics are written out where the code depends on them:

- truthiness of `undefined` and `""`;
- `parseInt` (leading whitespace, sign, `0x`, digit prefix);
- `x || default`;
- ASCII `toLowerCase`;
- `encodeURIComponent` with UTF-8 percent-escapes;
- `split(" ")` and `replace` with a string pattern;
- `JSON.stringify` and `JSON.parse` for flat objects of string members.

Some things the code takes from outside are parameters of the model:

- the clock (`now`, in milliseconds);
- `new Date(text).getTime()` (`dateMillis`, where `None` is NaN);
- JWT verification (`verify`, where `None` is a throw);
- database-generated ids (`freshId`, required to be unused);
- the existing events and admins (sets of ids);
- the badge directory (a set of file names);
- the outcome of the PDF writer, of the badge generator and of the SMS call.

Modules and files:

| File | Module | Contents |
|---|---|---|
| `base.dfy` | `Base` | `Option`, `Result` and JavaScript truthiness |
| `models.dfy` | `Models` | the row types |
| `qr_codec.dfy` | `QrCodec` | JSON text |
| `js_text.dfy` | `JsText` | `parseInt`, `toLowerCase` and `encodeURIComponent` |
| `attendance_service.dfy` | `AttendanceService` | the attendance service |
| `attendance_controller.dfy` | `AttendanceController` | the attendance handlers |
| `staff_controller.dfy` | `StaffController` | the staff handlers |
| `registration_service.dfy` | `RegistrationService` | the registration service |
| `badge_service.dfy` | `BadgeService` | the first badge generator |
| `simple_badge_service.dfy` | `SimpleBadgeService` | the second badge generator |
| `badge_controller.dfy` | `BadgeController` | the badge retrieval handlers |
| `notification_service.dfy` | `NotificationService` | the SMS notification |
| `auth.dfy` | `Auth` | the authentication middleware |

## Model

| member | source | states |
|---|---|---|
| QrCodec.ParseStringify | src/services/badgeService.ts:57-62 | `JSON.parse` of the `JSON.stringify` of any flat object of string members gives back that object, later duplicate keys winning |
| QrCodec.ParseEscaped | src/services/badgeService.ts:57-62 | every string, escaped as `JSON.stringify` writes it, parses back to itself and leaves the rest of the text untouched |
| QrCodec.NotAnObject | src/services/attendanceService.ts:89-93 | a text whose first non-blank character is not `{` is not an object: decoding fails |
| JsText.ParseIntNonNumeric | src/controllers/attendanceController.ts:110-111 | `parseInt` of the empty string or of a text starting with a non-digit, non-sign, non-blank character is NaN |
| JsText.ParseIntDigits | src/controllers/attendanceController.ts:110-111 | `parseInt` of a string of decimal digits is its decimal value |
| JsText.LowerAscii | src/controllers/badgeController.ts:81 | lower-casing keeps the length, maps `A`-`Z` to `a`-`z` and keeps every other character |
| JsText.EncodedIsSafe | src/controllers/badgeController.ts:234 | `encodeURIComponent` output holds only unreserved characters, `%` and upper-case hex digits, so no `/`, `?`, `#` or space |
| JsText.EncodeUnreservedIdentity | src/controllers/badgeController.ts:234 | a name made of unreserved characters is left as it is |
| JsText.EncodeSpaceAndSlash | src/controllers/badgeController.ts:234 | a space becomes `%20` and a slash `%2F` |
| AttendanceService.Field | src/services/attendanceService.ts:97 | destructuring reads a member exactly when the key is present, `undefined` otherwise |
| AttendanceService.DecodePayload | src/services/attendanceService.ts:88-102 | invalid JSON fails with "Invalid QR code format"; otherwise the first falsy field among registrationId, eventId and attendee fails with its own message, in that order; success carries exactly the object's fields, all three non-empty |
| AttendanceService.DecodeObject | src/services/attendanceService.ts:88-102 | the decoded payload depends only on the parsed object |
| AttendanceService.NotExpired | src/services/attendanceService.ts:104-111 | a missing or empty timestamp, an unparseable date (NaN) or an age of at most 24 hours is never refused as expired |
| AttendanceService.FindByKey | src/services/attendanceService.ts:5-10 | the existing-attendance lookup finds a row with both the registration and the event, and finds none exactly when no row has both |
| AttendanceService.FindById | src/services/attendanceService.ts:77-82 | the row an update by attendance ID addresses; none exactly when no row has that ID |
| AttendanceService.FindRegistration | src/services/attendanceService.ts:12-17 | the registration lookup returns a registration with that ID, and none exactly when there is none |
| AttendanceService.Scan | src/services/attendanceService.ts:85-192 | a failed scan leaves the attendance table unchanged; any scan keeps every existing row and adds at most one |
| AttendanceService.ScanRejects | src/services/attendanceService.ts:88-111 | a decode error or an expired badge is reported with its message and writes nothing; these five messages are the only errors |
| AttendanceService.ScanExisting | src/services/attendanceService.ts:113-129 | when the pair is already checked in, the scan returns that row with `alreadyExists` and an empty string for a missing bank field, and the table is unchanged |
| AttendanceService.ScanInserts | src/services/attendanceService.ts:131-187 | otherwise exactly one row is appended for the pair, with the fresh ID and the scan time, and returned with empty bank fields |
| AttendanceService.ScanFieldSources | src/services/attendanceService.ts:131-175 | with no registration, the row takes the QR name and empty details ("using QR data"); with one, it takes the registration's name (falling back to the QR name when that is empty) and its details |
| AttendanceService.ScanKeepsKeys | src/services/attendanceService.ts:113-175 | a scan keeps the attendance IDs and the (registration, event) pairs unique |
| AttendanceService.RescanIsIdempotent | src/services/attendanceService.ts:113-129 | re-scanning any payload of the same registration and event after a successful scan changes nothing and reports the first scan's row as already checked in |
| AttendanceService.UpdateBank | src/services/attendanceService.ts:266-295 | a failed update leaves the table unchanged |
| AttendanceService.UpdateBankEffect | src/services/attendanceService.ts:266-295 | the three required-field errors come in order, then "Attendee not found" exactly when no row has the ID; three non-empty inputs and a known ID always succeed, writing the two bank fields of that row only and returning them |
| AttendanceService.AttendanceTable.constructor | src/services/attendanceService.ts:1-2 | an empty table satisfies the key invariant |
| AttendanceService.AttendanceTable.ScanQrCode | src/services/attendanceService.ts:85-192 | the scan against the table: its result and new rows are those of `Scan` on the old rows, and the unique keys are kept |
| AttendanceService.AttendanceTable.UpdateAttendeeBank | src/services/attendanceService.ts:266-295 | the in-place update: its result and new rows are those of `UpdateBank`, and the unique keys are kept |
| AttendanceService.InsertNewestFirst | src/services/attendanceService.ts:26-32 | inserting into a list ordered by check-in time, newest first, keeps it ordered and adds exactly that row |
| AttendanceService.OrderNewestFirst | src/services/attendanceService.ts:26-32 | `ORDER BY "checkInTime" DESC` gives a permutation of the rows, newest first |
| AttendanceService.OfEvent | src/services/attendanceService.ts:26-32 | the event filter keeps every row of the event as often as it occurs, and no other row |
| AttendanceService.EventAttendance | src/services/attendanceService.ts:194-203 | the event's attendance is exactly its rows, newest first |
| AttendanceService.TotalPages | src/services/attendanceService.ts:225 | `Math.ceil(total / limit)`: zero for no rows, otherwise the least page count whose pages hold every row |
| AttendanceService.PageSlice | src/services/attendanceService.ts:210-213 | `LIMIT limit OFFSET (page - 1) * limit`: the j-th row is row offset + j; empty past the end, otherwise `limit` rows or the remainder, whichever is fewer |
| AttendanceService.RowOnItsPage | src/services/attendanceService.ts:208-227 | every row appears on exactly the page its index says, and that page is within `totalPages` |
| AttendanceService.IndexOnPage | src/services/attendanceService.ts:208-227 | row index `i` lies `i % limit` rows into page `i / limit + 1`, and that page number is between 1 and `totalPages` |
| AttendanceService.SliceWithin | src/services/attendanceService.ts:210-213 | a slice of the rows holds no row more often than the table |
| AttendanceService.PageWithin | src/services/attendanceService.ts:210-213 | a page holds no row more often than the listing it is cut from |
| AttendanceService.PageNewestFirst | src/services/attendanceService.ts:210-213 | a page cut from a newest-first listing is itself newest first |
| AttendanceService.ScannedAttendees | src/services/attendanceService.ts:208-232 | the page is the `(page - 1) * limit` offset slice of all rows ordered newest first, so it is newest first; `total` is the table size, `totalPages` its ceiling division, and `page` and `limit` are echoed |
| AttendanceService.ScannedAttendeesByEvent | src/services/attendanceService.ts:237-261 | the same for one event: the page is the offset slice of that event's rows newest first, every row on it belongs to the event, and the total counts that event's rows only |
| AttendanceService.PagesCoverRows | src/services/attendanceService.ts:208-232 | paging loses no row: every row of the table is on one of the pages 1 to `totalPages` |
| AttendanceService.EventPagesCoverRows | src/services/attendanceService.ts:237-261 | every row of the event is on one of that event's pages 1 to `totalPages` |
| AttendanceController.ScanErrorReply | src/controllers/attendanceController.ts:36-74 | a timeout is 408; the five decode and expiry messages are 400, the three missing-field messages echoed; anything else is 500 with the generic message |
| AttendanceController.ScanAttendeeQr | src/controllers/attendanceController.ts:11-21 | a missing or empty `qrCode` is 400 and writes nothing |
| AttendanceController.ScanReplies | src/controllers/attendanceController.ts:11-75 | a scan's success is a 200 with the service result, and any service error is a 400 with the table unchanged |
| AttendanceController.QueryInt | src/controllers/attendanceController.ts:110-111 | `parseInt(x)` or the default: NaN and 0 fall back to the default, any other value is kept, so the result is never 0 |
| AttendanceController.PaginationRefused | src/controllers/attendanceController.ts:110-119 | the pagination check fails exactly when the page parses to a negative number or the limit to a negative number or one above 500 |
| AttendanceController.AttendanceList | src/controllers/attendanceController.ts:77-102 | a missing event ID is 400; otherwise 200 with exactly the event's rows, each as often as in the table, newest first |
| AttendanceController.ScannedAttendeesList | src/controllers/attendanceController.ts:107-136 | 400 exactly on bad pagination; otherwise 200 with the service page for the parsed `page` and `limit`: newest first, at most 500 rows, with the table's total |
| AttendanceController.ScannedAttendeesByEventList | src/controllers/attendanceController.ts:141-180 | a missing event ID is 400, then bad pagination is 400; otherwise 200 with the service page of that event for the parsed `page` and `limit`, newest first and holding only that event's rows |
| AttendanceController.BankErrorReply | src/controllers/attendanceController.ts:216-238 | "Attendee not found" is 404, the two required-field messages are 400, anything else is 500 |
| AttendanceController.UpdateAttendeeBankAccount | src/controllers/attendanceController.ts:185-239 | a refusal is a 400, 404 or 500 and writes nothing; 200 only with all three inputs present, returning that ID with the new account and bank; BankReplies states the full case split |
| AttendanceController.BankReplies | src/controllers/attendanceController.ts:185-239 | each missing input is a 400 in order and writes nothing; then 404 exactly for an unknown ID, and a known ID always gives 200; success rewrites only that row's bank fields |
| StaffController.FindByRegistration | src/controllers/staffController.ts:67-70 | the attendance lookup by registration alone, for any event |
| StaffController.StaffScan | src/controllers/staffController.ts:50-98 | a refused staff scan writes nothing; an accepted one is a 200 with the one row it appends |
| StaffController.StaffScanOutcome | src/controllers/staffController.ts:50-98 | an unknown registration is 404, a non-approved one 400, an existing check-in 400; an approved registration without a check-in gives 500 when its event is null and 200 otherwise; the row added copies the registration's event, name and details with no bank fields |
| StaffController.StaffScanIsCaseSensitive | src/controllers/staffController.ts:63-65 | status "Approved" is refused here, although the badge handlers accept it |
| StaffController.StaffRescanRefused | src/controllers/staffController.ts:67-74 | a second staff scan of a checked-in registration is refused with "Attendee already checked in" |
| StaffController.StaffScanKeepsKeys | src/controllers/staffController.ts:76-88 | a staff scan keeps the attendance table's unique keys |
| StaffController.ScanBadge | src/controllers/staffController.ts:50-98 | the staff scan against the attendance table gives the reply and rows of `StaffScan` and keeps the invariant |
| StaffController.ScannedAttendees | src/controllers/staffController.ts:100-118 | the staff listing is exactly the event's rows, newest first |
| RegistrationService.FindById | src/services/registrationService.ts:50-57 | the first registration with the ID; none exactly when the ID is unused |
| RegistrationService.FindDuplicate | src/services/registrationService.ts:28-34 | finds a registration of the same event and national ID, and none exactly when there is none |
| RegistrationService.Register | src/services/registrationService.ts:12-44 | a refused submission writes nothing; an accepted one appends exactly the registration it returns |
| RegistrationService.RegisterOutcome | src/services/registrationService.ts:12-44 | an unknown event is refused first; then "Already registered" exactly when that national ID has a registration for the event; a new registration is pending with the submitted fields and no review data |
| RegistrationService.RegisterKeepsUnique | src/services/registrationService.ts:28-43 | submission keeps the IDs unique and one registration per national ID and event |
| RegistrationService.ReviewGuard | src/services/registrationService.ts:50-66 | the review guards in order: unknown registration, not pending, unknown admin; success addresses the registration |
| RegistrationService.Review | src/services/registrationService.ts:46-73 | a refused review writes nothing; any review keeps the table size |
| RegistrationService.ReviewEffect | src/services/registrationService.ts:68-73 | a review sets the decision, the approval date, the approver and the admin on that registration only, and it was pending before |
| RegistrationService.ReviewedIsTerminal | src/services/registrationService.ts:59-61 | after an approval or a rejection, every further review of that registration is refused as not pending |
| RegistrationService.SetStatus | src/services/registrationService.ts:144-148 | the status update rewrites the status of the matching rows and nothing else |
| RegistrationService.SetStatusKeepsKeys | src/services/registrationService.ts:144-148 | a status update keeps ids unique and one registration per national ID and event, and leaves the same ids present |
| RegistrationService.BypassReopens | src/services/registrationService.ts:144-153 | setting a registration back to pending through the unguarded update makes it reviewable again |
| RegistrationService.RegistrationTable.constructor | src/services/registrationService.ts:8 | an empty registration table satisfies the invariant |
| RegistrationService.RegistrationTable.RegisterForEvent | src/services/registrationService.ts:12-44 | submission against the table gives the result and rows of `Register` and keeps both uniqueness rules |
| RegistrationService.RegistrationTable.Decide | src/services/registrationService.ts:50-73 | the in-place review gives the result and rows of `Review` |
| RegistrationService.RegistrationTable.ApproveRegistration | src/services/registrationService.ts:46-82 | approval saves the review, then requests the badge, then the SMS with the badge name; a badge or SMS error is raised after the save |
| RegistrationService.RegistrationTable.RejectRegistration | src/services/registrationService.ts:84-116 | rejection saves the review and requests the rejection SMS, with no badge |
| RegistrationService.RegistrationTable.UpdateRegistrationStatus | src/services/registrationService.ts:144-153 | the status is written without any check, and the re-read row carries it; none for an unknown ID |
| BadgeService.BadgeFileName | src/services/badgeService.ts:24 | `badge_<id>.pdf`: prefix, suffix and the ID between them |
| BadgeService.BadgeFileNameInjective | src/services/badgeService.ts:24 | different registrations get different badge files |
| BadgeService.PayloadParses | src/services/badgeService.ts:57-62 | the QR payload parses to the object of its four members |
| BadgeService.PayloadObjectFields | src/services/badgeService.ts:57-62 | that object holds the registration ID, event ID, name and timestamp under their keys |
| BadgeService.PayloadRoundTrip | src/services/badgeService.ts:57-62 | the attendance reconciler decodes an issued payload to the same registration, event and name, with the issue time as its timestamp |
| BadgeService.PayloadWithoutName | src/services/badgeService.ts:57-62 | a badge of a registration with an empty name is refused by the reconciler as missing the attendee |
| BadgeService.FreshBadgeScans | src/services/badgeService.ts:57-62 | a badge scanned within 24 hours of issue is never refused |
| BadgeService.GenerateBadge | src/services/badgeService.ts:14-153 | succeeds exactly when the event is present and no rendering or save error occurs; such an error is rethrown as the result and writes no badge row; success returns the file name and appends one row with the payload as QR code |
| BadgeService.GenerateAlwaysInserts | src/services/badgeService.ts:142-146 | each successful generation adds one more badge row for the registration; earlier rows are not looked for |
| BadgeService.IssuedBadgeDecodes | src/services/badgeService.ts:142-146 | the QR code stored with an issued badge decodes to that badge's registration |
| BadgeService.BadgeTable.constructor | src/services/badgeService.ts:12 | an empty badge table has unique badge IDs |
| BadgeService.BadgeTable.Generate | src/services/badgeService.ts:14-153 | generation against the badge table gives the result and rows of `GenerateBadge` and keeps badge IDs unique |
| SimpleBadgeService.BadgeUrl | src/services/simpleBadgeService.ts:140 | the badge URL is `/badges/` followed by the same file name as the first generator's |
| SimpleBadgeService.FindByRegistration | src/services/simpleBadgeService.ts:143-145 | finds a badge of the registration, and none exactly when there is none |
| SimpleBadgeService.Upsert | src/services/simpleBadgeService.ts:143-157 | the upsert keeps the table's size or adds one row; no URL is stored, because the badge entity has no URL column |
| SimpleBadgeService.UpsertEffect | src/services/simpleBadgeService.ts:143-157 | an existing badge keeps its ID and registration, and only its QR code becomes the bare registration ID; no other row changes; otherwise one row with a fresh ID, the registration and the bare ID as QR code is added |
| SimpleBadgeService.UpsertKeepsOne | src/services/simpleBadgeService.ts:143-157 | the upsert keeps at most one badge per registration |
| SimpleBadgeService.UpsertIdempotent | src/services/simpleBadgeService.ts:143-157 | generating twice leaves the table as generating once did |
| SimpleBadgeService.BareIdIsNotAPayload | src/services/simpleBadgeService.ts:47 | the bare UUID this generator puts in the QR code is refused by the attendance reconciler as an invalid format |
| SimpleBadgeService.GenerateBadge | src/services/simpleBadgeService.ts:16-170 | success exactly with an event and no write failure; it resolves with the badge URL, which is not stored, and the table is the upsert; a failure leaves the table unchanged |
| BadgeController.Serve | src/controllers/badgeController.ts:111-139 | a missing file is 500; `download=true` streams the file under the name `badge-<id>.pdf`; otherwise the links are returned |
| BadgeController.Deliver | src/controllers/badgeController.ts:96-143 | an existing badge row is reused without writing; otherwise a generator error is answered with 500, the handler's catch message and the error's own message, and writes nothing; the catch reply occurs exactly then; without an error the generator adds one row and the file; links always name `/badges/badge_<id>.pdf`, a streamed file is `badge_<id>.pdf` named `badge-<id>.pdf`, and a file is served only when it exists |
| BadgeController.DeliverAgain | src/controllers/badgeController.ts:96-109 | a badge once served is served the same way again, without generating |
| BadgeController.GenerateAttendeeBadge | src/controllers/badgeController.ts:38-145 | OPTIONS alone gives the empty 200; links carry `/badges/badge_<id>.pdf` and the registration download URL; a file carries `badge-<id>.pdf` as its name |
| BadgeController.GenerateGuards | src/controllers/badgeController.ts:50-139 | no user is 401, no registration 404, a status other than approved in any case 400 echoing it, no event 404; once all four pass, the shared delivery runs: a new badge is generated and served unless the generator fails, and an existing badge with its file is served; a badge is generated only when none exists |
| BadgeController.FindApproved | src/controllers/badgeController.ts:173-181 | the lookup by name matches event, exact name and exact status "approved", and finds none exactly when no registration matches |
| BadgeController.NameDownloadUrl | src/controllers/badgeController.ts:234 | the download URL carries the URI-encoded name as one path segment, with no `/`, `?`, `#` or space |
| BadgeController.GetAttendeeBadgeByEventAndName | src/controllers/badgeController.ts:147-243 | OPTIONS alone gives the empty 200, no user 401, and links carry the encoded download URL |
| BadgeController.ByNameOutcome | src/controllers/badgeController.ts:173-192 | 404 "Approved registration not found" exactly when no registration matches; the event-not-found branch is unreachable; the links served are those of a matching registration, and a streamed file is a matching registration's file under its download name |
| NotificationService.StripSeparators | src/services/notificationService.ts:28 | whitespace, `-`, `(` and `)` are all removed, and a number without them is unchanged |
| NotificationService.StripKeepsOthers | src/services/notificationService.ts:28 | every other character, `+` included, is kept as often as it occurs |
| NotificationService.StripAppend | src/services/notificationService.ts:28 | the strip works character by character in order: the result for a concatenation is the concatenation of the results, a separator gives nothing and any other character itself |
| NotificationService.WithoutPrefix | src/services/notificationService.ts:31-37 | exactly one prefix is removed, the first of `+250`, `250` and `0` that matches |
| NotificationService.Normalize | src/services/notificationService.ts:28-40 | the normalised number starts with `250`, followed by the stripped number without its prefix |
| NotificationService.NormalizePhone | src/services/notificationService.ts:25-40 | the step-by-step rewriting of the local variable computes `Normalize` |
| NotificationService.NormalizeIdempotent | src/services/notificationService.ts:28-46 | a number already of the form `250` and nine digits is left unchanged |
| NotificationService.NormalizeForms | src/services/notificationService.ts:31-40 | `+250…`, `250…` and `0…` forms of any nine subscriber digits give the same valid number, and so does the bare form unless it starts with `0` or `250` |
| NotificationService.NormalizeSpaced | src/services/notificationService.ts:28-40 | the spaced local form `0dd ddd dddd` gives the same number as the unspaced forms |
| NotificationService.SeparatorsIgnored | src/services/notificationService.ts:28 | removing the separators first changes nothing |
| NotificationService.BaseUrl | src/services/notificationService.ts:11 | the base URL is `BASE_URL` when set and non-empty, else the localhost default |
| NotificationService.Message | src/services/notificationService.ts:48-57 | an approval message is the approval text plus the badge link exactly when a non-empty badge ID is given; any other status gives the rejection text with no link |
| NotificationService.ComposeMessage | src/services/notificationService.ts:48-57 | the assignment and `+=` build `Message` |
| NotificationService.RemoveFirstPlus | src/services/notificationService.ts:63 | the sender ID loses its first `+` only |
| NotificationService.SendSmsNotification | src/services/notificationService.ts:13-66 | a missing credential sends nothing; otherwise it sends exactly when the normalised number is valid, to that number, with that message and the sender without its first `+` |
| NotificationService.ApprovalLinkIsBadgeUrl | src/services/registrationService.ts:75-79 | the approval SMS links to the base URL plus the badge URL the badge handlers serve |
| Auth.SplitSpace | src/middleware/auth.ts:9 | `split(" ")` gives at least one piece, and no piece contains a space |
| Auth.SplitJoin | src/middleware/auth.ts:9 | joining the pieces with spaces gives the header back |
| Auth.BearerTokenOf | src/middleware/auth.ts:9 | the token of `<scheme> <token>` is the token |
| Auth.AuthenticateJwt | src/middleware/auth.ts:5-23 | a missing or empty header is 401; otherwise it passes exactly when the second word exists and verifies, with that user; every other case is 403 "Invalid token" |
| Auth.IsAdmin | src/middleware/auth.ts:25-32 | passes exactly for a user with role admin or staff; otherwise 403 |
| Auth.IsEventManager | src/middleware/auth.ts:34-41 | passes exactly for role event_manager; otherwise 403 |
| Auth.AuthUser | src/controllers/badgeController.ts:18-36 | the middleware's user, else the verified query token, else none; a failed verification gives none |

## Left out

- The HTTP layer is not modelled: routes, CORS headers, logging, response streaming and the 10-second timeout race of the QR scan. Only the mapping of the timeout message to 408 is kept.
- The model runs every request to completion, one at a time. The source's check-then-insert in the QR scan is not atomic under concurrency.
- Only flat JSON objects of string members are decoded. A QR text that is a JSON number, string, array, `true`, `false` or `null` is treated as invalid format. In the source, all of these but `null` reach the registration-ID check and report "Missing registration ID"; `null` fails with a type error, answered with 500.
- AttendanceService.DecodePayload: non-string member values (numbers, booleans) are treated as invalid format. The source would accept a truthy non-string value.
- AttendanceService.UpdateBankEffect: the bank update is modelled as if the raw `UPDATE ... RETURNING` query resolved to the returned rows, so an unknown ID gives "Attendee not found" and a known one echoes the stored row (src/services/attendanceService.ts:274-289). The Postgres driver's result shape is not part of this model. If the driver resolves a raw `UPDATE` to a pair of the rows and the row count, the not-found check never fires, and the reply echoes undefined fields. The same applies to AttendanceService.UpdateBank, AttendanceController.UpdateAttendeeBankAccount and AttendanceController.BankReplies.
- BadgeService.GenerateBadge: `failure` stands for a QR-rendering or save error only, which the generator rethrows. A write error of the PDF stream is not modelled. The generator attaches no `error` listener and awaits only `finish` (src/services/badgeService.ts:36-37, 140), so such an error never becomes the rejection that the handlers answer with 500. The simple generator does listen for it, and its `failure` covers it.
- JsText.ParseIntDigits: the value is the exact integer. `parseInt` returns a double, so above 2^53 the source's value is rounded.
- Surrogate-pair escapes in JSON strings and lone surrogates are not handled. Characters are Unicode scalar values.
- JsText.LowerAscii: only `A`-`Z` are lower-cased, not the full Unicode case mapping of `toLowerCase`.
- AttendanceService.ScannedAttendees and AttendanceService.ScannedAttendeesByEvent require `page >= 1` and `limit >= 1`. This is what the handlers guarantee. A direct call with zero or negative values would hit a database error or an infinite `totalPages`, and that is not modelled.
- AttendanceController.AttendanceList, AttendanceController.ScannedAttendeesList and AttendanceController.ScannedAttendeesByEventList: their 500 replies cannot occur in the model, because database query failures are not modelled. In the source, AttendanceService.EventAttendance, AttendanceService.ScannedAttendees and AttendanceService.ScannedAttendeesByEvent catch a query error and rethrow a fixed message (src/services/attendanceService.ts:199-202, 228-231, 257-260), and the handlers answer it with 500 (src/controllers/attendanceController.ts:95-101, 129-135, 173-179). Elsewhere a store or rendering error is modelled only where a member takes it as its `failure` input.
- AttendanceService.OrderNewestFirst: the order among rows with equal check-in times is the database's choice. The model fixes one.
- Column projections of the listings (the `id`/`name` aliases and the selected columns) are not modelled. The listings return whole rows.
- Wall-clock dates, their formatting and the ISO timestamp format are parameters, not modelled values.
- The database schema is not modelled:
  - uuid column types;
  - the foreign keys from attendance to registration and to event, which the migration src/migrations/1713371234568-OptimizeAttendanceTable.ts drops in its `up()` (only `down()` restores them);
  - the badge `badgeUrl` column, which is added only by a migration and is absent from the badge entity. The model's badge row has no such field, and the simple generator's assignment of the URL to the entity object is not saved;
  - the unique constraint on the badge's `registrationId` that the one-to-one join column of the badge entity implies (src/models/Badge.ts:15-16). A schema built from the entities would refuse the second badge row of a registration that BadgeService.GenerateAlwaysInserts describes.
- The attendance table's (registration, event) uniqueness is proved of the code paths. The entity and that migration also declare a unique index on the pair. The index would refuse a duplicate insert that races past the check, and that refusal is not modelled.
- TypeORM's treatment of `undefined` in a `where` clause (matching any row) is not modelled. Every lookup key is a defined string.
- PDF drawing, QR image rendering and the file-system writes are not modelled. The badge directory is a set of file names, and an error of the generator's QR rendering or save is an input.
  - A failed generation is modelled as writing no file. In the source, a partially or fully written file can remain. A failed QR rendering can leave a partial file. A failed save comes after the stream has finished, so the file is complete (src/services/badgeService.ts:140-146, src/services/simpleBadgeService.ts:137-157).
- The Intouch HTTP request and its response handling are not modelled. The model produces the request parameters. An error of the call is an input of the approval and the rejection.
- Email sending is not modelled.
- The CRUD wrappers for events and attendees are not modelled.
- Logins and password hashing are not modelled.
- The registration controller is not modelled.
- JWT signing and verification are not modelled. Verification is a partial function parameter. Token generation always signs the role `admin` (src/utils/jwt.ts:10); `Auth.IsAdmin` is stated for any role.
- The staff scan's `attendanceTime` and the attendee relation are not modelled.
- `alreadyExists` is absent from new-scan results in the source and `false` in the model.
