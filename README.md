# SellHarborX backend: a verified model of its decision procedures

The SellHarborX backend is a small FastAPI service in front of a MongoDB
database. Its public forms cover signup, login, the newsletter, website
audits, meeting booking, package requests and contact. An admin area lists,
edits and deletes what the forms store. Two browser scripts matter here: the
admin page (`JS/admin.js`) and the meeting-booking page with its calendar
(`JS/meeting.js`).

This Dafny project models the logic of those pieces. The document store is
the class `Store.Database`. Each collection is a sequence of documents
`Doc(id, createdAt, body)` held in a field that the handlers reassign. The
field `nextId` stands for the ObjectId generator. Two flags record whether
the unique indexes declared at startup exist.

Each route is a method on that store. The current time (`now`, microseconds
since 0001-01-01) and the outcome of the parts that cannot be seen are
parameters: store errors (`insertFails`), `asyncio.create_task` failures
(`scheduleFails`), the JWT decoder (`decode`) and the prompt answers.

Password hashing and JWTs appear only as symbolic values: `Hash(p)`, whose
`Verify` accepts exactly `p`, and `Token(sub, exp)`. The counter of failed
logins is the class `Login.LoginAttempts`. The calendar page is the class
`Calendar.CalendarPage`: its day highlight is an `array<bool>`, and its grid
is filled by the same nested loop as the script.

One module per source file: `Common` (dates, digits, text helpers that stand
for the Python and JavaScript library calls), `Store`, `Login`, `Newsletter`,
`Audit`, `Meeting`, `PackageForm`, `Contact`, `Signup`, `Admin`, `Startup`,
`AdminClient` and `Calendar`.

The login counter follows the code: `MAX_ATTEMPTS` is 5, and a wrong password
increments the count before it is compared with that limit. Starting from no
stored count, the fifth consecutive wrong password is the automatic login.

## Model

| member | source | states |
|---|---|---|
| Common.DaysInMonth | app/forms/meeting.py:21-25 | A month has 28 to 31 days, and exactly 29 when it is February of a Gregorian leap year; this is the day range `strptime` accepts. |
| Common.DaysInYearByMonths | app/forms/meeting.py:21-25 | The twelve month lengths add up to the year length, 366 in a leap year and 365 otherwise. |
| Common.DateOf | app/forms/admin.py:154 | Every stored instant has a valid proleptic Gregorian calendar date, which is what `isoformat` prints. |
| Common.NatToStringValue | app/forms/admin.py:154 | Decimal text of a number reads back as that number. |
| Common.PadZeroValue | app/forms/admin.py:154 | Zero-padding a digit string to a width keeps it all digits and keeps its value. |
| Common.IsoDate | app/forms/admin.py:154 | The `YYYY-MM-DD` part of `isoformat` holds only digits and dashes. |
| Common.IsoTime | app/forms/admin.py:154 | The `HH:MM:SS` part is 8 characters, colons at 2 and 5 and digits elsewhere. |
| Common.IsoFraction | app/forms/admin.py:154 | The microsecond part is empty exactly when the microseconds are 0; otherwise it is a dot followed by six digits. |
| Common.BsonTime | app/forms/audit.py:42-45 | A stored `datetime` keeps whole milliseconds: the stored instant is the millisecond that holds the original one. |
| Common.IsoFormatWholeMillis | app/forms/admin.py:230 | A `created_at` read back from the store is listed with a fraction ending in three zeros, whenever a fraction is written. |
| Common.IsoFormat | app/forms/admin.py:154 | `isoformat()` writes a fractional part exactly when the microseconds are not zero: its text has no `.` if and only if the instant is a whole second. |
| Common.Lower | app/forms/login.py:19 | `str.lower` keeps the length and lower-cases each character in place. |
| Common.LowerIdempotent | app/forms/newsletter.py:19 | Lower-casing twice is lower-casing once. |
| Common.LowerFixedPoint | app/forms/login.py:19 | A string is unchanged by lower-casing if and only if it has no upper-case letter. |
| Common.StripStart | app/forms/newsletter.py:19 | `lstrip` keeps a suffix, removes only whitespace and leaves no leading whitespace. |
| Common.StripEnd | app/forms/newsletter.py:19 | `rstrip` keeps a prefix, removes only whitespace and leaves no trailing whitespace. |
| Common.Strip | app/forms/newsletter.py:19 | `strip()` leaves a slice of its text with only whitespace cut off before and after it, and that slice is empty or starts and ends with a non-whitespace character. |
| Common.Utf8Length | app/forms/signup.py:65 | The UTF-8 byte length of a password lies between its character count and four times it. |
| Common.VerifyHash | app/forms/login.py:31 | The verifier accepts a stored hash for its own password and for no other. |
| Common.CreateAccessToken | app/forms/login.py:33 | The token's subject is the given value and it expires after `now`. |
| Common.NotifyBoth | app/forms/newsletter.py:77-83 | A submission notifies two recipients: the submitter first, then the operator address. |
| Common.Scheduled | app/forms/newsletter.py:78-83 | The `create_task` pair inside its `try` schedules either every job or none. A non-empty batch is lost exactly when scheduling fails, and the route still answers. |
| Store.ParseObjectId | app/forms/admin.py:91-94 | An id in a path is taken as valid exactly when it is 24 hexadecimal digits of either case, the text form of an ObjectId. Any other text gets the route's 400. |
| Store.IdString | app/forms/admin.py:82 | `str(_id)` is always 24 lower-case hexadecimal digits, which `ObjectId(...)` accepts again. |
| Store.HexRoundTrip | app/forms/admin.py:82 | Writing a number below 16^w as w hex digits and reading them back gives the number. |
| Store.ObjectIdRoundTrip | app/forms/admin.py:82 | The id text a handler returns parses back, in an admin route, to the same ObjectId. |
| Store.IdStringLowerCase | app/forms/admin.py:133 | `str(oid)` is always lower-case hex, whichever case the id was parsed from. |
| Store.IndexOfId | app/forms/admin.py:96 | The position found for an id holds that id and no earlier document does. |
| Store.RemoveFirstAbsent | app/forms/admin.py:96-98 | `delete_one` on an id nobody has leaves the collection as it was. |
| Store.RemoveFirstPresent | app/forms/admin.py:96 | `delete_one` removes the first document with the id and keeps the others in order. |
| Store.RemoveFirstUnique | app/forms/admin.py:96 | With distinct ids, a delete removes exactly one document, leaves none with that id, keeps every other document and keeps ids distinct. |
| Store.RemoveFirstKeepsKeysUnique | app/main.py:52 | Deleting a document keeps any uniqueness of a key that held before. |
| Store.GuardedAppendKeepsKeysUnique | app/main.py:52 | Appending a document whose key is not yet taken keeps the key unique. |
| Store.AppendKeepsIdsWellFormed | app/forms/contact.py:35 | Appending under the next fresh id keeps ids distinct and below the generator. |
| Store.Database.constructor | app/main.py:48-62 | A fresh store: every collection empty, no index declared. |
| Store.Database.InsertMeeting | app/forms/meeting.py:41-44 | With the meetings index declared, an insert of a taken `(email, date)` reports a duplicate key. Otherwise a store error changes nothing, and success appends exactly one document under the next id, stamped with `now` floored to the millisecond, as a BSON date keeps it. |
| Store.Database.InsertNewsletter | app/forms/newsletter.py:32-36 | The same, for the newsletter index on `email`. |
| Store.Database.InsertAudit | app/forms/audit.py:45 | Either a store error and nothing changes, or one document appended under the next id, stamped with `now` floored to the millisecond. |
| Store.Database.InsertContact | app/forms/contact.py:34-38 | The same, for contacts. |
| Store.Database.InsertPackage | app/forms/package_form.py:49-55 | The same, for packages (no unique index). |
| Store.Database.InsertUser | app/forms/signup.py:68-74 | The same, for users. |
| Store.Database.InsertAdmin | app/main.py:76-80 | Either a store error and nothing changes, or one admin appended under the next id, without `created_at`. |
| Store.FindFirst | app/forms/login.py:21-23 | The `find_one` lookups used for logins and admin logins (also app/forms/admin.py:65). They return the first position whose key is exactly the one asked for, and no earlier position has it. They report no match only when no document has that key. |
| Login.Attempt | app/forms/login.py:26-57 | One attempt leaves a count below `MAX_ATTEMPTS` (5). The count is back to 0 exactly when the attempt is not rejected, that is, on a correct password or on the automatic login. |
| Login.AttemptBounds | app/forms/login.py:26-57 | Whatever the stored count, an attempt leaves a count in 0..4. A correct password resets it to 0 and succeeds. A wrong password logs in automatically if and only if the incremented count reaches 5. Otherwise it reports 1..4 attempts left, which is 5 minus the new count. |
| Login.WrongAttempts | app/forms/login.py:42 | A run of k wrong passwords. |
| Login.WrongRun | app/forms/login.py:26-57 | After k wrong passwords from no stored count, the count is k mod 5. The i-th attempt logs in exactly when i is a multiple of 5; every other one reports 5 - (i mod 5) attempts left. |
| Login.FifthWrongAttemptLogsIn | app/forms/login.py:42-51 | Five wrong passwords in a row report 4, 3, 2 and 1 attempts left, then log in automatically and reset the count. |
| Login.LoginAttempts.constructor | app/forms/login.py:9-10 | The process starts with no counters. |
| Login.LoginAttempts.Login | app/forms/login.py:18-57 | The lower-cased email is both the lookup key and the counter key. An unknown email gives "user not found" and leaves every counter alone. Otherwise only that email's counter changes, to what `Attempt` decides, and the reply, token subject included, is the one that verdict gives. Every counter stays below 5. |
| Newsletter.LowerKeepsSpace | app/forms/newsletter.py:19 | Lower-casing turns no character into whitespace and no whitespace into anything else. |
| Newsletter.StripStartOfStripped | app/forms/newsletter.py:19 | Text with no leading whitespace is left alone by `lstrip`. |
| Newsletter.StripEndOfStripped | app/forms/newsletter.py:19 | Text with no trailing whitespace is left alone by `rstrip`. |
| Newsletter.NormalizeShape | app/forms/newsletter.py:19 | The normalised email has no surrounding whitespace and no upper-case letter. |
| Newsletter.NormalizeIdempotent | app/forms/newsletter.py:19 | `strip().lower()` of a normalised email gives it back. |
| Newsletter.Normalize | app/forms/newsletter.py:19 | `email.strip().lower()` is no longer than the email and holds no ASCII capital. |
| Newsletter.Subscribe | app/forms/newsletter.py:15-85 | If the normalised email is already stored, the reply is 409 and nothing is stored. A store error (a unique-index rejection included) is 500 "Failed to save subscription" and stores nothing. Otherwise exactly one `{email: normalised, created_at: now}` is appended, `now` floored to the millisecond, both notices go to the normalised email and the operator, and the reply is 201 with the new id. Email uniqueness is kept. |
| Newsletter.SpellingsCollide | app/forms/newsletter.py:19-25 | Two emails with the same normalisation are one subscription: after the first is stored, the second is found. |
| Audit.Submit | app/forms/audit.py:20-88 | A stored audit with the same email and product URL and a `created_at` no older than 24 hours, counted in whole milliseconds, gives 409 and stores nothing. Otherwise the six fields are stored verbatim with `now` floored to the millisecond, and the reply is 200 "Audit request received" with the new id. An insert error is an uncaught 500, and so is a time within 24 hours of 0001-01-01, where the cutoff cannot be computed. |
| Audit.Cutoff | app/forms/audit.py:26 | The cutoff lies exactly 24 hours before now. It falls before the first representable instant exactly when now is within the first day. |
| Audit.Blocks | app/forms/audit.py:27-31 | A stored audit blocks a request exactly when it has the same email and the same product URL, and its `created_at` falls in the millisecond of the cutoff (24 hours ago) or later. The driver floors the `$gte` value to the millisecond. |
| Audit.WindowBoundary | app/forms/audit.py:26-31 | The window is closed at its old end, to the millisecond. A copy stored in the millisecond that began 24 hours ago blocks, and one stored before it does not. When 24 hours ago is not a whole millisecond, a copy a microsecond older than 24 hours still blocks. |
| Audit.OnlyTheSamePairBlocks | app/forms/audit.py:28-29 | A different email or a different product URL never blocks; comparison is exact. |
| Audit.WindowMonotone | app/forms/audit.py:26-31 | What does not block at an instant does not block at any later instant. |
| Audit.SecondRequest | app/forms/audit.py:26-45 | After one stored request (stamped to the millisecond), a second for the same pair is refused if and only if the two instants, each floored to the millisecond, are at most 24 hours apart. |
| Meeting.MonthField | app/forms/meeting.py:22 | The `%m` field takes one or two digits and a value 1..12. |
| Meeting.DayField | app/forms/meeting.py:22 | The `%d` field takes one or two digits, or a space then one digit, and a value 1..31. |
| Meeting.ParseDate | app/forms/meeting.py:21-25 | An accepted date is a valid calendar date, leap years included, with a four-digit year; its text is 8 to 10 characters with a dash after the year. |
| Meeting.MonthFieldOfTwoDigits | app/forms/meeting.py:22 | A two-digit month is read as that month. |
| Meeting.DayFieldOfTwoDigits | app/forms/meeting.py:22 | A two-digit day is read as that day. |
| Meeting.ParseIsoDate | app/forms/meeting.py:21-25 | The `YYYY-MM-DD` text of any valid date up to year 9999 is accepted as that date. |
| Meeting.UnpaddedSpellings | app/forms/meeting.py:22 | `2024-01-05`, `2024-1-5` and `2024-1- 5` are all accepted as 5 January 2024. |
| Meeting.LeapDayChecked | app/forms/meeting.py:21-25 | 29 February is accepted in 2024 and refused in 2023. |
| Meeting.OutOfRangeRefused | app/forms/meeting.py:21-25 | Month 13, 31 April and year 0 are refused. |
| Meeting.TrailingTextRefused | app/forms/meeting.py:21-25 | A three-digit day or a trailing space is refused. |
| Meeting.Refusal | app/forms/meeting.py:21-30 | A booking is refused if and only if its date fails the format check or its `(email, date)` pair is stored; a bad date is the 400, checked first. |
| Meeting.Book | app/forms/meeting.py:20-90 | The refusal, if any, is the reply and nothing is stored. A unique-index rejection is the same 409, and another store error is an uncaught 500. Otherwise exactly one booking with the date as submitted and `now` floored to the millisecond is appended, and the reply is 201 "Meeting booked" with its id. `(email, date)` uniqueness is kept. |
| Meeting.SameDayOtherSpelling | app/forms/meeting.py:28 | The duplicate check compares the raw date text: after `2024-01-05` is booked, `2024-1-5` for the same email is not refused. |
| Meeting.SecondBookingRefused | app/forms/meeting.py:28-30 | After a booking, the same email and date text is refused with 409, whatever the name and agenda. |
| PackageForm.NotesOrEmpty | app/forms/package_form.py:46 | Missing notes are stored as the empty string; given notes are stored as they are. |
| PackageForm.Record | app/forms/package_form.py:37-47 | The stored package holds every submitted field verbatim, with notes defaulted. |
| PackageForm.Choose | app/forms/package_form.py:25-153 | A stored request with the same email and package gives 409 naming the package, and nothing is stored. A store error is 500 "Database insertion failed."; a duplicate-key error would be 409 "Duplicate package submission detected.". Otherwise one record with `now` floored to the millisecond is appended, and the reply is 201 with its id. `(email, package)` uniqueness is kept. |
| PackageForm.OnlyTheSamePairRefused | app/forms/package_form.py:29 | After a request is stored, any other package for that email, or the same package for another email, is still accepted. |
| Contact.Submit | app/forms/contact.py:18-79 | There is no duplicate check. A store error is 500 "Failed to save contact request" and stores nothing. Otherwise the four fields and `now` floored to the millisecond are appended and the reply is 201 with the new id, whether or not the notices could be scheduled. |
| Signup.Signup | app/forms/signup.py:56-157 | An email stored exactly as given gets a 200 `alreadyExists` body, before the password is looked at. A new email with a password over 72 UTF-8 bytes gets 400. A store error is 500. Otherwise one user with the hashed password, never the plaintext, is stored, stamped with `now` floored to the millisecond; the reply is 200 with the id, or 500 if scheduling the notices fails. |
| Signup.LowerCaseSignupLogsIn | app/forms/signup.py:57 | A user who signed up with a lower-case email is found by the login route, and the first correct password is a plain welcome. |
| Signup.MixedCaseSignupNotFound | app/forms/signup.py:57 | A user who signed up with upper-case letters in the email is never found by the login route, which looks up the lower-cased email. |
| Signup.FindsFirstMatch | app/forms/login.py:21 | The login lookup returns the first position holding the email. |
| Admin.UpToSpace | app/forms/admin.py:46 | The second space-separated piece ends at the first space after it. |
| Admin.BearerToken | app/forms/admin.py:46 | The token is the text right after `Bearer `, holding no space. |
| Admin.CurrentAdmin | app/forms/admin.py:42-57 | No header, or one not starting with "Bearer ", is 401 "Not authenticated". Otherwise the text after "Bearer " up to the next space is decoded. A decode error and a missing `sub` are both 401 "Invalid token". A `sub` authorizes that admin. |
| Admin.BearerRoundTrip | app/forms/admin.py:43-46 | The header `Bearer <token>` yields the token back. |
| Admin.BearerTokenTruncated | app/forms/admin.py:46 | Anything after a second space in the header is ignored. |
| Admin.UpToSpaceStops | app/forms/admin.py:46 | The piece stops at the first space. |
| Admin.AdminLogin | app/forms/admin.py:63-69 | The login succeeds if and only if that admin exists and the password verifies. Failure is the same 401 "Invalid username or password" for both causes. Success is a bearer token whose subject is the username and that expires after `now`. |
| Admin.LoginThenAuthorized | app/forms/admin.py:42-69 | With a decoder that inverts the encoder, the token from a successful admin login authorizes that admin on every admin route. |
| Admin.AdminMe | app/forms/admin.py:175-177 | `GET /admin/me` never answers with a body. The dependency's 401s pass through. An authorized caller gets an uncaught 500, because the handler treats the username string as a dict. |
| Admin.LoginThenMeFails | app/forms/admin.py:57-69 | Even with a token from a successful admin login, `GET /admin/me` answers 500. |
| Admin.CreatedAtJson | app/forms/admin.py:154 | `created_at` is rendered as its ISO text when present and as null when missing. |
| Admin.Project | app/forms/admin.py:76-84 | The listing has one row per stored document, in store order, each the projection of that document. |
| Admin.UserRow | app/forms/admin.py:79-83 | A user row copies the username and the email, and its id is a valid ObjectId text. |
| Admin.MeetingRow | app/forms/admin.py:148-155 | A meeting row copies the email and the date, its id is a valid ObjectId text, and it has a `created_at` exactly when the document has one. |
| Admin.AuditRow | app/forms/admin.py:188-197 | An audit row copies the email and the product URL, its id is a valid ObjectId text, and it has a `created_at` exactly when the document has one. |
| Admin.ContactRow | app/forms/admin.py:224-231 | A contact row copies the email and the message, its id is a valid ObjectId text, and it has a `created_at` exactly when the document has one. |
| Admin.NewsletterRow | app/forms/admin.py:259-263 | A newsletter row copies the email, its id is a valid ObjectId text, and it has a `created_at` exactly when the document has one. |
| Admin.PackageRow | app/forms/admin.py:291-302 | A package row copies the email, the package and the notes, its id is a valid ObjectId text, and it has a `created_at` exactly when the document has one. |
| Admin.ListUsers | app/forms/admin.py:74-84 | Without authorization the reply is the 401. Otherwise it is every user's name, email and id, and never a password hash. |
| Admin.ListMeetings | app/forms/admin.py:139-156 | Every meeting's id, name, email, agenda, date and ISO `created_at`, or the 401. |
| Admin.ListAudits | app/forms/admin.py:183-198 | Every audit's fields with its id and ISO `created_at`, or the 401. |
| Admin.ListContacts | app/forms/admin.py:219-232 | Every contact's fields with its id and ISO `created_at`, or the 401. |
| Admin.ListNewsletters | app/forms/admin.py:254-264 | Every subscription's email with its id and ISO `created_at`, or the 401. |
| Admin.ListPackages | app/forms/admin.py:286-303 | Every package request's fields with its id and ISO `created_at`, or the 401. |
| Admin.DeleteRemovesExactlyOne | app/forms/admin.py:96-99 | A 204 deletion leaves one document fewer, none with that id, and every other document still there. |
| Admin.Remove | app/forms/admin.py:89-99 | The four outcomes shared by every delete route. Unauthenticated is 401. A malformed id is 400. An absent id is 404. Otherwise the document is removed and the reply is an empty 204. Distinct ids and every unique key are kept. |
| Admin.DeleteUser | app/forms/admin.py:89-99 | `DELETE /admin/users/{id}`: those outcomes on the users, with "Invalid user id" and "User not found". |
| Admin.DeleteMeeting | app/forms/admin.py:162-172 | The same, on the meetings. |
| Admin.DeleteAudit | app/forms/admin.py:203-212 | The same, on the audits. |
| Admin.DeleteContact | app/forms/admin.py:238-248 | The same, on the contacts. |
| Admin.DeleteNewsletter | app/forms/admin.py:270-279 | The same, on the subscriptions. |
| Admin.DeletePackage | app/forms/admin.py:309-319 | The same, on the package requests. |
| Admin.BuildUpdate | app/forms/admin.py:111-122 | The update document holds exactly the fields given, with the password hashed. A password over 72 UTF-8 bytes is refused. A payload with no field is "Nothing to update". |
| Admin.Apply | app/forms/admin.py:124 | `$set` replaces the fields it names and keeps the others. |
| Admin.UpdateKeepsOmittedFields | app/forms/admin.py:111-124 | A field left out of the payload keeps its stored value. A given password is stored only as its hash. |
| Admin.UpdateUser | app/forms/admin.py:104-133 | The checks come in this order: 401, a malformed id 400, an over-long password 400, an empty update 400, an unknown id 404. Nothing changes on any of them. On success only that user's named fields change. The reply carries name, email and the stored id as `str(_id)` prints it, in lower case whatever case the request used, and no password. |
| Startup.Seeded | app/main.py:73-80 | If the configured username exists, the admins are unchanged. Otherwise one admin is added with the hashed password and role "admin". |
| Startup.SeededAdminExists | app/main.py:73-80 | After seeding, an admin with the configured username exists. |
| Startup.SeedIdempotent | app/main.py:69-83 | Seeding again, even with another password, changes nothing. |
| Startup.SeedAdmin | app/main.py:69-83 | `seed_admin` completes exactly when the admin already exists or its insert succeeds, and then leaves exactly the seeded admins. A failed insert aborts startup and changes nothing. No id is taken when the admin exists. |
| Startup.CreateIndexes | app/main.py:49-62 | Each unique index exists afterwards if it existed or could be built over the stored documents. A failure on one does not stop the other, and the store invariant holds either way. |
| AdminClient.EscapeChar | JS/admin.js:183 | The five special characters become entities starting with `&` and ending with `;`; every other character is kept. |
| AdminClient.EscapeHtml | JS/admin.js:182-184 | The escaped text has no raw `<`, `>`, `"` or `'`, and is never shorter than the input. |
| AdminClient.UnescapeChar | JS/admin.js:183 | Reading the entities back after one escaped character gives that character. |
| AdminClient.UnescapeEntity | JS/admin.js:183 | The same, for the five special characters. |
| AdminClient.EscapeRoundTrip | JS/admin.js:182-184 | Escaping loses nothing: reading the entities back gives the input. |
| AdminClient.EscapePlain | JS/admin.js:182-184 | Text without special characters is left as it is. |
| AdminClient.EscapeNotIdempotent | JS/admin.js:183 | Escaping is a single pass: `&` becomes `&amp;`, and again `&amp;amp;`. |
| AdminClient.RequestHeaders | JS/admin.js:22-28 | Content-Type becomes JSON only when it is missing or empty and the body is not FormData. An existing Content-Type is kept. Authorization is `Bearer <token>` if and only if a non-empty token is stored, and otherwise stays as the caller set it. Every other header is kept and no other header is added. |
| AdminClient.SentTokenIsDecoded | JS/admin.js:28 | The backend reads the stored token back out of the header the page sends. |
| AdminClient.Session.constructor | JS/admin.js:18-20 | The session starts with the stored token. |
| AdminClient.Session.ApiFetch | JS/admin.js:22-37 | The request goes out with those headers. A 401 clears the stored token and ends as "session expired". Any other status is returned with the token kept. |
| AdminClient.EditPayload | JS/admin.js:205-236 | The dialog is cancelled exactly when a prompt is cancelled. "Password cannot be empty." appears exactly for an empty new password, the 72-byte alert exactly for a non-empty one that is too long, and "No changes made." exactly when username and email are unchanged and no password change was confirmed. A valid edit is sent exactly when something changed. A sent payload names the username only if it changed, the email only if it changed, and the password exactly when a change was confirmed, with the entered text. |
| AdminClient.DialogPayloadAccepted | JS/admin.js:212-231 | A payload the dialog sends has a non-empty password within 72 bytes, and is never refused by the server as too long or empty. |
| AdminClient.UnchangedSendsNothing | JS/admin.js:231 | With nothing changed and no new password, the dialog says "No changes made." and sends nothing. |
| AdminClient.BeforeDot | JS/admin.js:311 | `split(".")[0]` is the longest dot-free prefix. |
| AdminClient.ReplaceFirstT | JS/admin.js:311 | `replace("T", " ")` keeps the length and changes at most a `T` into a space. |
| AdminClient.DisplayCreatedAt | JS/admin.js:311 | A missing `created_at` shows as empty text. A present one shows as no longer than the stored text and without any `.`. |
| AdminClient.ReplaceFirstTAt | JS/admin.js:311 | `replace("T", " ")` replaces only the first `T`. |
| AdminClient.BeforeDotAt | JS/admin.js:311 | The text before a fraction that starts with a dot is kept whole. |
| AdminClient.DisplayedCreatedAt | JS/admin.js:311 | A stored instant is displayed as `YYYY-MM-DD HH:MM:SS`, without microseconds. A missing one is displayed as empty text. The same trimming appears at lines 311, 404, 485, 536, 593 and 680. |
| AdminClient.DisplayedParts | JS/admin.js:311 | The same, for any date, time of day and fraction. |
| AdminClient.DisplayOfIso | JS/admin.js:311 | Date, `T`, time and fraction display as date, space and time. |
| AdminClient.ClockHasNoDot | JS/admin.js:311 | The time of day contains no dot. |
| AdminClient.DateHasNoTOrDot | JS/admin.js:311 | The date part contains neither `T` nor a dot. |
| Calendar.FirstWeekday | JS/meeting.js:16 | `new Date(year, month).getDay()` is a weekday 0..6. |
| Calendar.RolledDate | JS/meeting.js:17 | The day of the month of a date given past the end of its month, as `new Date` rolls it over, lies in 1..31. |
| Calendar.MonthLength | JS/meeting.js:17 | `32 - new Date(year, month, 32).getDate()` is the Gregorian length of the month. |
| Calendar.RolledPastEnd | JS/meeting.js:17 | Day 32 of a month is day 32 minus the month's length of the next one. |
| Calendar.DaysBeforeYearStep | JS/meeting.js:16 | The closed day count advances by the length of each year. |
| Calendar.LeapCount | JS/meeting.js:16 | The three divisibility tests add up to the extra day of a leap year. |
| Calendar.MonthsSplit | JS/meeting.js:16 | The months before a month and those from it on make up the year. |
| Calendar.MonthStart | JS/meeting.js:16 | Counting from January, the first of month m is where the month lengths put it. |
| Calendar.SkipMonths | JS/meeting.js:16 | Counting from any month, the whole months before a target month are skipped. |
| Calendar.DaysBeforeYearCounts | JS/meeting.js:16 | The closed day count equals the sum of the year lengths. |
| Calendar.YearsBetweenFirst | JS/meeting.js:16 | A run of years is its first year plus the rest. |
| Calendar.YearStart | JS/meeting.js:16 | Skipping whole years lands on the same day of the later year. |
| Calendar.FirstOfMonth | JS/meeting.js:16 | The day count behind the weekday lands on the first of that month in the calendar the backend uses for instants. |
| Calendar.FirstDay | JS/meeting.js:16 | Day 0 of a month is its first. |
| Calendar.DateFromWithinYear | JS/meeting.js:16 | A count below the year length stays in that year. |
| Calendar.WeekdayAdvance | JS/meeting.js:16-17 | Each month starts on the weekday after its predecessor's last day, across the turn of the year too. |
| Calendar.NewYear | JS/meeting.js:16-17 | January 1 follows the 31 days of December. |
| Calendar.Weekdays2024 | JS/meeting.js:16 | January 2024 starts on a Monday and February 2024 on a Thursday. |
| Calendar.Blanks | JS/meeting.js:39-40 | n empty cells. |
| Calendar.DayCells | JS/meeting.js:43-46 | n day cells. |
| Calendar.DayCellAt | JS/meeting.js:44-46 | The k-th day cell is day k + 1 of the month on show. |
| Calendar.FlattenAppend | JS/meeting.js:37-49 | Adding a row appends its cells to the page's cells. |
| Calendar.RenderCalendar | JS/meeting.js:11-50 | The title is the month name and the year. Exactly 6 rows are emitted. Read in order, the cells are the first weekday's number of blanks, then days 1..length, each exactly once and in increasing order. Row i is `Week` i of those cells: the next seven, or all that are left. So every row is a full week until the month runs out. |
| Calendar.Grid | JS/meeting.js:35-50 | The outer loop: 6 rows, row i being the next min(7, cells left) of the blanks followed by every day of the month. |
| Calendar.DayUnderWeekday | JS/meeting.js:18-50 | In a table laid out by weeks, day d is in row r and column c, where first weekday + d - 1 = 7r + c with c in 0..6. That is under the Sun..Sat header of its weekday. |
| Calendar.FillRow | JS/meeting.js:38-48 | One row of the inner loop. The first row pads with blanks up to the first weekday. Day cells follow while days remain, and the loop breaks once the month is exhausted. The row has exactly min(7(i+1), cells) - min(7i, cells) cells, a full week while seven or more remain. Grid uses `RowIsWeek` to show that it is the table's `Week` i. |
| Calendar.RowIsWeek | JS/meeting.js:36-48 | A row that takes the placed-day count from week i to week i + 1 is exactly week i of the table. |
| Calendar.CellsPrefix | JS/meeting.js:39-46 | The blanks and the first k days are the table's first cells. |
| Calendar.DayCellsPrefix | JS/meeting.js:43-46 | The first n day cells of a longer month are days 1..n. |
| Calendar.CalendarPage.constructor | JS/meeting.js:7-9 | The page opens on today's month, nothing highlighted and no date selected. Its grid is that month drawn as `RenderCalendar` draws it, week by week: row i holds the cells from 7·i on of the leading blanks followed by the month's days. |
| Calendar.CalendarPage.Prev | JS/meeting.js:56-60 | One month back, January wrapping to December of the year before. The month stays in 0..11, the grid is the new month drawn week by week as `RenderCalendar` draws it, the title is drawn afresh, nothing is highlighted and the selected date survives. |
| Calendar.CalendarPage.Next | JS/meeting.js:62-66 | One month forward, December wrapping to January of the next year, with the same week-by-week redraw. |
| Calendar.MonthCountDetermines | JS/meeting.js:56-66 | The month count fixes the month and year, so next after prev, or prev after next, restores the month and year on show. |
| Calendar.CalendarPage.SelectDay | JS/meeting.js:69-76 | After a click on a day, exactly that day is highlighted. The selected date is its `data-date`, the year then the zero-padded month and day. |
| Calendar.SubmitRequest | JS/meeting.js:83-108 | Without a selected date (absent or empty) nothing is sent. Otherwise the body carries name, email, agenda and the date as selected, with empty phone and time. |
| Calendar.SelectedDayAccepted | JS/meeting.js:44 | For a four-digit year, the `data-date` of any day of the month on show passes the server's date check as exactly that day. |
| Calendar.Forwarded | JS/meeting.js:89-106 | A non-empty selected date reaches the backend unchanged. |
| Calendar.FormatIsIso | JS/meeting.js:44 | For a four-digit year the `data-date` text is the ISO date. |
| Calendar.FormatDate | JS/meeting.js:44 | The `data-date` text starts with the year as `String(year)` writes it. For a day below 100 it ends in `-MM-DD`, where the two-digit month reads as month + 1 and the two-digit day reads as the day. |
| Calendar.ShortYearRefused | JS/meeting.js:44 | A year below 1000 is written unpadded, and the server refuses the date. |

## Left out

- Network, email and the database driver are left out. Notices are modelled only as the jobs scheduled (`Job`); store errors are a boolean parameter of each insert. The driver's one visible effect on data, flooring every `datetime` to the millisecond of a BSON date, is modelled (`BsonTime`).
- bcrypt and JWT are symbolic. `Hash(p)` is verified only by `p`, a token is the pair (subject, expiry), and decoding is a function parameter. The secret, the algorithm and the 60-minute lifetime are only modelled as "expires after now".
- The Pydantic `EmailStr` normalisation and FastAPI's 422 validation of request bodies run before the handlers. The model starts from the validated strings.
- Concurrency is not modelled: two requests interleaving between the duplicate lookup and the insert. The unique indexes are modelled as the store's refusal, so the duplicate-key paths exist, but a sequential run never reaches them.
- The attempt counter lives in one process's memory. Several server processes, each with its own counter, are not modelled.
- `utils.py` has its password and token helpers commented out. The helpers the routes import are not part of this model and stand as the symbolic `Hash`, `Verify` and `CreateAccessToken`.
- Environment variables are taken as strings: `ADMIN_USERNAME`, `ADMIN_PASSWORD` and the operator address. A missing variable (`None`) is not modelled.
- Store.IdString: ids are unbounded naturals, and the store never bounds them. An ObjectId holds 12 bytes, so an id from 16^24 on would keep only its last 24 hex digits; `ObjectIdRoundTrip` is stated for ids below that bound.
- Store.ParseObjectId: models ObjectId validity as the 24-hex-digit text form. The bson constructor's own parsing is not part of this model, so any text it accepts beyond that form is not captured.
- Common.Lower: models ASCII lower-casing only, because Python's full Unicode case mapping is out of scope. Whitespace for `strip` is the full `str.isspace` set.
- Meeting.ParseDate: accepts only ASCII digits, where CPython's `\d` would also take other Unicode decimal digits. Years stop at 9999, as in `datetime`.
- Calendar: the browser's local time zone, which decides "today", is a parameter of the page's constructor. Rendering to HTML is left out; cells are values (`Blank`, `Day(year, month, date)`), and `DataDate` computes their `data-date` text.
- Calendar.FirstWeekday: for years 0..99, `new Date(year, month)` means 1900 + year, while `data-date` prints the raw year. The model follows both behaviours; `WeekdayAdvance` is stated for years from 100 on.
- Calendar.SubmitRequest: the page also sends `phone` and `time`, always empty. The backend model of a meeting has no such fields and drops them (`Received`).
- Common.DateOf: time is a natural number of microseconds from 0001-01-01. In `Audit.Submit`, an instant within 24 hours of that start makes the cutoff fall before the first representable date; Python raises there, and the model gives the uncaught 500.
