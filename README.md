# Contacts service: account life cycle, identity resolution and per-user contacts

This project models the core of a FastAPI contacts service in Dafny and proves properties of the model.

- **Accounts.** Users register. An account starts unconfirmed, and one verification mail is queued for it. It becomes confirmed through the email-confirmation endpoint. Login hands out tokens only to confirmed users whose password verifies.
- **Identity resolution.** Every protected endpoint first resolves its bearer token. The token's `sub` claim is looked up as a user's email. Every failure gives the same 401 answer.
- **Contacts.** Each contact belongs to one user. Create, read, update, delete, paging, search and upcoming birthdays all act only on the current user's contacts.

How the source maps onto Dafny:

- **Database.** The session is the class `Repository.Db`. It holds the users table as a map from email to `User` and the contacts table as a sequence of `Contact` rows in table order. It also holds the two id counters.
- **Mail.** A request's background tasks are the class `Models.BackgroundTasks`, whose `tasks` field is the mail queue.
- **Handlers.** Handlers that change state are methods. Their `ensures` clauses give the whole new state and the exact status code and message. Handlers and queries that only read are functions.
- **Password hashing.** This is the value `Models.PasswordContext`, which carries the hash and verify functions. Nothing is assumed about them, except in the end-to-end flow. That flow requires `Sound`: every password verifies against its own hash.
- **JWT decoding.** This is a parameter `jwtDecode: string -> Option<Claims>`. `None` stands for a `JWTError`. An issued token is represented by the claims it carries.
- **Clock.** `date.today()` is the parameter `today`.

Where the code and the intended design of the service differ, the model follows the code:

- Identity resolution checks neither a token kind nor the confirmation flag.
- Login checks the password before the confirmation flag.

Two handlers are modelled twice: once as written and once corrected, for the two defects under "## Findings". The rest of the model uses the corrected handler:

- `request_email`: `Auth.RequestEmailAsWritten` is the code, which raises for an unknown email. `Auth.RequestEmailReply` and the method `Auth.RequestEmail` are corrected.
- `get_upcoming_birthdays`: `Routes.GetUpcomingBirthdaysAsWritten` (with `Routes.BirthdayFilterAsWritten`) is the code, which can select the whole month. `Routes.GetUpcomingBirthdays` (with `Routes.IsUpcomingBirthday`) is corrected.

Modules, one file each:

| module | file | contents |
|---|---|---|
| `Wrappers` | `wrappers.dfy` | `Option` |
| `Http` | `http.dfy` | `HttpError`, `Result` |
| `Models` | `models.dfy` | the records, the `setattr` field model, tokens, mails, `BackgroundTasks`, `PasswordContext` |
| `Seqs` | `seqs.dfy` | `Filter`, standing for a WHERE clause |
| `Like` | `like.dfy` | SQL `ILIKE` |
| `Calendar` | `calendar.dfy` | `date + timedelta` |
| `Repository` | `repository.dfy` | src/repository/repository.py |
| `Dependencies` | `dependencies.dfy` | src/utils/dependencies.py |
| `Auth` | `auth.dfy` | src/routes/auth.py |
| `Routes` | `routes.dfy` | src/routes/routes.py |

## Model

| member | source | states |
|---|---|---|
| `Repository.GetUserByEmail` | src/repository/repository.py:10-23 | the result is a stored user whose email equals the argument, and it is `None` exactly when no stored user has that email |
| `Repository.Confirmed` | src/repository/repository.py:36-38 | after confirmation the same emails are present and that user is confirmed; resetting its flag gives back the old record; every other user is unchanged; no confirmation is lost |
| `Repository.Db.ConfirmedEmail` | src/repository/repository.py:25-38 | requires the user to exist (the code dereferences without a check); the users table becomes `Confirmed(old, email)`, the contacts are unchanged and the store invariant holds |
| `Repository.WithAvatar` | src/repository/repository.py:156 | only that user's avatar changes, to the given URL or `None`; all other fields and users are unchanged; no confirmation is lost |
| `Repository.Db.UpdateAvatarUrl` | src/repository/repository.py:139-159 | an unknown email gives 404 "User not found" and no change; otherwise the table becomes `WithAvatar(old, email, url)` and the updated user is returned |
| `Repository.FindContact` | src/repository/repository.py:74-76 | the position returned is that of the first row whose id and owner both match; `None` means no row matches |
| `Repository.GetContact` | src/repository/repository.py:59-79 | a contact is returned only if it is in the table with that id and owned by the user; `None` exactly when no such row exists |
| `Repository.GetContacts` | src/repository/repository.py:40-57 | at most `limit` contacts, all from the table and owned by `user_id`; the i-th is the (offset+i)-th of the user's contacts; the length is exactly what remains after skipping `offset`, capped at `limit` (also `read_contacts`, src/routes/routes.py:43-63) |
| `Repository.ApplyFields` | src/repository/repository.py:100-101 | the `setattr` loop over the six `ContactCreate` keys leaves the contact holding exactly the given fields, with its id and owner unchanged (also src/routes/routes.py:124-125) |
| `Models.SetAttr` | src/repository/repository.py:101 | `setattr` sets one field to the value and keeps every other field, the id and the owner |
| `Models.NewContact` | src/routes/routes.py:37 | `Contact(**data.dict(), user_id=...)`: its `ContactCreate` part is the data, and it has the given owner and id |
| `Repository.Replaced` | src/repository/repository.py:102 | committing a modified row replaces the row with the same id and keeps every other row and the length; with unique ids it is the table with that one position overwritten, and with no row of that id the table is unchanged |
| `Repository.RemovedOneRow` | src/repository/repository.py:129-130 | with unique ids, deleting a stored row leaves exactly one row fewer |
| `Repository.Db.AddUser` | src/routes/auth.py:51-55 | inserts an unconfirmed user with no avatar and the given fields, under a fresh id; nothing else changes |
| `Repository.Db.AddContact` | src/routes/routes.py:37-40 | appends one row with the given fields, the given owner and an id not used before |
| `Repository.Db.SaveContact` | src/repository/repository.py:102 | the contacts table becomes `Replaced(old, c)`; users are unchanged |
| `Repository.Db.Delete` | src/repository/repository.py:129-130 | the table loses exactly the rows with that id and keeps the rest in order |
| `Repository.Db.UpdateContact` | src/repository/repository.py:81-110 | `None` exactly when the user owns no contact with that id, and then no change; otherwise the returned contact has the new fields with the same id and owner, and only that row is replaced |
| `Repository.Db.DeleteContact` | src/repository/repository.py:112-137 | returns what `get_contact` finds; on `None` nothing changes; otherwise the table is one row shorter and holds every other row |
| `Dependencies.GetCurrentUser` | src/utils/dependencies.py:28-47 | success returns a stored user whose email is the decoded `sub`; every failure is the same 401 "Could not validate credentials" with `WWW-Authenticate: Bearer`; it fails exactly when no stored user's email is the token's subject (undecodable token, missing `sub`, unknown email) |
| `Dependencies.ResolutionIgnoresAccountState` | src/utils/dependencies.py:41-47 | two tables with the same emails resolve a token alike, whatever the confirmation flags; resolution is a function of the store and changes nothing |
| `Auth.Register` | src/routes/auth.py:45-73 | a duplicate email gives 409 "User with this email already exists." and changes neither store nor queue; otherwise exactly one unconfirmed user is added with that email, username and `hash(password)`, under a fresh id; exactly one mail `(email, username, base_url)` is queued; the answer is 201 with bearer tokens for the email and the new user's email, id and username; username length 3 to 50 is required |
| `Auth.Login` | src/routes/auth.py:95-108 | an unknown email or a password that does not verify gives 401 "Incorrect email or password"; a verified password of an unconfirmed user gives 401 "Email not confirmed", and only then; a confirmed user with a verified password gets 200 with access and refresh tokens whose subject is the email, type "bearer" |
| `Auth.LoginHidesUnknownEmails` | src/routes/auth.py:96-100 | an unknown email and a known email with a wrong password get the identical answer |
| `Auth.ConfirmedEmail` | src/routes/auth.py:128-135 | unknown email gives 400 "Verification error" with no change; an already confirmed user gets "Your email is already confirmed" with no write; otherwise "Email confirmed" and the table becomes `Confirmed(old, email)` |
| `Auth.ConfirmTwice` | src/routes/auth.py:132-135 | a second confirmation succeeds with "Your email is already confirmed" rather than failing |
| `Auth.RequestEmailAsWritten` | src/routes/auth.py:161-167 | as written: an unknown email raises (reading `confirmed` of `None`) with no mail; a confirmed user gets "already confirmed" and no mail; an unconfirmed user gets "Check your email for confirmation." and one mail to them |
| `Auth.RequestEmailAsWrittenFailsForUnknownEmail` | src/routes/auth.py:161-163 | for an email with no account the code as written raises |
| `Auth.RequestEmailReply` | src/routes/auth.py:161-167 | corrected: never raises, always 200; a mail is queued exactly for an existing unconfirmed user; "already confirmed" exactly for a confirmed user; agrees with the code wherever that does not raise |
| `Auth.RequestEmailHidesUnknownEmails` | src/routes/auth.py:165-167 | corrected: an unknown email answers like an unconfirmed account |
| `Auth.RequestEmail` | src/routes/auth.py:140-167 | corrected handler: confirmed user: "Your email is already confirmed", nothing queued; unconfirmed user: "Check your email for confirmation." and exactly one mail queued; unknown email: the same message, nothing queued; the store is not modified |
| `Auth.SignUpFlow` | src/routes/auth.py:45-135 | register gives 201, login then fails with "Email not confirmed", confirmation gives "Email confirmed", login then returns the tokens, and registering again gives 409 (the outcomes tests/test_e2e_auth.py:14-53 check; there the repeat registration comes second and confirmation is a direct write of the flag) |
| `Routes.CreateContact` | src/routes/routes.py:37-41 | 201 with exactly one appended row owned by the current user, holding the given fields and a fresh id; users unchanged |
| `Routes.ReadContact` | src/routes/routes.py:85-88 | success exactly when a contact with that id owned by the current user exists, and it is returned; otherwise 404 "Contact not found" |
| `Routes.UpdateContact` | src/routes/routes.py:117-136 | not owned or missing: 404 "Contact not found", no change; failed commit: rollback, 500 "Error update contact", no change; otherwise every input field is written to that row only, with id and owner kept |
| `Routes.DeleteContact` | src/routes/routes.py:180-185 | not owned or missing: 404, nothing removed; otherwise 204, one row fewer, and exactly the rows with that id are gone |
| `Routes.SearchContacts` | src/routes/routes.py:214-224 | a contact is returned exactly when it is in the table, is the current user's, and passes each filter (`None` or empty imposes nothing, otherwise `ILIKE '%term%'`), conjunctively |
| `Routes.SearchIsCaseInsensitiveSubstring` | src/routes/routes.py:216-221 | for terms without `%` or `_`, a contact is found exactly when it is the user's and each term occurs in its field, ignoring case |
| `Like.ILikeContains` | src/routes/routes.py:217 | `field ILIKE '%term%'` for a wildcard-free term holds exactly when the lower-cased term is a substring of the lower-cased field |
| `Like.ContainsPattern` | src/routes/routes.py:217 | `LIKE '%x%'` for wildcard-free `x` holds exactly when `x` occurs in the string |
| `Like.UnderscoreIsWildcard` | src/routes/routes.py:217 | an `_` in a search term is a wildcard: the term `_` admits every non-empty field |
| `Calendar.NextDay` | src/routes/routes.py:243 | the next day is a valid date strictly after the given one: one day later in the month, or day 1 of the next month after the month's last day; the year advances only after 31 December |
| `Calendar.AddDays` | src/routes/routes.py:243 | `today + timedelta(days=n)` is a valid date, strictly later than today for n > 0 |
| `Like.ILike` | src/routes/routes.py:217-221 | `field ILIKE pattern` on ASCII-lower-cased operands; for a pattern without `%` or `_` it holds exactly when the two are equal ignoring case |
| `Calendar.AddDaysShape` | src/routes/routes.py:243 | fewer than 28 days ahead lies in the same month (same day plus n) or in the next month (the overflow past the month's length) |
| `Routes.BirthdayFilterAsWrittenAdmitsWholeMonth` | src/routes/routes.py:242-245 | as written, when today and today + 7 days share a month, every birthday in that month is selected |
| `Routes.BirthdayFilterAsWrittenCounterexample` | src/routes/routes.py:242-245 | as written, on 5 January a birthday on 31 January is selected, though the corrected condition rejects it |
| `Routes.BirthdayFilterAsWrittenAcrossMonths` | src/routes/routes.py:242-245 | when the week crosses into the next month, the condition as written equals the corrected one |
| `Routes.UpcomingBirthdayIsWeekWindow` | src/routes/routes.py:230-245 | corrected: a birthday is selected exactly when its month and day lie between today and today + 7 days, wrapping at the new year |
| `Routes.NextWeekIsUpcoming` | src/routes/routes.py:230-245 | corrected: today and each of the next seven days is selected |
| `Routes.BirthdayFilterAsWritten` | src/routes/routes.py:243-245 | the condition as written: it admits every birthday the corrected condition admits, and only birthdays in today's month or the next |
| `Routes.GetUpcomingBirthdaysAsWritten` | src/routes/routes.py:228-248 | the handler as written: a contact is returned exactly when it is in the table, is the current user's and passes the condition as written; it returns every contact the corrected handler returns |
| `Routes.UpcomingBirthdaysAsWrittenCounterexample` | src/routes/routes.py:242-248 | on 2024-01-05 the handler as written returns the user's contact born on 31 January and the corrected handler does not |
| `Routes.GetUpcomingBirthdays` | src/routes/routes.py:242-248 | corrected handler: a contact is returned exactly when it is in the table, is the current user's and its birthday lies from today to today + 7 days |

## Left out

- Persistence mechanics are not modelled: SQLAlchemy sessions, `commit`, `refresh`, async/await and query building. Each handler is one atomic update of `Db`.
- Row order is fixed by the model. The contacts table is a sequence in insertion order. The source's queries have no ORDER BY, so the database may return rows in any order.
- Database exceptions caught by the `except` blocks of `get_contact`, `update_contact` and `delete_contact` (src/repository/repository.py) are not modelled. The one storage failure modelled is the commit failure of `update_contact_`, as the parameter `commitSucceeds`.
- Repository.Db.ConfirmedEmail: does not count commits. The source commits once; here the whole change is one atomic update.
- Password hashing (src/utils/auth.py) is abstract, because bcrypt is a library: `PasswordContext.hash` and `verify` are arbitrary functions.
- Auth.Register: states that the stored hash is `hash(password)`, but not that it differs from the plaintext. That difference is a property of bcrypt, which is not modelled.
- JWT signing, decoding and expiry are out of scope. src/utils/check.py, which holds token creation and `get_email_from_token`, is not part of this model. A token is represented by its `sub` claim. Decoding is the parameter `jwtDecode`.
- Auth.ConfirmedEmail: takes the email already extracted from the verification token. What `get_email_from_token` does with a bad token is in src/utils/check.py, which is not part of this model.
- Sending mail (src/utils/email.py) is left out because it is SMTP and templating. Only the queued `send_email` task is modelled.
- The avatar upload endpoint (src/routes/users.py) is left out because it calls the Cloudinary service. The repository's `update_avatar_url` is modelled.
- Application start-up, Redis, the rate limiter, CORS and the health check (main.py) are configuration and I/O.
- Migrations are left out because they are schema DDL only.
- Logging is not modelled.
- Pydantic validation is left out because the framework does it. The exception is the username length of 3 to 50, which is a precondition of `Auth.Register`. The email syntax of `EmailStr` and the 422 answers for invalid payloads are not modelled.
- Like.ILike: folds only ASCII letters and has no escape character. Database-specific case folding of other letters, and PostgreSQL's default backslash escape, are not modelled.
- Repository.GetContacts: `limit` and `offset` are natural numbers. SQL dialects treat negative values in different ways, and those cases are not modelled.
- Calendar.ValidDate: does not bound the year to Python's 1 to 9999. The `OverflowError` of adding 7 days to the last representable date is not modelled.

## Findings

| source | as written | input that shows it | evidently intended | confidence | as-written member | corrected member |
|---|---|---|---|---|---|---|
| src/routes/routes.py:242-245 | the "upcoming birthdays" condition `(month == today.month and day >= today.day) or (month == upcoming.month and day <= upcoming.day)` selects the whole month when today and today + 7 days fall in the same month | today 2024-01-05, birthday 31 January (26 days ahead) or 1 January (already past): both selected | birthdays from today up to today + 7 days, as the docstring says | high (not executed) | `Routes.GetUpcomingBirthdaysAsWritten`, `Routes.BirthdayFilterAsWrittenAdmitsWholeMonth`, `Routes.UpcomingBirthdaysAsWrittenCounterexample` | `Routes.GetUpcomingBirthdays`, `Routes.UpcomingBirthdayIsWeekWindow` |
| src/routes/auth.py:161-167 | `request_email` reads `user.confirmed` before its `if user:` check | an email with no account: `None.confirmed` raises `AttributeError`, and the client gets 500 | check for a missing user first; answer "Check your email for confirmation." and queue nothing | high (not executed) | `Auth.RequestEmailAsWritten`, `Auth.RequestEmailAsWrittenFailsForUnknownEmail` | `Auth.RequestEmail`, `Auth.RequestEmailReply`, `Auth.RequestEmailHidesUnknownEmails` |
