# Account table and HWID binding, modelled in Dafny

This project models the account core of a game launcher's web back end.
It proves properties of that model. The core has these parts:

- **The JSON-file server** (`api/server.js`). It keeps a `users` array and
  a `nextUid` counter. It offers register, login, profile update, HWID
  reset, launcher verify and next-uid. A successful login binds the
  account to the first hardware id (HWID) it sees. Only the first 32 hex
  characters of the HWID's SHA-256 digest are stored.
- **The PostgreSQL server** (`api/server-postgres.js`). It has the same
  routes over a `users` table. It adds:
  - a uid sequence;
  - first-user-is-admin;
  - a ban flag checked before the password;
  - a 16-character nickname limit;
  - an admin console (list, set role, ban, delete) that re-authenticates
    the caller and protects admin targets;
  - a best-effort `audit_log`.
- **The hybrid server** (`website2/api/server.js`). It is the same
  PostgreSQL server behind a `usePostgres` switch. It has six roles and no
  audit log.
- **The JWT router** (`routes/auth.js`). It offers register with
  server-side bot checks and a global rate limit, login by email, and
  token verification.
- **The registration form** (`auth.js`). It keeps interaction counters
  and computes a bot score. Its submit guard checks the honeypot, then the
  math captcha, then the score.
- **Page texts** (`translations.js`). It walks a dotted key through the
  nested translation table and looks up prices.

How the model is built:

- Each server is a `class`. Its `seq` fields are the tables, plus the
  counter or sequence and the audit log. Each route is a `method` that
  updates them.
- Every method is specified against functions on the old state. Each
  server class keeps a table invariant, `TableValid`:
  - uids are distinct, increasing in table order and below the counter;
  - emails are distinct;
  - nicknames are distinct ignoring case;
  - a bound HWID is a 32-character hash.
- The reads and decisions shared by the two PostgreSQL servers are
  functions in `PgTable`. The classes apply the writes.
- Hash functions are constructor parameters: SHA-256, bcrypt, and JWT
  signing and decoding. A password matches when `hash(password)` equals
  the stored hash.
- The clock is an integer parameter `now`.
- A request field that is absent is the empty string. This matches how
  JavaScript treats `undefined` and `""` in a test.
- An answer is `Reply`:
  - `Ok(body)`;
  - `Fail(status, why)`;
  - `Silent`, for the hybrid server's handlers that send nothing without
    a database.

## Model

| member | source | states |
|---|---|---|
| Common.FirstIndex | api/server.js:57 | `find` / `rows[0]`: the index of the first element passing the test, where no earlier element passes; None exactly when no element passes |
| Text.Lower | api/server.js:37 | `toLowerCase` on ASCII: same length, each letter A–Z lowered, every other character kept |
| Text.LowerIdempotent | api/server.js:94 | lowering twice is lowering once, so a stored nickname compares with itself ignoring case |
| Text.ParseIntNaN | api/server.js:56 | `parseInt` without a radix: NaN (None) exactly when no digit follows the leading white space and one sign, or when "0x" is followed by no hexadecimal digit; a number read after "-" is never positive, any other never negative |
| Text.ParseIntDigits | api/server.js:56 | text that starts with a digit, and not with "0x", parses as the value of its leading decimal digits |
| Text.DecimalValue | api/server.js:87 | the decimal numeral of n reads back as n |
| Text.ParseIntDecimal | api/server.js:87 | `parseInt` of a uid's numeral, followed by any non-digit text, gives back that uid; the one exception is "0" followed by "x", which starts a hexadecimal numeral |
| Text.NotNaNParses | api/server-postgres.js:125 | for a non-blank string that `isNaN` accepts, `parseInt` is NaN exactly when the numeral starts, after its sign, with the point or with "Infinity" (".5", "-.5", "Infinity"); every other such string reaches the login query as a number |
| Text.Utf16Length | api/server.js:33 | `length` counts UTF-16 code units: at least one and at most two per character |
| Text.Utf16LengthConcat | api/server.js:33 | the length of a concatenation is the sum of the lengths |
| Text.Utf16LengthBasic | api/server.js:33 | text inside the Basic Multilingual Plane has exactly one code unit per character |
| Text.Split | translations.js:263 | `split('.')` yields at least one part, and no part contains the separator |
| Text.JoinSplit | translations.js:263 | joining the parts of a split gives back the key |
| Text.SplitJoin | translations.js:263 | splitting a join of separator-free parts gives back the parts |
| Text.SplitCount | routes/auth.js:158 | a split has a second part exactly when the separator occurs |
| Text.SecondWord | routes/auth.js:158 | `header.split(' ')[1]` exists exactly when the header contains a space |
| Hwid.HashHwid | api/server-postgres.js:36-38 | hashHwid is a 32-character lowercase hex string and a prefix of the SHA-256 hex digest |
| Hwid.LoginHwidStep | api/server-postgres.js:145-153 | it rejects iff an HWID is supplied, one is bound, and they differ; it binds iff one is supplied and none is bound, and then binds hashHwid of it; otherwise it leaves the binding alone |
| Hwid.AfterStep | api/server-postgres.js:150-152 | a bound HWID never changes; any change is the binding of the step's hash |
| Hwid.LoginAndVerifyAgree | api/server-postgres.js:197-201 | login and verify refuse exactly the same HWIDs |
| Hwid.BindingIsOneShot | api/server.js:63-67 | after a first binding, a second HWID is refused iff its hash differs; the binding never changes afterwards |
| JsonServer.NewUser | api/server.js:40-44 | the new record has the given uid, email, nickname and password hash; hwid null, 0 sessions, no last login, 0 play time |
| JsonServer.LoadedNextUid | api/server.js:16-23 | a stored counter is kept; a missing one becomes the number of users + 1 |
| JsonServer.SaveLoadKeepsCounter | api/server.js:21 | a valid table that is saved and loaded again keeps its counter |
| JsonServer.LoadedTableValid | api/server.js:16-23 | a loaded file gives a valid table when its records are well formed with increasing uids and either its stored counter is positive and above every uid, or there is no counter and the uids are 1, 2, …, n |
| JsonServer.LoadedCounterCollides | api/server.js:21 | without a stored counter, uids 2 and 3 give the counter 3, a uid already in use |
| JsonServer.ReplaceKeepsValid | api/server.js:66-100 | replacing a record with one of the same uid and email, a nickname no other record holds, and a well-formed HWID keeps the table valid |
| JsonServer.OwnNicknameUnique | api/server.js:37 | in a valid table no other record shares a record's nickname, ignoring case |
| JsonServer.FindLogin | api/server.js:57 | the first record whose uid equals `parseInt(id)`, whose email equals `id`, or whose nickname equals `id` exactly: it matches and no earlier record does; None iff no record matches |
| JsonServer.FindUid | api/server.js:87 | the record whose uid equals `parseInt(uid)`; None iff none does (NaN matches nothing) |
| JsonServer.AfterLogin | api/server.js:63-70 | after a login: one more session, last login stamped, HWID as the step says; uid, email, nickname and password unchanged |
| JsonServer.JsonDb.Create | api/server.js:17-19 | a missing file starts as no users and counter 1 |
| JsonServer.JsonDb.Load | api/server.js:20-22 | a loaded file keeps its users, and its counter as `LoadedNextUid` says; the server is valid whenever the file is `Loadable` |
| JsonServer.JsonDb.Updated | api/server.js:93-101 | an update never changes uid, email, HWID, sessions, creation time, last login or play time; it renames only for a non-empty, different nickname; a new password of 6 or more UTF-16 code units always replaces the hash, and the hash changes in no other way |
| JsonServer.JsonDb.Register | api/server.js:30-48 | 400 for a missing field, then for a password under 6 UTF-16 code units, then for a taken email, then for a nickname taken ignoring case, each with nothing changed; otherwise it appends exactly `NewUser(old nextUid, …)`, answers that uid, increments the counter by 1 and keeps the table valid |
| JsonServer.JsonDb.Login | api/server.js:51-73 | 400 for missing fields; 401 for an unknown identifier; 401 for a wrong password; 403 for an HWID mismatch; no failure changes anything; success replaces only the matched record, by `AfterLogin`, and the counter is untouched |
| JsonServer.JsonDb.Update | api/server.js:84-104 | 404 for an unknown uid, 401 for a wrong password, and 400 when another uid holds the new nickname ignoring case, each with no change; otherwise only that record becomes `Updated(…)`, and the table stays valid |
| JsonServer.JsonDb.ResetHwid | api/server.js:107-119 | 404 for an unknown uid and 401 for a wrong password, each with no change; otherwise only that record's hwid becomes null |
| JsonServer.JsonDb.Verify | api/server.js:122-133 | read-only: 401 for an unknown uid; 403 exactly when `VerifyRejects`; otherwise the nickname |
| JsonServer.JsonDb.NextUid | api/server.js:136-139 | the counter, which is at least 1 and above every uid in use |
| PgTable.ParseRole | website2/api/server.js:333-335 | a role field is accepted exactly when it is one of the six role names, and it names that role |
| PgTable.ParseRoleName | website2/api/server.js:333 | every role's stored name parses back to that role |
| PgTable.IntParamDecimal | api/server-postgres.js:184 | the numeral of any uid up to 2^31 - 1 reaches the query as that uid |
| PgTable.LoginKey | api/server-postgres.js:125 | the login query's uid parameter is -1 when `isNaN(uid)`, otherwise `parseInt(uid)` |
| PgTable.LoginKeyNumeral | api/server-postgres.js:125 | a uid typed as its numeral reaches the login query as that uid |
| PgTable.LoginKeyWord | api/server-postgres.js:125 | an identifier that is not a number, such as "alice", reaches the query as -1 |
| PgTable.LoginKeyFraction | api/server-postgres.js:125 | ".5" is a number for `isNaN` but NaN for `parseInt`, so the query fails |
| PgTable.LoginKeyHex | api/server-postgres.js:125 | "0x1F" reaches the query as 31 |
| PgTable.ReplaceKeepsValid | api/server-postgres.js:151-159 | replacing a row with one of the same uid and email, a nickname no other row holds, and a well-formed HWID keeps the table valid |
| PgTable.OwnNicknameUnique | api/server-postgres.js:69 | in a valid table no other row shares a row's nickname, ignoring case |
| PgTable.RetouchKeepsValid | api/server-postgres.js:281 | changing a row's role, ban flag, password or HWID binding keeps the table valid |
| PgTable.RemoveKeepsValid | api/server-postgres.js:422 | removing one row keeps the table valid |
| PgTable.RowOf | api/server-postgres.js:182-185 | the row whose uid is the key; None iff no row has it |
| PgTable.LoginRow | api/server-postgres.js:122-132 | the first row matching uid, email, or nickname ignoring case; None iff no row matches |
| PgTable.MaxUid | api/server-postgres.js:292 | `COALESCE(MAX(uid), 0)`: at least every uid, 0 for an empty table, and otherwise some row's uid |
| PgTable.Listing | api/server-postgres.js:319-322 | the listing has one summary per row, in table order, without password hash or HWID |
| PgTable.ListingAscending | api/server-postgres.js:319-322 | in a valid table the admin listing is strictly ascending by uid |
| PgTable.MaxUidBelowSerial | api/server-postgres.js:292 | max uid + 1 never exceeds the sequence's next value |
| PgTable.RegisterInputError | api/server-postgres.js:56-64 | the request passes iff every field is present, the password has at least 6 UTF-16 code units and the nickname at most 16; missing fields are reported first |
| PgTable.RegisterConflict | api/server-postgres.js:68-82 | no conflict iff neither the email nor the nickname (ignoring case) is in use; "email taken" exactly when the first conflicting row holds the email; a reported email or nickname conflict really exists |
| PgTable.NewAccountRole | api/server-postgres.js:88-96 | the new account is admin iff the table is empty, and user otherwise |
| PgTable.NewAccount | api/server-postgres.js:92-97 | the new row is not banned, has no HWID, 0 sessions and no last login, and has the given uid, email, nickname, hash and role |
| PgTable.AppendKeepsValid | api/server-postgres.js:92-97 | inserting a non-conflicting row with the sequence's value keeps the table valid with the sequence advanced |
| PgTable.AccountLogin | api/server-postgres.js:134-153 | on the matched row: banned gives 403 before any password check; then a wrong password gives 401; then the HWID is refused (403) exactly when `VerifyRejects`; success carries the HWID step |
| PgTable.LoginDecision | api/server-postgres.js:116-153 | login order: an unusable uid parameter gives 500; no matching row gives 401; otherwise the first matching row's `AccountLogin` |
| PgTable.BannedCannotLogIn | api/server-postgres.js:134-136 | a banned matched account is refused with 403, whatever password and HWID it offers |
| PgTable.AfterLogin | api/server-postgres.js:145-159 | after a login: one more session, last login stamped, HWID bound only if it was unbound; identity, role, ban flag and password unchanged |
| PgTable.VerifyAnswer | api/server-postgres.js:178-213 | verify: 500 for an unusable uid; 401 for an unknown uid; then 403 if banned; then 403 for a mismatching bound HWID; it is valid exactly otherwise and gives the nickname and role; an unbound account accepts any HWID |
| PgTable.VerifyAfterLogin | api/server-postgres.js:145-208 | an unbanned account that just logged in verifies with the same HWID |
| PgTable.OwnerDecision | api/server-postgres.js:220-234 | update and reset-hwid: 500 for an unusable uid, 404 for an unknown one, 401 for a wrong password; otherwise the owner's row |
| PgTable.AdminDecision | api/server-postgres.js:305-317 | the admin check: 403 unless the caller exists with role admin, then 401 unless the password matches; success means an admin whose password matched |
| PgTable.TargetDecision | api/server-postgres.js:383-386 | ban and delete refuse an existing admin target with 400; a missing target passes; a target that passes is never an admin |
| PgTable.AdminTargetsAreImmune | api/server-postgres.js:417-420 | in a valid table every admin's uid is refused as a target |
| PgTable.Revised | api/server-postgres.js:236-252 | an update never changes uid, email, role, ban flag, HWID, sessions, creation time, last login or play time; a non-empty nickname replaces the old one; the hash changes exactly to the hash of a new password of 6 or more UTF-16 code units |
| PgTable.SetRoleOf | api/server-postgres.js:354 | `UPDATE … SET role`: only rows with the target uid change, and only in their role |
| PgTable.SetBannedOf | api/server-postgres.js:388 | `UPDATE … SET banned`: only rows with the target uid change, and only in their ban flag |
| PgTable.DeleteUidRows | api/server-postgres.js:422 | `DELETE … WHERE uid`: exactly the rows with another uid remain |
| PgTable.DeleteAbsent | website2/api/server.js:421 | deleting a uid that no row has changes nothing |
| PgTable.DeleteRow | api/server-postgres.js:422 | in uid order, deleting an existing uid removes exactly its row |
| PgTable.DeleteKeepsValid | api/server-postgres.js:422 | a deletion keeps the table valid |
| PgTable.SetRoleKeepsValid | api/server-postgres.js:354 | a role change keeps the table valid |
| PgTable.SetBannedKeepsValid | api/server-postgres.js:388 | a ban or unban keeps the table valid |
| PgTable.BanSparesAdmins | api/server-postgres.js:383-388 | when the target check passes, banning leaves every admin row exactly as it was |
| PgTable.DeleteSparesAdmins | api/server-postgres.js:417-422 | when the target check passes, every admin row survives the deletion |
| PgServer.Server.constructor | api/server-postgres.js:16-23 | a fresh database has no users, the sequence at 1 and an empty audit log |
| PgServer.Server.LogAdminAction | api/server-postgres.js:41-50 | appends one audit entry (actor, action, target, details), or none when the insert fails; the caller goes on either way |
| PgServer.Server.Register | api/server-postgres.js:53-110 | a request error, then a conflict, gives 400 with nothing changed; otherwise it inserts `NewAccount` with the sequence's value and `NewAccountRole`, advances the sequence, keeps the table valid, and answers uid, nickname and role |
| PgServer.Server.Login | api/server-postgres.js:113-175 | 400 for missing fields; otherwise it answers as `LoginDecision`; no failure changes anything; success changes only the matched row, by `AfterLogin`, and answers the new session count |
| PgServer.Server.Verify | api/server-postgres.js:178-213 | read-only; its answer is `VerifyAnswer` |
| PgServer.Server.Update | api/server-postgres.js:216-260 | the `OwnerDecision` failures; then 400, with nothing written, when another uid holds the new nickname; otherwise only the owner's row becomes `Revised(…)`, and the answer is the stored nickname |
| PgServer.Server.ResetHwid | api/server-postgres.js:263-287 | the `OwnerDecision` failures with no change; otherwise only the owner's HWID becomes null |
| PgServer.Server.NextUid | api/server-postgres.js:290-298 | as written, one more than the largest uid: above every uid, 1 for an empty table |
| PgServer.NextUidMisses | api/server-postgres.js:290-298 | with accounts 1 and 2 and account 2 deleted, the route announces 2 while the sequence stands at 3 |
| PgServer.Server.UpcomingUid | api/server.js:136-139 | corrected next-uid: the sequence's next value, the uid the next registration receives, above every uid in use |
| PgServer.Server.AdminUsers | api/server-postgres.js:301-329 | read-only: the `AdminDecision` failures; otherwise every account in ascending uid order |
| PgServer.Server.SetRole | api/server-postgres.js:332-362 | 400 for a role other than user or admin, before any lookup; then the `AdminDecision` failures; otherwise the role is set and one audit entry "Role changed to …" is added if stored; failures change nothing |
| PgServer.Server.Ban | api/server-postgres.js:365-396 | the `AdminDecision` failures, then the `TargetDecision` refusal; otherwise the flag is set and a BAN or UNBAN entry added if stored; no admin row ever changes |
| PgServer.Server.Delete | api/server-postgres.js:399-430 | the `AdminDecision` failures, then the `TargetDecision` refusal; otherwise the uid's row is deleted and a DELETE entry added if stored; every admin row survives |
| HybridServer.Server.constructor | website2/api/server.js:24-32 | an empty table with the sequence at 1, and the database switch fixed |
| HybridServer.Server.Register | website2/api/server.js:45-100 | the request checks run even without a database, which then answers nothing; with a database it behaves as the PostgreSQL register; the table changes only on success |
| HybridServer.Server.Login | website2/api/server.js:103-163 | 400 for missing fields; no answer without a database; otherwise it answers as `LoginDecision`, and success changes only the matched row, by `AfterLogin` |
| HybridServer.Server.Verify | website2/api/server.js:166-203 | no answer without a database; otherwise `VerifyAnswer`, read-only |
| HybridServer.Server.Update | website2/api/server.js:206-250 | as the PostgreSQL update; it reports success even when a short new password is ignored |
| HybridServer.Server.ResetHwid | website2/api/server.js:253-279 | the HWID is cleared only after the owner check passes; 404 or 401 otherwise, with no change |
| HybridServer.Server.NextUid | website2/api/server.js:282-294 | max uid + 1 (1 for an empty table), or 1 without a database |
| HybridServer.Server.AdminUsers | website2/api/server.js:297-327 | read-only: the admin check, then every account in ascending uid order |
| HybridServer.Server.SetRole | website2/api/server.js:330-360 | 400 unless the role is one of the six, before the database switch and any lookup; then the admin check; then the role is set, with no audit log |
| HybridServer.Server.Ban | website2/api/server.js:363-394 | an admin target is refused with 400; a missing target is a successful no-op; no admin row ever changes |
| HybridServer.Server.Delete | website2/api/server.js:397-428 | an admin target is refused with 400; deleting a missing target changes nothing; every admin row survives |
| JwtAuth.BehaviorError | routes/auth.js:23-40 | the bot checks in order: a score above 60, then under 5000 ms, then fewer than 5 mouse movements and fewer than 10 keystrokes; a missing value passes its check |
| JwtAuth.EmptyReportPasses | routes/auth.js:23-40 | a report with no fields passes every bot check |
| JwtAuth.RecentCount | routes/auth.js:46-53 | the number of accounts created in the last hour from any address |
| JwtAuth.DuplicateError | routes/auth.js:56-69 | no error iff neither email nor username is in use, both compared exactly; "email registered" exactly when the first row the query selects holds the email, so an account holding both the email and the username reports the email; a reported conflict really exists |
| JwtAuth.AppendKeepsValid | routes/auth.js:75-78 | inserting a non-conflicting account with the sequence's id keeps the table valid |
| JwtAuth.RegisterRefusal | routes/auth.js:9-78 | the refusal order is 400 missing fields, then 400 for a password under 6 UTF-16 code units, then the bot check's own 400 (only with a report), then 429 for more than 5 recent accounts, then 400 with the duplicate's reason, then 500 when a value is wider than its column; each answer is stated for the case where every earlier check passes, and registration goes ahead exactly when none applies |
| JwtAuth.Router.constructor | database/db.js:11-19 | an empty table with the id sequence at 1 |
| JwtAuth.Router.Register | routes/auth.js:9-102 | any refusal leaves the table unchanged, and every refusal except the 500 leaves the id sequence too, while the 500 for an over-wide value consumes one id; otherwise it appends one account with the next id, the bcrypt hash and subscription "none", and answers a token signed for it; a success saw at most 5 recent accounts |
| JwtAuth.Router.Login | routes/auth.js:105-153 | read-only: 400 for missing fields; the same 400 "invalid credentials" for an unknown email and for a wrong password; success iff the first account with that email has that password, and then its token and profile |
| JwtAuth.Router.Verify | routes/auth.js:156-179 | read-only: 401 with no token; 401 when the token does not decode; 404 when its user is gone; otherwise that user's profile |
| BotScore.TimePenaltyAntitone | auth.js:50-51 | more time on the form never costs more points |
| BotScore.MousePenaltyAntitone | auth.js:54-55 | more mouse movement never costs more points |
| BotScore.Score | auth.js:45-67 | the score lies in 0..135; it is 0 iff every threshold is met; under 5 seconds, or with little mouse and keyboard use, it is at least 50 |
| BotScore.ScoreAntitone | auth.js:45-67 | more time, movement, typing, focus or fields never raise the score |
| BotScore.RegisterForm.constructor | auth.js:3-10 | the counters start at 0 and the filled-field set empty |
| BotScore.RegisterForm.GenerateCaptcha | auth.js:12-17 | the answer is n1 + n2, with both drawn from 1..10 |
| BotScore.RegisterForm.StartTracking | auth.js:20-21 | the clock starts; the counters are untouched |
| BotScore.RegisterForm.MouseMove | auth.js:24-26 | one more mouse movement |
| BotScore.RegisterForm.KeyDown | auth.js:31-33 | one more keystroke |
| BotScore.RegisterForm.Focus | auth.js:35-37 | one more focus change |
| BotScore.RegisterForm.Input | auth.js:39-41 | the field joins the set; repeated input on the same field leaves its size unchanged |
| BotScore.RegisterForm.CurrentScore | auth.js:45-67 | the score of the current counters at a given time, within 0..135 |
| BotScore.RegisterForm.Submit | auth.js:128-188 | a filled honeypot, and only that, stops everything with no change; otherwise a wrong captcha, and only that, draws a new question; then a score above 60 draws one and resets every counter and the clock; the form is sent exactly when the honeypot is empty, the captcha is right and the score is at most 60, with the report of the current counters |
| BotScore.SentReportsAreNotSuspicious | routes/auth.js:27-30 | the server never calls a report the form sent suspicious |
| BotScore.FastHumanPassesBrowserOnly | routes/auth.js:33-35 | a form filled in under 5 s with full interaction scores 50, so the browser sends it, and the server refuses it as too fast |
| BotScore.IdleHumanPassesBrowserOnly | routes/auth.js:37-39 | a slow form with no mouse or keyboard use scores 50, so the browser sends it, and the server refuses it as unusual |
| BotScore.ServerOnlyRefusesForItsOwnChecks | routes/auth.js:23-40 | when the server refuses a form-sent report, it is for the timing or the activity check, and the score was at least 50 |
| Translations.IndexKey | translations.js:267 | a string's property key is an index only when it is a canonical numeral below its length |
| Translations.CanonicalNumeral | translations.js:267 | a digit string with no leading zero is the numeral of its value |
| Translations.FirstDigitBound | translations.js:267 | a numeral not starting with 0 is at least 1 |
| Translations.Get | translations.js:267 | `value[k]`: an object's own property or undefined; a string's length in UTF-16 code units; undefined on a number |
| Translations.Walk | translations.js:264-271 | a walk that reaches a value over a non-empty path reaches a truthy one; it throws only by reading through undefined |
| Translations.WalkFollowsPath | translations.js:266-269 | a walk that succeeds found an own, truthy property at the first step and went on from there |
| Translations.WalkConcat | translations.js:266-269 | walking `a + b` is walking `a` and then `b` from where it ended |
| Translations.TruthyWalkNeverThrows | translations.js:266-269 | a walk from a truthy value never throws |
| Translations.DefaultLanguageIsEnglish | translations.js:253-255 | storing the language in use changes nothing, and with nothing stored every key walks exactly as in the English table |
| Translations.DefaultCurrencyIsEuro | translations.js:257-259 | with nothing stored every price and the symbol are the euro's, and storing the currency in use changes nothing |
| Translations.Translate | translations.js:261-272 | the loop returns the value at the path when every segment exists and is truthy, the key itself when one is missing or falsy, and throws (None) exactly when the language has no table |
| Translations.PriceOf | translations.js:274-277 | `prices[currency][plan]`: it throws exactly for an unknown currency; an unknown plan is undefined |
| Translations.CurrencySymbol | translations.js:279-282 | it throws exactly for an unknown currency; otherwise a one-character symbol |
| Translations.PriceExamples | translations.js:236-251 | EUR days30 is 8 (also by default); RUB lifetime is 4699; the symbols are € and ₽; USD throws |
| Translations.WalkExamples | translations.js:261-272 | a full path gives its string; a prefix path gives the sub-object; a missing segment gives the key; an unknown language throws |

## Left out

- Transport: Express routing, CORS, static files, the health and catch-all routes, and the HTTP plumbing. Answers are `Reply` values.
- Libraries: SHA-256, bcrypt and JWT are uninterpreted parameters. bcrypt's salting and cost are not modelled. Neither is `crypto` or `bcrypt` throwing on a missing field, which would be a 500 where the model compares the hash of "".
- Storage: database and file errors are not modelled, apart from two refusals PostgreSQL is certain to make: the query with an unusable uid parameter, and the JWT INSERT of a value wider than its column (which still consumes an id from the sequence). Among those left out are the next-uid routes' catch that answers 1 and the JSON server's read-modify-write race: each handler is one atomic step.
- The uid sequence: its 32-bit overflow is not modelled. `serial` grows without bound.
- Hybrid start-up: `usePostgres` is fixed at construction. The model does not capture it being set later by the connection test's callback (website2/api/server.js:24-32).
- Hybrid set-role: an absent `role` field is treated as "" and refused. The source's `includes(undefined)` is false too, so this agrees.
- Text.Lower: case folding is ASCII-only; the source's `toLowerCase` and SQL `LOWER` fold all of Unicode.
- Text.ParseIntNaN: the value read is exact. JavaScript rounds it to a double above 2^53, which only matters far outside the 32-bit range the queries accept and the uids the JSON server hands out.
- Translations.Get: a string index counts characters. JavaScript counts UTF-16 code units, so past a character outside the Basic Multilingual Plane its indices differ, and a Dafny string cannot hold the lone surrogate such an index can return.
- PgTable.LoginRow: a query without ORDER BY returns its rows in an order PostgreSQL leaves unspecified. The model fixes that order to the table order, which is increasing uid, so `rows[0]` is the lowest-uid match. Each login UPDATEs the matched row, so the physical order drifts from uid order. When an identifier matches several rows (uid 5, and another account whose nickname is "5"), the source may check the password against either; the model always takes uid 5.
- PgTable.RegisterConflict: the conflict query has no ORDER BY, so which conflicting row comes first is unspecified. The model takes the lowest-uid one. When the email belongs to one account and the nickname to another, the source may report either.
- JwtAuth.DuplicateError: the duplicate query has no ORDER BY either. The model takes the lowest-id row, so when the email and the username belong to two different accounts it reports the one with the lower id, where the source may report either. An account holding both is reported as "email registered" whatever the order.
- PgTable.LoginDecision: decides on the row `PgTable.LoginRow` picks, so it shares that fixed order.
- Translations: JavaScript prototype properties (such as `toString`) are not modelled. Only a representative part of the string table is included.
- JsonServer: the `GET /api/user/:uid` route (api/server.js:76-81) is a read-only lookup outside the account-table core.
- PgServer.Server.Ban: `banned` is a boolean. The source passes any JSON value to the column, where PostgreSQL casts or refuses it.
- BotScore.RegisterForm.Submit: the clock reading used when the counters are reset is the one the score was taken at. The source reads the clock again a moment later (auth.js:167).
- BotScore.RegisterForm.Submit: the new captcha drawn after the server refuses a sent form (auth.js:203-212) is not modelled; it is outside the guard sequence. Nor is the clearing of the answer field.
- BotScore.RegisterForm.StartTracking: the event listeners that each call adds again are not modelled. Each listener is one method.
- JwtAuth.BehaviorError: request fields are modelled as strings (a missing one as "") and each `behaviorData` value as an integer or absent. JSON `null` and values of other types are not modelled. In the source `null < 5000` is true, so `timeTaken: null` is refused as too fast (routes/auth.js:33), and null `mouseMovements` and `keystrokes` trip the activity check (routes/auth.js:37); the model can only express an absent value, which passes. Likewise a numeric identifier sent as a JSON number never equals an email or nickname under `===` (api/server.js:57), whereas the model's string "5" can.
- JwtAuth: the column defaults are assumed as database/db.js:11-19 declares them: subscription "none", no expiry, and `created_at` as the current time.

## Findings

| source | as written | input that shows it | evidently intended | confidence | as-written member | corrected member |
|---|---|---|---|---|---|---|
| api/server-postgres.js:290-298 | next-uid announces `COALESCE(MAX(uid), 0) + 1`, but registration takes the uid from the SERIAL sequence | register two accounts (uids 1 and 2), delete uid 2: next-uid says 2, the next registration receives 3 | announce the uid the next registration receives, as the JSON server does with its counter (api/server.js:136-139) | medium, not executed | PgServer.Server.NextUid | PgServer.Server.UpcomingUid |
