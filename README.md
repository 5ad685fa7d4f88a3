# Link-in-bio back office: sessions, admin handlers and the collection job

This project models in Dafny the server-side core of a creator's
"link-in-bio" profile site and its admin back office, where admins manage
users, devotional posts and manually recorded payments:

- **Session store and authentication gate** (`lib/auth.ts`). A process-wide
  map from random tokens to sessions that last 24 hours and expire lazily when
  they are looked up. Credential login creates a session. `getCurrentUser`,
  `requireAuth`, `requireAdmin` and `authMiddleware` decide who may pass.
- **Admin request handlers** for users, devotionals and payments
  (`app/api/admin/*/route.ts`). Each handler validates the request, normalises
  it, and dispatches to the table helpers, mapping every outcome to an HTTP
  status.
- **The collection job** (`app/api/cron/recaudador/route.ts`). It checks a
  bearer secret, then makes one pass over the pending payments. Each payment
  with a recorder id and a positive amount is marked completed; the others
  stay pending and are counted.

How the model is laid out:

- **Session map.** The session map is a class, `Auth.SessionStore`. Each of
  its methods is proved against a function on the map value.
- **Handlers.** Each handler is a function from the request's fields, the
  gate's verdict and the table to the reply and the table afterwards
  (`Http.Outcome`).
- **Collection job.** The job is a method of `Recaudador.PaymentStore`. Its
  loop is proved against functions over the listing it walks, and lemmas
  connect those functions to a description of the whole pass in terms of sets
  (`SettleAll`, `CollectableIds`, `FailedIds`).

The JavaScript built-ins the handlers rely on are modelled in `Text`:

- `trim` (the ECMAScript white-space and line-terminator set);
- `toLowerCase` (ASCII letters only);
- `includes` and `indexOf`;
- `replace` with a string pattern (first occurrence only);
- `parseInt` (leading white space, sign, `0x` prefix, longest digit prefix;
  `None` is `NaN`);
- the decimal rendering of an integer in a template literal.

`Http.Truthy` is JavaScript truthiness of an optional string field.

The storage helpers (`lib/db`, `lib/users-db`) are not part of this model.
Their tables are values here:

- users are a sequence of rows, since look-ups take the first match;
- devotionals and payments are maps keyed by id.

Each helper is given the meaning its callers rely on. Clock readings, random
tokens, and password hashing and verification are parameters. A new user's
id is computed by `UsersDb.NextId`, one past the largest id in the table. A
new devotional's or payment's id is the `freshId` parameter, required to be
unused.

The devotional handlers tell a 401 from a 403 only by reading the text of
the error `requireAdmin` threw (`message.includes('Unauthorized')`, then
`'Forbidden'`; devotionals route.ts:31-36). `AdminDevotionals.CatchStatus`
maps on that text, and `AdminDevotionals.UnauthorizedStatus` /
`ForbiddenStatus` prove that the two messages `requireAdmin` throws land on
401 and 403.

The users PUT handler reads its `id` from the JSON body, where the admin page
sends a number (app/admin/users/page.tsx:145). `AdminUsers.JsonId` models
both a number and a string. A number 0 is falsy and is refused as a missing
id.

## Model

| member | source | states |
|---|---|---|
| Text.Trim | app/api/admin/users/route.ts:87 | the result has no white space at either end, and is the input itself when that is already so |
| Text.TrimEmpty | app/api/admin/users/route.ts:87 | `trim` yields the empty string exactly when the input is all white space |
| Text.TrimSlice | app/api/admin/users/route.ts:87 | the result of `trim` is a slice of its input with only white space before and after it |
| Text.TrimKeeps | app/api/admin/users/route.ts:88 | every character that is not white space survives `trim` |
| Text.TrimIdempotent | app/api/admin/users/route.ts:88 | trimming twice gives what trimming once gives |
| Text.TrimPadded | app/api/cron/recaudador/route.ts:32 | white space added around a string disappears under `trim` |
| Text.ToLower | app/api/admin/users/route.ts:88 | the result has the input's length, each character lower-cased by `LowerChar` |
| Text.LowerChar | app/api/admin/users/route.ts:88 | an ASCII capital becomes the lower-case letter at the same alphabet position; every other character is kept; the result is never a capital |
| Text.LowerCharCollides | app/api/admin/users/route.ts:88 | two characters lower-case alike exactly when they are equal or the same ASCII letter in the other case |
| Text.ToLowerCollides | app/api/admin/users/route.ts:88 | two e-mail strings lower-case alike exactly when they have the same length and agree position by position up to ASCII case |
| Text.ToLowerIdempotent | app/api/admin/users/route.ts:88 | lower-casing twice gives what lower-casing once gives |
| Text.IndexOf | app/api/admin/users/route.ts:72 | the answer is an occurrence of the pattern with none earlier, and `None` means no occurrence at all |
| Text.IncludesChar | app/api/admin/users/route.ts:72 | `s.includes(c)` for a one-character pattern holds exactly when `c` occurs in `s` |
| Text.IncludesAt | app/api/admin/users/route.ts:185 | a pattern occurring at any position is included |
| Text.ExcludesByFirst | app/api/admin/devotionals/route.ts:31 | a pattern whose first character is absent from the text is not included in it |
| Text.ReplaceFirst | app/api/cron/recaudador/route.ts:32 | the string is unchanged when the pattern does not occur; otherwise the length changes by the replacement's less the pattern's, and the replacement is included |
| Text.ReplaceFirstAt | app/api/cron/recaudador/route.ts:32 | when the first occurrence of the pattern is at `i`, the result is the text before `i`, the replacement, then the text after the occurrence |
| Text.ReplaceFirstAbsent | app/api/cron/recaudador/route.ts:32 | `replace` with a pattern that does not occur returns the string unchanged |
| Text.ReplaceFirstPrefix | app/api/cron/recaudador/route.ts:32 | `replace(pat, '')` on a string that starts with `pat` returns the rest |
| Text.ParseInt | app/api/admin/users/route.ts:136 | `NaN` exactly when the digit part after white space, sign and radix prefix is empty |
| Text.NatString | app/api/cron/recaudador/route.ts:59 | a rendered number is non-empty, all digits, and starts with 0 only when it is 0 |
| Text.DecimalString | app/api/cron/recaudador/route.ts:59 | a rendered integer is non-empty and starts with `-` exactly when it is negative |
| Text.NatStringValue | app/api/cron/recaudador/route.ts:59 | the digits rendered for `n` denote `n` |
| Text.ParseIntWhole | app/api/admin/users/route.ts:136 | when the whole digit part is digits, `parseInt` returns its value with the sign that was read |
| Text.ParseIntDecimal | app/api/admin/users/route.ts:136 | `parseInt` reads back every integer rendered in decimal |
| Http.OrUndefined | app/api/admin/users/route.ts:28 | a falsy field becomes undefined; a field is kept exactly when it is truthy, and then unchanged |
| UsersDb.FindById | lib/auth.ts:46 | a found row is in the table with that id; nothing is found exactly when no row has it |
| UsersDb.FindByEmail | lib/auth.ts:66 | a found row is in the table with that e-mail; nothing is found exactly when no row has it |
| UsersDb.GetUserById | lib/auth.ts:46 | the public projection of the row with that id, present exactly when the row is |
| UsersDb.NextId | app/api/admin/users/route.ts:94 | the id given to a new row exceeds every id in the table |
| UsersDb.CreateUser | app/api/admin/users/route.ts:94 | the UNIQUE e-mail constraint fails exactly when the e-mail is taken; otherwise one row is appended, under an unused id, storing the password's hash |
| UsersDb.UpdateWhere | app/api/admin/users/route.ts:161 | the table keeps its length, and only rows with the id are rewritten |
| UsersDb.UpdateUser | app/api/admin/users/route.ts:161-168 | not found exactly when no row has the id; a conflict exactly when another row has the new e-mail; otherwise the row is patched with the present fields |
| UsersDb.Patch | app/api/admin/users/route.ts:161 | each present field replaces its column and each absent one is kept; id and hash are kept, and the timestamps are left as they were |
| UsersDb.UpdateUserPassword | app/api/admin/users/route.ts:178 | only the hash of the row with that id changes, to the hash of the new password; ids and e-mails stay unique |
| UsersDb.DeactivateUser | app/api/admin/users/route.ts:242 | true exactly when the row exists; only that row's status changes, to inactive; nothing changes otherwise; ids and e-mails stay unique |
| UsersDb.DeleteUser | app/api/admin/users/route.ts:233 | true exactly when the row exists; the rows left are exactly those with another id; nothing changes otherwise; ids and e-mails stay unique |
| UsersDb.RemoveId | app/api/admin/users/route.ts:233 | the remaining rows are exactly those with another id |
| UsersDb.CreateUserKeepsWellFormed | app/api/admin/users/route.ts:94 | after an insert, ids and e-mails are still unique |
| UsersDb.UpdateUserKeepsWellFormed | app/api/admin/users/route.ts:161 | after an update, ids and e-mails are still unique |
| Auth.LookupSession | lib/auth.ts:24-32 | a served session is the stored, live one; the entry is removed exactly when it exists and has expired |
| Auth.LookupCookie | lib/auth.ts:94-99 | a falsy cookie finds nothing and changes nothing; otherwise the look-up of its token |
| Auth.CookieToken | lib/auth.ts:94-97 | a token is read exactly when the cookie is truthy |
| Auth.SessionUser | lib/auth.ts:43-46 | a user is found only for a session, and it is the session's user |
| Auth.Admit | lib/auth.ts:104-113 | authenticated exactly when the session's user exists and is active, admin exactly when also of role admin, anonymous otherwise |
| Auth.RequireAuthOf | lib/auth.ts:49-55 | throws exactly when there is no user, with "Unauthorized"; otherwise passes that user |
| Auth.RequireAdminOf | lib/auth.ts:57-63 | passes exactly a user of role admin; no user throws the Unauthorized message, another role the Forbidden one |
| Auth.Credentials | lib/auth.ts:65-68 | succeeds only with the row of that e-mail, active and with a verifying password, and fails exactly when one of those is missing |
| Auth.SessionStore.constructor | lib/auth.ts:15 | the store starts with no sessions |
| Auth.SessionStore.CreateSession | lib/auth.ts:17-22 | the token maps to a session of that user and role expiring 24 hours on; nothing else changes |
| Auth.SessionStore.GetSession | lib/auth.ts:24-32 | answer and new map are those of `LookupSession` on the old map |
| Auth.SessionStore.DeleteSession | lib/auth.ts:34-36 | the token's entry, and only it, is gone |
| Auth.SessionStore.GetCurrentUser | lib/auth.ts:38-47 | the user of the cookie's live session, with the look-up's effect on the map |
| Auth.SessionStore.RequireAuth | lib/auth.ts:49-55 | `RequireAuthOf` of the current user |
| Auth.SessionStore.RequireAdmin | lib/auth.ts:57-63 | `RequireAdminOf` of the current user |
| Auth.SessionStore.Login | lib/auth.ts:65-83 | no session and no result when the credentials fail; otherwise the public user and the fresh token, now mapped to a new session |
| Auth.SessionStore.Logout | lib/auth.ts:85-91 | the cookie's token is deleted when the cookie is truthy; otherwise nothing changes |
| Auth.SessionStore.AuthMiddleware | lib/auth.ts:93-114 | `Admit` of the cookie's look-up, with the look-up's effect on the map |
| Auth.LookupServesOnlyLive | lib/auth.ts:24-32 | a session is served exactly when it is stored and not past expiry, and then as stored with the map unchanged |
| Auth.LookupUnknown | lib/auth.ts:25-26 | an unknown token finds nothing and changes nothing |
| Auth.LookupExpiry | lib/auth.ts:27-30 | served at its expiry instant; one millisecond later absent and removed |
| Auth.LookupKeepsOthers | lib/auth.ts:24-32 | a look-up changes no other token's entry |
| Auth.LookupRepeatable | lib/auth.ts:24-32 | a second look-up at the same instant answers the same and changes nothing |
| Auth.CreateThenLookup | lib/auth.ts:17-32 | a new session is served with its user and role for 24 hours and is gone afterwards |
| Auth.CreateKeepsOthers | lib/auth.ts:17-22 | creating a session changes no other token's entry |
| Auth.DeleteProperties | lib/auth.ts:34-36 | deleting is idempotent, touches no other token, and the token is never found again |
| Auth.MiddlewareChain | lib/auth.ts:93-114 | authenticated exactly when the cookie's token has a live session whose user exists and is active; admin only then |
| Auth.InactiveAdminPassesRequireAdmin | lib/auth.ts:57-63 | `requireAdmin` lets a live session of an inactive admin through, which `authMiddleware` refuses |
| Auth.LoginFailuresAlike | lib/auth.ts:66-68 | unknown e-mail, inactive user and wrong password all give the same empty result |
| Auth.LoginThenMiddleware | lib/auth.ts:65-114 | the token from a login authenticates that user for the next 24 hours while the user stays active, and flags them admin exactly when their row has role admin |
| Auth.LogoutThenMiddleware | lib/auth.ts:85-91 | after logout the gate treats the token as anonymous |
| AdminUsers.CatchStatus | app/api/admin/users/route.ts:100-110 | 409 exactly when the error mentions the UNIQUE e-mail constraint, otherwise 500 |
| AdminUsers.NormalizeEmail | app/api/admin/users/route.ts:88 | the stored e-mail is no longer than the input, has no white space at either end and no ASCII capital |
| AdminUsers.CatchIsConflict | app/api/admin/users/route.ts:100-105 | the constraint's own message maps to 409 |
| AdminUsers.NormalizeEmailProperties | app/api/admin/users/route.ts:88 | normalising an e-mail twice equals once, and an `@` survives normalisation |
| AdminUsers.ListQuery | app/api/admin/users/route.ts:27-38 | search passed exactly when truthy, and then as sent; limit and offset are `parseInt` of the truthy parameter, 100 and 0 by default; role and status passed as sent |
| AdminUsers.List | app/api/admin/users/route.ts:16-48 | 401 exactly for a caller who is not an authenticated admin; otherwise 200 with the query |
| AdminUsers.CreateProblem | app/api/admin/users/route.ts:65-84 | the body passes exactly when name, e-mail and password are truthy, the e-mail has an `@` and the password has at least 6 characters |
| AdminUsers.CreateInput | app/api/admin/users/route.ts:86-92 | name trimmed, e-mail trimmed and lower-cased, role admin only when asked, status inactive only when asked |
| AdminUsers.Create | app/api/admin/users/route.ts:51-112 | 401 at the gate, 400 for a bad body, 409 exactly when the normalised e-mail is taken, 200 whenever none of these holds, with one normalised row appended; no failure writes |
| AdminUsers.ParseId | app/api/admin/users/route.ts:136 | `parseInt` of a numeric id is that number; of a string id, `parseInt` of the string |
| AdminUsers.UpdateProblem | app/api/admin/users/route.ts:129-152 | "User ID is required" exactly for a falsy id; the body passes exactly when the id is truthy, it does not deactivate the caller, and a truthy e-mail has an `@` |
| AdminUsers.UpdateData | app/api/admin/users/route.ts:154-159 | exactly the present fields, the name trimmed and the e-mail normalised |
| AdminUsers.Update | app/api/admin/users/route.ts:115-197 | 401 at the gate; 400 exactly for a bad body or, after the write, a short password; 404 exactly when the id is `NaN` or unknown; 409 exactly when another row has the new e-mail; success otherwise, with the updated user and the table updated, plus the new hash when a password was sent |
| AdminUsers.ShortPasswordAfterUpdate | app/api/admin/users/route.ts:161-177 | a too-short new password is answered 400, yet the other fields are already written |
| AdminUsers.UpdateChecked | app/api/admin/users/route.ts:170-179 | a refused PUT writes nothing; a short password is refused before any write; every other request is answered as `Update` answers it |
| AdminUsers.Remove | app/api/admin/users/route.ts:200-258 | 401 at the gate; 400 for a missing id or the caller's own id; 404 exactly for `NaN` or unknown ids; success otherwise, with a hard delete for `hard=true` and a deactivation otherwise, each with its own message |
| AdminUsers.CreateKeepsWellFormed | app/api/admin/users/route.ts:94 | POST keeps ids and e-mails unique |
| AdminUsers.UpdateKeepsWellFormed | app/api/admin/users/route.ts:161-178 | PUT keeps ids and e-mails unique |
| AdminUsers.RemoveKeepsWellFormed | app/api/admin/users/route.ts:232-249 | DELETE keeps ids and e-mails unique |
| AdminUsers.ZeroIdRequired | app/api/admin/users/route.ts:129-134 | a numeric id of 0 is answered 400 "User ID is required" with no change |
| AdminUsers.GateIsUnauthorizedOnly | app/api/admin/users/route.ts:19-24 | every handler refuses a non-admin with 401 and no change |
| AdminUsers.NoSelfDeactivation | app/api/admin/users/route.ts:138-144 | an admin sending their own id, as a number or in decimal, with status inactive gets 400 and no change |
| AdminUsers.NoSelfDeletion | app/api/admin/users/route.ts:224-230 | an admin sending their own id to DELETE gets 400 and no change, hard or not |
| AdminUsers.EmptyEmailPassesUpdate | app/api/admin/users/route.ts:147-157 | an empty e-mail passes the format check and is still copied into the update |
| AdminDevotionals.CatchStatus | app/api/admin/devotionals/route.ts:30-42 | 401 when the message mentions Unauthorized, else 403 when it mentions Forbidden, else 500 |
| AdminDevotionals.Caught | app/api/admin/devotionals/route.ts:30-42 | the catch arm always fails, with `CatchStatus` of the message |
| AdminDevotionals.UnauthorizedStatus | app/api/admin/devotionals/route.ts:31-33 | the message `requireAdmin` throws without a session maps to 401 |
| AdminDevotionals.ForbiddenStatus | app/api/admin/devotionals/route.ts:34-36 | the message it throws for a non-admin maps to 403 |
| AdminDevotionals.RefusalStatus | app/api/admin/devotionals/route.ts:17 | a caller turned away by `requireAdmin` gets 401 without a user and 403 with one |
| AdminDevotionals.ListQuery | app/api/admin/devotionals/route.ts:22-26 | deleted rows are included exactly for `includeDeleted=true`; status and search passed exactly when truthy, and then as sent |
| AdminDevotionals.List | app/api/admin/devotionals/route.ts:14-43 | a thrown gate maps by `CatchStatus`; otherwise the query |
| AdminDevotionals.Create | app/api/admin/devotionals/route.ts:46-83 | 400 exactly when title, content or date is falsy; otherwise 201 with a new undeleted row with a trimmed title, published only when asked |
| AdminDevotionals.UpdateData | app/api/admin/devotionals/route.ts:108-112 | exactly the present fields, the title trimmed |
| AdminDevotionals.Apply | app/api/admin/devotionals/route.ts:108-114 | each present field replaces its column and each absent one is kept; the id and the deleted mark are kept |
| AdminDevotionals.Update | app/api/admin/devotionals/route.ts:86-129 | 400 for a missing or zero id, 404 for an unknown one, 200 for a known one, with the row patched with the present fields |
| AdminDevotionals.UpdateTouchesOnlyPresentFields | app/api/admin/devotionals/route.ts:108-114 | absent fields, the id, the deleted mark and all other rows are unchanged |
| AdminDevotionals.SoftDelete | app/api/admin/devotionals/route.ts:175 | succeeds exactly on a live row; afterwards that row is deleted, no other mark changes and no other field changes |
| AdminDevotionals.Restore | app/api/admin/devotionals/route.ts:166 | succeeds exactly on a deleted row; afterwards that row is live, no other mark changes and no other field changes |
| AdminDevotionals.Remove | app/api/admin/devotionals/route.ts:132-198 | 400 for a missing or `NaN` id, 404 for an unknown one; restoring a live row is 400 and soft-deleting a deleted one 404; otherwise success: `action=restore` undeletes the row and any other action soft-deletes it |
| AdminDevotionals.HardActionSoftDeletes | app/api/admin/devotionals/route.ts:139-182 | `action=hard` does what no action does: a soft delete |
| AdminDevotionals.RestoreUndoesSoftDelete | app/api/admin/devotionals/route.ts:165-182 | restoring a soft-deleted row gives back the original table |
| AdminPayments.List | app/api/admin/payments/route.ts:13-45 | the summary view exactly for `summary=true`; otherwise the list, each filter passed exactly when truthy, and then as sent |
| AdminPayments.CreateProblem | app/api/admin/payments/route.ts:53-65 | the body passes exactly when recorder id, date and description are truthy and the amount is a number greater than 0 |
| AdminPayments.Create | app/api/admin/payments/route.ts:48-83 | 400 exactly for a bad body; otherwise 201 with a new row whose status is the sent one or `pending` |
| AdminPayments.ZeroAmountRefused | app/api/admin/payments/route.ts:53-58 | an amount of 0 is caught as a missing field |
| AdminPayments.CreateKeepsKeyed | app/api/admin/payments/route.ts:67-73 | every row stays stored under its own id |
| PaymentsDb.Patch | app/api/admin/payments/route.ts:105-112 | each present field replaces its column and each absent one is kept; the id is kept |
| AdminPayments.UpdateData | app/api/admin/payments/route.ts:105-110 | exactly the present fields |
| AdminPayments.Update | app/api/admin/payments/route.ts:86-121 | 400 exactly for a missing or zero id, 404 exactly for an unknown one, otherwise success with the row patched |
| AdminPayments.UpdateTouchesOnlyPresentFields | app/api/admin/payments/route.ts:105-112 | absent fields, the id and all other rows are unchanged |
| AdminPayments.Remove | app/api/admin/payments/route.ts:124-153 | 400 exactly without an id, 404 exactly for `NaN` or an unknown id, otherwise success with that row removed |
| AdminPayments.RemoveListedRow | app/api/admin/payments/route.ts:136-145 | deleting by a row's own id, as rendered, removes exactly that row |
| PaymentsDb.PendingIds | app/api/cron/recaudador/route.ts:120 | exactly the ids of rows with status `pending` |
| PaymentsDb.SetStatus | app/api/cron/recaudador/route.ts:144 | only the row's status changes |
| Recaudador.ValidateCronSecret | app/api/cron/recaudador/route.ts:23-34 | an unset or empty secret or a missing header never passes, and a passing secret has no surrounding white space |
| Recaudador.BearerHeaderAccepted | app/api/cron/recaudador/route.ts:32-33 | `Bearer <secret>` is accepted |
| Recaudador.BareHeaderAccepted | app/api/cron/recaudador/route.ts:32-33 | the bare secret is accepted when it contains no `Bearer ` |
| Recaudador.BearerTokenChecked | app/api/cron/recaudador/route.ts:27-33 | with a secret set, a `Bearer ` header passes exactly when its token, trimmed, is the secret |
| Recaudador.FirstBearerChecked | app/api/cron/recaudador/route.ts:27-33 | with a secret set, a header `a + "Bearer " + b` whose first `Bearer ` is the one after `a` passes exactly when `a + b`, trimmed, is the secret |
| Recaudador.BareTokenChecked | app/api/cron/recaudador/route.ts:27-33 | with a secret set, a header without `Bearer ` passes exactly when, trimmed, it is the secret |
| Recaudador.PaddedHeaderAccepted | app/api/cron/recaudador/route.ts:32-33 | white space around the header's token is ignored |
| Recaudador.FailureMessage | app/api/cron/recaudador/route.ts:59 | an error message is never empty |
| Recaudador.ProcessPayment | app/api/cron/recaudador/route.ts:40-76 | success exactly for a non-empty recorder id and a positive amount; a failure carries the message naming the payment |
| Recaudador.FailureMessageInjective | app/api/cron/recaudador/route.ts:59 | different payments fail with different messages |
| Recaudador.CollectableIds | app/api/cron/recaudador/route.ts:56 | exactly the pending rows `processPayment` accepts |
| Recaudador.FailedIds | app/api/cron/recaudador/route.ts:56-61 | exactly the pending rows `processPayment` refuses |
| Recaudador.Settle | app/api/cron/recaudador/route.ts:142-145 | a row ends completed exactly when it was completed or was pending and collectable; only a pending row's status can change, and nothing else does |
| Recaudador.SettleAll | app/api/cron/recaudador/route.ts:142-155 | the pass keeps every id |
| Recaudador.PendingSplits | app/api/cron/recaudador/route.ts:134-156 | the pending rows split into completed and failed, disjointly, so the counts add up |
| Recaudador.SettleAllChanges | app/api/cron/recaudador/route.ts:142-155 | only collectable pending rows change, and only to completed; failed rows stay pending; others are untouched |
| Recaudador.SecondPassIdle | app/api/cron/recaudador/route.ts:120-156 | after a pass nothing is collectable, the pending rows are the failures, and a second pass changes nothing |
| Recaudador.SettleAllKeyed | app/api/cron/recaudador/route.ts:144 | the pass keeps every row under its own id |
| Recaudador.ApplyPass | app/api/cron/recaudador/route.ts:135-156 | the loop keeps every id |
| Recaudador.CountOk | app/api/cron/recaudador/route.ts:142-145 | no more completions than payments processed |
| Recaudador.Errors | app/api/cron/recaudador/route.ts:147-153 | one error per failed payment |
| Recaudador.PassRows | app/api/cron/recaudador/route.ts:135-156 | after the loop, listed rows are settled and all others untouched |
| Recaudador.PassCounts | app/api/cron/recaudador/route.ts:134-156 | the counters count the listed rows that succeed and that fail |
| Recaudador.PassErrors | app/api/cron/recaudador/route.ts:150-153 | every kept error reports a failed row, and every failed listed row is reported |
| Recaudador.PassStep | app/api/cron/recaudador/route.ts:135-156 | one more iteration updates the row only when `processPayment` succeeds, adds one to `completed` exactly then, and otherwise appends its error |
| Recaudador.ListedIds | app/api/cron/recaudador/route.ts:120 | a complete listing lists exactly the pending rows |
| Recaudador.PassTable | app/api/cron/recaudador/route.ts:134-156 | over a complete listing the loop leaves the settled table |
| Recaudador.PassTotals | app/api/cron/recaudador/route.ts:134-156 | over a complete listing the counters equal the numbers of pending, completed and failed rows |
| Recaudador.PassSettles | app/api/cron/recaudador/route.ts:134-156 | over a complete listing the loop yields the settled table and counts the pending, completed and failed rows |
| Recaudador.PaymentStore.UpdateStatus | app/api/cron/recaudador/route.ts:144 | the table becomes `SetStatus` of the old one |
| Recaudador.PaymentStore.Collect | app/api/cron/recaudador/route.ts:134-156 | the loop leaves the table and counters the functions over the listing describe |
| Recaudador.PaymentStore.Run | app/api/cron/recaudador/route.ts:97-197 | a failed secret check gives 401 with the table untouched; otherwise the table is settled, processed = completed + failed = the pending count, one error per failure, and the no-pending message exactly when nothing was pending |

## Findings

| source | as written | input that shows it | evidently intended | confidence | as-written member | corrected member |
|---|---|---|---|---|---|---|
| app/api/admin/users/route.ts:161-177 | the new password's length is checked only after `updateUser` has written the other fields | PUT with an existing user's id, a new `name` and `password: "abc"`: the reply is 400 and the new name is stored | check the password's length with the rest of the body, so that a 400 leaves the table unchanged | medium, not executed | AdminUsers.ShortPasswordAfterUpdate | AdminUsers.UpdateChecked |

## Left out

- I/O is left out. Nothing models reading cookies and request bodies, building `NextResponse` objects, console logging, `executionTimeMs`, or the ISO timestamp; the timestamp is a parameter.
- Setting and clearing the cookie (`setAuthCookie`, `clearAuthCookie`, lib/auth.ts:116-128) are left out. They only set cookie attributes on a response, and no decision depends on them.
- `lib/db` and `lib/users-db` are not part of this model. Tables are values, and each helper has the meaning its callers rely on.
- The filtering done by `getUsers`, `listDevotionals` and `getAllPayments` is not modelled. The handlers' contracts cover the query they hand over.
- `getPaymentsSummary` and `getPaymentsByMonth` are left out. Their numbers appear only as the `SummaryView` marker, and the summary block of the job's reply is not modelled.
- Concurrency on the shared session map is not modelled. Calls are taken one at a time.
- The 500 arms are modelled only for the unique e-mail constraint and the gate's messages. Storage faults, and the job's fatal-error reply (recaudador route.ts:182-196), are left out.
- Recaudador.PaymentStore.Run: the answer of `getAllPayments({ status: 'pending' })` is the `listing` parameter. Its relation to the table (each pending row once) is a precondition, and its order is left open.
- Recaudador.ProcessPayment: amounts are reals, so a `NaN` amount is not modelled. In the source it would pass the check, since `NaN <= 0` is false. The `catch` arm of `processPayment` is not modelled either: nothing in its `try` throws.
- Recaudador.FailureMessage: the template literal renders the id as an integer. Ids are not floats here.
- AdminPayments.CreateProblem: a string amount `"0"` gets "Missing required fields" here, though the source answers "Amount must be a positive number". Both replies are 400. `AmountValue` does not tell a numeric string from a number.
- AdminPayments.Update: only numeric amounts are modelled. `parseFloat` of a non-numeric string, which would store `NaN`, is not.
- AdminUsers.ParseId: a numeric id is taken to be an integer. `parseInt` of a fractional number, or of one rendered with an exponent, is not modelled.
- AdminDevotionals.Update and AdminPayments.Update: the PATCH `id` is a JSON number. A string id sent in the body is not modelled.
- JSON type errors are not modelled, for example `.trim()` or `.includes` on a field that is not a string, which would throw and give 500. Fields are optional strings, except the users PUT `id` (`AdminUsers.JsonId`) and the numeric fields of the payment bodies. `null` and `undefined` are both `None`, which makes `body.title !== undefined` also false for `null`.
- `toLowerCase` is modelled for ASCII letters only. Password length counts code points, not UTF-16 units.
- Text.ParseInt: the rounding of very long digit strings to a double is not modelled.
- Session tokens are parameters. A token equal to an existing one overwrites that entry, as `Map.set` does; the randomness of `crypto.randomBytes` is not modelled.
- Password hashing and verification are function parameters. Their cryptographic properties are not modelled.
- UsersDb.Patch: `updatedAt` is left as it was. `lib/users-db` is not part of this model, so whether `updateUser` refreshes the timestamp is not modelled.
- `activateUser` is imported by the users route but never called, so it has no model.
