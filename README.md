# Login lockout model of the MOTORPARTS backend

The MOTORPARTS backend is a FastAPI service (`backend/app.py`). It authenticates users
against a local SQLite users table or, when Supabase is configured, forwards the credentials
to Supabase Auth. In both modes it throttles repeated failed logins per email with the
`login_attempts` table.

This project models that table, the row lookup `_get_attempt_row`, and the three helpers
built on it that read and write the table (`is_locked`, `record_failed_attempt`,
`reset_attempts`). It also models
the decision flow of the `/login` handler: the lock check, the local credential check or the
Supabase request, the bookkeeping, and the answer (429, 401, 502 or 200 with a token).

Modules:

- `Settings` (`settings.dfy`): the configuration read from the environment at startup,
  MAX_FAILED_ATTEMPTS, LOCKOUT_SECONDS, ACCESS_TOKEN_EXPIRE_MINUTES and the auth mode, as
  one immutable value; `Defaults` holds 5, 180, 60 and local mode.
- `Lockout` (`lockout.dfy`): the table as a `map<Email, AttemptRecord>`, the lock check, and
  the row transition of a recorded failure, as pure functions, with the lemmas about them.
- `LoginFlow` (`login.dfy`): the outcome of `/login` and the table it leaves, as the
  function `Decide`, with the lemmas about ordering, outcomes and consecutive attempts.
- `Backend` (`backend.dfy`): class `App`, which holds the configuration and the table as a
  field. Its methods update the table in place, step by step, as the handlers do. Each
  method's contract ties the new table (and the answer) to the functions above.
- `Wrappers` (`wrappers.dfy`): `Option`.

Time is an integer count of microseconds. That is the resolution of the ISO-8601 strings
the table stores. So the truncation `int((locked_dt - now).total_seconds())` is modelled as
performed: an email can be locked with 0 seconds reported as remaining.

The user lookup plus bcrypt comparison becomes a `CredentialCheck` verdict (`UnknownEmail`,
`WrongPassword`, `PasswordMatches`). The Supabase request becomes an `UpstreamReply` (200,
another status with its `error_description`/`error` fields, or no answer).

## Model

| member | source | states |
|---|---|---|
| `Lockout.AttemptRow` | backend/app.py:88-94 | the lookup finds a row exactly when the email has one, and returns that row |
| `Lockout.IsLocked` | backend/app.py:97-111 | locked exactly when the row exists with a parseable `locked_until` strictly after `now` (no row, NULL/empty or unparseable `locked_until` all read as unlocked); remaining is then the gap truncated to whole seconds (`remaining*1s <= gap < (remaining+1)*1s`); otherwise remaining is 0 |
| `Lockout.RecordFailure` | backend/app.py:114-130 | first failure inserts 1 attempt with no lock whatever the threshold; reaching the threshold stores 0 attempts and a lock LOCKOUT_SECONDS ahead; otherwise the incremented count with the lock cleared; `last_attempt` becomes `now`; no other email's row changes |
| `Lockout.RecordFailureKeepsRange` | backend/app.py:114-128 | with MAX_FAILED_ATTEMPTS >= 2, every stored count stays in 0..MAX_FAILED_ATTEMPTS-1 across a failure |
| `Lockout.ResetKeepsRange` | backend/app.py:133-138 | deleting a row keeps every stored count in range |
| `Lockout.FailureLocksIffThreshold` | backend/app.py:119-128 | right after a failure the email reads as locked iff that failure reached the threshold on an existing row (and LOCKOUT_SECONDS > 0), and then exactly LOCKOUT_SECONDS remain |
| `Lockout.RecheckWithinASecond` | backend/app.py:108-128 | a re-check of the lock made within the first second after the failure that set it (a second clock read) reports LOCKOUT_SECONDS - 1 seconds remaining |
| `Lockout.ReplayFromClean` | backend/app.py:114-128 | from no row, the k-th consecutive failure below the threshold leaves k attempts and no lock; the threshold-th leaves 0 attempts and a lock LOCKOUT_SECONDS after it; other rows untouched |
| `Lockout.ThresholdFailuresLock` | backend/app.py:97-128 | exactly MAX_FAILED_ATTEMPTS failures from no row lock the email from the last one for LOCKOUT_SECONDS (locked, at most LOCKOUT_SECONDS left, throughout the window; unlocked from its end on) |
| `Lockout.FewerFailuresNeverLock` | backend/app.py:97-128 | fewer than MAX_FAILED_ATTEMPTS failures from no row never lock the email at any instant |
| `Lockout.SmallThresholdNeedsTwoFailures` | backend/app.py:119-126 | with MAX_FAILED_ATTEMPTS <= 1 the first failure stores 1 attempt unlocked, and only the second locks |
| `Lockout.ElapsedLockIsClean` | backend/app.py:108-128 | once a lock has elapsed, the zero-count row it leaves reads and counts exactly like no row |
| `Lockout.ResetForgetsEmail` | backend/app.py:133-138 | after reset the email is unlocked at every instant, its next failure counts as the first, other rows are untouched, and reset is idempotent |
| `LoginFlow.UpstreamDetail` | backend/app.py:177 | the relayed 401 detail is `error_description` when non-empty, else `error` when non-empty, else "Invalid credentials"; never empty |
| `LoginFlow.Decide` | backend/app.py:146-224 | a login changes at most the email's own row; a token is only issued to that email, whose row is then deleted |
| `LoginFlow.LockIsCheckedFirst` | backend/app.py:153-156 | a locked email gets 429 with the remaining seconds whatever the credentials or upstream say, and the table is unchanged |
| `LoginFlow.LocalRejection` | backend/app.py:194-213 | local mode, unlocked, rejected credentials: exactly one failure is recorded; the answer is the generic 401, except a wrong password whose failure set the lock, answered 429 with LOCKOUT_SECONDS |
| `LoginFlow.LocalSuccess` | backend/app.py:215-224 | local mode, unlocked, right password: a token for the email expiring ACCESS_TOKEN_EXPIRE_MINUTES after now; the email's row deleted |
| `LoginFlow.ProxyOutcomes` | backend/app.py:158-185 | proxy mode, unlocked: 200 resets and relays the session; another status records a failure and answers 401 with the upstream detail (never 429); no answer is a 502 that leaves the table alone |
| `LoginFlow.UnknownAndWrongAgreeUnlessTripped` | backend/app.py:194-213 | unknown email and wrong password get the same answer and leave the same table unless that failure sets a lock |
| `LoginFlow.ThresholdResponseRevealsAccount` | backend/app.py:194-213 | on the failure that sets a lock, an unknown email gets 401 and a registered one with a wrong password gets 429 |
| `LoginFlow.ThresholdResponseRevealsAccountByDefault` | backend/app.py:194-213 | under the default settings, the fifth failure shows the difference: 401 for an unknown email, 429 for a registered one (180 s with the single request instant of the model; 179 s in practice, see `Lockout.RecheckWithinASecond`) |
| `LoginFlow.DecideUniform` | backend/app.py:194-213 | the corrected login: like `Decide`, only the email's row changes and tokens go only to that email |
| `LoginFlow.UniformRejectsAlike` | backend/app.py:194-213 | with the lock re-read after every local failure, unknown email and wrong password are answered alike on every input, both 429 on the tripping failure |
| `LoginFlow.UniformChangesOnlyTheTrip` | backend/app.py:194-213 | the correction agrees with the backend's login on every other input |
| `LoginFlow.WrongPasswordStreak` | backend/app.py:203-213 | from no row, up to MAX_FAILED_ATTEMPTS consecutive wrong passwords leave the table of that many recorded failures; each is answered 401 except the threshold-th, answered 429 with LOCKOUT_SECONDS |
| `LoginFlow.ThresholdStreakLocksOut` | backend/app.py:146-224 | after MAX_FAILED_ATTEMPTS wrong passwords the last answer is 429; for LOCKOUT_SECONDS every login (even the right password) is 429 and changes nothing; afterwards the right password succeeds and clears the row |
| `Backend.App.constructor` | backend/app.py:65-74 | the attempts table starts as the rows the database file already holds (`CREATE TABLE IF NOT EXISTS` keeps earlier rows and locks across a restart; empty on a first run) |
| `Backend.App.RecordFailedAttempt` | backend/app.py:114-130 | the table becomes `RecordFailure` of the old table; stored counts stay in range when MAX_FAILED_ATTEMPTS >= 2 |
| `Backend.App.ResetAttempts` | backend/app.py:133-138 | the table loses exactly the email's row; the email then reads as unlocked at every instant |
| `Backend.App.Login` | backend/app.py:146-224 | the answer and the new table are those of `Decide`; a locked email gets 429 and the table is unchanged |
| `Backend.App.LoginUniform` | backend/app.py:194-213 | the answer and the new table are those of `DecideUniform` |

## Findings

| source | as written | input that shows it | evidently intended | confidence | as-written member | corrected member |
|---|---|---|---|---|---|---|
| backend/app.py:194-213 | an unknown email records a failure and answers 401 without re-reading the lock; a wrong password re-reads it and answers 429 when its failure set the lock | local mode, default settings, an email with a row of 4 attempts: a fifth failure answers 401 if the email has no account and 429 (179 s in practice) if it has one | both cases answered alike, so the response never tells whether an email is registered (the comment at line 195 says so) | medium; not executed | `LoginFlow.ThresholdResponseRevealsAccount` | `LoginFlow.UniformRejectsAlike` |

`Backend.App.Login` and `LoginFlow.Decide` keep the code as written. `Backend.App.LoginUniform`
and `LoginFlow.DecideUniform` are the corrected flow.

## Left out

- SQLite plumbing (`get_db_conn`, the schema creation and the seeding of a test user in `initialize_db`) is storage I/O. The table is an in-memory map.
- The user lookup and the bcrypt comparison through passlib are a foreign library. They are reduced to a `CredentialCheck` verdict.
- JWT encoding is a foreign call. Only the `exp` instant is modelled (the JWT library's conversion of it to whole seconds is not).
- The Supabase HTTP request is network I/O. It is reduced to an `UpstreamReply`; the relayed session body is not modelled.
- A non-JSON error body from Supabase (which makes `resp.json()` raise) is not modelled.
- The `/refresh` endpoint only forwards to Supabase, so `/refresh` is not part of this model. `/health`, slowapi rate limiting and FastAPI routing are framework plumbing.
- Refresh-token storage and rotation, access-token verification and an admin gate do not exist in this source and are not modelled.
- Reading configuration from the environment is reduced to the `Config` value. Parsing the environment strings to integers is not modelled.
- The read-then-write of `record_failed_attempt` across two separate connections is not atomic. Requests are modelled sequentially, so lost updates under concurrency are not captured.
- The `try/except: pass` around the bookkeeping calls is dropped. Recording a failure and resetting always succeed in the model.
- A request reads the clock several times (the lock check, the failure record, the re-check, the token expiry). The model uses one instant `now` for all of them. So in the model a lock set by a request reads back with exactly LOCKOUT_SECONDS remaining. The backend's re-check reads the clock again after a commit and a new connection, so in practice it reports LOCKOUT_SECONDS - 1 (LOCKOUT_SECONDS only if both reads land on the same microsecond); `Lockout.RecheckWithinASecond` proves this for a re-check within one second.
- Timestamp text is abstracted to `Stamp`: a NULL and an empty `locked_until` are both `Null`, any text `fromisoformat` rejects is `Unparseable`, and ISO strings are taken to round-trip exactly.
- After a lock elapses, the code keeps a row with 0 attempts instead of deleting it (`Lockout.ElapsedLockIsClean` shows it behaves like no row). In proxy mode the failure that sets a lock is answered 401, not 429.
