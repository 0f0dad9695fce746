/**
 * The decision procedure of the `/login` endpoint (backend/app.py:146-224):
 * what it answers and what it leaves in the `login_attempts` table, given the
 * table, the clock and the answers of the collaborators it consults. The user
 * lookup with the bcrypt comparison is reduced to a `CredentialCheck` verdict
 * and the Supabase token request to an `UpstreamReply`.
 */
module LoginFlow {
  import opened Settings
  import opened Lockout

  /** What the local users table and bcrypt would say about the credentials. */
  datatype CredentialCheck = UnknownEmail | WrongPassword | PasswordMatches

  /** What the Supabase token endpoint answered: status 200, another status
      with the `error_description` and `error` fields of its body (empty when
      absent), or no answer at all (connection error or timeout). */
  datatype UpstreamReply = Status200 | ErrorStatus(errorDescription: string, error: string) | RequestFailed

  /** The response of `/login`. */
  datatype LoginOutcome =
    | Locked(remaining: int)                  // 429, "Try again in <remaining> seconds"
    | InvalidCredentials(detail: string)      // 401
    | ProxyError                              // 502, "Auth proxy error"
    | UpstreamSession                         // 200, Supabase's session relayed
    | Success(subject: Email, expiry: Instant) // 200, a bearer access token
  {
    function StatusCode(): int {
      match this
      case Locked(_) => 429
      case InvalidCredentials(_) => 401
      case ProxyError => 502
      case UpstreamSession => 200
      case Success(_, _) => 200
    }
  }

  const GenericRejection: string := "Invalid credentials"

  /** The detail of a 401 relayed from Supabase: its `error_description`,
      else its `error`, else the generic message; never empty. */
  function UpstreamDetail(errorDescription: string, error: string): (d: string)
    ensures d != ""
    ensures d == errorDescription || d == error || d == GenericRejection
    ensures errorDescription != "" ==> d == errorDescription
    ensures errorDescription == "" && error != "" ==> d == error
    ensures errorDescription == "" && error == "" ==> d == GenericRejection
  {
    if errorDescription != "" then errorDescription
    else if error != "" then error
    else GenericRejection
  }

  /** The `exp` instant of a freshly issued access token. */
  function AccessTokenExpiry(cfg: Config, now: Instant): Instant {
    now + cfg.accessTokenExpireMinutes * 60 * MicrosPerSecond
  }

  /** `/login` as the backend performs it: the lock check first; then either
      the Supabase request or the local credential check; a failure is
      recorded, a success deletes the email's row. In local mode only a wrong
      password re-reads the lock after recording the failure. Only the
      email's own row can change, and a token is only ever issued to the
      email that logged in, whose row is then gone. */
  function Decide(cfg: Config, t: Table, email: Email, check: CredentialCheck, reply: UpstreamReply, now: Instant)
    : (r: (LoginOutcome, Table))
    ensures forall e :: e != email ==> (e in r.1 <==> e in t) && (e in t ==> r.1[e] == t[e])
    ensures r.0.Success? ==> r.0.subject == email && email !in r.1
  {
    var gate := IsLocked(t, email, now);
    if gate.locked then (Locked(gate.remaining), t)
    else match cfg.mode
      case SupabaseProxy =>
        (match reply
         case RequestFailed => (ProxyError, t)
         case ErrorStatus(description, error) =>
           (InvalidCredentials(UpstreamDetail(description, error)), RecordFailure(cfg, t, email, now))
         case Status200 => (UpstreamSession, t - {email}))
      case LocalUsers =>
        match check
        case UnknownEmail => (InvalidCredentials(GenericRejection), RecordFailure(cfg, t, email, now))
        case WrongPassword =>
          var t' := RecordFailure(cfg, t, email, now);
          var after := IsLocked(t', email, now);
          if after.locked then (Locked(after.remaining), t')
          else (InvalidCredentials(GenericRejection), t')
        case PasswordMatches => (Success(email, AccessTokenExpiry(cfg, now)), t - {email})
  }

  /** Whether a failure recorded now for `email` would set a lock that reads
      as active at once. */
  predicate FailureTrips(cfg: Config, t: Table, email: Email) {
    email in t && t[email].attempts + 1 >= cfg.maxFailedAttempts && cfg.lockoutSeconds > 0
  }

  /** A locked email is answered 429 with the remaining seconds, whatever the
      credentials or the upstream would have said, and the table is left as it
      was: the lock is checked before any credential is. */
  lemma LockIsCheckedFirst(cfg: Config, t: Table, email: Email, check: CredentialCheck, reply: UpstreamReply, now: Instant)
    requires IsLocked(t, email, now).locked
    ensures Decide(cfg, t, email, check, reply, now) == (Locked(IsLocked(t, email, now).remaining), t)
    ensures Decide(cfg, t, email, check, reply, now).0.StatusCode() == 429
  {
  }

  /** Local mode, not locked, credentials rejected: exactly one failure is
      recorded, and the answer is the generic 401 unless it was a wrong
      password whose failure set a lock, which is answered 429 with the full
      `LOCKOUT_SECONDS`. */
  lemma LocalRejection(cfg: Config, t: Table, email: Email, check: CredentialCheck, reply: UpstreamReply, now: Instant)
    requires cfg.mode == LocalUsers && !IsLocked(t, email, now).locked
    requires check != PasswordMatches
    ensures Decide(cfg, t, email, check, reply, now).1 == RecordFailure(cfg, t, email, now)
    ensures Decide(cfg, t, email, check, reply, now).0 ==
      if check == WrongPassword && FailureTrips(cfg, t, email) then Locked(cfg.lockoutSeconds)
      else InvalidCredentials(GenericRejection)
  {
  }

  /** Local mode, not locked, right password: the email's row is deleted and
      an access token for that email expiring `ACCESS_TOKEN_EXPIRE_MINUTES`
      after `now` is issued. */
  lemma LocalSuccess(cfg: Config, t: Table, email: Email, reply: UpstreamReply, now: Instant)
    requires cfg.mode == LocalUsers && !IsLocked(t, email, now).locked
    ensures var r := Decide(cfg, t, email, PasswordMatches, reply, now);
      && r.0.Success? && r.0.subject == email
      && r.0.expiry - now == cfg.accessTokenExpireMinutes * 60 * MicrosPerSecond
      && r.1 == t - {email}
      && !IsLocked(r.1, email, now).locked
  {
  }

  /** Proxy mode, not locked: a 200 deletes the email's row and relays the
      session; any other status records one failure and is answered 401 with
      the upstream's detail, even when that failure sets a lock; no answer at
      all is a 502 and leaves the table alone. */
  lemma ProxyOutcomes(cfg: Config, t: Table, email: Email, check: CredentialCheck, reply: UpstreamReply, now: Instant)
    requires cfg.mode == SupabaseProxy && !IsLocked(t, email, now).locked
    ensures var r := Decide(cfg, t, email, check, reply, now);
      && (reply.Status200? ==> r == (UpstreamSession, t - {email}))
      && (reply.ErrorStatus? ==>
            r == (InvalidCredentials(UpstreamDetail(reply.errorDescription, reply.error)), RecordFailure(cfg, t, email, now)))
      && (reply.RequestFailed? ==> r == (ProxyError, t))
      && r.0.StatusCode() != 429
  {
  }

  /** An unknown email and a wrong password get the same answer and leave the
      same table, except on the failure that sets a lock. */
  lemma UnknownAndWrongAgreeUnlessTripped(cfg: Config, t: Table, email: Email, reply: UpstreamReply, now: Instant)
    requires cfg.mode == LocalUsers && !FailureTrips(cfg, t, email)
    ensures Decide(cfg, t, email, UnknownEmail, reply, now) == Decide(cfg, t, email, WrongPassword, reply, now)
  {
  }

  /** On the failure that sets a lock, a registered email with a wrong
      password is answered 429 while an unknown email is answered 401: the
      response tells whether the email has an account. */
  lemma ThresholdResponseRevealsAccount(cfg: Config, t: Table, email: Email, reply: UpstreamReply, now: Instant)
    requires cfg.mode == LocalUsers && !IsLocked(t, email, now).locked
    requires FailureTrips(cfg, t, email)
    ensures Decide(cfg, t, email, UnknownEmail, reply, now).0.StatusCode() == 401
    ensures Decide(cfg, t, email, WrongPassword, reply, now).0.StatusCode() == 429
  {
  }

  /** The default configuration reaches that case: the fifth failure. */
  lemma ThresholdResponseRevealsAccountByDefault(reply: UpstreamReply)
    ensures var t := map["a@b.com" := AttemptRecord(4, At(0), Null)];
      && Decide(Defaults, t, "a@b.com", UnknownEmail, reply, 0).0 == InvalidCredentials(GenericRejection)
      && Decide(Defaults, t, "a@b.com", WrongPassword, reply, 0).0 == Locked(180)
  {
  }

  /** `/login` with the lock re-read after every local failure, so that an
      unknown email is answered exactly as a wrong password is. */
  function DecideUniform(cfg: Config, t: Table, email: Email, check: CredentialCheck, reply: UpstreamReply, now: Instant)
    : (r: (LoginOutcome, Table))
    ensures forall e :: e != email ==> (e in r.1 <==> e in t) && (e in t ==> r.1[e] == t[e])
    ensures r.0.Success? ==> r.0.subject == email && email !in r.1
  {
    if cfg.mode == LocalUsers && check == UnknownEmail then Decide(cfg, t, email, WrongPassword, reply, now)
    else Decide(cfg, t, email, check, reply, now)
  }

  /** With the lock re-read after every failure, an unknown email and a wrong
      password are indistinguishable, on every input; and the failure that
      sets a lock is answered 429 for both. */
  lemma UniformRejectsAlike(cfg: Config, t: Table, email: Email, reply: UpstreamReply, now: Instant)
    requires cfg.mode == LocalUsers
    ensures DecideUniform(cfg, t, email, UnknownEmail, reply, now) == DecideUniform(cfg, t, email, WrongPassword, reply, now)
    ensures !IsLocked(t, email, now).locked && FailureTrips(cfg, t, email) ==>
      DecideUniform(cfg, t, email, UnknownEmail, reply, now).0 == Locked(cfg.lockoutSeconds)
  {
  }

  /** The correction changes nothing but that one answer. */
  lemma UniformChangesOnlyTheTrip(cfg: Config, t: Table, email: Email, check: CredentialCheck, reply: UpstreamReply, now: Instant)
    requires !(cfg.mode == LocalUsers && check == UnknownEmail && !IsLocked(t, email, now).locked && FailureTrips(cfg, t, email))
    ensures DecideUniform(cfg, t, email, check, reply, now) == Decide(cfg, t, email, check, reply, now)
  {
  }

  /** Answers and final table of consecutive `/login` requests for one email
      with the same credentials, at the instants `ts` in order. */
  ghost function Run(cfg: Config, t: Table, email: Email, check: CredentialCheck, reply: UpstreamReply, ts: seq<Instant>)
    : (seq<LoginOutcome>, Table)
    decreases |ts|
  {
    if ts == [] then ([], t)
    else
      var before := Run(cfg, t, email, check, reply, ts[..|ts| - 1]);
      var step := Decide(cfg, before.1, email, check, reply, ts[|ts| - 1]);
      (before.0 + [step.0], step.1)
  }

  /** Local mode, starting from no row: up to `MAX_FAILED_ATTEMPTS`
      consecutive wrong passwords leave the same table as that many recorded
      failures, each is answered with the generic 401, except the one that
      reaches the threshold, which is answered 429 with the full
      `LOCKOUT_SECONDS`. */
  lemma {:induction false} WrongPasswordStreak(cfg: Config, t: Table, email: Email, reply: UpstreamReply, ts: seq<Instant>)
    requires cfg.mode == LocalUsers && cfg.maxFailedAttempts >= 2 && cfg.lockoutSeconds > 0
    requires email !in t
    requires 1 <= |ts| <= cfg.maxFailedAttempts
    ensures var r := Run(cfg, t, email, WrongPassword, reply, ts);
      && r.1 == Replay(cfg, t, email, ts)
      && |r.0| == |ts|
      && forall i :: 0 <= i < |ts| ==>
           r.0[i] == if i == cfg.maxFailedAttempts - 1 then Locked(cfg.lockoutSeconds) else InvalidCredentials(GenericRejection)
  {
    var prefix := ts[..|ts| - 1];
    var now := ts[|ts| - 1];
    var before := Run(cfg, t, email, WrongPassword, reply, prefix);
    if |ts| == 1 {
      assert prefix == [];
      LocalRejection(cfg, t, email, WrongPassword, reply, now);
    } else {
      WrongPasswordStreak(cfg, t, email, reply, prefix);
      ReplayFromClean(cfg, t, email, prefix);
      LocalRejection(cfg, before.1, email, WrongPassword, reply, now);
    }
  }

  /** Local mode: after `MAX_FAILED_ATTEMPTS` consecutive wrong passwords
      from no row, the last of them is answered 429; for `LOCKOUT_SECONDS`
      after it every request is answered 429, even with the right password,
      and changes nothing; once that time has passed the right password
      succeeds and clears the email's row. */
  lemma ThresholdStreakLocksOut(cfg: Config, t: Table, email: Email, reply: UpstreamReply, ts: seq<Instant>)
    requires cfg.mode == LocalUsers && cfg.maxFailedAttempts >= 2 && cfg.lockoutSeconds > 0
    requires email !in t
    requires |ts| == cfg.maxFailedAttempts
    ensures var r, last := Run(cfg, t, email, WrongPassword, reply, ts), ts[|ts| - 1];
      && |r.0| == |ts| && r.0[|ts| - 1] == Locked(cfg.lockoutSeconds)
      && (forall check, now :: last <= now < last + LockLength(cfg) ==>
            Decide(cfg, r.1, email, check, reply, now).0.Locked? && Decide(cfg, r.1, email, check, reply, now).1 == r.1)
      && (forall now :: last + LockLength(cfg) <= now ==>
            Decide(cfg, r.1, email, PasswordMatches, reply, now) == (Success(email, AccessTokenExpiry(cfg, now)), r.1 - {email}))
  {
    WrongPasswordStreak(cfg, t, email, reply, ts);
    ThresholdFailuresLock(cfg, t, email, ts);
  }
}
