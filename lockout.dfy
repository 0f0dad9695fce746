/**
 * The per-email failed-login tracker of the backend: the `login_attempts`
 * table (backend/app.py:65-74), the row lookup `_get_attempt_row` and the three
 * functions built on it that read and write the table (backend/app.py:88-138).
 *
 * The table is a map from email to row. Timestamps are UTC instants counted in
 * microseconds, the resolution of the ISO-8601 strings the table stores, so
 * the truncation of the remaining lock time to whole seconds is modelled as
 * the backend performs it.
 */
module Lockout {
  import opened Wrappers
  import opened Settings

  type Email = string

  /** A UTC instant, in microseconds. */
  type Instant = int

  const MicrosPerSecond: int := 1_000_000

  /** A TEXT timestamp column: NULL or empty, an ISO-8601 string that parses
      to an instant, or a string `datetime.fromisoformat` rejects. */
  datatype Stamp = Null | At(instant: Instant) | Unparseable

  /** One row of `login_attempts`. */
  datatype AttemptRecord = AttemptRecord(attempts: int, lastAttempt: Stamp, lockedUntil: Stamp)

  type Table = map<Email, AttemptRecord>

  /** The pair `(locked, remaining_seconds)` that `is_locked` returns. */
  datatype LockState = LockState(locked: bool, remaining: int)

  /** How long a lock lasts, in microseconds. */
  function LockLength(cfg: Config): int {
    cfg.lockoutSeconds * MicrosPerSecond
  }

  /** `_get_attempt_row`: the email's row, if the table has one. */
  function AttemptRow(t: Table, email: Email): (r: Option<AttemptRecord>)
    ensures r.Some? <==> email in t
    ensures r.Some? ==> r.value == t[email]
  {
    if email in t then Some(t[email]) else None
  }

  /** `is_locked`: an email is locked exactly while its row holds a parseable
      `locked_until` strictly later than `now`; the remaining time is then the
      gap truncated to whole seconds. Everything else reads as `(false, 0)`. */
  function IsLocked(t: Table, email: Email, now: Instant): (r: LockState)
    ensures r.locked <==> email in t && t[email].lockedUntil.At? && now < t[email].lockedUntil.instant
    ensures r.locked ==>
      && 0 <= r.remaining
      && r.remaining * MicrosPerSecond <= t[email].lockedUntil.instant - now
      && t[email].lockedUntil.instant - now < (r.remaining + 1) * MicrosPerSecond
    ensures !r.locked ==> r.remaining == 0
  {
    match AttemptRow(t, email)
    case None => LockState(false, 0)
    case Some(row) =>
      match row.lockedUntil
      case Null => LockState(false, 0)
      case Unparseable => LockState(false, 0)
      case At(until) =>
        if now < until then LockState(true, (until - now) / MicrosPerSecond)
        else LockState(false, 0)
  }

  /** `record_failed_attempt`: the table after one more failure for `email`
      at `now`. The first failure inserts a row with one attempt and no lock,
      whatever the threshold; a later failure that brings the count to the
      threshold stores a zero count and a lock `LOCKOUT_SECONDS` ahead; any
      other failure stores the incremented count and clears the lock. No other
      email's row changes. */
  function RecordFailure(cfg: Config, t: Table, email: Email, now: Instant): (t': Table)
    ensures t'.Keys == t.Keys + {email}
    ensures forall e :: e in t && e != email ==> t'[e] == t[e]
    ensures email !in t ==> t'[email] == AttemptRecord(1, At(now), Null)
    ensures email in t && t[email].attempts + 1 >= cfg.maxFailedAttempts ==>
      t'[email] == AttemptRecord(0, At(now), At(now + LockLength(cfg)))
    ensures email in t && t[email].attempts + 1 < cfg.maxFailedAttempts ==>
      t'[email] == AttemptRecord(t[email].attempts + 1, At(now), Null)
  {
    match AttemptRow(t, email)
    case None => t[email := AttemptRecord(1, At(now), Null)]
    case Some(row) =>
      var attempts := row.attempts + 1;
      if attempts >= cfg.maxFailedAttempts then
        t[email := AttemptRecord(0, At(now), At(now + LockLength(cfg)))]
      else
        t[email := AttemptRecord(attempts, At(now), Null)]
  }

  /** Every stored count lies in `0 .. MAX_FAILED_ATTEMPTS - 1`. */
  ghost predicate CountersInRange(cfg: Config, t: Table) {
    forall e :: e in t ==> 0 <= t[e].attempts < cfg.maxFailedAttempts
  }

  /** With a threshold of at least two, recording a failure keeps every stored
      count below the threshold. */
  lemma RecordFailureKeepsRange(cfg: Config, t: Table, email: Email, now: Instant)
    requires cfg.maxFailedAttempts >= 2
    requires CountersInRange(cfg, t)
    ensures CountersInRange(cfg, RecordFailure(cfg, t, email, now))
  {
  }

  /** Deleting a row keeps every stored count below the threshold. */
  lemma ResetKeepsRange(cfg: Config, t: Table, email: Email)
    requires CountersInRange(cfg, t)
    ensures CountersInRange(cfg, t - {email})
  {
  }

  /** Right after a failure is recorded, the email reads as locked exactly
      when that failure reached the threshold on an existing row (and the lock
      length is positive); it then reads as locked for the full
      `LOCKOUT_SECONDS`. */
  lemma FailureLocksIffThreshold(cfg: Config, t: Table, email: Email, now: Instant)
    ensures var s := IsLocked(RecordFailure(cfg, t, email, now), email, now);
      && (s.locked <==> email in t && t[email].attempts + 1 >= cfg.maxFailedAttempts && cfg.lockoutSeconds > 0)
      && (s.locked ==> s.remaining == cfg.lockoutSeconds)
  {
  }

  /** The backend reads the clock again when it re-checks the lock after
      recording a failure. A re-check any time within the first second after
      the failure that set the lock reports one second less than
      `LOCKOUT_SECONDS`; only a re-check at the very same microsecond reports
      the full `LOCKOUT_SECONDS`. */
  lemma RecheckWithinASecond(cfg: Config, t: Table, email: Email, now: Instant, later: Instant)
    requires email in t && t[email].attempts + 1 >= cfg.maxFailedAttempts && cfg.lockoutSeconds > 0
    requires now < later < now + MicrosPerSecond
    ensures IsLocked(RecordFailure(cfg, t, email, now), email, later) == LockState(true, cfg.lockoutSeconds - 1)
  {
    var s := IsLocked(RecordFailure(cfg, t, email, now), email, later);
    assert s.remaining * MicrosPerSecond < cfg.lockoutSeconds * MicrosPerSecond;
    assert (cfg.lockoutSeconds - 1) * MicrosPerSecond < (s.remaining + 1) * MicrosPerSecond;
  }

  /** The table after consecutive failures for one email, at the instants `ts`
      in order. */
  ghost function Replay(cfg: Config, t: Table, email: Email, ts: seq<Instant>): Table
    decreases |ts|
  {
    if ts == [] then t
    else RecordFailure(cfg, Replay(cfg, t, email, ts[..|ts| - 1]), email, ts[|ts| - 1])
  }

  /** Starting from no row, the k-th consecutive failure (k below the
      threshold) leaves a count of k and no lock; the failure that reaches the
      threshold leaves a zero count and a lock `LOCKOUT_SECONDS` after it. No
      other email's row changes. */
  lemma {:induction false} ReplayFromClean(cfg: Config, t: Table, email: Email, ts: seq<Instant>)
    requires cfg.maxFailedAttempts >= 2
    requires email !in t
    requires 1 <= |ts| <= cfg.maxFailedAttempts
    ensures var t' := Replay(cfg, t, email, ts);
      && email in t'
      && t' == t[email := t'[email]]
      && t'[email] == if |ts| < cfg.maxFailedAttempts
                      then AttemptRecord(|ts|, At(ts[|ts| - 1]), Null)
                      else AttemptRecord(0, At(ts[|ts| - 1]), At(ts[|ts| - 1] + LockLength(cfg)))
  {
    var prefix := ts[..|ts| - 1];
    if |ts| == 1 {
      assert prefix == [];
    } else {
      ReplayFromClean(cfg, t, email, prefix);
    }
  }

  /** Exactly `MAX_FAILED_ATTEMPTS` consecutive failures from no row lock the
      email from the last of them for `LOCKOUT_SECONDS`: at every instant of
      that window it reads as locked with at most `LOCKOUT_SECONDS` left, and
      from its end on it reads as unlocked. */
  lemma ThresholdFailuresLock(cfg: Config, t: Table, email: Email, ts: seq<Instant>)
    requires cfg.maxFailedAttempts >= 2
    requires email !in t
    requires |ts| == cfg.maxFailedAttempts
    ensures var t', last := Replay(cfg, t, email, ts), ts[|ts| - 1];
      && email in t' && t'[email].lockedUntil == At(last + LockLength(cfg))
      && (forall now :: last <= now < last + LockLength(cfg) ==>
            IsLocked(t', email, now).locked && IsLocked(t', email, now).remaining <= cfg.lockoutSeconds)
      && (forall now :: last + LockLength(cfg) <= now ==> !IsLocked(t', email, now).locked)
  {
    ReplayFromClean(cfg, t, email, ts);
  }

  /** Fewer than `MAX_FAILED_ATTEMPTS` consecutive failures from no row never
      lock the email, at any instant. */
  lemma FewerFailuresNeverLock(cfg: Config, t: Table, email: Email, ts: seq<Instant>, now: Instant)
    requires cfg.maxFailedAttempts >= 2
    requires email !in t
    requires 1 <= |ts| < cfg.maxFailedAttempts
    ensures IsLocked(Replay(cfg, t, email, ts), email, now) == LockState(false, 0)
  {
    ReplayFromClean(cfg, t, email, ts);
  }

  /** With a threshold of one or less, the first failure still only inserts a
      row with one attempt and no lock (a count the threshold does not admit),
      and it takes a second failure to lock the email. */
  lemma SmallThresholdNeedsTwoFailures(cfg: Config, t: Table, email: Email, t1: Instant, t2: Instant)
    requires cfg.maxFailedAttempts <= 1 && cfg.lockoutSeconds > 0
    requires email !in t
    ensures var once := RecordFailure(cfg, t, email, t1);
      && !IsLocked(once, email, t1).locked
      && once[email].attempts == 1 > cfg.maxFailedAttempts - 1
      && IsLocked(RecordFailure(cfg, once, email, t2), email, t2) == LockState(true, cfg.lockoutSeconds)
  {
  }

  /** Once a lock has elapsed, the zero-count row it leaves behaves exactly
      like no row at all: it reads as unlocked and the next failure produces
      the same row a first failure would. No explicit transition back to a
      clean state is needed. */
  lemma ElapsedLockIsClean(cfg: Config, t: Table, email: Email, now: Instant)
    requires cfg.maxFailedAttempts >= 2
    requires email in t && t[email].attempts == 0
    requires t[email].lockedUntil.At? && t[email].lockedUntil.instant <= now
    ensures IsLocked(t, email, now) == IsLocked(t - {email}, email, now) == LockState(false, 0)
    ensures RecordFailure(cfg, t, email, now) == RecordFailure(cfg, t - {email}, email, now)
  {
  }

  /** `reset_attempts`: after the email's row is deleted it reads as unlocked
      at every instant, its next failure counts as the first, every other row
      is untouched, and deleting again changes nothing. */
  lemma ResetForgetsEmail(cfg: Config, t: Table, email: Email, now: Instant)
    ensures IsLocked(t - {email}, email, now) == LockState(false, 0)
    ensures RecordFailure(cfg, t - {email}, email, now)[email] == AttemptRecord(1, At(now), Null)
    ensures forall e :: e in t && e != email ==> e in t - {email} && (t - {email})[e] == t[e]
    ensures (t - {email}) - {email} == t - {email}
  {
  }
}
