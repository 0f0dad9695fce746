/**
 * The backend process: its configuration, fixed at startup, and the
 * `login_attempts` table that its handlers update in place (backend/app.py).
 * Each method performs one handler or helper step by step; its contract ties
 * the new table to the pure definitions in `Lockout` and `LoginFlow`.
 */
module Backend {
  import opened Settings
  import opened Lockout
  import opened LoginFlow

  class App {
    const cfg: Config
    var loginAttempts: Table

    /** Startup: the table is whatever the database file already holds
        (empty on a first run); rows and locks survive a restart. */
    constructor (cfg: Config, stored: Table)
      ensures this.cfg == cfg && loginAttempts == stored
    {
      this.cfg := cfg;
      loginAttempts := stored;
    }

    /** `record_failed_attempt`: insert or replace the email's row. */
    method RecordFailedAttempt(email: Email, now: Instant)
      modifies this
      ensures loginAttempts == RecordFailure(cfg, old(loginAttempts), email, now)
      ensures cfg.maxFailedAttempts >= 2 && CountersInRange(cfg, old(loginAttempts)) ==> CountersInRange(cfg, loginAttempts)
    {
      if cfg.maxFailedAttempts >= 2 && CountersInRange(cfg, loginAttempts) {
        RecordFailureKeepsRange(cfg, loginAttempts, email, now);
      }
      var row := AttemptRow(loginAttempts, email);
      if row.None? {
        loginAttempts := loginAttempts[email := AttemptRecord(1, At(now), Null)];
      } else {
        var attempts := row.value.attempts + 1;
        if attempts >= cfg.maxFailedAttempts {
          loginAttempts := loginAttempts[email := AttemptRecord(0, At(now), At(now + LockLength(cfg)))];
        } else {
          loginAttempts := loginAttempts[email := AttemptRecord(attempts, At(now), Null)];
        }
      }
    }

    /** `reset_attempts`: delete the email's row, if any. */
    method ResetAttempts(email: Email)
      modifies this
      ensures loginAttempts == old(loginAttempts) - {email}
      ensures forall now :: !IsLocked(loginAttempts, email, now).locked
      ensures CountersInRange(cfg, old(loginAttempts)) ==> CountersInRange(cfg, loginAttempts)
    {
      loginAttempts := loginAttempts - {email};
    }

    /** `/login`, with the user lookup and bcrypt reduced to `check` and the
        Supabase request to `reply`. */
    method Login(email: Email, check: CredentialCheck, reply: UpstreamReply, now: Instant) returns (outcome: LoginOutcome)
      modifies this
      ensures (outcome, loginAttempts) == Decide(cfg, old(loginAttempts), email, check, reply, now)
      ensures old(IsLocked(loginAttempts, email, now)).locked ==>
        outcome == Locked(old(IsLocked(loginAttempts, email, now)).remaining) && loginAttempts == old(loginAttempts)
    {
      var gate := IsLocked(loginAttempts, email, now);
      if gate.locked {
        return Locked(gate.remaining);
      }
      match cfg.mode {
        case SupabaseProxy =>
          match reply {
            case RequestFailed =>
              outcome := ProxyError;
            case ErrorStatus(description, error) =>
              RecordFailedAttempt(email, now);
              outcome := InvalidCredentials(UpstreamDetail(description, error));
            case Status200 =>
              ResetAttempts(email);
              outcome := UpstreamSession;
          }
        case LocalUsers =>
          match check {
            case UnknownEmail =>
              RecordFailedAttempt(email, now);
              outcome := InvalidCredentials(GenericRejection);
            case WrongPassword =>
              RecordFailedAttempt(email, now);
              var after := IsLocked(loginAttempts, email, now);
              if after.locked {
                outcome := Locked(after.remaining);
              } else {
                outcome := InvalidCredentials(GenericRejection);
              }
            case PasswordMatches =>
              var expiry := AccessTokenExpiry(cfg, now);
              ResetAttempts(email);
              outcome := Success(email, expiry);
          }
      }
    }

    /** `/login` corrected so that every local failure re-reads the lock. */
    method LoginUniform(email: Email, check: CredentialCheck, reply: UpstreamReply, now: Instant) returns (outcome: LoginOutcome)
      modifies this
      ensures (outcome, loginAttempts) == DecideUniform(cfg, old(loginAttempts), email, check, reply, now)
    {
      var gate := IsLocked(loginAttempts, email, now);
      if gate.locked {
        return Locked(gate.remaining);
      }
      match cfg.mode {
        case SupabaseProxy =>
          match reply {
            case RequestFailed =>
              outcome := ProxyError;
            case ErrorStatus(description, error) =>
              RecordFailedAttempt(email, now);
              outcome := InvalidCredentials(UpstreamDetail(description, error));
            case Status200 =>
              ResetAttempts(email);
              outcome := UpstreamSession;
          }
        case LocalUsers =>
          if check == PasswordMatches {
            var expiry := AccessTokenExpiry(cfg, now);
            ResetAttempts(email);
            outcome := Success(email, expiry);
          } else {
            RecordFailedAttempt(email, now);
            var after := IsLocked(loginAttempts, email, now);
            if after.locked {
              outcome := Locked(after.remaining);
            } else {
              outcome := InvalidCredentials(GenericRejection);
            }
          }
      }
    }
  }

  /** A client of `App`: on a fresh database file, five wrong passwords under
      the default settings, then the right one inside and after the lock
      window. */
  method DefaultLockoutScenario(email: Email, reply: UpstreamReply)
  {
    var app := new App(Defaults, map[]);
    var second := MicrosPerSecond;
    var o := app.Login(email, WrongPassword, reply, 0);
    assert o == InvalidCredentials(GenericRejection);
    o := app.Login(email, WrongPassword, reply, 1 * second);
    assert o == InvalidCredentials(GenericRejection);
    o := app.Login(email, WrongPassword, reply, 2 * second);
    assert o == InvalidCredentials(GenericRejection);
    o := app.Login(email, WrongPassword, reply, 3 * second);
    assert o == InvalidCredentials(GenericRejection);
    o := app.Login(email, WrongPassword, reply, 4 * second);
    assert o == Locked(180);
    o := app.Login(email, PasswordMatches, reply, 5 * second);
    assert o == Locked(179);
    o := app.Login(email, PasswordMatches, reply, 184 * second);
    assert o == Success(email, 184 * second + 3600 * second);
    assert email !in app.loginAttempts;
  }
}
