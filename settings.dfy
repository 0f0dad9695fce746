/**
 * Process-wide configuration of the backend. The backend reads these values
 * from the environment once, at import time (backend/app.py:18-31); here they
 * are one immutable value handed to every operation.
 */
module Settings {

  /** Whether `/login` checks credentials against the local users table or
      forwards them to the Supabase token endpoint. The backend uses the proxy
      exactly when both SUPABASE_URL and SUPABASE_SERVICE_ROLE_KEY are set. */
  datatype AuthMode = LocalUsers | SupabaseProxy

  datatype Config = Config(
    maxFailedAttempts: int,         // MAX_FAILED_ATTEMPTS
    lockoutSeconds: int,            // LOCKOUT_SECONDS
    accessTokenExpireMinutes: int,  // ACCESS_TOKEN_EXPIRE_MINUTES
    mode: AuthMode)

  /** The values the backend uses when the environment sets none of them. */
  const Defaults: Config := Config(5, 180, 60, LocalUsers)
}
