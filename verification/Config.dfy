/** The checks a configuration has to pass before the radio service starts (radio-service-rs/src/config.rs). */
module Config {
  import opened Wrappers
  import opened Text

  /** The settings that are checked, but for the upstream's own, and the lifetime of the memory cache. */
  datatype Settings = Settings(
    refreshLockKey: string, lockRetryAttempts: nat, validationConcurrency: nat, validationTimeoutMs: nat,
    validationCacheTtl: nat, validationFailureTtl: nat, proxyTimeoutMs: nat, memoryCacheTtl: nat)

  datatype ConfigError =
    | MissingLockKey | ZeroRetryAttempts | ZeroConcurrency | ZeroValidationTimeout | ZeroCacheTtl | ZeroFailureTtl
    | ZeroProxyTimeout

  /** `Config::validate`: the first complaint, if there is one. */
  function Complaint(s: Settings): Option<ConfigError> {
    if Trim(s.refreshLockKey) == "" then Some(MissingLockKey)
    else if s.lockRetryAttempts == 0 then Some(ZeroRetryAttempts)
    else if s.validationConcurrency == 0 then Some(ZeroConcurrency)
    else if s.validationTimeoutMs == 0 then Some(ZeroValidationTimeout)
    else if s.validationCacheTtl == 0 then Some(ZeroCacheTtl)
    else if s.validationFailureTtl == 0 then Some(ZeroFailureTtl)
    else if s.proxyTimeoutMs == 0 then Some(ZeroProxyTimeout)
    else None
  }

  /** The service starts with these settings. */
  predicate Starts(s: Settings) {
    Complaint(s) == None
  }

  /** The service starts exactly with a lock key that is not blank and with every counted setting above zero. */
  lemma StartsExactly(s: Settings)
    ensures Starts(s)
            <==> && (exists i :: 0 <= i < |s.refreshLockKey| && !IsSpace(s.refreshLockKey[i]))
                 && s.lockRetryAttempts > 0 && s.validationConcurrency > 0 && s.validationTimeoutMs > 0
                 && s.validationCacheTtl > 0 && s.validationFailureTtl > 0 && s.proxyTimeoutMs > 0
  {
    BlankExactly(s.refreshLockKey);
  }
}
