/** One refresh from fetch to commit (radio-service-rs/src/refresh.rs). */
module Refresh {
  import opened Wrappers
  import opened Stations
  import opened Fingerprint
  import opened StationTables
  import opened StreamValidation
  import opened IndexCache

  /** What the validator makes of the stations. */
  function ValidatedStations(probe: string -> Verdict, enabled: bool, cfg: Config, rows: map<string, StreamValidation.Row>,
                             job: Job): seq<Station>
  {
    if enabled then ReportOf(probe, cfg, rows, job).stations else job.stations
  }

  lemma ValidatedRewrites(probe: string -> Verdict, enabled: bool, cfg: Config, rows: map<string, StreamValidation.Row>, job: Job)
    ensures OnlyStreamsRewritten(job.stations, ValidatedStations(probe, enabled, cfg, rows, job))
  {
    if enabled {
      ValidationOnlyRewritesStreams(probe, cfg, rows, job);
    } else {
      UntouchedIsRewritten(job.stations);
    }
  }

  /** Whether the database fails during the validation or during the persist; both are transactions. */
  datatype Faults = Faults(validation: bool, persist: bool)

  datatype RefreshError = FetchFailed | ValidationFailed | PersistFailed | Refused(error: StorageError)

  /** The payload to commit: the fetched one with the validated stations, its fingerprint left as it is. */
  function Validated(fetched: Payload, probe: string -> Verdict, validator: (bool, Config),
                     rows: map<string, StreamValidation.Row>, job: Job): Payload
  {
    fetched.(stations := ValidatedStations(probe, validator.0, validator.1, rows, job))
  }

  /** What a refresh answers behind the fetch, and the tables it leaves. */
  function Outcome(h: Hasher, t: Tables, validated: Payload, enabled: bool, faults: Faults, now: int)
    : (Result<Payload, RefreshError>, Tables)
  {
    if enabled && faults.validation then (Err(ValidationFailed), t)
    else if faults.persist then (Err(PersistFailed), t)
    else
      match Persist(h, t, validated, now)
      case Ok((after, _)) => (Ok(validated), after)
      case Err(e) => (Err(Refused(e)), t)
  }

  /** `run_refresh`, given what the fetch returned. */
  method RunRefresh(fetched: Result<Payload, ()>, faults: Faults, probe: string -> Verdict, job: Job,
                    validator: StreamValidator, storage: StationStorage, now: int)
    returns (r: Result<Payload, RefreshError>)
    requires storage.Valid()
    requires fetched.Ok? ==> fetched.value.fingerprint.Some? && job.stations == fetched.value.stations
    modifies validator, storage
    ensures storage.Valid()
    ensures fetched.Ok? ==>
              (r, storage.Snapshot())
              == Outcome(storage.hasher, old(storage.Snapshot()),
                         Validated(fetched.value, probe, (validator.enabled, validator.cfg), old(validator.rows), job),
                         validator.enabled, faults, now)
    ensures fetched.Err? ==> r == Err(FetchFailed) && storage.Snapshot() == old(storage.Snapshot())
    ensures r == Err(FetchFailed) || r == Err(ValidationFailed) || !validator.enabled ==> validator.rows == old(validator.rows)
    ensures fetched.Ok? && validator.enabled && !faults.validation ==>
              Step(probe, validator.cfg, old(validator.rows), job, validator.rows)
  {
    if fetched.Err? {
      return Err(FetchFailed);
    }
    if validator.enabled && faults.validation {
      return Err(ValidationFailed);
    }
    var report := validator.Validate(probe, job);
    var payload := fetched.value.(stations := report.stations);
    payload := EnsureFingerprint(storage.hasher, payload);
    if faults.persist {
      return Err(PersistFailed);
    }
    var persisted := storage.PersistPayload(payload, now);
    match persisted {
      case Ok(_) => r := Ok(payload);
      case Err(e) => r := Err(Refused(e));
    }
  }

  /**
   A refresh of what a fetch delivers succeeds unless something fails, and commits a
   genuine payload under the fingerprint of the stations as fetched, not as validated.
   */
  lemma RefreshCommitsGenuine(h: Hasher, t: Tables, written: map<int, Payload>, fetched: Payload, faults: Faults,
                              probe: string -> Verdict, validator: (bool, Config), rows: map<string, StreamValidation.Row>,
                              job: Job, now: int)
    requires Consistent(h, t, written) && FetchedPayload(h, fetched) && job.stations == fetched.stations
    ensures var q := Validated(fetched, probe, validator, rows, job);
            var (r, after) := Outcome(h, t, q, validator.0, faults, now);
            && Genuine(h, q) && q.fingerprint == Some(SetFingerprint(h, fetched.stations))
            && (r.Ok? <==> !(validator.0 && faults.validation) && !faults.persist)
            && (r.Ok? ==> r.value == q && CurrentFingerprint(after) == q.fingerprint)
  {
    var q := Validated(fetched, probe, validator, rows, job);
    ValidatedRewrites(probe, validator.0, validator.1, rows, job);
    ValidatedIsGenuine(h, fetched, q.stations);
    DistinctIdsInChunks(q.stations);
    PersistConsistent(h, t, written, q, now);
    if Persist(h, t, q, now).Ok? {
      PersistedIsCurrent(h, t, q, now);
    }
  }
}
