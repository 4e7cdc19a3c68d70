/** A scheduled job's row, and what each conditional UPDATE of `jobs/store.py`
    does to it. Timestamps are whole seconds: the store's canonical strings
    compare as they do. */
module Jobs {

  import opened Wrappers

  type Time = int
  type Token = nat

  datatype Kind = Ticket | Agent | Script

  /** `running` is run_status = 'running'. */
  datatype Job = Job(
    kind: Kind, cron: string, enabled: bool, expires: Option<Time>,
    nextRun: Time, lastRun: Option<Time>, lastError: Option<string>,
    running: bool, token: Option<Token>, attempt: int, pid: Option<int>)

  predicate Due(j: Job, now: Time) { j.enabled && j.nextRun <= now }

  predicate Expired(j: Job, now: Time) { j.expires.Some? && j.expires.value <= now }

  function Claimed(j: Job, now: Time, nextRun: Time, lastError: Option<string>, token: Token): Job {
    j.(lastRun := Some(now), nextRun := nextRun, lastError := lastError,
       running := true, token := Some(token), attempt := 1)
  }

  function Idle(j: Job): Job { j.(running := false, token := None, attempt := 0) }

  predicate Owns(token: Option<Token>, j: Job) { token.Some? && j.token == token }

  function Cleared(j: Job, token: Option<Token>): Job {
    if Owns(token, j) then Idle(j) else j
  }

  predicate Bumps(j: Job, expected: int) { j.running && j.attempt == expected }

  function Bumped(j: Job, expected: int): Job {
    if Bumps(j, expected) then j.(attempt := expected + 1) else j
  }

  predicate Releases(j: Job) { j.running && j.attempt >= 2 }

  function Released(j: Job, lastError: Option<string>): Job {
    if Releases(j) then Idle(j).(lastError := lastError) else j
  }

  /** A stop drops the mark whoever holds it. */
  function Stopped(j: Job): Job { Idle(j).(pid := None) }

  function Recorded(j: Job, token: Option<Token>, lastError: Option<string>): Job {
    if token.None? || Owns(token, j) then j.(lastError := lastError) else j
  }

  /** `_claim_still_held`: a snapshot without a token has nothing to check. */
  predicate StillHeld(row: Option<Job>, token: Option<Token>) {
    token.None? || (row.Some? && row.value.running && row.value.token == token)
  }

  /** Running exactly when claimed; one or two attempts while running, none idle. */
  predicate Sound(j: Job) {
    && (j.running <==> j.token.Some?)
    && (j.running ==> j.attempt in {1, 2})
    && (!j.running ==> j.attempt == 0)
  }

  /** The cron of a job as its next slot after an instant; None cannot be scheduled. */
  type Cron = (string, Time) -> Option<Time>

  ghost predicate IsCron(next: Cron) {
    forall c, t :: next(c, t).Some? ==> next(c, t).value > t
  }
}
