/**
 * The background-job and lease tables, and the effect of every repository
 * operation on the one job it addresses.
 *
 * A database transaction is one atomic step.  An operation that raises rolls
 * the transaction back, so it is modelled by an `Err` result and no new state.
 * Identifiers are natural numbers that stand for the position of the
 * (normalised) string in string order; instants are integers.
 */
module JobRows {
  import opened Options
  import opened Arithmetic

  type JobId = nat
  type WorkerId = nat
  type Instant = int

  datatype JobStatus = Queued | ResumeQueued | Leased | Running | WaitingHuman | Completed | Partial | Failed

  datatype InterruptKind = FileGovernanceReview | ErrorRecovery

  datatype Interrupt = Interrupt(id: nat, kind: InterruptKind)

  datatype ResumeStatus = Pending | Applied | ResumeFailed

  datatype ResumeState = ResumeState(
    requestId: nat, interruptId: nat, kind: InterruptKind, digest: nat,
    value: Option<nat>, status: ResumeStatus)

  datatype Job = Job(
    run: nat, status: JobStatus, worker: Option<WorkerId>,
    attempts: nat, maxAttempts: nat, resumes: nat,
    interrupt: Option<Interrupt>, resume: Option<ResumeState>,
    availableAt: Instant, createdAt: Instant,
    claimedAt: Option<Instant>, startedAt: Option<Instant>, finishedAt: Option<Instant>)
  {
    predicate Terminal() {
      status in {Completed, Partial, Failed}
    }

    /** Some worker is entitled to execute the job. */
    predicate Held() {
      status in {Leased, Running}
    }

    predicate ResumePending() {
      resume.Some? && resume.value.status == Pending
    }

    predicate ClaimableAt(now: Instant) {
      && status in {Queued, ResumeQueued}
      && availableAt <= now
      && (status == ResumeQueued || attempts < maxAttempts)
    }
  }

  datatype LeaseStatus = Active | Released | Expired

  datatype Lease = Lease(worker: WorkerId, status: LeaseStatus, heartbeatAt: Instant, expiresAt: Instant,
                         releasedAt: Option<Instant>)
  {
    predicate ExpiredBy(now: Instant) {
      status == Active && expiresAt <= now
    }
  }

  /** A job row together with its lease row; `worker_leases` is keyed by the job. */
  datatype Row = Row(job: Job, lease: Option<Lease>)

  datatype ResumeRequest = ResumeRequest(requestId: nat, interruptId: nat, kind: InterruptKind, digest: nat, value: nat)

  datatype NewJob = NewJob(run: nat, status: JobStatus, attempts: int, maxAttempts: int,
                           availableAt: Instant, createdAt: Instant)

  /** One call of the queue service that addresses one job.  `Expire` is one round of the expiry sweep. */
  datatype Event =
    | Enqueue(id: JobId, fields: NewJob)
    | Claim(id: JobId, worker: WorkerId, leaseSeconds: int, now: Instant)
    | MarkRunning(id: JobId, worker: WorkerId, now: Instant)
    | Heartbeat(id: JobId, worker: WorkerId, leaseSeconds: int, now: Instant)
    | Finish(id: JobId, worker: WorkerId, outcome: JobStatus, pending: Option<Interrupt>, now: Instant)
    | FailOrRequeue(id: JobId, worker: WorkerId, retryDelay: int, now: Instant)
    | Expire(id: JobId, now: Instant)
    | SubmitResume(id: JobId, request: ResumeRequest, valueFits: bool, now: Instant)
  {
    /** The calls that only the worker holding the job may make. */
    predicate OwnerCall() {
      MarkRunning? || Heartbeat? || Finish? || FailOrRequeue?
    }

    /** The calls that end a worker's hold on a job. */
    predicate Settlement() {
      Finish? || FailOrRequeue? || Expire?
    }

    /** Arguments that are refused before the database is read. */
    predicate BadArguments() {
      match this
      case Claim(_, _, seconds, _) => seconds <= 0
      case Heartbeat(_, _, seconds, _) => seconds <= 0
      case Finish(_, _, outcome, _, _) => outcome !in {WaitingHuman, Completed, Partial, Failed}
      case FailOrRequeue(_, _, delay, _) => delay < 0
      case _ => false
    }
  }

  function NewRow(fields: NewJob): (r: Result<Row>) {
    if fields.status != Queued || fields.attempts != 0 || fields.maxAttempts < 1 then
      Err(ValueError)
    else
      Ok(Row(Job(fields.run, Queued, None, 0, fields.maxAttempts, 0, None, None,
                 fields.availableAt, fields.createdAt, None, None, None), None))
  }

  function ClaimRow(row: Row, worker: WorkerId, leaseSeconds: int, now: Instant): (r: Result<Row>) {
    if !row.job.ClaimableAt(now) then
      Err(LookupError)
    else
      var job := row.job.(status := Leased, worker := Some(worker), claimedAt := Some(now),
                          attempts := row.job.attempts + if row.job.status == Queued then 1 else 0);
      Ok(Row(job, Some(Lease(worker, Active, now, now + leaseSeconds, None))))
  }

  function MarkRunningRow(row: Row, worker: WorkerId, now: Instant): (r: Result<Row>) {
    if row.job.status != Leased || row.job.worker != Some(worker) then
      Err(RuntimeError)
    else
      Ok(row.(job := row.job.(status := Running, startedAt := Some(now))))
  }

  function HeartbeatRow(row: Row, worker: WorkerId, leaseSeconds: int, now: Instant): (r: Result<Row>) {
    if row.lease.None? then
      Err(LookupError)
    else if row.lease.value.status != Active || row.lease.value.worker != worker then
      Err(RuntimeError)
    else
      Ok(row.(lease := Some(row.lease.value.(heartbeatAt := now, expiresAt := now + leaseSeconds))))
  }

  function ReleaseLease(lease: Option<Lease>, worker: WorkerId, status: LeaseStatus, now: Instant): (r: Result<Option<Lease>>) {
    if lease.None? then
      Err(LookupError)
    else if lease.value.worker != worker then
      Err(RuntimeError)
    else
      Ok(Some(lease.value.(status := status, releasedAt := Some(now))))
  }

  function FinishRow(row: Row, worker: WorkerId, outcome: JobStatus, pending: Option<Interrupt>, now: Instant): (r: Result<Row>) {
    if row.job.worker != Some(worker) || !row.job.Held() then
      Err(RuntimeError)
    else if (outcome == WaitingHuman) != pending.Some? then
      Err(ValueError)
    else
      var applied := row.job.ResumePending();
      var job := row.job.(
        status := outcome, worker := None, interrupt := pending,
        resume := if applied then Some(row.job.resume.value.(value := None, status := Applied)) else row.job.resume,
        resumes := row.job.resumes + if applied then 1 else 0,
        finishedAt := if outcome == WaitingHuman then None else Some(now));
      var lease :- ReleaseLease(row.lease, worker, Released, now);
      Ok(Row(job, lease))
  }

  /** Puts a job that still has attempts left back into its queue. */
  function RequeueJob(job: Job, availableAt: Instant, countAttempt: bool): (r: Result<Job>) {
    var attempts := job.attempts + if countAttempt then 1 else 0;
    if job.Terminal() || attempts >= job.maxAttempts then
      Err(RuntimeError)
    else
      Ok(job.(attempts := attempts, status := if job.ResumePending() then ResumeQueued else Queued,
              worker := None, availableAt := availableAt, claimedAt := None, finishedAt := None))
  }

  /** Ends a job whose attempts are used up; the counter never passes its limit. */
  function FailJob(job: Job, now: Instant, countAttempt: bool): (r: Job) {
    job.(attempts := if countAttempt then Min(job.maxAttempts, job.attempts + 1) else job.attempts,
         resume := if job.ResumePending() then Some(job.resume.value.(value := None, status := ResumeFailed)) else job.resume,
         status := Failed, worker := None, interrupt := None, finishedAt := Some(now))
  }

  /** The retry decision shared by a worker's failure report and the expiry sweep. */
  function RetryOrFail(job: Job, availableAt: Instant, now: Instant): (r: Result<Job>) {
    var resumed := job.ResumePending();
    if job.attempts + (if resumed then 1 else 0) < job.maxAttempts then
      RequeueJob(job, availableAt, resumed)
    else
      Ok(FailJob(job, now, resumed))
  }

  function FailOrRequeueRow(row: Row, worker: WorkerId, retryDelay: int, now: Instant): (r: Result<Row>) {
    if row.job.worker != Some(worker) then
      Err(RuntimeError)
    else
      var job :- RetryOrFail(row.job, now + retryDelay, now);
      var lease :- ReleaseLease(row.lease, worker, Released, now);
      Ok(Row(job, lease))
  }

  /** One round of the sweep; a lease that is not listed as expired is refused. */
  function ExpireRow(row: Row, now: Instant): (r: Result<Row>) {
    if row.lease.None? || !row.lease.value.ExpiredBy(now) then
      Err(LookupError)
    else
      var job :- if row.job.Terminal() || row.job.status == WaitingHuman then Ok(row.job)
                 else RetryOrFail(row.job, now, now);
      var lease :- ReleaseLease(row.lease, row.lease.value.worker, Expired, now);
      Ok(Row(job, lease))
  }

  predicate SameRequest(state: ResumeState, request: ResumeRequest) {
    && state.requestId == request.requestId && state.interruptId == request.interruptId
    && state.kind == request.kind && state.digest == request.digest
  }

  function SubmitResumeRow(row: Row, request: ResumeRequest, valueFits: bool, now: Instant): (r: Result<Row>) {
    var job := row.job;
    if job.resume.Some? && SameRequest(job.resume.value, request) then
      Ok(row)
    else if job.resume.Some? && job.resume.value.requestId == request.requestId then
      Err(RuntimeError)
    else if job.status != WaitingHuman then
      Err(RuntimeError)
    else if job.interrupt.None? || job.interrupt.value.id != request.interruptId then
      Err(RuntimeError)
    else if job.interrupt.value.kind != request.kind then
      Err(RuntimeError)
    else if !valueFits then
      Err(ValueError)
    else
      Ok(row.(job := job.(
        status := ResumeQueued, availableAt := now, claimedAt := None, startedAt := None, finishedAt := None,
        resume := Some(ResumeState(request.requestId, request.interruptId, request.kind, request.digest,
                                   Some(request.value), Pending)))))
  }

  /** The effect of an event on the row of the job it addresses. */
  function StepRow(row: Row, e: Event): (r: Result<Row>) {
    if e.BadArguments() then Err(ValueError) else
    match e
    case Enqueue(_, _) => Err(IntegrityError)
    case Claim(_, worker, seconds, now) => ClaimRow(row, worker, seconds, now)
    case MarkRunning(_, worker, now) => MarkRunningRow(row, worker, now)
    case Heartbeat(_, worker, seconds, now) => HeartbeatRow(row, worker, seconds, now)
    case Finish(_, worker, outcome, pending, now) => FinishRow(row, worker, outcome, pending, now)
    case FailOrRequeue(_, worker, delay, now) => FailOrRequeueRow(row, worker, delay, now)
    case Expire(_, now) => ExpireRow(row, now)
    case SubmitResume(_, request, fits, now) => SubmitResumeRow(row, request, fits, now)
  }

  /** What holds of every row in every reachable state. */
  predicate RowValid(row: Row) {
    var job := row.job;
    && 1 <= job.maxAttempts && job.attempts <= job.maxAttempts
    && (job.Held() <==> job.worker.Some?)
    && (job.Held() <==> row.lease.Some? && row.lease.value.status == Active)
    && (job.Held() ==> row.lease.value.worker == job.worker.value)
    && (row.lease.Some? ==> row.lease.value.heartbeatAt < row.lease.value.expiresAt)
    && (job.status == Queued ==> job.attempts < job.maxAttempts)
    && (job.status == Queued ==> !job.ResumePending())
    && (job.Held() && !job.ResumePending() ==> 1 <= job.attempts)
    && (job.status == ResumeQueued ==> job.ResumePending())
    && (job.ResumePending() ==> job.status == ResumeQueued || job.Held())
    && (job.resume.Some? && job.resume.value.status == ResumeFailed ==> job.status == Failed)
    && (job.ResumePending() ==> job.resume.value.value.Some?)
    && (job.status == WaitingHuman ==> job.interrupt.Some?)
    && (job.ResumePending() ==> job.interrupt == Some(Interrupt(job.resume.value.interruptId, job.resume.value.kind)))
    && (job.Terminal() ==> job.interrupt.None?)
    && (job.Terminal() <==> job.finishedAt.Some?)
  }

  lemma NewRowValid(fields: NewJob)
    ensures NewRow(fields).Ok? ==> RowValid(NewRow(fields).value)
  {
  }

  lemma StepRowValid(row: Row, e: Event)
    requires RowValid(row)
    ensures StepRow(row, e).Ok? ==> RowValid(StepRow(row, e).value)
  {
  }

  /**
   * A listed lease always belongs to a job that is being executed, so the
   * sweep's branch for finished or waiting jobs is never taken, and no call
   * inside the round raises.
   */
  lemma ExpiredLeaseBelongsToHeldJob(row: Row, now: Instant)
    requires RowValid(row) && row.lease.Some? && row.lease.value.ExpiredBy(now)
    ensures row.job.Held() && row.job.worker == Some(row.lease.value.worker)
    ensures ExpireRow(row, now).Ok? && !ExpireRow(row, now).value.job.Held()
  {
  }
}
