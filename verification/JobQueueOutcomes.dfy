/**
 * What a caller gets from each call of the queue, over every history: when a
 * job can be claimed again, when its attempts are used up, when a lease is
 * overdue, and which calls are accepted at all.
 */
module JobQueueOutcomes {
  import opened Options
  import opened JobRows
  import opened JobHistory
  import opened JobQueueProperties

  /** From now on some worker could claim the job at exactly the instants from `start` on. */
  ghost predicate ClaimableFrom(db: Database, j: JobId, start: Instant) {
    forall w: WorkerId, seconds: int, t: Instant | seconds > 0 ::
      Step(db, Event.Claim(j, w, seconds, t)).Ok? <==> t >= start
  }

  ghost predicate NeverClaimable(db: Database, j: JobId) {
    forall w: WorkerId, seconds: int, t: Instant :: Step(db, Event.Claim(j, w, seconds, t)).Err?
  }

  // ----- Failure and expiry -----

  /** The execution counted so far, a pending resume included, uses up all attempts. */
  predicate AttemptsUsedUp(job: Job) {
    job.attempts + One(job.ResumePending()) >= job.maxAttempts
  }

  /** The instant from which a failed or expired execution may be repeated. */
  function RetryInstant(e: Event): Instant
    requires e.FailOrRequeue? || e.Expire?
  {
    if e.FailOrRequeue? then e.now + e.retryDelay else e.now
  }

  /**
   * A failure report or a sweep ends a job if and only if no claim is left.
   * Otherwise the job can be claimed again, for a failure from its delay on and
   * for a sweep at once, with the same resume request still pending.
   */
  lemma RetriedWhileClaimsRemain(history: seq<Event>, e: Event)
    requires (e.FailOrRequeue? || e.Expire?) && Step(After(history), e).Ok?
    ensures var before, after := After(history)[e.id].job, After(history + [e])[e.id].job;
            && before.Held() && before.attempts <= before.maxAttempts
            && (after.status == Failed <==> ClaimsLeft(before) == 0)
            && (after.status == Failed <==> AttemptsUsedUp(before))
            && (after.status == Failed ==> NeverClaimable(After(history + [e]), e.id) && !after.ResumePending())
            && (after.status != Failed ==> ClaimableFrom(After(history + [e]), e.id, RetryInstant(e)) && after.resume == before.resume)
  {
    ReachableValid(history);
    AfterAppend(history, e);
  }

  // ----- Leases -----

  /** The instant at which the current lease runs out, read off the accepted claims and heartbeats. */
  function Deadline(history: seq<Event>, j: JobId): Option<Instant> {
    if |history| == 0 then None
    else
      var earlier, e := history[..|history| - 1], history[|history| - 1];
      if !Accepts(After(earlier), e, j) then Deadline(earlier, j)
      else if e.Claim? || e.Heartbeat? then Some(e.now + e.leaseSeconds)
      else if e.Settlement() then None
      else Deadline(earlier, j)
  }

  lemma {:induction false} LeaseHoldsDeadline(history: seq<Event>, j: JobId)
    ensures j in After(history) ==>
              var row := After(history)[j];
              if row.lease.Some? && row.lease.value.status == Active then Deadline(history, j) == Some(row.lease.value.expiresAt)
              else Deadline(history, j) == None
    ensures j !in After(history) ==> Deadline(history, j) == None
  {
    if |history| > 0 {
      var earlier, e := history[..|history| - 1], history[|history| - 1];
      LeaseHoldsDeadline(earlier, j);
      ReachableValid(earlier);
      if e.id != j {
        NextIsLocal(After(earlier), e, j);
      }
    }
  }

  /**
   * A sweep takes a job exactly when its last claim or heartbeat is at least
   * the leased seconds ago, so a worker that beats in time is never evicted.
   */
  lemma SweepTakesExactlyOverdueJobs(history: seq<Event>, j: JobId, now: Instant)
    ensures Step(After(history), Expire(j, now)).Ok? <==>
            Deadline(history, j).Some? && Deadline(history, j).value <= now
  {
    LeaseHoldsDeadline(history, j);
    ReachableValid(history);
  }

  // ----- Claiming and running -----

  /** The worker that holds a job has reported that it started. */
  function Started(history: seq<Event>, j: JobId): bool {
    if |history| == 0 then false
    else
      var earlier, e := history[..|history| - 1], history[|history| - 1];
      if !Accepts(After(earlier), e, j) then Started(earlier, j)
      else if e.MarkRunning? then true
      else if e.Claim? then false
      else Started(earlier, j)
  }

  lemma {:induction false} StartedMeansRunning(history: seq<Event>, j: JobId)
    requires j in After(history) && After(history)[j].job.Held()
    ensures After(history)[j].job.status == Running <==> Started(history, j)
  {
    var earlier, e := history[..|history| - 1], history[|history| - 1];
    ReachableValid(earlier);
    if e.id != j {
      NextIsLocal(After(earlier), e, j);
    }
    if !(Accepts(After(earlier), e, j) && (e.Claim? || e.MarkRunning?)) {
      StartedMeansRunning(earlier, j);
    }
  }

  /** Exactly the holder of a job may beat, and it may report its start exactly once per claim. */
  lemma HolderMayBeatAndStartOnce(history: seq<Event>, j: JobId, worker: WorkerId, seconds: nat, now: Instant)
    requires seconds > 0
    ensures Step(After(history), Heartbeat(j, worker, seconds, now)).Ok? <==> TallyOf(history, j).holder == Some(worker)
    ensures Step(After(history), Event.MarkRunning(j, worker, now)).Ok? <==>
            TallyOf(history, j).holder == Some(worker) && !Started(history, j)
  {
    HistoryBalanced(history, j);
    ReachableValid(history);
    if j in After(history) && After(history)[j].job.Held() {
      StartedMeansRunning(history, j);
    }
  }

  /**
   * A claim hands the job to the worker with its resume request as it was
   * submitted, and counts an attempt exactly when there is none.
   */
  lemma ClaimHandsOver(history: seq<Event>, e: Event)
    requires e.Claim? && Step(After(history), e).Ok?
    ensures var before, after := After(history)[e.id].job, After(history + [e])[e.id].job;
            && after.worker == Some(e.worker) && after.resume == before.resume && after.interrupt == before.interrupt
            && after.attempts == before.attempts + One(!before.ResumePending())
            && (before.ResumePending() ==> after.resume.value.value.Some?)
  {
    ReachableValid(history);
    AfterAppend(history, e);
  }

  // ----- Enqueueing, finishing, resuming -----

  /** A fresh job is accepted exactly when it asks for a claim and its identifier and run are new; it is then due from its instant on. */
  lemma EnqueueMakesClaimable(history: seq<Event>, e: Event)
    requires e.Enqueue?
    ensures Step(After(history), e).Ok? <==>
            && e.fields.status == Queued && e.fields.attempts == 0 && e.fields.maxAttempts >= 1
            && e.id !in After(history) && forall j | j in After(history) :: After(history)[j].job.run != e.fields.run
    ensures Step(After(history), e).Ok? ==>
              var db := After(history + [e]);
              && e.id in db && db[e.id].job.run == e.fields.run && db[e.id].job.maxAttempts == e.fields.maxAttempts
              && ClaimsLeft(db[e.id].job) == e.fields.maxAttempts && ClaimableFrom(db, e.id, e.fields.availableAt)
  {
    AfterAppend(history, e);
  }

  /** An accepted result is stored as it was reported, a pending resume counts as applied, and no claim is possible afterwards. */
  lemma FinishStoresResult(history: seq<Event>, e: Event)
    requires e.Finish? && Step(After(history), e).Ok?
    ensures var before, after := After(history)[e.id].job, After(history + [e])[e.id].job;
            && after.status == e.outcome && after.interrupt == e.pending && after.worker.None?
            && (e.outcome == WaitingHuman <==> e.pending.Some?)
            && after.attempts == before.attempts && after.resumes == before.resumes + One(before.ResumePending())
            && (after.resume == if before.ResumePending() then Some(before.resume.value.(value := None, status := Applied)) else before.resume)
    ensures NeverClaimable(After(history + [e]), e.id)
  {
    ReachableValid(history);
    AfterAppend(history, e);
  }

  /** The identifier of the last accepted resume request of a job. */
  function LastRequest(history: seq<Event>, j: JobId): Option<ResumeRequest> {
    if |history| == 0 then None
    else
      var earlier, e := history[..|history| - 1], history[|history| - 1];
      if Accepts(After(earlier), e, j) && e.SubmitResume? then Some(e.request) else LastRequest(earlier, j)
  }

  lemma {:induction false} ResumeHoldsLastRequest(history: seq<Event>, j: JobId)
    ensures j in After(history) ==>
              var resume := After(history)[j].job.resume;
              && (resume.None? <==> LastRequest(history, j).None?)
              && (resume.Some? ==> SameRequest(resume.value, LastRequest(history, j).value))
    ensures j !in After(history) ==> LastRequest(history, j).None?
  {
    if |history| > 0 {
      var earlier, e := history[..|history| - 1], history[|history| - 1];
      ResumeHoldsLastRequest(earlier, j);
      ReachableValid(earlier);
      if e.id != j {
        NextIsLocal(After(earlier), e, j);
      }
    }
  }

  /**
   * A resume request that is not a repetition is accepted exactly while the job
   * waits for that interrupt, its value fits and its identifier is new; the job
   * can then be claimed at once, with the request's value.
   */
  lemma ResumeAcceptedExactly(history: seq<Event>, e: Event)
    requires e.SubmitResume? && e.id in After(history)
    requires var last := LastRequest(history, e.id); last.Some? ==> last.value.(value := e.request.value) != e.request
    ensures var job := After(history)[e.id].job;
            Step(After(history), e).Ok? <==>
            && job.status == WaitingHuman && job.interrupt == Some(Interrupt(e.request.interruptId, e.request.kind)) && e.valueFits
            && (LastRequest(history, e.id).Some? ==> LastRequest(history, e.id).value.requestId != e.request.requestId)
    ensures Step(After(history), e).Ok? ==>
              var db := After(history + [e]);
              && db[e.id].job.ResumePending() && db[e.id].job.resume.value.value == Some(e.request.value)
              && db[e.id].job.attempts == After(history)[e.id].job.attempts && ClaimableFrom(db, e.id, e.now)
  {
    ReachableValid(history);
    ResumeHoldsLastRequest(history, e.id);
    AfterAppend(history, e);
  }

  /** The instants that the rows carry are those of the calls that set them. */
  lemma InstantsAreThoseOfCalls(history: seq<Event>, e: Event)
    requires !e.Enqueue? && Step(After(history), e).Ok?
    ensures var row := After(history + [e])[e.id];
            && (e.Claim? ==> row.job.claimedAt == Some(e.now) && row.lease == Some(Lease(e.worker, Active, e.now, e.now + e.leaseSeconds, None)))
            && (e.MarkRunning? ==> row.job.startedAt == Some(e.now))
            && (e.Heartbeat? ==> row.lease.Some? && row.lease.value.heartbeatAt == e.now)
            && (e.Settlement() ==> row.lease.Some? && row.lease.value.releasedAt == Some(e.now)
                                   && row.lease.value.status == (if e.Expire? then Expired else Released))
            && (e.Settlement() ==> row.job.finishedAt == (if row.job.Terminal() then Some(e.now) else None))
  {
    ReachableValid(history);
    AfterAppend(history, e);
  }
}
