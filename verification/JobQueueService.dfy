/**
 * The queue service over its two tables.  Each method is one transaction: it
 * works on copies of the tables and stores them only when nothing was raised.
 */
module JobQueueService {
  import opened Options
  import opened Arithmetic
  import opened JobRows
  import opened JobHistory

  /** The order in which claimable jobs are picked. */
  predicate PickedBefore(a: JobId, ja: Job, b: JobId, jb: Job) {
    || ja.availableAt < jb.availableAt
    || (ja.availableAt == jb.availableAt && ja.createdAt < jb.createdAt)
    || (ja.availableAt == jb.availableAt && ja.createdAt == jb.createdAt && a <= b)
  }

  /** The order in which expired leases are listed. */
  predicate ListedBefore(a: JobId, la: Lease, b: JobId, lb: Lease) {
    la.expiresAt < lb.expiresAt || (la.expiresAt == lb.expiresAt && a < b)
  }

  ghost predicate ExpiredAt(db: Database, j: JobId, now: Instant) {
    j in db && db[j].lease.Some? && db[j].lease.value.ExpiredBy(now)
  }

  /** The tables after expiring a list of jobs one after the other. */
  ghost function ExpireAll(db: Database, ids: seq<JobId>, now: Instant): Database {
    if |ids| == 0 then db else Next(ExpireAll(db, ids[..|ids| - 1], now), Expire(ids[|ids| - 1], now))
  }

  lemma {:induction false} ExpireAllTouchesListed(db: Database, ids: seq<JobId>, now: Instant, j: JobId)
    requires j !in ids
    ensures j in ExpireAll(db, ids, now) <==> j in db
    ensures j in db ==> ExpireAll(db, ids, now)[j] == db[j]
  {
    if |ids| > 0 {
      assert ids[|ids| - 1] in ids;
      ExpireAllTouchesListed(db, ids[..|ids| - 1], now, j);
    }
  }

  lemma {:induction false} ExpireAllValid(db: Database, ids: seq<JobId>, now: Instant)
    requires Valid(db)
    ensures Valid(ExpireAll(db, ids, now))
  {
    if |ids| > 0 {
      ExpireAllValid(db, ids[..|ids| - 1], now);
      NextValid(ExpireAll(db, ids[..|ids| - 1], now), Expire(ids[|ids| - 1], now));
    }
  }

  lemma ExpireAllNext(db: Database, ids: seq<JobId>, n: nat, now: Instant)
    requires n < |ids|
    ensures ExpireAll(db, ids[..n + 1], now) == Next(ExpireAll(db, ids[..n], now), Event.Expire(ids[n], now))
  {
    assert ids[..n + 1][..n] == ids[..n];
  }

  /** Every listed job loses its lease, and the retry decision is taken on the row it had before the sweep. */
  lemma {:induction false} ExpireAllSettles(db: Database, ids: seq<JobId>, now: Instant, k: nat)
    requires Valid(db)
    requires forall i, m | 0 <= i < m < |ids| :: ids[i] != ids[m]
    requires forall j <- ids :: ExpiredAt(db, j, now)
    requires k < |ids|
    ensures ids[k] in ids && ids[k] in db && ids[k] in ExpireAll(db, ids, now)
    ensures ExpireRow(db[ids[k]], now) == Ok(ExpireAll(db, ids, now)[ids[k]])
    ensures !ExpireAll(db, ids, now)[ids[k]].job.Held()
  {
    var before := ids[..|ids| - 1];
    assert ids[k] in ids;
    ExpiredLeaseBelongsToHeldJob(db[ids[k]], now);
    if k == |ids| - 1 {
      ExpireAllTouchesListed(db, before, now, ids[k]);
    } else {
      ExpireAllSettles(db, before, now, k);
    }
  }

  /** Once every expired lease has been settled, none is left. */
  lemma NothingExpiredIsLeft(db: Database, ids: seq<JobId>, now: Instant, j: JobId)
    requires Valid(db)
    requires forall i, m | 0 <= i < m < |ids| :: ids[i] != ids[m]
    requires forall k <- ids :: ExpiredAt(db, k, now)
    requires ExpiredAt(db, j, now) ==> j in ids
    ensures !ExpiredAt(ExpireAll(db, ids, now), j, now)
  {
    if j in ids {
      var k :| 0 <= k < |ids| && ids[k] == j;
      ExpireAllSettles(db, ids, now, k);
    } else {
      ExpireAllTouchesListed(db, ids, now, j);
    }
  }

  class JobQueue {
    var jobs: map<JobId, Job>
    var leases: map<JobId, Lease>

    /** The two tables joined on the job identifier. */
    ghost function Tables(): Database
      reads this
    {
      map j | j in jobs :: Row(jobs[j], LeaseOf(j))
    }

    function LeaseOf(j: JobId): Option<Lease>
      reads this
    {
      if j in leases then Some(leases[j]) else None
    }

    /** The foreign key of the lease table, and the invariant of the protocol. */
    ghost predicate Consistent()
      reads this
    {
      leases.Keys <= jobs.Keys && Valid(Tables())
    }

    constructor ()
      ensures Consistent() && Tables() == map[]
    {
      jobs, leases := map[], map[];
    }

    method Enqueue(id: JobId, fields: NewJob) returns (r: Result<JobId>)
      requires Consistent()
      modifies this
      ensures Consistent()
      ensures Tables() == Next(old(Tables()), Event.Enqueue(id, fields))
      ensures r == match Step(old(Tables()), Event.Enqueue(id, fields)) case Ok(_) => Ok(id) case Err(x) => Err(x)
    {
      ghost var before := Tables();
      if fields.status != Queued || fields.attempts != 0 || fields.maxAttempts < 1 {
        return Err(ValueError);
      }
      assert RunTaken(before, fields.run) <==> exists j | j in jobs :: jobs[j].run == fields.run by {
        assert forall j | j in jobs :: before[j].job == jobs[j];
      }
      if id in jobs || (exists j | j in jobs :: jobs[j].run == fields.run) {
        return Err(IntegrityError);
      }
      NextValid(before, Event.Enqueue(id, fields));
      assert id !in leases;
      jobs := jobs[id := Job(fields.run, Queued, None, 0, fields.maxAttempts, 0, None, None,
                             fields.availableAt, fields.createdAt, None, None, None)];
      assert Tables() == Next(before, Event.Enqueue(id, fields));
      return Ok(id);
    }

    /** The first claimable job in the order of availability, creation and identifier. */
    method FirstClaimable(now: Instant) returns (r: Option<JobId>)
      ensures r.None? <==> forall j | j in jobs :: !jobs[j].ClaimableAt(now)
      ensures r.Some? ==> r.value in jobs && jobs[r.value].ClaimableAt(now)
      ensures r.Some? ==> forall j | j in jobs && jobs[j].ClaimableAt(now) ::
                PickedBefore(r.value, jobs[r.value], j, jobs[j])
    {
      r := None;
      var rest := jobs.Keys;
      while rest != {}
        invariant rest <= jobs.Keys
        invariant r.None? ==> forall j | j in jobs && j !in rest :: !jobs[j].ClaimableAt(now)
        invariant r.Some? ==> r.value in jobs && jobs[r.value].ClaimableAt(now)
        invariant r.Some? ==> forall j | j in jobs && j !in rest && jobs[j].ClaimableAt(now) ::
                    PickedBefore(r.value, jobs[r.value], j, jobs[j])
        decreases rest
      {
        var j :| j in rest;
        rest := rest - {j};
        if jobs[j].ClaimableAt(now) && (r.None? || !PickedBefore(r.value, jobs[r.value], j, jobs[j])) {
          r := Some(j);
        }
      }
    }

    method Claim(worker: WorkerId, leaseSeconds: int, now: Instant) returns (r: Result<Option<JobId>>)
      requires Consistent()
      modifies this
      ensures Consistent()
      ensures r.Err? <==> leaseSeconds <= 0
      ensures r.Err? || r.value.None? ==> Tables() == old(Tables())
      ensures r == Ok(None) ==> forall j | j in old(jobs) :: !old(jobs)[j].ClaimableAt(now)
      ensures r.Ok? && r.value.Some? ==>
                var j := r.value.value;
                && j in old(jobs) && old(jobs)[j].ClaimableAt(now)
                && (forall k | k in old(jobs) && old(jobs)[k].ClaimableAt(now) ::
                      && old(jobs)[j].availableAt <= old(jobs)[k].availableAt
                      && (old(jobs)[j].availableAt == old(jobs)[k].availableAt ==> old(jobs)[j].createdAt <= old(jobs)[k].createdAt)
                      && (old(jobs)[j].availableAt == old(jobs)[k].availableAt && old(jobs)[j].createdAt == old(jobs)[k].createdAt ==> j <= k))
                && Step(old(Tables()), Event.Claim(j, worker, leaseSeconds, now)) == Ok(Tables())
    {
      if leaseSeconds <= 0 {
        return Err(ValueError);
      }
      var picked := FirstClaimable(now);
      if picked.None? {
        return Ok(None);
      }
      var j := picked.value;
      ghost var before, e := Tables(), Event.Claim(j, worker, leaseSeconds, now);
      var job := jobs[j];
      if job.status == Queued {
        job := job.(attempts := job.attempts + 1);
      }
      job := job.(status := Leased, worker := Some(worker), claimedAt := Some(now));
      NextValid(before, e);
      Commit(j, job, Lease(worker, Active, now, now + leaseSeconds, None), e);
      return Ok(Some(j));
    }

    method MarkRunning(j: JobId, worker: WorkerId, now: Instant) returns (r: Result<()>)
      requires Consistent()
      modifies this
      ensures Consistent()
      ensures Tables() == Next(old(Tables()), Event.MarkRunning(j, worker, now))
      ensures r == Outcome(Step(old(Tables()), Event.MarkRunning(j, worker, now)))
    {
      ghost var before, e := Tables(), Event.MarkRunning(j, worker, now);
      if j !in jobs {
        return Err(LookupError);
      }
      var job := jobs[j];
      if job.status != Leased || job.worker != Some(worker) {
        return Err(RuntimeError);
      }
      job := job.(status := Running, startedAt := Some(now));
      NextValid(before, e);
      Commit(j, job, leases[j], e);
      return Ok(());
    }

    method Heartbeat(j: JobId, worker: WorkerId, leaseSeconds: int, now: Instant) returns (r: Result<()>)
      requires Consistent()
      modifies this
      ensures Consistent()
      ensures Tables() == Next(old(Tables()), Event.Heartbeat(j, worker, leaseSeconds, now))
      ensures r == Outcome(Step(old(Tables()), Event.Heartbeat(j, worker, leaseSeconds, now)))
    {
      ghost var before, e := Tables(), Event.Heartbeat(j, worker, leaseSeconds, now);
      if leaseSeconds <= 0 {
        return Err(ValueError);
      }
      if j !in leases {
        return Err(LookupError);
      }
      var lease := leases[j];
      if lease.status != Active || lease.worker != worker {
        return Err(RuntimeError);
      }
      lease := lease.(heartbeatAt := now, expiresAt := now + leaseSeconds);
      NextValid(before, e);
      Commit(j, jobs[j], lease, e);
      return Ok(());
    }

    method Finish(j: JobId, worker: WorkerId, status: JobStatus, pending: Option<Interrupt>, now: Instant) returns (r: Result<()>)
      requires Consistent()
      modifies this
      ensures Consistent()
      ensures Tables() == Next(old(Tables()), Event.Finish(j, worker, status, pending, now))
      ensures r == Outcome(Step(old(Tables()), Event.Finish(j, worker, status, pending, now)))
    {
      ghost var before, e := Tables(), Event.Finish(j, worker, status, pending, now);
      if status !in {WaitingHuman, Completed, Partial, Failed} {
        return Err(ValueError);
      }
      if j !in jobs {
        return Err(LookupError);
      }
      var job := jobs[j];
      if job.worker != Some(worker) || job.status !in {Leased, Running} {
        return Err(RuntimeError);
      }
      if status == WaitingHuman && pending.None? {
        return Err(ValueError);
      }
      if status != WaitingHuman && pending.Some? {
        return Err(ValueError);
      }
      if job.ResumePending() {
        job := job.(resume := Some(job.resume.value.(value := None, status := Applied)), resumes := job.resumes + 1);
      }
      job := job.(status := status, worker := None, interrupt := pending,
                  finishedAt := if job.(status := status).Terminal() then Some(now) else None);
      NextValid(before, e);
      Commit(j, job, leases[j].(status := Released, releasedAt := Some(now)), e);
      return Ok(());
    }

    method FailOrRequeue(j: JobId, worker: WorkerId, retryDelay: int, now: Instant) returns (r: Result<JobStatus>)
      requires Consistent()
      modifies this
      ensures Consistent()
      ensures Tables() == Next(old(Tables()), Event.FailOrRequeue(j, worker, retryDelay, now))
      ensures match Step(old(Tables()), Event.FailOrRequeue(j, worker, retryDelay, now))
              case Ok(db) => r == Ok(db[j].job.status) && r.value in {Queued, ResumeQueued, Failed}
              case Err(x) => r == Err(x)
    {
      ghost var before, e := Tables(), Event.FailOrRequeue(j, worker, retryDelay, now);
      if retryDelay < 0 {
        return Err(ValueError);
      }
      if j !in jobs {
        return Err(LookupError);
      }
      if jobs[j].worker != Some(worker) {
        return Err(RuntimeError);
      }
      assert RowValid(before[j]);
      var job := Retried(jobs[j], now + retryDelay, now);
      NextValid(before, e);
      Commit(j, job, leases[j].(status := Released, releasedAt := Some(now)), e);
      return Ok(job.status);
    }

    /** Puts a held job back into its queue, or fails it when its attempts are used up. */
    method Retried(job: Job, availableAt: Instant, now: Instant) returns (r: Job)
      requires job.Held()
      ensures RetryOrFail(job, availableAt, now) == Ok(r)
    {
      r := job;
      var resumed := job.ResumePending();
      var effective := job.attempts + if resumed then 1 else 0;
      if effective < job.maxAttempts {
        r := r.(attempts := effective, status := if resumed then ResumeQueued else Queued, worker := None,
                availableAt := availableAt, claimedAt := None, finishedAt := None);
      } else {
        if resumed {
          r := r.(attempts := Min(r.maxAttempts, r.attempts + 1),
                  resume := Some(r.resume.value.(value := None, status := ResumeFailed)));
        }
        r := r.(status := Failed, worker := None, interrupt := None, finishedAt := Some(now));
      }
    }

    /** The one job of a governance run. */
    method FindByRun(run: nat) returns (r: Option<JobId>)
      requires Consistent()
      ensures r.None? ==> !RunTaken(Tables(), run)
      ensures r.Some? ==> r.value in jobs && forall j | j in jobs :: jobs[j].run == run <==> j == r.value
    {
      assert forall j | j in jobs :: Tables()[j].job == jobs[j];
      if !exists j | j in jobs :: jobs[j].run == run {
        return None;
      }
      var j :| j in jobs && jobs[j].run == run;
      return Some(j);
    }

    method SubmitResume(run: nat, request: ResumeRequest, valueFits: bool, now: Instant) returns (r: Result<JobId>)
      requires Consistent()
      modifies this
      ensures Consistent()
      ensures r == Err(LookupError) ==> !RunTaken(old(Tables()), run) && Tables() == old(Tables())
      ensures r != Err(LookupError) ==> exists j | j in old(jobs) && old(jobs)[j].run == run ::
                && Tables() == Next(old(Tables()), Event.SubmitResume(j, request, valueFits, now))
                && r == match Step(old(Tables()), Event.SubmitResume(j, request, valueFits, now)) case Ok(_) => Ok(j) case Err(x) => Err(x)
    {
      var found := FindByRun(run);
      if found.None? {
        return Err(LookupError);
      }
      assert found.value in jobs && jobs[found.value].run == run;
      r := QueueResume(found.value, request, valueFits, now);
    }

    method QueueResume(j: JobId, request: ResumeRequest, valueFits: bool, now: Instant) returns (r: Result<JobId>)
      requires Consistent() && j in jobs
      modifies this
      ensures Consistent()
      ensures Tables() == Next(old(Tables()), Event.SubmitResume(j, request, valueFits, now))
      ensures r != Err(LookupError)
      ensures r == match Step(old(Tables()), Event.SubmitResume(j, request, valueFits, now)) case Ok(_) => Ok(j) case Err(x) => Err(x)
    {
      ghost var before, e := Tables(), Event.SubmitResume(j, request, valueFits, now);
      NextValid(before, e);
      var job := jobs[j];
      if job.resume.Some? && SameRequest(job.resume.value, request) {
        assert before[j := before[j]] == before;
        return Ok(j);
      }
      if job.resume.Some? && job.resume.value.requestId == request.requestId {
        return Err(RuntimeError);
      }
      if job.status != WaitingHuman {
        return Err(RuntimeError);
      }
      if job.interrupt.None? || job.interrupt.value.id != request.interruptId || job.interrupt.value.kind != request.kind {
        return Err(RuntimeError);
      }
      if !valueFits {
        return Err(ValueError);
      }
      jobs := jobs[j := job.(
        status := ResumeQueued, availableAt := now, claimedAt := None, startedAt := None, finishedAt := None,
        resume := Some(ResumeState(request.requestId, request.interruptId, request.kind, request.digest,
                                   Some(request.value), Pending)))];
      assert Tables() == Next(before, e);
      return Ok(j);
    }

    /** Stores the rows of one job at the end of its transaction. */
    method Commit(j: JobId, job: Job, lease: Lease, ghost e: Event)
      requires Consistent() && j in jobs && e.id == j
      requires Step(Tables(), e) == Ok(Tables()[j := Row(job, Some(lease))])
      requires Valid(Next(Tables(), e))
      modifies this
      ensures Consistent() && jobs == old(jobs)[j := job] && leases == old(leases)[j := lease]
      ensures Step(old(Tables()), e) == Ok(Tables())
    {
      jobs, leases := jobs[j := job], leases[j := lease];
      assert Tables() == old(Tables())[j := Row(job, Some(lease))];
    }

    /** The expired active leases in the order of expiry, at most `limit` of them. */
    method ListExpired(now: Instant, limit: nat) returns (ids: seq<JobId>)
      requires Consistent()
      ensures |ids| <= limit
      ensures forall i, k | 0 <= i < k < |ids| :: ids[i] != ids[k]
      ensures forall j <- ids :: j in leases && ExpiredAt(Tables(), j, now)
      ensures forall i, k | 0 <= i < k < |ids| :: ListedBefore(ids[i], leases[ids[i]], ids[k], leases[ids[k]])
      ensures |ids| < limit ==> forall j | ExpiredAt(Tables(), j, now) :: j in ids
      ensures forall j, k | j in leases && leases[j].ExpiredBy(now) && j !in ids && 0 <= k < |ids| ::
                ListedBefore(ids[k], leases[ids[k]], j, leases[j])
    {
      ids := [];
      var rest := set j | j in leases && leases[j].ExpiredBy(now);
      while rest != {} && |ids| < limit
        invariant |ids| <= limit
        invariant forall j <- rest :: j in leases && leases[j].ExpiredBy(now) && j !in ids
        invariant forall j | j in leases && leases[j].ExpiredBy(now) :: j in rest || j in ids
        invariant forall j <- ids :: j in leases && leases[j].ExpiredBy(now)
        invariant forall i, k | 0 <= i < k < |ids| :: ids[i] != ids[k]
        invariant forall i, k | 0 <= i < k < |ids| :: ListedBefore(ids[i], leases[ids[i]], ids[k], leases[ids[k]])
        invariant forall j, k | j in rest && 0 <= k < |ids| :: ListedBefore(ids[k], leases[ids[k]], j, leases[j])
        decreases rest
      {
        var first := Earliest(rest);
        ids := ids + [first];
        rest := rest - {first};
      }
    }

    method Earliest(candidates: set<JobId>) returns (first: JobId)
      requires candidates != {} && candidates <= leases.Keys
      ensures first in candidates
      ensures forall j <- candidates :: j == first || ListedBefore(first, leases[first], j, leases[j])
    {
      first :| first in candidates;
      var rest := candidates - {first};
      while rest != {}
        invariant rest <= candidates && first in candidates
        invariant forall j <- candidates :: j in rest || j == first || ListedBefore(first, leases[first], j, leases[j])
        decreases rest
      {
        var j :| j in rest;
        rest := rest - {j};
        if ListedBefore(j, leases[j], first, leases[first]) {
          first := j;
        }
      }
    }

    /** Settles one expired lease through the retry decision. */
    method ExpireOne(j: JobId, now: Instant)
      requires Consistent() && j in leases && ExpiredAt(Tables(), j, now)
      modifies this
      ensures Consistent() && Tables() == Next(old(Tables()), Event.Expire(j, now))
    {
      ghost var db := Tables();
      ExpiredLeaseBelongsToHeldJob(db[j], now);
      var job := Retried(jobs[j], now, now);
      NextValid(db, Event.Expire(j, now));
      Commit(j, job, leases[j].(status := Expired, releasedAt := Some(now)), Event.Expire(j, now));
    }

    /**
     * The sweep: the earliest expired leases, at most `limit`, are all settled
     * in one transaction that never raises; no other row is touched.
     */
    method RequeueExpired(now: Instant, limit: int) returns (r: Result<nat>, ghost ids: seq<JobId>)
      requires Consistent()
      modifies this
      ensures Consistent()
      ensures r.Err? <==> !(1 <= limit <= 1000)
      ensures r.Err? ==> Tables() == old(Tables())
      ensures r.Ok? ==> r.value == |ids| <= limit
      ensures r.Ok? ==> forall i, k | 0 <= i < k < |ids| :: ids[i] != ids[k]
      ensures r.Ok? ==> forall j <- ids :: j in old(leases) && ExpiredAt(old(Tables()), j, now)
      ensures r.Ok? ==> forall j, k | j in old(leases) && old(leases)[j].ExpiredBy(now) && j !in ids && 0 <= k < |ids| ::
                && old(leases)[ids[k]].expiresAt <= old(leases)[j].expiresAt
                && (old(leases)[ids[k]].expiresAt == old(leases)[j].expiresAt ==> ids[k] < j)
      ensures r.Ok? ==> Tables() == ExpireAll(old(Tables()), ids, now)
      ensures r.Ok? && r.value < limit ==> forall j :: !ExpiredAt(Tables(), j, now)
    {
      if limit < 1 || limit > 1000 {
        ids := [];
        return Err(ValueError), ids;
      }
      ghost var before := Tables();
      var listed := ListExpired(now, limit);
      ids := listed;
      var processed := ExpireListed(listed, now);
      if processed < limit {
        forall j ensures !ExpiredAt(Tables(), j, now) {
          NothingExpiredIsLeft(before, listed, now, j);
        }
      }
      return Ok(processed), ids;
    }

    /** The loop of the sweep. */
    method ExpireListed(listed: seq<JobId>, now: Instant) returns (processed: nat)
      requires Consistent()
      requires forall i, k | 0 <= i < k < |listed| :: listed[i] != listed[k]
      requires forall j <- listed :: j in leases && ExpiredAt(Tables(), j, now)
      modifies this
      ensures Consistent() && Tables() == ExpireAll(old(Tables()), listed, now)
      ensures processed == |listed|
    {
      ghost var before := Tables();
      processed := 0;
      while processed < |listed|
        invariant 0 <= processed <= |listed|
        invariant Consistent()
        invariant Tables() == ExpireAll(before, listed[..processed], now)
      {
        var j := listed[processed];
        ExpireAllTouchesListed(before, listed[..processed], now, j);
        assert ExpiredAt(before, j, now) && j in leases && ExpiredAt(Tables(), j, now);
        ExpireOne(j, now);
        ExpireAllNext(before, listed, processed, now);
        processed := processed + 1;
      }
      assert listed[..processed] == listed;
    }
  }

  function Outcome<T>(r: Result<T>): Result<()> {
    if r.Ok? then Ok(()) else Err(r.error)
  }
}
