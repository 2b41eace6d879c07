/** The background worker as a client of the queue: its heartbeat and the way it closes a job. */
module Worker {
  import opened Options
  import opened JobRows
  import opened JobHistory
  import opened JobQueueProperties
  import opened JobQueueOutcomes
  import opened JobQueueService

  /** The final run status a graph execution reports; `Unknown` is anything that is not a known status. */
  datatype GraphStatus = GraphWaiting | GraphCompleted | GraphPartial | GraphFailed | Unknown

  /** What the executor produced: it raised, it returned an interrupt list that cannot be stored, or a usable result. */
  datatype Execution =
    | Raised
    | UnusableInterrupts
    | Returned(interrupt: Option<Interrupt>, status: GraphStatus)

  function ClosingStatus(interrupt: Option<Interrupt>, status: GraphStatus): JobStatus {
    if interrupt.Some? || status == GraphWaiting then WaitingHuman
    else match status
      case GraphCompleted => Completed
      case GraphPartial => Partial
      case _ => Failed
  }

  /** The executor's result leads to a `finish` call; otherwise the failure is reported. */
  predicate Reports(x: Execution, heartbeatFailed: bool) {
    x.Returned? && !heartbeatFailed
  }

  /** The one result that `finish` refuses although the worker holds the job. */
  predicate WaitsWithoutInterrupt(x: Execution) {
    x.Returned? && x.status == GraphWaiting && x.interrupt.None?
  }

  /** How a job execution ends: the new tables, and whether the closing call raised. */
  datatype Ending = Ending(db: Database, raised: bool)

  function CloseJob(db: Database, j: JobId, worker: WorkerId, x: Execution, heartbeatFailed: bool,
                    retryDelay: nat, finishedAt: Instant, failedAt: Instant): Ending
  {
    if Reports(x, heartbeatFailed)
       && Step(db, Finish(j, worker, ClosingStatus(x.interrupt, x.status), x.interrupt, finishedAt)).Ok?
    then Ending(Next(db, Finish(j, worker, ClosingStatus(x.interrupt, x.status), x.interrupt, finishedAt)), false)
    else
      var e := FailOrRequeue(j, worker, retryDelay, failedAt);
      Ending(Next(db, e), Step(db, e).Err?)
  }

  /**
   * A worker that was not evicted always closes its job: with the mapped
   * status when it has a result to report, otherwise through the retry
   * decision.  A worker that was evicted changes nothing and its call raises.
   */
  lemma ClosingAJob(history: seq<Event>, more: seq<Event>, j: JobId, worker: WorkerId, x: Execution, heartbeatFailed: bool,
                    retryDelay: nat, finishedAt: Instant, failedAt: Instant)
    requires TallyOf(history, j).holder == Some(worker)
    requires Executing(more, j, worker)
    ensures var db := After(history + more);
            var end := CloseJob(db, j, worker, x, heartbeatFailed, retryDelay, finishedAt, failedAt);
            && (end.raised <==> Evicted(history, more, j))
            && (end.raised ==> end.db == db)
            && (!end.raised ==>
                  && j in end.db && !end.db[j].job.Held()
                  && (Reports(x, heartbeatFailed) && !WaitsWithoutInterrupt(x) ==>
                        end.db[j].job.status == ClosingStatus(x.interrupt, x.status) && end.db[j].job.interrupt == x.interrupt)
                  && (!Reports(x, heartbeatFailed) || WaitsWithoutInterrupt(x) ==>
                        end.db[j].job.status in {Queued, ResumeQueued, Failed}))
  {
    HeldUnlessEvicted(history, more, j, worker);
    if Evicted(history, more, j) {
      OwnCallsRaise(history + more, j, worker, x, retryDelay, finishedAt, failedAt);
    } else {
      HistoryBalanced(history + more, j);
      ReachableValid(history + more);
      HolderCloses(After(history + more), j, worker, x, heartbeatFailed, retryDelay, finishedAt, failedAt);
    }
  }

  /** The worker that holds a job always gets rid of it. */
  lemma HolderCloses(db: Database, j: JobId, worker: WorkerId, x: Execution, heartbeatFailed: bool,
                     retryDelay: nat, finishedAt: Instant, failedAt: Instant)
    requires j in db && RowValid(db[j]) && db[j].job.worker == Some(worker)
    ensures var end := CloseJob(db, j, worker, x, heartbeatFailed, retryDelay, finishedAt, failedAt);
            && !end.raised && j in end.db && !end.db[j].job.Held()
            && (Reports(x, heartbeatFailed) && !WaitsWithoutInterrupt(x) ==>
                  end.db[j].job.status == ClosingStatus(x.interrupt, x.status) && end.db[j].job.interrupt == x.interrupt)
            && (!Reports(x, heartbeatFailed) || WaitsWithoutInterrupt(x) ==>
                  end.db[j].job.status in {Queued, ResumeQueued, Failed})
  {
  }

  /** No call that a worker makes about a job it does not hold is accepted. */
  lemma OwnCallsRaise(history: seq<Event>, j: JobId, worker: WorkerId, x: Execution, retryDelay: nat,
                      finishedAt: Instant, failedAt: Instant)
    requires TallyOf(history, j).holder != Some(worker)
    ensures Step(After(history), FailOrRequeue(j, worker, retryDelay, failedAt)).Err?
    ensures x.Returned? ==> Step(After(history), Finish(j, worker, ClosingStatus(x.interrupt, x.status), x.interrupt, finishedAt)).Err?
  {
    if Step(After(history), FailOrRequeue(j, worker, retryDelay, failedAt)).Ok? {
      OwnerCallNeedsOpenClaim(history, FailOrRequeue(j, worker, retryDelay, failedAt));
    }
    if x.Returned? {
      var finish := Finish(j, worker, ClosingStatus(x.interrupt, x.status), x.interrupt, finishedAt);
      if Step(After(history), finish).Ok? {
        OwnerCallNeedsOpenClaim(history, finish);
      }
    }
  }

  /**
   * What becomes of the job of a worker that was not evicted: an interrupt makes
   * it wait, a final graph status is stored, and whatever cannot be stored ends
   * the job exactly when its attempts are used up.
   */
  lemma ResultBecomesStatus(history: seq<Event>, more: seq<Event>, j: JobId, worker: WorkerId, x: Execution, heartbeatFailed: bool,
                            retryDelay: nat, finishedAt: Instant, failedAt: Instant)
    requires TallyOf(history, j).holder == Some(worker)
    requires Executing(more, j, worker) && !Evicted(history, more, j)
    ensures j in After(history + more)
    ensures var end := CloseJob(After(history + more), j, worker, x, heartbeatFailed, retryDelay, finishedAt, failedAt);
            && j in end.db
            && var status := end.db[j].job.status;
               if x.Returned? && !heartbeatFailed && x.interrupt.Some? then status == WaitingHuman
               else if x.Returned? && !heartbeatFailed && x.status == GraphCompleted then status == Completed
               else if x.Returned? && !heartbeatFailed && x.status == GraphPartial then status == Partial
               else if x.Returned? && !heartbeatFailed && x.status != GraphWaiting then status == Failed
               else status == Failed <==> AttemptsUsedUp(After(history + more)[j].job)
  {
    HeldUnlessEvicted(history, more, j, worker);
    HistoryBalanced(history + more, j);
    ReachableValid(history + more);
    ClosingAJob(history, more, j, worker, x, heartbeatFailed, retryDelay, finishedAt, failedAt);
    FailureIsRetried(history + more, FailOrRequeue(j, worker, retryDelay, failedAt));
  }

  lemma FailureIsRetried(history: seq<Event>, e: Event)
    requires e.FailOrRequeue?
    ensures Step(After(history), e).Ok? ==>
              e.id in Next(After(history), e)
              && (Next(After(history), e)[e.id].job.status == Failed <==> AttemptsUsedUp(After(history)[e.id].job))
  {
    if Step(After(history), e).Ok? {
      RetriedWhileClaimsRemain(history, e);
      AfterAppend(history, e);
    }
  }

  /** A heartbeat fails exactly when the worker has been evicted. */
  lemma HeartbeatFailsWhenEvicted(history: seq<Event>, more: seq<Event>, j: JobId, worker: WorkerId,
                                  leaseSeconds: nat, now: Instant)
    requires leaseSeconds > 0
    requires TallyOf(history, j).holder == Some(worker)
    requires Executing(more, j, worker)
    ensures Step(After(history + more), Heartbeat(j, worker, leaseSeconds, now)).Err? <==> Evicted(history, more, j)
  {
    HeldUnlessEvicted(history, more, j, worker);
    HistoryBalanced(history + more, j);
    ReachableValid(history + more);
    if Step(After(history + more), Heartbeat(j, worker, leaseSeconds, now)).Ok? {
      OwnerCallNeedsOpenClaim(history + more, Heartbeat(j, worker, leaseSeconds, now));
    }
  }

  class BackgroundWorker {
    const queue: JobQueue
    const id: WorkerId
    const leaseSeconds: nat
    const retryDelay: nat
    var heartbeatFailed: bool

    constructor (queue: JobQueue, id: WorkerId, leaseSeconds: nat, retryDelay: nat)
      ensures this.queue == queue && this.id == id && this.leaseSeconds == leaseSeconds && this.retryDelay == retryDelay
      ensures !heartbeatFailed
    {
      this.queue, this.id, this.leaseSeconds, this.retryDelay := queue, id, leaseSeconds, retryDelay;
      heartbeatFailed := false;
    }

    /** One round of the heartbeat thread; `stop` ends the thread. */
    method Beat(j: JobId, now: Instant) returns (stop: bool)
      requires queue.Consistent()
      modifies this`heartbeatFailed, queue
      ensures queue.Consistent()
      ensures queue.Tables() == Next(old(queue.Tables()), Heartbeat(j, id, leaseSeconds, now))
      ensures stop <==> Step(old(queue.Tables()), Heartbeat(j, id, leaseSeconds, now)).Err?
      ensures heartbeatFailed == (old(heartbeatFailed) || stop)
    {
      var r := queue.Heartbeat(j, id, leaseSeconds, now);
      stop := r.Err?;
      if stop {
        heartbeatFailed := true;
      }
    }

    /** The end of an execution: report the result, and report a failure if that raises. */
    method EndJob(j: JobId, x: Execution, finishedAt: Instant, failedAt: Instant) returns (raised: bool)
      requires queue.Consistent()
      modifies queue
      ensures queue.Consistent()
      ensures Ending(queue.Tables(), raised)
           == CloseJob(old(queue.Tables()), j, id, x, heartbeatFailed, retryDelay, finishedAt, failedAt)
    {
      if x.Returned? && !heartbeatFailed {
        var status := Failed;
        if x.interrupt.Some? || x.status == GraphWaiting {
          status := WaitingHuman;
        } else if x.status == GraphCompleted {
          status := Completed;
        } else if x.status == GraphPartial {
          status := Partial;
        }
        var closed := queue.Finish(j, id, status, x.interrupt, finishedAt);
        if closed.Ok? {
          return false;
        }
      }
      var r := queue.FailOrRequeue(j, id, retryDelay, failedAt);
      return r.Err?;
    }
  }
}
