/** What every history of the queue guarantees, whatever the interleaving. */
module JobQueueProperties {
  import opened Options
  import opened JobRows
  import opened JobHistory

  /** The last call of an extended history, seen from the history before it. */
  lemma SplitLast(history: seq<Event>, more: seq<Event>)
    requires |more| > 0
    ensures var before, e := history + more[..|more| - 1], more[|more| - 1];
            && history + more == before + [e]
            && (history + more)[..|history + more| - 1] == before
            && After(history + more) == Next(After(before), e)
  {
    var before, e := history + more[..|more| - 1], more[|more| - 1];
    assert more == more[..|more| - 1] + [e];
    assert history + more == before + [e];
    AfterAppend(before, e);
  }

  // ----- Accounting -----

  /**
   * Every claim is an attempt, an applied resume, a resume attempt in flight,
   * or a resume attempt that failed at the attempt limit; every claim but the
   * current one has been settled exactly once; and the number of claims is
   * bounded by the attempt limit plus the accepted resume requests.
   */
  lemma ClaimAccounting(history: seq<Event>, j: JobId)
    requires j in After(history)
    ensures var t, job := TallyOf(history, j), After(history)[j].job;
            && t.claims == job.attempts + job.resumes + One(job.Held() && job.ResumePending()) + t.uncounted
            && t.claims == t.settlements + One(job.Held())
            && t.resumes == job.resumes + One(job.ResumePending()) + One(job.resume.Some? && job.resume.value.status == ResumeFailed)
            && job.attempts <= job.maxAttempts
            && t.claims <= job.maxAttempts + t.resumes
            && (t.uncounted > 0 ==> t.uncounted == 1 && job.status == Failed)
  {
    HistoryBalanced(history, j);
    ReachableValid(history);
  }

  /** The number of claims a job can still receive without a further resume request. */
  function ClaimsLeft(job: Job): nat
    requires job.attempts <= job.maxAttempts
  {
    var left := job.maxAttempts - job.attempts;
    if job.Terminal() || job.status == WaitingHuman then 0
    else if job.status == ResumeQueued then if left == 0 then 1 else left
    else if job.Held() && job.ResumePending() then if left == 0 then 0 else left - 1
    else left
  }

  lemma StepSpendsClaim(row: Row, e: Event)
    requires RowValid(row) && StepRow(row, e).Ok? && !FreshResume(row, e)
    ensures RowValid(StepRow(row, e).value)
    ensures ClaimsLeft(StepRow(row, e).value.job) + One(e.Claim?) <= ClaimsLeft(row.job)
  {
    StepRowValid(row, e);
  }

  /** Without a new resume request each further claim uses up one unit of a budget that nothing refills. */
  lemma {:induction false} ClaimsRunOut(history: seq<Event>, more: seq<Event>, j: JobId)
    requires j in After(history)
    requires TallyOf(history + more, j).resumes == TallyOf(history, j).resumes
    ensures j in After(history + more)
    ensures After(history)[j].job.attempts <= After(history)[j].job.maxAttempts
    ensures After(history + more)[j].job.attempts <= After(history + more)[j].job.maxAttempts
    ensures TallyOf(history + more, j).claims + ClaimsLeft(After(history + more)[j].job)
         <= TallyOf(history, j).claims + ClaimsLeft(After(history)[j].job)
  {
    ReachableValid(history);
    if |more| == 0 {
      assert history + more == history;
    } else {
      var before, e := history + more[..|more| - 1], more[|more| - 1];
      SplitLast(history, more);
      ResumesGrow(history, more[..|more| - 1], j);
      ClaimsRunOut(history, more[..|more| - 1], j);
      ReachableValid(before);
      if e.id != j {
        NextIsLocal(After(before), e, j);
      } else if Step(After(before), e).Ok? {
        StepSpendsClaim(After(before)[j], e);
      }
    }
  }

  lemma {:induction false} ResumesGrow(history: seq<Event>, more: seq<Event>, j: JobId)
    ensures TallyOf(history, j).resumes <= TallyOf(history + more, j).resumes
  {
    if |more| == 0 {
      assert history + more == history;
    } else {
      SplitLast(history, more);
      ResumesGrow(history, more[..|more| - 1], j);
    }
  }

  // ----- Ownership and fencing -----

  /** A worker's call goes through only if that worker made the last claim of the job and it is not settled yet. */
  lemma OwnerCallNeedsOpenClaim(history: seq<Event>, e: Event)
    requires e.OwnerCall() && Step(After(history), e).Ok?
    ensures TallyOf(history, e.id).holder == Some(e.worker)
    ensures TallyOf(history, e.id).claims == TallyOf(history, e.id).settlements + 1
    ensures var lease := After(history)[e.id].lease;
            lease.Some? && lease.value.status == Active && lease.value.worker == e.worker
  {
    HistoryBalanced(history, e.id);
    ReachableValid(history);
  }

  /** In one state no two workers can both get a call on the same job accepted. */
  lemma OneOwnerAtATime(history: seq<Event>, first: Event, second: Event)
    requires first.OwnerCall() && second.OwnerCall() && first.id == second.id
    requires Step(After(history), first).Ok? && Step(After(history), second).Ok?
    ensures first.worker == second.worker
  {
    OwnerCallNeedsOpenClaim(history, first);
    OwnerCallNeedsOpenClaim(history, second);
  }

  predicate ReclaimedBy(more: seq<Event>, j: JobId, worker: WorkerId) {
    exists e <- more :: e.Claim? && e.id == j && e.worker == worker
  }

  /** A worker that does not hold a job stays locked out, whatever the others do, until it claims the job again. */
  lemma {:induction false} LockedOut(history: seq<Event>, more: seq<Event>, j: JobId, worker: WorkerId)
    requires TallyOf(history, j).holder != Some(worker)
    requires !ReclaimedBy(more, j, worker)
    ensures TallyOf(history + more, j).holder != Some(worker)
    ensures forall e: Event :: e.OwnerCall() && e.id == j && e.worker == worker ==> Step(After(history + more), e).Err?
  {
    if |more| == 0 {
      assert history + more == history;
    } else {
      var earlier := more[..|more| - 1];
      assert forall e <- earlier :: e in more;
      SplitLast(history, more);
      LockedOut(history, earlier, j, worker);
      assert more[|more| - 1] in more;
    }
    forall e: Event | e.OwnerCall() && e.id == j && e.worker == worker
      ensures Step(After(history + more), e).Err?
    {
      if Step(After(history + more), e).Ok? {
        OwnerCallNeedsOpenClaim(history + more, e);
      }
    }
  }

  /** Somewhere in `more` a sweep takes the job away. */
  predicate Evicted(history: seq<Event>, more: seq<Event>, j: JobId) {
    exists i | 0 <= i < |more| :: more[i].Expire? && Accepts(After(history + more[..i]), more[i], j)
  }

  /** The worker neither claims the job again nor settles it inside `more`. */
  predicate Executing(more: seq<Event>, j: JobId, worker: WorkerId) {
    forall e <- more :: e.id == j && (e.Claim? || e.Finish? || e.FailOrRequeue?) ==> e.worker != worker
  }

  lemma EvictedPrefix(history: seq<Event>, more: seq<Event>, j: JobId)
    requires |more| > 0
    ensures var before, e := more[..|more| - 1], more[|more| - 1];
            Evicted(history, more, j) <==> Evicted(history, before, j) || (e.Expire? && Accepts(After(history + before), e, j))
  {
    var before := more[..|more| - 1];
    assert forall i | 0 <= i < |before| :: before[..i] == more[..i];
    if Evicted(history, before, j) {
      var i :| 0 <= i < |before| && before[i].Expire? && Accepts(After(history + before[..i]), before[i], j);
      assert more[i].Expire? && Accepts(After(history + more[..i]), more[i], j);
    }
    if Evicted(history, more, j) {
      var i :| 0 <= i < |more| && more[i].Expire? && Accepts(After(history + more[..i]), more[i], j);
      if i < |before| {
        assert before[i].Expire? && Accepts(After(history + before[..i]), before[i], j);
      }
    }
  }

  /** One call takes the job from an executing worker exactly when it is an accepted eviction. */
  lemma HolderStep(t: Tally, db: Database, e: Event, j: JobId, worker: WorkerId)
    requires Valid(db) && (if j in db then Balanced(t, db[j]) else t.holder.None?)
    requires e.id == j && (e.Claim? || e.Finish? || e.FailOrRequeue?) ==> e.worker != worker
    ensures NextTally(t, db, e, j).holder == Some(worker) <==> t.holder == Some(worker) && !(e.Expire? && Accepts(db, e, j))
  {
  }

  /** A worker that is executing keeps the job exactly until a sweep evicts it. */
  lemma {:induction false} HeldUnlessEvicted(history: seq<Event>, more: seq<Event>, j: JobId, worker: WorkerId)
    requires TallyOf(history, j).holder == Some(worker)
    requires Executing(more, j, worker)
    ensures TallyOf(history + more, j).holder == Some(worker) <==> !Evicted(history, more, j)
  {
    if |more| == 0 {
      assert history + more == history;
    } else {
      var earlier, e := more[..|more| - 1], more[|more| - 1];
      var before := history + earlier;
      assert e in more && forall x <- earlier :: x in more;
      SplitLast(history, more);
      EvictedPrefix(history, more, j);
      HeldUnlessEvicted(history, earlier, j, worker);
      HistoryBalanced(before, j);
      ReachableValid(before);
      HolderStep(TallyOf(before, j), After(before), e, j, worker);
    }
  }

  /**
   * The whole contract a worker relies on between claiming and finishing: its
   * final call succeeds exactly when no sweep took the job away meanwhile.
   */
  lemma FinishSucceedsUnlessEvicted(history: seq<Event>, more: seq<Event>, finish: Event)
    requires finish.Finish? && !finish.BadArguments()
    requires (finish.outcome == WaitingHuman) == finish.pending.Some?
    requires TallyOf(history, finish.id).holder == Some(finish.worker)
    requires Executing(more, finish.id, finish.worker)
    ensures Step(After(history + more), finish).Ok? <==> !Evicted(history, more, finish.id)
  {
    HeldUnlessEvicted(history, more, finish.id, finish.worker);
    HistoryBalanced(history + more, finish.id);
    ReachableValid(history + more);
    if Step(After(history + more), finish).Ok? {
      OwnerCallNeedsOpenClaim(history + more, finish);
    }
  }

  // ----- Finality -----

  /** A completed, partial or failed job is never left: its row never changes again. */
  lemma {:induction false} TerminalRowIsFrozen(history: seq<Event>, more: seq<Event>, j: JobId)
    requires j in After(history) && After(history)[j].job.Terminal()
    ensures j in After(history + more) && After(history + more)[j] == After(history)[j]
  {
    if |more| == 0 {
      assert history + more == history;
    } else {
      SplitLast(history, more);
      TerminalRowIsFrozen(history, more[..|more| - 1], j);
      ReachableValid(history + more[..|more| - 1]);
    }
  }

  /** Every unfinished job can still move: it is held, or can be claimed once its time comes, or waits for an answer. */
  lemma NothingIsStranded(history: seq<Event>, j: JobId, now: Instant)
    requires j in After(history) && After(history)[j].job.availableAt <= now
    ensures var row := After(history)[j];
            || row.job.Terminal()
            || (row.job.Held() && row.lease.Some? && Step(After(history), Expire(j, row.lease.value.expiresAt)).Ok?)
            || (forall w, s | s > 0 :: Step(After(history), Claim(j, w, s, now)).Ok?)
            || (row.job.status == WaitingHuman && row.job.interrupt.Some?
                && forall request: ResumeRequest | request.interruptId == row.job.interrupt.value.id && request.kind == row.job.interrupt.value.kind
                     && (row.job.resume.None? || row.job.resume.value.requestId != request.requestId) ::
                     Step(After(history), SubmitResume(j, request, true, now)).Ok?)
  {
    ReachableValid(history);
  }

  // ----- Resume requests -----

  lemma StepKeepsRequestIdentity(row: Row, e: Event, request: ResumeRequest)
    requires row.job.resume.Some? && SameRequest(row.job.resume.value, request)
    requires StepRow(row, e).Ok? && !FreshResume(row, e)
    ensures var job := StepRow(row, e).value.job; job.resume.Some? && SameRequest(job.resume.value, request)
  {
  }

  /**
   * Submitting the same resume request again is accepted and changes nothing,
   * however far the job has moved since, as long as no newer request was taken.
   */
  lemma {:induction false} ResubmissionIsIdempotent(history: seq<Event>, more: seq<Event>, submit: Event)
    requires submit.SubmitResume? && Step(After(history), submit).Ok?
    requires TallyOf(history + [submit] + more, submit.id).resumes == TallyOf(history + [submit], submit.id).resumes
    ensures submit.id in After(history + [submit] + more)
    ensures var job := After(history + [submit] + more)[submit.id].job;
            job.resume.Some? && SameRequest(job.resume.value, submit.request)
    ensures forall fits, now :: Step(After(history + [submit] + more), SubmitResume(submit.id, submit.request, fits, now))
                             == Ok(After(history + [submit] + more))
  {
    var base := history + [submit];
    if |more| == 0 {
      AfterAppend(history, submit);
      assert base + more == base;
    } else {
      var before, e := base + more[..|more| - 1], more[|more| - 1];
      SplitLast(base, more);
      ResumesGrow(base, more[..|more| - 1], submit.id);
      ResubmissionIsIdempotent(history, more[..|more| - 1], submit);
      if e.id == submit.id && Step(After(before), e).Ok? {
        StepKeepsRequestIdentity(After(before)[submit.id], e, submit.request);
      }
    }
    var db := After(base + more);
    assert db[submit.id := db[submit.id]] == db;
  }
}
