/**
 * The queue as a transition system: any number of workers, callers and sweeps
 * interleave, any worker may stop for ever, and instants are arbitrary.
 */
module JobHistory {
  import opened Options
  import opened JobRows

  type Database = map<JobId, Row>

  predicate RunTaken(db: Database, run: nat) {
    exists j | j in db :: db[j].job.run == run
  }

  /** One transaction. */
  function Step(db: Database, e: Event): (r: Result<Database>) {
    if e.Enqueue? then
      var row :- NewRow(e.fields);
      if e.id in db || RunTaken(db, e.fields.run) then Err(IntegrityError) else Ok(db[e.id := row])
    else if e.id !in db then
      Err(if e.BadArguments() then ValueError else LookupError)
    else
      var row :- StepRow(db[e.id], e);
      Ok(db[e.id := row])
  }

  /** A transaction that raises is rolled back. */
  function Next(db: Database, e: Event): Database {
    var r := Step(db, e);
    if r.Ok? then r.value else db
  }

  /** The tables after a history of calls, starting from an empty database. */
  function After(history: seq<Event>): Database {
    if |history| == 0 then map[] else Next(After(history[..|history| - 1]), history[|history| - 1])
  }

  predicate Valid(db: Database) {
    && (forall j <- db :: RowValid(db[j]))
    && (forall i <- db, j <- db :: db[i].job.run == db[j].job.run ==> i == j)
  }

  lemma NextIsLocal(db: Database, e: Event, j: JobId)
    requires j != e.id
    ensures j in Next(db, e) <==> j in db
    ensures j in db ==> Next(db, e)[j] == db[j]
  {
  }

  lemma StepKeepsRun(row: Row, e: Event)
    ensures StepRow(row, e).Ok? ==> StepRow(row, e).value.job.run == row.job.run
    ensures StepRow(row, e).Ok? ==> StepRow(row, e).value.job.maxAttempts == row.job.maxAttempts
  {
  }

  lemma NextValid(db: Database, e: Event)
    requires Valid(db)
    ensures Valid(Next(db, e))
  {
    var db' := Next(db, e);
    if db' != db {
      if e.Enqueue? {
        NewRowValid(e.fields);
      } else {
        StepRowValid(db[e.id], e);
        StepKeepsRun(db[e.id], e);
      }
    }
  }

  /** Every reachable state is valid: a job has an active lease exactly when it is leased or running, held by its worker. */
  lemma {:induction false} ReachableValid(history: seq<Event>)
    ensures Valid(After(history))
  {
    if |history| > 0 {
      ReachableValid(history[..|history| - 1]);
      NextValid(After(history[..|history| - 1]), history[|history| - 1]);
    }
  }

  lemma AfterAppend(history: seq<Event>, e: Event)
    ensures After(history + [e]) == Next(After(history), e)
  {
    assert (history + [e])[..|history|] == history;
  }

  // ----- What a history did to one job -----

  /**
   * What can be read off the accepted calls alone.  `uncounted` counts resume
   * attempts that failed when the attempt counter already stood at its limit.
   */
  datatype Tally = Tally(claims: nat, settlements: nat, resumes: nat, uncounted: nat, holder: Option<WorkerId>)

  predicate FreshResume(row: Row, e: Event) {
    e.SubmitResume? && !(row.job.resume.Some? && SameRequest(row.job.resume.value, e.request))
  }

  predicate LosesResumeAtLimit(row: Row, e: Event) {
    (e.FailOrRequeue? || e.Expire?) && row.job.ResumePending() && row.job.attempts == row.job.maxAttempts
  }

  function Record(t: Tally, row: Row, e: Event): Tally {
    if e.Claim? then
      t.(claims := t.claims + 1, holder := Some(e.worker))
    else if e.Settlement() then
      t.(settlements := t.settlements + 1, holder := None,
         uncounted := t.uncounted + if LosesResumeAtLimit(row, e) then 1 else 0)
    else if FreshResume(row, e) then
      t.(resumes := t.resumes + 1)
    else
      t
  }

  predicate Accepts(db: Database, e: Event, j: JobId) {
    e.id == j && Step(db, e).Ok?
  }

  function NextTally(t: Tally, db: Database, e: Event, j: JobId): Tally {
    if Accepts(db, e, j) && j in db then Record(t, db[j], e) else t
  }

  function TallyOf(history: seq<Event>, j: JobId): Tally {
    if |history| == 0 then
      Tally(0, 0, 0, 0, None)
    else
      var earlier := history[..|history| - 1];
      NextTally(TallyOf(earlier, j), After(earlier), history[|history| - 1], j)
  }

  function One(b: bool): nat {
    if b then 1 else 0
  }

  predicate Balanced(t: Tally, row: Row) {
    var job := row.job;
    && t.claims == job.attempts + job.resumes + One(job.Held() && job.ResumePending()) + t.uncounted
    && t.claims == t.settlements + One(job.Held())
    && t.resumes == job.resumes + One(job.ResumePending()) + One(job.resume.Some? && job.resume.value.status == ResumeFailed)
    && t.uncounted <= One(job.resume.Some? && job.resume.value.status == ResumeFailed)
    && t.holder == job.worker
  }

  lemma StepBalanced(t: Tally, row: Row, e: Event)
    requires RowValid(row) && Balanced(t, row) && StepRow(row, e).Ok?
    ensures Balanced(Record(t, row, e), StepRow(row, e).value)
  {
  }

  lemma {:induction false} HistoryBalanced(history: seq<Event>, j: JobId)
    ensures j in After(history) ==> Balanced(TallyOf(history, j), After(history)[j])
    ensures j !in After(history) ==> TallyOf(history, j) == Tally(0, 0, 0, 0, None)
  {
    if |history| > 0 {
      var earlier, e := history[..|history| - 1], history[|history| - 1];
      HistoryBalanced(earlier, j);
      ReachableValid(earlier);
      if e.id != j {
        NextIsLocal(After(earlier), e, j);
      } else if j in After(earlier) && !e.Enqueue? && StepRow(After(earlier)[j], e).Ok? {
        StepBalanced(TallyOf(earlier, j), After(earlier)[j], e);
      }
    }
  }
}
