/** What every run of the error-recovery subgraph guarantees, and what sequences of runs guarantee. */
module ErrorRecoveryProperties {
  import opened Options
  import opened Sorting
  import opened RecordMerge
  import opened ErrorRecovery

  // ----- Records -----

  lemma GetUnique(errors: seq<ErrorRecord>, e: ErrorRecord)
    requires DistinctKeys(Key(), errors) && e in errors
    ensures HasId(errors, e.id) && Get(errors, e.id) == e
  {
    var i :| 0 <= i < |errors| && errors[i] == e;
    var g := Get(errors, e.id);
    var k :| 0 <= k < |errors| && errors[k] == g;
    assert Key()(errors[i]) == Key()(errors[k]);
  }

  /** Writing back a known record replaces it and nothing else. */
  lemma WithErrorReplaces(s: State, e: ErrorRecord)
    requires DistinctKeys(Key(), s.errors) && HasId(s.errors, e.id)
    ensures var t := WithError(s, e);
            && DistinctKeys(Key(), t.errors) && HasId(t.errors, e.id) && Get(t.errors, e.id) == e
            && (forall x :: x in t.errors <==> x == e || (x in s.errors && x.id != e.id))
            && |t.errors| == |s.errors| && forall i | 0 <= i < |s.errors| :: t.errors[i] == if s.errors[i].id == e.id then e else s.errors[i]
  {
    var i :| 0 <= i < |s.errors| && s.errors[i].id == e.id;
    assert Key()(s.errors[i]) == Key()(e);
    assert MergeInto(Key(), s.errors, []) == s.errors && [e][..0] == [];
    UpsertAt(Key(), s.errors, i, e);
    var t := WithError(s, e);
    assert t.errors == s.errors[i := e] && t.errors[i] == e;
    forall k | 0 <= k < |s.errors| && k != i ensures s.errors[k].id != e.id {
      assert Key()(s.errors[k]) != Key()(s.errors[i]);
    }
    GetUnique(t.errors, e);
    forall x | x in s.errors && x.id != e.id ensures x in t.errors {
      var k :| 0 <= k < |s.errors| && s.errors[k] == x;
      assert t.errors[k] == x;
    }
  }

  // ----- The shape of a run -----

  /** The error a run works on, as it stands when the policy decides. */
  function Subject(w: World, s: State): ErrorRecord
    requires Pick(s).Some?
  {
    Normalized(w, Pick(s).value)
  }

  /** The state in which the policy decides. */
  function Selected(w: World, s: State): State
    requires Pick(s).Some?
  {
    var e := Subject(w, s);
    WithError(s, e).(run := Recovering,
                     recovery := s.recovery.(current := Some(e.id), pending := Queued(s.recovery.pending, e.id), action := DoNothing))
  }

  lemma PickedIsKnown(w: World, s: State)
    requires Sound(s) && Pick(s).Some?
    ensures HasId(s.errors, Subject(w, s).id) && Pick(s).value in s.errors && !Resolved(Subject(w, s))
  {
    PickFindsOpenError(s);
  }

  lemma SelectedHoldsSubject(w: World, s: State)
    requires Sound(s) && Pick(s).Some?
    ensures Current(Selected(w, s)) == Ok(Subject(w, s)) && Sound(Selected(w, s))
  {
    PickedIsKnown(w, s);
    WithErrorReplaces(s, Subject(w, s));
  }

  /** A run is one of four straight lines. */
  lemma RunShape(w: World, s: State, a: Answer)
    requires Sound(s) && Pick(s).Some?
    ensures var e := Subject(w, s);
            Run(w, s, a) ==
              if e.id !in w.mapped then
                Finalize(Abort(Select(w, s, Pick(s).value), e.(status := Failed, fatal := true)))
              else if e.id in w.reusable then
                Finalize(Inspect(w, Selected(w, s), e))
              else Branch(w, Decide(w, Selected(w, s), e), a)
  {
    if Subject(w, s).id !in w.mapped {
      UnmappedShape(w, s, a);
    } else {
      MappedShape(w, s, a);
    }
  }

  lemma UnmappedShape(w: World, s: State, a: Answer)
    requires Sound(s) && Pick(s).Some? && Subject(w, s).id !in w.mapped
    ensures Run(w, s, a) == Finalize(Abort(Select(w, s, Pick(s).value), Subject(w, s).(status := Failed, fatal := true)))
  {
    var e := Subject(w, s).(status := Failed, fatal := true);
    PickedIsKnown(w, s);
    WithErrorReplaces(s, e);
    assert Current(Select(w, s, Pick(s).value)) == Ok(e);
  }

  lemma MappedShape(w: World, s: State, a: Answer)
    requires Sound(s) && Pick(s).Some? && Subject(w, s).id in w.mapped
    ensures var e := Subject(w, s);
            Run(w, s, a) == if e.id in w.reusable then Finalize(Inspect(w, Selected(w, s), e))
                            else Branch(w, Decide(w, Selected(w, s), e), a)
  {
    var e := Subject(w, s);
    SelectedHoldsSubject(w, s);
    assert Select(w, s, Pick(s).value) == Selected(w, s);
    assert e.id !in w.reusable ==> Inspect(w, Selected(w, s), e) == Selected(w, s);
  }

  // ----- Exceptions -----

  /** The subject is left to the policy. */
  predicate Decided(w: World, s: State)
    requires Pick(s).Some?
  {
    Subject(w, s).id in w.mapped && Subject(w, s).id !in w.reusable
  }

  /** A run raises exactly when there is nothing to recover or a human was asked and gave an answer that is not admitted. */
  lemma RunRaisesExactlyWhen(w: World, s: State, a: Answer)
    requires Sound(s)
    ensures Run(w, s, a).Err? <==>
            Pick(s).None? || (Decided(w, s) && Recommend(w, Subject(w, s)) == DoWait && !Admitted(a, AllowedActions(Subject(w, s))))
  {
    if Pick(s).Some? {
      RunShape(w, s, a);
      if Decided(w, s) {
        PickedIsKnown(w, s);
        SelectedHoldsSubject(w, s);
        BranchRaisesExactlyWhen(w, Selected(w, s), Subject(w, s), a);
      }
    }
  }

  lemma BranchRaisesExactlyWhen(w: World, s: State, e: ErrorRecord, a: Answer)
    requires Sound(s) && Current(s) == Ok(e) && !Resolved(e) && Normalized(w, e) == e
    ensures Branch(w, Decide(w, s, e), a).Err? <==> Recommend(w, e) == DoWait && !Admitted(a, AllowedActions(e))
  {
    var d := Decide(w, s, e);
    assert Current(d) == Ok(e);
    if Recommend(w, e) == DoWait {
      PreparedHoldsWaiting(d, e);
      AnswerRaisesExactlyWhen(w, Prepare(d, e), Waiting(e), a);
    }
  }

  lemma AnswerRaisesExactlyWhen(w: World, p: State, e: ErrorRecord, a: Answer)
    requires Current(p) == Ok(e)
    ensures AfterAnswer(w, p, a).Err? <==> !Admitted(a, p.recovery.human.allowed)
  {
    var t := Answered(p, a);
    assert a.action == AskRetry || a.action == AskPath ==> AskedToRetry(t.recovery.human);
  }

  function Waiting(e: ErrorRecord): ErrorRecord { e.(status := WaitingHuman, fatal := false) }

  lemma PreparedHoldsWaiting(s: State, e: ErrorRecord)
    requires Sound(s) && Current(s) == Ok(e)
    ensures Current(Prepare(s, e)) == Ok(Waiting(e)) && Sound(Prepare(s, e))
  {
    WithErrorReplaces(s, Waiting(e));
  }

  // ----- The end of a run -----

  predicate Resumable(action: Action) {
    action in {DoRetry, DoReuse, DoFallback, DoSkip, DoPartial}
  }

  /** Every run that does not raise ends with a resumable action or an abort, never waiting, and with the human request cleared. */
  lemma RunEndsResumableOrAborted(w: World, s: State, a: Answer)
    requires Sound(s) && Run(w, s, a).Ok?
    ensures var t := Run(w, s, a).value;
            && (Resumable(t.recovery.action) || t.recovery.action == DoAbort)
            && t.run == (if t.recovery.action == DoAbort then Recovering else Running)
            && t.recovery.human.pendingError.None? && t.recovery.human.allowed == []
            && t.recovery.current == Some(Subject(w, s).id)
  {
    RunRaisesExactlyWhen(w, s, a);
    RunShape(w, s, a);
    SelectedHoldsSubject(w, s);
    if Decided(w, s) {
      BranchEnds(w, Selected(w, s), Subject(w, s), a);
    }
  }

  lemma BranchEnds(w: World, s: State, e: ErrorRecord, a: Answer)
    requires Sound(s) && Current(s) == Ok(e) && Branch(w, Decide(w, s, e), a).Ok?
    ensures var t := Branch(w, Decide(w, s, e), a).value;
            && (Resumable(t.recovery.action) || t.recovery.action == DoAbort)
            && t.run == (if t.recovery.action == DoAbort then Recovering else Running)
            && t.recovery.human.pendingError.None? && t.recovery.human.allowed == []
            && t.recovery.current == s.recovery.current
  {
    if Recommend(w, e) == DoWait {
      AskedBranch(w, s, e, a);
      CarryEnds(w, Answered(Prepare(Decide(w, s, e), e), a), Waiting(e), VerdictOn(DoWait, a));
    } else {
      AutomaticBranch(w, s, e, a);
      CarryEnds(w, Decide(w, s, e), e, VerdictOn(Recommend(w, e), a));
    }
  }

  lemma CarryEnds(w: World, p: State, e: ErrorRecord, verdict: Action)
    requires Carry(w, p, e, verdict).Ok?
    ensures var u := Finalize(Carry(w, p, e, verdict).value);
            && u.Ok?
            && (Resumable(u.value.recovery.action) || u.value.recovery.action == DoAbort)
            && u.value.run == (if u.value.recovery.action == DoAbort then Recovering else Running)
            && u.value.recovery.human.pendingError.None? && u.value.recovery.human.allowed == []
            && u.value.recovery.current == p.recovery.current
  {
  }

  // ----- What becomes of the records -----

  /** Records stay, keep their category, and never lose a counted retry. */
  ghost predicate Keeps(s: State, t: State) {
    && Sound(t)
    && forall e <- s.errors :: HasId(t.errors, e.id) && Get(t.errors, e.id).category == e.category
                               && Get(t.errors, e.id).retryCount >= e.retryCount
  }

  lemma KeepsTransitive(s: State, t: State, u: State)
    requires Keeps(s, t) && Keeps(t, u)
    ensures Keeps(s, u)
  {
    forall e | e in s.errors
      ensures HasId(u.errors, e.id) && Get(u.errors, e.id).category == e.category && Get(u.errors, e.id).retryCount >= e.retryCount
    {
      assert Get(t.errors, e.id) in t.errors;
    }
  }

  lemma WithErrorKeeps(s: State, e: ErrorRecord)
    requires Sound(s) && HasId(s.errors, e.id)
    requires e.category == Get(s.errors, e.id).category && e.retryCount >= Get(s.errors, e.id).retryCount
    ensures Keeps(s, WithError(s, e))
  {
    WithErrorReplaces(s, e);
    var t := WithError(s, e);
    forall x | x in s.errors
      ensures HasId(t.errors, x.id) && Get(t.errors, x.id).category == x.category && Get(t.errors, x.id).retryCount >= x.retryCount
    {
      GetUnique(s.errors, x);
      if x.id != e.id {
        assert x in t.errors;
        GetUnique(t.errors, x);
      }
    }
  }

  lemma {:induction false} WithoutIs(pending: seq<ErrorId>, gone: set<ErrorId>)
    ensures forall id :: id in Without(pending, gone) <==> id in pending && id !in gone
    ensures Distinct(pending) ==> Distinct(Without(pending, gone))
  {
    if pending != [] {
      WithoutIs(pending[..|pending| - 1], gone);
      assert pending == pending[..|pending| - 1] + [pending[|pending| - 1]];
    }
  }

  lemma {:induction false} NotedAllIs(start: seq<(ErrorId, Fallback)>, errors: seq<ErrorRecord>,
                                      current: ErrorRecord, fallback: Fallback)
    ensures Distinct(start) ==> Distinct(NotedAll(start, errors, current, fallback))
    ensures forall d :: d in NotedAll(start, errors, current, fallback) <==>
              d in start || d == (current.id, fallback) || exists e <- errors :: InCohort(e, current, fallback) && d == (e.id, fallback)
  {
    if errors != [] {
      var front, last := errors[..|errors| - 1], errors[|errors| - 1];
      NotedAllIs(start, front, current, fallback);
      assert forall e :: e in errors <==> e in front || e == last;
    }
  }

  /** No open error of the task waits for the fallback any more, and records outside the cohort are untouched. */
  ghost predicate RecordsClosed(before: seq<ErrorRecord>, after: seq<ErrorRecord>, e: ErrorRecord, fallback: Fallback) {
    && |after| == |before|
    && (forall i | 0 <= i < |after| :: after[i].taskId == e.taskId && after[i].fallback == Some(fallback) ==> Resolved(after[i]))
    && forall i | 0 <= i < |before| && before[i].id != e.id ::
         after[i] == if InCohort(before[i], e, fallback) then Closed(before[i]) else before[i]
  }

  /**
   * A fallback closes the whole cohort of its error: exactly the cohort is
   * closed, leaves the queue and is noted as degraded.
   */
  ghost predicate CohortClosed(s: State, t: State, e: ErrorRecord, fallback: Fallback) {
    && t.recovery.fallback == Some(fallback) && t.recovery.action == ActionOf(fallback)
    && RecordsClosed(s.errors, t.errors, e, fallback)
    && (forall id :: id in t.recovery.pending <==> id in s.recovery.pending && id !in CohortIds(s.errors, e, fallback))
    && (forall id :: (id, fallback) in t.recovery.degradations <==>
          (id, fallback) in s.recovery.degradations || id in CohortIds(s.errors, e, fallback))
  }

  lemma AllAfterFallbackCloses(errors: seq<ErrorRecord>, e: ErrorRecord, fallback: Fallback)
    ensures RecordsClosed(errors, AllAfterFallback(errors, e, fallback), e, fallback)
  {
    var after := AllAfterFallback(errors, e, fallback);
    assert forall i | 0 <= i < |errors| :: after[i] == AfterFallback(errors[i], e, fallback);
  }

  lemma DegradationsOfCohort(start: seq<(ErrorId, Fallback)>, errors: seq<ErrorRecord>, e: ErrorRecord,
                             fallback: Fallback, id: ErrorId)
    ensures (id, fallback) in NotedAll(start, errors, e, fallback) <==> (id, fallback) in start || id in CohortIds(errors, e, fallback)
  {
    NotedAllIs(start, errors, e, fallback);
  }

  lemma FallbackClosesCohort(s: State, e: ErrorRecord)
    requires ChosenFallback(s, e).Some?
    ensures CohortClosed(s, ApplyFallback(s, e).value, e, ChosenFallback(s, e).value)
  {
    var fallback := ChosenFallback(s, e).value;
    AllAfterFallbackCloses(s.errors, e, fallback);
    WithoutIs(s.recovery.pending, CohortIds(s.errors, e, fallback));
    forall id ensures (id, fallback) in NotedAll(s.recovery.degradations, s.errors, e, fallback) <==>
                      (id, fallback) in s.recovery.degradations || id in CohortIds(s.errors, e, fallback)
    {
      DegradationsOfCohort(s.recovery.degradations, s.errors, e, fallback, id);
    }
  }

  lemma AllAfterFallbackDistinct(errors: seq<ErrorRecord>, e: ErrorRecord, fallback: Fallback)
    requires DistinctKeys(Key(), errors)
    ensures DistinctKeys(Key(), AllAfterFallback(errors, e, fallback))
  {
    var after := AllAfterFallback(errors, e, fallback);
    forall i, k | 0 <= i < k < |after| ensures Key()(after[i]) != Key()(after[k]) {
      assert Key()(errors[i]) != Key()(errors[k]);
    }
  }

  lemma FallbackKeepsRecord(errors: seq<ErrorRecord>, e: ErrorRecord, fallback: Fallback, x: ErrorRecord)
    requires DistinctKeys(Key(), errors) && e in errors && x in errors
    ensures var after := AllAfterFallback(errors, e, fallback);
            HasId(after, x.id) && Get(after, x.id).category == x.category && Get(after, x.id).retryCount == x.retryCount
  {
    var after := AllAfterFallback(errors, e, fallback);
    var i :| 0 <= i < |errors| && errors[i] == x;
    assert after[i] == AfterFallback(x, e, fallback) && after[i] in after;
    AllAfterFallbackDistinct(errors, e, fallback);
    GetUnique(after, after[i]);
    if x.id == e.id {
      GetUnique(errors, x);
      GetUnique(errors, e);
    }
  }

  lemma FallbackKeeps(s: State, e: ErrorRecord)
    requires Sound(s) && e in s.errors && ChosenFallback(s, e).Some?
    ensures Keeps(s, ApplyFallback(s, e).value)
  {
    var fallback := ChosenFallback(s, e).value;
    var t := ApplyFallback(s, e).value;
    AllAfterFallbackDistinct(s.errors, e, fallback);
    WithoutIs(s.recovery.pending, CohortIds(s.errors, e, fallback));
    NotedAllIs(s.recovery.degradations, s.errors, e, fallback);
    forall x | x in s.errors
      ensures HasId(t.errors, x.id) && Get(t.errors, x.id).category == x.category && Get(t.errors, x.id).retryCount >= x.retryCount
    {
      FallbackKeepsRecord(s.errors, e, fallback, x);
    }
  }

  /** A retry counts one more, at most to the limit the record then carries, and rewrites only its own record. */
  ghost predicate Retried(w: World, s: State, t: State, e: ErrorRecord) {
    && t.recovery.action == DoRetry && t.recovery.pending == s.recovery.pending
    && HasId(t.errors, e.id)
    && (var r := Get(t.errors, e.id);
        r.status == Retrying && !r.fatal && r.retryCount == e.retryCount + 1 <= r.maxRetries
        && (e.retryCount < e.maxRetries ==> r.maxRetries == e.maxRetries))
    && (forall x :: x in t.errors && x.id != e.id <==> x in s.errors && x.id != e.id)
    && t.recovery.delay == if AskedToRetry(s.recovery.human) then 0.0 else Backoff(w.policy.RuleFor(e.category), e.retryCount + 1)
  }

  lemma RetryRetries(w: World, s: State, e: ErrorRecord)
    requires Sound(s) && e in s.errors && (e.retryCount < e.maxRetries || AskedToRetry(s.recovery.human))
    ensures Retry(w, s, e).Ok? && Retried(w, s, Retry(w, s, e).value, e) && Keeps(s, Retry(w, s, e).value)
  {
    GetUnique(s.errors, e);
    var t := Retry(w, s, e).value;
    var limit := if e.retryCount + 1 > e.maxRetries then e.retryCount + 1 else e.maxRetries;
    var r := e.(retryable := true, retryCount := e.retryCount + 1, maxRetries := limit, status := Retrying, fatal := false);
    WithErrorReplaces(s, r);
    WithErrorKeeps(s, r);
    assert t.errors == WithError(s, r).errors;
  }

  // ----- What a run does -----

  /** The error the nodes after the decision work on: the same record, marked as waiting when a human was asked. */
  function Worked(w: World, s: State): ErrorRecord
    requires Pick(s).Some?
  {
    if Recommend(w, Subject(w, s)) == DoWait then Waiting(Subject(w, s)) else Subject(w, s)
  }

  /** The state those nodes start from. */
  function Prepared(w: World, s: State, a: Answer): State
    requires Pick(s).Some?
  {
    var d := Decide(w, Selected(w, s), Subject(w, s));
    if Recommend(w, Subject(w, s)) == DoWait then Answered(Prepare(d, Subject(w, s)), a) else d
  }

  lemma PreparedHoldsWorked(w: World, s: State, a: Answer)
    requires Sound(s) && Pick(s).Some?
    ensures Sound(Prepared(w, s, a)) && Worked(w, s) in Prepared(w, s, a).errors
    ensures Keeps(s, Prepared(w, s, a))
  {
    var e := Subject(w, s);
    PickedIsKnown(w, s);
    GetUnique(s.errors, Pick(s).value);
    SelectedHoldsSubject(w, s);
    WithErrorKeeps(s, e);
    var d := Decide(w, Selected(w, s), e);
    assert Keeps(s, d) by {
      assert d.errors == WithError(s, e).errors;
    }
    if Recommend(w, e) == DoWait {
      PreparedHoldsWaiting(d, e);
      WithErrorKeeps(d, Waiting(e));
      KeepsTransitive(s, d, Prepare(d, e));
    }
  }

  /** What the decision and, if needed, the answer select. */
  function VerdictOn(recommended: Action, a: Answer): Action {
    match recommended
    case DoRetry => DoRetry
    case DoFallback => DoFallback
    case DoWait => (match a.action case AskRetry | AskPath => DoRetry case AskSkip => DoFallback case AskAbort => DoAbort)
    case _ => DoAbort
  }

  function Verdict(w: World, s: State, a: Answer): Action
    requires Pick(s).Some?
  {
    VerdictOn(Recommend(w, Subject(w, s)), a)
  }

  /** What the node that the verdict selects makes of a state, before the final node. */
  function Carry(w: World, p: State, e: ErrorRecord, verdict: Action): Result<State> {
    match verdict
    case DoRetry => Retry(w, p, e)
    case DoFallback => ApplyFallback(p, e)
    case _ => Ok(Abort(p, e))
  }

  lemma DecidedRun(w: World, s: State, a: Answer)
    requires Sound(s) && Run(w, s, a).Ok? && Pick(s).Some? && Decided(w, s)
    ensures var t := Carry(w, Prepared(w, s, a), Worked(w, s), Verdict(w, s, a)); t.Ok? && Run(w, s, a) == Finalize(t.value)
  {
    MappedShape(w, s, a);
    SelectedHoldsSubject(w, s);
    if Recommend(w, Subject(w, s)) == DoWait {
      AskedBranch(w, Selected(w, s), Subject(w, s), a);
    } else {
      AutomaticBranch(w, Selected(w, s), Subject(w, s), a);
    }
  }

  lemma AutomaticBranch(w: World, s: State, e: ErrorRecord, a: Answer)
    requires Current(s) == Ok(e) && Recommend(w, e) != DoWait && Branch(w, Decide(w, s, e), a).Ok?
    ensures var t := Carry(w, Decide(w, s, e), e, VerdictOn(Recommend(w, e), a));
            t.Ok? && Branch(w, Decide(w, s, e), a) == Finalize(t.value)
  {
    assert Current(Decide(w, s, e)) == Ok(e);
  }

  lemma AskedBranch(w: World, s: State, e: ErrorRecord, a: Answer)
    requires Sound(s) && Current(s) == Ok(e) && Recommend(w, e) == DoWait && Branch(w, Decide(w, s, e), a).Ok?
    ensures var t := Carry(w, Answered(Prepare(Decide(w, s, e), e), a), Waiting(e), VerdictOn(DoWait, a));
            t.Ok? && Branch(w, Decide(w, s, e), a) == Finalize(t.value)
  {
    var p := Prepare(Decide(w, s, e), e);
    PreparedHoldsWaiting(Decide(w, s, e), e);
    AnsweredBranch(w, p, Waiting(e), a);
  }

  lemma AnsweredBranch(w: World, p: State, e: ErrorRecord, a: Answer)
    requires Current(p) == Ok(e) && AfterAnswer(w, p, a).Ok?
    ensures var t := Carry(w, Answered(p, a), e, VerdictOn(DoWait, a));
            t.Ok? && AfterAnswer(w, p, a) == Finalize(t.value)
  {
  }

  /** The graph itself: nodes in the order the routers choose them. */
  method RecoverError(w: World, s: State, a: Answer) returns (r: Result<State>)
    requires Sound(s)
    ensures r == Run(w, s, a)
  {
    var picked := PickError(s);
    if picked.None? {
      return Err(LookupError);
    }
    RunShape(w, s, a);
    SelectedHoldsSubject(w, s);
    PreparedHoldsWorked(w, s, a);
    var selected := Select(w, s, picked.value);
    var e :- Current(selected);
    var inspected := Inspect(w, selected, e);
    if inspected.recovery.action == DoReuse {
      return Finalize(inspected);
    }
    if inspected.recovery.action == DoAbort {
      return Finalize(Abort(inspected, e));
    }
    var decided := Decide(w, inspected, e);
    r := RunBranch(w, decided, e, a);
  }

  method RunBranch(w: World, s: State, e: ErrorRecord, a: Answer) returns (r: Result<State>)
    requires Sound(s) && Current(s) == Ok(e)
    ensures r == Branch(w, s, a)
  {
    match s.recovery.action {
      case DoRetry =>
        var t :- Retry(w, s, e);
        return Finalize(t);
      case DoFallback =>
        var t :- ApplyRecoveryFallback(s, e);
        return Finalize(t);
      case DoWait =>
        PreparedHoldsWaiting(s, e);
        r := RunAfterAnswer(w, Prepare(s, e), Waiting(e), a);
      case _ =>
        return Finalize(Abort(s, e));
    }
  }

  method RunAfterAnswer(w: World, s: State, e: ErrorRecord, a: Answer) returns (r: Result<State>)
    requires Sound(s) && Current(s) == Ok(e)
    ensures r == AfterAnswer(w, s, a)
  {
    if !Admitted(a, s.recovery.human.allowed) {
      return Err(ValueError);
    }
    var answered := Answered(s, a);
    match a.action {
      case AskRetry | AskPath =>
        var t :- Retry(w, answered, e);
        return Finalize(t);
      case AskSkip =>
        var t :- ApplyRecoveryFallback(answered, e);
        return Finalize(t);
      case AskAbort =>
        return Finalize(Abort(answered, e));
    }
  }

  // ----- Main results -----

  /** The record limit is respected by every retry, and an automatic retry also respects the category's limit. */
  lemma RetryStaysWithinLimit(w: World, s: State, a: Answer)
    requires Sound(s) && Run(w, s, a).Ok? && Pick(s).Some? && Decided(w, s) && Verdict(w, s, a) == DoRetry
    ensures Retried(w, Prepared(w, s, a), Run(w, s, a).value, Worked(w, s))
    ensures Recommend(w, Subject(w, s)) == DoRetry ==>
              Get(Run(w, s, a).value.errors, Subject(w, s).id).retryCount <= w.policy.RuleFor(Subject(w, s).category).maxRetries
    ensures Recommend(w, Subject(w, s)) == DoRetry ==>
              Run(w, s, a).value.recovery.delay ==
                if AskedToRetry(s.recovery.human) then 0.0
                else Backoff(w.policy.RuleFor(Subject(w, s).category), Subject(w, s).retryCount + 1)
  {
    var p, e := Prepared(w, s, a), Worked(w, s);
    DecidedRun(w, s, a);
    PreparedHoldsWorked(w, s, a);
    VerdictIsAllowed(w, s, a);
    RetryRetries(w, p, e);
    FinalizeRetried(w, p, Retry(w, p, e).value, Run(w, s, a).value, e);
    if Recommend(w, Subject(w, s)) == DoRetry {
      AutomaticLimit(w, s, a, Run(w, s, a).value);
    }
  }

  lemma VerdictIsAllowed(w: World, s: State, a: Answer)
    requires Pick(s).Some? && Verdict(w, s, a) == DoRetry
    ensures Worked(w, s).retryCount < Worked(w, s).maxRetries || AskedToRetry(Prepared(w, s, a).recovery.human)
  {
  }

  lemma FinalizeRetried(w: World, s: State, t: State, u: State, e: ErrorRecord)
    requires Retried(w, s, t, e) && Finalize(t) == Ok(u)
    ensures Retried(w, s, u, e)
  {
  }

  lemma AutomaticLimit(w: World, s: State, a: Answer, t: State)
    requires Pick(s).Some? && Recommend(w, Subject(w, s)) == DoRetry && Retried(w, Prepared(w, s, a), t, Worked(w, s))
    ensures var e := Subject(w, s);
            && Get(t.errors, e.id).retryCount <= w.policy.RuleFor(e.category).maxRetries
            && t.recovery.delay == if AskedToRetry(s.recovery.human) then 0.0 else Backoff(w.policy.RuleFor(e.category), e.retryCount + 1)
  {
  }

  /** After a fallback, automatic or chosen by a human, the cohort is closed. */
  lemma FallbackRunClosesCohort(w: World, s: State, a: Answer)
    requires Sound(s) && Run(w, s, a).Ok? && Pick(s).Some? && Decided(w, s) && Verdict(w, s, a) == DoFallback
    ensures var p, e := Prepared(w, s, a), Worked(w, s);
            ChosenFallback(p, e).Some? && CohortClosed(p, Run(w, s, a).value, e, ChosenFallback(p, e).value)
  {
    DecidedRun(w, s, a);
    FallbackClosesCohort(Prepared(w, s, a), Worked(w, s));
  }

  lemma AbortKeeps(s: State, e: ErrorRecord)
    requires Sound(s) && e in s.errors
    ensures Keeps(s, Abort(s, e))
  {
    GetUnique(s.errors, e);
    WithErrorKeeps(s, e.(status := Failed, fatal := true));
    WithoutIs(s.recovery.pending, {e.id});
    assert Abort(s, e).errors == WithError(s, e.(status := Failed, fatal := true)).errors;
  }

  /** No run loses a record or a counted retry, and every run leaves a state another run can start from. */
  lemma RunKeepsRecords(w: World, s: State, a: Answer)
    requires Sound(s) && Run(w, s, a).Ok?
    ensures Keeps(s, Run(w, s, a).value)
  {
    RunRaisesExactlyWhen(w, s, a);
    RunShape(w, s, a);
    if Decided(w, s) {
      DecidedRunKeeps(w, s, a);
    } else {
      UndecidedRunKeeps(w, s, a);
    }
  }

  lemma DecidedRunKeeps(w: World, s: State, a: Answer)
    requires Sound(s) && Run(w, s, a).Ok? && Pick(s).Some? && Decided(w, s)
    ensures Keeps(s, Run(w, s, a).value)
  {
    var p, e, t := Prepared(w, s, a), Worked(w, s), Run(w, s, a).value;
    DecidedRun(w, s, a);
    PreparedHoldsWorked(w, s, a);
    match Verdict(w, s, a) {
      case DoRetry =>
        RetryRetries(w, p, e);
        FinalizeKeeps(p, Retry(w, p, e).value, t);
      case DoFallback =>
        FallbackKeeps(p, e);
        FinalizeKeeps(p, ApplyFallback(p, e).value, t);
      case _ =>
        AbortKeeps(p, e);
        FinalizeKeeps(p, Abort(p, e), t);
    }
    KeepsTransitive(s, p, t);
  }

  lemma FinalizeKeeps(s: State, t: State, u: State)
    requires Keeps(s, t) && Finalize(t) == Ok(u)
    ensures Keeps(s, u)
  {
  }

  lemma UndecidedRunKeeps(w: World, s: State, a: Answer)
    requires Sound(s) && Run(w, s, a).Ok? && Pick(s).Some? && !Decided(w, s)
    ensures Keeps(s, Run(w, s, a).value)
  {
    PickedIsKnown(w, s);
    GetUnique(s.errors, Pick(s).value);
    if Subject(w, s).id !in w.mapped {
      UnmappedShape(w, s, a);
      UnmappedKeeps(s, Select(w, s, Pick(s).value), Subject(w, s).(status := Failed, fatal := true), Run(w, s, a).value);
    } else {
      MappedShape(w, s, a);
      ReusedKeeps(w, s, Run(w, s, a).value);
    }
  }

  lemma UnmappedKeeps(s: State, selected: State, failed: ErrorRecord, t: State)
    requires Sound(s) && HasId(s.errors, failed.id)
    requires selected.errors == WithError(s, failed).errors
    requires Distinct(selected.recovery.pending) && selected.recovery.degradations == s.recovery.degradations
    requires failed.category == Get(s.errors, failed.id).category && failed.retryCount >= Get(s.errors, failed.id).retryCount
    requires Finalize(Abort(selected, failed)) == Ok(t)
    ensures Keeps(s, t)
  {
    WithErrorReplaces(s, failed);
    WithErrorKeeps(s, failed);
    assert Keeps(s, selected);
    AbortKeeps(selected, failed);
    KeepsTransitive(s, selected, Abort(selected, failed));
    FinalizeKeeps(s, Abort(selected, failed), t);
  }

  lemma ReusedKeeps(w: World, s: State, t: State)
    requires Sound(s) && Pick(s).Some? && HasId(s.errors, Subject(w, s).id)
    requires var e := Subject(w, s);
             e.category == Get(s.errors, e.id).category && e.retryCount >= Get(s.errors, e.id).retryCount && e.id in w.reusable
    requires Finalize(Inspect(w, Selected(w, s), Subject(w, s))) == Ok(t)
    ensures Keeps(s, t)
  {
    var e, selected := Subject(w, s), Selected(w, s);
    var recovered := e.(status := Recovered, fatal := false);
    SelectedHoldsSubject(w, s);
    WithErrorKeeps(s, e);
    assert selected.errors == WithError(s, e).errors;
    assert Keeps(s, selected);
    WithErrorKeeps(selected, recovered);
    var inspected := Inspect(w, selected, e);
    assert inspected.errors == WithError(selected, recovered).errors;
    KeepsTransitive(s, selected, inspected);
    FinalizeKeeps(s, inspected, t);
  }

  // ----- The record and the task agree with the action -----

  /** The status a run leaves its error in, by the action it reports to the main graph. */
  predicate StatusFits(e: ErrorRecord, action: Action) {
    match action
    case DoRetry => e.status == Retrying && !e.fatal
    case DoReuse => e.status == Recovered && !e.fatal
    case DoFallback | DoSkip | DoPartial => e.status == FallbackApplied && !e.fatal
    case DoAbort => e.status == Failed && e.fatal
    case _ => false
  }

  /** What the action makes of the task its error belongs to. */
  function TaskAfter(t: Task, action: Action): Task {
    match action
    case DoRetry => Task(t.id, TaskRunning, t.attempts + 1)
    case DoFallback | DoSkip | DoPartial => Task(t.id, TaskPartial, t.attempts)
    case DoAbort => Task(t.id, TaskFailed, t.attempts)
    case _ => t
  }

  /** The error `id` of task `task` has been dealt with as the reported action says; other tasks are untouched. */
  ghost predicate DealtWith(s: State, t: State, id: ErrorId, task: Option<TaskId>) {
    var action := t.recovery.action;
    && HasId(t.errors, id) && StatusFits(Get(t.errors, id), action)
    && |t.tasks| == |s.tasks|
    && (forall i | 0 <= i < |s.tasks| :: t.tasks[i] == if Some(s.tasks[i].id) == task then TaskAfter(s.tasks[i], action) else s.tasks[i])
    && (action == DoAbort ==> id !in t.recovery.pending)
  }

  lemma CarryDealsWith(w: World, p: State, e: ErrorRecord, verdict: Action)
    requires Sound(p) && e in p.errors && Carry(w, p, e, verdict).Ok? && verdict in {DoRetry, DoFallback, DoAbort}
    requires verdict == DoRetry ==> e.retryCount < e.maxRetries || AskedToRetry(p.recovery.human)
    ensures DealtWith(p, Carry(w, p, e, verdict).value, e.id, e.taskId)
  {
    GetUnique(p.errors, e);
    match verdict {
      case DoRetry => RetryRetries(w, p, e);
      case DoFallback => FallbackDealsWith(p, e);
      case DoAbort =>
        WithErrorReplaces(p, e.(status := Failed, fatal := true));
        WithoutIs(p.recovery.pending, {e.id});
    }
  }

  lemma FallbackDealsWith(p: State, e: ErrorRecord)
    requires Sound(p) && e in p.errors && ApplyFallback(p, e).Ok?
    ensures DealtWith(p, ApplyFallback(p, e).value, e.id, e.taskId)
  {
    var fallback := ChosenFallback(p, e).value;
    var after := AllAfterFallback(p.errors, e, fallback);
    var i :| 0 <= i < |p.errors| && p.errors[i] == e;
    assert after[i] == AfterFallback(e, e, fallback) && after[i] in after;
    AllAfterFallbackDistinct(p.errors, e, fallback);
    GetUnique(after, after[i]);
  }

  /** Whatever path a run takes, the record of its error and the tasks end as the reported action says. */
  lemma RunDealsWithItsError(w: World, s: State, a: Answer)
    requires Sound(s) && Run(w, s, a).Ok?
    ensures Pick(s).Some? && DealtWith(s, Run(w, s, a).value, Subject(w, s).id, Subject(w, s).taskId)
  {
    RunRaisesExactlyWhen(w, s, a);
    if Decided(w, s) {
      DecidedRun(w, s, a);
      PreparedHoldsWorked(w, s, a);
      if Verdict(w, s, a) == DoRetry {
        VerdictIsAllowed(w, s, a);
      }
      CarryDealsWith(w, Prepared(w, s, a), Worked(w, s), Verdict(w, s, a));
    } else if Subject(w, s).id in w.mapped {
      MappedShape(w, s, a);
      SelectedHoldsSubject(w, s);
      WithErrorReplaces(Selected(w, s), Subject(w, s).(status := Recovered, fatal := false));
    } else {
      UnmappedDealsWith(w, s, a);
    }
  }

  lemma UnmappedDealsWith(w: World, s: State, a: Answer)
    requires Sound(s) && Run(w, s, a).Ok? && Pick(s).Some? && Subject(w, s).id !in w.mapped
    ensures DealtWith(s, Run(w, s, a).value, Subject(w, s).id, Subject(w, s).taskId)
  {
    var failed := Subject(w, s).(status := Failed, fatal := true);
    var selected := Select(w, s, Pick(s).value);
    UnmappedShape(w, s, a);
    PickedIsKnown(w, s);
    WithErrorReplaces(s, failed);
    assert selected.errors == WithError(s, failed).errors && failed in selected.errors;
    CarryDealsWith(w, selected, failed, DoAbort);
  }

  // ----- Sequences of runs -----

  /** Each entry starts a run; between runs the main graph may add records but forgets none and uncounts no retry. */
  ghost predicate History(w: World, h: seq<(State, Answer)>) {
    && (forall i | 0 <= i < |h| :: Sound(h[i].0) && Run(w, h[i].0, h[i].1).Ok?)
    && forall i | 0 <= i < |h| - 1 :: Keeps(Run(w, h[i].0, h[i].1).value, h[i + 1].0)
  }

  /** The run retries the given error on the policy's own decision. */
  predicate RetriesAutomatically(w: World, s: State, id: ErrorId) {
    Pick(s).Some? && Decided(w, s) && Subject(w, s).id == id && Recommend(w, Subject(w, s)) == DoRetry
  }

  function AutomaticRetries(w: World, h: seq<(State, Answer)>, id: ErrorId): nat {
    if h == [] then 0 else (if RetriesAutomatically(w, h[0].0, id) then 1 else 0) + AutomaticRetries(w, h[1..], id)
  }

  /** Over any sequence of runs an error is retried automatically at most as often as its category still allows. */
  lemma {:induction false} AutomaticRetriesAreBounded(w: World, h: seq<(State, Answer)>, id: ErrorId, e: ErrorRecord)
    requires History(w, h) && h != [] && e in h[0].0.errors && e.id == id
    ensures var limit := w.policy.RuleFor(e.category).maxRetries;
            AutomaticRetries(w, h, id) <= if e.retryCount < limit then limit - e.retryCount else 0
  {
    var s, a := h[0].0, h[0].1;
    var t := Run(w, s, a).value;
    RunKeepsRecords(w, s, a);
    if RetriesAutomatically(w, s, id) {
      AutomaticRetryCounts(w, s, a, e);
    }
    if |h| > 1 {
      assert Keeps(t, h[1].0);
      KeepsTransitive(s, t, h[1].0);
      assert Get(t.errors, id) in t.errors;
      var next := Get(h[1].0.errors, id);
      RestIsHistory(w, h);
      AutomaticRetriesAreBounded(w, h[1..], id, next);
    } else {
      assert AutomaticRetries(w, h[1..], id) == 0;
    }
  }

  lemma RestIsHistory(w: World, h: seq<(State, Answer)>)
    requires History(w, h) && |h| > 1
    ensures History(w, h[1..])
  {
    var rest := h[1..];
    forall i | 0 <= i < |rest| ensures Sound(rest[i].0) && Run(w, rest[i].0, rest[i].1).Ok? {
      assert rest[i] == h[i + 1];
    }
    forall i | 0 <= i < |rest| - 1 ensures Keeps(Run(w, rest[i].0, rest[i].1).value, rest[i + 1].0) {
      assert rest[i] == h[i + 1] && rest[i + 1] == h[i + 2];
    }
  }

  lemma AutomaticRetryCounts(w: World, s: State, a: Answer, e: ErrorRecord)
    requires Sound(s) && Run(w, s, a).Ok? && e in s.errors && RetriesAutomatically(w, s, e.id)
    ensures e.retryCount < w.policy.RuleFor(e.category).maxRetries
    ensures HasId(Run(w, s, a).value.errors, e.id) && Get(Run(w, s, a).value.errors, e.id).retryCount == e.retryCount + 1
  {
    PickedIsKnown(w, s);
    GetUnique(s.errors, e);
    GetUnique(s.errors, Pick(s).value);
    RetryStaysWithinLimit(w, s, a);
  }

  // ----- A human choice that outlives its error -----

  /**
   * The human choice of an earlier recovery is not cleared.  The policy's own
   * fallback is the one applied exactly when that choice was not to skip a file, or skipping is the fallback anyway.
   */
  lemma StaleSkipReplacesFallback(w: World, s: State, a: Answer)
    requires Sound(s) && Run(w, s, a).Ok? && Pick(s).Some? && Decided(w, s) && Recommend(w, Subject(w, s)) == DoFallback
    ensures var rule := w.policy.RuleFor(Subject(w, s).category);
            Run(w, s, a).value.recovery.fallback == rule.fallback
            <==> s.recovery.human.selected != Some(AskSkip) || rule.fallback == Some(SkipFile)
  {
    DecidedRun(w, s, a);
  }

  /** The policy's own delay is the one scheduled exactly when no earlier human choice was to retry, or the delay is zero anyway. */
  lemma StaleRetryDropsBackoff(w: World, s: State, a: Answer)
    requires Sound(s) && Run(w, s, a).Ok? && Pick(s).Some? && Decided(w, s) && Recommend(w, Subject(w, s)) == DoRetry
    ensures var e := Subject(w, s);
            var delay := Backoff(w.policy.RuleFor(e.category), e.retryCount + 1);
            Run(w, s, a).value.recovery.delay == delay <==> !AskedToRetry(s.recovery.human) || delay == 0.0
  {
    RetryStaysWithinLimit(w, s, a);
  }

  /** An LLM error whose fallback is the coordinator is skipped as a file because an earlier, unrelated error was. */
  lemma StaleSkipWitness(w: World, s: State, a: Answer, e: ErrorRecord)
    requires w.policy.enabled && w.policy.RuleFor(Llm) == Rule(true, 1, Some(Coordinator), false, 0.5, 2.0, 8.0)
    requires w.mapped == {1} && w.reusable == {}
    requires e == ErrorRecord(1, Llm, None, Some(7), true, 1, 1, Some(Coordinator), false, Pending, true)
    requires s == State([e], [], Recovery([1], Some(1), DoNothing, None, 0.0, [], Human(None, [], Some(AskSkip))), Running)
    ensures Run(w, s, a).Ok? && Run(w, s, a).value.recovery.fallback == Some(SkipFile)
  {
    assert e in s.errors;
    GetUnique(s.errors, e);
    assert Pick(s) == Some(e);
    RunRaisesExactlyWhen(w, s, a);
    DecidedRun(w, s, a);
  }

  /** The first retry of an LLM error is due after half a second, but an earlier choice to retry schedules it at once. */
  lemma StaleRetryWitness(w: World, s: State, a: Answer, e: ErrorRecord)
    requires w.policy.enabled && w.policy.RuleFor(Llm) == Rule(true, 1, Some(Coordinator), false, 0.5, 2.0, 8.0)
    requires w.mapped == {1} && w.reusable == {}
    requires e == ErrorRecord(1, Llm, None, Some(7), true, 0, 1, Some(Coordinator), false, Pending, true)
    requires s == State([e], [], Recovery([1], Some(1), DoNothing, None, 0.0, [], Human(None, [], Some(AskRetry))), Running)
    ensures Run(w, s, a).Ok? && Run(w, s, a).value.recovery.action == DoRetry
    ensures Run(w, s, a).value.recovery.delay == 0.0 && Backoff(w.policy.RuleFor(Llm), 1) == 0.5
  {
    assert e in s.errors;
    GetUnique(s.errors, e);
    assert Pick(s) == Some(e);
    RunRaisesExactlyWhen(w, s, a);
    DecidedRun(w, s, a);
    RetryStaysWithinLimit(w, s, a);
  }
}
