/**
 * Which error a run of the recovery subgraph takes, what the policy makes of
 * it, and what becomes of the other records and of the queue.
 */
module RecoveryOutcomes {
  import opened Options
  import opened Sorting
  import opened RecordMerge
  import opened ErrorRecovery
  import opened ErrorRecoveryProperties

  // ----- Which error is taken -----

  /** The identifier names a record that is neither recovered nor closed by a fallback. */
  predicate OpenId(errors: seq<ErrorRecord>, id: ErrorId) {
    exists e <- errors :: e.id == id && e.status != Recovered && e.status != FallbackApplied
  }

  /** The position holds the last open identifier of the queue. */
  predicate LastOpenAt(errors: seq<ErrorRecord>, pending: seq<ErrorId>, k: int) {
    && 0 <= k < |pending| && OpenId(errors, pending[k])
    && forall m | k < m < |pending| :: !OpenId(errors, pending[m])
  }

  /** The record still needs attention. */
  predicate NeedsAttention(e: ErrorRecord) {
    || e.status == Pending || e.status == Retrying || e.status == WaitingHuman || e.status == Failed
    || (e.status == Unset && e.fatal)
  }

  predicate LastNeedyAt(errors: seq<ErrorRecord>, k: int) {
    0 <= k < |errors| && NeedsAttention(errors[k]) && forall m | k < m < |errors| :: !NeedsAttention(errors[m])
  }

  lemma OpenMeans(errors: seq<ErrorRecord>, id: ErrorId)
    requires DistinctKeys(Key(), errors)
    ensures OpenId(errors, id) <==> HasId(errors, id) && !Resolved(Get(errors, id))
  {
    if OpenId(errors, id) {
      var e :| e in errors && e.id == id && e.status != Recovered && e.status != FallbackApplied;
      GetUnique(errors, e);
    }
  }

  lemma {:induction false} ReversedIs<T>(s: seq<T>)
    ensures |Reversed(s)| == |s| && forall i | 0 <= i < |s| :: Reversed(s)[i] == s[|s| - 1 - i]
  {
    if s != [] {
      ReversedIs(s[..|s| - 1]);
    }
  }

  lemma {:induction false} FirstOpenIs(ids: seq<ErrorId>, errors: seq<ErrorRecord>, k: nat)
    requires DistinctKeys(Key(), errors) && k <= |ids| && forall m | 0 <= m < k :: !OpenId(errors, ids[m])
    ensures k == |ids| ==> FirstOpen(ids, errors).None?
    ensures k < |ids| && OpenId(errors, ids[k]) ==>
              FirstOpen(ids, errors).Some? && FirstOpen(ids, errors).value in errors && FirstOpen(ids, errors).value.id == ids[k]
  {
    if k == 0 {
      if ids != [] {
        OpenMeans(errors, ids[0]);
      }
    } else {
      OpenMeans(errors, ids[0]);
      assert forall m | 0 <= m < k - 1 :: ids[1..][m] == ids[m + 1];
      FirstOpenIs(ids[1..], errors, k - 1);
    }
  }

  lemma {:induction false} LastUnresolvedIs(errors: seq<ErrorRecord>, k: int)
    ensures LastNeedyAt(errors, k) ==> LastUnresolved(errors) == Some(errors[k])
    ensures (forall m | 0 <= m < |errors| :: !NeedsAttention(errors[m])) ==> LastUnresolved(errors).None?
  {
    if errors != [] {
      var front := errors[..|errors| - 1];
      LastUnresolvedIs(front, k);
      assert LastNeedyAt(errors, k) && k < |errors| - 1 ==> LastNeedyAt(front, k);
      assert forall m | 0 <= m < |front| :: front[m] == errors[m];
    }
  }

  /** The order in which identifiers are tried: the current error, then the queue from its end. */
  function Tried(s: State): seq<ErrorId> {
    (if s.recovery.current.Some? then [s.recovery.current.value] else []) + Reversed(s.recovery.pending)
  }

  lemma TriedAt(s: State, k: nat)
    requires k < |s.recovery.pending|
    ensures var first := if s.recovery.current.Some? then 1 else 0;
            && |Tried(s)| == first + |s.recovery.pending|
            && Tried(s)[first + |s.recovery.pending| - 1 - k] == s.recovery.pending[k]
  {
    ReversedIs(s.recovery.pending);
  }

  lemma CurrentIsTaken(s: State)
    requires Sound(s) && s.recovery.current.Some? && OpenId(s.errors, s.recovery.current.value)
    ensures Pick(s).Some? && Pick(s).value in s.errors && Pick(s).value.id == s.recovery.current.value
  {
    FirstOpenIs(Tried(s), s.errors, 0);
  }

  predicate CurrentClosed(s: State) {
    s.recovery.current.None? || !OpenId(s.errors, s.recovery.current.value)
  }

  lemma LastQueuedIsTaken(s: State, k: int)
    requires Sound(s) && CurrentClosed(s) && LastOpenAt(s.errors, s.recovery.pending, k)
    ensures Pick(s).Some? && Pick(s).value in s.errors && Pick(s).value.id == s.recovery.pending[k]
  {
    var pending, first := s.recovery.pending, if s.recovery.current.Some? then 1 else 0;
    var place := first + |pending| - 1 - k;
    ReversedIs(pending);
    TriedAt(s, k);
    forall m | 0 <= m < place ensures !OpenId(s.errors, Tried(s)[m]) {
      if m >= first {
        assert Tried(s)[m] == pending[|pending| - 1 - (m - first)];
      }
    }
    FirstOpenIs(Tried(s), s.errors, place);
  }

  lemma LatestRecordIsTaken(s: State, k: int)
    requires Sound(s) && CurrentClosed(s) && forall id <- s.recovery.pending :: !OpenId(s.errors, id)
    ensures LastNeedyAt(s.errors, k) ==> Pick(s) == Some(s.errors[k])
    ensures (forall m | 0 <= m < |s.errors| :: !NeedsAttention(s.errors[m])) ==> Pick(s).None?
  {
    ReversedIs(s.recovery.pending);
    forall m | 0 <= m < |Tried(s)| ensures !OpenId(s.errors, Tried(s)[m]) {
      var first := if s.recovery.current.Some? then 1 else 0;
      if m >= first {
        assert Tried(s)[m] == s.recovery.pending[|s.recovery.pending| - 1 - (m - first)];
      }
    }
    FirstOpenIs(Tried(s), s.errors, |Tried(s)|);
    LastUnresolvedIs(s.errors, k);
  }

  /**
   * The error a run takes: the current one while it is open; otherwise the one
   * named last in the queue that is open; otherwise the latest record that
   * needs attention.  Nothing is taken exactly when none of these exists.
   */
  lemma PickIsLatest(s: State, k: int)
    requires Sound(s)
    ensures s.recovery.current.Some? && OpenId(s.errors, s.recovery.current.value) ==>
              Pick(s).Some? && Pick(s).value in s.errors && Pick(s).value.id == s.recovery.current.value
    ensures CurrentClosed(s) && LastOpenAt(s.errors, s.recovery.pending, k) ==>
              Pick(s).Some? && Pick(s).value in s.errors && Pick(s).value.id == s.recovery.pending[k]
    ensures CurrentClosed(s) && (forall id <- s.recovery.pending :: !OpenId(s.errors, id)) ==>
              && (LastNeedyAt(s.errors, k) ==> Pick(s) == Some(s.errors[k]))
              && ((forall m | 0 <= m < |s.errors| :: !NeedsAttention(s.errors[m])) ==> Pick(s).None?)
  {
    if !CurrentClosed(s) {
      CurrentIsTaken(s);
    } else if LastOpenAt(s.errors, s.recovery.pending, k) {
      LastQueuedIsTaken(s, k);
    } else if forall id <- s.recovery.pending :: !OpenId(s.errors, id) {
      LatestRecordIsTaken(s, k);
    }
  }

  // ----- What the policy makes of it -----

  /** What a run reports after a fallback. */
  predicate ReportsFallback(action: Action, fallback: Fallback) {
    action == (if fallback == SkipFile then DoSkip else if fallback == PartialResult then DoPartial else DoFallback)
  }

  /**
   * A run follows the rule of its error's category: retry while the rule allows
   * one more, else its fallback, else a human, else give up.  A disabled policy
   * gives up at once.  No choice left over from an earlier recovery is assumed.
   */
  lemma RunFollowsPolicy(w: World, s: State, a: Answer)
    requires Sound(s) && Run(w, s, a).Ok? && Pick(s).Some? && Decided(w, s) && s.recovery.human.selected.None?
    ensures var e, t := Pick(s).value, Run(w, s, a).value.recovery;
            var rule := w.policy.RuleFor(e.category);
            if !w.policy.enabled then t.action == DoAbort
            else if rule.retryable && e.retryCount < rule.maxRetries then
              t.action == DoRetry && t.delay == Backoff(rule, e.retryCount + 1)
            else if rule.fallback.Some? then t.fallback == rule.fallback && ReportsFallback(t.action, rule.fallback.value)
            else if !rule.requiresHuman then t.action == DoAbort
            else if a.action == AskRetry || a.action == AskPath then t.action == DoRetry && t.delay == 0.0
            else if a.action == AskSkip then t.action == DoSkip && t.fallback == Some(SkipFile)
            else t.action == DoAbort
  {
    DecidedRun(w, s, a);
    VerdictFollowsRule(w, s, a);
    PreparedChoice(w, s, a);
    CarryReports(w, Prepared(w, s, a), Worked(w, s), Verdict(w, s, a));
  }

  lemma VerdictFollowsRule(w: World, s: State, a: Answer)
    requires Pick(s).Some?
    ensures var e, v := Pick(s).value, Verdict(w, s, a);
            var rule := w.policy.RuleFor(e.category);
            if !w.policy.enabled then v !in {DoRetry, DoFallback}
            else if rule.retryable && e.retryCount < rule.maxRetries then v == DoRetry && Recommend(w, Subject(w, s)) == DoRetry
            else if rule.fallback.Some? then v == DoFallback && Recommend(w, Subject(w, s)) == DoFallback
            else if !rule.requiresHuman then v !in {DoRetry, DoFallback}
            else Recommend(w, Subject(w, s)) == DoWait
                 && v == (match a.action case AskRetry | AskPath => DoRetry case AskSkip => DoFallback case AskAbort => DoAbort)
  {
    PickFindsOpenError(s);
  }

  lemma PreparedChoice(w: World, s: State, a: Answer)
    requires Pick(s).Some? && s.recovery.human.selected.None?
    ensures var p, e := Prepared(w, s, a), Worked(w, s);
            var asked := Recommend(w, Subject(w, s)) == DoWait;
            && e.category == Pick(s).value.category && e.retryCount == Pick(s).value.retryCount
            && (AskedToRetry(p.recovery.human) <==> asked && (a.action == AskRetry || a.action == AskPath))
            && ChosenFallback(p, e) == if asked && a.action == AskSkip then Some(SkipFile) else w.policy.RuleFor(e.category).fallback
  {
  }

  lemma CarryReports(w: World, p: State, e: ErrorRecord, verdict: Action)
    requires Carry(w, p, e, verdict).Ok? && Finalize(Carry(w, p, e, verdict).value).Ok?
    ensures var t := Finalize(Carry(w, p, e, verdict).value).value.recovery;
            match verdict
            case DoRetry => t.action == DoRetry
                            && t.delay == if AskedToRetry(p.recovery.human) then 0.0 else Backoff(w.policy.RuleFor(e.category), e.retryCount + 1)
            case DoFallback => ChosenFallback(p, e).Some? && t.fallback == ChosenFallback(p, e) && ReportsFallback(t.action, t.fallback.value)
            case _ => t.action == DoAbort
  {
  }

  /** A human may retry what is retryable, name a path for filesystem and validation errors, skip what has a file, and always abort. */
  lemma AdmittedExactly(a: Answer, e: ErrorRecord)
    ensures Admitted(a, AllowedActions(e)) <==>
            && a.noteFits
            && (a.action == AskRetry ==> e.retryable && !a.hasPath)
            && (a.action == AskPath ==> (e.category == Filesystem || e.category == Validation) && a.hasPath && a.pathUsable)
            && (a.action == AskSkip ==> e.relatedFile.Some? && !a.hasPath)
            && (a.action == AskAbort ==> !a.hasPath)
  {
    var allowed := AllowedActions(e);
    assert AskAbort == allowed[|allowed| - 1];
    assert e.retryable ==> allowed[0] == AskRetry;
    assert AskPath in allowed <==> e.category in {Filesystem, Validation};
  }

  /** The first delay is the rule's, and every further delay is the one before times the multiplier, up to the maximum. */
  lemma DelaysGrowByMultiplier(rule: Rule, n: nat)
    requires rule.Valid() && n > 0
    ensures Backoff(rule, 1) == rule.initialBackoff
    ensures Backoff(rule, n + 1) == if rule.multiplier * Backoff(rule, n) < rule.maxBackoff
                                    then rule.multiplier * Backoff(rule, n) else rule.maxBackoff
  {
    var m, p := rule.multiplier, Power(rule.multiplier, n - 1);
    assert Power(m, 0) == 1.0;
    assert Power(m, n) == m * p;
    Regroups(rule.initialBackoff, m, p);
    if rule.initialBackoff * p >= rule.maxBackoff {
      Scales(rule.maxBackoff, 1.0, m);
      Scales(m, rule.maxBackoff, rule.initialBackoff * p);
    }
  }

  lemma Regroups(a: real, m: real, p: real)
    ensures a * (m * p) == m * (a * p)
  {
  }

  // ----- The queue and the other records -----

  /** Some occurrence of `x` stands before one of `y`. */
  predicate Before(queue: seq<ErrorId>, x: ErrorId, y: ErrorId) {
    exists i, k | 0 <= i < k < |queue| :: queue[i] == x && queue[k] == y
  }

  lemma {:induction false} WithoutKeepsOrder(pending: seq<ErrorId>, gone: set<ErrorId>, x: ErrorId, y: ErrorId)
    requires Before(Without(pending, gone), x, y)
    ensures Before(pending, x, y)
  {
    var front, last := pending[..|pending| - 1], pending[|pending| - 1];
    var rest := Without(front, gone);
    WithoutIs(front, gone);
    if Before(rest, x, y) {
      WithoutKeepsOrder(front, gone, x, y);
      var i, k :| 0 <= i < k < |front| && front[i] == x && front[k] == y;
      assert pending[i] == x && pending[k] == y;
    } else {
      var i, k :| 0 <= i < k < |Without(pending, gone)| && Without(pending, gone)[i] == x && Without(pending, gone)[k] == y;
      assert k == |rest| && y == last && x == rest[i] && rest[i] in rest;
      assert x in front;
      var m :| 0 <= m < |front| && front[m] == x;
      assert pending[m] == x && pending[|pending| - 1] == y;
    }
  }

  /** An open record other than `e` that belongs to the same task and waits for the same fallback. */
  predicate Companion(x: ErrorRecord, e: ErrorRecord, task: Option<TaskId>, fallback: Fallback) {
    x.id != e.id && x.taskId == task && x.fallback == Some(fallback) && x.status != Recovered && x.status != FallbackApplied
  }

  lemma PreparedErrors(w: World, s: State, a: Answer, i: nat)
    requires Sound(s) && Pick(s).Some? && i < |s.errors|
    ensures |Prepared(w, s, a).errors| == |s.errors|
    ensures s.errors[i].id != Subject(w, s).id ==> Prepared(w, s, a).errors[i] == s.errors[i]
    ensures Prepared(w, s, a).errors[i].id == s.errors[i].id
  {
    PickedIsKnown(w, s);
    WithErrorReplaces(s, Subject(w, s));
    SelectedHoldsSubject(w, s);
    if Recommend(w, Subject(w, s)) == DoWait {
      WithErrorReplaces(Selected(w, s), Waiting(Subject(w, s)));
    }
  }

  /** A fallback closes its companions and nothing else; every other action leaves the other records alone. */
  lemma OthersAfterRun(w: World, s: State, a: Answer, i: nat)
    requires Sound(s) && Run(w, s, a).Ok? && Pick(s).Some? && Decided(w, s) && i < |s.errors| && s.errors[i].id != Subject(w, s).id
    ensures var e, t := Subject(w, s), Run(w, s, a).value;
            && |t.errors| == |s.errors|
            && t.errors[i] == if Verdict(w, s, a) == DoFallback && t.recovery.fallback.Some?
                                 && Companion(s.errors[i], e, e.taskId, t.recovery.fallback.value)
                              then s.errors[i].(status := FallbackApplied, fatal := false) else s.errors[i]
  {
    var p, e := Prepared(w, s, a), Worked(w, s);
    PreparedErrors(w, s, a, i);
    DecidedRun(w, s, a);
    PreparedHoldsWorked(w, s, a);
    OthersAfterCarry(w, p, e, Verdict(w, s, a), i);
  }

  lemma OthersAfterCarry(w: World, p: State, e: ErrorRecord, verdict: Action, i: nat)
    requires Sound(p) && e in p.errors && i < |p.errors| && p.errors[i].id != e.id
    requires Carry(w, p, e, verdict).Ok? && Finalize(Carry(w, p, e, verdict).value).Ok?
    ensures var t := Finalize(Carry(w, p, e, verdict).value).value;
            && |t.errors| == |p.errors|
            && t.errors[i] == if verdict == DoFallback && t.recovery.fallback.Some?
                                 && Companion(p.errors[i], e, e.taskId, t.recovery.fallback.value)
                              then p.errors[i].(status := FallbackApplied, fatal := false) else p.errors[i]
  {
    match verdict {
      case DoFallback =>
        FallbackClosesCohort(p, e);
      case DoRetry =>
        var limit := if e.retryCount + 1 > e.maxRetries then e.retryCount + 1 else e.maxRetries;
        WithErrorReplaces(p, e.(retryable := true, retryCount := e.retryCount + 1, maxRetries := limit, status := Retrying, fatal := false));
      case _ =>
        WithErrorReplaces(p, e.(status := Failed, fatal := true));
    }
  }

  /** Whatever a run does, it takes identifiers off the queue without changing the order of the others. */
  lemma QueueKeepsOrder(w: World, s: State, a: Answer, x: ErrorId, y: ErrorId)
    requires Sound(s) && Run(w, s, a).Ok? && Pick(s).Some? && Decided(w, s) && Before(Run(w, s, a).value.recovery.pending, x, y)
    ensures Before(s.recovery.pending + [Subject(w, s).id], x, y)
  {
    var p, t := Prepared(w, s, a), Run(w, s, a).value;
    DecidedRun(w, s, a);
    assert p.recovery.pending == Queued(s.recovery.pending, Subject(w, s).id);
    CarryKeepsOrder(w, p, Worked(w, s), Verdict(w, s, a), x, y);
    var i, k :| 0 <= i < k < |p.recovery.pending| && p.recovery.pending[i] == x && p.recovery.pending[k] == y;
    var longer := s.recovery.pending + [Subject(w, s).id];
    assert longer[i] == x && longer[k] == y;
  }

  lemma CarryKeepsOrder(w: World, p: State, e: ErrorRecord, verdict: Action, x: ErrorId, y: ErrorId)
    requires Carry(w, p, e, verdict).Ok? && Finalize(Carry(w, p, e, verdict).value).Ok?
    requires Before(Finalize(Carry(w, p, e, verdict).value).value.recovery.pending, x, y)
    ensures Before(p.recovery.pending, x, y)
  {
    match verdict {
      case DoRetry =>
      case DoFallback =>
        WithoutKeepsOrder(p.recovery.pending, CohortIds(p.errors, e, ChosenFallback(p, e).value), x, y);
      case _ =>
        WithoutKeepsOrder(p.recovery.pending, {e.id}, x, y);
    }
  }

  /**
   * A retry keeps its error in the queue.  An abort takes it off, and a fallback
   * takes off it and its companions.  Nothing else leaves and nothing else comes.
   */
  lemma QueueAfterRun(w: World, s: State, a: Answer, id: ErrorId)
    requires Sound(s) && Run(w, s, a).Ok? && Pick(s).Some? && Decided(w, s)
    ensures var e, t := Subject(w, s), Run(w, s, a).value;
            var known := id in s.recovery.pending || id == e.id;
            match Verdict(w, s, a)
            case DoRetry => id in t.recovery.pending <==> known
            case DoFallback =>
              t.recovery.fallback.Some?
              && (id in t.recovery.pending <==> known && id != e.id && !HasCompanion(s.errors, id, e, t.recovery.fallback.value))
            case _ => id in t.recovery.pending <==> known && id != e.id
  {
    var p, e := Prepared(w, s, a), Worked(w, s);
    DecidedRun(w, s, a);
    CarryQueue(w, p, e, Verdict(w, s, a), id);
    assert p.recovery.pending == Queued(s.recovery.pending, e.id);
    if Verdict(w, s, a) == DoFallback {
      var fallback := ChosenFallback(p, e).value;
      CompanionsArePrepared(w, s, a, id, fallback);
    }
  }

  predicate HasCompanion(errors: seq<ErrorRecord>, id: ErrorId, e: ErrorRecord, fallback: Fallback) {
    exists i | 0 <= i < |errors| :: errors[i].id == id && Companion(errors[i], e, e.taskId, fallback)
  }

  lemma CarryQueue(w: World, p: State, e: ErrorRecord, verdict: Action, id: ErrorId)
    requires Carry(w, p, e, verdict).Ok? && Finalize(Carry(w, p, e, verdict).value).Ok?
    ensures var t := Finalize(Carry(w, p, e, verdict).value).value;
            match verdict
            case DoRetry => t.recovery.pending == p.recovery.pending
            case DoFallback =>
              t.recovery.fallback.Some? && t.recovery.fallback == ChosenFallback(p, e)
              && (id in t.recovery.pending <==>
                    id in p.recovery.pending && id != e.id && !HasCompanion(p.errors, id, e, t.recovery.fallback.value))
            case _ => id in t.recovery.pending <==> id in p.recovery.pending && id != e.id
  {
    match verdict {
      case DoRetry =>
      case DoFallback =>
        var fallback := ChosenFallback(p, e).value;
        WithoutIs(p.recovery.pending, CohortIds(p.errors, e, fallback));
        CohortIsCompanions(p.errors, e, fallback, id);
      case _ =>
        WithoutIs(p.recovery.pending, {e.id});
    }
  }

  lemma CohortIsCompanions(errors: seq<ErrorRecord>, e: ErrorRecord, fallback: Fallback, id: ErrorId)
    ensures id in CohortIds(errors, e, fallback) <==> id == e.id || HasCompanion(errors, id, e, fallback)
  {
    if id in CohortIds(errors, e, fallback) && id != e.id {
      var x :| x in errors && x.id == id && InCohort(x, e, fallback);
      var i :| 0 <= i < |errors| && errors[i] == x;
    }
    if HasCompanion(errors, id, e, fallback) {
      var i :| 0 <= i < |errors| && errors[i].id == id && Companion(errors[i], e, e.taskId, fallback);
      assert errors[i] in errors && InCohort(errors[i], e, fallback);
    }
  }

  lemma CompanionsArePrepared(w: World, s: State, a: Answer, id: ErrorId, fallback: Fallback)
    requires Sound(s) && Pick(s).Some?
    ensures HasCompanion(Prepared(w, s, a).errors, id, Worked(w, s), fallback) <==>
            HasCompanion(s.errors, id, Subject(w, s), fallback)
  {
    var p, e := Prepared(w, s, a), Subject(w, s);
    forall i | 0 <= i < |s.errors|
      ensures |p.errors| == |s.errors|
      ensures p.errors[i].id == s.errors[i].id && (s.errors[i].id != e.id ==> p.errors[i] == s.errors[i])
    {
      PreparedErrors(w, s, a, i);
    }
    PickedIsKnown(w, s);
    assert |p.errors| == |s.errors|;
  }

  // ----- What happens before the policy is asked -----

  /** The error as the policy sees it: limits and fallback from its category's rule, and a task even where it had none. */
  lemma SubjectFollowsRule(w: World, s: State)
    requires Pick(s).Some?
    ensures var x, e := Pick(s).value, Subject(w, s);
            var rule := w.policy.RuleFor(x.category);
            && e.id == x.id && e.category == x.category && e.retryCount == x.retryCount && e.relatedFile == x.relatedFile
            && e.retryable == rule.retryable && e.maxRetries == rule.maxRetries
            && e.fallback == rule.fallback && e.requiresHuman == rule.requiresHuman
            && e.taskId == (if x.taskId.Some? then x.taskId else Some(w.contextTask))
            && (x.category in w.policy.rules ==> rule == w.policy.rules[x.category])
  {
  }

  /** An error that maps to no node is aborted, and one whose work can be reused is recovered, whatever the policy says. */
  lemma RunWithoutPolicy(w: World, s: State, a: Answer)
    requires Sound(s) && Pick(s).Some?
    ensures Pick(s).value.id !in w.mapped ==> Run(w, s, a).Ok? && Run(w, s, a).value.recovery.action == DoAbort
    ensures Pick(s).value.id in w.mapped && Pick(s).value.id in w.reusable ==>
              && Run(w, s, a).Ok? && Run(w, s, a).value.recovery.action == DoReuse
              && HasId(Run(w, s, a).value.errors, Pick(s).value.id)
              && Get(Run(w, s, a).value.errors, Pick(s).value.id).status == Recovered
  {
    if Pick(s).value.id !in w.mapped {
      UnmappedShape(w, s, a);
    } else if Pick(s).value.id in w.reusable {
      MappedShape(w, s, a);
      SelectedHoldsSubject(w, s);
      WithErrorReplaces(Selected(w, s), Subject(w, s).(status := Recovered, fatal := false));
    }
  }
}
