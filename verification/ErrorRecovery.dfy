/**
 * The error-recovery subgraph: one run selects an error, decides what to do
 * about it, possibly asks a human, and ends in a state the main graph can resume.
 */
module ErrorRecovery {
  import opened Options
  import opened Sorting
  import opened RecordMerge

  type ErrorId = nat
  type TaskId = nat

  datatype Category =
    | Filesystem | Parse | Comparison | EvidenceCategory | Llm | Validation | Protocol | Prompt | Hook
    | Memory | Skill | Context | DatabaseCategory | Checkpoint | Worktree | Mcp | Timeout | Unknown

  datatype Fallback = SkipFile | Coordinator | NoMemory | DefaultSkill | KeepContext | PartialResult

  datatype Status = Unset | Pending | Retrying | FallbackApplied | WaitingHuman | Recovered | Failed

  datatype Action = DoNothing | DoRetry | DoReuse | DoFallback | DoSkip | DoPartial | DoWait | DoAbort

  datatype HumanAction = AskRetry | AskPath | AskSkip | AskAbort

  datatype RunStatus = Running | Recovering | WaitingForHuman

  datatype TaskStatus = TaskOpen | TaskRunning | TaskPartial | TaskFailed

  datatype Rule = Rule(retryable: bool, maxRetries: nat, fallback: Option<Fallback>, requiresHuman: bool,
                       initialBackoff: real, multiplier: real, maxBackoff: real)
  {
    predicate Valid() {
      (retryable <==> maxRetries > 0) && maxRetries <= 10
      && 0.0 <= initialBackoff <= maxBackoff <= 3600.0 && 1.0 <= multiplier <= 10.0
    }
  }

  /** A normalised policy has a rule for every category. */
  datatype Policy = Policy(enabled: bool, rules: map<Category, Rule>, standard: Rule) {
    function RuleFor(category: Category): Rule {
      if category in rules then rules[category] else standard
    }

    ghost predicate Valid() { forall c: Category :: RuleFor(c).Valid() }
  }

  datatype ErrorRecord = ErrorRecord(id: ErrorId, category: Category, relatedFile: Option<nat>, taskId: Option<TaskId>,
                                     retryable: bool, retryCount: nat, maxRetries: nat, fallback: Option<Fallback>,
                                     requiresHuman: bool, status: Status, fatal: bool)

  datatype Task = Task(id: TaskId, status: TaskStatus, attempts: nat)

  datatype Human = Human(pendingError: Option<ErrorId>, allowed: seq<HumanAction>, selected: Option<HumanAction>)

  datatype Recovery = Recovery(pending: seq<ErrorId>, current: Option<ErrorId>, action: Action, fallback: Option<Fallback>,
                               delay: real, degradations: seq<(ErrorId, Fallback)>, human: Human)

  datatype State = State(errors: seq<ErrorRecord>, tasks: seq<Task>, recovery: Recovery, run: RunStatus)

  /** The human's answer; `pathUsable` says whether a replacement path passes the directory checks. */
  datatype Answer = Answer(action: HumanAction, hasPath: bool, noteFits: bool, pathUsable: bool)

  /** What lies outside: the policy, which errors map to a safe node, which executions can be reused, the current task. */
  datatype World = World(policy: Policy, mapped: set<ErrorId>, reusable: set<ErrorId>, contextTask: TaskId)

  function Key(): ErrorRecord -> ErrorId { (e: ErrorRecord) => e.id }

  predicate Resolved(e: ErrorRecord) { e.status == Recovered || e.status == FallbackApplied }

  ghost predicate Sound(s: State) {
    DistinctKeys(Key(), s.errors) && Distinct(s.recovery.pending) && Distinct(s.recovery.degradations)
  }

  function WithError(s: State, e: ErrorRecord): State {
    s.(errors := MergeInto(Key(), s.errors, [e]))
  }

  predicate HasId(errors: seq<ErrorRecord>, id: ErrorId) { exists e <- errors :: e.id == id }

  function Get(errors: seq<ErrorRecord>, id: ErrorId): (e: ErrorRecord)
    requires HasId(errors, id)
    ensures e in errors && e.id == id
  {
    var i := Find(Key(), errors, id);
    assert i < |errors| by {
      var k :| 0 <= k < |errors| && errors[k].id == id;
      assert Key()(errors[k]) == id;
    }
    errors[i]
  }

  // ----- Selecting an error -----

  function Reversed<T>(s: seq<T>): seq<T> {
    if s == [] then [] else [s[|s| - 1]] + Reversed(s[..|s| - 1])
  }

  /** The first of the given identifiers that names an error still open. */
  function FirstOpen(ids: seq<ErrorId>, errors: seq<ErrorRecord>): Option<ErrorRecord> {
    if ids == [] then None
    else if HasId(errors, ids[0]) && !Resolved(Get(errors, ids[0])) then Some(Get(errors, ids[0]))
    else FirstOpen(ids[1..], errors)
  }

  predicate Unresolved(e: ErrorRecord) {
    (e.fatal && !Resolved(e)) || e.status in {Pending, Retrying, WaitingHuman, Failed}
  }

  function LastUnresolved(errors: seq<ErrorRecord>): Option<ErrorRecord> {
    if errors == [] then None
    else if Unresolved(errors[|errors| - 1]) then Some(errors[|errors| - 1])
    else LastUnresolved(errors[..|errors| - 1])
  }

  function Pick(s: State): Option<ErrorRecord> {
    var ids := (if s.recovery.current.Some? then [s.recovery.current.value] else []) + Reversed(s.recovery.pending);
    var first := FirstOpen(ids, s.errors);
    if first.Some? then first else LastUnresolved(s.errors)
  }

  method PickError(s: State) returns (picked: Option<ErrorRecord>)
    ensures picked == Pick(s)
  {
    var ids := (if s.recovery.current.Some? then [s.recovery.current.value] else []) + Reversed(s.recovery.pending);
    for n := 0 to |ids|
      invariant FirstOpen(ids, s.errors) == FirstOpen(ids[n..], s.errors)
    {
      assert ids[n..][0] == ids[n] && ids[n..][1..] == ids[n + 1..];
      if HasId(s.errors, ids[n]) {
        var e := Get(s.errors, ids[n]);
        if !Resolved(e) {
          return Some(e);
        }
      }
    }
    var n := |s.errors|;
    assert s.errors[..n] == s.errors;
    while n > 0
      invariant 0 <= n <= |s.errors| && LastUnresolved(s.errors) == LastUnresolved(s.errors[..n])
    {
      assert s.errors[..n][..n - 1] == s.errors[..n - 1];
      n := n - 1;
      if Unresolved(s.errors[n]) {
        return Some(s.errors[n]);
      }
    }
    return None;
  }

  lemma {:induction false} FirstOpenIsOpen(ids: seq<ErrorId>, errors: seq<ErrorRecord>)
    ensures var r := FirstOpen(ids, errors); r.Some? ==> r.value in errors && !Resolved(r.value)
  {
    if ids != [] {
      FirstOpenIsOpen(ids[1..], errors);
    }
  }

  lemma {:induction false} LastUnresolvedIsOpen(errors: seq<ErrorRecord>)
    ensures var r := LastUnresolved(errors);
            if r.Some? then r.value in errors && Unresolved(r.value) else forall e <- errors :: !Unresolved(e)
  {
    if errors != [] {
      LastUnresolvedIsOpen(errors[..|errors| - 1]);
      assert errors == errors[..|errors| - 1] + [errors[|errors| - 1]];
    }
  }

  /** An error is picked whenever one is unresolved, and what is picked is open. */
  lemma PickFindsOpenError(s: State)
    ensures Pick(s).Some? ==> Pick(s).value in s.errors && !Resolved(Pick(s).value)
    ensures (exists e <- s.errors :: Unresolved(e)) ==> Pick(s).Some?
  {
    FirstOpenIsOpen((if s.recovery.current.Some? then [s.recovery.current.value] else []) + Reversed(s.recovery.pending), s.errors);
    LastUnresolvedIsOpen(s.errors);
  }

  /** The record with its policy fields filled in, ready to be recovered. */
  function Normalized(w: World, e: ErrorRecord): ErrorRecord {
    var rule := w.policy.RuleFor(e.category);
    e.(retryable := rule.retryable, maxRetries := rule.maxRetries, fallback := rule.fallback, requiresHuman := rule.requiresHuman,
       status := if e.status in {Unset, Failed} then Pending else e.status,
       taskId := Some(if e.taskId.Some? then e.taskId.value else w.contextTask))
  }

  function Queued(pending: seq<ErrorId>, id: ErrorId): seq<ErrorId> {
    if id in pending then pending else pending + [id]
  }

  function Select(w: World, s: State, picked: ErrorRecord): State {
    var e := Normalized(w, picked);
    var mapped := e.id in w.mapped;
    var e' := if mapped then e else e.(status := Failed, fatal := true);
    WithError(s, e').(run := Recovering,
                      recovery := s.recovery.(current := Some(e.id), pending := Queued(s.recovery.pending, e.id),
                                              action := if mapped then DoNothing else DoAbort))
  }

  // ----- Inspecting and deciding -----

  function Inspect(w: World, s: State, e: ErrorRecord): State {
    if s.recovery.action == DoAbort then s
    else if e.id in w.reusable then
      WithError(s, e.(status := Recovered, fatal := false)).(recovery := s.recovery.(action := DoReuse))
    else s.(recovery := s.recovery.(action := DoNothing))
  }

  function Recommend(w: World, e: ErrorRecord): Action {
    var rule := w.policy.RuleFor(e.category);
    if !w.policy.enabled || Resolved(e) then DoNothing
    else if rule.retryable && e.retryCount < rule.maxRetries then DoRetry
    else if rule.fallback.Some? then DoFallback
    else if rule.requiresHuman then DoWait
    else DoAbort
  }

  function Decide(w: World, s: State, e: ErrorRecord): State {
    s.(recovery := s.recovery.(action := Recommend(w, e), fallback := e.fallback))
  }

  // ----- Retrying -----

  function Power(x: real, n: nat): real {
    if n == 0 then 1.0 else x * Power(x, n - 1)
  }

  function Backoff(rule: Rule, n: nat): real
    requires n > 0
  {
    var delay := rule.initialBackoff * Power(rule.multiplier, n - 1);
    if delay < rule.maxBackoff then delay else rule.maxBackoff
  }

  lemma {:induction false} PowerIsLarge(x: real, n: nat)
    requires x >= 1.0
    ensures Power(x, n) >= 1.0
  {
    if n > 0 {
      PowerIsLarge(x, n - 1);
    }
  }

  /** Delays never shrink from one retry to the next and stay between the two bounds of the rule. */
  lemma BackoffLaws(rule: Rule, n: nat)
    requires rule.Valid() && n > 0
    ensures rule.initialBackoff <= Backoff(rule, n) <= Backoff(rule, n + 1) <= rule.maxBackoff
  {
    var p := Power(rule.multiplier, n - 1);
    PowerIsLarge(rule.multiplier, n - 1);
    Scales(p, 1.0, rule.multiplier);
    assert Power(rule.multiplier, n) == rule.multiplier * p;
    CappedGrowth(rule.initialBackoff, p, Power(rule.multiplier, n), rule.maxBackoff);
  }

  lemma CappedGrowth(initial: real, p: real, q: real, cap: real)
    requires 0.0 <= initial <= cap && 1.0 <= p <= q
    ensures initial <= (if initial * p < cap then initial * p else cap) <= (if initial * q < cap then initial * q else cap) <= cap
  {
    Scales(initial, 1.0, p);
    Scales(initial, p, q);
    assert initial * 1.0 == initial;
  }

  lemma Scales(a: real, x: real, y: real)
    requires a >= 0.0 && x <= y
    ensures a * x <= a * y
  {
    assert a * (y - x) >= 0.0;
  }

  predicate AskedToRetry(human: Human) {
    human.selected == Some(AskRetry) || human.selected == Some(AskPath)
  }

  /** Sets the status of one task and counts further attempts. */
  function UpdateTasks(tasks: seq<Task>, task: Option<TaskId>, status: TaskStatus, attempts: nat): seq<Task> {
    seq(|tasks|, i requires 0 <= i < |tasks| =>
      if Some(tasks[i].id) == task then tasks[i].(status := status, attempts := tasks[i].attempts + attempts) else tasks[i])
  }

  function Retry(w: World, s: State, e: ErrorRecord): Result<State> {
    var count := e.retryCount + 1;
    var human := AskedToRetry(s.recovery.human);
    if count > e.maxRetries && !human then Err(ValueError)
    else
      var limit := if count > e.maxRetries then count else e.maxRetries;
      var delay := if human then 0.0 else Backoff(w.policy.RuleFor(e.category), count);
      var retried := e.(retryable := true, retryCount := count, maxRetries := limit, status := Retrying, fatal := false);
      Ok(WithError(s, retried).(
           run := Running,
           tasks := UpdateTasks(s.tasks, e.taskId, TaskRunning, 1),
           recovery := s.recovery.(action := DoRetry, delay := delay,
                                   human := s.recovery.human.(pendingError := None, allowed := []))))
  }

  // ----- Falling back -----

  /** An open error of the same task that waits for the same fallback. */
  predicate InCohort(e: ErrorRecord, current: ErrorRecord, fallback: Fallback) {
    e.id != current.id && e.taskId == current.taskId && e.fallback == Some(fallback) && !Resolved(e)
  }

  function Closed(e: ErrorRecord): ErrorRecord {
    e.(status := FallbackApplied, fatal := false)
  }

  /** What the fallback leaves of one record. */
  function AfterFallback(e: ErrorRecord, current: ErrorRecord, fallback: Fallback): ErrorRecord {
    if e.id == current.id then Closed(current).(fallback := Some(fallback))
    else if InCohort(e, current, fallback) then Closed(e)
    else e
  }

  function AllAfterFallback(errors: seq<ErrorRecord>, current: ErrorRecord, fallback: Fallback): seq<ErrorRecord> {
    seq(|errors|, i requires 0 <= i < |errors| => AfterFallback(errors[i], current, fallback))
  }

  predicate Leaves(e: ErrorRecord, current: ErrorRecord, fallback: Fallback) {
    e.id == current.id || InCohort(e, current, fallback)
  }

  function ActionOf(fallback: Fallback): Action {
    match fallback case SkipFile => DoSkip case PartialResult => DoPartial case _ => DoFallback
  }

  function ChosenFallback(s: State, e: ErrorRecord): Option<Fallback> {
    if s.recovery.human.selected == Some(AskSkip) then Some(SkipFile)
    else if s.recovery.fallback.Some? then s.recovery.fallback
    else e.fallback
  }

  function Without(pending: seq<ErrorId>, gone: set<ErrorId>): seq<ErrorId> {
    if pending == [] then []
    else
      var last := pending[|pending| - 1];
      Without(pending[..|pending| - 1], gone) + if last in gone then [] else [last]
  }

  function CohortIds(errors: seq<ErrorRecord>, current: ErrorRecord, fallback: Fallback): set<ErrorId> {
    {current.id} + set e | e in errors && InCohort(e, current, fallback) :: e.id
  }

  /** The cohort in the order of the records, the current error first. */
  method CollectCohort(errors: seq<ErrorRecord>, current: ErrorRecord, fallback: Fallback) returns (cohort: seq<ErrorRecord>)
    requires DistinctKeys(Key(), errors) && current in errors
    ensures DistinctKeys(Key(), cohort)
    ensures forall c :: c in cohort <==> exists e <- errors :: Leaves(e, current, fallback) && c == AfterFallback(e, current, fallback)
    ensures (set c | c in cohort :: c.id) == CohortIds(errors, current, fallback)
  {
    cohort := [Closed(current).(fallback := Some(fallback))];
    for n := 0 to |errors|
      invariant DistinctKeys(Key(), cohort)
      invariant forall c :: c in cohort <==> c == AfterFallback(current, current, fallback)
                                             || exists i | 0 <= i < n :: InCohort(errors[i], current, fallback) && c == Closed(errors[i])
    {
      var e := errors[n];
      if e.id == current.id || e.taskId != current.taskId || e.fallback != Some(fallback) || Resolved(e) {
        continue;
      }
      NewInCohort(errors, current, fallback, n, cohort);
      cohort := cohort + [Closed(e)];
    }
    forall c ensures c in cohort <==> exists e <- errors :: Leaves(e, current, fallback) && c == AfterFallback(e, current, fallback) {
      if c in cohort && c != AfterFallback(current, current, fallback) {
        var i :| 0 <= i < |errors| && InCohort(errors[i], current, fallback) && c == Closed(errors[i]);
        assert errors[i] in errors;
      }
      if exists e <- errors :: Leaves(e, current, fallback) && c == AfterFallback(e, current, fallback) {
        var e :| e in errors && Leaves(e, current, fallback) && c == AfterFallback(e, current, fallback);
        var i :| 0 <= i < |errors| && errors[i] == e;
      }
    }
  }

  lemma NewInCohort(errors: seq<ErrorRecord>, current: ErrorRecord, fallback: Fallback, n: nat, cohort: seq<ErrorRecord>)
    requires DistinctKeys(Key(), errors) && n < |errors| && InCohort(errors[n], current, fallback)
    requires forall c :: c in cohort <==> c == AfterFallback(current, current, fallback)
                                          || exists i | 0 <= i < n :: InCohort(errors[i], current, fallback) && c == Closed(errors[i])
    ensures forall c | c in cohort :: c.id != errors[n].id
  {
    forall c | c in cohort ensures c.id != errors[n].id {
      if c != AfterFallback(current, current, fallback) {
        var i :| 0 <= i < n && InCohort(errors[i], current, fallback) && c == Closed(errors[i]);
        assert Key()(errors[i]) != Key()(errors[n]);
      }
    }
  }

  function ApplyFallback(s: State, e: ErrorRecord): Result<State> {
    if ChosenFallback(s, e).None? then Err(ValueError)
    else
      var fallback := ChosenFallback(s, e).value;
      Ok(s.(run := Running,
            errors := AllAfterFallback(s.errors, e, fallback),
            tasks := UpdateTasks(s.tasks, e.taskId, TaskPartial, 0),
            recovery := s.recovery.(fallback := Some(fallback), action := ActionOf(fallback),
                                    pending := Without(s.recovery.pending, CohortIds(s.errors, e, fallback)),
                                    degradations := NotedAll(s.recovery.degradations, s.errors, e, fallback))))
  }

  function Noted(degradations: seq<(ErrorId, Fallback)>, id: ErrorId, fallback: Fallback): seq<(ErrorId, Fallback)> {
    if (id, fallback) in degradations then degradations else degradations + [(id, fallback)]
  }

  /** One degradation for the current error and then one for every other record of the cohort. */
  function NotedAll(degradations: seq<(ErrorId, Fallback)>, errors: seq<ErrorRecord>, current: ErrorRecord,
                    fallback: Fallback): seq<(ErrorId, Fallback)> {
    if errors == [] then Noted(degradations, current.id, fallback)
    else
      var last, before := errors[|errors| - 1], NotedAll(degradations, errors[..|errors| - 1], current, fallback);
      if InCohort(last, current, fallback) then Noted(before, last.id, fallback) else before
  }

  /** Merging the cohort by identifier leaves every record as the specification says. */
  lemma CohortMerge(errors: seq<ErrorRecord>, current: ErrorRecord, fallback: Fallback, cohort: seq<ErrorRecord>)
    requires DistinctKeys(Key(), errors) && DistinctKeys(Key(), cohort)
    requires forall c :: c in cohort <==> exists e <- errors :: Leaves(e, current, fallback) && c == AfterFallback(e, current, fallback)
    ensures MergeInto(Key(), errors, cohort) == AllAfterFallback(errors, current, fallback)
  {
    forall k | 0 <= k < |cohort| ensures HasKey(Key(), errors, Key()(cohort[k])) {
      var i := OriginOf(errors, current, fallback, cohort, k);
    }
    MergeKnown(Key(), errors, cohort, |cohort|);
    assert cohort[..|cohort|] == cohort;
    var merged := MergeInto(Key(), errors, cohort);
    forall i | 0 <= i < |errors| ensures merged[i] == AfterFallback(errors[i], current, fallback) {
      if Leaves(errors[i], current, fallback) {
        assert errors[i] in errors && AfterFallback(errors[i], current, fallback) in cohort;
        var k :| 0 <= k < |cohort| && cohort[k] == AfterFallback(errors[i], current, fallback);
        assert Key()(cohort[k]) == Key()(errors[i]);
      } else {
        OutsideCohort(errors, current, fallback, cohort, i);
      }
    }
  }

  lemma OutsideCohort(errors: seq<ErrorRecord>, current: ErrorRecord, fallback: Fallback, cohort: seq<ErrorRecord>, i: nat)
    requires DistinctKeys(Key(), errors) && i < |errors| && !Leaves(errors[i], current, fallback)
    requires forall c | c in cohort :: exists e <- errors :: Leaves(e, current, fallback) && c == AfterFallback(e, current, fallback)
    ensures forall k | 0 <= k < |cohort| :: Key()(cohort[k]) != Key()(errors[i])
  {
    forall k | 0 <= k < |cohort| ensures Key()(cohort[k]) != Key()(errors[i]) {
      var o := OriginOf(errors, current, fallback, cohort, k);
      assert o != i && Key()(errors[o]) != Key()(errors[i]);
    }
  }

  lemma OriginOf(errors: seq<ErrorRecord>, current: ErrorRecord, fallback: Fallback, cohort: seq<ErrorRecord>,
                 k: nat) returns (i: nat)
    requires k < |cohort|
    requires forall c | c in cohort :: exists e <- errors :: Leaves(e, current, fallback) && c == AfterFallback(e, current, fallback)
    ensures i < |errors| && Leaves(errors[i], current, fallback) && Key()(errors[i]) == Key()(cohort[k])
  {
    assert cohort[k] in cohort;
    var e :| e in errors && Leaves(e, current, fallback) && cohort[k] == AfterFallback(e, current, fallback);
    i :| 0 <= i < |errors| && errors[i] == e;
  }

  /** The fallback node: collect the cohort, note its degradations, close it and take it off the queue. */
  method ApplyRecoveryFallback(s: State, e: ErrorRecord) returns (r: Result<State>)
    requires Sound(s) && e in s.errors
    ensures r == ApplyFallback(s, e)
  {
    var chosen := ChosenFallback(s, e);
    if chosen.None? {
      return Err(ValueError);
    }
    var fallback := chosen.value;
    var cohort := CollectCohort(s.errors, e, fallback);
    var errors := MergeById(Key(), s.errors, cohort);
    CohortMerge(s.errors, e, fallback, cohort);
    var degradations := NoteDegradations(s.recovery.degradations, s.errors, e, fallback);
    var pending := RemoveFromQueue(s.recovery.pending, set c | c in cohort :: c.id);
    return Ok(s.(run := Running, errors := errors,
                 tasks := UpdateTasks(s.tasks, e.taskId, TaskPartial, 0),
                 recovery := s.recovery.(fallback := Some(fallback), action := ActionOf(fallback),
                                         pending := pending, degradations := degradations)));
  }

  method RemoveFromQueue(start: seq<ErrorId>, gone: set<ErrorId>) returns (pending: seq<ErrorId>)
    ensures pending == Without(start, gone)
  {
    pending := [];
    for n := 0 to |start|
      invariant pending == Without(start[..n], gone)
    {
      assert start[..n + 1][..n] == start[..n];
      if start[n] !in gone {
        pending := pending + [start[n]];
      }
    }
    assert start[..|start|] == start;
  }

  method NoteDegradations(start: seq<(ErrorId, Fallback)>, errors: seq<ErrorRecord>, current: ErrorRecord, fallback: Fallback)
    returns (degradations: seq<(ErrorId, Fallback)>)
    ensures degradations == NotedAll(start, errors, current, fallback)
  {
    degradations := Noted(start, current.id, fallback);
    for n := 0 to |errors|
      invariant degradations == NotedAll(start, errors[..n], current, fallback)
    {
      assert errors[..n + 1][..n] == errors[..n];
      if InCohort(errors[n], current, fallback) {
        degradations := Noted(degradations, errors[n].id, fallback);
      }
    }
    assert errors[..|errors|] == errors;
  }

  // ----- Asking a human, aborting, finishing -----

  function AllowedActions(e: ErrorRecord): seq<HumanAction> {
    (if e.retryable then [AskRetry] else [])
    + (if e.category in {Filesystem, Validation} then [AskPath] else [])
    + (if e.relatedFile.Some? then [AskSkip] else [])
    + [AskAbort]
  }

  function Prepare(s: State, e: ErrorRecord): State {
    WithError(s, e.(status := WaitingHuman, fatal := false)).(
      run := WaitingForHuman,
      recovery := s.recovery.(action := DoWait, human := Human(Some(e.id), AllowedActions(e), None)))
  }

  predicate Admitted(a: Answer, allowed: seq<HumanAction>) {
    a.action in allowed && a.noteFits && (a.hasPath <==> a.action == AskPath) && (a.action == AskPath ==> a.pathUsable)
  }

  function Answered(s: State, a: Answer): State {
    s.(run := Recovering,
       recovery := s.recovery.(human := s.recovery.human.(selected := Some(a.action)),
                               fallback := if a.action == AskSkip then Some(SkipFile) else s.recovery.fallback))
  }

  function Abort(s: State, e: ErrorRecord): State {
    WithError(s, e.(status := Failed, fatal := true)).(
      run := Recovering,
      tasks := UpdateTasks(s.tasks, e.taskId, TaskFailed, 0),
      recovery := s.recovery.(action := DoAbort, pending := Without(s.recovery.pending, {e.id})))
  }

  function Finalize(s: State): Result<State> {
    if s.recovery.action == DoWait then Err(ValueError)
    else Ok(s.(run := if s.recovery.action == DoAbort then s.run else Running,
               recovery := s.recovery.(human := s.recovery.human.(pendingError := None, allowed := []))))
  }

  // ----- One run of the subgraph -----

  function Current(s: State): Result<ErrorRecord> {
    if s.recovery.current.Some? && HasId(s.errors, s.recovery.current.value)
    then Ok(Get(s.errors, s.recovery.current.value)) else Err(LookupError)
  }

  /** The branch after the decision node. */
  function Branch(w: World, s: State, a: Answer): Result<State> {
    var e :- Current(s);
    match s.recovery.action
    case DoRetry => (var t :- Retry(w, s, e); Finalize(t))
    case DoFallback => (var t :- ApplyFallback(s, e); Finalize(t))
    case DoWait => AfterAnswer(w, Prepare(s, e), a)
    case _ => Finalize(Abort(s, e))
  }

  function AfterAnswer(w: World, s: State, a: Answer): Result<State> {
    var e :- Current(s);
    if !Admitted(a, s.recovery.human.allowed) then Err(ValueError)
    else
      var t := Answered(s, a);
      match a.action
      case AskRetry | AskPath => (var u :- Retry(w, t, e); Finalize(u))
      case AskSkip => (var u :- ApplyFallback(t, e); Finalize(u))
      case AskAbort => Finalize(Abort(t, e))
  }

  /** A whole run from selection to the final node. */
  function Run(w: World, s: State, a: Answer): Result<State> {
    var picked := Pick(s);
    if picked.None? then Err(LookupError)
    else
      var selected := Select(w, s, picked.value);
      var e :- Current(selected);
      var inspected := Inspect(w, selected, e);
      if inspected.recovery.action == DoReuse then Finalize(inspected)
      else
        var e' :- Current(inspected);
        if inspected.recovery.action == DoAbort then Finalize(Abort(inspected, e'))
        else Branch(w, Decide(w, inspected, e'), a)
  }
}
