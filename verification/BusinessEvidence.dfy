/**
 * Business evidence: what the model's findings may contain, the fixed rule
 * each kind of finding triggers, and the scoring and review rules.
 * Scores are whole ten-thousandths, the precision the service rounds to.
 */
module BusinessEvidence {
  import opened Options
  import opened Arithmetic

  type FileId = nat
  type GroupId = nat
  type Ref = string

  const FULL := 10000

  datatype Kind =
    | Approved | Rejected | Superseded | ForReferenceOnly
    | RequiresRevision | FinalVersion | SentButUnconfirmed | Ambiguous

  datatype Status = IsApproved | IsRejected | IsSuperseded | ReferenceOnly | RevisionRequired | Final | Unconfirmed | Unclear

  datatype Action = ScoreBoost | ExcludeAndReview | ExcludeCandidate | ForceHumanReview | NoAction

  function StatusOf(kind: Kind): Status {
    match kind
    case Approved => IsApproved
    case Rejected => IsRejected
    case Superseded => IsSuperseded
    case ForReferenceOnly => ReferenceOnly
    case RequiresRevision => RevisionRequired
    case FinalVersion => Final
    case SentButUnconfirmed => Unconfirmed
    case Ambiguous => Unclear
  }

  function ActionOf(kind: Kind): Action {
    match kind
    case Approved | FinalVersion => ScoreBoost
    case Rejected => ExcludeAndReview
    case Superseded | ForReferenceOnly => ExcludeCandidate
    case RequiresRevision => ForceHumanReview
    case SentButUnconfirmed | Ambiguous => NoAction
  }

  function AdjustmentOf(kind: Kind): nat {
    match kind
    case Approved => 1800
    case FinalVersion => 1400
    case _ => 0
  }

  predicate Excludes(kind: Kind) { kind in {Rejected, Superseded, ForReferenceOnly} }

  predicate ForcesReviewAlone(kind: Kind) { kind in {Rejected, RequiresRevision} }

  predicate Positive(kind: Kind) { kind in {Approved, FinalVersion} }

  predicate Negative(kind: Kind) { kind in {Rejected, Superseded, ForReferenceOnly, RequiresRevision} }

  /** A finding as the model returns it. */
  datatype Analysis = Analysis(kind: Kind, status: Status, target: FileId, effectiveTime: Option<nat>,
                               refs: seq<Ref>, confidence: real)

  datatype Snippet = Snippet(target: FileId, effectiveTime: Option<nat>)

  /** The hashed identity of a record; the hash is injective. */
  datatype RecordId = RecordId(groupId: GroupId, target: FileId, kind: Kind, refs: multiset<Ref>)

  datatype Record = Record(id: RecordId, groupId: GroupId, kind: Kind, target: FileId, refs: seq<Ref>,
                           confidence: real, action: Action, adjustment: nat)

  datatype Delivery = Delivery(groupId: Option<GroupId>, fileId: Option<FileId>, confirmed: bool, evidenceRef: Ref,
                               confidence: real)

  // ----- Validation of the findings -----

  /** A finding may only repeat what the snippets it cites say. */
  predicate Grounded(a: Analysis, snippets: map<Ref, Snippet>) {
    && a.status == StatusOf(a.kind)
    && (forall ref <- a.refs :: ref in snippets && snippets[ref].target == a.target)
    && (a.effectiveTime.Some? ==> exists ref <- a.refs :: ref in snippets && snippets[ref].effectiveTime == a.effectiveTime)
  }

  function KeyOf(a: Analysis): (Kind, FileId, multiset<Ref>) {
    (a.kind, a.target, multiset(a.refs))
  }

  ghost predicate Acceptable(analyses: seq<Analysis>, snippets: map<Ref, Snippet>) {
    && (forall i | 0 <= i < |analyses| :: Grounded(analyses[i], snippets))
    && (forall i, k | 0 <= i < k < |analyses| :: KeyOf(analyses[i]) != KeyOf(analyses[k]))
  }

  method ValidateAnalyses(analyses: seq<Analysis>, snippets: map<Ref, Snippet>) returns (ok: bool)
    ensures ok <==> Acceptable(analyses, snippets)
  {
    var seen: set<(Kind, FileId, multiset<Ref>)> := {};
    for n := 0 to |analyses|
      invariant Acceptable(analyses[..n], snippets)
      invariant forall key :: key in seen <==> exists i | 0 <= i < n :: KeyOf(analyses[i]) == key
    {
      var key := KeyOf(analyses[n]);
      if !Grounded(analyses[n], snippets) || key in seen {
        return false;
      }
      seen := seen + {key};
    }
    assert analyses[..|analyses|] == analyses;
    return true;
  }

  function RecordOf(groupId: GroupId, a: Analysis): Record {
    Record(RecordId(groupId, a.target, a.kind, multiset(a.refs)), groupId, a.kind, a.target, a.refs,
           a.confidence, ActionOf(a.kind), AdjustmentOf(a.kind))
  }

  method BuildRecords(groupId: GroupId, analyses: seq<Analysis>) returns (records: seq<Record>)
    ensures |records| == |analyses| && forall i | 0 <= i < |analyses| :: records[i] == RecordOf(groupId, analyses[i])
  {
    records := [];
    for n := 0 to |analyses|
      invariant |records| == n && forall i | 0 <= i < n :: records[i] == RecordOf(groupId, analyses[i])
    {
      records := records + [RecordOf(groupId, analyses[n])];
    }
  }

  /** Accepted findings become records with distinct identifiers, and their rule is fixed by their kind. */
  lemma AcceptedRecordsAreDistinct(groupId: GroupId, analyses: seq<Analysis>, snippets: map<Ref, Snippet>, i: nat, k: nat)
    requires Acceptable(analyses, snippets) && i < k < |analyses|
    ensures RecordOf(groupId, analyses[i]).id != RecordOf(groupId, analyses[k]).id
  {
    assert KeyOf(analyses[i]) != KeyOf(analyses[k]);
  }

  // ----- Bounded sums of boosts -----

  /** A weight scaled by a confidence, rounded to the nearest ten-thousandth. */
  function Scaled(weight: nat, confidence: real): (r: int)
    requires 0.0 <= confidence <= 1.0
    ensures 0 <= r <= weight
  {
    assert 0.0 <= weight as real * confidence <= weight as real;
    (weight as real * confidence + 0.5).Floor
  }

  function Total<T>(items: seq<T>, amount: T -> int): int {
    if items == [] then 0 else Total(items[..|items| - 1], amount) + amount(items[|items| - 1])
  }

  lemma NextTotal<T>(items: seq<T>, item: T, amount: T -> int)
    ensures Total(items + [item], amount) == Total(items, amount) + amount(item)
  {
    assert (items + [item])[..|items|] == items;
  }

  lemma {:induction false} TotalNonNegative<T>(items: seq<T>, amount: T -> int)
    requires forall i | 0 <= i < |items| :: amount(items[i]) >= 0
    ensures Total(items, amount) >= 0
  {
    if items != [] {
      TotalNonNegative(items[..|items| - 1], amount);
    }
  }

  lemma {:induction false} TotalWithout<T>(items: seq<T>, amount: T -> int, i: nat)
    requires i < |items|
    ensures Total(items, amount) == Total(items[..i] + items[i + 1..], amount) + amount(items[i])
  {
    var last := |items| - 1;
    if i < last {
      var front := items[..last];
      TotalWithout(front, amount, i);
      var rest := items[..i] + items[i + 1..];
      assert rest[..|rest| - 1] == front[..i] + front[i + 1..];
    } else {
      assert items[..i] + items[i + 1..] == items[..last];
    }
  }

  /** A sum does not depend on the order of its items. */
  lemma {:induction false} TotalOfPermutation<T>(items: seq<T>, others: seq<T>, amount: T -> int)
    requires multiset(items) == multiset(others)
    ensures Total(items, amount) == Total(others, amount)
    decreases |items|
  {
    if items == [] {
      assert |others| == |multiset(others)| == 0;
    } else {
      var last := |items| - 1;
      assert items[last] in multiset(others);
      var i :| 0 <= i < |others| && others[i] == items[last];
      MultisetWithout(others, i);
      MultisetWithout(items, last);
      assert items[..last] + items[last + 1..] == items[..last];
      TotalOfPermutation(items[..last], others[..i] + others[i + 1..], amount);
      TotalWithout(others, amount, i);
    }
  }

  lemma MultisetWithout<T>(items: seq<T>, i: nat)
    requires i < |items|
    ensures multiset(items[..i] + items[i + 1..]) == multiset(items) - multiset{items[i]}
  {
    assert items == items[..i] + [items[i]] + items[i + 1..];
  }

  // ----- Scoring -----

  ghost predicate ProperScores(scores: map<FileId, int>) {
    forall f | f in scores :: 0 <= scores[f] <= FULL
  }

  /** Records as BuildRecords makes them, with a confidence in [0, 1]. */
  ghost predicate ProperRecords(records: seq<Record>) {
    forall r | r in records ::
      r.action == ActionOf(r.kind) && r.adjustment == AdjustmentOf(r.kind) && 0.0 <= r.confidence <= 1.0
  }

  function Excluded(records: seq<Record>, groupId: GroupId): set<FileId> {
    set r | r in records && r.groupId == groupId && Excludes(r.kind) :: r.target
  }

  /** Pairs of file and citation whose delivery the customer confirmed. */
  function ConfirmedRefs(deliveries: seq<Delivery>): set<(FileId, Ref)> {
    set d | d in deliveries && d.fileId.Some? && d.confirmed :: (d.fileId.value, d.evidenceRef)
  }

  predicate AlreadyConfirmed(r: Record, confirmed: set<(FileId, Ref)>) {
    r.kind == Approved && exists ref <- r.refs :: (r.target, ref) in confirmed
  }

  /** What one record contributes to one file. */
  function EvidenceAmount(groupId: GroupId, f: FileId, confirmed: set<(FileId, Ref)>): Record -> int {
    (r: Record) =>
      if r.groupId == groupId && r.target == f && r.action == ScoreBoost && !AlreadyConfirmed(r, confirmed)
         && 0.0 <= r.confidence <= 1.0
      then Scaled(r.adjustment, r.confidence) else 0
  }

  /** The closed form: an excluded file has no score, any other its start plus all its boosts, capped. */
  function EvidenceScores(scores: map<FileId, int>, groupId: GroupId, records: seq<Record>,
                          deliveries: seq<Delivery>): map<FileId, int> {
    map f | f in scores ::
      if f in Excluded(records, groupId) then 0
      else Min(FULL, scores[f] + Total(records, EvidenceAmount(groupId, f, ConfirmedRefs(deliveries))))
  }

  method CollectConfirmed(deliveries: seq<Delivery>) returns (confirmed: map<FileId, set<Ref>>)
    ensures forall f, ref :: f in confirmed && ref in confirmed[f] <==> (f, ref) in ConfirmedRefs(deliveries)
  {
    confirmed := map[];
    for n := 0 to |deliveries|
      invariant forall f, ref :: f in confirmed && ref in confirmed[f] <==> (f, ref) in ConfirmedRefs(deliveries[..n])
    {
      var d := deliveries[n];
      assert deliveries[..n + 1] == deliveries[..n] + [d];
      if d.fileId.Some? && d.confirmed {
        var f := d.fileId.value;
        assert ConfirmedRefs(deliveries[..n + 1]) == ConfirmedRefs(deliveries[..n]) + {(f, d.evidenceRef)};
        confirmed := confirmed[f := (if f in confirmed then confirmed[f] else {}) + {d.evidenceRef}];
      } else {
        assert ConfirmedRefs(deliveries[..n + 1]) == ConfirmedRefs(deliveries[..n]);
      }
    }
    assert deliveries[..|deliveries|] == deliveries;
  }

  method ApplyEvidenceScoring(start: map<FileId, int>, groupId: GroupId, records: seq<Record>, deliveries: seq<Delivery>)
    returns (scores: map<FileId, int>)
    requires ProperScores(start) && ProperRecords(records)
    ensures scores == EvidenceScores(start, groupId, records, deliveries)
  {
    var boosted := AddBoosts(start, groupId, records, deliveries);
    scores := ZeroExcluded(boosted, Excluded(records, groupId) * boosted.Keys);
  }

  /** Every score is its start plus the boosts of the given records, capped. */
  ghost predicate Boosted(scores: map<FileId, int>, start: map<FileId, int>, groupId: GroupId, records: seq<Record>,
                          refs: set<(FileId, Ref)>) {
    && scores.Keys == start.Keys
    && forall f | f in start :: scores[f] == Min(FULL, start[f] + Total(records, EvidenceAmount(groupId, f, refs)))
  }

  lemma BoostedNext(scores: map<FileId, int>, next: map<FileId, int>, start: map<FileId, int>, groupId: GroupId,
                    records: seq<Record>, item: Record, refs: set<(FileId, Ref)>)
    requires Boosted(scores, start, groupId, records, refs) && next.Keys == start.Keys
    requires forall f | f in start :: next[f] == Min(FULL, scores[f] + EvidenceAmount(groupId, f, refs)(item))
    ensures Boosted(next, start, groupId, records + [item], refs)
  {
    forall f | f in start
      ensures next[f] == Min(FULL, start[f] + Total(records + [item], EvidenceAmount(groupId, f, refs)))
    {
      var amount := EvidenceAmount(groupId, f, refs);
      NextTotal(records, item, amount);
      assert amount(item) >= 0;
    }
  }

  method AddBoosts(start: map<FileId, int>, groupId: GroupId, records: seq<Record>, deliveries: seq<Delivery>)
    returns (scores: map<FileId, int>)
    requires ProperScores(start) && ProperRecords(records)
    ensures Boosted(scores, start, groupId, records, ConfirmedRefs(deliveries))
  {
    var confirmed := CollectConfirmed(deliveries);
    ghost var refs := ConfirmedRefs(deliveries);
    scores := start;
    for n := 0 to |records|
      invariant Boosted(scores, start, groupId, records[..n], refs)
    {
      ghost var before := scores;
      assert records[n] in records && records[..n + 1] == records[..n] + [records[n]];
      scores := BoostTarget(scores, groupId, records[n], confirmed, refs);
      BoostedNext(before, scores, start, groupId, records[..n], records[n], refs);
    }
    assert records[..|records|] == records;
  }

  /** The body of the scoring loop. */
  method BoostTarget(start: map<FileId, int>, groupId: GroupId, item: Record, confirmed: map<FileId, set<Ref>>,
                     ghost refs: set<(FileId, Ref)>)
    returns (scores: map<FileId, int>)
    requires 0.0 <= item.confidence <= 1.0 && forall f | f in start :: start[f] <= FULL
    requires forall f, ref :: f in confirmed && ref in confirmed[f] <==> (f, ref) in refs
    ensures scores.Keys == start.Keys
    ensures forall f | f in start :: scores[f] == Min(FULL, start[f] + EvidenceAmount(groupId, f, refs)(item))
  {
    scores := start;
    if item.groupId != groupId || item.target !in scores || item.action != ScoreBoost {
      return;
    }
    var known := if item.target in confirmed then confirmed[item.target] else {};
    var alreadyConfirmed := item.kind == Approved && exists ref <- item.refs :: ref in known;
    assert alreadyConfirmed == AlreadyConfirmed(item, refs);
    if alreadyConfirmed {
      return;
    }
    scores := scores[item.target := Min(FULL, scores[item.target] + Scaled(item.adjustment, item.confidence))];
  }

  method ZeroExcluded(start: map<FileId, int>, excluded: set<FileId>) returns (scores: map<FileId, int>)
    requires excluded <= start.Keys
    ensures scores == map f | f in start :: if f in excluded then 0 else start[f]
  {
    scores := start;
    var todo := excluded;
    while todo != {}
      invariant todo <= excluded && scores.Keys == start.Keys
      invariant forall f | f in start :: scores[f] == if f in excluded && f !in todo then 0 else start[f]
    {
      var f :| f in todo;
      scores := scores[f := 0];
      todo := todo - {f};
    }
  }

  lemma EvidenceScoresProper(start: map<FileId, int>, groupId: GroupId, records: seq<Record>, deliveries: seq<Delivery>)
    requires ProperScores(start) && ProperRecords(records)
    ensures ProperScores(EvidenceScores(start, groupId, records, deliveries))
  {
    forall f | f in start ensures Total(records, EvidenceAmount(groupId, f, ConfirmedRefs(deliveries))) >= 0 {
      TotalNonNegative(records, EvidenceAmount(groupId, f, ConfirmedRefs(deliveries)));
    }
  }

  /** The scores do not depend on the order of the records. */
  lemma EvidenceScoresIgnoreOrder(start: map<FileId, int>, groupId: GroupId, records: seq<Record>,
                                  shuffled: seq<Record>, deliveries: seq<Delivery>)
    requires multiset(records) == multiset(shuffled)
    ensures EvidenceScores(start, groupId, shuffled, deliveries) == EvidenceScores(start, groupId, records, deliveries)
  {
    SameElementsExclude(records, shuffled, groupId);
    forall f | f in start
      ensures Total(records, EvidenceAmount(groupId, f, ConfirmedRefs(deliveries)))
              == Total(shuffled, EvidenceAmount(groupId, f, ConfirmedRefs(deliveries)))
    {
      TotalOfPermutation(records, shuffled, EvidenceAmount(groupId, f, ConfirmedRefs(deliveries)));
    }
  }

  lemma SameElementsExclude(records: seq<Record>, shuffled: seq<Record>, groupId: GroupId)
    requires multiset(records) == multiset(shuffled)
    ensures Excluded(records, groupId) == Excluded(shuffled, groupId)
  {
    forall r ensures r in records <==> r in shuffled {
      assert r in multiset(records) <==> r in multiset(shuffled);
    }
  }

  /** A confirmed delivery already paid for an approval that cites it: dropping that approval changes no score. */
  lemma ConfirmedApprovalAddsNothing(start: map<FileId, int>, groupId: GroupId, records: seq<Record>,
                                     deliveries: seq<Delivery>, i: nat)
    requires i < |records| && AlreadyConfirmed(records[i], ConfirmedRefs(deliveries))
    ensures EvidenceScores(start, groupId, records[..i] + records[i + 1..], deliveries)
            == EvidenceScores(start, groupId, records, deliveries)
  {
    var rest := records[..i] + records[i + 1..];
    forall f | f in Excluded(records, groupId) ensures f in Excluded(rest, groupId) {
      var k :| 0 <= k < |records| && records[k].groupId == groupId && Excludes(records[k].kind) && records[k].target == f;
      assert records[k] == if k < i then rest[k] else rest[k - 1];
      assert records[k] in rest;
    }
    assert Excluded(records, groupId) == Excluded(rest, groupId);
    forall f | f in start
      ensures Total(rest, EvidenceAmount(groupId, f, ConfirmedRefs(deliveries)))
              == Total(records, EvidenceAmount(groupId, f, ConfirmedRefs(deliveries)))
    {
      TotalWithout(records, EvidenceAmount(groupId, f, ConfirmedRefs(deliveries)), i);
    }
  }

  // ----- Review -----

  function KindsOf(records: seq<Record>, groupId: GroupId, f: FileId): set<Kind> {
    set r | r in records && r.groupId == groupId && r.target == f :: r.kind
  }

  predicate Contradictory(kinds: set<Kind>) {
    (exists k <- kinds :: Positive(k)) && (exists k <- kinds :: Negative(k))
  }

  /** Evidence that sends a group to a human whatever its scores are. */
  ghost predicate HasReviewEvidence(records: seq<Record>, groupId: GroupId) {
    || (exists r <- records :: r.groupId == groupId && ForcesReviewAlone(r.kind))
    || (exists r <- records :: r.groupId == groupId && Contradictory(KindsOf(records, groupId, r.target)))
  }

  ghost predicate ForcesReview(records: seq<Record>, groupId: GroupId, candidates: set<FileId>) {
    HasReviewEvidence(records, groupId) || (candidates != {} && candidates <= Excluded(records, groupId))
  }

  /** Kinds of evidence by file, as the service accumulates them. */
  method CollectKinds(records: seq<Record>, groupId: GroupId) returns (kindsByFile: map<FileId, set<Kind>>)
    ensures forall f :: f in kindsByFile <==> exists r <- records :: r.groupId == groupId && r.target == f
    ensures forall f | f in kindsByFile :: kindsByFile[f] == KindsOf(records, groupId, f)
  {
    kindsByFile := map[];
    for n := 0 to |records|
      invariant forall f :: f in kindsByFile <==> exists r <- records[..n] :: r.groupId == groupId && r.target == f
      invariant forall f | f in kindsByFile :: kindsByFile[f] == KindsOf(records[..n], groupId, f)
    {
      var r := records[n];
      assert records[..n + 1] == records[..n] + [r];
      if r.groupId == groupId {
        var f := r.target;
        assert f !in kindsByFile ==> KindsOf(records[..n], groupId, f) == {};
        kindsByFile := kindsByFile[f := (if f in kindsByFile then kindsByFile[f] else {}) + {r.kind}];
      }
    }
    assert records[..|records|] == records;
  }

  method GroupHasReview(records: seq<Record>, groupId: GroupId) returns (review: bool)
    ensures review <==> HasReviewEvidence(records, groupId)
  {
    if exists r <- records :: r.groupId == groupId && ForcesReviewAlone(r.kind) {
      return true;
    }
    var kindsByFile := CollectKinds(records, groupId);
    review := exists f <- kindsByFile.Keys :: Contradictory(kindsByFile[f]);
    if review {
      var f :| f in kindsByFile && Contradictory(kindsByFile[f]);
      assert exists r <- records :: r.groupId == groupId && r.target == f;
    } else {
      forall r | r in records && r.groupId == groupId ensures !Contradictory(KindsOf(records, groupId, r.target)) {
        assert r.target in kindsByFile;
      }
    }
  }

  method EvidenceForcesReview(records: seq<Record>, groupId: GroupId, candidates: set<FileId>) returns (forced: bool)
    ensures forced <==> ForcesReview(records, groupId, candidates)
  {
    var review := GroupHasReview(records, groupId);
    var remaining := candidates - Excluded(records, groupId);
    assert forall f :: f in remaining <==> f in candidates && f !in Excluded(records, groupId);
    forced := review || (candidates != {} && remaining == {});
  }

  /** Excluding a file that also has favourable evidence is never done silently. */
  lemma ExclusionAgainstSupportIsReviewed(records: seq<Record>, groupId: GroupId, f: FileId, support: Record)
    requires f in Excluded(records, groupId)
    requires support in records && support.groupId == groupId && support.target == f && Positive(support.kind)
    ensures HasReviewEvidence(records, groupId)
  {
    var r :| r in records && r.groupId == groupId && Excludes(r.kind) && r.target == f;
    assert r.kind in KindsOf(records, groupId, f) && support.kind in KindsOf(records, groupId, f);
  }
}
