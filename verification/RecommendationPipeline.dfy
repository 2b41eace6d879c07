/**
 * The rule nodes of the recommendation graph run in order on one version group.
 * Decisions are merged into the state by identifier, so a node that raises
 * reports an error and leaves the decision of the node before it in place.
 * Scores enter as the base scores adjusted by remembered preferences.
 */
module RecommendationPipeline {
  import opened Options
  import opened Sorting
  import opened Arithmetic
  import opened BusinessEvidence
  import opened Recommendation

  /** The nodes that can raise on a scored decision, in graph order. */
  datatype Stage = DeliveryRules | PdfSourceRules | ConfidenceRules | PreservationRules

  datatype Case = Case(group: Group, files: map<FileId, FileInfo>, chain: Chain, start: map<FileId, int>,
                       deliveries: seq<Delivery>, exports: seq<PdfExport>, evidence: seq<Record>,
                       branches: seq<GroupId>, diffs: seq<Diff>, threshold: real)
  {
    /** What candidate collection and base scoring have established. */
    ghost predicate WellFormed() {
      && chain.groupId == group.id && start.Keys == Candidates(group, files)
      && ProperScores(start) && ProperDeliveries(deliveries) && ProperExports(exports) && ProperRecords(evidence)
    }

    predicate Branched() { group.id in branches }

    predicate HighRisk() { exists d <- diffs :: d.groupId == group.id && d.priority == High }

    predicate RelationReview() { exists d <- diffs :: d.groupId == group.id && d.relationReview }

    /** Some candidate was delivered as a member of another group. */
    predicate ForeignDelivery() { exists d <- deliveries :: Foreign(d, start.Keys, group.id) }

    /** Some export of the group names a source that is no candidate. */
    predicate UnknownSource() { !SourcesKnown(start.Keys, group.id, exports) }

    predicate BadThreshold() { threshold < 0.0 || threshold > 1.0 }

    /** The chain orders a file outside the group. */
    predicate StrayChain() { exists f <- chain.ordered + chain.leaves :: f !in group.fileIds }
  }

  /** The stages that raise. */
  function Faults(c: Case): seq<Stage> {
    (if c.ForeignDelivery() then [DeliveryRules] else [])
    + (if c.UnknownSource() then [PdfSourceRules] else [])
    + (if c.BadThreshold() then [ConfidenceRules] else [])
    + (if c.StrayChain() then [PreservationRules] else [])
  }

  /** One foreign delivery discards the boosts of all deliveries. */
  ghost function DeliveredScores(c: Case): (r: map<FileId, int>)
    requires c.WellFormed()
    ensures r.Keys == c.start.Keys && ProperScores(r)
  {
    DeliveryScoresProper(c.start, c.deliveries);
    if c.ForeignDelivery() then c.start else DeliveryScores(c.start, c.deliveries)
  }

  /** One unknown source discards the effect of all exports. */
  ghost function SourcedScores(c: Case): (r: map<FileId, int>)
    requires c.WellFormed()
    ensures r.Keys == c.start.Keys && ProperScores(r)
  {
    if c.UnknownSource() then DeliveredScores(c) else PdfScores(DeliveredScores(c), c.group.id, c.exports)
  }

  /** The scores after all three kinds of evidence. */
  ghost function FinalScores(c: Case): map<FileId, int>
    requires c.WellFormed()
  {
    EvidenceScores(SourcedScores(c), c.group.id, c.evidence, c.deliveries)
  }

  lemma FinalScoresProper(c: Case)
    requires c.WellFormed()
    ensures FinalScores(c).Keys == c.start.Keys && ProperScores(FinalScores(c))
    ensures forall f | f in FinalScores(c) && f in Excluded(c.evidence, c.group.id) :: FinalScores(c)[f] == 0
  {
    EvidenceScoresProper(SourcedScores(c), c.group.id, c.evidence, c.deliveries);
  }

  /** A selected decision with its confidence and with the review that the scores themselves demand. */
  ghost function Weighed(d: Decision, complete: bool, branched: bool, threshold: real): Decision
    requires d.recommended.Some? ==> d.recommended.value in d.scores
  {
    var confidence := if d.recommended.Some? then ConfidenceOf(d.scores, d.recommended.value, complete, branched) else 0;
    var review :=
      || d.recommended.None? || branched || !complete
      || (|d.scores| > 1 && MarginOf(d.scores, d.recommended.value) < NEAR_TIE)
      || confidence as real / 10000.0 < threshold;
    d.(confidence := confidence, needsReview := review, selectedBy := if review then Unresolved else Rule)
  }

  /** The decision after the selection and confidence nodes. */
  ghost function Weigh(c: Case, scores: map<FileId, int>): Decision
    requires scores.Keys <= c.files.Keys
  {
    var chosen := Chosen(scores, c.files, Excluded(c.evidence, c.group.id));
    var d := Decision(c.group.id, scores, chosen, 0, true, Unresolved, []);
    if c.BadThreshold() then d else Weighed(d, c.chain.complete, c.Branched(), c.threshold)
  }

  /** The decision the rules reach on given final scores. */
  ghost function Decide(c: Case, scores: map<FileId, int>): Decision
    requires scores.Keys <= c.files.Keys
  {
    var d := Weigh(c, scores);
    var review :=
      || d.needsReview || c.HighRisk() || c.RelationReview()
      || ForcesReview(c.evidence, c.group.id, scores.Keys);
    d.(needsReview := review, selectedBy := if review then Unresolved else Rule,
       preserve := if c.StrayChain() then [] else c.group.fileIds)
  }

  ghost function DecisionFor(c: Case): Decision
    requires c.WellFormed()
  {
    FinalScoresProper(c);
    Decide(c, FinalScores(c))
  }

  /** Every scored group gets a decision, whichever stages raise. */
  method Recommend(c: Case) returns (decision: Decision, errors: seq<Stage>)
    requires c.WellFormed()
    ensures decision == DecisionFor(c)
    ensures errors == Faults(c)
  {
    var scored := Decision(c.group.id, c.start, None, 0, true, Unresolved, []);
    var combined, scoringErrors := CombineEvidence(c, scored);
    FinalScoresProper(c);
    var ruleErrors;
    decision, ruleErrors := ApplyRules(c, combined);
    errors := scoringErrors + ruleErrors;
  }

  /** The three scoring nodes. */
  method CombineEvidence(c: Case, start: Decision) returns (d: Decision, errors: seq<Stage>)
    requires c.WellFormed() && start.scores == c.start
    ensures d == start.(scores := FinalScores(c))
    ensures errors == (if c.ForeignDelivery() then [DeliveryRules] else [])
                      + (if c.UnknownSource() then [PdfSourceRules] else [])
  {
    d, errors := start, [];
    var delivered := ApplyDeliveries(d.scores, c.group.id, c.deliveries);
    if delivered.Ok? {
      d := d.(scores := delivered.value);
    } else {
      errors := errors + [DeliveryRules];
    }
    assert d.scores == DeliveredScores(c);
    var sourced := ApplyPdfSources(d.scores, c.group.id, c.exports);
    if sourced.Ok? {
      d := d.(scores := sourced.value);
    } else {
      errors := errors + [PdfSourceRules];
    }
    assert d.scores == SourcedScores(c);
    var scores := ApplyEvidenceScoring(d.scores, c.group.id, c.evidence, c.deliveries);
    d := d.(scores := scores);
  }

  /** The selection, confidence, review and preservation nodes. */
  method ApplyRules(c: Case, start: Decision) returns (d: Decision, errors: seq<Stage>)
    requires start.scores.Keys <= c.files.Keys
    requires start == Decision(c.group.id, start.scores, None, 0, true, Unresolved, [])
    ensures d == Decide(c, start.scores)
    ensures errors == (if c.BadThreshold() then [ConfidenceRules] else [])
                      + (if c.StrayChain() then [PreservationRules] else [])
  {
    d, errors := SelectAndWeigh(c, start);
    if c.HighRisk() || c.RelationReview() {
      d := d.(needsReview := true, selectedBy := Unresolved);
    }
    var forced := EvidenceForcesReview(c.evidence, c.group.id, d.scores.Keys);
    if forced {
      d := d.(needsReview := true, selectedBy := Unresolved);
    }
    if c.StrayChain() {
      errors := errors + [PreservationRules];
    } else {
      d := d.(preserve := c.group.fileIds);
    }
  }

  method SelectAndWeigh(c: Case, start: Decision) returns (d: Decision, errors: seq<Stage>)
    requires start.scores.Keys <= c.files.Keys
    requires start == Decision(c.group.id, start.scores, None, 0, true, Unresolved, [])
    ensures d == Weigh(c, start.scores)
    ensures errors == if c.BadThreshold() then [ConfidenceRules] else []
  {
    var selected := Select(c, start);
    d, errors := selected, [];
    if c.BadThreshold() {
      errors := errors + [ConfidenceRules];
    } else {
      d := WeighDecision(d, c.chain.complete, c.Branched(), c.threshold);
    }
  }

  method Select(c: Case, start: Decision) returns (d: Decision)
    requires start.scores.Keys <= c.files.Keys
    ensures d == start.(recommended := Chosen(start.scores, c.files, Excluded(c.evidence, c.group.id)))
  {
    var selection := SelectRecommended(start.scores, c.files, Excluded(c.evidence, c.group.id));
    d := start.(recommended := selection.value);
  }

  method WeighDecision(start: Decision, complete: bool, branched: bool, threshold: real) returns (d: Decision)
    requires start.recommended.Some? ==> start.recommended.value in start.scores
    ensures d == Weighed(start, complete, branched, threshold)
  {
    var confidence, review := CalculateConfidence(start.scores, start.recommended, complete, branched, threshold);
    d := start.(confidence := confidence, needsReview := review, selectedBy := if review then Unresolved else Rule);
  }

  // ----- What a decision guarantees -----

  /** The checks that the graph's validation node makes of one decision, other than of its preservation list. */
  ghost predicate Consistent(c: Case, d: Decision) {
    var eligible := d.scores.Keys - Excluded(c.evidence, c.group.id);
    && d.groupId == c.group.id && d.scores.Keys == Candidates(c.group, c.files) && ProperScores(d.scores)
    && (d.recommended.Some? ==> d.recommended.value in eligible)
    && (d.recommended.None? ==> eligible == {})
    && 0 <= d.confidence <= FULL
    && d.selectedBy == if d.needsReview then Unresolved else Rule
  }

  ghost predicate PassesValidation(c: Case, d: Decision) {
    Consistent(c, d) && Elements(d.preserve) == Elements(c.group.fileIds)
  }

  /**
   * Whatever raised, the decision is consistent; in particular no excluded file
   * is recommended and none is missing when one is eligible.  The validation node
   * reports it exactly when the chain strays from a group that has files.
   */
  lemma DecisionPassesValidationExactly(c: Case)
    requires c.WellFormed()
    ensures Consistent(c, DecisionFor(c))
    ensures PassesValidation(c, DecisionFor(c)) <==> !c.StrayChain() || c.group.fileIds == []
  {
    FinalScoresProper(c);
    DecideIsConsistent(c, FinalScores(c));
    if c.group.fileIds != [] {
      assert c.group.fileIds[0] in Elements(c.group.fileIds);
    }
  }

  lemma DecideIsConsistent(c: Case, scores: map<FileId, int>)
    requires scores.Keys == Candidates(c.group, c.files) <= c.files.Keys && ProperScores(scores)
    ensures Consistent(c, Decide(c, scores))
  {
    var d, excluded := Decide(c, scores), Excluded(c.evidence, c.group.id);
    assert forall f :: f in scores.Keys - excluded <==> f in scores && f !in excluded;
    if d.recommended.Some? {
      ConfidenceInRange(scores, d.recommended.value, c.chain.complete, c.Branched());
    }
  }

  lemma ConfidenceInRange(scores: map<FileId, int>, winner: FileId, complete: bool, branched: bool)
    requires winner in scores
    ensures 0 <= ConfidenceOf(scores, winner, complete, branched) <= FULL
  {
  }

  /** The order in which evidence was recorded makes no difference. */
  lemma DecisionIgnoresEvidenceOrder(c: Case, shuffled: seq<Record>)
    requires c.WellFormed() && multiset(shuffled) == multiset(c.evidence)
    ensures c.(evidence := shuffled).WellFormed() && Faults(c.(evidence := shuffled)) == Faults(c)
    ensures DecisionFor(c.(evidence := shuffled)) == DecisionFor(c)
  {
    forall r ensures r in shuffled <==> r in c.evidence {
      assert r in multiset(shuffled) <==> r in multiset(c.evidence);
    }
    FinalScoresProper(c);
    FinalScoresIgnoreOrder(c, shuffled);
    DecideIgnoresOrder(c, shuffled, FinalScores(c));
  }

  lemma FinalScoresIgnoreOrder(c: Case, shuffled: seq<Record>)
    requires c.WellFormed() && c.(evidence := shuffled).WellFormed() && multiset(shuffled) == multiset(c.evidence)
    ensures FinalScores(c.(evidence := shuffled)) == FinalScores(c)
  {
    EvidenceScoresIgnoreOrder(SourcedScores(c), c.group.id, c.evidence, shuffled, c.deliveries);
  }

  lemma DecideIgnoresOrder(c: Case, shuffled: seq<Record>, scores: map<FileId, int>)
    requires scores.Keys <= c.files.Keys && forall r :: r in shuffled <==> r in c.evidence
    ensures Decide(c.(evidence := shuffled), scores) == Decide(c, scores)
  {
    assert Excluded(c.evidence, c.group.id) == Excluded(shuffled, c.group.id);
    SameReviewEvidence(c.evidence, shuffled, c.group.id);
    assert ForcesReview(c.evidence, c.group.id, scores.Keys) == ForcesReview(shuffled, c.group.id, scores.Keys);
  }

  lemma SameReviewEvidence(records: seq<Record>, shuffled: seq<Record>, groupId: GroupId)
    requires forall r :: r in records <==> r in shuffled
    ensures HasReviewEvidence(records, groupId) == HasReviewEvidence(shuffled, groupId)
  {
    forall f ensures KindsOf(records, groupId, f) == KindsOf(shuffled, groupId, f) {
    }
  }

  // ----- What a raising stage leaves behind -----

  /** A delivery raises its file exactly when no delivery of a candidate names another group. */
  lemma DeliveryCountsExactly(c: Case, d: Delivery)
    requires c.WellFormed() && d in c.deliveries && DeliveryBoost(d) > 0
    requires d.fileId.Some? && d.fileId.value in c.start && c.start[d.fileId.value] < FULL
    ensures DeliveredScores(c)[d.fileId.value] > c.start[d.fileId.value] <==> !c.ForeignDelivery()
  {
    var i :| 0 <= i < |c.deliveries| && c.deliveries[i] == d;
    var amount := DeliveryAmount(d.fileId.value);
    TotalWithout(c.deliveries, amount, i);
    TotalNonNegative(c.deliveries[..i] + c.deliveries[i + 1..], amount);
  }

  /**
   * An approval that a confirmed delivery cites counts only through that
   * delivery.  Once a foreign delivery has discarded all delivery boosts, the
   * approval counts through neither.
   */
  lemma ForeignDeliveryLosesApproval(c: Case, i: nat)
    requires c.WellFormed() && c.ForeignDelivery() && i < |c.evidence|
    requires AlreadyConfirmed(c.evidence[i], ConfirmedRefs(c.deliveries))
    ensures var without := c.(evidence := c.evidence[..i] + c.evidence[i + 1..]);
            without.WellFormed() && FinalScores(c) == FinalScores(without)
    ensures DeliveredScores(c) == c.start
  {
    var rest := c.evidence[..i] + c.evidence[i + 1..];
    assert forall r :: r in rest ==> r in c.evidence;
    ConfirmedApprovalAddsNothing(SourcedScores(c), c.group.id, c.evidence, c.deliveries, i);
  }

  /** Files 1 and 2 with a confirmed delivery and an approval of file 1 by the same mail, and other deliveries. */
  function ApprovedCase(files: map<FileId, FileInfo>, others: seq<Delivery>): Case {
    Case(Group(0, [1, 2]), files, Chain(0, {1, 2}, {1, 2}, true), map[1 := 5000, 2 := 3000],
         [Delivery(Some(0), Some(1), true, "mail", 1.0)] + others, [],
         [RecordOf(0, Analysis(Approved, IsApproved, 1, None, ["mail"], 1.0))], [], [], 0.82)
  }

  lemma ApprovedCaseIsWellFormed(files: map<FileId, FileInfo>, others: seq<Delivery>)
    requires files.Keys == {1, 2} && !files[1].duplicate && !files[2].duplicate && ProperDeliveries(others)
    ensures ApprovedCase(files, others).WellFormed()
  {
    var c := ApprovedCase(files, others);
    assert Candidates(c.group, c.files) == {1, 2};
  }

  lemma ApprovalCountsOnce(files: map<FileId, FileInfo>, others: seq<Delivery>)
    requires files.Keys == {1, 2} && !files[1].duplicate && !files[2].duplicate && ProperDeliveries(others)
    ensures var c := ApprovedCase(files, others); c.WellFormed() && FinalScores(c)[1] == DeliveredScores(c)[1]
  {
    var c := ApprovedCase(files, others);
    ApprovedCaseIsWellFormed(files, others);
    var d, r := c.deliveries[0], c.evidence[0];
    assert d in c.deliveries && (1, "mail") in ConfirmedRefs(c.deliveries);
    assert "mail" in r.refs;
    assert AlreadyConfirmed(r, ConfirmedRefs(c.deliveries));
    assert c.evidence[..0] == [];
    assert Total(c.evidence, EvidenceAmount(0, 1, ConfirmedRefs(c.deliveries))) == 0;
  }

  function StrayDelivery(): Delivery { Delivery(Some(7), Some(2), false, "log", 1.0) }

  lemma DeliveredAlone(files: map<FileId, FileInfo>)
    requires files.Keys == {1, 2} && !files[1].duplicate && !files[2].duplicate
    ensures var c := ApprovedCase(files, []); c.WellFormed() && DeliveredScores(c)[1] == 6800
  {
    var c := ApprovedCase(files, []);
    ApprovedCaseIsWellFormed(files, []);
    assert !c.ForeignDelivery();
    assert c.deliveries[..0] == [];
    assert Total(c.deliveries, DeliveryAmount(1)) == DeliveryAmount(1)(c.deliveries[0]) == 1800;
  }

  lemma DeliveredDisturbed(files: map<FileId, FileInfo>)
    requires files.Keys == {1, 2} && !files[1].duplicate && !files[2].duplicate
    ensures var c := ApprovedCase(files, [StrayDelivery()]); c.WellFormed() && DeliveredScores(c)[1] == 5000
  {
    var c := ApprovedCase(files, [StrayDelivery()]);
    ApprovedCaseIsWellFormed(files, [StrayDelivery()]);
    assert c.deliveries[1] in c.deliveries && Foreign(c.deliveries[1], c.start.Keys, 0);
  }

  /** A second delivery that names group 7 for file 2 costs file 1 the 0.18 of its own confirmed delivery. */
  lemma LostApprovalWitness(files: map<FileId, FileInfo>)
    requires files.Keys == {1, 2} && !files[1].duplicate && !files[2].duplicate
    ensures var c := ApprovedCase(files, []); c.WellFormed() && FinalScores(c)[1] == 6800
    ensures var c := ApprovedCase(files, [StrayDelivery()]); c.WellFormed() && FinalScores(c)[1] == 5000
  {
    ApprovalCountsOnce(files, []);
    DeliveredAlone(files);
    ApprovalCountsOnce(files, [StrayDelivery()]);
    DeliveredDisturbed(files);
  }

  // ----- Automatic acceptance -----

  /** The confidence a winner would have against one rival, on a complete chain without branches. */
  function Sureness(scores: map<FileId, int>, winner: FileId, rival: FileId): int
    requires winner in scores && rival in scores
  {
    Rounded(RawConfidence(scores[winner], scores[winner] - scores[rival]))
  }

  /** A file leads every other candidate clearly enough. */
  ghost predicate LeadsClearly(scores: map<FileId, int>, winner: FileId, threshold: real) {
    && winner in scores
    && forall g | g in scores && g != winner ::
         scores[winner] - scores[g] >= NEAR_TIE && Sureness(scores, winner, g) as real / 10000.0 >= threshold
  }

  /** The only way a file is accepted without a human. */
  ghost predicate Convincing(c: Case, scores: map<FileId, int>, winner: FileId) {
    && LeadsClearly(scores, winner, c.threshold)
    && winner !in Excluded(c.evidence, c.group.id)
    && c.chain.complete && !c.Branched() && !c.HighRisk() && !c.RelationReview()
    && !HasReviewEvidence(c.evidence, c.group.id)
  }

  lemma SurenessIsMonotone(scores: map<FileId, int>, winner: FileId, near: FileId, far: FileId)
    requires winner in scores && near in scores && far in scores && scores[far] <= scores[near]
    ensures Sureness(scores, winner, near) <= Sureness(scores, winner, far)
  {
  }

  /** For the chosen file the confidence rules say exactly that it leads every rival clearly. */
  lemma ConfidenceMeansLead(scores: map<FileId, int>, winner: FileId, threshold: real)
    requires winner in scores && forall g | g in scores :: scores[g] <= scores[winner]
    requires 0.0 <= threshold <= 1.0
    ensures LeadsClearly(scores, winner, threshold) <==>
            && ConfidenceOf(scores, winner, true, false) as real / 10000.0 >= threshold
            && !(|scores| > 1 && MarginOf(scores, winner) < NEAR_TIE)
  {
    if |scores| > 1 {
      var rival := MarginIsLead(scores, winner);
      assert ConfidenceOf(scores, winner, true, false) == Sureness(scores, winner, rival);
      forall g | g in scores && g != winner ensures Sureness(scores, winner, rival) <= Sureness(scores, winner, g) {
        SurenessIsMonotone(scores, winner, rival, g);
      }
    } else {
      assert scores.Keys - {winner} == {} by {
        assert |scores.Keys - {winner}| == |scores| - 1;
      }
      assert forall g | g in scores :: g == winner || g in scores.Keys - {winner};
    }
  }

  /** A file that leads clearly and is not excluded is the one chosen. */
  lemma LeaderIsChosen(scores: map<FileId, int>, files: map<FileId, FileInfo>, excluded: set<FileId>, winner: FileId,
                       threshold: real)
    requires scores.Keys <= files.Keys && LeadsClearly(scores, winner, threshold) && winner !in excluded
    ensures Chosen(scores, files, excluded) == Some(winner)
    ensures forall g | g in scores :: scores[g] <= scores[winner]
  {
    var chosen := Chosen(scores, files, excluded);
    assert chosen.Some? && scores[winner] <= scores[chosen.value];
  }

  /**
   * A decision stands without review if and only if the threshold is valid and
   * some file is convincing, and that file is then the recommendation.
   */
  lemma AutomaticExactlyWhenConvincing(c: Case)
    requires c.WellFormed()
    ensures !DecisionFor(c).needsReview <==> !c.BadThreshold() && exists w: FileId :: Convincing(c, FinalScores(c), w)
    ensures forall w: FileId | Convincing(c, FinalScores(c), w) :: DecisionFor(c).recommended == Some(w)
  {
    FinalScoresProper(c);
    var scores, d := FinalScores(c), DecisionFor(c);
    forall w: FileId | Convincing(c, scores, w)
      ensures d.recommended == Some(w) && (!c.BadThreshold() ==> !d.needsReview)
    {
      ConvincingIsAccepted(c, scores, w);
    }
    if !d.needsReview {
      AcceptedIsConvincing(c, scores);
    }
  }

  lemma ConvincingIsAccepted(c: Case, scores: map<FileId, int>, w: FileId)
    requires scores.Keys <= c.files.Keys && Convincing(c, scores, w)
    ensures Decide(c, scores).recommended == Some(w) && (!c.BadThreshold() ==> !Decide(c, scores).needsReview)
  {
    ConvincingIsWeighed(c, scores, w);
    assert w in scores.Keys && w !in Excluded(c.evidence, c.group.id);
  }

  lemma ConvincingIsWeighed(c: Case, scores: map<FileId, int>, w: FileId)
    requires scores.Keys <= c.files.Keys && Convincing(c, scores, w)
    ensures Weigh(c, scores).recommended == Some(w) && (!c.BadThreshold() ==> !Weigh(c, scores).needsReview)
  {
    LeaderIsChosen(scores, c.files, Excluded(c.evidence, c.group.id), w, c.threshold);
    if !c.BadThreshold() {
      ConfidenceMeansLead(scores, w, c.threshold);
    }
  }

  /** Excluded files count zero, so no candidate at all outscores the chosen one. */
  lemma AcceptedIsConvincing(c: Case, scores: map<FileId, int>)
    requires scores.Keys <= c.files.Keys && ProperScores(scores)
    requires forall f | f in scores && f in Excluded(c.evidence, c.group.id) :: scores[f] == 0
    requires !Decide(c, scores).needsReview
    ensures Decide(c, scores).recommended.Some? && Convincing(c, scores, Decide(c, scores).recommended.value)
  {
    var w := Decide(c, scores).recommended.value;
    ConfidenceMeansLead(scores, w, c.threshold);
  }

  /** The only file of a group, with a delivery of it that names another group and an export with an unknown source. */
  function FaultyCase(info: FileInfo): Case {
    Case(Group(0, [1]), map[1 := info], Chain(0, {1}, {1}, true), map[1 := FULL],
         [Delivery(Some(7), Some(1), true, "mail", 1.0)], [PdfExport(0, 2, Some(3), 1.0)], [], [], [], 0.82)
  }

  lemma FaultyCaseScores(info: FileInfo)
    requires !info.duplicate
    ensures var c := FaultyCase(info);
            c.WellFormed() && Faults(c) == [DeliveryRules, PdfSourceRules] && FinalScores(c) == map[1 := FULL]
  {
    var c := FaultyCase(info);
    assert Candidates(c.group, c.files) == {1};
    assert c.deliveries[0] in c.deliveries && Foreign(c.deliveries[0], c.start.Keys, 0);
    assert c.exports[0] in c.exports && Relevant(c.exports[0], 0) && c.exports[0].source.value !in c.start.Keys;
    assert SourcedScores(c) == c.start;
  }

  /** A file is accepted automatically although two stages raised. */
  lemma AcceptedDespiteFaultsWitness(info: FileInfo)
    requires !info.duplicate
    ensures var c := FaultyCase(info);
            && c.WellFormed() && Faults(c) == [DeliveryRules, PdfSourceRules]
            && DecisionFor(c).recommended == Some(1) && !DecisionFor(c).needsReview
  {
    var c := FaultyCase(info);
    FaultyCaseScores(info);
    assert Convincing(c, FinalScores(c), 1);
    AutomaticExactlyWhenConvincing(c);
  }

  /**
   * Without delivery, PDF or business evidence, a file that is not a leaf of
   * its chain is never accepted automatically at a threshold above 0.805.
   */
  lemma NonLeafNeedsReview(c: Case, w: FileId)
    requires c.WellFormed() && c.threshold > 0.805
    requires c.deliveries == [] && c.exports == [] && c.evidence == []
    requires c.start == BaseScores(c.files, CandidateList(c.group.fileIds, c.files), c.chain) && |c.start| > 1
    requires w !in c.chain.leaves
    ensures DecisionFor(c).recommended == Some(w) ==> DecisionFor(c).needsReview
  {
    AutomaticExactlyWhenConvincing(c);
    FinalScoresWithoutEvidence(c);
    NonLeafIsUnsure(c.files, CandidateList(c.group.fileIds, c.files), c.chain, w, c.threshold);
  }

  lemma NonLeafIsUnsure(files: map<FileId, FileInfo>, candidates: seq<FileId>, chain: Chain, w: FileId, threshold: real)
    requires forall f <- candidates :: f in files
    requires w !in chain.leaves && threshold > 0.805 && |BaseScores(files, candidates, chain)| > 1
    ensures !LeadsClearly(BaseScores(files, candidates, chain), w, threshold)
  {
    var scores := BaseScores(files, candidates, chain);
    if w in scores {
      OneCandidateOneScore(files, candidates, chain);
      NonLeafIsBounded(w, files, candidates, chain);
      LowScoreIsUnsure(scores, w, threshold);
    }
  }

  lemma OneCandidateOneScore(files: map<FileId, FileInfo>, candidates: seq<FileId>, chain: Chain)
    requires forall f <- candidates :: f in files
    ensures |candidates| == 1 ==> |BaseScores(files, candidates, chain)| == 1
  {
    if |candidates| == 1 {
      assert BaseScores(files, candidates, chain).Keys == {candidates[0]};
    }
  }

  lemma FinalScoresWithoutEvidence(c: Case)
    requires c.WellFormed()
    requires c.deliveries == [] && c.exports == [] && c.evidence == []
    ensures FinalScores(c) == c.start
  {
    FinalScoresProper(c);
    assert DeliveryScores(c.start, c.deliveries) == c.start;
    assert PdfScores(c.start, c.group.id, c.exports) == c.start;
  }

  lemma LowScoreIsUnsure(scores: map<FileId, int>, w: FileId, threshold: real)
    requires w in scores && scores[w] <= 7000 && |scores| > 1 && threshold > 0.805
    ensures !LeadsClearly(scores, w, threshold)
  {
    assert |scores.Keys - {w}| == |scores| - 1;
    var g :| g in scores.Keys - {w};
    assert Sureness(scores, w, g) <= 8050;
  }

  // ----- The list of groups waiting for a human -----

  /** Groups with compelling evidence come first, then relation conflicts, then higher risk, then the identifier. */
  datatype Urgency = Urgency(evidence: bool, relation: bool, risk: nat)

  function RiskRank(p: Priority): nat {
    match p case NotAssessed => 0 case Low => 1 case Medium => 2 case High => 3
  }

  ghost function UrgencyOf(groupId: GroupId, evidence: seq<Record>, diffs: seq<Diff>): Urgency {
    Urgency(HasReviewEvidence(evidence, groupId), exists d <- diffs :: d.groupId == groupId && d.relationReview,
            HighestRisk(groupId, diffs))
  }

  function HighestRisk(groupId: GroupId, diffs: seq<Diff>): nat {
    if diffs == [] then 0
    else
      var last := diffs[|diffs| - 1];
      var before := HighestRisk(groupId, diffs[..|diffs| - 1]);
      if last.groupId == groupId && RiskRank(last.priority) > before then RiskRank(last.priority) else before
  }

  lemma {:induction false} HighestRiskIsHighest(groupId: GroupId, diffs: seq<Diff>)
    ensures forall d <- diffs :: d.groupId == groupId ==> RiskRank(d.priority) <= HighestRisk(groupId, diffs)
    ensures HighestRisk(groupId, diffs) == 0 || exists d <- diffs :: d.groupId == groupId && RiskRank(d.priority) == HighestRisk(groupId, diffs)
  {
    if diffs != [] {
      var front := diffs[..|diffs| - 1];
      HighestRiskIsHighest(groupId, front);
      assert forall d :: d in diffs <==> d in front || d == diffs[|diffs| - 1];
    }
  }

  function MoreUrgent(urgency: map<GroupId, Urgency>): (GroupId, GroupId) -> bool {
    (a: GroupId, b: GroupId) =>
      a in urgency && b in urgency &&
      var u, v := urgency[a], urgency[b];
      if u.evidence != v.evidence then u.evidence
      else if u.relation != v.relation then u.relation
      else if u.risk != v.risk then u.risk > v.risk
      else a < b
  }

  lemma MoreUrgentIsTotal(urgency: map<GroupId, Urgency>, ids: set<GroupId>)
    requires ids <= urgency.Keys
    ensures TotalOn(MoreUrgent(urgency), ids)
  {
  }

  /** Exactly the decisions that need review, most urgent first. */
  method MarkForReview(decisions: seq<Decision>, evidence: seq<Record>, diffs: seq<Diff>)
    returns (pending: seq<GroupId>, ghost urgency: map<GroupId, Urgency>)
    requires forall i, k | 0 <= i < k < |decisions| :: decisions[i].groupId != decisions[k].groupId
    ensures Elements(pending) == set d | d in decisions && d.needsReview :: d.groupId
    ensures forall g | g in pending :: g in urgency && urgency[g] == UrgencyOf(g, evidence, diffs)
    ensures Ascending(MoreUrgent(urgency), pending)
  {
    var ids: seq<GroupId>, ranks: map<GroupId, Urgency> := [], map[];
    for n := 0 to |decisions|
      invariant forall g :: g in ids <==> exists k | 0 <= k < n :: decisions[k].needsReview && decisions[k].groupId == g
      invariant forall g :: g in ids <==> g in ranks
      invariant Distinct(ids)
      invariant forall g | g in ranks :: ranks[g] == UrgencyOf(g, evidence, diffs)
    {
      var g := decisions[n].groupId;
      if decisions[n].needsReview {
        assert g !in ids;
        var review := GroupHasReview(evidence, g);
        ids := ids + [g];
        ranks := ranks[g := Urgency(review, exists d <- diffs :: d.groupId == g && d.relationReview, HighestRisk(g, diffs))];
      }
    }
    assert Elements(ids) <= ranks.Keys;
    MoreUrgentIsTotal(ranks, Elements(ids));
    pending := SortBy(MoreUrgent(ranks), ids);
    assert forall g :: g in pending <==> g in Elements(pending);
    assert forall g :: g in ids <==> g in Elements(ids);
    urgency := ranks;
  }
}
