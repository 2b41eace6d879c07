/**
 * What the recommendation rules amount to for the evidence and scores that go
 * in: which records silence a file, what each boost is worth, which candidate
 * is chosen with which confidence, and what a second opinion changes.
 */
module RecommendationOutcomes {
  import opened Options
  import opened Sorting
  import opened Arithmetic
  import opened BusinessEvidence
  import opened Recommendation
  import opened RecommendationPipeline
  import opened RecommendationJudge

  // ----- What each kind of finding does -----

  /** The rule that is stored with a record of each kind, with its weight in ten-thousandths. */
  lemma RuleOfEachKind(groupId: GroupId, a: Analysis)
    ensures var r := RecordOf(groupId, a);
            r.groupId == groupId && r.kind == a.kind && r.target == a.target && r.refs == a.refs && r.confidence == a.confidence
    ensures var r := RecordOf(groupId, a);
            match a.kind
            case Approved => r.action == ScoreBoost && r.adjustment == 1800
            case FinalVersion => r.action == ScoreBoost && r.adjustment == 1400
            case Rejected => r.action == ExcludeAndReview && r.adjustment == 0
            case Superseded => r.action == ExcludeCandidate && r.adjustment == 0
            case ForReferenceOnly => r.action == ExcludeCandidate && r.adjustment == 0
            case RequiresRevision => r.action == ForceHumanReview && r.adjustment == 0
            case SentButUnconfirmed => r.action == NoAction && r.adjustment == 0
            case Ambiguous => r.action == NoAction && r.adjustment == 0
  {
  }

  /** The record belongs to the group and its stored rule takes its target out of the competition. */
  predicate Silences(r: Record, groupId: GroupId, f: FileId) {
    r.groupId == groupId && r.target == f && (r.action == ExcludeAndReview || r.action == ExcludeCandidate)
  }

  predicate Silenced(records: seq<Record>, groupId: GroupId, f: FileId) {
    exists r <- records :: Silences(r, groupId, f)
  }

  lemma SilencedAreExcluded(records: seq<Record>, groupId: GroupId, f: FileId)
    requires ProperRecords(records)
    ensures f in Excluded(records, groupId) <==> Silenced(records, groupId, f)
  {
  }

  /**
   * A file whose record carries an excluding rule scores nothing and is never
   * recommended: not by the rules, whichever stages raised, and not after fusion.
   */
  lemma SilencedIsNeverRecommended(c: Case, r: Record, o: Option<Opinion>, shortlist: seq<FileId>, refs: set<Ref>)
    requires c.WellFormed() && r in c.evidence && Silences(r, c.group.id, r.target)
    requires Heard(c, o, shortlist, refs)
    ensures r.target in FinalScores(c) ==> FinalScores(c)[r.target] == 0
    ensures DecisionFor(c).recommended != Some(r.target) && r.target !in shortlist
    ensures (o.Some? ==> Usable(o.value, DecisionFor(c).scores)) && Outcome(c, o).recommended != Some(r.target)
  {
    SilencedAreExcluded(c.evidence, c.group.id, r.target);
    FinalScoresProper(c);
    DecisionPassesValidationExactly(c);
    ExcludedIsNeverRecommended(c, o, shortlist, refs);
    assert r.target in shortlist ==> r.target in Elements(shortlist);
  }

  /** Without such a record evidence never lowers a score. */
  lemma EvidenceOnlySilencesByRule(c: Case, f: FileId)
    requires c.WellFormed() && f in c.start && !Silenced(c.evidence, c.group.id, f)
    ensures f in FinalScores(c) && FinalScores(c)[f] >= SourcedScores(c)[f]
  {
    FinalScoresProper(c);
    SilencedAreExcluded(c.evidence, c.group.id, f);
    TotalNonNegative(c.evidence, EvidenceAmount(c.group.id, f, ConfirmedRefs(c.deliveries)));
  }

  /** The record boosts the file and no confirmed delivery of the file cites what it cites. */
  predicate Boosts(r: Record, groupId: GroupId, f: FileId, deliveries: seq<Delivery>) {
    && r.groupId == groupId && r.target == f && r.action == ScoreBoost
    && !(r.kind == Approved && exists d <- deliveries :: d.fileId == Some(f) && d.confirmed && d.evidenceRef in r.refs)
  }

  lemma ConfirmedMeans(r: Record, deliveries: seq<Delivery>)
    ensures AlreadyConfirmed(r, ConfirmedRefs(deliveries)) <==>
            r.kind == Approved && exists d <- deliveries :: d.fileId == Some(r.target) && d.confirmed && d.evidenceRef in r.refs
  {
    if r.kind == Approved && exists d <- deliveries :: d.fileId == Some(r.target) && d.confirmed && d.evidenceRef in r.refs {
      var d :| d in deliveries && d.fileId == Some(r.target) && d.confirmed && d.evidenceRef in r.refs;
      assert (d.fileId.value, d.evidenceRef) in ConfirmedRefs(deliveries);
    }
  }

  /** What a boosting record is worth: its weight times its confidence, rounded to the nearest ten-thousandth. */
  function Worth(r: Record): int {
    (r.adjustment as real * r.confidence + 0.5).Floor
  }

  /** One more record changes at most its target: to nothing, or by its rounded and capped weight. */
  lemma OneMoreRecord(start: map<FileId, int>, groupId: GroupId, records: seq<Record>, r: Record, deliveries: seq<Delivery>, f: FileId)
    requires ProperScores(start) && ProperRecords(records) && ProperRecords([r]) && f in start
    ensures var before, after := EvidenceScores(start, groupId, records, deliveries)[f],
                                 EvidenceScores(start, groupId, records + [r], deliveries)[f];
            after == if Silences(r, groupId, f) || Silenced(records, groupId, f) then 0
                     else Min(10000, before + if Boosts(r, groupId, f, deliveries) then Worth(r) else 0)
  {
    MoreRecords(records, r, groupId, f);
    AmountOfRecord(groupId, r, deliveries, f);
    var total, amount := ScoresWith(start, groupId, records, r, deliveries, f);
    Combine(EvidenceScores(start, groupId, records, deliveries)[f], EvidenceScores(start, groupId, records + [r], deliveries)[f],
            Silences(r, groupId, f), Silenced(records, groupId, f), start[f], total, amount);
  }

  lemma ScoresWith(start: map<FileId, int>, groupId: GroupId, records: seq<Record>, r: Record, deliveries: seq<Delivery>, f: FileId)
    returns (total: int, amount: int)
    requires ProperRecords(records) && ProperRecords(records + [r]) && f in start
    ensures amount == EvidenceAmount(groupId, f, ConfirmedRefs(deliveries))(r)
    ensures EvidenceScores(start, groupId, records, deliveries)[f]
            == if Silenced(records, groupId, f) then 0 else Min(10000, start[f] + total)
    ensures EvidenceScores(start, groupId, records + [r], deliveries)[f]
            == if Silenced(records + [r], groupId, f) then 0 else Min(10000, start[f] + (total + amount))
  {
    total := ScoreWith(start, groupId, records, deliveries, f);
    var more := ScoreWith(start, groupId, records + [r], deliveries, f);
    amount := more - total;
    TotalOfOneMore(records, r, groupId, f, deliveries);
  }

  lemma TotalOfOneMore(records: seq<Record>, r: Record, groupId: GroupId, f: FileId, deliveries: seq<Delivery>)
    ensures var each := EvidenceAmount(groupId, f, ConfirmedRefs(deliveries));
            Total(records + [r], each) == Total(records, each) + each(r)
  {
    NextTotal(records, r, EvidenceAmount(groupId, f, ConfirmedRefs(deliveries)));
  }

  lemma Combine(before: int, after: int, silences: bool, silenced: bool, score: int, total: int, amount: int)
    requires before == if silenced then 0 else Min(10000, score + total)
    requires after == if silenced || silences then 0 else Min(10000, score + (total + amount))
    requires amount >= 0
    ensures after == if silences || silenced then 0 else Min(10000, before + amount)
  {
  }

  lemma MoreRecords(records: seq<Record>, r: Record, groupId: GroupId, f: FileId)
    requires ProperRecords(records) && ProperRecords([r])
    ensures ProperRecords(records + [r]) && 0.0 <= r.confidence <= 1.0
    ensures Silenced(records + [r], groupId, f) <==> Silenced(records, groupId, f) || Silences(r, groupId, f)
  {
    assert r in [r];
    assert forall x :: x in records + [r] <==> x in records || x == r;
  }

  lemma ScoreWith(start: map<FileId, int>, groupId: GroupId, records: seq<Record>, deliveries: seq<Delivery>, f: FileId)
    returns (total: int)
    requires ProperRecords(records) && f in start
    ensures total == Total(records, EvidenceAmount(groupId, f, ConfirmedRefs(deliveries)))
    ensures EvidenceScores(start, groupId, records, deliveries)[f]
            == if Silenced(records, groupId, f) then 0 else Min(10000, start[f] + total)
  {
    SilencedAreExcluded(records, groupId, f);
    total := Total(records, EvidenceAmount(groupId, f, ConfirmedRefs(deliveries)));
  }

  lemma AmountOfRecord(groupId: GroupId, r: Record, deliveries: seq<Delivery>, f: FileId)
    requires 0.0 <= r.confidence <= 1.0
    ensures var amount := EvidenceAmount(groupId, f, ConfirmedRefs(deliveries))(r);
            amount >= 0 && amount == if Boosts(r, groupId, f, deliveries) then Worth(r) else 0
  {
    ConfirmedMeans(r, deliveries);
    assert r.target == f ==> (Boosts(r, groupId, f, deliveries) <==>
             r.groupId == groupId && r.action == ScoreBoost && !AlreadyConfirmed(r, ConfirmedRefs(deliveries)));
    assert Scaled(r.adjustment, r.confidence) == Worth(r);
  }

  // ----- What evidence sends to a human -----

  predicate OfGroup(r: Record, records: seq<Record>, groupId: GroupId) {
    r in records && r.groupId == groupId
  }

  predicate SpeaksAgainst(r: Record) {
    r.action == ExcludeAndReview || r.action == ExcludeCandidate || r.action == ForceHumanReview
  }

  /**
   * Evidence sends a group to a human exactly when a record rejects or asks for
   * a revision, when one file has records for and against it, or when no candidate is left.
   */
  lemma ReviewExactly(records: seq<Record>, groupId: GroupId, candidates: set<FileId>)
    requires ProperRecords(records)
    ensures ForcesReview(records, groupId, candidates) <==>
            || (exists r :: OfGroup(r, records, groupId) && (r.action == ExcludeAndReview || r.action == ForceHumanReview))
            || (exists r, q :: OfGroup(r, records, groupId) && OfGroup(q, records, groupId)
                               && r.target == q.target && r.action == ScoreBoost && SpeaksAgainst(q))
            || (candidates != {} && forall f <- candidates :: Silenced(records, groupId, f))
  {
    forall f | f in candidates ensures f in Excluded(records, groupId) <==> Silenced(records, groupId, f) {
      SilencedAreExcluded(records, groupId, f);
    }
    ReviewEvidenceMeans(records, groupId);
  }

  lemma ReviewEvidenceMeans(records: seq<Record>, groupId: GroupId)
    requires ProperRecords(records)
    ensures HasReviewEvidence(records, groupId) <==>
            || (exists r :: OfGroup(r, records, groupId) && (r.action == ExcludeAndReview || r.action == ForceHumanReview))
            || (exists r, q :: OfGroup(r, records, groupId) && OfGroup(q, records, groupId)
                               && r.target == q.target && r.action == ScoreBoost && SpeaksAgainst(q))
  {
    if r, q :| OfGroup(r, records, groupId) && OfGroup(q, records, groupId)
               && r.target == q.target && r.action == ScoreBoost && SpeaksAgainst(q)
    {
      var kinds := KindsOf(records, groupId, r.target);
      assert r.kind in kinds && q.kind in kinds && Positive(r.kind) && Negative(q.kind);
    }
    if r :| r in records && r.groupId == groupId && Contradictory(KindsOf(records, groupId, r.target)) {
      var kinds := KindsOf(records, groupId, r.target);
      var up, down :| up in kinds && Positive(up) && down in kinds && Negative(down);
      var p :| p in records && p.groupId == groupId && p.target == r.target && p.kind == up;
      var q :| q in records && q.groupId == groupId && q.target == r.target && q.kind == down;
      assert OfGroup(p, records, groupId) && OfGroup(q, records, groupId) && p.action == ScoreBoost && SpeaksAgainst(q);
    }
    if r :| r in records && r.groupId == groupId && ForcesReviewAlone(r.kind) {
      assert OfGroup(r, records, groupId);
    }
  }

  lemma EvidenceReviewIsKept(c: Case)
    requires c.WellFormed() && ForcesReview(c.evidence, c.group.id, c.start.Keys)
    ensures DecisionFor(c).needsReview && DecisionFor(c).selectedBy == Unresolved
  {
    FinalScoresProper(c);
  }

  // ----- What deliveries and exports are worth -----

  /** One more delivery raises its file by 0.18 or 0.10 of its confidence, rounded and capped. */
  lemma OneMoreDelivery(start: map<FileId, int>, deliveries: seq<Delivery>, d: Delivery, f: FileId)
    requires f in start && 0.0 <= d.confidence <= 1.0
    ensures var before, after := DeliveryScores(start, deliveries)[f], DeliveryScores(start, deliveries + [d])[f];
            after == if d.fileId == Some(f)
                     then Min(10000, before + ((if d.confirmed then 1800.0 else 1000.0) * d.confidence + 0.5).Floor)
                     else before
  {
    BoostOfDelivery(d);
    DeliveredOne(start[f], deliveries, d, f);
  }

  lemma BoostOfDelivery(d: Delivery)
    requires 0.0 <= d.confidence <= 1.0
    ensures DeliveryBoost(d) == ((if d.confirmed then 1800.0 else 1000.0) * d.confidence + 0.5).Floor
  {
    assert Scaled(1800, d.confidence) == (1800.0 * d.confidence + 0.5).Floor;
    assert Scaled(1000, d.confidence) == (1000.0 * d.confidence + 0.5).Floor;
  }

  /** One more export of the group raises its source by 0.10 and lowers the PDF by 0.06 of its confidence. */
  lemma OneMoreExport(scores: map<FileId, int>, groupId: GroupId, exports: seq<PdfExport>, e: PdfExport, f: FileId)
    requires ProperScores(scores) && ProperExports(exports + [e]) && SourcesKnown(scores.Keys, groupId, exports + [e]) && f in scores
    ensures ProperExports(exports) && SourcesKnown(scores.Keys, groupId, exports)
    ensures 0.0 <= e.confidence <= 1.0
    ensures var before, after := PdfScores(scores, groupId, exports)[f], PdfScores(scores, groupId, exports + [e])[f];
            after == if e.groupId != groupId || e.source.None? then before
                     else if e.source == Some(f) then Min(10000, before + (1000.0 * e.confidence + 0.5).Floor)
                     else if e.pdf == f then Max(0, before - (600.0 * e.confidence + 0.5).Floor)
                     else before
  {
    var all := exports + [e];
    assert forall x <- exports :: x in all;
    assert e in all && all[..|exports|] == exports;
  }

  // ----- Which candidate is chosen, and how surely -----

  /** Higher score, then later modification, then greater name, then greater identifier. */
  lemma ChosenIsFirst(scores: map<FileId, int>, files: map<FileId, FileInfo>, excluded: set<FileId>, f: FileId)
    requires scores.Keys <= files.Keys && f in scores && f !in excluded
    ensures Chosen(scores, files, excluded).Some?
    ensures var w := Chosen(scores, files, excluded).value;
            && w in scores && w !in excluded && scores[w] >= scores[f]
            && (scores[w] == scores[f] ==> files[w].modifiedAt >= files[f].modifiedAt)
            && (scores[w] == scores[f] && files[w].modifiedAt == files[f].modifiedAt ==> files[w].name >= files[f].name)
            && (scores[w] == scores[f] && files[w].modifiedAt == files[f].modifiedAt && files[w].name == files[f].name ==> w >= f)
  {
    var eligible := scores.Keys - excluded;
    assert f in eligible;
    OutranksIsTotal(scores, files, eligible);
    var w := LeastOf(Outranks(scores, files), eligible);
    assert f == w || Outranks(scores, files)(w, f);
  }

  /** The confidence formula over the reals, before penalties and rounding. */
  function PlainConfidence(top: int, lead: int): real {
    0.65 * (top as real / 10000.0) + 0.35 * (if lead >= 2500 then 1.0 else lead as real / 2500.0)
  }

  function Unit(x: real): real { if x < 0.0 then 0.0 else if x > 1.0 then 1.0 else x }

  /** For a winner no one outscores: 0.65 of its score and 0.35 of its lead over the closest rival, less the penalties. */
  lemma ConfidenceFormula(scores: map<FileId, int>, winner: FileId, rival: FileId, complete: bool, branched: bool)
    requires ProperScores(scores) && winner in scores && rival in scores && rival != winner
    requires forall g | g in scores :: scores[g] <= scores[winner]
    requires forall g | g in scores && g != winner :: scores[g] <= scores[rival]
    ensures |scores| > 1
    ensures var exact := Unit(PlainConfidence(scores[winner], scores[winner] - scores[rival])
                              - (if complete then 0.0 else 0.15) - (if branched then 0.25 else 0.0));
            var reported := ConfidenceOf(scores, winner, complete, branched) as real / 10000.0;
            exact - 0.00005 <= reported <= exact + 0.00005
  {
    TwoCandidates(scores, winner, rival);
    var closest := MarginIsLead(scores, winner);
    assert scores[closest] == scores[rival];
  }

  lemma TwoCandidates(scores: map<FileId, int>, a: FileId, b: FileId)
    requires a in scores && b in scores && a != b
    ensures |scores| > 1
  {
    assert {a, b} <= scores.Keys;
    assert |scores.Keys| == |scores.Keys - {a, b}| + |{a, b}|;
  }

  /** A lead below 0.08, a confidence below the threshold, an incomplete chain or a branch sends the decision to a human. */
  lemma DoubtsAreReviewed(c: Case, f: FileId)
    requires c.WellFormed() && !DecisionFor(c).needsReview
    ensures c.chain.complete && !c.Branched() && 0.0 <= c.threshold <= 1.0
    ensures DecisionFor(c).recommended.Some? && DecisionFor(c).confidence as real >= 10000.0 * c.threshold
    ensures DecisionFor(c).recommended.value in FinalScores(c)
    ensures f in FinalScores(c) && f != DecisionFor(c).recommended.value ==>
              FinalScores(c)[DecisionFor(c).recommended.value] - FinalScores(c)[f] >= 800
    ensures forall d <- c.diffs :: d.groupId == c.group.id ==> d.priority != High && !d.relationReview
  {
    AutomaticExactlyWhenConvincing(c);
    FinalScoresProper(c);
    var w: FileId :| Convincing(c, FinalScores(c), w);
    assert DecisionFor(c).recommended == Some(w);
  }

  // ----- What base scores are worth -----

  /** A new confirmed editable file, an old editable file and an old PDF with a final mark. */
  predicate ThreeFiles(files: map<FileId, FileInfo>) {
    && files.Keys == {1, 2, 3}
    && files[1] == FileInfo(20, 1, true, false, false, ConfirmedMark)
    && files[2] == FileInfo(10, 2, true, false, false, Unmarked)
    && files[3] == FileInfo(10, 3, false, true, false, FinalMark)
  }

  lemma NewestOfThree(files: map<FileId, FileInfo>, f: FileId)
    requires ThreeFiles(files) && f in files
    ensures f in [1, 2, 3] && (forall g <- [1, 2, 3] :: g in files)
    ensures Newest(f, files, [1, 2, 3]) <==> f == 1
    ensures exists g <- [1, 2, 3] :: files[g].editable
  {
    assert [1, 2, 3][0] == 1 && [1, 2, 3][1] == 2 && [1, 2, 3][2] == 3;
    assert 1 in [1, 2, 3] && files[1].editable;
  }

  /** 0.15 for every candidate, 0.35 for a leaf, 0.18 each for editable and newest, 0.14 or 0.08 for a mark, 0.05 for a complete chain, less 0.10 for a PDF. */
  lemma ScoreOfThree(files: map<FileId, FileInfo>, chain: Chain, f: FileId)
    requires ThreeFiles(files) && f in files
    ensures f in [1, 2, 3] && (forall g <- [1, 2, 3] :: g in files)
    ensures var common := 1500 + (if f in chain.leaves then 3500 else 0) + (if chain.complete then 500 else 0);
            BaseScore(f, files, [1, 2, 3], chain)
            == Min(10000, if f == 1 then common + 1800 + 1800 + 1400 else if f == 2 then common + 1800 else common + 800 - 1000)
  {
    NewestOfThree(files, f);
  }

  /** A single candidate has the full score; among three the base scores add up. */
  lemma BaseScoreWitness(files: map<FileId, FileInfo>)
    requires ThreeFiles(files)
    ensures forall g <- [1, 2, 3] :: g in files
    ensures var scores := BaseScores(files, [1, 2, 3], Chain(0, {1, 2, 3}, {1, 2}, true));
            scores.Keys == {1, 2, 3} && scores[1] == 10000 && scores[2] == 7300 && scores[3] == 1800
    ensures var scores := BaseScores(files, [3], Chain(0, {3}, {}, false)); 3 in scores && scores[3] == 10000
  {
    ScoreOfThree(files, Chain(0, {1, 2, 3}, {1, 2}, true), 1);
    ScoreOfThree(files, Chain(0, {1, 2, 3}, {1, 2}, true), 2);
    ScoreOfThree(files, Chain(0, {1, 2, 3}, {1, 2}, true), 3);
    assert 3 in [3];
  }

  // ----- What a second opinion changes -----

  /** The decision has a recommendation that no rule sent to review. */
  predicate Stands(d: Decision) {
    d.recommended.Some? && !d.needsReview
  }

  /** The Judge names a file, surely enough, in a case that is not settled. */
  predicate HeardAsSignal(d: Decision, o: Opinion) {
    !o.abstain && o.confidence >= 0.8 && !Stands(d)
  }

  predicate Dissents(d: Decision, o: Opinion) {
    !o.abstain && o.recommended != d.recommended
  }

  /**
   * A second opinion raises one score, by 0.04 of its confidence, exactly when
   * it is heard as a signal; it then decides between the raised scores if it
   * dissents.  Any dissent asks for a human.  Nothing else of the decision changes.
   */
  lemma FusionChangesExactly(d: Decision, o: Opinion, f: FileId)
    requires Usable(o, d.scores) && f in d.scores
    ensures var t := Fuse(d, o).decision;
            && t.groupId == d.groupId && t.confidence == d.confidence && t.preserve == d.preserve
            && t.needsReview == (d.needsReview || Dissents(d, o))
            && t.selectedBy == (if Dissents(d, o) then Unresolved else d.selectedBy)
            && t.scores.Keys == d.scores.Keys
            && t.scores[f] == (if HeardAsSignal(d, o) && o.recommended == Some(f)
                               then Min(10000, d.scores[f] + (400.0 * o.confidence + 0.5).Floor) else d.scores[f])
            && (!(HeardAsSignal(d, o) && Dissents(d, o)) ==> t.recommended == d.recommended)
            && (HeardAsSignal(d, o) && Dissents(d, o) ==>
                  && t.recommended.Some? && t.recommended.value in t.scores
                  && t.scores[t.recommended.value] >= t.scores[f]
                  && (t.scores[t.recommended.value] == t.scores[f] ==> t.recommended.value <= f))
  {
    if HeardAsSignal(d, o) && Dissents(d, o) {
      var scores := Raised(d.scores, o);
      RanksBeforeIsTotal(scores, scores.Keys);
      assert Leader(scores) == f || RanksBefore(scores)(Leader(scores), f);
    }
  }

  /** The audit record names the case it is about. */
  lemma ResolutionExactly(d: Decision, o: Opinion)
    requires Usable(o, d.scores)
    ensures var j := Fuse(d, o).judgment;
            && (j.resolution == DeterministicOnly <==> o.abstain && Stands(d))
            && (j.resolution == AbstainedReview <==> o.abstain && !Stands(d))
            && (j.resolution == StrongConsensus <==> !o.abstain && Stands(d) && !Dissents(d, o) && o.confidence >= 0.8)
            && (j.resolution == ConflictReview <==> Stands(d) && Dissents(d, o))
            && (j.resolution == PrioritySignal <==> HeardAsSignal(d, o))
            && (j.resolution == WeakConsensus <==> !o.abstain && o.confidence < 0.8 && !(Stands(d) && Dissents(d, o)))
            && j.deterministic == d.recommended && j.judge == o.recommended && j.groupId == d.groupId
            && j.adjustment == (if HeardAsSignal(d, o) then (400.0 * o.confidence + 0.5).Floor else 0)
  {
  }

  /** Fusion leaves a decision that the validation node has nothing against. */
  lemma FusionKeepsConsistency(c: Case, o: Option<Opinion>, shortlist: seq<FileId>, refs: set<Ref>)
    requires c.WellFormed() && Heard(c, o, shortlist, refs)
    ensures o.Some? ==> Usable(o.value, DecisionFor(c).scores)
    ensures Consistent(c, Outcome(c, o))
    ensures PassesValidation(c, Outcome(c, o)) <==> !c.StrayChain() || c.group.fileIds == []
  {
    DecisionPassesValidationExactly(c);
    ExcludedIsNeverRecommended(c, o, shortlist, refs);
    if o.Some? {
      FusedIsConsistent(c, DecisionFor(c), o.value);
    }
  }

  lemma FusedIsConsistent(c: Case, d: Decision, o: Opinion)
    requires Consistent(c, d) && Usable(o, d.scores)
    requires var r := Fuse(d, o).decision.recommended; r.Some? ==> r.value !in Excluded(c.evidence, c.group.id)
    ensures Consistent(c, Fuse(d, o).decision) && Fuse(d, o).decision.preserve == d.preserve
  {
    forall f | f in d.scores ensures 0 <= Fuse(d, o).decision.scores[f] <= FULL {
      FusionBoundsScores(d, o, f);
    }
    if d.scores.Keys != {} {
      var f :| f in d.scores;
      FusionChangesExactly(d, o, f);
    }
  }

  /** At most eight eligible candidates are put to the Judge, and no better one is left out except for the recommended file. */
  lemma ShortlistMeans(list: seq<FileId>, scores: map<FileId, int>, excluded: set<FileId>, recommended: Option<FileId>, f: FileId)
    requires IsShortlist(list, scores, excluded, recommended)
    ensures |list| <= 8 && (|list| < 8 && f in scores && f !in excluded ==> f in list)
    ensures f in list ==> f in scores && f !in excluded
    ensures recommended == Some(f) && f in scores && f !in excluded ==> f in list
    ensures forall i, k | 0 <= i < k < |list| :: list[i] in scores && list[k] in scores && scores[list[i]] >= scores[list[k]]
    ensures f in scores && f !in excluded && f !in list ==>
              forall g | g in list && recommended != Some(g) :: g in scores && scores[g] >= scores[f]
  {
    var eligible := scores.Keys - excluded;
    assert forall g :: g in list <==> g in Elements(list);
    AscendingIsDistinct(scores, list);
    if |list| < 8 {
      assert |Elements(list)| == |eligible| && Elements(list) <= eligible;
      assert eligible == Elements(list) by {
        assert |eligible - Elements(list)| == 0;
      }
    }
    forall i, k | 0 <= i < k < |list| ensures list[i] in scores && list[k] in scores && scores[list[i]] >= scores[list[k]] {
      assert RanksBefore(scores)(list[i], list[k]);
    }
    if f in scores && f !in excluded && f !in list {
      forall g | g in list && recommended != Some(g) ensures g in scores && scores[g] >= scores[f] {
        assert RanksBefore(scores)(g, f);
      }
    }
  }

  // ----- The order in which a human sees the groups -----

  /** Groups with compelling evidence come first, then relation conflicts, then high, medium and low risk, then the identifier. */
  lemma ReviewOrder(pending: seq<GroupId>, urgency: map<GroupId, Urgency>, i: nat, k: nat)
    requires Ascending(MoreUrgent(urgency), pending) && i < k < |pending|
    ensures pending[i] in urgency && pending[k] in urgency
    ensures var u, v := urgency[pending[i]], urgency[pending[k]];
            && (v.evidence ==> u.evidence)
            && (u.evidence == v.evidence ==> v.relation ==> u.relation)
            && (u.evidence == v.evidence && u.relation == v.relation ==> u.risk >= v.risk)
            && (u == v ==> pending[i] < pending[k])
    ensures RiskRank(NotAssessed) < RiskRank(Low) < RiskRank(Medium) < RiskRank(High)
  {
    assert MoreUrgent(urgency)(pending[i], pending[k]);
  }

  // ----- Which findings are accepted -----

  /** The status a finding must state for its kind. */
  predicate FitsKind(kind: Kind, status: Status) {
    match kind
    case Approved => status == IsApproved
    case Rejected => status == IsRejected
    case Superseded => status == IsSuperseded
    case ForReferenceOnly => status == ReferenceOnly
    case RequiresRevision => status == RevisionRequired
    case FinalVersion => status == Final
    case SentButUnconfirmed => status == Unconfirmed
    case Ambiguous => status == Unclear
  }

  /** The finding repeats what the snippets it cites say about its target and time. */
  predicate RepeatsSnippets(a: Analysis, snippets: map<Ref, Snippet>) {
    && (forall ref <- a.refs :: ref in snippets && snippets[ref].target == a.target)
    && (a.effectiveTime.None? || exists ref <- a.refs :: ref in snippets && snippets[ref].effectiveTime == a.effectiveTime)
  }

  predicate SameFinding(a: Analysis, b: Analysis) {
    a.kind == b.kind && a.target == b.target && multiset(a.refs) == multiset(b.refs)
  }

  /** Findings are accepted exactly when each fits its kind and its snippets and no two are the same. */
  lemma FindingsAcceptedExactly(analyses: seq<Analysis>, snippets: map<Ref, Snippet>)
    ensures Acceptable(analyses, snippets) <==>
            && (forall i | 0 <= i < |analyses| :: FitsKind(analyses[i].kind, analyses[i].status) && RepeatsSnippets(analyses[i], snippets))
            && forall i, k | 0 <= i < k < |analyses| :: !SameFinding(analyses[i], analyses[k])
  {
    forall i | 0 <= i < |analyses|
      ensures Grounded(analyses[i], snippets) <==>
              FitsKind(analyses[i].kind, analyses[i].status) && RepeatsSnippets(analyses[i], snippets)
    {
    }
    forall i, k | 0 <= i < k < |analyses|
      ensures KeyOf(analyses[i]) == KeyOf(analyses[k]) <==> SameFinding(analyses[i], analyses[k])
    {
    }
  }

  // ----- Which stages raise, and which flags are shown to the Judge -----

  /** Each reported stage has its own cause, and every cause is reported once, in graph order. */
  lemma StagesRaiseExactly(c: Case)
    ensures DeliveryRules in Faults(c) <==>
              exists d <- c.deliveries :: d.fileId.Some? && d.fileId.value in c.start && d.groupId != Some(c.group.id)
    ensures PdfSourceRules in Faults(c) <==>
              exists e <- c.exports :: e.groupId == c.group.id && e.source.Some? && e.source.value !in c.start
    ensures ConfidenceRules in Faults(c) <==> c.threshold < 0.0 || c.threshold > 1.0
    ensures PreservationRules in Faults(c) <==> exists f :: (f in c.chain.ordered || f in c.chain.leaves) && f !in c.group.fileIds
    ensures forall i, k | 0 <= i < k < |Faults(c)| :: StageRank(Faults(c)[i]) < StageRank(Faults(c)[k])
  {
    if f :| (f in c.chain.ordered || f in c.chain.leaves) && f !in c.group.fileIds {
      assert f in c.chain.ordered + c.chain.leaves;
    }
  }

  function StageRank(s: Stage): nat {
    match s case DeliveryRules => 0 case PdfSourceRules => 1 case ConfidenceRules => 2 case PreservationRules => 3
  }

  /** Apart from the one that is never raised, each flag is shown exactly for what it names. */
  lemma FlagsAreExact(c: Case)
    ensures BranchPresent in RiskFlags(c) <==> c.group.id in c.branches
    ensures ChainIncomplete in RiskFlags(c) <==> !c.chain.complete
    ensures RelationReviewRequired in RiskFlags(c) <==> exists d <- c.diffs :: d.groupId == c.group.id && d.relationReview
    ensures HighSignificance in RiskFlags(c) <==> exists d <- c.diffs :: d.groupId == c.group.id && d.priority == High
  {
  }
}
