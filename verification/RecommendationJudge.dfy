/**
 * The second opinion: a shortlist is put to a Judge, its answer is checked
 * against the shortlist, and fixed rules fuse it with the decision.
 */
module RecommendationJudge {
  import opened Options
  import opened Sorting
  import opened Arithmetic
  import opened BusinessEvidence
  import opened Recommendation
  import opened RecommendationPipeline

  const HIGH_CONFIDENCE := 0.80
  const MAX_BOOST := 400
  const MAX_CANDIDATES := 8

  /** The Judge's answer, with a confidence in [0, 1]. */
  datatype Opinion = Opinion(recommended: Option<FileId>, confidence: real, abstain: bool, refs: set<Ref>)

  datatype Resolution = DeterministicOnly | AbstainedReview | StrongConsensus | WeakConsensus | PrioritySignal | ConflictReview

  datatype JudgeRecord = JudgeRecord(groupId: GroupId, deterministic: Option<FileId>, judge: Option<FileId>,
                                     resolution: Resolution, reviewRequired: bool, adjustment: int)

  datatype Fusion = Fusion(decision: Decision, judgment: JudgeRecord)

  // ----- The shortlist -----

  /** The best eligible candidates in rank order, with the recommended one always among them. */
  ghost predicate IsShortlist(list: seq<FileId>, scores: map<FileId, int>, excluded: set<FileId>, recommended: Option<FileId>) {
    var eligible := scores.Keys - excluded;
    && Ascending(RanksBefore(scores), list) && Elements(list) <= eligible
    && |list| == Min(MAX_CANDIDATES, |eligible|)
    && (recommended.Some? && recommended.value in eligible ==> recommended.value in list)
    && forall f, g | f in list && g in eligible && g !in list :: recommended == Some(f) || RanksBefore(scores)(f, g)
  }

  method BuildShortlist(scores: map<FileId, int>, excluded: set<FileId>, recommended: Option<FileId>) returns (list: seq<FileId>)
    ensures IsShortlist(list, scores, excluded, recommended)
  {
    var ids := ListOf(scores.Keys - excluded);
    RanksBeforeIsTotal(scores, Elements(ids));
    var ranked := SortBy(RanksBefore(scores), ids);
    assert forall f :: f in ranked <==> f in Elements(ranked);
    list := if |ranked| <= MAX_CANDIDATES then ranked else ranked[..MAX_CANDIDATES];
    CutRanking(ranked, scores);
    if recommended.Some? && recommended.value !in list && recommended.value in ranked && list != [] {
      SwapInLast(ranked, scores, recommended.value);
      list := list[|list| - 1 := recommended.value];
    }
  }

  /** Whatever falls beyond the cut ranks after everything kept. */
  lemma CutRanking(ranked: seq<FileId>, scores: map<FileId, int>)
    requires Ascending(RanksBefore(scores), ranked)
    ensures |ranked| > MAX_CANDIDATES ==>
              && Ascending(RanksBefore(scores), ranked[..MAX_CANDIDATES])
              && (forall f | f in ranked[..MAX_CANDIDATES] :: f in ranked)
              && forall f, g | f in ranked[..MAX_CANDIDATES] && g in ranked && g !in ranked[..MAX_CANDIDATES] :: RanksBefore(scores)(f, g)
  {
    if |ranked| > MAX_CANDIDATES {
      forall f, g | f in ranked[..MAX_CANDIDATES] && g in ranked && g !in ranked[..MAX_CANDIDATES]
        ensures RanksBefore(scores)(f, g)
      {
        var i :| 0 <= i < MAX_CANDIDATES && ranked[i] == f;
        var k := BeyondPrefix(ranked, MAX_CANDIDATES, g);
      }
    }
  }

  /** A candidate beyond the cut ranks after all kept ones, so putting it last keeps the list in order. */
  lemma SwapInLast(ranked: seq<FileId>, scores: map<FileId, int>, f: FileId)
    requires Ascending(RanksBefore(scores), ranked) && |ranked| > MAX_CANDIDATES
    requires f in ranked && f !in ranked[..MAX_CANDIDATES]
    ensures var list := ranked[..MAX_CANDIDATES][MAX_CANDIDATES - 1 := f];
            && Ascending(RanksBefore(scores), list) && f in list && (forall g | g in list :: g in ranked)
            && forall g, h | g in list && g != f && h in ranked && h !in list :: RanksBefore(scores)(g, h)
  {
    CutRanking(ranked, scores);
    var list := ranked[..MAX_CANDIDATES][MAX_CANDIDATES - 1 := f];
    assert list[MAX_CANDIDATES - 1] == f;
    forall g | g in list && g != f ensures g in ranked[..MAX_CANDIDATES - 1] {
      var i :| 0 <= i < MAX_CANDIDATES && list[i] == g;
      assert ranked[..MAX_CANDIDATES - 1][i] == g;
    }
    forall g, h | g in list && g != f && h in ranked && h !in list ensures RanksBefore(scores)(g, h) {
      var i :| 0 <= i < MAX_CANDIDATES - 1 && ranked[i] == g;
      assert list == ranked[..MAX_CANDIDATES - 1] + [f];
      var k := BeyondPrefix(ranked, MAX_CANDIDATES - 1, h);
    }
  }

  /** The shortlist is determined by the scores, the exclusions and the recommendation. */
  lemma ShortlistUnique(list: seq<FileId>, other: seq<FileId>, scores: map<FileId, int>, excluded: set<FileId>,
                        recommended: Option<FileId>)
    requires IsShortlist(list, scores, excluded, recommended) && IsShortlist(other, scores, excluded, recommended)
    ensures list == other
  {
    RanksBeforeIsTotal(scores, Elements(list));
    AscendingIsDistinct(scores, list);
    AscendingIsDistinct(scores, other);
    assert forall f :: (f in list <==> f in Elements(list)) && (f in other <==> f in Elements(other));
    SameBest(Elements(list), Elements(other), scores, scores.Keys - excluded, recommended);
    AscendingUnique(RanksBefore(scores), list, other);
  }

  lemma SameBest(list: set<FileId>, other: set<FileId>, scores: map<FileId, int>, eligible: set<FileId>,
                 recommended: Option<FileId>)
    requires |list| == |other| && list <= eligible && other <= eligible
    requires recommended.Some? && recommended.value in eligible ==> recommended.value in list && recommended.value in other
    requires forall f, g | f in list && g in eligible && g !in list :: recommended == Some(f) || RanksBefore(scores)(f, g)
    requires forall f, g | f in other && g in eligible && g !in other :: recommended == Some(f) || RanksBefore(scores)(f, g)
    ensures list == other
  {
    if list != other {
      SameSizeDiffer(list, other);
    }
  }

  lemma AscendingIsDistinct(scores: map<FileId, int>, list: seq<FileId>)
    requires Ascending(RanksBefore(scores), list)
    ensures |Elements(list)| == |list|
  {
    forall i, k | 0 <= i < k < |list| ensures list[i] != list[k] {
      assert RanksBefore(scores)(list[i], list[k]);
    }
    SizeOfDistinct(list);
  }

  lemma SameSizeDiffer(a: set<FileId>, b: set<FileId>)
    requires |a| == |b| && a != b
    ensures exists f :: f in a && f !in b
    ensures exists g :: g in b && g !in a
  {
    assert a == a * b + (a - b) && b == a * b + (b - a);
    assert |a - b| == |b - a|;
    assert a - b == {} <==> b - a == {};
    var f :| f in a - b;
    var g :| g in b - a;
  }

  // ----- Checking the opinion -----

  /** The opinion names a shortlisted file or abstains, and cites only what the packet cites. */
  predicate Admissible(o: Opinion, shortlist: seq<FileId>, refs: set<Ref>) {
    && (o.abstain ==> o.recommended.None?)
    && (!o.abstain ==> o.recommended.Some? && o.recommended.value in shortlist)
    && o.refs <= refs && 0.0 <= o.confidence <= 1.0
  }

  /** What fusion needs of an opinion: a named file is a candidate. */
  predicate Usable(o: Opinion, scores: map<FileId, int>) {
    && (if o.abstain then o.recommended.None? else o.recommended.Some? && o.recommended.value in scores)
    && 0.0 <= o.confidence <= 1.0
  }

  // ----- Fusion -----

  function Raised(scores: map<FileId, int>, o: Opinion): (r: map<FileId, int>)
    requires Usable(o, scores) && !o.abstain
    ensures r.Keys == scores.Keys && o.recommended.value in r.Keys
  {
    scores[o.recommended.value := Min(FULL, scores[o.recommended.value] + Scaled(MAX_BOOST, o.confidence))]
  }

  /** The candidate ranked first by score and then by identifier. */
  ghost function Leader(scores: map<FileId, int>): FileId
    requires scores.Keys != {}
  {
    RanksBeforeIsTotal(scores, scores.Keys);
    LeastOf(RanksBefore(scores), scores.Keys)
  }

  /** A recommendation that no rule sent to review. */
  predicate Settled(d: Decision) {
    d.recommended.Some? && !d.needsReview
  }

  function ResolutionOf(d: Decision, o: Opinion): Resolution {
    var sure := o.confidence >= HIGH_CONFIDENCE;
    if o.abstain then (if Settled(d) then DeterministicOnly else AbstainedReview)
    else if o.recommended == d.recommended && d.recommended.Some? then
      (if Settled(d) then (if sure then StrongConsensus else WeakConsensus)
       else if sure then PrioritySignal else WeakConsensus)
    else if Settled(d) then ConflictReview
    else if sure then PrioritySignal
    else WeakConsensus
  }

  ghost function Fuse(d: Decision, o: Opinion): Fusion
    requires Usable(o, d.scores)
  {
    var resolution := ResolutionOf(d, o);
    var scores := if resolution == PrioritySignal then Raised(d.scores, o) else d.scores;
    var dissent := !o.abstain && o.recommended != d.recommended;
    var recommended := if dissent && resolution == PrioritySignal then Some(Leader(scores)) else d.recommended;
    var review := d.needsReview || dissent;
    Fusion(d.(scores := scores, recommended := recommended, needsReview := review,
              selectedBy := if dissent then Unresolved else d.selectedBy),
           JudgeRecord(d.groupId, d.recommended, o.recommended, resolution, review,
                       if resolution == PrioritySignal then Scaled(MAX_BOOST, o.confidence) else 0))
  }

  method FuseJudgment(d: Decision, o: Opinion) returns (decision: Decision, judgment: JudgeRecord)
    requires Usable(o, d.scores)
    ensures Fusion(decision, judgment) == Fuse(d, o)
  {
    decision := d;
    var resolution;
    var adjustment := 0;
    var settled := d.recommended.Some? && !d.needsReview;
    if o.abstain {
      resolution := if settled then DeterministicOnly else AbstainedReview;
    } else if o.recommended == d.recommended && d.recommended.Some? {
      if settled {
        resolution := if o.confidence >= HIGH_CONFIDENCE then StrongConsensus else WeakConsensus;
      } else if o.confidence >= HIGH_CONFIDENCE {
        resolution := PrioritySignal;
        adjustment := Scaled(MAX_BOOST, o.confidence);
        var f := o.recommended.value;
        decision := decision.(scores := d.scores[f := Min(FULL, d.scores[f] + adjustment)]);
      } else {
        resolution := WeakConsensus;
      }
    } else if settled {
      resolution := ConflictReview;
      decision := decision.(needsReview := true, selectedBy := Unresolved);
    } else if o.recommended.Some? && o.confidence >= HIGH_CONFIDENCE {
      resolution := PrioritySignal;
      adjustment := Scaled(MAX_BOOST, o.confidence);
      var f := o.recommended.value;
      var scores := d.scores[f := Min(FULL, d.scores[f] + adjustment)];
      RanksBeforeIsTotal(scores, scores.Keys);
      assert f in scores.Keys;
      var first := Least(RanksBefore(scores), scores.Keys);
      decision := decision.(scores := scores, recommended := Some(first), needsReview := true, selectedBy := Unresolved);
    } else {
      resolution := WeakConsensus;
      decision := decision.(needsReview := true, selectedBy := Unresolved);
    }
    judgment := JudgeRecord(d.groupId, d.recommended, o.recommended, resolution, decision.needsReview, adjustment);
  }

  /** Fuses a batch: every decision keeps its place, and only groups with an opinion change or leave a record. */
  method FuseJudgments(decisions: seq<Decision>, opinions: map<GroupId, Opinion>)
    returns (fused: seq<Decision>, judgments: seq<JudgeRecord>)
    requires forall d <- decisions :: d.groupId in opinions ==> Usable(opinions[d.groupId], d.scores)
    ensures |fused| == |decisions|
    ensures forall i | 0 <= i < |decisions| :: fused[i] == FinalDecision(decisions[i], opinions)
    ensures judgments == Judgments(decisions, opinions)
  {
    fused, judgments := [], [];
    for n := 0 to |decisions|
      invariant |fused| == n && forall i | 0 <= i < n :: fused[i] == FinalDecision(decisions[i], opinions)
      invariant judgments == Judgments(decisions[..n], opinions)
    {
      var d := decisions[n];
      assert d in decisions && decisions[..n + 1][..n] == decisions[..n];
      if d.groupId in opinions {
        var decision, judgment := FuseJudgment(d, opinions[d.groupId]);
        fused, judgments := fused + [decision], judgments + [judgment];
      } else {
        fused := fused + [d];
      }
    }
    assert decisions[..|decisions|] == decisions;
  }

  ghost function FinalDecision(d: Decision, opinions: map<GroupId, Opinion>): Decision
    requires d.groupId in opinions ==> Usable(opinions[d.groupId], d.scores)
  {
    if d.groupId in opinions then Fuse(d, opinions[d.groupId]).decision else d
  }

  ghost function Judgments(decisions: seq<Decision>, opinions: map<GroupId, Opinion>): seq<JudgeRecord>
    requires forall d <- decisions :: d.groupId in opinions ==> Usable(opinions[d.groupId], d.scores)
  {
    if decisions == [] then []
    else
      var last := decisions[|decisions| - 1];
      assert last in decisions && forall d <- decisions[..|decisions| - 1] :: d in decisions;
      Judgments(decisions[..|decisions| - 1], opinions)
      + if last.groupId in opinions then [Fuse(last, opinions[last.groupId]).judgment] else []
  }

  // ----- What fusion may do -----

  /**
   * Fusion accepts automatically exactly when the decision was already
   * accepted and the Judge did not dissent; nothing is then changed.
   */
  lemma FusionNeverGrantsAcceptance(d: Decision, o: Opinion)
    requires Usable(o, d.scores)
    ensures !Fuse(d, o).decision.needsReview <==> !d.needsReview && (o.abstain || o.recommended == d.recommended)
    ensures !Fuse(d, o).decision.needsReview ==> Fuse(d, o).decision == d
    ensures Fuse(d, o).judgment.reviewRequired == Fuse(d, o).decision.needsReview
  {
  }

  /**
   * The audit record explains the decision: a conflict is noted exactly when
   * fusion is what sends the case to review, an adjustment exactly when the
   * Judge is heard as a priority signal, and without either the decision stands as it was.
   */
  lemma RecordExplainsDecision(d: Decision, o: Opinion)
    requires Usable(o, d.scores) && d.recommended.Some?
    ensures var f := Fuse(d, o);
            && (f.judgment.resolution == ConflictReview <==> f.decision.needsReview && !d.needsReview)
            && (f.judgment.adjustment > 0 <==> f.judgment.resolution == PrioritySignal)
            && (f.judgment.resolution == PrioritySignal <==> d.needsReview && !o.abstain && o.confidence >= HIGH_CONFIDENCE)
            && (f.judgment.resolution in {DeterministicOnly, StrongConsensus} ==> f.decision == d && !d.needsReview)
            && (f.judgment.resolution in {AbstainedReview, DeterministicOnly} <==> o.abstain)
            && f.judgment.deterministic == d.recommended && f.judgment.judge == o.recommended
  {
    if ResolutionOf(d, o) == PrioritySignal {
      SureBoostIsPositive(o.confidence);
    }
  }

  /** At most the Judge's own candidate gains, by at most 0.04 and never above one. */
  lemma FusionBoundsScores(d: Decision, o: Opinion, f: FileId)
    requires Usable(o, d.scores) && ProperScores(d.scores) && f in d.scores
    ensures Fuse(d, o).decision.scores.Keys == d.scores.Keys
    ensures d.scores[f] <= Fuse(d, o).decision.scores[f] <= Min(FULL, d.scores[f] + MAX_BOOST)
    ensures Fuse(d, o).decision.scores[f] != d.scores[f] ==> o.recommended == Some(f) && !Settled(d)
  {
  }

  lemma SureBoostIsPositive(confidence: real)
    requires HIGH_CONFIDENCE <= confidence <= 1.0
    ensures 320 <= Scaled(MAX_BOOST, confidence) <= MAX_BOOST
  {
    assert MAX_BOOST as real * confidence >= 320.0;
  }

  /** A re-ranking follows a strictly positive boost of an eligible file, so a file scored zero is never promoted. */
  lemma FusionKeepsExclusions(d: Decision, o: Opinion, excluded: set<FileId>)
    requires Usable(o, d.scores) && ProperScores(d.scores)
    requires forall f | f in excluded && f in d.scores :: d.scores[f] == 0
    requires d.recommended.Some? ==> d.recommended.value !in excluded
    requires o.recommended.Some? ==> o.recommended.value !in excluded
    ensures var r := Fuse(d, o).decision.recommended; r.Some? ==> r.value !in excluded
  {
    if !o.abstain && o.recommended != d.recommended && ResolutionOf(d, o) == PrioritySignal {
      SureBoostIsPositive(o.confidence);
      var scores := Raised(d.scores, o);
      RanksBeforeIsTotal(scores, scores.Keys);
      assert scores[o.recommended.value] > 0;
      assert scores[Leader(scores)] >= scores[o.recommended.value];
    }
  }

  // ----- Tie-breaking: selection and fusion disagree -----

  /**
   * Selection breaks ties by modification time, fusion by identifier.  When
   * the Judge dissents in a reviewed case, fusion therefore recommends a file
   * that neither the rules nor the Judge chose exactly when such a file ties
   * with the chosen one, has a smaller identifier, and the Judge's file stays behind it.
   */
  lemma ThirdFileExactly(d: Decision, o: Opinion)
    requires Usable(o, d.scores) && ProperScores(d.scores) && !o.abstain && o.confidence >= HIGH_CONFIDENCE
    requires d.needsReview && d.recommended.Some? && d.recommended.value in d.scores && o.recommended != d.recommended
    requires forall g | g in d.scores :: d.scores[g] <= d.scores[d.recommended.value]
    ensures Fuse(d, o).decision.recommended !in {d.recommended, o.recommended} <==>
            var chosen, judged := d.recommended.value, o.recommended.value;
            var raised := Min(FULL, d.scores[judged] + Scaled(MAX_BOOST, o.confidence));
            exists third | third in d.scores ::
              && third != judged && d.scores[third] == d.scores[chosen] && third < chosen
              && (raised < d.scores[chosen] || (raised == d.scores[chosen] && third < judged))
  {
    var chosen, judged := d.recommended.value, o.recommended.value;
    var scores := Raised(d.scores, o);
    RanksBeforeIsTotal(scores, scores.Keys);
    var first := Leader(scores);
    assert first == chosen || RanksBefore(scores)(first, chosen);
    assert first == judged || RanksBefore(scores)(first, judged);
    forall third | third in d.scores && third != first ensures RanksBefore(scores)(first, third) {
    }
  }

  lemma ChosenIs(scores: map<FileId, int>, files: map<FileId, FileInfo>, f: FileId)
    requires scores.Keys <= files.Keys && f in scores
    requires forall g: FileId | g in scores && g != f :: Outranks(scores, files)(f, g)
    ensures Chosen(scores, files, {}) == Some(f)
  {
    var ids := scores.Keys - {};
    assert f in ids;
    OutranksIsTotal(scores, files, ids);
    LeastUnique(Outranks(scores, files), ids, LeastOf(Outranks(scores, files), ids), f);
  }

  lemma LeaderIs(scores: map<FileId, int>, f: FileId)
    requires f in scores && forall g: FileId | g in scores && g != f :: RanksBefore(scores)(f, g)
    ensures scores.Keys != {} && Leader(scores) == f
  {
    RanksBeforeIsTotal(scores, scores.Keys);
    LeastUnique(RanksBefore(scores), scores.Keys, Leader(scores), f);
  }

  lemma LaterOfTieIsChosen(scores: map<FileId, int>, files: map<FileId, FileInfo>, first: FileId, later: FileId, judged: FileId)
    requires scores.Keys == {first, later, judged} && scores.Keys <= files.Keys
    requires scores[first] == scores[later] > scores[judged] && files[first].modifiedAt < files[later].modifiedAt
    ensures Chosen(scores, files, {}) == Some(later)
  {
    ChosenIs(scores, files, later);
  }

  lemma SmallerOfTieLeads(scores: map<FileId, int>, first: FileId, later: FileId, judged: FileId)
    requires scores.Keys == {first, later, judged} && scores[first] == scores[later] > scores[judged] && first < later
    ensures Leader(scores) == first
  {
    LeaderIs(scores, first);
  }

  /**
   * Files 1 and 2 tie at 0.5, file 2 is younger and chosen, and a Judge backs
   * file 3 at 0.1: fusion recommends file 1.
   */
  lemma ThirdFileWitness(d: Decision, o: Opinion, files: map<FileId, FileInfo>)
    requires d.scores.Keys == {1, 2, 3} && d.scores[1] == 5000 && d.scores[2] == 5000 && d.scores[3] == 1000
    requires d.scores.Keys <= files.Keys && files[1].modifiedAt < files[2].modifiedAt
    requires d.needsReview && d.recommended == Chosen(d.scores, files, {})
    requires o.recommended == Some(3) && o.confidence == 0.9 && !o.abstain
    ensures d.recommended == Some(2) && Fuse(d, o).decision.recommended == Some(1)
  {
    LaterOfTieIsChosen(d.scores, files, 1, 2, 3);
    SureBoostIsPositive(o.confidence);
    SmallerOfTieLeads(Raised(d.scores, o), 1, 2, 3);
  }

  // ----- From evidence to the fused decision -----

  /** The decision after fusion, when the Judge was heard and its opinion admitted. */
  ghost function Outcome(c: Case, o: Option<Opinion>): Decision
    requires c.WellFormed()
    requires o.Some? ==> Usable(o.value, DecisionFor(c).scores)
  {
    if o.Some? then Fuse(DecisionFor(c), o.value).decision else DecisionFor(c)
  }

  ghost predicate Heard(c: Case, o: Option<Opinion>, shortlist: seq<FileId>, refs: set<Ref>)
    requires c.WellFormed()
  {
    var d := DecisionFor(c);
    && IsShortlist(shortlist, d.scores, Excluded(c.evidence, c.group.id), d.recommended)
    && (o.Some? ==> Admissible(o.value, shortlist, refs))
  }

  lemma HeardIsUsable(c: Case, o: Option<Opinion>, shortlist: seq<FileId>, refs: set<Ref>)
    requires c.WellFormed() && Heard(c, o, shortlist, refs) && o.Some?
    ensures Usable(o.value, DecisionFor(c).scores)
    ensures o.value.recommended.Some? ==> o.value.recommended.value !in Excluded(c.evidence, c.group.id)
  {
    if !o.value.abstain {
      assert o.value.recommended.value in Elements(shortlist);
      assert o.value.recommended.value in DecisionFor(c).scores.Keys - Excluded(c.evidence, c.group.id);
    }
  }

  /** From scoring through selection, shortlist and fusion, a file excluded by evidence is never recommended. */
  lemma ExcludedIsNeverRecommended(c: Case, o: Option<Opinion>, shortlist: seq<FileId>, refs: set<Ref>)
    requires c.WellFormed() && Heard(c, o, shortlist, refs)
    ensures o.Some? ==> Usable(o.value, DecisionFor(c).scores)
    ensures var r := Outcome(c, o).recommended; r.Some? ==> r.value !in Excluded(c.evidence, c.group.id)
  {
    DecisionPassesValidationExactly(c);
    FinalScoresProper(c);
    if o.Some? {
      HeardIsUsable(c, o, shortlist, refs);
      FusionKeepsExclusions(DecisionFor(c), o.value, Excluded(c.evidence, c.group.id));
    }
  }

  /**
   * The whole chain accepts automatically exactly when the threshold is valid, a
   * file is convincing and the Judge, if heard, abstains or agrees.
   */
  lemma AutomaticEndToEnd(c: Case, o: Option<Opinion>)
    requires c.WellFormed()
    requires o.Some? ==> Usable(o.value, DecisionFor(c).scores)
    ensures !Outcome(c, o).needsReview <==>
            !c.BadThreshold()
            && exists w: FileId :: Convincing(c, FinalScores(c), w) && (o.None? || o.value.abstain || o.value.recommended == Some(w))
    ensures !Outcome(c, o).needsReview ==> Outcome(c, o) == DecisionFor(c)
  {
    AutomaticExactlyWhenConvincing(c);
    var d := DecisionFor(c);
    if o.Some? {
      FusionNeverGrantsAcceptance(d, o.value);
    }
    if !Outcome(c, o).needsReview {
      var w: FileId :| Convincing(c, FinalScores(c), w);
      assert d.recommended == Some(w);
    }
  }

  // ----- Risk flags -----

  datatype Flag = BranchPresent | ChainIncomplete | RelationReviewRequired | HighSignificance | EvidenceReviewRequired

  /** The text that is stored for an action. */
  function ActionText(a: Action): string {
    match a
    case ScoreBoost => "score_boost"
    case ExcludeAndReview => "exclude_and_review"
    case ExcludeCandidate => "exclude_candidate"
    case ForceHumanReview => "force_human_review"
    case NoAction => "none"
  }

  function RiskFlags(c: Case): set<Flag> {
    (if c.Branched() then {BranchPresent} else {})
    + (if !c.chain.complete then {ChainIncomplete} else {})
    + (if c.RelationReview() then {RelationReviewRequired} else {})
    + (if c.HighRisk() then {HighSignificance} else {})
    + (if exists r <- c.evidence :: r.groupId == c.group.id && ActionText(r.action) == "human_review"
       then {EvidenceReviewRequired} else {})
  }

  /** A group with any risk flag is always reviewed. */
  lemma FlaggedIsReviewed(c: Case)
    requires c.WellFormed()
    ensures RiskFlags(c) != {} ==> DecisionFor(c).needsReview
  {
    EvidenceFlagIsNeverRaised(c);
  }

  /** The flag for evidence that demands a review compares with a text no action has, so it is never raised. */
  lemma EvidenceFlagIsNeverRaised(c: Case)
    ensures EvidenceReviewRequired !in RiskFlags(c)
  {
    forall a: Action ensures ActionText(a) != "human_review" {
      assert ActionText(ExcludeAndReview)[0] == 'e' && ActionText(ExcludeCandidate)[0] == 'e';
      assert |ActionText(ForceHumanReview)| != |"human_review"|;
    }
  }

  /** Even a revision request, which forces a review, leaves the flags empty. */
  lemma EvidenceFlagWitness()
    ensures var request := Analysis(RequiresRevision, RevisionRequired, 1, None, ["r"], 1.0);
            var c := Case(Group(0, [1]), map[], Chain(0, {}, {}, true), map[], [], [], [RecordOf(0, request)], [], [], 0.82);
            HasReviewEvidence(c.evidence, 0) && RiskFlags(c) == {}
  {
    var r := RecordOf(0, Analysis(RequiresRevision, RevisionRequired, 1, None, ["r"], 1.0));
    var c := Case(Group(0, [1]), map[], Chain(0, {}, {}, true), map[], [], [], [r], [], [], 0.82);
    assert r in c.evidence;
    EvidenceFlagIsNeverRaised(c);
  }
}
