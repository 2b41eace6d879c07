/**
 * Recommending a main version for one group: evidence adjusts the candidate
 * scores, the best eligible candidate is chosen, and a fixed set of rules
 * decides whether the choice may stand without a human.
 * Identifiers and file names are represented by their rank in string order.
 */
module Recommendation {
  import opened Options
  import opened Sorting
  import opened Arithmetic
  import opened BusinessEvidence

  const NEAR_TIE := 800

  datatype Mark = Unmarked | FinalMark | ConfirmedMark

  datatype FileInfo = FileInfo(modifiedAt: nat, name: nat, editable: bool, pdf: bool, duplicate: bool, mark: Mark)

  datatype Group = Group(id: GroupId, fileIds: seq<FileId>)

  datatype Chain = Chain(groupId: GroupId, ordered: set<FileId>, leaves: set<FileId>, complete: bool)

  datatype PdfExport = PdfExport(groupId: GroupId, pdf: FileId, source: Option<FileId>, confidence: real)

  datatype Priority = NotAssessed | Low | Medium | High

  datatype Diff = Diff(groupId: GroupId, priority: Priority, relationReview: bool)

  datatype Source = Rule | Unresolved | Human

  datatype Decision = Decision(groupId: GroupId, scores: map<FileId, int>, recommended: Option<FileId>,
                               confidence: int, needsReview: bool, selectedBy: Source, preserve: seq<FileId>)

  // ----- Base scores -----

  /** The members that are no duplicates, in group order; an identifier listed twice appears twice. */
  function CandidateList(ids: seq<FileId>, files: map<FileId, FileInfo>): (r: seq<FileId>)
    ensures forall f :: f in r <==> f in ids && f in files && !files[f].duplicate
  {
    if ids == [] then []
    else
      var last := ids[|ids| - 1];
      assert ids == ids[..|ids| - 1] + [last];
      CandidateList(ids[..|ids| - 1], files) + if last in files && !files[last].duplicate then [last] else []
  }

  function Candidates(group: Group, files: map<FileId, FileInfo>): set<FileId> {
    set f | f in group.fileIds && f in files && !files[f].duplicate
  }

  function Clamp(x: int): int { Max(0, Min(FULL, x)) }

  predicate Newest(f: FileId, files: map<FileId, FileInfo>, candidates: seq<FileId>)
    requires f in files && forall g <- candidates :: g in files
  {
    forall g <- candidates :: files[g].modifiedAt <= files[f].modifiedAt
  }

  function BaseScore(f: FileId, files: map<FileId, FileInfo>, candidates: seq<FileId>, chain: Chain): int
    requires f in candidates && forall g <- candidates :: g in files
  {
    if |candidates| == 1 then FULL
    else
      var info := files[f];
      Clamp(1500
            + (if f in chain.leaves then 3500 else 0)
            + (if info.editable then 1800 else 0)
            + (if Newest(f, files, candidates) then 1800 else 0)
            + (match info.mark case ConfirmedMark => 1400 case FinalMark => 800 case Unmarked => 0)
            + (if chain.complete then 500 else 0)
            - (if info.pdf && exists g <- candidates :: files[g].editable then 1000 else 0))
  }

  function BaseScores(files: map<FileId, FileInfo>, candidates: seq<FileId>, chain: Chain): map<FileId, int>
    requires forall g <- candidates :: g in files
  {
    map f | f in candidates :: BaseScore(f, files, candidates, chain)
  }

  method CollectCandidates(group: Group, files: map<FileId, FileInfo>) returns (r: Result<seq<FileId>>)
    ensures r.Err? <==> exists f <- group.fileIds :: f !in files
    ensures r.Ok? ==> r.value == CandidateList(group.fileIds, files)
  {
    var candidates := [];
    for n := 0 to |group.fileIds|
      invariant forall f <- group.fileIds[..n] :: f in files
      invariant candidates == CandidateList(group.fileIds[..n], files)
    {
      var f := group.fileIds[n];
      assert group.fileIds[..n + 1] == group.fileIds[..n] + [f] && group.fileIds[..n + 1][..n] == group.fileIds[..n];
      if f !in files {
        return Err(ValueError);
      }
      if !files[f].duplicate {
        candidates := candidates + [f];
      }
    }
    assert group.fileIds[..|group.fileIds|] == group.fileIds;
    return Ok(candidates);
  }

  method ScoreCandidates(group: Group, files: map<FileId, FileInfo>, chain: Chain) returns (r: Result<map<FileId, int>>)
    ensures r.Err? <==> (exists f <- group.fileIds :: f !in files) || chain.groupId != group.id
    ensures r.Ok? ==> r.value == BaseScores(files, CandidateList(group.fileIds, files), chain)
  {
    var candidates :- CollectCandidates(group, files);
    if chain.groupId != group.id {
      return Err(ValueError);
    }
    var scores := map[];
    for n := 0 to |candidates|
      invariant forall f :: f in scores <==> f in candidates[..n]
      invariant forall f | f in scores :: f in candidates && scores[f] == BaseScore(f, files, candidates, chain)
    {
      var f := candidates[n];
      assert f in candidates && candidates[..n + 1] == candidates[..n] + [f];
      var score := ScoreCandidate(f, files, candidates, chain);
      scores := scores[f := score];
    }
    assert candidates[..|candidates|] == candidates;
    return Ok(scores);
  }

  /** The body of the scoring loop. */
  method ScoreCandidate(f: FileId, files: map<FileId, FileInfo>, candidates: seq<FileId>, chain: Chain)
    returns (score: int)
    requires f in candidates && forall g <- candidates :: g in files
    ensures score == BaseScore(f, files, candidates, chain)
  {
    if |candidates| == 1 {
      return FULL;
    }
    var info := files[f];
    score := 1500;
    if f in chain.leaves {
      score := score + 3500;
    }
    if info.editable {
      score := score + 1800;
    }
    if forall g <- candidates :: files[g].modifiedAt <= info.modifiedAt {
      score := score + 1800;
    }
    if info.mark.ConfirmedMark? {
      score := score + 1400;
    } else if info.mark.FinalMark? {
      score := score + 800;
    }
    if chain.complete {
      score := score + 500;
    }
    if info.pdf && exists g <- candidates :: files[g].editable {
      score := score - 1000;
    }
    score := Clamp(score);
  }

  /** However recent and well named, a file that is not a leaf scores at most 0.7 among several candidates. */
  lemma NonLeafIsBounded(f: FileId, files: map<FileId, FileInfo>, candidates: seq<FileId>, chain: Chain)
    requires f in candidates && (forall g <- candidates :: g in files) && |candidates| > 1 && f !in chain.leaves
    ensures 0 <= BaseScore(f, files, candidates, chain) <= 7000
  {
  }

  // ----- Delivery and PDF evidence -----

  ghost predicate ProperDeliveries(deliveries: seq<Delivery>) {
    forall d | d in deliveries :: 0.0 <= d.confidence <= 1.0
  }

  ghost predicate ProperExports(exports: seq<PdfExport>) {
    forall e | e in exports :: 0.0 <= e.confidence <= 1.0
  }

  /** A confirmation weighs more than a mere delivery. */
  function DeliveryBoost(d: Delivery): (r: int)
    requires 0.0 <= d.confidence <= 1.0
    ensures 0 <= r <= 1800
  {
    Scaled(if d.confirmed then 1800 else 1000, d.confidence)
  }

  function DeliveryAmount(f: FileId): Delivery -> int {
    (d: Delivery) => if d.fileId == Some(f) && 0.0 <= d.confidence <= 1.0 then DeliveryBoost(d) else 0
  }

  function DeliveryScores(scores: map<FileId, int>, deliveries: seq<Delivery>): map<FileId, int> {
    map f | f in scores :: Min(FULL, scores[f] + Total(deliveries, DeliveryAmount(f)))
  }

  /** A delivery of a candidate that claims to belong to another group. */
  predicate Foreign(d: Delivery, candidates: set<FileId>, groupId: GroupId) {
    d.fileId.Some? && d.fileId.value in candidates && d.groupId != Some(groupId)
  }

  method ApplyDeliveries(start: map<FileId, int>, groupId: GroupId,
                         deliveries: seq<Delivery>) returns (r: Result<map<FileId, int>>)
    requires ProperScores(start) && ProperDeliveries(deliveries)
    ensures r.Err? <==> exists d <- deliveries :: Foreign(d, start.Keys, groupId)
    ensures r.Ok? ==> r.value == DeliveryScores(start, deliveries)
  {
    var scores := start;
    for n := 0 to |deliveries|
      invariant AllDelivered(scores, start, deliveries[..n])
      invariant forall d <- deliveries[..n] :: !Foreign(d, start.Keys, groupId)
    {
      var d := deliveries[n];
      assert d in deliveries && deliveries[..n + 1] == deliveries[..n] + [d];
      if d.fileId.Some? && d.fileId.value in scores && d.groupId != Some(groupId) {
        return Err(ValueError);
      }
      DeliveredNext(scores, start, deliveries[..n], d);
      scores := Delivered(scores, d);
    }
    assert deliveries[..|deliveries|] == deliveries;
    assert scores == DeliveryScores(start, deliveries);
    return Ok(scores);
  }

  /** The scores after one delivery. */
  function Delivered(scores: map<FileId, int>, d: Delivery): map<FileId, int>
    requires 0.0 <= d.confidence <= 1.0
  {
    if d.fileId.Some? && d.fileId.value in scores
    then scores[d.fileId.value := Min(FULL, scores[d.fileId.value] + DeliveryBoost(d))]
    else scores
  }

  ghost predicate AllDelivered(scores: map<FileId, int>, start: map<FileId, int>, deliveries: seq<Delivery>) {
    && scores.Keys == start.Keys
    && forall f | f in start :: scores[f] == Min(FULL, start[f] + Total(deliveries, DeliveryAmount(f)))
  }

  lemma DeliveredNext(scores: map<FileId, int>, start: map<FileId, int>, deliveries: seq<Delivery>, d: Delivery)
    requires 0.0 <= d.confidence <= 1.0 && AllDelivered(scores, start, deliveries)
    ensures AllDelivered(Delivered(scores, d), start, deliveries + [d])
  {
    forall f | f in start
      ensures Delivered(scores, d)[f] == Min(FULL, start[f] + Total(deliveries + [d], DeliveryAmount(f)))
    {
      DeliveredOne(start[f], deliveries, d, f);
    }
  }

  lemma DeliveredOne(score: int, deliveries: seq<Delivery>, d: Delivery, f: FileId)
    requires 0.0 <= d.confidence <= 1.0
    ensures Min(FULL, score + Total(deliveries + [d], DeliveryAmount(f)))
            == var before := Min(FULL, score + Total(deliveries, DeliveryAmount(f)));
               if d.fileId == Some(f) then Min(FULL, before + DeliveryBoost(d)) else before
  {
    NextTotal(deliveries, d, DeliveryAmount(f));
    assert DeliveryAmount(f)(d) == if d.fileId == Some(f) then DeliveryBoost(d) else 0;
  }

  lemma DeliveryScoresProper(start: map<FileId, int>, deliveries: seq<Delivery>)
    requires ProperScores(start)
    ensures ProperScores(DeliveryScores(start, deliveries)) && DeliveryScores(start, deliveries).Keys == start.Keys
  {
    forall f | f in start ensures Total(deliveries, DeliveryAmount(f)) >= 0 {
      TotalNonNegative(deliveries, DeliveryAmount(f));
    }
  }

  /** The exports of the group that name their source. */
  predicate Relevant(e: PdfExport, groupId: GroupId) {
    e.groupId == groupId && e.source.Some?
  }

  predicate SourcesKnown(candidates: set<FileId>, groupId: GroupId, exports: seq<PdfExport>) {
    forall e <- exports :: Relevant(e, groupId) ==> e.source.value in candidates
  }

  function PdfStep(scores: map<FileId, int>, e: PdfExport): map<FileId, int>
    requires e.source.Some? && e.source.value in scores && 0.0 <= e.confidence <= 1.0
  {
    var raised := scores[e.source.value := Min(FULL, scores[e.source.value] + Scaled(1000, e.confidence))];
    if e.pdf in scores && e.pdf != e.source.value
    then raised[e.pdf := Max(0, raised[e.pdf] - Scaled(600, e.confidence))]
    else raised
  }

  ghost function PdfScores(scores: map<FileId, int>, groupId: GroupId, exports: seq<PdfExport>): (r: map<FileId, int>)
    requires ProperExports(exports) && SourcesKnown(scores.Keys, groupId, exports)
    ensures r.Keys == scores.Keys && (ProperScores(scores) ==> ProperScores(r))
  {
    if exports == [] then scores
    else
      var last := exports[|exports| - 1];
      var before := PdfScores(scores, groupId, exports[..|exports| - 1]);
      assert last in exports;
      if Relevant(last, groupId) then PdfStep(before, last) else before
  }

  method ApplyPdfSources(start: map<FileId, int>, groupId: GroupId, exports: seq<PdfExport>) returns (r: Result<map<FileId, int>>)
    requires ProperScores(start) && ProperExports(exports)
    ensures r.Ok? <==> SourcesKnown(start.Keys, groupId, exports)
    ensures r.Ok? ==> r.value == PdfScores(start, groupId, exports)
  {
    var scores := start;
    for n := 0 to |exports|
      invariant SourcesKnown(start.Keys, groupId, exports[..n])
      invariant scores == PdfScores(start, groupId, exports[..n])
    {
      var e := exports[n];
      assert e in exports && exports[..n + 1] == exports[..n] + [e] && exports[..n + 1][..n] == exports[..n];
      if e.groupId != groupId || e.source.None? {
        continue;
      }
      if e.source.value !in scores {
        return Err(ValueError);
      }
      var boost := Scaled(1000, e.confidence);
      var penalty := Scaled(600, e.confidence);
      scores := scores[e.source.value := Min(FULL, scores[e.source.value] + boost)];
      if e.pdf in scores && e.pdf != e.source.value {
        scores := scores[e.pdf := Max(0, scores[e.pdf] - penalty)];
      }
    }
    assert exports[..|exports|] == exports;
    return Ok(scores);
  }

  function SourceAmount(groupId: GroupId, f: FileId): PdfExport -> int {
    (e: PdfExport) =>
      if e.groupId == groupId && e.source == Some(f) && 0.0 <= e.confidence <= 1.0 then Scaled(1000, e.confidence) else 0
  }

  function ExportAmount(groupId: GroupId, f: FileId): PdfExport -> int {
    (e: PdfExport) =>
      if Relevant(e, groupId) && e.pdf == f && e.source != Some(f) && 0.0 <= e.confidence <= 1.0
      then Scaled(600, e.confidence) else 0
  }

  /** A file that is only ever a source gains all its boosts. */
  lemma {:induction false} SourceScoreClosedForm(scores: map<FileId, int>, groupId: GroupId, exports: seq<PdfExport>, f: FileId)
    requires ProperScores(scores) && ProperExports(exports) && SourcesKnown(scores.Keys, groupId, exports) && f in scores
    requires forall e <- exports :: Relevant(e, groupId) && e.pdf == f ==> e.source == Some(f)
    ensures PdfScores(scores, groupId, exports)[f] == Min(FULL, scores[f] + Total(exports, SourceAmount(groupId, f)))
  {
    if exports != [] {
      var rest, last := exports[..|exports| - 1], exports[|exports| - 1];
      assert last in exports && forall e <- rest :: e in exports;
      SourceScoreClosedForm(scores, groupId, rest, f);
      assert SourceAmount(groupId, f)(last) >= 0;
    }
  }

  /** A file that is only ever an export loses all its penalties. */
  lemma {:induction false} ExportScoreClosedForm(scores: map<FileId, int>, groupId: GroupId, exports: seq<PdfExport>, f: FileId)
    requires ProperScores(scores) && ProperExports(exports) && SourcesKnown(scores.Keys, groupId, exports) && f in scores
    requires forall e <- exports :: Relevant(e, groupId) ==> e.source != Some(f)
    ensures PdfScores(scores, groupId, exports)[f] == Max(0, scores[f] - Total(exports, ExportAmount(groupId, f)))
  {
    if exports != [] {
      var rest, last := exports[..|exports| - 1], exports[|exports| - 1];
      assert last in exports && forall e <- rest :: e in exports;
      ExportScoreClosedForm(scores, groupId, rest, f);
      assert ExportAmount(groupId, f)(last) >= 0;
    }
  }

  // ----- Choosing a candidate -----

  /** Higher score first, then later modification, then greater name, then greater identifier. */
  function Outranks(scores: map<FileId, int>, files: map<FileId, FileInfo>): (FileId, FileId) -> bool {
    (a: FileId, b: FileId) =>
      a in scores && b in scores && a in files && b in files &&
      (scores[a] > scores[b] || (scores[a] == scores[b] &&
        (files[a].modifiedAt > files[b].modifiedAt || (files[a].modifiedAt == files[b].modifiedAt &&
          (files[a].name > files[b].name || (files[a].name == files[b].name && a > b))))))
  }

  lemma OutranksIsTotal(scores: map<FileId, int>, files: map<FileId, FileInfo>, ids: set<FileId>)
    requires ids <= scores.Keys && ids <= files.Keys
    ensures TotalOn(Outranks(scores, files), ids)
  {
  }

  /** Higher score first, then smaller identifier. */
  function RanksBefore(scores: map<FileId, int>): (FileId, FileId) -> bool {
    (a: FileId, b: FileId) => a in scores && b in scores && (scores[a] > scores[b] || (scores[a] == scores[b] && a < b))
  }

  lemma RanksBeforeIsTotal(scores: map<FileId, int>, ids: set<FileId>)
    requires ids <= scores.Keys
    ensures TotalOn(RanksBefore(scores), ids)
  {
  }

  ghost function Chosen(scores: map<FileId, int>, files: map<FileId, FileInfo>, excluded: set<FileId>): (r: Option<FileId>)
    requires scores.Keys <= files.Keys
    ensures r.None? <==> scores.Keys <= excluded
    ensures r.Some? ==> r.value in scores && r.value !in excluded
    ensures r.Some? ==> forall g | g in scores && g !in excluded :: scores[g] <= scores[r.value]
  {
    var eligible := scores.Keys - excluded;
    assert eligible == {} <==> scores.Keys <= excluded by {
      assert forall f :: f in eligible <==> f in scores && f !in excluded;
    }
    OutranksIsTotal(scores, files, eligible);
    if eligible == {} then None else
      var best := LeastOf(Outranks(scores, files), eligible);
      assert forall g | g in scores && g !in excluded :: g in eligible && (g == best || Outranks(scores, files)(best, g));
      Some(best)
  }

  method SelectRecommended(scores: map<FileId, int>, files: map<FileId, FileInfo>, excluded: set<FileId>)
    returns (r: Result<Option<FileId>>)
    ensures r.Err? <==> !(scores.Keys <= excluded) && !(scores.Keys <= files.Keys)
    ensures r.Ok? && scores.Keys <= files.Keys ==> r.value == Chosen(scores, files, excluded)
    ensures scores.Keys <= excluded ==> r == Ok(None)
  {
    var eligible := scores.Keys - excluded;
    assert forall f :: f in eligible <==> f in scores && f !in excluded;
    if eligible == {} {
      return Ok(None);
    }
    var f :| f in eligible;
    assert !(scores.Keys <= excluded);
    if !(scores.Keys <= files.Keys) {
      return Err(ValueError);
    }
    OutranksIsTotal(scores, files, eligible);
    var best := Least(Outranks(scores, files), eligible);
    return Ok(Some(best));
  }

  // ----- Confidence -----

  /** 0.65 of the winning score plus 0.35 of the lead, which counts fully from 0.25 on; in units of a hundredth of a ten-thousandth. */
  function RawConfidence(top: int, margin: int): int {
    65 * top + Min(140 * Max(margin, 0), 350000)
  }

  function Rounded(raw: int): int {
    (Max(0, Min(1000000, raw)) + 50) / 100
  }

  /** The second entry of the scores in descending order. */
  ghost function RunnerUp(scores: map<FileId, int>): int
    requires |scores| > 1
  {
    RanksBeforeIsTotal(scores, scores.Keys);
    var first := LeastOf(RanksBefore(scores), scores.Keys);
    assert |scores.Keys - {first}| == |scores| - 1;
    RanksBeforeIsTotal(scores, scores.Keys - {first});
    scores[LeastOf(RanksBefore(scores), scores.Keys - {first})]
  }

  ghost function MarginOf(scores: map<FileId, int>, winner: FileId): int
    requires winner in scores
  {
    if |scores| == 1 then FULL else assert |scores| != 0; scores[winner] - RunnerUp(scores)
  }

  ghost function ConfidenceOf(scores: map<FileId, int>, winner: FileId, complete: bool, branched: bool): int
    requires winner in scores
  {
    Rounded((if |scores| == 1 then 1000000 else RawConfidence(scores[winner], MarginOf(scores, winner)))
            - (if complete then 0 else 150000) - (if branched then 250000 else 0))
  }

  /** Confidence, and whether the score rules alone ask for a review. */
  method CalculateConfidence(scores: map<FileId, int>, recommended: Option<FileId>, complete: bool, branched: bool,
                             threshold: real)
    returns (confidence: int, review: bool)
    requires recommended.Some? ==> recommended.value in scores
    ensures recommended.None? ==> confidence == 0 && review
    ensures recommended.Some? ==>
              && confidence == ConfidenceOf(scores, recommended.value, complete, branched)
              && (review <==> || branched || !complete || confidence as real / 10000.0 < threshold
                              || (|scores| > 1 && MarginOf(scores, recommended.value) < NEAR_TIE))
  {
    if recommended.None? {
      return 0, true;
    }
    var winner := recommended.value;
    var margin := FULL;
    var raw := 1000000;
    assert |scores| != 0;
    if |scores| > 1 {
      RanksBeforeIsTotal(scores, scores.Keys);
      var first := Least(RanksBefore(scores), scores.Keys);
      var rest := scores.Keys - {first};
      assert |rest| == |scores| - 1;
      RanksBeforeIsTotal(scores, rest);
      var second := Least(RanksBefore(scores), rest);
      margin := scores[winner] - scores[second];
      raw := RawConfidence(scores[winner], margin);
    }
    if !complete {
      raw := raw - 150000;
    }
    if branched {
      raw := raw - 250000;
    }
    confidence := Rounded(raw);
    var nearTie := |scores| > 1 && margin < NEAR_TIE;
    review := branched || !complete || nearTie || confidence as real / 10000.0 < threshold;
  }

  /** An incomplete chain costs exactly 0.15 and a branch exactly 0.25, but never more than there is. */
  lemma PenaltiesAreExact(scores: map<FileId, int>, winner: FileId, complete: bool, branched: bool)
    requires ProperScores(scores) && winner in scores
    ensures ConfidenceOf(scores, winner, complete, branched)
            == Max(0, ConfidenceOf(scores, winner, true, false) - (if complete then 0 else 1500) - (if branched then 2500 else 0))
  {
  }

  /** For a winner no one outscores, the runner-up is the closest rival. */
  lemma MarginIsLead(scores: map<FileId, int>, winner: FileId) returns (rival: FileId)
    requires winner in scores && |scores| > 1 && forall g | g in scores :: scores[g] <= scores[winner]
    ensures rival in scores && rival != winner && MarginOf(scores, winner) == scores[winner] - scores[rival]
    ensures forall g | g in scores && g != winner :: scores[g] <= scores[rival]
  {
    LeaderIsHighest(scores, scores.Keys);
    var first := LeastOf(RanksBefore(scores), scores.Keys);
    var rest := scores.Keys - {first};
    assert |rest| == |scores| - 1;
    LeaderIsHighest(scores, rest);
    var second := LeastOf(RanksBefore(scores), rest);
    assert scores[first] == scores[winner];
    rival := if second == winner then first else second;
    forall g | g in scores && g != winner ensures scores[g] <= scores[rival] {
      assert g == first || g in rest;
    }
  }

  lemma LeaderIsHighest(scores: map<FileId, int>, ids: set<FileId>)
    requires ids <= scores.Keys && ids != {}
    ensures TotalOn(RanksBefore(scores), ids)
    ensures forall g | g in ids :: scores[g] <= scores[LeastOf(RanksBefore(scores), ids)]
  {
    RanksBeforeIsTotal(scores, ids);
    var first := LeastOf(RanksBefore(scores), ids);
    forall g | g in ids ensures scores[g] <= scores[first] {
      assert g == first || RanksBefore(scores)(first, g);
    }
  }
}
