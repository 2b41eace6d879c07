/** Matching a PDF to the editable file it was exported from.  Scores are whole ten-thousandths. */
module PdfMatching {
  import opened Options
  import opened Arithmetic
  import opened Sorting
  import opened GroupIndex

  const FULL := 10000
  const MIN_MARGIN := 500

  datatype Extension = Pdf | Editable | OtherFormat

  datatype FileRecord = FileRecord(extension: Extension, parsed: bool, duplicateOf: Option<FileId>)

  datatype JobStatus = Pending | Running | Completed | Failed

  datatype Job = Job(groupId: GroupId, pdf: FileId, candidates: seq<FileId>, status: JobStatus)

  datatype Export = Export(groupId: GroupId, pdf: FileId, source: Option<FileId>, score: nat, confidence: nat)

  // ----- The score of one candidate -----

  /** What the comparison of a PDF with one candidate found; `sameDigest` needs a non-empty digest. */
  datatype Comparison = Comparison(content: real, key: real, sharedTopic: bool, plausibleTime: bool, sameDigest: bool) {
    ghost predicate Valid() { 0.0 <= content <= 1.0 && 0.0 <= key <= 1.0 }
  }

  function CandidateScore(c: Comparison): int {
    var raw := 0.65 * c.content + 0.20 * c.key + (if c.sharedTopic then 0.10 else 0.0) + (if c.plausibleTime then 0.05 else 0.0);
    var score := if c.sameDigest && raw < 0.98 then 0.98 else raw;
    ((if score < 0.0 then 0.0 else if score > 1.0 then 1.0 else score) * 10000.0 + 0.5).Floor
  }

  /** Without an equal digest a full score needs everything to agree; an equal digest alone is always enough to match. */
  lemma CandidateScoreLaws(c: Comparison)
    requires c.Valid()
    ensures 0 <= CandidateScore(c) <= FULL
    ensures c.sameDigest ==> CandidateScore(c) >= 9800
    ensures !c.sameDigest && !c.sharedTopic && !c.plausibleTime ==> CandidateScore(c) <= 8500
    ensures c.content == 0.0 && !c.sameDigest ==> CandidateScore(c) <= 3500
  {
  }

  // ----- The match -----

  ghost predicate Proper(score: FileId -> nat) {
    forall f :: score(f) <= FULL
  }

  function Better(score: FileId -> nat): (FileId, FileId) -> bool {
    (a: FileId, b: FileId) => score(a) > score(b) || (score(a) == score(b) && a > b)
  }

  lemma BetterIsTotal(score: FileId -> nat, ids: set<FileId>)
    ensures TotalOn(Better(score), ids)
  {
  }

  ghost function Best(score: FileId -> nat, ids: set<FileId>): FileId
    requires ids != {}
  {
    BetterIsTotal(score, ids);
    LeastOf(Better(score), ids)
  }

  predicate Reaches(score: nat, threshold: real) {
    score as real / 10000.0 >= threshold
  }

  /** The candidate reaches the threshold and leads every other by the minimum margin. */
  ghost predicate StandsOut(f: FileId, candidates: set<FileId>, score: FileId -> nat, threshold: real) {
    && f in candidates && Reaches(score(f), threshold)
    && forall g <- candidates :: g == f || score(f) - score(g) >= MIN_MARGIN
  }

  ghost function Lead(score: FileId -> nat, candidates: set<FileId>): int
    requires candidates != {}
  {
    var best := Best(score, candidates);
    var rest := candidates - {best};
    if rest == {} then FULL else score(best) - score(Best(score, rest))
  }

  ghost function ExportOf(groupId: GroupId, pdf: FileId, candidates: set<FileId>, score: FileId -> nat, threshold: real): Export {
    if candidates == {} then Export(groupId, pdf, None, 0, 0)
    else
      var best := Best(score, candidates);
      var top := score(best);
      if !Reaches(top, threshold) then Export(groupId, pdf, None, top, top)
      else if Lead(score, candidates) < MIN_MARGIN then Export(groupId, pdf, None, top, (6 * top + 5) / 10)
      else Export(groupId, pdf, Some(best), top, Min(FULL, (8 * top + 10 * Min(Lead(score, candidates), 2000) + 5) / 10))
  }

  /** The job refers only to what a PDF match may compare. */
  predicate Matchable(job: Job, files: map<FileId, FileRecord>) {
    && job.pdf in files && files[job.pdf].extension == Pdf
    && Distinct(job.candidates)
    && forall f <- job.candidates :: f in files && files[f].extension == Editable
  }

  method MatchPdfToSourceVersion(job: Job, files: map<FileId, FileRecord>, score: FileId -> nat, threshold: real)
    returns (r: Result<Export>)
    requires Proper(score)
    ensures r.Ok? <==> 0.0 <= threshold <= 1.0 && Matchable(job, files)
    ensures r.Ok? ==> r.value == ExportOf(job.groupId, job.pdf, Elements(job.candidates), score, threshold)
  {
    if threshold < 0.0 || threshold > 1.0 || !Matchable(job, files) {
      return Err(ValueError);
    }
    ghost var ids := Elements(job.candidates);
    BetterIsTotal(score, ids);
    var ranked := SortBy(Better(score), job.candidates);
    if ranked == [] {
      assert ids == {};
      return Ok(Export(job.groupId, job.pdf, None, 0, 0));
    }
    FirstTwo(ranked, ids, score);
    var top := score(ranked[0]);
    var margin := if |ranked| > 1 then top - score(ranked[1]) else FULL;
    if !Reaches(top, threshold) {
      return Ok(Export(job.groupId, job.pdf, None, top, top));
    }
    if |ranked| > 1 && margin < MIN_MARGIN {
      return Ok(Export(job.groupId, job.pdf, None, top, (6 * top + 5) / 10));
    }
    return Ok(Export(job.groupId, job.pdf, Some(ranked[0]), top, Min(FULL, (8 * top + 10 * Min(margin, 2000) + 5) / 10)));
  }

  lemma FirstTwo(ranked: seq<FileId>, ids: set<FileId>, score: FileId -> nat)
    requires Ascending(Better(score), ranked) && Elements(ranked) == ids && |ranked| > 0
    ensures ids != {} && ranked[0] == Best(score, ids)
    ensures Lead(score, ids) == if |ranked| > 1 then score(ranked[0]) - score(ranked[1]) else FULL
  {
    BetterIsTotal(score, ids);
    assert ranked[0] in ids;
    LeastUnique(Better(score), ids, ranked[0], Best(score, ids));
    var rest := ids - {ranked[0]};
    assert rest == Elements(ranked[1..]) by {
      assert ranked == [ranked[0]] + ranked[1..];
      assert forall i | 1 <= i < |ranked| :: Better(score)(ranked[0], ranked[i]);
    }
    if |ranked| > 1 {
      assert ranked[1] == ranked[1..][0] && ranked[1] in rest;
      BetterIsTotal(score, rest);
      LeastUnique(Better(score), rest, ranked[1], Best(score, rest));
    }
  }

  /**
   * A source is named exactly when it reaches the threshold and leads every
   * other candidate by 0.05.  The export depends on the set of candidates
   * only, and its confidence stays in [0, 1].
   */
  lemma SourceIsNamedIffItStandsOut(groupId: GroupId, pdf: FileId, candidates: set<FileId>, score: FileId -> nat,
                                    threshold: real, f: FileId)
    requires Proper(score)
    ensures ExportOf(groupId, pdf, candidates, score, threshold).source == Some(f) <==> StandsOut(f, candidates, score, threshold)
  {
    if candidates != {} {
      BetterIsTotal(score, candidates);
      var best := Best(score, candidates);
      var rest := candidates - {best};
      if rest != {} {
        BetterIsTotal(score, rest);
        var second := Best(score, rest);
        assert second in candidates;
        assert forall g <- candidates :: g == best || g in rest;
        assert forall g <- rest :: score(g) <= score(second);
      } else {
        assert forall g <- candidates :: g == best || g in rest;
      }
      if f in candidates && f != best {
        assert score(f) <= score(best);
      }
    }
  }

  lemma ExportIsInRange(groupId: GroupId, pdf: FileId, candidates: set<FileId>, score: FileId -> nat, threshold: real)
    requires Proper(score)
    ensures var e := ExportOf(groupId, pdf, candidates, score, threshold);
            && e.score <= FULL && e.confidence <= FULL
            && (e.source.Some? ==> Reaches(e.score, threshold) && e.source.value in candidates && e.score == score(e.source.value))
            && (e.source.None? && candidates != {} && Reaches(e.score, threshold) ==> 10 * e.confidence <= 6 * e.score + 5)
  {
  }

  /** The score is 0.65 of the contents, 0.20 of the key fields, 0.10 for the topic and 0.05 for the times, and at least 0.98 for an equal digest. */
  lemma CandidateScoreIsWeighted(c: Comparison)
    requires c.Valid()
    ensures var parts := 0.65 * c.content + 0.2 * c.key + (if c.sharedTopic then 0.1 else 0.0) + (if c.plausibleTime then 0.05 else 0.0);
            var exact := 10000.0 * (if c.sameDigest && parts < 0.98 then 0.98 else parts);
            exact - 0.5 <= CandidateScore(c) as real <= exact + 0.5
  {
  }

  /** No other candidate of the set scores higher than this one. */
  predicate Closest(rival: FileId, winner: FileId, candidates: set<FileId>, score: FileId -> nat) {
    rival in candidates && rival != winner && forall g <- candidates :: g == winner || score(g) <= score(rival)
  }

  lemma LeadOverClosest(winner: FileId, rival: FileId, candidates: set<FileId>, score: FileId -> nat)
    requires candidates != {} && winner == Best(score, candidates) && Closest(rival, winner, candidates, score)
    ensures Lead(score, candidates) == score(winner) - score(rival)
  {
    var rest := candidates - {winner};
    assert rival in rest;
    BetterIsTotal(score, rest);
    var second := Best(score, rest);
    assert second in candidates && second != winner && score(second) <= score(rival);
    assert second == rival || Better(score)(second, rival);
  }

  /** The best score that any candidate has. */
  predicate TopScore(top: nat, candidates: set<FileId>, score: FileId -> nat) {
    (exists f <- candidates :: score(f) == top) && forall f <- candidates :: score(f) <= top
  }

  /**
   * The export reports the best score.  Below the threshold that is its
   * confidence; without a lead of 0.05 it is worth 0.6 of it; a named source is
   * worth 0.8 of it and its lead over the closest rival, which counts up to 0.2.
   */
  lemma ExportExactly(groupId: GroupId, pdf: FileId, candidates: set<FileId>, score: FileId -> nat, threshold: real,
                      winner: FileId, rival: FileId)
    requires Proper(score)
    ensures var e := ExportOf(groupId, pdf, candidates, score, threshold);
            && e.groupId == groupId && e.pdf == pdf
            && (candidates == {} ==> e.source.None? && e.score == 0 && e.confidence == 0)
            && (candidates != {} ==> TopScore(e.score, candidates, score))
            && (candidates != {} && e.score as real < 10000.0 * threshold ==> e.source.None? && e.confidence == e.score)
            && (candidates != {} && e.score as real >= 10000.0 * threshold && e.source.None? ==>
                  0.6 * e.score as real - 0.5 <= e.confidence as real <= 0.6 * e.score as real + 0.5)
            && (e.source == Some(winner) <==>
                  && winner in candidates && score(winner) as real >= 10000.0 * threshold
                  && forall g <- candidates :: g == winner || score(winner) - score(g) >= 500)
            && (e.source == Some(winner) && Closest(rival, winner, candidates, score) ==>
                  var lead := score(winner) - score(rival);
                  var exact := 0.8 * e.score as real + (if lead < 2000 then lead as real else 2000.0);
                  e.score == score(winner) && (if exact > 10000.0 then 10000.0 else exact) - 0.5 <= e.confidence as real <= exact + 0.5)
            && (e.source == Some(winner) && candidates == {winner} ==>
                  e.confidence as real >= (if 0.8 * e.score as real + 2000.0 > 10000.0 then 10000.0 else 0.8 * e.score as real + 2000.0) - 0.5)
  {
    SourceIsNamedIffItStandsOut(groupId, pdf, candidates, score, threshold, winner);
    if candidates != {} {
      BetterIsTotal(score, candidates);
      var best := Best(score, candidates);
      assert forall f <- candidates :: f == best || Better(score)(best, f);
      assert best in candidates;
      if Closest(rival, best, candidates, score) {
        LeadOverClosest(best, rival, candidates, score);
      }
    }
  }
}
