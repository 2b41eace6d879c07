/**
 * The score of a pair of files.  The sequence matcher is an oracle on strings;
 * everything built on top of it is computed as the service does.  Texts are
 * truncated and case-folded before they get here.
 */
module Similarity {
  import opened Options
  import opened Arithmetic
  import opened Sorting
  import opened Connectivity
  import opened DocumentGrouping

  const NGRAM_SIZE := 3
  const SEQUENCE_LIMIT := 20000
  const DEFAULT_THRESHOLD := 0.72

  type Ratio = (string, string) -> real

  ghost predicate InUnit(ratio: Ratio) {
    forall a, b :: 0.0 <= ratio(a, b) <= 1.0
  }

  ghost predicate Symmetric(ratio: Ratio) {
    forall a, b :: ratio(a, b) == ratio(b, a)
  }

  /** `fields` holds the flattened "key:value" strings of the key fields. */
  datatype DocumentFacts = DocumentFacts(digest: string, fields: set<string>)

  /** `topic` and `years` are derived from the normalised stem. */
  datatype FileFacts = FileFacts(stem: string, topic: string, years: set<string>, extension: string, sha: string,
                                 document: Option<DocumentFacts>, text: string)

  /** Shared members as a share of all members. */
  function Jaccard<T>(a: set<T>, b: set<T>): real
    requires a + b != {}
  {
    |a * b| as real / |a + b| as real
  }

  function Gram(s: string, i: nat): string
    requires i + NGRAM_SIZE <= |s|
  {
    s[i..i + NGRAM_SIZE]
  }

  function Ngrams(s: string): set<string> {
    set i: nat | i + NGRAM_SIZE <= |s| :: Gram(s, i)
  }

  function Prefix(s: string, n: nat): string {
    if |s| <= n then s else s[..n]
  }

  function TextSimilarity(left: string, right: string, ratio: Ratio): real {
    if left == right then 1.0
    else if left == "" || right == "" then 0.0
    else if |left| < NGRAM_SIZE || |right| < NGRAM_SIZE then ratio(left, right)
    else
      var union := Ngrams(left) + Ngrams(right);
      var ngramScore := if union == {} then 1.0 else Jaccard(Ngrams(left), Ngrams(right));
      RealMin(1.0, 0.55 * ngramScore + 0.45 * ratio(Prefix(left, SEQUENCE_LIMIT), Prefix(right, SEQUENCE_LIMIT)))
  }

  function KeyFieldSimilarity(left: set<string>, right: set<string>): real {
    if left + right == {} then 0.0 else Jaccard(left, right)
  }

  function FieldsOf(f: FileFacts): set<string> {
    if f.document.Some? then f.document.value.fields else {}
  }

  predicate YearsConflict(left: FileFacts, right: FileFacts) {
    left.years != {} && right.years != {} && left.years !! right.years
  }

  function WithoutSpaces(s: string): string {
    if s == "" then "" else (if s[0] == ' ' then "" else [s[0]]) + WithoutSpaces(s[1..])
  }

  predicate SharesTopic(left: FileFacts, right: FileFacts) {
    |WithoutSpaces(left.topic)| >= 4 && left.topic == right.topic && !YearsConflict(left, right)
  }

  function NameScore(left: FileFacts, right: FileFacts, ratio: Ratio): real {
    RealMax(ratio(left.stem, right.stem),
        if SharesTopic(left, right) then 0.95
        else if YearsConflict(left, right) then 0.0
        else 0.90 * ratio(left.topic, right.topic))
  }

  function ContentScore(left: FileFacts, right: FileFacts, ratio: Ratio): real {
    TextSimilarity(left.text, right.text, ratio)
  }

  function KeyScore(left: FileFacts, right: FileFacts): real {
    KeyFieldSimilarity(FieldsOf(left), FieldsOf(right))
  }

  predicate SameDigest(left: FileFacts, right: FileFacts) {
    left.document.Some? && right.document.Some? && left.document.value.digest == right.document.value.digest
  }

  /** A shared topic counts only with some agreement of contents or key fields. */
  predicate TopicSupported(left: FileFacts, right: FileFacts, ratio: Ratio) {
    && SharesTopic(left, right)
    && (ContentScore(left, right, ratio) >= (if left.extension == right.extension then 0.18 else 0.08)
        || KeyScore(left, right) >= 0.25)
  }

  method ScoreDocumentPair(left: FileFacts, right: FileFacts, ratio: Ratio) returns (score: real)
    requires InUnit(ratio)
    ensures score == PairScore(left, right, ratio)
  {
    var nameScore := NameScore(left, right, ratio);
    var contentScore := ContentScore(left, right, ratio);
    var keyScore := KeyScore(left, right);
    if left.sha == right.sha {
      return 1.0;
    }
    score := 0.55 * nameScore + 0.35 * contentScore + 0.10 * keyScore;
    if SharesTopic(left, right) {
      var minimumSupport := if left.extension == right.extension then 0.18 else 0.08;
      if contentScore >= minimumSupport || keyScore >= 0.25 {
        score := RealMax(score, RealMin(0.94, 0.78 + 0.12 * RealMax(contentScore, keyScore)));
      }
    }
    if SameDigest(left, right) {
      score := RealMax(score, 0.95);
    }
    score := RealMin(1.0, score);
    PartsLaws(left, right, ratio);
  }

  /** The largest of the reasons to link, capped at one. */
  function PairScore(left: FileFacts, right: FileFacts, ratio: Ratio): real {
    if left.sha == right.sha then 1.0
    else
      var content, key := ContentScore(left, right, ratio), KeyScore(left, right);
      RealMin(1.0, RealMax(RealMax(0.55 * NameScore(left, right, ratio) + 0.35 * content + 0.10 * key,
                       if TopicSupported(left, right, ratio) then RealMin(0.94, 0.78 + 0.12 * RealMax(content, key)) else 0.0),
                   if SameDigest(left, right) then 0.95 else 0.0))
  }

  // ----- Range and symmetry -----

  lemma SharedOfAll<T>(a: set<T>, b: set<T>)
    ensures |a * b| <= |a + b| && (|a * b| == |a + b| <==> a == b)
  {
    var rest := a + b - a * b;
    assert a + b == a * b + rest && a * b !! rest;
    if rest == {} {
      assert forall x :: x in a <==> x in a * b + rest;
      assert forall x :: x in b <==> x in a * b + rest;
    }
  }

  lemma ShareBounds(shared: nat, all: nat)
    requires shared <= all && all > 0
    ensures 0.0 <= shared as real / all as real <= 1.0
    ensures shared as real / all as real == 1.0 <==> shared == all
  {
    var s, a := shared as real, all as real;
    Quotient(s, a);
    assert s == a <==> shared == all;
  }

  lemma Quotient(s: real, a: real)
    requires 0.0 <= s <= a && a > 0.0
    ensures 0.0 <= s / a <= 1.0 && (s / a == 1.0 <==> s == a)
  {
    var q := s / a;
    assert q * a == s;
    if s == a {
      assert a * (q - 1.0) == 0.0;
    }
  }

  lemma JaccardLaws<T>(a: set<T>, b: set<T>)
    requires a + b != {}
    ensures 0.0 <= Jaccard(a, b) <= 1.0 && Jaccard(a, b) == Jaccard(b, a)
    ensures Jaccard(a, b) == 1.0 <==> a == b
  {
    assert a * b == b * a && a + b == b + a;
    SharedOfAll(a, b);
    ShareBounds(|a * b|, |a + b|);
  }

  lemma TextSimilarityLaws(left: string, right: string, ratio: Ratio)
    requires InUnit(ratio)
    ensures 0.0 <= TextSimilarity(left, right, ratio) <= 1.0
    ensures Symmetric(ratio) ==> TextSimilarity(left, right, ratio) == TextSimilarity(right, left, ratio)
  {
    if Ngrams(left) + Ngrams(right) != {} {
      JaccardLaws(Ngrams(left), Ngrams(right));
    }
  }

  lemma PartsLaws(left: FileFacts, right: FileFacts, ratio: Ratio)
    requires InUnit(ratio)
    ensures 0.0 <= NameScore(left, right, ratio) <= 1.0
    ensures 0.0 <= ContentScore(left, right, ratio) <= 1.0
    ensures 0.0 <= KeyScore(left, right) <= 1.0
    ensures Symmetric(ratio) ==>
              && NameScore(left, right, ratio) == NameScore(right, left, ratio)
              && ContentScore(left, right, ratio) == ContentScore(right, left, ratio)
              && KeyScore(left, right) == KeyScore(right, left)
  {
    TextSimilarityLaws(left.text, right.text, ratio);
    if FieldsOf(left) + FieldsOf(right) != {} {
      JaccardLaws(FieldsOf(left), FieldsOf(right));
    }
    assert YearsConflict(left, right) == YearsConflict(right, left);
    assert SharesTopic(left, right) == SharesTopic(right, left);
  }

  /** Every score lies in [0, 1], and a symmetric matcher makes a symmetric score. */
  lemma PairScoreLaws(left: FileFacts, right: FileFacts, ratio: Ratio)
    requires InUnit(ratio)
    ensures 0.0 <= PairScore(left, right, ratio) <= 1.0
    ensures Symmetric(ratio) ==> PairScore(left, right, ratio) == PairScore(right, left, ratio)
  {
    PartsLaws(left, right, ratio);
  }

  // ----- What links at the default threshold -----

  /** A supported topic or an equal digest links whatever the names and texts are. */
  lemma SupportedTopicLinks(left: FileFacts, right: FileFacts, ratio: Ratio)
    requires InUnit(ratio)
    requires TopicSupported(left, right, ratio) || SameDigest(left, right) || left.sha == right.sha
    ensures PairScore(left, right, ratio) >= DEFAULT_THRESHOLD
  {
    PartsLaws(left, right, ratio);
  }

  /** However alike two file names are, they never link two files whose contents and key fields do not agree. */
  lemma NameAloneDoesNotLink(left: FileFacts, right: FileFacts, ratio: Ratio)
    requires InUnit(ratio) && left.sha != right.sha && !SameDigest(left, right)
    requires ContentScore(left, right, ratio) < 0.08 && KeyScore(left, right) < 0.25
    ensures PairScore(left, right, ratio) < DEFAULT_THRESHOLD
  {
    PartsLaws(left, right, ratio);
  }

  /** Conflicting years switch the topic off: only the remaining evidence can link. */
  lemma ConflictingYearsNeedEvidence(left: FileFacts, right: FileFacts, ratio: Ratio)
    requires InUnit(ratio) && YearsConflict(left, right)
    ensures PairScore(left, right, ratio) >= DEFAULT_THRESHOLD <==>
            || left.sha == right.sha || SameDigest(left, right)
            || 0.55 * ratio(left.stem, right.stem) + 0.35 * ContentScore(left, right, ratio) + 0.10 * KeyScore(left, right)
               >= DEFAULT_THRESHOLD
  {
    PartsLaws(left, right, ratio);
  }

  // ----- Grouping with this score -----

  function ScoreOf(facts: map<FileId, FileFacts>, ratio: Ratio): (FileId, FileId) -> real {
    (a, b) => if a in facts && b in facts then PairScore(facts[a], facts[b], ratio) else 0.0
  }

  /** Byte-identical files share a group at every threshold, in whichever order they are listed. */
  lemma IdenticalFilesShareGroup(files: seq<FileId>, facts: map<FileId, FileFacts>, ratio: Ratio,
                                 evidence: Evidence, threshold: real, naming: Naming, groups: seq<Group>, i: nat, k: nat)
    requires Distinct(files) && threshold <= 1.0 && EvidenceOf(files, ScoreOf(facts, ratio), evidence)
    requires IsGrouping(groups, Elements(files), evidence, threshold, naming)
    requires i < k < |files| && files[i] in facts && files[k] in facts && facts[files[i]].sha == facts[files[k]].sha
    ensures exists g <- groups :: files[i] in g.fileIds && files[k] in g.fileIds
  {
    FullScoreSharesGroup(files, ScoreOf(facts, ratio), evidence, threshold, naming, groups, i, k);
  }

  /** With a symmetric matcher the groups do not depend on the order of the files. */
  lemma GroupingIgnoresFileOrder(files: seq<FileId>, shuffled: seq<FileId>, facts: map<FileId, FileFacts>, ratio: Ratio,
                                 evidence: Evidence, otherEvidence: Evidence, threshold: real, naming: Naming,
                                 groups: seq<Group>, others: seq<Group>)
    requires InUnit(ratio) && Symmetric(ratio) && naming.Injective()
    requires Distinct(files) && Distinct(shuffled) && Elements(files) == Elements(shuffled)
    requires EvidenceOf(files, ScoreOf(facts, ratio), evidence)
    requires EvidenceOf(shuffled, ScoreOf(facts, ratio), otherEvidence)
    requires IsGrouping(groups, Elements(files), evidence, threshold, naming)
    requires IsGrouping(others, Elements(shuffled), otherEvidence, threshold, naming)
    ensures groups == others
  {
    var score := ScoreOf(facts, ratio);
    forall a, b ensures score(a, b) == score(b, a) {
      if a in facts && b in facts {
        PairScoreLaws(facts[a], facts[b], ratio);
      }
    }
    OrderIndependence(files, shuffled, score, evidence, otherEvidence, threshold, naming, groups, others);
  }

  // ----- The fixpoint loop of the file-name normaliser -----

  /** One removal step: it leaves the name alone or makes it shorter. */
  ghost predicate Shrinks(step: string -> string) {
    forall s :: step(s) == s || |step(s)| < |s|
  }

  function OnePass(steps: seq<string -> string>, s: string): string {
    if steps == [] then s else OnePass(steps[1..], steps[0](s))
  }

  lemma {:induction false} PassShrinks(steps: seq<string -> string>, s: string)
    requires forall i | 0 <= i < |steps| :: Shrinks(steps[i])
    ensures OnePass(steps, s) == s || |OnePass(steps, s)| < |s|
    ensures OnePass(steps, s) == s <==> forall i | 0 <= i < |steps| :: steps[i](s) == s
  {
    if steps != [] {
      PassShrinks(steps[1..], steps[0](s));
      assert forall i | 1 <= i < |steps| :: steps[i] == steps[1..][i - 1];
      if forall i | 0 <= i < |steps| :: steps[i](s) == s {
        assert steps[0](s) == s;
      } else if OnePass(steps, s) == s {
        assert steps[0](s) == s;
        forall i | 1 <= i < |steps| ensures steps[i](s) == s {
          assert steps[1..][i - 1](s) == s;
        }
      }
    }
  }

  /** Removes version marks until no pattern finds any. */
  method RemoveVersionMarks(stem: string, steps: seq<string -> string>) returns (normalized: string)
    requires forall i | 0 <= i < |steps| :: Shrinks(steps[i])
    ensures forall i | 0 <= i < |steps| :: steps[i](normalized) == normalized
    ensures normalized == stem || |normalized| < |stem|
    ensures normalized == stem <==> forall i | 0 <= i < |steps| :: steps[i](stem) == stem
  {
    normalized := stem;
    var changed := true;
    while changed
      invariant normalized == stem || |normalized| < |stem|
      invariant OnePass(steps, stem) == stem ==> normalized == stem
      invariant !changed ==> OnePass(steps, normalized) == normalized
      decreases |normalized|, changed
    {
      PassShrinks(steps, normalized);
      var previous := normalized;
      for i := 0 to |steps|
        invariant OnePass(steps[i..], normalized) == OnePass(steps, previous)
      {
        assert steps[i..][1..] == steps[i + 1..] && steps[i..][0] == steps[i];
        normalized := steps[i](normalized);
      }
      assert steps[|steps|..] == [];
      changed := normalized != previous;
    }
    PassShrinks(steps, normalized);
    PassShrinks(steps, stem);
  }

  // ----- What the scores are worth -----

  /** A substring of three characters. */
  ghost predicate HasGram(s: string, g: string) {
    exists i :: StandsAt(s, i, g)
  }

  predicate StandsAt(s: string, i: int, g: string) {
    0 <= i <= |s| - 3 && s[i..i + 3] == g
  }

  lemma GramsMean(s: string, g: string)
    ensures g in Ngrams(s) <==> HasGram(s, g)
  {
    if HasGram(s, g) {
      var i :| StandsAt(s, i, g);
      assert Gram(s, i) == g;
    }
    if g in Ngrams(s) {
      var i: nat :| i + NGRAM_SIZE <= |s| && Gram(s, i) == g;
      assert StandsAt(s, i, g);
    }
  }

  /**
   * Texts that share no three characters in a row are at most 0.45 alike, texts
   * with the same ones at least 0.55; a text too short for any is compared as it
   * is, and an empty one is like no other.
   */
  lemma TextSimilarityBounds(left: string, right: string, ratio: Ratio)
    requires InUnit(ratio)
    ensures left == right ==> TextSimilarity(left, right, ratio) == 1.0
    ensures left != right && (left == "" || right == "") ==> TextSimilarity(left, right, ratio) == 0.0
    ensures left != right && left != "" && right != "" && (|left| < 3 || |right| < 3) ==>
              TextSimilarity(left, right, ratio) == ratio(left, right)
    ensures left != right && 3 <= |left| <= 20000 && 3 <= |right| <= 20000 && (forall g :: !(HasGram(left, g) && HasGram(right, g))) ==>
              TextSimilarity(left, right, ratio) == 0.45 * ratio(left, right)
    ensures left != right && 3 <= |left| <= 20000 && 3 <= |right| <= 20000 && (forall g :: HasGram(left, g) <==> HasGram(right, g)) ==>
              TextSimilarity(left, right, ratio) == 0.55 + 0.45 * ratio(left, right)
  {
    if left != right && 3 <= |left| && 3 <= |right| {
      GramsMean(left, left[0..3]);
      assert StandsAt(left, 0, left[0..3]) && HasGram(left, left[0..3]);
      forall g ensures (g in Ngrams(left) <==> HasGram(left, g)) && (g in Ngrams(right) <==> HasGram(right, g)) {
        GramsMean(left, g);
        GramsMean(right, g);
      }
      SharedGrams(left, right);
    }
  }

  lemma SharedGrams(left: string, right: string)
    requires Ngrams(left) != {}
    ensures (forall g :: !(g in Ngrams(left) && g in Ngrams(right))) ==> Jaccard(Ngrams(left), Ngrams(right)) == 0.0
    ensures (forall g :: g in Ngrams(left) <==> g in Ngrams(right)) ==> Jaccard(Ngrams(left), Ngrams(right)) == 1.0
  {
    var a, b := Ngrams(left), Ngrams(right);
    if forall g :: !(g in a && g in b) {
      assert a * b == {};
    }
    if forall g :: g in a <==> g in b {
      assert a == b;
      JaccardLaws(a, b);
    }
  }

  /** Both files have the topic, it has at least four characters besides blanks, and their years do not exclude each other. */
  predicate CommonTopic(left: FileFacts, right: FileFacts) {
    && left.topic == right.topic && |WithoutSpaces(left.topic)| >= 4
    && (left.years == {} || right.years == {} || exists y <- left.years :: y in right.years)
  }

  /** The best comparison of the names: the stems, a common topic at 0.95, or the topics at 0.9 unless the years conflict. */
  function NamesAlike(left: FileFacts, right: FileFacts, ratio: Ratio): real {
    var stems := ratio(left.stem, right.stem);
    var topics :=
      if CommonTopic(left, right) then 0.95
      else if left.years != {} && right.years != {} && (forall y <- left.years :: y !in right.years) then 0.0
      else 0.9 * ratio(left.topic, right.topic);
    if stems >= topics then stems else topics
  }

  /**
   * The pair score is 0.55 of the names, 0.35 of the contents and 0.10 of the
   * key fields.  A common topic that contents or key fields support lifts it to
   * at least 0.78 and 0.12 of the better of the two, an equal digest to 0.95, equal bytes to one.
   */
  lemma PairScoreExactly(left: FileFacts, right: FileFacts, ratio: Ratio)
    requires InUnit(ratio)
    ensures var content, key := TextSimilarity(left.text, right.text, ratio), KeyScore(left, right);
            var weighted := 0.55 * NamesAlike(left, right, ratio) + 0.35 * content + 0.1 * key;
            var supported := CommonTopic(left, right)
                             && (key >= 0.25 || content >= (if left.extension == right.extension then 0.18 else 0.08));
            var sameText := left.document.Some? && right.document.Some? && left.document.value.digest == right.document.value.digest;
            var lifted := 0.78 + 0.12 * (if content >= key then content else key);
            var score := PairScore(left, right, ratio);
            && (left.sha == right.sha ==> score == 1.0)
            && (left.sha != right.sha && !supported && !sameText ==> score == weighted)
            && (left.sha != right.sha && supported ==> score >= (if lifted < 0.94 then lifted else 0.94))
            && (sameText ==> score >= 0.95)
            && score >= weighted
            && (left.sha != right.sha ==>
                  || score == weighted || (supported && score == (if lifted < 0.94 then lifted else 0.94))
                  || (sameText && score == 0.95))
  {
    PartsLaws(left, right, ratio);
    assert YearsConflict(left, right) <==> left.years != {} && right.years != {} && forall y <- left.years :: y !in right.years;
    assert SharesTopic(left, right) <==> CommonTopic(left, right);
    assert NameScore(left, right, ratio) == NamesAlike(left, right, ratio);
  }

  lemma {:induction false} BlanksDoNotCount(s: string)
    ensures |WithoutSpaces(s)| <= |s| && (|WithoutSpaces(s)| == |s| <==> ' ' !in s)
    ensures forall c <- WithoutSpaces(s) :: c != ' '
  {
    if s != "" {
      BlanksDoNotCount(s[1..]);
      assert forall c :: c in s <==> c == s[0] || c in s[1..];
    }
  }

  /** Key fields are compared by the share of the pairs that both documents have; without any they are not alike. */
  lemma KeyScoreExactly(left: FileFacts, right: FileFacts)
    ensures var a := if left.document.Some? then left.document.value.fields else {};
            var b := if right.document.Some? then right.document.value.fields else {};
            if a + b == {} then KeyScore(left, right) == 0.0
            else |a + b| > 0 && KeyScore(left, right) * |a + b| as real == |a * b| as real
  {
    if FieldsOf(left) + FieldsOf(right) != {} {
      ShareTimesAll(|FieldsOf(left) * FieldsOf(right)| as real, |FieldsOf(left) + FieldsOf(right)| as real);
    }
  }

  lemma ShareTimesAll(s: real, a: real)
    requires a != 0.0
    ensures s / a * a == s
  {
  }
}
