/**
 * Splitting files into version groups: every pair is scored once, pairs that
 * reach the threshold are united, and each class becomes one group.
 */
module DocumentGrouping {
  import opened Options
  import opened Sorting
  import opened Connectivity
  import opened UnionFind

  /** The score recorded for each unordered pair, keyed by the smaller identifier first. */
  type Evidence = map<(FileId, FileId), real>

  /** `single` is the marker that replaces the signals of a group without any linking pair. */
  datatype Group = Group(fileIds: seq<FileId>, confidence: real, single: bool)

  function PairKey(a: FileId, b: FileId): (FileId, FileId) {
    if a < b then (a, b) else (b, a)
  }

  /** The pairs of a list, in which the earlier file is scored on the left. */
  ghost predicate EvidenceOf(files: seq<FileId>, score: (FileId, FileId) -> real, evidence: Evidence) {
    && (forall i, k | 0 <= i < k < |files| ::
          PairKey(files[i], files[k]) in evidence && evidence[PairKey(files[i], files[k])] == score(files[i], files[k]))
    && (forall p | p in evidence :: p.0 < p.1 && p.0 in files && p.1 in files)
  }

  /** The pairs that reach the threshold. */
  ghost function Links(evidence: Evidence, threshold: real): Edges {
    set p | p in evidence && evidence[p] >= threshold
  }

  /** Every pair of the identifiers has been scored. */
  predicate Scored(ids: seq<FileId>, evidence: Evidence) {
    forall i, k | 0 <= i < k < |ids| :: (ids[i], ids[k]) in evidence
  }

  /** The linking scores of the pairs (i, j) with i < j < k, in that order. */
  function RowLinks(ids: seq<FileId>, evidence: Evidence, threshold: real, i: nat, k: nat): seq<real>
    requires Scored(ids, evidence) && i < k <= |ids|
  {
    if k == i + 1 then []
    else
      RowLinks(ids, evidence, threshold, i, k - 1)
      + if evidence[(ids[i], ids[k - 1])] >= threshold then [evidence[(ids[i], ids[k - 1])]] else []
  }

  /** The linking scores of the pairs whose first position is below `i`, in the order of combinations. */
  function LinkScores(ids: seq<FileId>, evidence: Evidence, threshold: real, i: nat): seq<real>
    requires Scored(ids, evidence) && i <= |ids|
  {
    if i == 0 then []
    else LinkScores(ids, evidence, threshold, i - 1) + RowLinks(ids, evidence, threshold, i - 1, |ids|)
  }

  function Sum(xs: seq<real>): real {
    if |xs| == 0 then 0.0 else Sum(xs[..|xs| - 1]) + xs[|xs| - 1]
  }

  ghost predicate Within(xs: seq<real>, low: real, high: real) {
    forall n | 0 <= n < |xs| :: low <= xs[n] <= high
  }

  function MakeGroup(ids: seq<FileId>, evidence: Evidence, threshold: real): Group
    requires Scored(ids, evidence)
  {
    var scores := LinkScores(ids, evidence, threshold, |ids|);
    Group(ids, if scores == [] then 1.0 else Sum(scores) / |scores| as real, scores == [])
  }

  /** The rendered order of groups: by label, then by the digest that serves as group identifier. */
  datatype Naming = Naming(rank: seq<FileId> -> nat, digest: seq<FileId> -> nat) {
    predicate Before(g: Group, h: Group) {
      rank(g.fileIds) < rank(h.fileIds) || (rank(g.fileIds) == rank(h.fileIds) && digest(g.fileIds) < digest(h.fileIds))
    }

    /** Digests of different member lists differ. */
    ghost predicate Injective() {
      forall s, t :: digest(s) == digest(t) ==> s == t
    }
  }

  ghost predicate IdsAscend(ids: seq<FileId>) {
    Ascending((a: FileId, b: FileId) => a < b, ids)
  }

  /** One group: the whole component of each of its members, with the evidence of its own pairs. */
  ghost predicate IsGroup(g: Group, ids: set<FileId>, evidence: Evidence, threshold: real) {
    && |g.fileIds| > 0 && IdsAscend(g.fileIds)
    && (forall x <- g.fileIds :: x in ids)
    && (forall x <- g.fileIds, y <- ids :: y in g.fileIds <==> Connected(Links(evidence, threshold), x, y))
    && Scored(g.fileIds, evidence)
    && g == MakeGroup(g.fileIds, evidence, threshold)
  }

  /** The specification of the whole grouping: exactly the components, in rendered order. */
  ghost predicate IsGrouping(groups: seq<Group>, ids: set<FileId>, evidence: Evidence, threshold: real, naming: Naming) {
    && (forall g <- groups :: IsGroup(g, ids, evidence, threshold))
    && (forall x <- ids :: exists g <- groups :: x in g.fileIds)
    && Ascending((g: Group, h: Group) => naming.Before(g, h), groups)
  }

  // ----- Consequences of the specification -----

  /** The groups partition the files, and two files share a group exactly when a chain of linking pairs joins them. */
  lemma GroupsAreComponents(groups: seq<Group>, ids: set<FileId>, evidence: Evidence, threshold: real, naming: Naming,
                            x: FileId, y: FileId)
    requires IsGrouping(groups, ids, evidence, threshold, naming) && x in ids && y in ids
    ensures exists i | 0 <= i < |groups| :: x in groups[i].fileIds && forall k | 0 <= k < |groups| && x in groups[k].fileIds :: k == i
    ensures (exists g <- groups :: x in g.fileIds && y in g.fileIds) <==> Connected(Links(evidence, threshold), x, y)
  {
    var g :| g in groups && x in g.fileIds;
    var i :| 0 <= i < |groups| && groups[i] == g;
    forall k | 0 <= k < |groups| && x in groups[k].fileIds ensures k == i {
      SameMembersSameGroup(groups[k], g, ids, evidence, threshold, x);
      AscendingInjective((a: Group, b: Group) => naming.Before(a, b), groups, k, i);
    }
  }

  lemma SameMembersSameGroup(g: Group, h: Group, ids: set<FileId>, evidence: Evidence, threshold: real, x: FileId)
    requires IsGroup(g, ids, evidence, threshold) && IsGroup(h, ids, evidence, threshold)
    requires x in g.fileIds && x in h.fileIds
    ensures g == h
  {
    assert Elements(g.fileIds) == Elements(h.fileIds);
    AscendingUnique((a: FileId, b: FileId) => a < b, g.fileIds, h.fileIds);
  }

  /** The specification determines the result: it depends on the set of files and the recorded scores only. */
  lemma GroupingIsUnique(groups: seq<Group>, others: seq<Group>, ids: set<FileId>, evidence: Evidence,
                         threshold: real, naming: Naming)
    requires IsGrouping(groups, ids, evidence, threshold, naming) && IsGrouping(others, ids, evidence, threshold, naming)
    requires naming.Injective()
    ensures groups == others
  {
    forall g | g in groups ensures g in others {
      assert g.fileIds[0] in g.fileIds && g.fileIds[0] in ids;
      var h :| h in others && g.fileIds[0] in h.fileIds;
      SameMembersSameGroup(g, h, ids, evidence, threshold, g.fileIds[0]);
    }
    forall h | h in others ensures h in groups {
      assert h.fileIds[0] in h.fileIds && h.fileIds[0] in ids;
      var g :| g in groups && h.fileIds[0] in g.fileIds;
      SameMembersSameGroup(g, h, ids, evidence, threshold, h.fileIds[0]);
    }
    assert Elements(groups) == Elements(others);
    RenderedOrderIsTotal(Elements(groups), ids, evidence, threshold, naming);
    AscendingUnique((g: Group, h: Group) => naming.Before(g, h), groups, others);
  }

  lemma RenderedOrderIsTotal(groups: set<Group>, ids: set<FileId>, evidence: Evidence, threshold: real, naming: Naming)
    requires naming.Injective()
    requires forall g <- groups :: IsGroup(g, ids, evidence, threshold)
    ensures TotalOn((g: Group, h: Group) => naming.Before(g, h), groups)
  {
    forall g <- groups, h <- groups ensures g == h || naming.Before(g, h) || naming.Before(h, g) {
      if naming.digest(g.fileIds) == naming.digest(h.fileIds) {
        assert g.fileIds == h.fileIds;
      }
    }
  }

  /** The score gives both orders of a pair the same linking score, or links neither. */
  ghost predicate OrderBlind(score: (FileId, FileId) -> real, ids: set<FileId>, threshold: real) {
    forall a <- ids, b <- ids ::
      score(a, b) == score(b, a) || (score(a, b) < threshold && score(b, a) < threshold)
  }

  /** Two records of the same pairs that differ only in scores that do not link. */
  ghost predicate SameAbove(evidence: Evidence, other: Evidence, threshold: real) {
    && evidence.Keys == other.Keys
    && forall p | p in evidence :: evidence[p] == other[p] || (evidence[p] < threshold && other[p] < threshold)
  }

  /** With an order-blind score the whole result is independent of the order in which the files are given. */
  lemma OrderIndependence(files: seq<FileId>, shuffled: seq<FileId>, score: (FileId, FileId) -> real,
                          evidence: Evidence, otherEvidence: Evidence, threshold: real, naming: Naming,
                          groups: seq<Group>, others: seq<Group>)
    requires Distinct(files) && Distinct(shuffled) && Elements(files) == Elements(shuffled)
    requires OrderBlind(score, Elements(files), threshold)
    requires EvidenceOf(files, score, evidence) && EvidenceOf(shuffled, score, otherEvidence)
    requires IsGrouping(groups, Elements(files), evidence, threshold, naming)
    requires IsGrouping(others, Elements(shuffled), otherEvidence, threshold, naming)
    requires naming.Injective()
    ensures groups == others
  {
    var ids := Elements(files);
    EvidenceTabulates(files, score, evidence);
    EvidenceTabulates(shuffled, score, otherEvidence);
    TabulationsAgree(evidence, otherEvidence, ids, score, threshold);
    SameAboveSameGrouping(others, ids, otherEvidence, evidence, threshold, naming);
    GroupingIsUnique(groups, others, ids, evidence, threshold, naming);
  }

  lemma SameAboveSameGrouping(groups: seq<Group>, ids: set<FileId>, evidence: Evidence, other: Evidence,
                              threshold: real, naming: Naming)
    requires SameAbove(evidence, other, threshold) && IsGrouping(groups, ids, evidence, threshold, naming)
    ensures IsGrouping(groups, ids, other, threshold, naming)
  {
    assert Links(evidence, threshold) == Links(other, threshold);
    forall g | g in groups ensures IsGroup(g, ids, other, threshold) {
      assert IsGroup(g, ids, evidence, threshold);
      SameLinkScores(g.fileIds, evidence, other, threshold, |g.fileIds|);
    }
  }

  lemma {:induction false} SameRowLinks(ids: seq<FileId>, evidence: Evidence, other: Evidence, threshold: real, i: nat, k: nat)
    requires SameAbove(evidence, other, threshold) && Scored(ids, evidence) && i < k <= |ids|
    ensures Scored(ids, other) && RowLinks(ids, evidence, threshold, i, k) == RowLinks(ids, other, threshold, i, k)
  {
    if k > i + 1 {
      SameRowLinks(ids, evidence, other, threshold, i, k - 1);
      assert (ids[i], ids[k - 1]) in evidence;
    }
  }

  lemma {:induction false} SameLinkScores(ids: seq<FileId>, evidence: Evidence, other: Evidence, threshold: real, i: nat)
    requires SameAbove(evidence, other, threshold) && Scored(ids, evidence) && i <= |ids|
    ensures Scored(ids, other) && LinkScores(ids, evidence, threshold, i) == LinkScores(ids, other, threshold, i)
  {
    if i > 0 {
      SameLinkScores(ids, evidence, other, threshold, i - 1);
      SameRowLinks(ids, evidence, other, threshold, i - 1, |ids|);
    }
  }

  /** The evidence lists every pair of the given files, smaller identifier first, scored in one of the two orders. */
  ghost predicate Tabulates(evidence: Evidence, ids: set<FileId>, score: (FileId, FileId) -> real) {
    && (forall a, b :: (a, b) in evidence <==> a < b && a in ids && b in ids)
    && (forall p | p in evidence :: evidence[p] == score(p.0, p.1) || evidence[p] == score(p.1, p.0))
  }

  lemma EvidenceTabulates(files: seq<FileId>, score: (FileId, FileId) -> real, evidence: Evidence)
    requires Distinct(files) && EvidenceOf(files, score, evidence)
    ensures Tabulates(evidence, Elements(files), score)
  {
    forall a, b | a < b && a in files && b in files
      ensures (a, b) in evidence && (evidence[(a, b)] == score(a, b) || evidence[(a, b)] == score(b, a))
    {
      var i :| 0 <= i < |files| && files[i] == a;
      var k :| 0 <= k < |files| && files[k] == b;
      assert PairKey(files[i], files[k]) == PairKey(files[k], files[i]) == (a, b);
    }
    forall p | p in evidence ensures evidence[p] == score(p.0, p.1) || evidence[p] == score(p.1, p.0) {
      assert p == (p.0, p.1);
    }
  }

  lemma TabulationsAgree(evidence: Evidence, other: Evidence, ids: set<FileId>, score: (FileId, FileId) -> real, threshold: real)
    requires Tabulates(evidence, ids, score) && Tabulates(other, ids, score) && OrderBlind(score, ids, threshold)
    ensures SameAbove(evidence, other, threshold)
  {
    forall p ensures p in evidence <==> p in other {
      assert p == (p.0, p.1);
    }
    forall p | p in evidence
      ensures evidence[p] == other[p] || (evidence[p] < threshold && other[p] < threshold)
    {
      assert p == (p.0, p.1) && p.0 in ids && p.1 in ids;
    }
  }

  /**
   * For two files the condition is exact: the order in which they are listed
   * is invisible in the result if and only if the score is order-blind.
   */
  lemma TwoFilesOrderMatters(a: FileId, b: FileId, score: (FileId, FileId) -> real,
                             evidence: Evidence, otherEvidence: Evidence, threshold: real, naming: Naming,
                             groups: seq<Group>, others: seq<Group>)
    requires a != b && naming.Injective()
    requires EvidenceOf([a, b], score, evidence) && EvidenceOf([b, a], score, otherEvidence)
    requires IsGrouping(groups, {a, b}, evidence, threshold, naming)
    requires IsGrouping(others, {a, b}, otherEvidence, threshold, naming)
    ensures groups == others <==>
            score(a, b) == score(b, a) || (score(a, b) < threshold && score(b, a) < threshold)
  {
    var key := PairKey(a, b);
    OnlyPair(a, b, score, evidence);
    OnlyPair(b, a, score, otherEvidence);
    assert {a, b} == {key.0, key.1};
    PairGroupingsAgree(key.0, key.1, score(a, b), score(b, a), threshold, naming, groups, others);
  }

  lemma PairGroupingsAgree(low: FileId, high: FileId, s: real, t: real, threshold: real, naming: Naming,
                           groups: seq<Group>, others: seq<Group>)
    requires low < high && naming.Injective()
    requires IsGrouping(groups, {low, high}, map[(low, high) := s], threshold, naming)
    requires IsGrouping(others, {low, high}, map[(low, high) := t], threshold, naming)
    ensures groups == others <==> s == t || (s < threshold && t < threshold)
  {
    PairIsGrouped(low, high, map[(low, high) := s], threshold, naming, groups);
    PairIsGrouped(low, high, map[(low, high) := t], threshold, naming, others);
    if s == t || (s < threshold && t < threshold) {
      SameAboveSameGrouping(others, {low, high}, map[(low, high) := t], map[(low, high) := s], threshold, naming);
      GroupingIsUnique(groups, others, {low, high}, map[(low, high) := s], threshold, naming);
    }
  }

  lemma OnlyPair(a: FileId, b: FileId, score: (FileId, FileId) -> real, evidence: Evidence)
    requires a != b && EvidenceOf([a, b], score, evidence)
    ensures evidence == map[PairKey(a, b) := score(a, b)]
  {
    assert PairKey([a, b][0], [a, b][1]) == PairKey(a, b);
    forall p | p in evidence ensures p == PairKey(a, b) {
      assert p.0 in [a, b] && p.1 in [a, b];
    }
  }

  /** Two files end up together exactly when their score links them, and then it is the confidence of their group. */
  lemma PairIsGrouped(low: FileId, high: FileId, evidence: Evidence, threshold: real, naming: Naming, groups: seq<Group>)
    requires low < high && (low, high) in evidence && forall p | p in evidence :: p == (low, high)
    requires IsGrouping(groups, {low, high}, evidence, threshold, naming)
    ensures evidence[(low, high)] >= threshold <==> Group([low, high], evidence[(low, high)], false) in groups
    ensures evidence[(low, high)] < threshold ==> forall g <- groups :: |g.fileIds| == 1
  {
    var ids, links := [low, high], Links(evidence, threshold);
    forall g | g in groups && |g.fileIds| != 1 ensures g.fileIds == ids {
      MembersOfTwo(g.fileIds, low, high);
    }
    if evidence[(low, high)] >= threshold {
      assert (low, high) in links;
      EdgeConnects(links, low, high);
      GroupsAreComponents(groups, {low, high}, evidence, threshold, naming, low, high);
      var g :| g in groups && low in g.fileIds && high in g.fileIds;
      assert g.fileIds == ids;
      PairLinkScores(low, high, evidence, threshold);
    } else {
      forall g | g in groups ensures |g.fileIds| == 1 {
        if |g.fileIds| != 1 {
          var x, y := LinkInside(g, {low, high}, evidence, threshold);
        }
      }
    }
  }

  lemma MembersOfTwo(ids: seq<FileId>, low: FileId, high: FileId)
    requires low < high && IdsAscend(ids) && |ids| > 1 && forall x <- ids :: x == low || x == high
    ensures ids == [low, high]
  {
    var less := (x: FileId, y: FileId) => x < y;
    var first, second, last := ids[0], ids[1], ids[|ids| - 1];
    assert first in ids && second in ids && last in ids;
    assert less(first, second) && (last == second || less(second, last));
    assert |ids| == 2;
  }

  lemma PairLinkScores(low: FileId, high: FileId, evidence: Evidence, threshold: real)
    requires low < high && (low, high) in evidence && evidence[(low, high)] >= threshold
    ensures Scored([low, high], evidence)
    ensures MakeGroup([low, high], evidence, threshold) == Group([low, high], evidence[(low, high)], false)
  {
    var ids := [low, high];
    assert RowLinks(ids, evidence, threshold, 1, 2) == [];
    assert RowLinks(ids, evidence, threshold, 0, 1) == [];
    assert RowLinks(ids, evidence, threshold, 0, 2) == [evidence[(low, high)]];
    assert LinkScores(ids, evidence, threshold, 1) == [evidence[(low, high)]];
    assert LinkScores(ids, evidence, threshold, 2) == [evidence[(low, high)]];
    assert Sum([evidence[(low, high)]]) == evidence[(low, high)];
  }

  /** Raising the threshold only splits groups. */
  lemma HigherThresholdRefines(evidence: Evidence, low: real, high: real, x: FileId, y: FileId)
    requires low <= high && Connected(Links(evidence, high), x, y)
    ensures Connected(Links(evidence, low), x, y)
  {
    ConnectedMonotone(Links(evidence, high), Links(evidence, low), x, y);
  }

  /** Files that score at the top of the scale share a group at every threshold. */
  lemma FullScoreSharesGroup(files: seq<FileId>, score: (FileId, FileId) -> real, evidence: Evidence, threshold: real,
                             naming: Naming, groups: seq<Group>, i: nat, k: nat)
    requires Distinct(files) && EvidenceOf(files, score, evidence) && threshold <= 1.0
    requires IsGrouping(groups, Elements(files), evidence, threshold, naming)
    requires i < k < |files| && score(files[i], files[k]) == 1.0
    ensures exists g <- groups :: files[i] in g.fileIds && files[k] in g.fileIds
  {
    var p := PairKey(files[i], files[k]);
    assert p in Links(evidence, threshold);
    EdgeConnects(Links(evidence, threshold), files[i], files[k]);
    assert files[i] in Elements(files) && files[k] in Elements(files);
    GroupsAreComponents(groups, Elements(files), evidence, threshold, naming, files[i], files[k]);
  }

  // ----- Confidence -----

  lemma {:induction false} RowLinksBounded(ids: seq<FileId>, evidence: Evidence, threshold: real, i: nat, k: nat)
    requires Scored(ids, evidence) && i < k <= |ids|
    requires forall p | p in evidence :: evidence[p] <= 1.0
    ensures Within(RowLinks(ids, evidence, threshold, i, k), threshold, 1.0)
  {
    if k > i + 1 {
      RowLinksBounded(ids, evidence, threshold, i, k - 1);
    }
  }

  lemma {:induction false} LinkScoresBounded(ids: seq<FileId>, evidence: Evidence, threshold: real, i: nat)
    requires Scored(ids, evidence) && i <= |ids|
    requires forall p | p in evidence :: evidence[p] <= 1.0
    ensures Within(LinkScores(ids, evidence, threshold, i), threshold, 1.0)
  {
    if i > 0 {
      LinkScoresBounded(ids, evidence, threshold, i - 1);
      RowLinksBounded(ids, evidence, threshold, i - 1, |ids|);
    }
  }

  lemma {:induction false} LinkIsInRow(ids: seq<FileId>, evidence: Evidence, threshold: real, a: nat, b: nat, k: nat)
    requires Scored(ids, evidence) && a < b < k <= |ids|
    requires evidence[(ids[a], ids[b])] >= threshold
    ensures RowLinks(ids, evidence, threshold, a, k) != []
  {
    if k > b + 1 {
      LinkIsInRow(ids, evidence, threshold, a, b, k - 1);
    }
  }

  lemma {:induction false} LinkIsListed(ids: seq<FileId>, evidence: Evidence, threshold: real, a: nat, b: nat, i: nat)
    requires Scored(ids, evidence) && a < b < |ids| && a < i <= |ids|
    requires evidence[(ids[a], ids[b])] >= threshold
    ensures LinkScores(ids, evidence, threshold, i) != []
  {
    if i == a + 1 {
      LinkIsInRow(ids, evidence, threshold, a, b, |ids|);
    } else {
      LinkIsListed(ids, evidence, threshold, a, b, i - 1);
    }
  }

  lemma {:induction false} SumBounded(xs: seq<real>, low: real, high: real)
    requires Within(xs, low, high)
    ensures low * |xs| as real <= Sum(xs) <= high * |xs| as real
  {
    if |xs| > 0 {
      SumBounded(xs[..|xs| - 1], low, high);
      assert low * |xs| as real == low * (|xs| - 1) as real + low;
      assert high * |xs| as real == high * (|xs| - 1) as real + high;
    }
  }

  lemma MeanBounded(total: real, n: real, low: real, high: real)
    requires n > 0.0 && low * n <= total <= high * n
    ensures low <= total / n <= high
  {
    assert total / n - low == (total - low * n) / n;
    assert high - total / n == (high * n - total) / n;
  }

  lemma MeanOfLinks(ids: seq<FileId>, evidence: Evidence, threshold: real)
    requires Scored(ids, evidence) && LinkScores(ids, evidence, threshold, |ids|) != []
    requires forall p | p in evidence :: evidence[p] <= 1.0
    ensures var scores := LinkScores(ids, evidence, threshold, |ids|);
            threshold <= Sum(scores) / |scores| as real <= 1.0
  {
    var scores := LinkScores(ids, evidence, threshold, |ids|);
    LinkScoresBounded(ids, evidence, threshold, |ids|);
    SumBounded(scores, threshold, 1.0);
    MeanBounded(Sum(scores), |scores| as real, threshold, 1.0);
  }

  /**
   * A group has a linking pair exactly when it has several files; its
   * confidence is then a mean between the threshold and one.  A single file
   * carries the single-file marker and full confidence.
   */
  lemma GroupConfidence(g: Group, ids: set<FileId>, evidence: Evidence, threshold: real)
    requires IsGroup(g, ids, evidence, threshold)
    requires forall p | p in evidence :: evidence[p] <= 1.0 && p.0 < p.1 && p.0 in ids && p.1 in ids
    ensures g.single <==> |g.fileIds| == 1
    ensures g.single ==> g.confidence == 1.0
    ensures !g.single ==> threshold <= g.confidence <= 1.0
  {
    var scores := LinkScores(g.fileIds, evidence, threshold, |g.fileIds|);
    if |g.fileIds| == 1 {
      assert LinkScores(g.fileIds, evidence, threshold, 0) == RowLinks(g.fileIds, evidence, threshold, 0, 1) == [];
    } else {
      var a, b := LinkInside(g, ids, evidence, threshold);
      LinkIsListed(g.fileIds, evidence, threshold, a, b, |g.fileIds|);
      MeanOfLinks(g.fileIds, evidence, threshold);
    }
  }

  lemma SmallerComesFirst(ids: seq<FileId>, a: nat, b: nat)
    requires IdsAscend(ids) && a < |ids| && b < |ids| && ids[a] < ids[b]
    ensures a < b
  {
  }

  /** A component with several files contains a linking pair. */
  lemma LinkInside(g: Group, ids: set<FileId>, evidence: Evidence, threshold: real) returns (a: nat, b: nat)
    requires IsGroup(g, ids, evidence, threshold) && |g.fileIds| > 1
    requires forall p | p in evidence :: p.0 < p.1 && p.0 in ids && p.1 in ids
    ensures a < b < |g.fileIds| && evidence[(g.fileIds[a], g.fileIds[b])] >= threshold
  {
    var links := Links(evidence, threshold);
    var x, y := g.fileIds[0], g.fileIds[1];
    assert ((a: FileId, b: FileId) => a < b)(x, y);
    assert x in g.fileIds && y in g.fileIds && y in ids && Connected(links, x, y);
    var path :| Chain(links, path) && path[0] == x && path[|path| - 1] == y;
    assert Adjacent(links, path[0], path[1]);
    EdgeConnects(links, path[0], path[1]);
    var p := if (path[0], path[1]) in links then (path[0], path[1]) else (path[1], path[0]);
    assert p in links && path[1] in ids && path[1] in g.fileIds;
    a :| 0 <= a < |g.fileIds| && g.fileIds[a] == p.0;
    b :| 0 <= b < |g.fileIds| && g.fileIds[b] == p.1;
    SmallerComesFirst(g.fileIds, a, b);
  }

  // ----- The algorithm -----

  /** The key of the pair at two positions. */
  function KeyAt(files: seq<FileId>, a: nat, b: nat): (FileId, FileId)
    requires a < |files| && b < |files|
  {
    PairKey(files[a], files[b])
  }

  lemma KeyAtInjective(files: seq<FileId>, a: nat, b: nat, c: nat, d: nat)
    requires Distinct(files) && a < b < |files| && c < d < |files|
    requires KeyAt(files, a, b) == KeyAt(files, c, d)
    ensures a == c && b == d
  {
    assert {files[a], files[b]} == {KeyAt(files, a, b).0, KeyAt(files, a, b).1} == {files[c], files[d]};
    assert files[a] in {files[c], files[d]} && files[b] in {files[c], files[d]};
  }

  /** The pairs of positions visited before (i, k). */
  predicate Visited(a: nat, b: nat, i: nat, k: nat) {
    a < i || (a == i && b < k)
  }

  ghost predicate Recorded(files: seq<FileId>, score: (FileId, FileId) -> real, evidence: Evidence, i: nat, k: nat) {
    && (forall a: nat, b: nat {:trigger KeyAt(files, a, b)} | a < b < |files| ::
          (KeyAt(files, a, b) in evidence <==> Visited(a, b, i, k))
          && (Visited(a, b, i, k) ==> evidence[KeyAt(files, a, b)] == score(files[a], files[b])))
    && (forall p | p in evidence :: p.0 < p.1 && p.0 in files && p.1 in files)
  }

  lemma RecordNext(files: seq<FileId>, score: (FileId, FileId) -> real, evidence: Evidence, i: nat, k: nat)
    requires Distinct(files) && i < k < |files| && Recorded(files, score, evidence, i, k)
    ensures KeyAt(files, i, k) !in evidence
    ensures Recorded(files, score, evidence[KeyAt(files, i, k) := score(files[i], files[k])], i, k + 1)
  {
    var key := KeyAt(files, i, k);
    assert files[i] != files[k];
    forall a: nat, b: nat | a < b < |files| && KeyAt(files, a, b) == key ensures a == i && b == k {
      KeyAtInjective(files, a, b, i, k);
    }
  }

  lemma RecordNextRow(files: seq<FileId>, score: (FileId, FileId) -> real, evidence: Evidence, i: nat)
    requires Recorded(files, score, evidence, i, |files|)
    ensures Recorded(files, score, evidence, i + 1, i + 2)
  {
  }

  lemma RecordComplete(files: seq<FileId>, score: (FileId, FileId) -> real, evidence: Evidence)
    requires Recorded(files, score, evidence, |files|, |files| + 1)
    ensures EvidenceOf(files, score, evidence)
  {
    forall i, k | 0 <= i < k < |files|
      ensures PairKey(files[i], files[k]) in evidence && evidence[PairKey(files[i], files[k])] == score(files[i], files[k])
    {
      assert KeyAt(files, i, k) in evidence;
    }
  }

  lemma LinksOfNext(evidence: Evidence, threshold: real, key: (FileId, FileId), s: real)
    requires key !in evidence
    ensures Links(evidence[key := s], threshold) == Links(evidence, threshold) + if s >= threshold then {key} else {}
  {
  }

  /** Scores every pair once and unites the pairs that reach the threshold. */
  method ScorePairs(files: seq<FileId>, score: (FileId, FileId) -> real, threshold: real, sets: DisjointSets)
    returns (evidence: Evidence)
    requires Distinct(files) && sets.parent.Keys == Elements(files) && Represents(sets.parent, {})
    modifies sets
    ensures EvidenceOf(files, score, evidence)
    ensures sets.parent.Keys == Elements(files) && Represents(sets.parent, Links(evidence, threshold))
  {
    evidence := map[];
    assert Links(evidence, threshold) == {};
    for i := 0 to |files|
      invariant Recorded(files, score, evidence, i, i + 1)
      invariant sets.parent.Keys == Elements(files) && Represents(sets.parent, Links(evidence, threshold))
    {
      for k := i + 1 to |files|
        invariant Recorded(files, score, evidence, i, k)
        invariant sets.parent.Keys == Elements(files) && Represents(sets.parent, Links(evidence, threshold))
      {
        evidence := ScorePair(files, score, threshold, sets, evidence, i, k);
      }
      RecordNextRow(files, score, evidence, i);
    }
    RecordComplete(files, score, evidence);
  }

  /** The body of the pair loop. */
  method ScorePair(files: seq<FileId>, score: (FileId, FileId) -> real, threshold: real, sets: DisjointSets,
                   evidence: Evidence, i: nat, k: nat)
    returns (next: Evidence)
    requires Distinct(files) && i < k < |files| && Recorded(files, score, evidence, i, k)
    requires sets.parent.Keys == Elements(files) && Represents(sets.parent, Links(evidence, threshold))
    modifies sets
    ensures Recorded(files, score, next, i, k + 1)
    ensures sets.parent.Keys == Elements(files) && Represents(sets.parent, Links(next, threshold))
  {
    var left, right := files[i], files[k];
    var pairScore := score(left, right);
    var key := PairKey(left, right);
    RecordNext(files, score, evidence, i, k);
    assert key == KeyAt(files, i, k);
    LinksOfNext(evidence, threshold, key, pairScore);
    next := evidence[key := pairScore];
    if pairScore >= threshold {
      assert left in Elements(files) && right in Elements(files);
      sets.Union(left, right, Links(evidence, threshold), key);
    } else {
      assert Links(next, threshold) == Links(evidence, threshold);
    }
  }

  /** `rootOf` lists the roots of a parent map, which path halving does not move. */
  ghost predicate RootsAre(parent: Parents, rootOf: Parents) {
    Descending(parent) && parent.Keys == rootOf.Keys && forall y {:trigger Root(parent, y)} | y in parent :: Root(parent, y) == rootOf[y]
  }

  ghost function RootMap(parent: Parents): (rootOf: Parents)
    requires Descending(parent)
    ensures RootsAre(parent, rootOf)
  {
    map x | x in parent :: Root(parent, x)
  }

  lemma HalvedRootsAre(parent: Parents, other: Parents, rootOf: Parents)
    requires RootsAre(parent, rootOf) && SameRoots(parent, other)
    ensures RootsAre(other, rootOf)
  {
  }

  /** The members collected so far for one root. */
  ghost predicate ClassSoFar(seen: seq<FileId>, rootOf: Parents, members: seq<FileId>, root: FileId) {
    && Distinct(members)
    && forall x :: x in members <==> x in seen && x in rootOf && rootOf[x] == root
  }

  ghost predicate ClassesSoFar(seen: seq<FileId>, rootOf: Parents, order: seq<FileId>, classes: map<FileId, seq<FileId>>) {
    && Distinct(order) && (forall r :: r in order <==> r in classes)
    && (forall r | r in classes :: |classes[r]| > 0 && ClassSoFar(seen, rootOf, classes[r], r))
    && (forall x | x in seen && x in rootOf :: rootOf[x] in classes)
  }

  lemma NextFileJoinsClass(seen: seq<FileId>, rootOf: Parents, order: seq<FileId>, classes: map<FileId, seq<FileId>>, x: FileId)
    requires x in rootOf && x !in seen && ClassesSoFar(seen, rootOf, order, classes)
    ensures var root := rootOf[x];
            ClassesSoFar(seen + [x], rootOf, if root in classes then order else order + [root],
                         classes[root := (if root in classes then classes[root] else []) + [x]])
  {
    var root := rootOf[x];
    var members := if root in classes then classes[root] else [];
    var classes' := classes[root := members + [x]];
    assert ClassSoFar(seen, rootOf, members, root);
    assert ClassSoFar(seen + [x], rootOf, members + [x], root);
    forall r | r in classes' && r != root ensures ClassSoFar(seen + [x], rootOf, classes'[r], r) {
      assert ClassSoFar(seen, rootOf, classes[r], r);
    }
  }

  method FindRoot(sets: DisjointSets, x: FileId, ghost rootOf: Parents) returns (root: FileId)
    requires RootsAre(sets.parent, rootOf) && x in rootOf
    modifies sets
    ensures RootsAre(sets.parent, rootOf) && root == rootOf[x]
  {
    root := sets.Find(x);
    HalvedRootsAre(old(sets.parent), sets.parent, rootOf);
  }

  /** Files by root, in the order in which the roots are first met. */
  method CollectClasses(files: seq<FileId>, sets: DisjointSets, ghost rootOf: Parents)
    returns (order: seq<FileId>, classes: map<FileId, seq<FileId>>)
    requires Distinct(files) && RootsAre(sets.parent, rootOf) && forall x | x in files :: x in rootOf
    modifies sets
    ensures ClassesSoFar(files, rootOf, order, classes)
  {
    order, classes := [], map[];
    for n := 0 to |files|
      invariant RootsAre(sets.parent, rootOf)
      invariant ClassesSoFar(files[..n], rootOf, order, classes)
    {
      var x := files[n];
      assert x in files && x !in files[..n];
      var root := FindRoot(sets, x, rootOf);
      order, classes := AddToClass(files[..n], rootOf, order, classes, x, root);
      assert files[..n + 1] == files[..n] + [x];
    }
    assert files[..|files|] == files;
  }

  /** Appends a file to the list of its root, opening the list on first sight. */
  method AddToClass(ghost seen: seq<FileId>, ghost rootOf: Parents, order: seq<FileId>,
                    classes: map<FileId, seq<FileId>>, x: FileId, root: FileId)
    returns (order': seq<FileId>, classes': map<FileId, seq<FileId>>)
    requires x in rootOf && root == rootOf[x] && x !in seen && ClassesSoFar(seen, rootOf, order, classes)
    ensures ClassesSoFar(seen + [x], rootOf, order', classes')
  {
    NextFileJoinsClass(seen, rootOf, order, classes, x);
    order', classes' := order, classes;
    if root !in classes {
      order', classes' := order + [root], classes[root := []];
    }
    classes' := classes'[root := classes'[root] + [x]];
    assert classes' == classes[root := (if root in classes then classes[root] else []) + [x]];
  }

  /** Renders one class: its linking pairs, their mean, and the marker for a lone file. */
  method RenderGroup(ids: seq<FileId>, evidence: Evidence, threshold: real) returns (g: Group)
    requires Scored(ids, evidence)
    ensures g == MakeGroup(ids, evidence, threshold)
  {
    var scores := [];
    for i := 0 to |ids|
      invariant scores == LinkScores(ids, evidence, threshold, i)
    {
      ghost var before := scores;
      for k := i + 1 to |ids|
        invariant scores == before + RowLinks(ids, evidence, threshold, i, k)
      {
        var pairScore := evidence[(ids[i], ids[k])];
        if pairScore < threshold {
          continue;
        }
        scores := scores + [pairScore];
      }
    }
    if scores == [] {
      return Group(ids, 1.0, true);
    }
    return Group(ids, Sum(scores) / |scores| as real, false);
  }

  /** The classes of a root map are the components of the linking pairs. */
  ghost predicate RootsSplit(rootOf: Parents, ids: set<FileId>, links: Edges) {
    && rootOf.Keys == ids
    && forall x, y | x in ids && y in ids :: rootOf[x] == rootOf[y] <==> Connected(links, x, y)
  }

  lemma RootsSplitComponents(parent: Parents, links: Edges, rootOf: Parents)
    requires Represents(parent, links) && RootsAre(parent, rootOf)
    ensures RootsSplit(rootOf, parent.Keys, links)
  {
    forall x, y | x in parent && y in parent ensures rootOf[x] == rootOf[y] <==> Connected(links, x, y) {
      SameRootIffConnected(parent, links, x, y);
    }
  }

  ghost predicate OfRoot(members: seq<FileId>, files: seq<FileId>, rootOf: Parents, root: FileId) {
    forall x :: x in members <==> x in files && x in rootOf && rootOf[x] == root
  }

  lemma PairsScored(ids: seq<FileId>, files: seq<FileId>, score: (FileId, FileId) -> real, evidence: Evidence)
    requires EvidenceOf(files, score, evidence) && IdsAscend(ids) && forall x | x in ids :: x in files
    ensures Scored(ids, evidence)
  {
    forall i, k | 0 <= i < k < |ids| ensures (ids[i], ids[k]) in evidence {
      assert ((a: FileId, b: FileId) => a < b)(ids[i], ids[k]);
      assert ids[i] in ids && ids[k] in ids;
      var a :| 0 <= a < |files| && files[a] == ids[i];
      var b :| 0 <= b < |files| && files[b] == ids[k];
      assert PairKey(files[a], files[b]) == PairKey(files[b], files[a]) == (ids[i], ids[k]);
    }
  }

  /** A sorted class is a group of the specification. */
  lemma ClassIsGroup(ids: seq<FileId>, files: seq<FileId>, evidence: Evidence, threshold: real, rootOf: Parents, root: FileId)
    requires RootsSplit(rootOf, Elements(files), Links(evidence, threshold))
    requires |ids| > 0 && IdsAscend(ids) && Scored(ids, evidence) && OfRoot(ids, files, rootOf, root)
    ensures IsGroup(MakeGroup(ids, evidence, threshold), Elements(files), evidence, threshold)
  {
    assert forall x :: x in files <==> x in Elements(files);
  }

  /** Sorts and renders the classes one after the other. */
  method RenderClasses(files: seq<FileId>, ghost score: (FileId, FileId) -> real, evidence: Evidence, threshold: real,
                       order: seq<FileId>, classes: map<FileId, seq<FileId>>, ghost rootOf: Parents)
    returns (groups: seq<Group>)
    requires EvidenceOf(files, score, evidence)
    requires RootsSplit(rootOf, Elements(files), Links(evidence, threshold))
    requires ClassesSoFar(files, rootOf, order, classes)
    ensures |groups| == |order|
    ensures forall n | 0 <= n < |order| ::
              IsGroup(groups[n], Elements(files), evidence, threshold) && OfRoot(groups[n].fileIds, files, rootOf, order[n])
  {
    groups := [];
    for n := 0 to |order|
      invariant |groups| == n
      invariant forall m | 0 <= m < n ::
                  IsGroup(groups[m], Elements(files), evidence, threshold) && OfRoot(groups[m].fileIds, files, rootOf, order[m])
    {
      assert order[n] in order && ClassSoFar(files, rootOf, classes[order[n]], order[n]);
      var group := RenderClass(files, score, evidence, threshold, classes[order[n]], order[n], rootOf);
      groups := groups + [group];
    }
  }

  method RenderClass(files: seq<FileId>, ghost score: (FileId, FileId) -> real, evidence: Evidence, threshold: real,
                     members: seq<FileId>, ghost root: FileId, ghost rootOf: Parents)
    returns (group: Group)
    requires EvidenceOf(files, score, evidence)
    requires RootsSplit(rootOf, Elements(files), Links(evidence, threshold))
    requires |members| > 0 && ClassSoFar(files, rootOf, members, root)
    ensures IsGroup(group, Elements(files), evidence, threshold) && OfRoot(group.fileIds, files, rootOf, root)
  {
    var sorted := SortBy((a: FileId, b: FileId) => a < b, members);
    assert forall x :: x in sorted <==> x in Elements(sorted);
    assert forall x :: x in members <==> x in Elements(members);
    PairsScored(sorted, files, score, evidence);
    group := RenderGroup(sorted, evidence, threshold);
    ClassIsGroup(sorted, files, evidence, threshold, rootOf, root);
  }

  lemma RenderedClassesCover(groups: seq<Group>, files: seq<FileId>, evidence: Evidence, threshold: real,
                             order: seq<FileId>, classes: map<FileId, seq<FileId>>, rootOf: Parents)
    requires rootOf.Keys == Elements(files) && ClassesSoFar(files, rootOf, order, classes) && |groups| == |order|
    requires forall n | 0 <= n < |order| ::
               IsGroup(groups[n], Elements(files), evidence, threshold) && OfRoot(groups[n].fileIds, files, rootOf, order[n])
    ensures forall i, k | 0 <= i < k < |groups| :: groups[i] != groups[k]
    ensures forall x | x in files :: exists n | 0 <= n < |groups| :: x in groups[n].fileIds
  {
    forall i, k | 0 <= i < k < |groups| ensures groups[i] != groups[k] {
      var x := groups[i].fileIds[0];
      assert x in groups[i].fileIds && rootOf[x] == order[i] != order[k];
    }
    forall x | x in files ensures exists n | 0 <= n < |groups| :: x in groups[n].fileIds {
      assert x in Elements(files);
      var n :| 0 <= n < |order| && order[n] == rootOf[x];
      assert x in groups[n].fileIds;
    }
  }

  /** The grouping service.  `score` compares an earlier file of the list with a later one. */
  method GroupRelatedDocuments(files: seq<FileId>, score: (FileId, FileId) -> real, threshold: real, naming: Naming)
    returns (r: Result<seq<Group>>, ghost evidence: Evidence)
    requires naming.Injective()
    ensures r.Err? <==> !(0.0 <= threshold <= 1.0) || !Distinct(files)
    ensures r.Ok? ==> EvidenceOf(files, score, evidence) && IsGrouping(r.value, Elements(files), evidence, threshold, naming)
  {
    evidence := map[];
    if threshold < 0.0 || threshold > 1.0 || !Distinct(files) {
      return Err(ValueError), evidence;
    }
    if files == [] {
      return Ok([]), evidence;
    }
    var order, classes, pairs, rootOf := FindClasses(files, score, threshold);
    evidence := pairs;
    var results := RenderClasses(files, score, pairs, threshold, order, classes, rootOf);
    RenderedClassesCover(results, files, evidence, threshold, order, classes, rootOf);
    RenderedOrderIsTotal(Elements(results), Elements(files), evidence, threshold, naming);
    var sorted := SortBy((g: Group, h: Group) => naming.Before(g, h), results);
    SortedGrouping(results, sorted, files, evidence, threshold, naming);
    return Ok(sorted), evidence;
  }

  /** Scores and unites the files, then lists them by root. */
  method FindClasses(files: seq<FileId>, score: (FileId, FileId) -> real, threshold: real)
    returns (order: seq<FileId>, classes: map<FileId, seq<FileId>>, evidence: Evidence, ghost rootOf: Parents)
    requires Distinct(files)
    ensures EvidenceOf(files, score, evidence)
    ensures RootsSplit(rootOf, Elements(files), Links(evidence, threshold))
    ensures ClassesSoFar(files, rootOf, order, classes)
  {
    var sets := new DisjointSets(set x | x in files);
    evidence := ScorePairs(files, score, threshold, sets);
    rootOf := RootMap(sets.parent);
    RootsSplitComponents(sets.parent, Links(evidence, threshold), rootOf);
    assert forall x | x in files :: x in Elements(files);
    order, classes := CollectClasses(files, sets, rootOf);
  }

  lemma SortedGrouping(results: seq<Group>, sorted: seq<Group>, files: seq<FileId>, evidence: Evidence,
                       threshold: real, naming: Naming)
    requires Elements(results) == Elements(sorted)
    requires forall n | 0 <= n < |results| :: IsGroup(results[n], Elements(files), evidence, threshold)
    requires forall x | x in files :: exists n | 0 <= n < |results| :: x in results[n].fileIds
    requires Ascending((g: Group, h: Group) => naming.Before(g, h), sorted)
    ensures IsGrouping(sorted, Elements(files), evidence, threshold, naming)
  {
    forall g | g in sorted ensures IsGroup(g, Elements(files), evidence, threshold) {
      assert g in Elements(sorted);
    }
    forall x | x in Elements(files) ensures exists g | g in sorted :: x in g.fileIds {
      var n :| 0 <= n < |results| && x in results[n].fileIds;
      assert results[n] in Elements(results);
      assert results[n] in sorted;
    }
  }
}
