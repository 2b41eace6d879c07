/** What the confidence of a version group is, and in which order groups are returned. */
module GroupMean {
  import opened Sorting
  import opened Connectivity
  import opened DocumentGrouping

  type Pair = (FileId, FileId)

  // ----- Sums over sets of pairs -----

  /** The sum of the recorded scores of a set of pairs. */
  ghost function SumOf(pairs: set<Pair>, evidence: Evidence): real
    requires pairs <= evidence.Keys
  {
    if pairs == {} then 0.0
    else
      var p :| p in pairs;
      evidence[p] + SumOf(pairs - {p}, evidence)
  }

  /** Which pair is taken first makes no difference. */
  lemma {:induction false} SumOfWithout(pairs: set<Pair>, evidence: Evidence, p: Pair)
    requires pairs <= evidence.Keys && p in pairs
    ensures SumOf(pairs, evidence) == evidence[p] + SumOf(pairs - {p}, evidence)
    decreases |pairs|
  {
    var q :| q in pairs && SumOf(pairs, evidence) == evidence[q] + SumOf(pairs - {q}, evidence);
    if q != p {
      SumOfWithout(pairs - {q}, evidence, p);
      SumOfWithout(pairs - {p}, evidence, q);
      assert pairs - {q} - {p} == pairs - {p} - {q};
    }
  }

  lemma SumOfWith(pairs: set<Pair>, evidence: Evidence, p: Pair)
    requires pairs <= evidence.Keys && p in evidence && p !in pairs
    ensures SumOf(pairs + {p}, evidence) == SumOf(pairs, evidence) + evidence[p] && |pairs + {p}| == |pairs| + 1
  {
    SumOfWithout(pairs + {p}, evidence, p);
    assert pairs + {p} - {p} == pairs;
  }

  /** A list of scores sums up and counts a set of pairs. */
  ghost predicate Accounts(scores: seq<real>, pairs: set<Pair>, evidence: Evidence) {
    pairs <= evidence.Keys && Sum(scores) == SumOf(pairs, evidence) && |scores| == |pairs|
  }

  lemma SumNext(xs: seq<real>, x: real)
    ensures Sum(xs + [x]) == Sum(xs) + x
  {
    assert (xs + [x])[..|xs|] == xs;
  }

  lemma AccountsNext(scores: seq<real>, pairs: set<Pair>, evidence: Evidence, p: Pair)
    requires Accounts(scores, pairs, evidence) && p in evidence && p !in pairs
    ensures Accounts(scores + [evidence[p]], pairs + {p}, evidence)
  {
    SumOfWith(pairs, evidence, p);
    SumNext(scores, evidence[p]);
  }

  lemma {:induction false} SumOfParts(xs: seq<real>, ys: seq<real>)
    ensures Sum(xs + ys) == Sum(xs) + Sum(ys)
  {
    if |ys| == 0 {
      assert xs + ys == xs;
    } else {
      var front, last := ys[..|ys| - 1], ys[|ys| - 1];
      SumOfParts(xs, front);
      assert xs + ys == (xs + front) + [last];
      SumNext(xs + front, last);
    }
  }

  lemma {:induction false} SumOfUnion(a: set<Pair>, b: set<Pair>, evidence: Evidence)
    requires a <= evidence.Keys && b <= evidence.Keys && a !! b
    ensures SumOf(a + b, evidence) == SumOf(a, evidence) + SumOf(b, evidence)
    decreases |b|
  {
    if b == {} {
      assert a + b == a;
    } else {
      var p :| p in b;
      SumOfUnion(a, b - {p}, evidence);
      SumOfWith(a + (b - {p}), evidence, p);
      assert a + b == a + (b - {p}) + {p};
      SumOfWithout(b, evidence, p);
    }
  }

  lemma UnionAccounts(xs: seq<real>, ys: seq<real>, a: set<Pair>, b: set<Pair>, evidence: Evidence)
    requires Accounts(xs, a, evidence) && Accounts(ys, b, evidence) && a !! b
    ensures Accounts(xs + ys, a + b, evidence)
  {
    SumOfParts(xs, ys);
    SumOfUnion(a, b, evidence);
  }

  // ----- The listed scores are those of the linking pairs -----

  predicate Increasing(ids: seq<FileId>) {
    forall i, k | 0 <= i < k < |ids| :: ids[i] < ids[k]
  }

  lemma GroupsIncrease(ids: seq<FileId>)
    requires IdsAscend(ids)
    ensures Increasing(ids)
  {
    forall i, k | 0 <= i < k < |ids| ensures ids[i] < ids[k] {
      assert ((a: FileId, b: FileId) => a < b)(ids[i], ids[k]);
    }
  }

  /** The pairs whose scores a row lists. */
  function RowPairs(ids: seq<FileId>, evidence: Evidence, threshold: real, i: nat, k: nat): set<Pair>
    requires Scored(ids, evidence) && i < k <= |ids|
  {
    if k == i + 1 then {}
    else
      RowPairs(ids, evidence, threshold, i, k - 1)
      + if evidence[(ids[i], ids[k - 1])] >= threshold then {(ids[i], ids[k - 1])} else {}
  }

  function LinkPairs(ids: seq<FileId>, evidence: Evidence, threshold: real, i: nat): set<Pair>
    requires Scored(ids, evidence) && i <= |ids|
  {
    if i == 0 then {}
    else LinkPairs(ids, evidence, threshold, i - 1) + RowPairs(ids, evidence, threshold, i - 1, |ids|)
  }

  /** The pair stands at positions `a` and `b`. */
  predicate StandsAt(ids: seq<FileId>, a: int, b: int, p: Pair) {
    0 <= a < b < |ids| && p == (ids[a], ids[b])
  }

  lemma {:induction false} RowPairsAre(ids: seq<FileId>, evidence: Evidence, threshold: real, i: nat, k: nat, p: Pair)
    requires Scored(ids, evidence) && i < k <= |ids|
    ensures p in RowPairs(ids, evidence, threshold, i, k) <==>
            p in evidence && evidence[p] >= threshold && exists b | b < k :: StandsAt(ids, i, b, p)
  {
    if k > i + 1 {
      RowPairsAre(ids, evidence, threshold, i, k - 1, p);
      assert StandsAt(ids, i, k - 1, (ids[i], ids[k - 1]));
    }
  }

  lemma {:induction false} LinkPairsAre(ids: seq<FileId>, evidence: Evidence, threshold: real, i: nat, p: Pair)
    requires Scored(ids, evidence) && i <= |ids|
    ensures p in LinkPairs(ids, evidence, threshold, i) <==>
            p in evidence && evidence[p] >= threshold && exists a, b | a < i :: StandsAt(ids, a, b, p)
  {
    if i > 0 {
      LinkPairsAre(ids, evidence, threshold, i - 1, p);
      RowPairsAre(ids, evidence, threshold, i - 1, |ids|, p);
    }
  }

  lemma PairAccounts(ids: seq<FileId>, evidence: Evidence, threshold: real, i: nat, k: nat)
    requires Increasing(ids) && Scored(ids, evidence) && i < k < |ids|
    requires Accounts(RowLinks(ids, evidence, threshold, i, k), RowPairs(ids, evidence, threshold, i, k), evidence)
    ensures Accounts(RowLinks(ids, evidence, threshold, i, k + 1), RowPairs(ids, evidence, threshold, i, k + 1), evidence)
  {
    var p := (ids[i], ids[k]);
    RowPairsAre(ids, evidence, threshold, i, k, p);
    if evidence[p] >= threshold {
      AccountsNext(RowLinks(ids, evidence, threshold, i, k), RowPairs(ids, evidence, threshold, i, k), evidence, p);
    } else {
      assert RowPairs(ids, evidence, threshold, i, k + 1) == RowPairs(ids, evidence, threshold, i, k);
      assert RowLinks(ids, evidence, threshold, i, k + 1) == RowLinks(ids, evidence, threshold, i, k);
    }
  }

  lemma {:induction false} RowAccounts(ids: seq<FileId>, evidence: Evidence, threshold: real, i: nat, k: nat)
    requires Increasing(ids) && Scored(ids, evidence) && i < k <= |ids|
    ensures Accounts(RowLinks(ids, evidence, threshold, i, k), RowPairs(ids, evidence, threshold, i, k), evidence)
  {
    if k > i + 1 {
      RowAccounts(ids, evidence, threshold, i, k - 1);
      PairAccounts(ids, evidence, threshold, i, k - 1);
    }
  }

  lemma RowsAreDisjoint(ids: seq<FileId>, evidence: Evidence, threshold: real, i: nat)
    requires Increasing(ids) && Scored(ids, evidence) && i < |ids|
    ensures LinkPairs(ids, evidence, threshold, i) !! RowPairs(ids, evidence, threshold, i, |ids|)
  {
    forall p | p in LinkPairs(ids, evidence, threshold, i) ensures p !in RowPairs(ids, evidence, threshold, i, |ids|) {
      LinkPairsAre(ids, evidence, threshold, i, p);
      RowPairsAre(ids, evidence, threshold, i, |ids|, p);
    }
  }

  ghost predicate RowsAccount(ids: seq<FileId>, evidence: Evidence, threshold: real, i: nat)
    requires Scored(ids, evidence) && i <= |ids|
  {
    Accounts(LinkScores(ids, evidence, threshold, i), LinkPairs(ids, evidence, threshold, i), evidence)
  }

  lemma NextRowAccounts(ids: seq<FileId>, evidence: Evidence, threshold: real, i: nat)
    requires Increasing(ids) && Scored(ids, evidence) && i < |ids|
    requires RowsAccount(ids, evidence, threshold, i)
    ensures RowsAccount(ids, evidence, threshold, i + 1)
  {
    RowAccounts(ids, evidence, threshold, i, |ids|);
    RowsAreDisjoint(ids, evidence, threshold, i);
    UnionAccounts(LinkScores(ids, evidence, threshold, i), RowLinks(ids, evidence, threshold, i, |ids|),
                  LinkPairs(ids, evidence, threshold, i), RowPairs(ids, evidence, threshold, i, |ids|), evidence);
  }

  lemma ScoresAccount(ids: seq<FileId>, evidence: Evidence, threshold: real, i: nat)
    requires Increasing(ids) && Scored(ids, evidence) && i <= |ids|
    ensures RowsAccount(ids, evidence, threshold, i)
  {
    for n := 0 to i
      invariant RowsAccount(ids, evidence, threshold, n)
    {
      NextRowAccounts(ids, evidence, threshold, n);
    }
  }

  /** The linking pairs inside a group. */
  ghost function LinksWithin(g: Group, evidence: Evidence, threshold: real): (r: set<Pair>)
    ensures r <= evidence.Keys
  {
    set p | p in evidence && p in Links(evidence, threshold) && p.0 in g.fileIds && p.1 in g.fileIds
  }

  lemma AllLinksAreListed(g: Group, evidence: Evidence, threshold: real)
    requires Increasing(g.fileIds) && Scored(g.fileIds, evidence) && forall p | p in evidence :: p.0 < p.1
    ensures LinksWithin(g, evidence, threshold) == LinkPairs(g.fileIds, evidence, threshold, |g.fileIds|)
  {
    var ids := g.fileIds;
    forall p ensures p in LinksWithin(g, evidence, threshold) <==> p in LinkPairs(ids, evidence, threshold, |ids|) {
      LinkPairsAre(ids, evidence, threshold, |ids|, p);
      if p in LinksWithin(g, evidence, threshold) {
        var a :| 0 <= a < |ids| && ids[a] == p.0;
        var b :| 0 <= b < |ids| && ids[b] == p.1;
        assert StandsAt(ids, a, b, p);
      }
    }
  }

  /** Full confidence without any linking pair, otherwise the mean of `n` scores with the given total. */
  predicate IsMean(g: Group, n: nat, total: real) {
    if n == 0 then g.confidence == 1.0 && g.single else !g.single && g.confidence * n as real == total
  }

  /** The confidence of a group with linking pairs is the mean of their recorded scores. */
  lemma ConfidenceIsMeanOfLinks(g: Group, ids: set<FileId>, evidence: Evidence, threshold: real)
    requires IsGroup(g, ids, evidence, threshold) && forall p | p in evidence :: p.0 < p.1
    ensures var pairs := LinksWithin(g, evidence, threshold); IsMean(g, |pairs|, SumOf(pairs, evidence))
  {
    GroupsIncrease(g.fileIds);
    var pairs := LinksOfGroup(g, evidence, threshold);
  }

  lemma LinksOfGroup(g: Group, evidence: Evidence, threshold: real) returns (pairs: set<Pair>)
    requires Increasing(g.fileIds) && Scored(g.fileIds, evidence) && g == MakeGroup(g.fileIds, evidence, threshold)
    requires forall p | p in evidence :: p.0 < p.1
    ensures pairs == LinksWithin(g, evidence, threshold) && IsMean(g, |pairs|, SumOf(pairs, evidence))
  {
    AllLinksAreListed(g, evidence, threshold);
    pairs := LinkPairs(g.fileIds, evidence, threshold, |g.fileIds|);
    var n, total := CountAndTotal(g.fileIds, evidence, threshold);
  }

  lemma CountAndTotal(ids: seq<FileId>, evidence: Evidence, threshold: real) returns (n: nat, total: real)
    requires Increasing(ids) && Scored(ids, evidence)
    ensures var pairs := LinkPairs(ids, evidence, threshold, |ids|);
            pairs <= evidence.Keys && n == |pairs| && total == SumOf(pairs, evidence)
    ensures IsMean(MakeGroup(ids, evidence, threshold), n, total)
  {
    ScoresAccount(ids, evidence, threshold, |ids|);
    MeanOfScores(ids, evidence, threshold);
    n := |LinkScores(ids, evidence, threshold, |ids|)|;
    total := Sum(LinkScores(ids, evidence, threshold, |ids|));
  }

  lemma MeanOfScores(ids: seq<FileId>, evidence: Evidence, threshold: real)
    requires Scored(ids, evidence)
    ensures var scores := LinkScores(ids, evidence, threshold, |ids|);
            IsMean(MakeGroup(ids, evidence, threshold), |scores|, Sum(scores))
  {
    var scores := LinkScores(ids, evidence, threshold, |ids|);
    if |scores| > 0 {
      Divides(Sum(scores), |scores| as real);
    }
  }

  lemma Divides(total: real, n: real)
    requires n != 0.0
    ensures total / n * n == total
  {
  }

  /** The groups come in the order of their rendered labels; equal labels are ordered by digest. */
  lemma GroupsComeInOrder(groups: seq<Group>, ids: set<FileId>, evidence: Evidence, threshold: real, naming: Naming, i: nat, k: nat)
    requires IsGrouping(groups, ids, evidence, threshold, naming) && i < k < |groups|
    ensures var a, b := groups[i].fileIds, groups[k].fileIds;
            naming.rank(a) <= naming.rank(b) && (naming.rank(a) == naming.rank(b) ==> naming.digest(a) < naming.digest(b))
  {
    assert ((g: Group, h: Group) => naming.Before(g, h))(groups[i], groups[k]);
  }

  lemma SumOfThree(evidence: Evidence, p: Pair, q: Pair, r: Pair)
    requires {p, q, r} <= evidence.Keys && p != q && q != r && p != r
    ensures SumOf({p, q, r}, evidence) == evidence[p] + evidence[q] + evidence[r] && |{p, q, r}| == 3
  {
    SumOfWith({}, evidence, p);
    SumOfWith({p}, evidence, q);
    SumOfWith({p, q}, evidence, r);
    assert {} + {p} == {p} && {p} + {q} == {p, q} && {p, q} + {r} == {p, q, r};
  }

  lemma LinksOfThree(g: Group, evidence: Evidence)
    requires evidence.Keys == {(1, 2), (1, 3), (2, 3)} && g.fileIds == [1, 2, 3]
    requires forall p | p in evidence :: evidence[p] >= 0.72
    ensures LinksWithin(g, evidence, 0.72) == {(1, 2), (1, 3), (2, 3)}
  {
  }

  /** Three files that all link: the group has the mean of the three scores. */
  lemma ThreeFilesWitness(g: Group, evidence: Evidence)
    requires evidence.Keys == {(1, 2), (1, 3), (2, 3)}
    requires evidence[(1, 2)] == 0.9 && evidence[(1, 3)] == 0.8 && evidence[(2, 3)] == 0.75
    requires g.fileIds == [1, 2, 3] && IsGroup(g, {1, 2, 3}, evidence, 0.72)
    ensures g.confidence * 3.0 == 2.45
  {
    ConfidenceIsMeanOfLinks(g, {1, 2, 3}, evidence, 0.72);
    LinksOfThree(g, evidence);
    SumOfThree(evidence, (1, 2), (1, 3), (2, 3));
  }
}
