/** When the order in which the files are listed can be seen in the version groups. */
module GroupingOrder {
  import opened Sorting
  import opened Connectivity
  import opened DocumentGrouping

  /** The groups that the service returns for a list of files. */
  ghost predicate GroupsOf(files: seq<FileId>, score: (FileId, FileId) -> real, threshold: real, naming: Naming,
                           groups: seq<Group>)
  {
    exists evidence :: EvidenceOf(files, score, evidence) && IsGrouping(groups, Elements(files), evidence, threshold, naming)
  }

  ghost predicate GroupedAlike(files: seq<FileId>, shuffled: seq<FileId>, score: (FileId, FileId) -> real,
                               threshold: real, naming: Naming)
  {
    forall groups, others |
      GroupsOf(files, score, threshold, naming, groups) && GroupsOf(shuffled, score, threshold, naming, others) ::
      groups == others
  }

  /** Two lists of the same files of a set. */
  ghost predicate Reordered(files: seq<FileId>, shuffled: seq<FileId>, ids: set<FileId>) {
    Distinct(files) && Distinct(shuffled) && Elements(files) == Elements(shuffled) <= ids
  }

  /**
   * Grouping ignores the order of every list of files drawn from a set if and
   * only if the score gives both orders of each pair the same linking score, or
   * links the pair in neither.
   */
  lemma OrderInvisibleExactly(ids: set<FileId>, score: (FileId, FileId) -> real, threshold: real, naming: Naming)
    requires naming.Injective()
    ensures (forall files, shuffled | Reordered(files, shuffled, ids) ::
               GroupedAlike(files, shuffled, score, threshold, naming))
            <==> OrderBlind(score, ids, threshold)
  {
    if OrderBlind(score, ids, threshold) {
      forall files, shuffled | Reordered(files, shuffled, ids)
        ensures GroupedAlike(files, shuffled, score, threshold, naming)
      {
        OrderBlindGroupsAlike(files, shuffled, ids, score, threshold, naming);
      }
    } else {
      var a, b :| a in ids && b in ids && score(a, b) != score(b, a) && !(score(a, b) < threshold && score(b, a) < threshold);
      PairGroupedDifferently(a, b, score, threshold, naming);
      assert Elements([a, b]) == Elements([b, a]) <= ids;
      assert Reordered([a, b], [b, a], ids);
    }
  }

  lemma OrderBlindGroupsAlike(files: seq<FileId>, shuffled: seq<FileId>, ids: set<FileId>,
                              score: (FileId, FileId) -> real, threshold: real, naming: Naming)
    requires naming.Injective() && OrderBlind(score, ids, threshold) && Reordered(files, shuffled, ids)
    ensures GroupedAlike(files, shuffled, score, threshold, naming)
  {
    assert OrderBlind(score, Elements(files), threshold) by {
      assert forall a <- Elements(files) :: a in ids;
    }
    forall groups, others |
      GroupsOf(files, score, threshold, naming, groups) && GroupsOf(shuffled, score, threshold, naming, others)
      ensures groups == others
    {
      var evidence :|
        EvidenceOf(files, score, evidence) && IsGrouping(groups, Elements(files), evidence, threshold, naming);
      var otherEvidence :|
        EvidenceOf(shuffled, score, otherEvidence) && IsGrouping(others, Elements(shuffled), otherEvidence, threshold, naming);
      OrderIndependence(files, shuffled, score, evidence, otherEvidence, threshold, naming, groups, others);
    }
  }

  // ----- The groups of two files -----

  function Alone(f: FileId): Group { Group([f], 1.0, true) }

  function PairGroups(low: FileId, high: FileId, score: real, threshold: real, naming: Naming): seq<Group> {
    if score >= threshold then [Group([low, high], score, false)]
    else if naming.Before(Alone(low), Alone(high)) then [Alone(low), Alone(high)]
    else [Alone(high), Alone(low)]
  }

  lemma PairGroupsAreGrouping(low: FileId, high: FileId, score: real, threshold: real, naming: Naming)
    requires low < high && naming.Injective()
    ensures IsGrouping(PairGroups(low, high, score, threshold, naming), {low, high}, map[(low, high) := score], threshold, naming)
  {
    var evidence: Evidence := map[(low, high) := score];
    if score >= threshold {
      TogetherIsGroup(low, high, evidence, threshold);
    } else {
      AloneIsGroup(low, high, low, evidence, threshold);
      AloneIsGroup(low, high, high, evidence, threshold);
      assert low in Alone(low).fileIds && high in Alone(high).fileIds;
      assert naming.digest([low]) == naming.digest([high]) ==> [low] == [high];
      assert [low][0] != [high][0];
      var groups := PairGroups(low, high, score, threshold, naming);
      assert Alone(low) in groups && Alone(high) in groups;
    }
  }

  lemma TogetherIsGroup(low: FileId, high: FileId, evidence: Evidence, threshold: real)
    requires low < high && evidence.Keys == {(low, high)} && evidence[(low, high)] >= threshold
    ensures IsGroup(Group([low, high], evidence[(low, high)], false), {low, high}, evidence, threshold)
  {
    var links := Links(evidence, threshold);
    PairLinkScores(low, high, evidence, threshold);
    assert (low, high) in links;
    EdgeConnects(links, low, high);
    EdgeConnects(links, high, low);
    ConnectedReflexive(links, low);
    ConnectedReflexive(links, high);
    assert (low, high) in evidence;
  }

  lemma AloneIsGroup(low: FileId, high: FileId, f: FileId, evidence: Evidence, threshold: real)
    requires low < high && f in {low, high} && evidence.Keys == {(low, high)} && evidence[(low, high)] < threshold
    ensures IsGroup(Alone(f), {low, high}, evidence, threshold)
  {
    var links := Links(evidence, threshold);
    assert (low, high) in evidence;
    assert links == {};
    assert LinkScores([f], evidence, threshold, 1) == [] by {
      assert RowLinks([f], evidence, threshold, 0, 1) == [];
      assert LinkScores([f], evidence, threshold, 0) == [];
    }
    ConnectedReflexive(links, f);
    forall y | y != f ensures !Connected(links, f, y) {
      NoLinksConnectNothing(f, y);
    }
  }

  lemma NoLinksConnectNothing(a: FileId, b: FileId)
    ensures Connected({}, a, b) ==> a == b
  {
    forall path | Chain({}, path) && path[0] == a && path[|path| - 1] == b ensures a == b {
      assert |path| > 1 ==> Adjacent({}, path[0], path[1]);
    }
  }

  lemma PairEvidence(a: FileId, b: FileId, score: (FileId, FileId) -> real)
    requires a != b
    ensures EvidenceOf([a, b], score, map[PairKey(a, b) := score(a, b)])
  {
    assert PairKey([a, b][0], [a, b][1]) == PairKey(a, b);
    assert a in [a, b] && b in [a, b];
  }

  lemma PairGroupsExist(a: FileId, b: FileId, score: (FileId, FileId) -> real, threshold: real, naming: Naming)
    requires a != b && naming.Injective()
    ensures var key := PairKey(a, b);
            GroupsOf([a, b], score, threshold, naming, PairGroups(key.0, key.1, score(a, b), threshold, naming))
  {
    var key := PairKey(a, b);
    var evidence: Evidence := map[key := score(a, b)];
    PairEvidence(a, b, score);
    PairGroupsAreGrouping(key.0, key.1, score(a, b), threshold, naming);
    assert Elements([a, b]) == {key.0, key.1};
  }

  lemma PairGroupedDifferently(a: FileId, b: FileId, score: (FileId, FileId) -> real, threshold: real, naming: Naming)
    requires naming.Injective() && score(a, b) != score(b, a)
    requires !(score(a, b) < threshold && score(b, a) < threshold)
    ensures !GroupedAlike([a, b], [b, a], score, threshold, naming)
  {
    var key := PairKey(a, b);
    assert PairKey(b, a) == key;
    PairGroupsExist(a, b, score, threshold, naming);
    PairGroupsExist(b, a, score, threshold, naming);
    assert PairGroups(key.0, key.1, score(a, b), threshold, naming)
           != PairGroups(key.0, key.1, score(b, a), threshold, naming);
  }

  /** A pair that scores 0.8 one way and 0.5 the other is one group or two, depending on which file is listed first. */
  lemma OrderMattersWitness(naming: Naming)
    requires naming.Injective()
    ensures var score := (a: FileId, b: FileId) => if a < b then 0.8 else 0.5;
            && GroupsOf([1, 2], score, 0.72, naming, [Group([1, 2], 0.8, false)])
            && GroupsOf([2, 1], score, 0.72, naming, PairGroups(1, 2, 0.5, 0.72, naming))
            && |PairGroups(1, 2, 0.5, 0.72, naming)| == 2
  {
    var score := (a: FileId, b: FileId) => if a < b then 0.8 else 0.5;
    PairGroupsExist(1, 2, score, 0.72, naming);
    PairGroupsExist(2, 1, score, 0.72, naming);
  }
}
