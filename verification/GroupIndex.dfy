/** Which group each file belongs to, and whether the groups are in order. */
module GroupIndex {
  import opened Sorting

  type FileId = nat
  type GroupId = nat

  datatype Group = Group(id: GroupId, fileIds: seq<FileId>)

  function Repeat(g: GroupId, n: nat): seq<GroupId> {
    if n == 0 then [] else Repeat(g, n - 1) + [g]
  }

  /** The identifiers of the groups that list a file, once per listing. */
  function Memberships(groups: seq<Group>, f: FileId): seq<GroupId> {
    if groups == [] then []
    else
      var last := groups[|groups| - 1];
      Memberships(groups[..|groups| - 1], f) + Repeat(last.id, multiset(last.fileIds)[f])
  }

  predicate AllKnown(g: Group, known: set<FileId>) {
    forall f <- g.fileIds :: f in known
  }

  /** Every listed file is known, and no file is listed twice. */
  ghost predicate Orderly(groups: seq<Group>, known: set<FileId>) {
    (forall g <- groups :: AllKnown(g, known)) && forall f :: |Memberships(groups, f)| <= 1
  }

  lemma {:induction false} RepeatIs(g: GroupId, n: nat)
    ensures |Repeat(g, n)| == n && forall x <- Repeat(g, n) :: x == g
  {
    if n > 0 {
      RepeatIs(g, n - 1);
    }
  }

  lemma {:induction false} MembershipsMeanListed(groups: seq<Group>, f: FileId, id: GroupId)
    ensures id in Memberships(groups, f) <==> exists g <- groups :: g.id == id && f in g.fileIds
  {
    if groups != [] {
      var front, last := groups[..|groups| - 1], groups[|groups| - 1];
      MembershipsMeanListed(front, f, id);
      RepeatIs(last.id, multiset(last.fileIds)[f]);
      if id in Repeat(last.id, multiset(last.fileIds)[f]) {
        assert last in groups && last.id == id && f in last.fileIds;
      }
      if f in last.fileIds && last.id == id {
        var ids := Repeat(last.id, multiset(last.fileIds)[f]);
        assert ids[0] in ids;
      }
      assert forall g :: g in groups <==> g in front || g == last;
    }
  }

  lemma {:induction false} MembershipsCount(groups: seq<Group>, f: FileId, i: nat)
    requires i < |groups|
    ensures multiset(groups[i].fileIds)[f] <= |Memberships(groups, f)|
  {
    var front, last := groups[..|groups| - 1], groups[|groups| - 1];
    RepeatIs(last.id, multiset(last.fileIds)[f]);
    if i < |groups| - 1 {
      MembershipsCount(front, f, i);
    }
  }

  /** In orderly groups the files of one group are distinct. */
  lemma GroupFilesDistinct(groups: seq<Group>, known: set<FileId>, i: nat)
    requires Orderly(groups, known) && i < |groups|
    ensures Distinct(groups[i].fileIds)
  {
    forall f ensures multiset(groups[i].fileIds)[f] <= 1 {
      MembershipsCount(groups, f, i);
    }
    CountsOnceDistinct(groups[i].fileIds);
  }

  /** The groups read so far put every file into at most one group, the recorded one. */
  ghost predicate Indexed(groups: seq<Group>, known: set<FileId>, groupByFile: map<FileId, GroupId>) {
    && (forall g <- groups :: AllKnown(g, known))
    && forall f :: Memberships(groups, f) == if f in groupByFile then [groupByFile[f]] else []
  }

  /** The index after the given files, all entered for one group. */
  function Entered(start: map<FileId, GroupId>, ids: seq<FileId>, id: GroupId): map<FileId, GroupId> {
    if ids == [] then start else Entered(start, ids[..|ids| - 1], id)[ids[|ids| - 1] := id]
  }

  /** Every file is known and new when its turn comes. */
  predicate AllNew(start: map<FileId, GroupId>, ids: seq<FileId>, known: set<FileId>) {
    forall k | 0 <= k < |ids| :: ids[k] in known && ids[k] !in start && ids[k] !in ids[..k]
  }

  lemma {:induction false} EnteredIs(start: map<FileId, GroupId>, ids: seq<FileId>, id: GroupId, f: FileId)
    ensures f in Entered(start, ids, id) <==> f in start || f in ids
    ensures f in ids ==> Entered(start, ids, id)[f] == id
    ensures f !in ids && f in start ==> Entered(start, ids, id)[f] == start[f]
  {
    if ids != [] {
      EnteredIs(start, ids[..|ids| - 1], id, f);
      assert ids == ids[..|ids| - 1] + [ids[|ids| - 1]];
    }
  }

  method IndexGroup(g: Group, known: set<FileId>, start: map<FileId, GroupId>)
    returns (ok: bool, groupByFile: map<FileId, GroupId>)
    ensures ok <==> AllNew(start, g.fileIds, known)
    ensures ok ==> groupByFile == Entered(start, g.fileIds, g.id)
  {
    ok, groupByFile := true, start;
    for k := 0 to |g.fileIds|
      invariant ok <==> AllNew(start, g.fileIds[..k], known)
      invariant ok ==> groupByFile == Entered(start, g.fileIds[..k], g.id)
    {
      var f := g.fileIds[k];
      NextIsNew(start, g.fileIds, k, known);
      assert g.fileIds[..k + 1][..k] == g.fileIds[..k];
      if ok {
        EnteredIs(start, g.fileIds[..k], g.id, f);
      }
      if f !in known || f in groupByFile {
        ok := false;
      } else {
        groupByFile := groupByFile[f := g.id];
      }
    }
    assert g.fileIds[..|g.fileIds|] == g.fileIds;
  }

  lemma NextIsNew(start: map<FileId, GroupId>, ids: seq<FileId>, k: nat, known: set<FileId>)
    requires k < |ids|
    ensures AllNew(start, ids[..k + 1], known) <==>
            AllNew(start, ids[..k], known) && ids[k] in known && ids[k] !in start && ids[k] !in ids[..k]
  {
    assert ids[..k + 1][..k] == ids[..k];
    forall i | 0 <= i < k ensures ids[..k + 1][..i] == ids[..k][..i] && ids[..k + 1][i] == ids[..k][i] {
    }
    if AllNew(start, ids[..k + 1], known) {
      assert ids[..k + 1][k] == ids[k];
    }
  }

  lemma MembershipsNext(groups: seq<Group>, g: Group, f: FileId)
    ensures Memberships(groups + [g], f) == Memberships(groups, f) + Repeat(g.id, multiset(g.fileIds)[f])
    ensures |Memberships(groups + [g], f)| == |Memberships(groups, f)| + multiset(g.fileIds)[f]
    ensures multiset(g.fileIds)[f] == 1 ==> Repeat(g.id, multiset(g.fileIds)[f]) == [g.id]
  {
    assert (groups + [g])[..|groups|] == groups;
    RepeatIs(g.id, multiset(g.fileIds)[f]);
    assert Repeat(g.id, 0) == [];
  }

  /** A group keeps the order exactly when all of its files are known and new. */
  lemma OrderlyStep(groups: seq<Group>, g: Group, known: set<FileId>, start: map<FileId, GroupId>)
    requires Indexed(groups, known, start)
    ensures Orderly(groups + [g], known) <==> AllNew(start, g.fileIds, known)
  {
    var next, ids := groups + [g], g.fileIds;
    assert forall h :: h in next <==> h in groups || h == g;
    if AllNew(start, ids, known) {
      assert Distinct(ids) by {
        forall a, b | 0 <= a < b < |ids| ensures ids[a] != ids[b] {
          assert ids[..b][a] == ids[a];
        }
      }
      forall f ensures |Memberships(next, f)| <= 1 {
        MembershipsNext(groups, g, f);
        DistinctCountsOnce(ids, f);
      }
    }
    if Orderly(next, known) {
      forall k | 0 <= k < |ids| ensures ids[k] in known && ids[k] !in start && ids[k] !in ids[..k] {
        MembershipsNext(groups, g, ids[k]);
        assert AllKnown(g, known) && ids[k] in ids;
        if ids[k] in ids[..k] {
          var a :| 0 <= a < k && ids[a] == ids[k];
          RepeatedCountsTwice(ids, a, k);
        }
      }
    }
  }

  lemma IndexedStep(groups: seq<Group>, g: Group, known: set<FileId>, start: map<FileId, GroupId>)
    requires Indexed(groups, known, start) && Orderly(groups + [g], known)
    ensures Indexed(groups + [g], known, Entered(start, g.fileIds, g.id))
  {
    var index := Entered(start, g.fileIds, g.id);
    forall f ensures Memberships(groups + [g], f) == if f in index then [index[f]] else [] {
      MembershipsNext(groups, g, f);
      EnteredIs(start, g.fileIds, g.id, f);
      assert |Memberships(groups + [g], f)| <= 1;
      assert multiset(g.fileIds)[f] == 0 ==> Repeat(g.id, multiset(g.fileIds)[f]) == [];
    }
  }

  lemma DisorderStays(groups: seq<Group>, g: Group, known: set<FileId>)
    requires !Orderly(groups, known)
    ensures !Orderly(groups + [g], known)
  {
    assert forall h <- groups :: h in groups + [g];
    forall f ensures |Memberships(groups + [g], f)| >= |Memberships(groups, f)| {
      MembershipsNext(groups, g, f);
    }
  }

  method IndexGroups(groups: seq<Group>, known: set<FileId>) returns (ok: bool, groupByFile: map<FileId, GroupId>)
    ensures ok <==> Orderly(groups, known)
    ensures ok ==> Indexed(groups, known, groupByFile)
  {
    ok, groupByFile := true, map[];
    for n := 0 to |groups|
      invariant ok <==> Orderly(groups[..n], known)
      invariant ok ==> Indexed(groups[..n], known, groupByFile)
    {
      assert groups[..n + 1] == groups[..n] + [groups[n]];
      var clean, index := IndexGroup(groups[n], known, groupByFile);
      if ok {
        OrderlyStep(groups[..n], groups[n], known, groupByFile);
        if clean {
          IndexedStep(groups[..n], groups[n], known, groupByFile);
        }
      } else {
        DisorderStays(groups[..n], groups[n], known);
      }
      ok, groupByFile := ok && clean, index;
    }
    assert groups[..|groups|] == groups;
  }

  /** Every listing counts, also within one group. */
  lemma ListingsAddUp(groups: seq<Group>, g: Group, f: FileId)
    ensures |Memberships([], f)| == 0
    ensures |Memberships(groups + [g], f)| == |Memberships(groups, f)| + multiset(g.fileIds)[f]
  {
    assert (groups + [g])[..|groups|] == groups;
    RepeatIs(g.id, multiset(g.fileIds)[f]);
  }
}
