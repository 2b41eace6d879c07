/**
 * The PDF half of the evidence graph: jobs are created, handed to parallel
 * workers that finish in any order, joined, and validated.
 */
module EvidenceGraph {
  import opened Options
  import opened Sorting
  import opened RecordMerge
  import opened GroupIndex
  import opened PdfMatching

  /** `score` is the score of a PDF against a candidate; group identifiers are unique. */
  datatype World = World(files: map<FileId, FileRecord>, documented: set<FileId>, groups: seq<Group>,
                         score: (FileId, FileId) -> nat, threshold: real)
  {
    function ScoreFor(pdf: FileId): FileId -> nat {
      (f: FileId) => score(pdf, f)
    }

    ghost predicate Valid() {
      DistinctKeys((g: Group) => g.id, groups) && forall pdf, f :: score(pdf, f) <= FULL
    }

    /** A parsed original with normalised content. */
    predicate Comparable(f: FileId, extension: Extension) {
      f in files && files[f].extension == extension && files[f].parsed && files[f].duplicateOf.None? && f in documented
    }
  }

  /** What is reported: a group lists an unknown file, a PDF is listed by `groups` groups, a worker failed. */
  datatype JobError =
    | UnknownFile(groupId: GroupId, fileId: FileId)
    | NotInOneGroup(pdf: FileId, groups: nat)
    | MatchFailed(pdf: FileId)

  ghost predicate WellGrouped(w: World) {
    Orderly(w.groups, w.files.Keys)
  }

  // ----- Collecting PDFs and creating jobs -----

  method CollectPdfCandidates(w: World) returns (ids: seq<FileId>)
    ensures Ascending((a: FileId, b: FileId) => a < b, ids)
    ensures forall f :: f in ids <==>
              f in w.files && w.files[f].extension == Pdf && w.files[f].parsed && w.files[f].duplicateOf.None? && f in w.documented
  {
    var list: seq<FileId> := ListOf(set f: FileId | f in w.files && w.Comparable(f, Pdf));
    ids := SortBy((a: FileId, b: FileId) => a < b, list);
    assert forall f :: f in ids <==> f in Elements(ids);
    assert forall f :: f in list <==> f in Elements(list);
  }

  function Sources(w: World, fileIds: seq<FileId>): seq<FileId> {
    if fileIds == [] then []
    else
      var last := fileIds[|fileIds| - 1];
      Sources(w, fileIds[..|fileIds| - 1]) + if w.Comparable(last, Editable) then [last] else []
  }

  lemma {:induction false} SourcesAre(w: World, fileIds: seq<FileId>)
    ensures forall f :: f in Sources(w, fileIds) <==> f in fileIds && w.Comparable(f, Editable)
    ensures Distinct(fileIds) ==> Distinct(Sources(w, fileIds))
  {
    if fileIds != [] {
      SourcesAre(w, fileIds[..|fileIds| - 1]);
      assert fileIds == fileIds[..|fileIds| - 1] + [fileIds[|fileIds| - 1]];
    }
  }

  predicate NonDecreasing(ids: seq<FileId>) {
    forall i, k | 0 <= i < k < |ids| :: ids[i] <= ids[k]
  }

  lemma InsertNonDecreasing(sorted: seq<FileId>, p: nat, x: FileId)
    requires NonDecreasing(sorted) && p <= |sorted|
    requires (forall i | 0 <= i < p :: sorted[i] <= x) && (p < |sorted| ==> x < sorted[p])
    ensures NonDecreasing(sorted[..p] + [x] + sorted[p..])
  {
    var next := sorted[..p] + [x] + sorted[p..];
    forall i, k | 0 <= i < k < |next| ensures next[i] <= next[k] {
      assert next[i] == if i < p then sorted[i] else if i == p then x else sorted[i - 1];
      assert next[k] == if k < p then sorted[k] else if k == p then x else sorted[k - 1];
      assert k > p ==> sorted[p] <= sorted[k - 1];
    }
  }

  lemma InsertKeepsOthers(sorted: seq<FileId>, p: nat, x: FileId)
    requires p <= |sorted|
    ensures multiset(sorted[..p] + [x] + sorted[p..]) == multiset(sorted) + multiset{x}
  {
    assert sorted == sorted[..p] + sorted[p..];
  }

  method SortIds(ids: seq<FileId>) returns (sorted: seq<FileId>)
    ensures multiset(sorted) == multiset(ids) && NonDecreasing(sorted)
  {
    sorted := [];
    for n := 0 to |ids|
      invariant multiset(sorted) == multiset(ids[..n]) && NonDecreasing(sorted)
    {
      var p := 0;
      while p < |sorted| && sorted[p] <= ids[n]
        invariant 0 <= p <= |sorted| && forall i | 0 <= i < p :: sorted[i] <= ids[n]
      {
        p := p + 1;
      }
      InsertNonDecreasing(sorted, p, ids[n]);
      InsertKeepsOthers(sorted, p, ids[n]);
      assert ids[..n + 1] == ids[..n] + [ids[n]];
      sorted := sorted[..p] + [ids[n]] + sorted[p..];
    }
    assert ids[..|ids|] == ids;
  }

  /** The groups that list a known file, once per listing. */
  function GroupsListing(w: World, f: FileId): seq<GroupId> {
    if f in w.files then Memberships(w.groups, f) else []
  }

  /** The job of a PDF that exactly one group lists. */
  ghost predicate IsJobFor(w: World, pdf: FileId, job: Job) {
    && GroupsListing(w, pdf) == [job.groupId] && job.pdf == pdf && job.status == Pending
    && NonDecreasing(job.candidates)
    && exists g <- w.groups :: g.id == job.groupId && multiset(job.candidates) == multiset(Sources(w, g.fileIds))
  }

  function Single(w: World, pdfs: seq<FileId>): seq<FileId> {
    if pdfs == [] then []
    else
      var last := pdfs[|pdfs| - 1];
      Single(w, pdfs[..|pdfs| - 1]) + if |GroupsListing(w, last)| == 1 then [last] else []
  }

  /** One error for every PDF without a group or with more than one, in order. */
  function Misgrouped(w: World, pdfs: seq<FileId>): seq<JobError> {
    if pdfs == [] then []
    else
      var last := pdfs[|pdfs| - 1];
      var count := |GroupsListing(w, last)|;
      Misgrouped(w, pdfs[..|pdfs| - 1]) + if count == 1 then [] else [NotInOneGroup(last, count)]
  }

  /** Creating the job of this PDF looks up a file that is not there. */
  ghost predicate LookupFails(w: World, pdf: FileId) {
    |GroupsListing(w, pdf)| == 1 && exists g <- w.groups :: g.id == GroupsListing(w, pdf)[0] && !AllKnown(g, w.files.Keys)
  }

  function UnknownIn(w: World, id: GroupId, fileIds: seq<FileId>): seq<JobError> {
    if fileIds == [] then []
    else
      var last := fileIds[|fileIds| - 1];
      UnknownIn(w, id, fileIds[..|fileIds| - 1]) + if last in w.files then [] else [UnknownFile(id, last)]
  }

  /** One error for every listing of an unknown file, in order. */
  function Unknown(w: World, groups: seq<Group>): seq<JobError> {
    if groups == [] then []
    else
      var last := groups[|groups| - 1];
      Unknown(w, groups[..|groups| - 1]) + UnknownIn(w, last.id, last.fileIds)
  }

  lemma {:induction false} UnknownInIs(w: World, id: GroupId, fileIds: seq<FileId>)
    ensures forall e :: e in UnknownIn(w, id, fileIds) <==> exists f <- fileIds :: f !in w.files && e == UnknownFile(id, f)
  {
    if fileIds != [] {
      var front, last := fileIds[..|fileIds| - 1], fileIds[|fileIds| - 1];
      UnknownInIs(w, id, front);
      assert forall f :: f in fileIds <==> f in front || f == last;
    }
  }

  lemma {:induction false} UnknownIs(w: World, groups: seq<Group>)
    ensures forall e :: e in Unknown(w, groups) <==>
              exists g, f | g in groups && f in g.fileIds :: f !in w.files && e == UnknownFile(g.id, f)
  {
    if groups != [] {
      var front, last := groups[..|groups| - 1], groups[|groups| - 1];
      UnknownIs(w, front);
      UnknownInIs(w, last.id, last.fileIds);
      assert forall g :: g in groups <==> g in front || g == last;
    }
  }

  /** Every PDF gets a job or an error, never both. */
  lemma {:induction false} EveryPdfIsAccountedFor(w: World, pdfs: seq<FileId>)
    ensures |Single(w, pdfs)| + |Misgrouped(w, pdfs)| == |pdfs|
    ensures forall f :: f in Single(w, pdfs) <==> f in pdfs && |GroupsListing(w, f)| == 1
    ensures forall e :: e in Misgrouped(w, pdfs) <==>
              exists f <- pdfs :: |GroupsListing(w, f)| != 1 && e == NotInOneGroup(f, |GroupsListing(w, f)|)
  {
    if pdfs != [] {
      var front, last := pdfs[..|pdfs| - 1], pdfs[|pdfs| - 1];
      EveryPdfIsAccountedFor(w, front);
      assert forall f :: f in pdfs <==> f in front || f == last;
    }
  }

  /** A mutable list by file that starts out empty. */
  function At(groupsByFile: map<FileId, seq<GroupId>>, f: FileId): seq<GroupId> {
    if f in groupsByFile then groupsByFile[f] else []
  }

  /** The groups of each known file, recorded for some groups and for the first files of one more. */
  ghost predicate Listed(w: World, groups: seq<Group>, id: GroupId, extra: seq<FileId>, groupsByFile: map<FileId, seq<GroupId>>) {
    && groupsByFile.Keys <= w.files.Keys
    && forall f | f in w.files :: At(groupsByFile, f) == Memberships(groups, f) + Repeat(id, multiset(extra)[f])
  }

  /** The record after one more listing; an unknown file is not recorded. */
  function Recorded(w: World, groupsByFile: map<FileId, seq<GroupId>>, f: FileId, id: GroupId): map<FileId, seq<GroupId>> {
    if f in w.files then groupsByFile[f := At(groupsByFile, f) + [id]] else groupsByFile
  }

  lemma CountNext(ids: seq<FileId>, id: FileId, f: FileId)
    ensures multiset(ids + [id])[f] == multiset(ids)[f] + if f == id then 1 else 0
  {
  }

  lemma ListedNext(w: World, groups: seq<Group>, id: GroupId, extra: seq<FileId>, groupsByFile: map<FileId, seq<GroupId>>, x: FileId)
    requires Listed(w, groups, id, extra, groupsByFile)
    ensures Listed(w, groups, id, extra + [x], Recorded(w, groupsByFile, x, id))
  {
    forall f | f in w.files ensures At(Recorded(w, groupsByFile, x, id), f) == Memberships(groups, f) + Repeat(id, multiset(extra + [x])[f]) {
      CountNext(extra, x, f);
    }
  }

  lemma ListedGroup(w: World, groups: seq<Group>, g: Group, groupsByFile: map<FileId, seq<GroupId>>)
    requires Listed(w, groups, g.id, g.fileIds, groupsByFile)
    ensures Listed(w, groups + [g], 0, [], groupsByFile)
  {
    assert (groups + [g])[..|groups|] == groups;
    forall f | f in w.files ensures At(groupsByFile, f) == Memberships(groups + [g], f) + Repeat(0, multiset([])[f]) {
      assert Repeat(0, 0) == [];
    }
  }

  ghost predicate Complete(w: World, groupsByFile: map<FileId, seq<GroupId>>) {
    forall f :: At(groupsByFile, f) == GroupsListing(w, f)
  }

  lemma UnknownInNext(w: World, id: GroupId, fileIds: seq<FileId>, f: FileId)
    ensures UnknownIn(w, id, fileIds + [f]) == UnknownIn(w, id, fileIds) + if f in w.files then [] else [UnknownFile(id, f)]
  {
    assert (fileIds + [f])[..|fileIds|] == fileIds;
  }

  lemma UnknownNext(w: World, groups: seq<Group>, g: Group)
    ensures Unknown(w, groups + [g]) == Unknown(w, groups) + UnknownIn(w, g.id, g.fileIds)
  {
    assert (groups + [g])[..|groups|] == groups;
  }

  method ListGroups(w: World) returns (groupsByFile: map<FileId, seq<GroupId>>, errors: seq<JobError>)
    ensures Complete(w, groupsByFile) && errors == Unknown(w, w.groups)
  {
    groupsByFile, errors := map[], [];
    for n := 0 to |w.groups|
      invariant Listed(w, w.groups[..n], 0, [], groupsByFile)
      invariant errors == Unknown(w, w.groups[..n])
    {
      assert w.groups[..n + 1] == w.groups[..n] + [w.groups[n]];
      UnknownNext(w, w.groups[..n], w.groups[n]);
      var unknown;
      groupsByFile, unknown := ListGroup(w, w.groups[..n], w.groups[n], groupsByFile);
      ListedGroup(w, w.groups[..n], w.groups[n], groupsByFile);
      errors := errors + unknown;
    }
    assert w.groups[..|w.groups|] == w.groups;
  }

  method ListGroup(w: World, ghost before: seq<Group>, g: Group, start: map<FileId, seq<GroupId>>)
    returns (groupsByFile: map<FileId, seq<GroupId>>, errors: seq<JobError>)
    requires Listed(w, before, 0, [], start)
    ensures Listed(w, before, g.id, g.fileIds, groupsByFile)
    ensures errors == UnknownIn(w, g.id, g.fileIds)
  {
    groupsByFile, errors := start, [];
    for k := 0 to |g.fileIds|
      invariant Listed(w, before, g.id, g.fileIds[..k], groupsByFile)
      invariant errors == UnknownIn(w, g.id, g.fileIds[..k])
    {
      var f := g.fileIds[k];
      assert g.fileIds[..k + 1] == g.fileIds[..k] + [f];
      UnknownInNext(w, g.id, g.fileIds[..k], f);
      ListedNext(w, before, g.id, g.fileIds[..k], groupsByFile, f);
      if f !in w.files {
        errors := errors + [UnknownFile(g.id, f)];
      } else {
        groupsByFile := groupsByFile[f := At(groupsByFile, f) + [g.id]];
      }
    }
    assert g.fileIds[..|g.fileIds|] == g.fileIds;
  }

  method FindGroup(w: World, id: GroupId) returns (g: Group)
    requires w.Valid() && exists h <- w.groups :: h.id == id
    ensures g in w.groups && g.id == id && forall h <- w.groups :: h.id == id ==> h == g
  {
    var n := 0;
    while w.groups[n].id != id
      invariant 0 <= n < |w.groups| && forall i | 0 <= i < n :: w.groups[i].id != id
      decreases |w.groups| - n
    {
      n := n + 1;
    }
    g := w.groups[n];
    var key := (h: Group) => h.id;
    forall i | 0 <= i < |w.groups| && w.groups[i].id == id ensures i == n {
      assert key(w.groups[i]) == key(w.groups[n]);
    }
  }

  /**
   * One job per PDF that exactly one group lists, in order; every other PDF
   * and every listing of an unknown file leaves its error.  The errors are lost
   * when the group of such a PDF lists an unknown file, because collecting its
   * sources then fails.
   */
  method CreatePdfMatchJobs(w: World, pdfs: seq<FileId>) returns (r: Result<(seq<Job>, seq<JobError>)>)
    requires w.Valid()
    ensures r.Err? <==> SomeLookupFails(w, pdfs)
    ensures r.Ok? ==> JobsFor(w, pdfs, r.value.0)
    ensures r.Ok? ==> r.value.1 == Unknown(w, w.groups) + Misgrouped(w, pdfs)
  {
    var groupsByFile, unknown := ListGroups(w);
    var jobs: seq<Job>, misgrouped: seq<JobError> := [], [];
    for n := 0 to |pdfs|
      invariant !SomeLookupFails(w, pdfs[..n])
      invariant JobsFor(w, pdfs[..n], jobs) && misgrouped == Misgrouped(w, pdfs[..n])
    {
      var created, error := JobOrError(w, pdfs[n], At(groupsByFile, pdfs[n]));
      LookupNext(w, pdfs, n);
      if created.Err? {
        return Err(created.error);
      }
      NextPdf(w, pdfs[..n], pdfs[n], jobs, created.value, error);
      assert pdfs[..n + 1] == pdfs[..n] + [pdfs[n]];
      jobs, misgrouped := jobs + created.value, misgrouped + error;
    }
    assert pdfs[..|pdfs|] == pdfs;
    return Ok((jobs, unknown + misgrouped));
  }

  /** The lookup fails for one of the PDFs. */
  ghost predicate SomeLookupFails(w: World, pdfs: seq<FileId>) {
    exists pdf <- pdfs :: LookupFails(w, pdf)
  }

  lemma LookupNext(w: World, pdfs: seq<FileId>, n: nat)
    requires n < |pdfs|
    ensures SomeLookupFails(w, pdfs[..n + 1]) <==> SomeLookupFails(w, pdfs[..n]) || LookupFails(w, pdfs[n])
    ensures LookupFails(w, pdfs[n]) ==> SomeLookupFails(w, pdfs)
  {
    assert pdfs[n] in pdfs && pdfs[..n + 1] == pdfs[..n] + [pdfs[n]];
  }

  /** One job for each PDF that exactly one group lists, in the order of the PDFs. */
  ghost predicate JobsFor(w: World, pdfs: seq<FileId>, jobs: seq<Job>) {
    |jobs| == |Single(w, pdfs)| && forall i | 0 <= i < |jobs| :: IsJobFor(w, Single(w, pdfs)[i], jobs[i])
  }

  /** The body of the loop: a job, an error, or the failed lookup. */
  method JobOrError(w: World, pdf: FileId, ids: seq<GroupId>) returns (created: Result<seq<Job>>, errors: seq<JobError>)
    requires w.Valid() && ids == GroupsListing(w, pdf)
    ensures created.Err? <==> LookupFails(w, pdf)
    ensures created.Ok? ==> JobsOf(w, pdf, created.value)
    ensures errors == if |ids| == 1 then [] else [NotInOneGroup(pdf, |ids|)]
  {
    if |ids| != 1 {
      return Ok([]), [NotInOneGroup(pdf, |ids|)];
    }
    var job := CreateJob(w, pdf, ids[0]);
    if job.Err? {
      return Err(job.error), [];
    }
    return Ok([job.value]), [];
  }

  /** No job or one, as the PDF is listed. */
  ghost predicate JobsOf(w: World, pdf: FileId, jobs: seq<Job>) {
    if |GroupsListing(w, pdf)| == 1 then |jobs| == 1 && IsJobFor(w, pdf, jobs[0]) else jobs == []
  }

  lemma NextPdf(w: World, pdfs: seq<FileId>, pdf: FileId, jobs: seq<Job>, more: seq<Job>, error: seq<JobError>)
    requires JobsFor(w, pdfs, jobs) && JobsOf(w, pdf, more)
    requires error == if |GroupsListing(w, pdf)| == 1 then [] else [NotInOneGroup(pdf, |GroupsListing(w, pdf)|)]
    ensures JobsFor(w, pdfs + [pdf], jobs + more) && Misgrouped(w, pdfs + [pdf]) == Misgrouped(w, pdfs) + error
  {
    assert (pdfs + [pdf])[..|pdfs|] == pdfs;
    if |GroupsListing(w, pdf)| == 1 {
      NextJob(w, pdfs, pdf, jobs, more[0]);
      assert more == [more[0]];
    } else {
      assert jobs + more == jobs;
    }
  }

  lemma NextJob(w: World, pdfs: seq<FileId>, pdf: FileId, jobs: seq<Job>, job: Job)
    requires JobsFor(w, pdfs, jobs) && |GroupsListing(w, pdf)| == 1 && IsJobFor(w, pdf, job)
    ensures JobsFor(w, pdfs + [pdf], jobs + [job])
  {
    assert (pdfs + [pdf])[..|pdfs|] == pdfs;
    assert Single(w, pdfs + [pdf]) == Single(w, pdfs) + [pdf];
  }

  method CreateJob(w: World, pdf: FileId, id: GroupId) returns (r: Result<Job>)
    requires w.Valid() && GroupsListing(w, pdf) == [id]
    ensures r.Err? <==> LookupFails(w, pdf)
    ensures r.Ok? ==> IsJobFor(w, pdf, r.value)
  {
    MembershipsMeanListed(w.groups, pdf, id);
    assert id in Memberships(w.groups, pdf);
    var g := FindGroup(w, id);
    if !AllKnown(g, w.files.Keys) {
      return Err(LookupError);
    }
    var sources := SortIds(Sources(w, g.fileIds));
    return Ok(Job(id, pdf, sources, Pending));
  }

  /** One group listing a PDF and a missing file is enough to lose the report of the missing file. */
  lemma LookupFailureWitness(w: World)
    requires w.groups == [Group(0, [1, 2])] && 1 in w.files && 2 !in w.files
    ensures LookupFails(w, 1)
  {
    var g := w.groups[0];
    assert w.groups[..0] == [] && Memberships(w.groups[..0], 1) == [];
    assert multiset(g.fileIds)[1] == 1 && Repeat(0, 0) == [] && Repeat(0, 1) == [0];
    assert Memberships(w.groups, 1) == [0];
    assert g in w.groups && 2 in g.fileIds;
  }

  // ----- Fan-out, workers and join -----

  method FanOut(jobs: seq<Job>) returns (running: seq<Job>)
    ensures |running| == |jobs|
    ensures forall i | 0 <= i < |jobs| :: running[i] == if jobs[i].status == Pending then jobs[i].(status := Running) else jobs[i]
  {
    running := [];
    for n := 0 to |jobs|
      invariant |running| == n
      invariant forall i | 0 <= i < n :: running[i] == if jobs[i].status == Pending then jobs[i].(status := Running) else jobs[i]
    {
      running := running + [if jobs[n].status == Pending then jobs[n].(status := Running) else jobs[n]];
    }
  }

  predicate Succeeds(w: World, job: Job) {
    0.0 <= w.threshold <= 1.0 && Matchable(job, w.files)
  }

  function Settle(w: World, job: Job): Job {
    job.(status := if Succeeds(w, job) then Completed else Failed)
  }

  ghost function ExportFor(w: World, job: Job): Export {
    ExportOf(job.groupId, job.pdf, Elements(job.candidates), w.ScoreFor(job.pdf), w.threshold)
  }

  /** One worker on its own copy of the state. */
  method RunWorker(w: World, job: Job) returns (done: Job, exports: seq<Export>, errors: seq<JobError>)
    requires w.Valid()
    ensures done == Settle(w, job)
    ensures exports == if Succeeds(w, job) then [ExportFor(w, job)] else []
    ensures errors == if Succeeds(w, job) then [] else [MatchFailed(job.pdf)]
  {
    var result := MatchPdfToSourceVersion(job, w.files, w.ScoreFor(job.pdf), w.threshold);
    if result.Ok? {
      return job.(status := Completed), [result.value], [];
    }
    return job.(status := Failed), [], [MatchFailed(job.pdf)];
  }

  /** The identifier of a job or an export is a digest of its group and PDF. */
  function JobKey(): Job -> (GroupId, FileId) {
    (j: Job) => (j.groupId, j.pdf)
  }

  function ExportKey(): Export -> (GroupId, FileId) {
    (e: Export) => (e.groupId, e.pdf)
  }

  datatype Board = Board(jobs: seq<Job>, exports: seq<Export>, errors: seq<JobError>)

  /** The state after the workers of `order` have reported, in that order. */
  ghost function AfterWorkers(w: World, start: Board, order: seq<Job>): Board {
    if order == [] then start
    else
      var before, job := AfterWorkers(w, start, order[..|order| - 1]), order[|order| - 1];
      Reported(w, before, job)
  }

  /** The state after one worker has reported. */
  ghost function Reported(w: World, before: Board, job: Job): Board {
    var jobs := MergeInto(JobKey(), before.jobs, [Settle(w, job)]);
    if Succeeds(w, job) then Board(jobs, MergeInto(ExportKey(), before.exports, [ExportFor(w, job)]), before.errors)
    else Board(jobs, before.exports, before.errors + [MatchFailed(job.pdf)])
  }

  method RunAllWorkers(w: World, start: Board, order: seq<Job>) returns (board: Board)
    requires w.Valid() && DistinctKeys(JobKey(), start.jobs) && DistinctKeys(ExportKey(), start.exports)
    ensures board == AfterWorkers(w, start, order)
  {
    board := start;
    for n := 0 to |order|
      invariant board == AfterWorkers(w, start, order[..n])
      invariant DistinctKeys(JobKey(), board.jobs) && DistinctKeys(ExportKey(), board.exports)
    {
      assert order[..n + 1][..n] == order[..n];
      var done, exports, errors := RunWorker(w, order[n]);
      var jobs := MergeById(JobKey(), board.jobs, [done]);
      exports := MergeById(ExportKey(), board.exports, exports);
      board := Board(jobs, exports, board.errors + errors);
    }
    assert order[..|order|] == order;
  }

  /** Which jobs have settled and which exports and errors exist once the jobs of `done` have reported. */
  ghost predicate Progress(w: World, jobs: seq<Job>, done: seq<Job>, board: Board) {
    && |board.jobs| == |jobs| && DistinctKeys(ExportKey(), board.exports)
    && (forall i | 0 <= i < |jobs| :: board.jobs[i] == if jobs[i] in done then Settle(w, jobs[i]) else jobs[i])
    && (forall e :: e in board.exports <==> exists j <- done :: Succeeds(w, j) && e == ExportFor(w, j))
    && (forall e :: e in board.errors <==> exists j <- done :: !Succeeds(w, j) && e == MatchFailed(j.pdf))
  }

  lemma ProgressStep(w: World, jobs: seq<Job>, done: seq<Job>, board: Board, job: Job)
    requires DistinctKeys(JobKey(), jobs) && DistinctKeys(JobKey(), done + [job])
    requires job in jobs && (forall j <- done :: j in jobs) && Progress(w, jobs, done, board)
    ensures Progress(w, jobs, done + [job], Reported(w, board, job))
  {
    var i :| 0 <= i < |jobs| && jobs[i] == job;
    KeysKept(w, jobs, done, board);
    assert MergeInto(JobKey(), board.jobs, []) == board.jobs && [Settle(w, job)][..0] == [];
    UpsertAt(JobKey(), board.jobs, i, Settle(w, job));
    OthersDiffer(jobs, i);
    if Succeeds(w, job) {
      assert MergeInto(ExportKey(), board.exports, []) == board.exports && [ExportFor(w, job)][..0] == [];
      NewExport(w, done, board.exports, job);
      UpsertNew(ExportKey(), board.exports, ExportFor(w, job));
    }
    assert forall j :: j in done + [job] <==> j in done || j == job;
  }

  lemma KeysKept(w: World, jobs: seq<Job>, done: seq<Job>, board: Board)
    requires DistinctKeys(JobKey(), jobs) && Progress(w, jobs, done, board)
    ensures DistinctKeys(JobKey(), board.jobs) && forall i | 0 <= i < |jobs| :: JobKey()(board.jobs[i]) == JobKey()(jobs[i])
  {
    forall i | 0 <= i < |jobs| ensures JobKey()(board.jobs[i]) == JobKey()(jobs[i]) {
    }
  }

  lemma OthersDiffer(jobs: seq<Job>, i: nat)
    requires DistinctKeys(JobKey(), jobs) && i < |jobs|
    ensures forall k | 0 <= k < |jobs| && k != i :: jobs[k] != jobs[i]
  {
  }

  lemma NewExport(w: World, done: seq<Job>, exports: seq<Export>, job: Job)
    requires DistinctKeys(JobKey(), done + [job])
    requires forall e :: e in exports <==> exists j <- done :: Succeeds(w, j) && e == ExportFor(w, j)
    ensures forall i | 0 <= i < |exports| :: ExportKey()(exports[i]) != ExportKey()(ExportFor(w, job))
  {
    ExportHasJobKey(w, job);
    forall i | 0 <= i < |exports| ensures ExportKey()(exports[i]) != ExportKey()(ExportFor(w, job)) {
      assert exports[i] in exports;
      var j :| j in done && Succeeds(w, j) && exports[i] == ExportFor(w, j);
      ExportHasJobKey(w, j);
      OtherJobsDiffer(done, job, j);
    }
  }

  lemma ExportHasJobKey(w: World, job: Job)
    ensures ExportKey()(ExportFor(w, job)) == JobKey()(job)
  {
  }

  lemma OtherJobsDiffer(done: seq<Job>, job: Job, j: Job)
    requires DistinctKeys(JobKey(), done + [job]) && j in done
    ensures JobKey()(j) != JobKey()(job)
  {
    var k :| 0 <= k < |done| && done[k] == j;
    assert (done + [job])[k] == j && (done + [job])[|done|] == job;
  }

  lemma {:induction false} WorkersProgress(w: World, jobs: seq<Job>, order: seq<Job>)
    requires DistinctKeys(JobKey(), jobs) && DistinctKeys(JobKey(), order) && forall j <- order :: j in jobs
    ensures Progress(w, jobs, order, AfterWorkers(w, Board(jobs, [], []), order))
  {
    if order != [] {
      var front, job := order[..|order| - 1], order[|order| - 1];
      assert order == front + [job] && forall j <- front :: j in order;
      WorkersProgress(w, jobs, front);
      ProgressStep(w, jobs, front, AfterWorkers(w, Board(jobs, [], []), front), job);
    }
  }

  // ----- The checks after the workers -----

  /** The join node reports nothing. */
  ghost predicate JoinSilent(board: Board) {
    && (forall j <- board.jobs :: j.status == Completed || j.status == Failed)
    && (forall j <- board.jobs :: j.status == Completed ==> exists e <- board.exports :: e.pdf == j.pdf)
  }

  /** The validation node's checks of one PDF export. */
  predicate ExportConsistent(w: World, e: Export) {
    && e.pdf in w.files && w.files[e.pdf].extension == Pdf
    && (exists g <- w.groups :: g.id == e.groupId)
    && Memberships(w.groups, e.pdf) == [e.groupId]
    && e.score <= FULL && e.confidence <= FULL
    && (e.source.Some? ==>
          && e.source.value in w.files && w.files[e.source.value].extension == Editable
          && Memberships(w.groups, e.source.value) == [e.groupId]
          && Reaches(e.score, w.threshold))
  }

  ghost predicate ValidationSilent(w: World, exports: seq<Export>) {
    WellGrouped(w) && 0.0 <= w.threshold <= 1.0 && forall i | 0 <= i < |exports| :: ExportConsistent(w, exports[i])
  }

  /** The PDF part of the validation node. */
  method ValidatePdfEvidence(w: World, exports: seq<Export>) returns (silent: bool)
    ensures silent <==> ValidationSilent(w, exports)
  {
    var groupByFile;
    silent, groupByFile := IndexGroups(w.groups, w.files.Keys);
    silent := silent && 0.0 <= w.threshold <= 1.0;
    ghost var sound := silent;
    for n := 0 to |exports|
      invariant silent <==> sound && forall i | 0 <= i < n :: ExportConsistent(w, exports[i])
    {
      var ok := CheckExport(w, groupByFile, exports[n], sound);
      silent := silent && ok;
    }
  }

  method CheckExport(w: World, groupByFile: map<FileId, GroupId>, e: Export, ghost sound: bool) returns (ok: bool)
    requires sound ==> Indexed(w.groups, w.files.Keys, groupByFile)
    ensures sound ==> (ok <==> ExportConsistent(w, e))
  {
    ok :=
      && e.pdf in w.files && w.files[e.pdf].extension == Pdf
      && (exists g <- w.groups :: g.id == e.groupId)
      && e.pdf in groupByFile && groupByFile[e.pdf] == e.groupId
      && e.score <= FULL && e.confidence <= FULL
      && (e.source.Some? ==>
            && e.source.value in w.files && w.files[e.source.value].extension == Editable
            && e.source.value in groupByFile && groupByFile[e.source.value] == e.groupId
            && Reaches(e.score, w.threshold));
  }

  function Created(job: Job): Job { job.(status := Pending) }

  /** Jobs as created and then marked running. */
  ghost predicate Started(w: World, pdfs: seq<FileId>, jobs: seq<Job>) {
    && |jobs| == |Single(w, pdfs)|
    && forall i | 0 <= i < |jobs| :: jobs[i].status == Running && IsJobFor(w, Single(w, pdfs)[i], Created(jobs[i]))
  }

  lemma {:induction false} SingleIsDistinct(w: World, pdfs: seq<FileId>)
    requires Distinct(pdfs)
    ensures Distinct(Single(w, pdfs)) && forall f <- Single(w, pdfs) :: f in pdfs
  {
    if pdfs != [] {
      var front, last := pdfs[..|pdfs| - 1], pdfs[|pdfs| - 1];
      SingleIsDistinct(w, front);
      assert pdfs == front + [last] && last !in front;
    }
  }

  lemma StartedKeysDistinct(w: World, pdfs: seq<FileId>, jobs: seq<Job>)
    requires Distinct(pdfs) && Started(w, pdfs, jobs)
    ensures DistinctKeys(JobKey(), jobs)
  {
    SingleIsDistinct(w, pdfs);
    forall i, k | 0 <= i < k < |jobs| ensures JobKey()(jobs[i]) != JobKey()(jobs[k]) {
      assert jobs[i].pdf == Single(w, pdfs)[i] && jobs[k].pdf == Single(w, pdfs)[k];
    }
  }

  /**
   * Whatever the grouping and the threshold, and in whichever order the
   * workers report: every job settles where it stands and the join is silent.
   */
  lemma AnyCompletionOrderSettles(w: World, pdfs: seq<FileId>, jobs: seq<Job>, order: seq<Job>)
    requires w.Valid() && Distinct(pdfs) && Started(w, pdfs, jobs)
    requires DistinctKeys(JobKey(), order) && Elements(order) == Elements(jobs)
    ensures var board := AfterWorkers(w, Board(jobs, [], []), order);
            && board.jobs == seq(|jobs|, i requires 0 <= i < |jobs| => Settle(w, jobs[i]))
            && JoinSilent(board)
            && (forall e :: e in board.exports <==> exists j <- jobs :: Succeeds(w, j) && e == ExportFor(w, j))
            && (forall e :: e in board.errors <==> exists j <- jobs :: !Succeeds(w, j) && e == MatchFailed(j.pdf))
  {
    StartedKeysDistinct(w, pdfs, jobs);
    assert forall j :: j in order <==> j in Elements(order);
    assert forall j :: j in jobs <==> j in Elements(jobs);
    WorkersProgress(w, jobs, order);
    AllReported(w, jobs, order, AfterWorkers(w, Board(jobs, [], []), order));
  }

  lemma AllReported(w: World, jobs: seq<Job>, order: seq<Job>, board: Board)
    requires Progress(w, jobs, order, board) && forall j :: j in order <==> j in jobs
    ensures board.jobs == seq(|jobs|, i requires 0 <= i < |jobs| => Settle(w, jobs[i])) && JoinSilent(board)
    ensures forall e :: e in board.exports <==> exists j <- jobs :: Succeeds(w, j) && e == ExportFor(w, j)
    ensures forall e :: e in board.errors <==> exists j <- jobs :: !Succeeds(w, j) && e == MatchFailed(j.pdf)
  {
    forall i | 0 <= i < |jobs| ensures board.jobs[i] == Settle(w, jobs[i]) {
      assert jobs[i] in jobs;
    }
    forall j | j in board.jobs && j.status == Completed ensures exists e <- board.exports :: e.pdf == j.pdf {
      var i :| 0 <= i < |jobs| && board.jobs[i] == j;
      assert jobs[i] in jobs && Succeeds(w, jobs[i]);
      assert ExportFor(w, jobs[i]) in board.exports && ExportFor(w, jobs[i]).pdf == j.pdf;
    }
  }

  /** In a well-grouped world every created job is one the matcher accepts. */
  lemma StartedJobSucceeds(w: World, pdf: FileId, job: Job)
    requires w.Valid() && WellGrouped(w) && 0.0 <= w.threshold <= 1.0
    requires IsJobFor(w, pdf, Created(job)) && w.Comparable(pdf, Pdf)
    ensures Succeeds(w, job)
    ensures forall f <- job.candidates :: w.Comparable(f, Editable) && Memberships(w.groups, f) == [job.groupId]
  {
    assert multiset(Created(job).candidates) == multiset(job.candidates);
    var g :| g in w.groups && g.id == job.groupId && multiset(job.candidates) == multiset(Sources(w, g.fileIds));
    SourcesAreGrouped(w, g, job.candidates);
  }

  lemma SourcesAreGrouped(w: World, g: Group, candidates: seq<FileId>)
    requires WellGrouped(w) && g in w.groups && multiset(candidates) == multiset(Sources(w, g.fileIds))
    ensures Distinct(candidates)
    ensures forall f <- candidates :: w.Comparable(f, Editable) && Memberships(w.groups, f) == [g.id]
  {
    var n :| 0 <= n < |w.groups| && w.groups[n] == g;
    GroupFilesDistinct(w.groups, w.files.Keys, n);
    SourcesAre(w, g.fileIds);
    forall f ensures multiset(candidates)[f] <= 1 {
      DistinctCountsOnce(Sources(w, g.fileIds), f);
    }
    CountsOnceDistinct(candidates);
    forall f | f in candidates ensures w.Comparable(f, Editable) && Memberships(w.groups, f) == [g.id] {
      SourceIsGrouped(w, g, candidates, f);
    }
  }

  lemma SourceIsGrouped(w: World, g: Group, candidates: seq<FileId>, f: FileId)
    requires WellGrouped(w) && g in w.groups && multiset(candidates) == multiset(Sources(w, g.fileIds)) && f in candidates
    ensures w.Comparable(f, Editable) && Memberships(w.groups, f) == [g.id]
  {
    assert f in multiset(candidates);
    assert f in Sources(w, g.fileIds);
    SourcesAre(w, g.fileIds);
    MembershipsMeanListed(w.groups, f, g.id);
    assert |Memberships(w.groups, f)| <= 1;
  }

  /**
   * With disjoint groups of known files and a threshold in [0, 1] no worker
   * fails, every job has its export, and the validation node reports nothing.
   */
  lemma PdfEvidenceIsValid(w: World, pdfs: seq<FileId>, jobs: seq<Job>, order: seq<Job>)
    requires w.Valid() && WellGrouped(w) && 0.0 <= w.threshold <= 1.0
    requires Distinct(pdfs) && Started(w, pdfs, jobs) && forall f <- pdfs :: w.Comparable(f, Pdf)
    requires DistinctKeys(JobKey(), order) && Elements(order) == Elements(jobs)
    ensures var board := AfterWorkers(w, Board(jobs, [], []), order);
            && (forall j <- board.jobs :: j.status == Completed)
            && (forall j <- jobs :: ExportFor(w, j) in board.exports)
            && board.errors == []
            && ValidationSilent(w, board.exports)
  {
    AnyCompletionOrderSettles(w, pdfs, jobs, order);
    SingleIsDistinct(w, pdfs);
    forall j | j in jobs ensures Succeeds(w, j) && ExportConsistent(w, ExportFor(w, j)) {
      var i :| 0 <= i < |jobs| && jobs[i] == j;
      assert Single(w, pdfs)[i] in Single(w, pdfs);
      JobExportIsConsistent(w, Single(w, pdfs)[i], j);
    }
    var board := AfterWorkers(w, Board(jobs, [], []), order);
    FirstIsMember(board.errors);
    forall i | 0 <= i < |board.exports| ensures ExportConsistent(w, board.exports[i]) {
      assert board.exports[i] in board.exports;
    }
  }

  lemma FirstIsMember(errors: seq<JobError>)
    ensures errors != [] ==> exists e :: e in errors
  {
    if errors != [] {
      assert errors[0] in errors;
    }
  }

  lemma JobExportIsConsistent(w: World, pdf: FileId, job: Job)
    requires w.Valid() && WellGrouped(w) && 0.0 <= w.threshold <= 1.0
    requires IsJobFor(w, pdf, Created(job)) && w.Comparable(pdf, Pdf)
    ensures Succeeds(w, job) && ExportConsistent(w, ExportFor(w, job))
  {
    StartedJobSucceeds(w, pdf, job);
    ExportIsInRange(job.groupId, job.pdf, Elements(job.candidates), w.ScoreFor(job.pdf), w.threshold);
    MembershipsMeanListed(w.groups, job.pdf, job.groupId);
  }

  // ----- What jobs, workers and the validation amount to -----

  /** The candidates of a job are exactly the parsed, editable, documented originals of its group. */
  lemma JobCandidatesAre(w: World, pdf: FileId, job: Job, g: Group, f: FileId)
    requires w.Valid() && IsJobFor(w, pdf, job) && g in w.groups && g.id == job.groupId
    ensures f in job.candidates <==>
            && f in g.fileIds && f in w.files && w.files[f].extension == Editable
            && w.files[f].parsed && w.files[f].duplicateOf.None? && f in w.documented
  {
    var h :| h in w.groups && h.id == job.groupId && multiset(job.candidates) == multiset(Sources(w, h.fileIds));
    SameGroup(w, g, h);
    SourcesAre(w, g.fileIds);
    assert f in job.candidates <==> f in multiset(job.candidates);
    assert f in Sources(w, g.fileIds) <==> f in multiset(Sources(w, g.fileIds));
  }

  lemma SameGroup(w: World, g: Group, h: Group)
    requires w.Valid() && g in w.groups && h in w.groups && g.id == h.id
    ensures g == h
  {
    var key := (x: Group) => x.id;
    var i :| 0 <= i < |w.groups| && w.groups[i] == g;
    var k :| 0 <= k < |w.groups| && w.groups[k] == h;
    assert key(w.groups[i]) == key(w.groups[k]);
  }

  /** A job fails only for a bad threshold or for a reference to a missing, repeated or unsuitable file, and keeps its identity. */
  lemma WorkerSettlesExactly(w: World, job: Job)
    ensures var done := Settle(w, job);
            && done == job.(status := done.status) && (done.status == Completed || done.status == Failed)
            && (done.status == Completed <==>
                  && 0.0 <= w.threshold <= 1.0
                  && job.pdf in w.files && w.files[job.pdf].extension == Pdf
                  && (forall i, k | 0 <= i < k < |job.candidates| :: job.candidates[i] != job.candidates[k])
                  && forall f <- job.candidates :: f in w.files && w.files[f].extension == Editable)
  {
  }

  /** The validation node reports every export that names an unknown file, a wrong group, a foreign source or too weak a match. */
  lemma FaultyExportIsReported(w: World, exports: seq<Export>, e: Export)
    requires e in exports
    requires || e.pdf !in w.files || w.files[e.pdf].extension != Pdf
             || (forall g <- w.groups :: g.id != e.groupId)
             || Memberships(w.groups, e.pdf) != [e.groupId]
             || e.score > 10000 || e.confidence > 10000
             || (e.source.Some? && (e.source.value !in w.files || w.files[e.source.value].extension != Editable))
             || (e.source.Some? && Memberships(w.groups, e.source.value) != [e.groupId])
             || (e.source.Some? && e.score as real < 10000.0 * w.threshold)
    ensures !ValidationSilent(w, exports)
  {
    var i :| 0 <= i < |exports| && exports[i] == e;
    assert !ExportConsistent(w, exports[i]);
  }

  /** It also reports groups that share a file or list an unknown one, and a threshold outside [0, 1]. */
  lemma FaultyGroupIsReported(w: World, exports: seq<Export>, f: FileId)
    requires |Memberships(w.groups, f)| > 1 || (f !in w.files && exists g <- w.groups :: f in g.fileIds)
             || w.threshold < 0.0 || w.threshold > 1.0
    ensures !ValidationSilent(w, exports)
  {
    if f !in w.files {
      if g :| g in w.groups && f in g.fileIds {
        assert !AllKnown(g, w.files.Keys);
      }
    }
  }
}
