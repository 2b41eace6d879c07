/**
 * The inventory subgraph: exact duplicates are marked, every other pending
 * file passes once through the parse queue, and files and documents are compared.
 */
module Inventory {
  import opened Options
  import opened Sorting
  import opened RecordMerge

  type FileId = nat

  datatype Extension = Xlsx | Docx | Pdf | OtherExtension

  datatype ParseStatus = Pending | Duplicate | Parsed | Failed | Unsupported

  /** `path` is the rank of the case-folded path, of which the identifier is a digest; an empty `sha` counts as missing. */
  datatype FileRecord = FileRecord(id: FileId, path: nat, extension: Extension, sha: string, modifiedAt: nat,
                                   duplicateOf: Option<FileId>, status: ParseStatus)

  /** A document's identifier is a digest of its file and of the digest of its text. */
  datatype Document = Document(fileId: FileId, digest: string)

  function FileKey(): FileRecord -> FileId { (f: FileRecord) => f.id }

  function DocumentKey(): Document -> (FileId, string) { (d: Document) => (d.fileId, d.digest) }

  /** Identifiers are distinct, and so are the paths they are digests of. */
  ghost predicate DistinctFiles(files: seq<FileRecord>) {
    DistinctKeys(FileKey(), files) && forall i, k | 0 <= i < k < |files| :: files[i].path != files[k].path
  }

  // ----- Exact duplicates -----

  /** Earlier modification first, then smaller path. */
  predicate Older(a: FileRecord, b: FileRecord) {
    a.modifiedAt < b.modifiedAt || (a.modifiedAt == b.modifiedAt && a.path < b.path)
  }

  /** The oldest file with these contents. */
  predicate Canonical(c: FileRecord, files: seq<FileRecord>) {
    c in files && forall f <- files :: f.sha == c.sha ==> f == c || Older(c, f)
  }

  ghost predicate HasOldest(sha: string, files: seq<FileRecord>) {
    exists c <- files :: Canonical(c, files) && c.sha == sha
  }

  function Marked(f: FileRecord, c: FileRecord): FileRecord {
    if f.id == c.id then f else f.(duplicateOf := Some(c.id), status := Duplicate)
  }

  method FindCanonical(files: seq<FileRecord>) returns (oldest: map<string, FileRecord>)
    requires DistinctFiles(files)
    ensures forall f <- files :: f.sha in oldest
    ensures forall s | s in oldest :: oldest[s].sha == s && Canonical(oldest[s], files)
  {
    oldest := map[];
    for n := 0 to |files|
      invariant Oldest(oldest, files[..n])
    {
      assert files[..n + 1] == files[..n] + [files[n]];
      NextDiffers(files, n);
      oldest := KeepOldest(files[..n], oldest, files[n]);
    }
    assert files[..|files|] == files;
  }

  ghost predicate Oldest(oldest: map<string, FileRecord>, files: seq<FileRecord>) {
    && (forall f <- files :: f.sha in oldest)
    && forall s | s in oldest :: oldest[s].sha == s && Canonical(oldest[s], files)
  }

  method KeepOldest(ghost files: seq<FileRecord>, oldest: map<string, FileRecord>,
                    f: FileRecord) returns (next: map<string, FileRecord>)
    requires Oldest(oldest, files) && forall g <- files :: g.path != f.path
    ensures Oldest(next, files + [f])
  {
    next := oldest;
    forall s | s in oldest && (s != f.sha || !Older(f, oldest[s])) ensures Canonical(oldest[s], files + [f]) {
      StillCanonical(oldest[s], files, f);
    }
    if f.sha !in oldest || Older(f, oldest[f.sha]) {
      next := oldest[f.sha := f];
      assert Canonical(f, files + [f]);
    }
  }

  lemma StillCanonical(c: FileRecord, files: seq<FileRecord>, f: FileRecord)
    requires Canonical(c, files) && (f.sha != c.sha || (c.path != f.path && !Older(f, c)))
    ensures Canonical(c, files + [f])
  {
  }

  lemma NextDiffers(files: seq<FileRecord>, n: nat)
    requires DistinctFiles(files) && n < |files|
    ensures forall f <- files[..n] :: f.path != files[n].path
  {
  }

  lemma CanonicalUnique(c: FileRecord, d: FileRecord, files: seq<FileRecord>)
    requires Canonical(c, files) && Canonical(d, files) && c.sha == d.sha
    ensures c == d
  {
  }

  /** Every set of identical files keeps its oldest member; the others point to it.  No record is dropped. */
  method MarkExactDuplicates(files: seq<FileRecord>) returns (r: Result<seq<FileRecord>>)
    requires DistinctKeys(FileKey(), files) ==> DistinctFiles(files)
    ensures r.Err? <==> !DistinctKeys(FileKey(), files) || exists f <- files :: f.sha == ""
    ensures r.Ok? ==> |r.value| == |files|
    ensures r.Ok? ==> forall i, c | 0 <= i < |files| && Canonical(c, files) && c.sha == files[i].sha :: r.value[i] == Marked(files[i], c)
    ensures r.Ok? ==> forall i | 0 <= i < |files| :: HasOldest(files[i].sha, files)
  {
    if !DistinctKeys(FileKey(), files) || exists f <- files :: f.sha == "" {
      return Err(ValueError);
    }
    var oldest := FindCanonical(files);
    var marked := [];
    for n := 0 to |files|
      invariant |marked| == n
      invariant forall i | 0 <= i < n :: files[i].sha in oldest && marked[i] == Marked(files[i], oldest[files[i].sha])
    {
      var c := oldest[files[n].sha];
      if files[n].id == c.id {
        marked := marked + [files[n]];
      } else {
        marked := marked + [files[n].(duplicateOf := Some(c.id), status := Duplicate)];
      }
    }
    forall i, c | 0 <= i < |files| && Canonical(c, files) && c.sha == files[i].sha ensures marked[i] == Marked(files[i], c) {
      CanonicalUnique(c, oldest[files[i].sha], files);
    }
    forall i | 0 <= i < |files| ensures HasOldest(files[i].sha, files) {
      assert files[i] in files && Canonical(oldest[files[i].sha], files);
    }
    return Ok(marked);
  }

  // ----- The parse queue -----

  predicate Queued(f: FileRecord) { f.duplicateOf.None? && f.status == Pending }

  function QueueOf(files: seq<FileRecord>): seq<FileId> {
    if files == [] then []
    else QueueOf(files[..|files| - 1]) + if Queued(files[|files| - 1]) then [files[|files| - 1].id] else []
  }

  method BuildParseQueue(files: seq<FileRecord>) returns (queue: seq<FileId>)
    ensures queue == QueueOf(files)
  {
    queue := [];
    for n := 0 to |files|
      invariant queue == QueueOf(files[..n])
    {
      assert files[..n + 1][..n] == files[..n];
      if Queued(files[n]) {
        queue := queue + [files[n].id];
      }
    }
    assert files[..|files|] == files;
  }

  lemma {:induction false} QueueIs(files: seq<FileRecord>)
    requires DistinctKeys(FileKey(), files)
    ensures Distinct(QueueOf(files))
    ensures forall id :: id in QueueOf(files) <==> exists f <- files :: f.id == id && Queued(f)
  {
    if files != [] {
      var front, last := files[..|files| - 1], files[|files| - 1];
      QueueIs(front);
      assert forall f :: f in files <==> f in front || f == last;
      forall f | f in front ensures f.id != last.id {
        var i :| 0 <= i < |front| && front[i] == f;
        assert FileKey()(files[i]) != FileKey()(last);
      }
      assert last.id !in QueueOf(front);
    }
  }

  /** What reading and normalising a file yields: the digest of its text, or nothing if either raises. */
  type Reader = FileId -> Option<string>

  function Outcome(read: Reader, f: FileRecord): ParseStatus {
    if f.extension == OtherExtension then Unsupported
    else if read(f.id).Some? then Parsed
    else Failed
  }

  /** The document a file contributes when it is taken from the queue. */
  function DocumentOf(read: Reader, f: FileRecord): Option<Document> {
    if Outcome(read, f) == Parsed then Some(Document(f.id, read(f.id).value)) else None
  }

  /** One round of the loop for a file known to the state. */
  method ParseNext(files: seq<FileRecord>, documents: seq<Document>, id: FileId, read: Reader, ghost i: nat)
    returns (files': seq<FileRecord>, documents': seq<Document>, errors: seq<FileId>)
    requires DistinctKeys(FileKey(), files) && DistinctKeys(DocumentKey(), documents)
    requires i < |files| && files[i].id == id
    ensures files' == files[i := files[i].(status := Outcome(read, files[i]))] && DistinctKeys(FileKey(), files')
    ensures DistinctKeys(DocumentKey(), documents')
    ensures forall d :: d in documents' <==> d in documents || DocumentOf(read, files[i]) == Some(d)
    ensures errors == if Outcome(read, files[i]) == Parsed then [] else [id]
  {
    assert FileKey()(files[i]) == id;
    var n := Find(FileKey(), files, id);
    assert n == i;
    var record := files[n];
    if record.extension == OtherExtension {
      files', documents', errors := Store(files, record.(status := Unsupported), i), documents, [id];
      return;
    }
    var digest := read(id);
    if digest.None? {
      files', documents', errors := Store(files, record.(status := Failed), i), documents, [id];
      return;
    }
    files', errors := Store(files, record.(status := Parsed), i), [];
    var document := Document(id, digest.value);
    documents' := MergeById(DocumentKey(), documents, [document]);
    AddedDocument(documents, document);
  }

  function Store(files: seq<FileRecord>, f: FileRecord, ghost i: nat): (r: seq<FileRecord>)
    requires DistinctKeys(FileKey(), files) && i < |files| && files[i].id == f.id
    ensures r == files[i := f] && DistinctKeys(FileKey(), r)
  {
    assert FileKey()(files[i]) == FileKey()(f);
    UpsertAt(FileKey(), files, i, f);
    Upsert(FileKey(), files, f)
  }

  lemma AddedDocument(documents: seq<Document>, d: Document)
    requires DistinctKeys(DocumentKey(), documents)
    ensures forall x :: x in MergeInto(DocumentKey(), documents, [d]) <==> x in documents || x == d
  {
    assert [d][..0] == [] && MergeInto(DocumentKey(), documents, []) == documents;
    var i := Find(DocumentKey(), documents, DocumentKey()(d));
    if i < |documents| {
      assert DocumentKey()(documents[i]) == DocumentKey()(d);
      assert documents[i] == d && documents[i := d] == documents;
    }
  }

  /** Files from the first round on: taken ones carry their outcome, the others are as before. */
  ghost predicate Processed(start: seq<FileRecord>, files: seq<FileRecord>, read: Reader, done: seq<FileId>) {
    && |files| == |start| && DistinctKeys(FileKey(), files)
    && forall i | 0 <= i < |start| :: files[i] == if start[i].id in done then start[i].(status := Outcome(read, start[i])) else start[i]
  }

  ghost predicate Documented(start: seq<FileRecord>, prior: seq<Document>, documents: seq<Document>, read: Reader,
                             done: seq<FileId>) {
    && DistinctKeys(DocumentKey(), documents)
    && forall d :: d in documents <==> d in prior || exists i | 0 <= i < |start| :: start[i].id in done && DocumentOf(read, start[i]) == Some(d)
  }

  /** One error for every taken file that did not end parsed. */
  ghost predicate Reported(start: seq<FileRecord>, errors: seq<FileId>, read: Reader, done: seq<FileId>) {
    && Distinct(errors)
    && forall id :: id in errors <==>
         id in done && exists i | 0 <= i < |start| :: start[i].id == id && Outcome(read, start[i]) != Parsed
  }

  lemma ReportedNext(start: seq<FileRecord>, errors: seq<FileId>, read: Reader, done: seq<FileId>, i: nat)
    requires DistinctKeys(FileKey(), start) && i < |start| && start[i].id !in done && Reported(start, errors, read, done)
    ensures Reported(start, errors + if Outcome(read, start[i]) == Parsed then [] else [start[i].id], read, done + [start[i].id])
  {
    forall k | 0 <= k < |start| && k != i ensures start[k].id != start[i].id {
      assert FileKey()(start[k]) != FileKey()(start[i]);
    }
  }

  /**
   * The parse loop.  It ends because every round shortens the queue, takes
   * every queued file exactly once and in order, and touches no other file.
   */
  method ParseAll(start: seq<FileRecord>, prior: seq<Document>, read: Reader)
    returns (files: seq<FileRecord>, documents: seq<Document>, errors: seq<FileId>, taken: seq<FileId>)
    requires DistinctKeys(FileKey(), start) && DistinctKeys(DocumentKey(), prior)
    ensures taken == QueueOf(start)
    ensures Processed(start, files, read, QueueOf(start))
    ensures Documented(start, prior, documents, read, QueueOf(start))
    ensures Reported(start, errors, read, QueueOf(start))
  {
    var queue := BuildParseQueue(start);
    QueueIs(start);
    files, documents, errors, taken := start, prior, [], [];
    while queue != []
      invariant taken + queue == QueueOf(start)
      invariant Underway(start, prior, files, documents, errors, read, taken)
      decreases |queue|
    {
      var id := queue[0];
      ghost var i := NextPlace(start, taken, queue);
      ghost var before, beforeDocuments := files, documents;
      var failed;
      files, documents, failed := ParseNext(files, documents, id, read, i);
      RoundDone(start, prior, before, files, beforeDocuments, documents, errors, read, taken, i);
      errors := errors + failed;
      taken, queue := taken + [id], queue[1..];
    }
  }

  /** The invariant of the loop. */
  ghost predicate Underway(start: seq<FileRecord>, prior: seq<Document>, files: seq<FileRecord>, documents: seq<Document>,
                           errors: seq<FileId>, read: Reader, done: seq<FileId>)
  {
    Processed(start, files, read, done) && Documented(start, prior, documents, read, done) && Reported(start, errors, read, done)
  }

  lemma NextPlace(start: seq<FileRecord>, taken: seq<FileId>, queue: seq<FileId>) returns (i: nat)
    requires DistinctKeys(FileKey(), start) && taken + queue == QueueOf(start) && queue != []
    ensures i < |start| && start[i].id == queue[0] && queue[0] !in taken
  {
    QueueIs(start);
    NotYetTaken(taken, queue);
    assert QueueOf(start)[|taken|] == queue[0];
    i := PlaceOf(start, queue[0]);
  }

  lemma PlaceOf(start: seq<FileRecord>, id: FileId) returns (i: nat)
    requires DistinctKeys(FileKey(), start) && id in QueueOf(start)
    ensures i < |start| && start[i].id == id
  {
    QueueIs(start);
    var f :| f in start && f.id == id && Queued(f);
    i :| 0 <= i < |start| && start[i] == f;
  }

  /** One round of the loop keeps its invariant. */
  lemma RoundDone(start: seq<FileRecord>, prior: seq<Document>, files: seq<FileRecord>, files': seq<FileRecord>,
                  documents: seq<Document>, documents': seq<Document>, errors: seq<FileId>, read: Reader,
                  done: seq<FileId>, i: nat)
    requires DistinctKeys(FileKey(), start) && i < |start| && start[i].id !in done
    requires Underway(start, prior, files, documents, errors, read, done)
    requires files' == files[i := files[i].(status := Outcome(read, files[i]))]
    requires DistinctKeys(DocumentKey(), documents')
    requires forall d :: d in documents' <==> d in documents || DocumentOf(read, files[i]) == Some(d)
    ensures Underway(start, prior, files', documents', errors + if Outcome(read, start[i]) == Parsed then [] else [start[i].id],
                     read, done + [start[i].id])
  {
    ProcessedNext(start, files, read, done, i);
    DocumentedNext(start, prior, documents, documents', read, done, i);
    ReportedNext(start, errors, read, done, i);
  }

  lemma NotYetTaken(taken: seq<FileId>, queue: seq<FileId>)
    requires Distinct(taken + queue) && queue != []
    ensures queue[0] !in taken
  {
    assert (taken + queue)[|taken|] == queue[0];
    assert forall k | 0 <= k < |taken| :: (taken + queue)[k] == taken[k];
  }

  lemma ProcessedNext(start: seq<FileRecord>, files: seq<FileRecord>, read: Reader, done: seq<FileId>, i: nat)
    requires DistinctKeys(FileKey(), start) && Processed(start, files, read, done) && i < |start| && start[i].id !in done
    ensures Processed(start, files[i := files[i].(status := Outcome(read, files[i]))], read, done + [start[i].id])
  {
    var next := files[i := files[i].(status := Outcome(read, files[i]))];
    forall k | 0 <= k < |start| && k != i ensures start[k].id != start[i].id {
      assert FileKey()(start[k]) != FileKey()(start[i]);
    }
    forall a, b | 0 <= a < b < |next| ensures FileKey()(next[a]) != FileKey()(next[b]) {
      assert FileKey()(files[a]) != FileKey()(files[b]);
    }
  }

  lemma DocumentedNext(start: seq<FileRecord>, prior: seq<Document>, documents: seq<Document>, next: seq<Document>, read: Reader,
                       done: seq<FileId>, i: nat)
    requires DistinctKeys(FileKey(), start) && i < |start| && Documented(start, prior, documents, read, done)
    requires DistinctKeys(DocumentKey(), next) && forall d :: d in next <==> d in documents || DocumentOf(read, start[i]) == Some(d)
    ensures Documented(start, prior, next, read, done + [start[i].id])
  {
    forall k | 0 <= k < |start| && k != i ensures start[k].id != start[i].id {
      assert FileKey()(start[k]) != FileKey()(start[i]);
    }
  }

  // ----- Validation -----

  /** What the validation node checks. */
  ghost predicate OneToOne(files: seq<FileRecord>, documents: seq<Document>) {
    && (forall i, k | 0 <= i < k < |documents| :: documents[i].fileId != documents[k].fileId)
    && (forall f <- files :: f.status == Parsed ==> exists d <- documents :: d.fileId == f.id)
    && (forall d <- documents :: exists f <- files :: f.id == d.fileId)
  }

  method ValidateInventory(files: seq<FileRecord>, documents: seq<Document>) returns (silent: bool)
    ensures silent <==> OneToOne(files, documents)
  {
    var documented: set<FileId>, repeated := {}, false;
    for n := 0 to |documents|
      invariant documented == set d | d in documents[..n] :: d.fileId
      invariant repeated <==> exists i, k | 0 <= i < k < n :: documents[i].fileId == documents[k].fileId
    {
      assert documents[..n + 1] == documents[..n] + [documents[n]];
      if documents[n].fileId in documented {
        var i :| 0 <= i < n && documents[i].fileId == documents[n].fileId;
        repeated := true;
      }
      documented := documented + {documents[n].fileId};
    }
    assert documents[..|documents|] == documents;
    var parsed := set f | f in files && f.status == Parsed :: f.id;
    var known := set f | f in files :: f.id;
    silent := !repeated && parsed <= documented && documented <= known;
    SubsetsMean(files, documents, documented, parsed, known);
  }

  lemma SubsetsMean(files: seq<FileRecord>, documents: seq<Document>, documented: set<FileId>, parsed: set<FileId>,
                    known: set<FileId>)
    requires documented == set d | d in documents :: d.fileId
    requires parsed == set f | f in files && f.status == Parsed :: f.id
    requires known == set f | f in files :: f.id
    ensures parsed <= documented <==> forall f <- files :: f.status == Parsed ==> exists d <- documents :: d.fileId == f.id
    ensures documented <= known <==> forall d <- documents :: exists f <- files :: f.id == d.fileId
  {
    if forall f <- files :: f.status == Parsed ==> exists d <- documents :: d.fileId == f.id {
      forall id | id in parsed ensures id in documented {
      }
    }
    if parsed <= documented {
      forall f | f in files && f.status == Parsed ensures exists d <- documents :: d.fileId == f.id {
        assert f.id in parsed;
      }
    }
    if documented <= known {
      forall d | d in documents ensures exists f <- files :: f.id == d.fileId {
        assert d.fileId in documented;
      }
    }
  }

  // ----- The result of a whole inventory -----

  /** Every pending original ends parsed, failed or unsupported, and nothing else changes. */
  lemma EveryQueuedFileEnds(start: seq<FileRecord>, files: seq<FileRecord>, read: Reader, i: nat)
    requires DistinctKeys(FileKey(), start) && Processed(start, files, read, QueueOf(start)) && i < |start|
    ensures Queued(start[i]) ==> files[i].status in {Parsed, Failed, Unsupported}
    ensures !Queued(start[i]) ==> files[i] == start[i]
  {
    QueueIs(start);
    if !Queued(start[i]) {
      forall f | f in start && f.id == start[i].id ensures f == start[i] {
        var k :| 0 <= k < |start| && start[k] == f;
        assert FileKey()(start[k]) == FileKey()(start[i]);
      }
    } else {
      assert start[i] in start;
    }
  }

  /** The documents left by an earlier, interrupted inventory agree with what is found now. */
  ghost predicate PriorAgrees(start: seq<FileRecord>, prior: seq<Document>, read: Reader) {
    && (forall i, k | 0 <= i < k < |prior| :: prior[i].fileId != prior[k].fileId)
    && (forall d <- prior :: exists f <- start :: f.id == d.fileId)
    && (forall d <- prior, f <- start :: d.fileId == f.id && Queued(f) && Outcome(read, f) == Parsed ==> read(f.id) == Some(d.digest))
    && (forall f <- start :: !Queued(f) && f.status == Parsed ==> exists d <- prior :: d.fileId == f.id)
  }

  /** Membership in the final documents, file by file. */
  lemma FinalDocuments(start: seq<FileRecord>, prior: seq<Document>, documents: seq<Document>, read: Reader)
    requires DistinctKeys(FileKey(), start) && Documented(start, prior, documents, read, QueueOf(start))
    ensures forall d :: d in documents <==> d in prior || exists f <- start :: Queued(f) && DocumentOf(read, f) == Some(d)
  {
    QueueIs(start);
    forall d ensures d in documents <==> d in prior || exists f <- start :: Queued(f) && DocumentOf(read, f) == Some(d) {
      if i :| 0 <= i < |start| && start[i].id in QueueOf(start) && DocumentOf(read, start[i]) == Some(d) {
        var f :| f in start && f.id == start[i].id && Queued(f);
        var k :| 0 <= k < |start| && start[k] == f;
        assert FileKey()(start[k]) == FileKey()(start[i]);
        assert start[i] in start;
      }
      if exists f <- start :: Queued(f) && DocumentOf(read, f) == Some(d) {
        var f :| f in start && Queued(f) && DocumentOf(read, f) == Some(d);
        var k :| 0 <= k < |start| && start[k] == f;
      }
    }
  }

  /** Without leftovers the validation reports nothing, and exactly the parsed files have a document. */
  lemma FreshInventoryIsConsistent(start: seq<FileRecord>, files: seq<FileRecord>, documents: seq<Document>, read: Reader)
    requires DistinctKeys(FileKey(), start) && forall f <- start :: f.status != Parsed
    requires Processed(start, files, read, QueueOf(start)) && Documented(start, [], documents, read, QueueOf(start))
    ensures OneToOne(files, documents)
    ensures forall f <- files :: f.status == Parsed <==> exists d <- documents :: d.fileId == f.id
  {
    InventoryConsistentExactlyWhen(start, files, [], documents, read);
    FinalDocuments(start, [], documents, read);
    forall f, d | f in files && d in documents && d.fileId == f.id ensures f.status == Parsed {
      DocumentedIsParsed(start, files, documents, read, f, d);
    }
  }

  lemma DocumentedIsParsed(start: seq<FileRecord>, files: seq<FileRecord>, documents: seq<Document>, read: Reader,
                           f: FileRecord, d: Document)
    requires DistinctKeys(FileKey(), start) && Processed(start, files, read, QueueOf(start))
    requires f in files && d in documents && d.fileId == f.id
    requires exists g <- start :: Queued(g) && DocumentOf(read, g) == Some(d)
    ensures f.status == Parsed
  {
    var g :| g in start && Queued(g) && DocumentOf(read, g) == Some(d);
    var i :| 0 <= i < |files| && files[i] == f;
    assert start[i] in start && start[i].id == g.id;
    SameFile(start, start[i], g);
    QueueIs(start);
  }

  /** With leftovers the validation reports nothing exactly when they agree with what is found now. */
  lemma InventoryConsistentExactlyWhen(start: seq<FileRecord>, files: seq<FileRecord>, prior: seq<Document>,
                                       documents: seq<Document>, read: Reader)
    requires DistinctKeys(FileKey(), start) && DistinctKeys(DocumentKey(), prior)
    requires Processed(start, files, read, QueueOf(start)) && Documented(start, prior, documents, read, QueueOf(start))
    ensures OneToOne(files, documents) <==> PriorAgrees(start, prior, read)
  {
    FinalDocuments(start, prior, documents, read);
    if PriorAgrees(start, prior, read) {
      AgreementSuffices(start, files, prior, documents, read);
    }
    if OneToOne(files, documents) {
      AgreementIsNeeded(start, files, prior, documents, read);
    }
  }

  lemma SameFile(start: seq<FileRecord>, f: FileRecord, g: FileRecord)
    requires DistinctKeys(FileKey(), start) && f in start && g in start && f.id == g.id
    ensures f == g
  {
    var i :| 0 <= i < |start| && start[i] == f;
    var k :| 0 <= k < |start| && start[k] == g;
    assert FileKey()(start[i]) == FileKey()(start[k]);
  }

  lemma OneDocumentPerFile(start: seq<FileRecord>, prior: seq<Document>, documents: seq<Document>, read: Reader,
                           d: Document, e: Document)
    requires DistinctKeys(FileKey(), start) && PriorAgrees(start, prior, read) && d in documents && e in documents && d.fileId == e.fileId
    requires forall d :: d in documents <==> d in prior || exists f <- start :: Queued(f) && DocumentOf(read, f) == Some(d)
    ensures d == e
  {
    if d in prior && e in prior {
      var i :| 0 <= i < |prior| && prior[i] == d;
      var k :| 0 <= k < |prior| && prior[k] == e;
    }
  }

  lemma AgreementSuffices(start: seq<FileRecord>, files: seq<FileRecord>, prior: seq<Document>,
                          documents: seq<Document>, read: Reader)
    requires DistinctKeys(FileKey(), start) && PriorAgrees(start, prior, read)
    requires Processed(start, files, read, QueueOf(start)) && DistinctKeys(DocumentKey(), documents)
    requires forall d :: d in documents <==> d in prior || exists f <- start :: Queued(f) && DocumentOf(read, f) == Some(d)
    ensures OneToOne(files, documents)
  {
    forall i, k | 0 <= i < k < |documents| ensures documents[i].fileId != documents[k].fileId {
      assert DocumentKey()(documents[i]) != DocumentKey()(documents[k]);
      if documents[i].fileId == documents[k].fileId {
        assert documents[i] in documents && documents[k] in documents;
        OneDocumentPerFile(start, prior, documents, read, documents[i], documents[k]);
      }
    }
    forall i | 0 <= i < |files| && files[i].status == Parsed ensures exists d <- documents :: d.fileId == files[i].id {
      EveryQueuedFileEnds(start, files, read, i);
      assert start[i] in start;
      QueueIs(start);
      if Queued(start[i]) {
        assert DocumentOf(read, start[i]).value in documents;
      }
    }
    forall d | d in documents ensures exists f <- files :: f.id == d.fileId {
      var f :| f in start && f.id == d.fileId;
      var i :| 0 <= i < |start| && start[i] == f;
      assert files[i] in files;
    }
  }

  lemma AgreementIsNeeded(start: seq<FileRecord>, files: seq<FileRecord>, prior: seq<Document>,
                          documents: seq<Document>, read: Reader)
    requires DistinctKeys(FileKey(), start) && OneToOne(files, documents) && DistinctKeys(DocumentKey(), prior)
    requires Processed(start, files, read, QueueOf(start)) && DistinctKeys(DocumentKey(), documents)
    requires forall d :: d in documents <==> d in prior || exists f <- start :: Queued(f) && DocumentOf(read, f) == Some(d)
    ensures PriorAgrees(start, prior, read)
  {
    forall i, k | 0 <= i < k < |prior| ensures prior[i].fileId != prior[k].fileId {
      assert prior[i] in documents && prior[k] in documents;
      assert DocumentKey()(prior[i]) != DocumentKey()(prior[k]);
      SameDocument(documents, prior[i], prior[k]);
    }
    forall d | d in prior ensures exists f <- start :: f.id == d.fileId {
      var g :| g in files && g.id == d.fileId;
      var i :| 0 <= i < |files| && files[i] == g;
      assert start[i] in start;
    }
    forall d, f | d in prior && f in start && d.fileId == f.id && Queued(f) && Outcome(read, f) == Parsed ensures read(f.id) == Some(d.digest) {
      SameDocument(documents, d, DocumentOf(read, f).value);
    }
    forall f | f in start && !Queued(f) && f.status == Parsed ensures exists d <- prior :: d.fileId == f.id {
      ParsedBefore(start, files, prior, documents, read, f);
    }
  }

  lemma SameDocument(documents: seq<Document>, d: Document, e: Document)
    requires forall i, k | 0 <= i < k < |documents| :: documents[i].fileId != documents[k].fileId
    requires d in documents && e in documents
    ensures d.fileId == e.fileId ==> d == e
  {
    var i :| 0 <= i < |documents| && documents[i] == d;
    var k :| 0 <= k < |documents| && documents[k] == e;
  }

  lemma ParsedBefore(start: seq<FileRecord>, files: seq<FileRecord>, prior: seq<Document>, documents: seq<Document>,
                     read: Reader, f: FileRecord)
    requires DistinctKeys(FileKey(), start) && Processed(start, files, read, QueueOf(start))
    requires forall f <- files :: f.status == Parsed ==> exists d <- documents :: d.fileId == f.id
    requires forall d :: d in documents <==> d in prior || exists f <- start :: Queued(f) && DocumentOf(read, f) == Some(d)
    requires f in start && !Queued(f) && f.status == Parsed
    ensures exists d <- prior :: d.fileId == f.id
  {
    var i :| 0 <= i < |start| && start[i] == f;
    EveryQueuedFileEnds(start, files, read, i);
    assert files[i] in files;
    var d :| d in documents && d.fileId == f.id;
    if d !in prior {
      var g :| g in start && Queued(g) && DocumentOf(read, g) == Some(d);
      SameFile(start, f, g);
    }
  }

  /** A file whose text changed between two inventories ends up with two documents, and the validation reports it. */
  lemma ChangedFileWitness(start: seq<FileRecord>, files: seq<FileRecord>, documents: seq<Document>, read: Reader)
    requires start == [FileRecord(1, 1, Docx, "s", 0, None, Pending)] && read(1) == Some("new")
    requires Processed(start, files, read, QueueOf(start)) && Documented(start, [Document(1, "old")], documents, read, QueueOf(start))
    ensures !OneToOne(files, documents)
  {
    var f, d := start[0], Document(1, "old");
    assert f in start && d in [d] && Queued(f) && Outcome(read, f) == Parsed && read(f.id) != Some(d.digest);
    InventoryConsistentExactlyWhen(start, files, [d], documents, read);
  }

  /** After marking, exactly one file of every content is queued: the oldest. */
  lemma OneFilePerContentIsQueued(files: seq<FileRecord>, marked: seq<FileRecord>, c: FileRecord, i: nat)
    requires DistinctFiles(files) && |marked| == |files| && (forall f <- files :: Queued(f))
    requires forall k, d | 0 <= k < |files| && Canonical(d, files) && d.sha == files[k].sha :: marked[k] == Marked(files[k], d)
    requires Canonical(c, files) && i < |files| && files[i].sha == c.sha
    ensures Queued(marked[i]) <==> files[i] == c
  {
    var k :| 0 <= k < |files| && files[k] == c;
    assert FileKey()(files[i]) == FileKey()(files[k]) ==> i == k;
    assert files[i] in files;
  }

  // ----- What marking and parsing amount to -----

  /** The earlier modification wins, and among equals the smaller path. */
  predicate ComesFirst(a: FileRecord, b: FileRecord) {
    a.modifiedAt < b.modifiedAt || (a.modifiedAt == b.modifiedAt && a.path <= b.path)
  }

  /**
   * Of all files with one content the earliest, and among equally old ones the
   * one with the smallest path, stays as it is; every other one becomes a
   * duplicate of it and changes in nothing else.
   */
  lemma EarliestIsKept(files: seq<FileRecord>, marked: seq<FileRecord>, i: nat)
    requires DistinctFiles(files) && |marked| == |files| && i < |files|
    requires forall k, d | 0 <= k < |files| && Canonical(d, files) && d.sha == files[k].sha :: marked[k] == Marked(files[k], d)
    requires forall k | 0 <= k < |files| :: HasOldest(files[k].sha, files)
    ensures exists c ::
              && 0 <= c < |files| && files[c].sha == files[i].sha
              && (forall k | 0 <= k < |files| && files[k].sha == files[i].sha :: ComesFirst(files[c], files[k]))
              && marked[i] == if c == i then files[i] else files[i].(duplicateOf := Some(files[c].id), status := Duplicate)
  {
    assert HasOldest(files[i].sha, files);
    var oldest :| oldest in files && Canonical(oldest, files) && oldest.sha == files[i].sha;
    var c :| 0 <= c < |files| && files[c] == oldest;
    assert marked[i] == Marked(files[i], oldest);
    if c != i {
      assert FileKey()(files[c]) != FileKey()(files[i]);
    }
    forall k | 0 <= k < |files| && files[k].sha == files[i].sha ensures ComesFirst(files[c], files[k]) {
      assert files[k] in files;
    }
  }

  /**
   * A pending original of a known format ends parsed with the document that was
   * read from it, or failed when reading raised; of another format it ends unsupported.
   */
  lemma QueuedFileEndsAsRead(start: seq<FileRecord>, files: seq<FileRecord>, prior: seq<Document>, documents: seq<Document>,
                             read: Reader, i: nat)
    requires DistinctKeys(FileKey(), start) && i < |start| && start[i].status == Pending && start[i].duplicateOf.None?
    requires Processed(start, files, read, QueueOf(start)) && Documented(start, prior, documents, read, QueueOf(start))
    ensures var supported := start[i].extension == Xlsx || start[i].extension == Docx || start[i].extension == Pdf;
            && files[i] == start[i].(status := files[i].status)
            && (files[i].status == Parsed <==> supported && read(start[i].id).Some?)
            && (files[i].status == Failed <==> supported && read(start[i].id).None?)
            && (files[i].status == Unsupported <==> !supported)
            && (files[i].status == Parsed ==> Document(start[i].id, read(start[i].id).value) in documents)
  {
    QueueIs(start);
    assert start[i] in start && Queued(start[i]);
    FinalDocuments(start, prior, documents, read);
  }

  /** Documents that the loop adds are those read from queued files of a known format; nothing that was there is lost. */
  lemma DocumentsComeFromReading(start: seq<FileRecord>, prior: seq<Document>, documents: seq<Document>, read: Reader, d: Document)
    requires DistinctKeys(FileKey(), start) && Documented(start, prior, documents, read, QueueOf(start))
    ensures d in prior ==> d in documents
    ensures d in documents && d !in prior ==>
              exists f <- start :: f.id == d.fileId && f.status == Pending && f.duplicateOf.None?
                                   && f.extension != OtherExtension && read(f.id) == Some(d.digest)
  {
    FinalDocuments(start, prior, documents, read);
  }

  /** The queue lists pending originals in the order of the records. */
  lemma {:induction false} QueueKeepsOrder(files: seq<FileRecord>, n: nat) returns (i: nat)
    requires n < |QueueOf(files)|
    ensures i < |files| && files[i].id == QueueOf(files)[n] && files[i].status == Pending && files[i].duplicateOf.None?
    ensures |QueueOf(files[..i])| == n
  {
    var front, last := files[..|files| - 1], files[|files| - 1];
    if n < |QueueOf(front)| {
      i := QueueKeepsOrder(front, n);
      assert front[..i] == files[..i];
    } else {
      i := |files| - 1;
    }
  }

  /** So the place of a pending original in the queue is the number of pending originals before it. */
  lemma {:induction false} PlaceInQueue(files: seq<FileRecord>, i: nat)
    requires i < |files| && files[i].status == Pending && files[i].duplicateOf.None?
    ensures |QueueOf(files[..i])| < |QueueOf(files)| && QueueOf(files)[|QueueOf(files[..i])|] == files[i].id
  {
    var front := files[..|files| - 1];
    if i < |files| - 1 {
      PlaceInQueue(front, i);
      assert front[..i] == files[..i];
    }
  }
}
