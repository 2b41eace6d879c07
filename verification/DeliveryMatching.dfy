/** Matching a delivery log entry to one file, and the checks made of the resulting records. */
module DeliveryMatching {
  import opened Options
  import opened GroupIndex

  datatype FileRecord = FileRecord(sha: string, name: string, stem: string, duplicateOf: Option<FileId>)

  datatype Channel = LocalLog | EmailMcp

  /** An entry with its texts in comparable form; an empty digest counts as absent. */
  datatype Entry = Entry(id: nat, sha: string, digest: string, name: string, stem: string, evidenceRef: string)

  datatype Method = BySha | ByDigest | ByName | Unmatched

  /** Confidences are percentages. */
  datatype Delivery = Delivery(id: (Channel, nat), groupId: Option<GroupId>, fileId: Option<FileId>, method_: Method,
                               confidence: nat, channel: Channel, evidenceRef: string)

  datatype Match = Match(fileId: Option<FileId>, method_: Method, confidence: nat)

  /** `digests` holds the digest of every file that has a document. */
  datatype World = World(files: map<FileId, FileRecord>, digests: map<FileId, string>, groups: seq<Group>) {

    function Canonical(f: FileId): FileId
      requires f in files
    {
      if files[f].duplicateOf.Some? then files[f].duplicateOf.value else f
    }
  }

  /** The signals from strongest to weakest. */
  datatype Signal = Sha | Digest | Name | Stem

  predicate Agrees(w: World, entry: Entry, signal: Signal, f: FileId)
    requires f in w.files
  {
    match signal
    case Sha => entry.sha != "" && w.files[f].sha == entry.sha
    case Digest => entry.digest != "" && w.Canonical(f) in w.digests && w.digests[w.Canonical(f)] == entry.digest
    case Name => w.files[f].name == entry.name
    case Stem => w.files[f].stem == entry.stem
  }

  /** All files that agree are copies of one known file. */
  predicate Pinpoints(w: World, entry: Entry, signal: Signal, c: FileId) {
    && c in w.files && (exists f <- w.files.Keys :: Agrees(w, entry, signal, f))
    && forall f <- w.files.Keys :: Agrees(w, entry, signal, f) ==> w.Canonical(f) == c
  }

  ghost predicate Undecided(w: World, entry: Entry, signal: Signal) {
    forall c :: !Pinpoints(w, entry, signal, c)
  }

  /** Folds copies together and returns the only file left, if there is exactly one. */
  method SelectUniqueCanonical(w: World, entry: Entry, signal: Signal) returns (r: Option<FileId>)
    ensures r.Some? ==> Pinpoints(w, entry, signal, r.value)
    ensures r.None? ==> Undecided(w, entry, signal)
  {
    var canonical := set f | f in w.files && Agrees(w, entry, signal, f) :: w.Canonical(f);
    if |canonical| != 1 {
      forall c: FileId | Pinpoints(w, entry, signal, c) ensures canonical == {c} {
        var f :| f in w.files && Agrees(w, entry, signal, f);
        assert w.Canonical(f) in canonical;
      }
      return None;
    }
    var c :| c in canonical;
    assert canonical - {c} == {} by {
      assert |canonical - {c}| == 0;
    }
    assert forall f <- w.files.Keys :: Agrees(w, entry, signal, f) ==> w.Canonical(f) in canonical && w.Canonical(f) !in canonical - {c};
    if c !in w.files {
      forall d ensures !Pinpoints(w, entry, signal, d) {
        var f :| f in w.files && Agrees(w, entry, signal, f) && w.Canonical(f) == c;
      }
      return None;
    }
    return Some(c);
  }

  function MethodOf(signal: Signal): Method {
    match signal case Sha => BySha case Digest => ByDigest case Name => ByName case Stem => ByName
  }

  function ConfidenceOf(signal: Signal): nat {
    match signal case Sha => 100 case Digest => 95 case Name => 85 case Stem => 70
  }

  predicate Stronger(a: Signal, b: Signal) {
    match b
    case Sha => false
    case Digest => a == Sha
    case Name => a == Sha || a == Digest
    case Stem => a != Stem
  }

  /** The match is made by the strongest signal that pinpoints a file; without one there is no match. */
  ghost predicate IsMatch(w: World, entry: Entry, m: Match) {
    if m.fileId.None? then m == Match(None, Unmatched, 0) && forall s: Signal :: Undecided(w, entry, s)
    else
      exists s: Signal ::
        && Pinpoints(w, entry, s, m.fileId.value) && m.method_ == MethodOf(s) && m.confidence == ConfidenceOf(s)
        && forall t: Signal | Stronger(t, s) :: Undecided(w, entry, t)
  }

  method MatchEntry(w: World, entry: Entry) returns (m: Match)
    ensures IsMatch(w, entry, m)
  {
    var bySha := SelectUniqueCanonical(w, entry, Sha);
    if bySha.Some? {
      assert Pinpoints(w, entry, Sha, bySha.value);
      return Match(bySha, BySha, 100);
    }
    var byDigest := SelectUniqueCanonical(w, entry, Digest);
    if byDigest.Some? {
      assert Pinpoints(w, entry, Digest, byDigest.value);
      return Match(byDigest, ByDigest, 95);
    }
    var byName := SelectUniqueCanonical(w, entry, Name);
    if byName.Some? {
      assert Pinpoints(w, entry, Name, byName.value);
      return Match(byName, ByName, 85);
    }
    var byStem := SelectUniqueCanonical(w, entry, Stem);
    if byStem.Some? {
      assert Pinpoints(w, entry, Stem, byStem.value);
      return Match(byStem, ByName, 70);
    }
    forall s: Signal ensures Undecided(w, entry, s) {
      match s {
        case Sha => case Digest => case Name => case Stem =>
      }
    }
    return Match(None, Unmatched, 0);
  }

  /** The specification leaves no choice, so the order of the files cannot matter. */
  lemma MatchIsUnique(w: World, entry: Entry, m: Match, n: Match)
    requires IsMatch(w, entry, m) && IsMatch(w, entry, n)
    ensures m == n
  {
    if m.fileId.Some? && n.fileId.Some? {
      var s: Signal :| Pinpoints(w, entry, s, m.fileId.value) && m.method_ == MethodOf(s) && m.confidence == ConfidenceOf(s)
                       && forall t: Signal | Stronger(t, s) :: Undecided(w, entry, t);
      var u: Signal :| Pinpoints(w, entry, u, n.fileId.value) && n.method_ == MethodOf(u) && n.confidence == ConfidenceOf(u)
                       && forall t: Signal | Stronger(t, u) :: Undecided(w, entry, t);
      assert !Stronger(s, u) && !Stronger(u, s);
      assert s == u;
      var f :| f in w.files && Agrees(w, entry, s, f);
    } else if m.fileId.Some? {
      MatchIsDecided(w, entry, m);
    } else if n.fileId.Some? {
      MatchIsDecided(w, entry, n);
    }
  }

  lemma MatchIsDecided(w: World, entry: Entry, m: Match)
    requires IsMatch(w, entry, m) && m.fileId.Some?
    ensures exists s: Signal :: !Undecided(w, entry, s)
  {
    var s: Signal :| Pinpoints(w, entry, s, m.fileId.value);
    assert !Undecided(w, entry, s);
  }

  // ----- The records of a batch -----

  ghost predicate IsDelivery(w: World, entry: Entry, channel: Channel, d: Delivery) {
    && IsMatch(w, entry, Match(d.fileId, d.method_, d.confidence))
    && (if d.fileId.Some? then d.groupId.Some? && Memberships(w.groups, d.fileId.value) == [d.groupId.value] else d.groupId.None?)
    && d.id == (channel, entry.id) && d.channel == channel && d.evidenceRef == entry.evidenceRef
  }

  /** A match with an ungrouped file makes the service raise. */
  ghost predicate Ungrouped(w: World, entry: Entry) {
    exists m :: IsMatch(w, entry, m) && m.fileId.Some? && Memberships(w.groups, m.fileId.value) == []
  }

  method MatchDelivery(w: World, index: map<FileId, GroupId>, entry: Entry, channel: Channel) returns (r: Result<Delivery>)
    requires Indexed(w.groups, w.files.Keys, index)
    ensures r.Err? <==> Ungrouped(w, entry)
    ensures r.Ok? ==> IsDelivery(w, entry, channel, r.value)
  {
    var m := MatchEntry(w, entry);
    forall n | IsMatch(w, entry, n) ensures n == m {
      MatchIsUnique(w, entry, m, n);
    }
    if m.fileId.None? {
      return Ok(Delivery((channel, entry.id), None, None, m.method_, m.confidence, channel, entry.evidenceRef));
    }
    var f := m.fileId.value;
    if f !in index {
      return Err(ValueError);
    }
    return Ok(Delivery((channel, entry.id), Some(index[f]), m.fileId, m.method_, m.confidence, channel, entry.evidenceRef));
  }

  /** One delivery per entry in the order of the entries, unless the groups or a match are out of order. */
  method MatchDeliveries(w: World, entries: seq<Entry>, channel: Channel) returns (r: Result<seq<Delivery>>)
    ensures r.Err? <==> RepeatedIds(entries) || (entries != [] && !Orderly(w.groups, w.files.Keys))
                        || (Orderly(w.groups, w.files.Keys) && exists e <- entries :: Ungrouped(w, e))
    ensures r.Ok? ==> |r.value| == |entries| && forall i | 0 <= i < |entries| :: IsDelivery(w, entries[i], channel, r.value[i])
  {
    if RepeatedIds(entries) {
      return Err(ValueError);
    }
    var deliveries := [];
    for n := 0 to |entries|
      invariant |deliveries| == n && forall i | 0 <= i < n :: IsDelivery(w, entries[i], channel, deliveries[i])
      invariant n > 0 ==> Orderly(w.groups, w.files.Keys)
      invariant Orderly(w.groups, w.files.Keys) ==> forall i | 0 <= i < n :: !Ungrouped(w, entries[i])
    {
      var ok, index := IndexGroups(w.groups, w.files.Keys);
      assert entries[n] in entries;
      if !ok {
        return Err(ValueError);
      }
      var d :- MatchDelivery(w, index, entries[n], channel);
      deliveries := deliveries + [d];
    }
    return Ok(deliveries);
  }

  predicate RepeatedIds(entries: seq<Entry>) {
    exists i, k | 0 <= i < k < |entries| :: entries[i].id == entries[k].id
  }

  // ----- The checks -----

  /** The validation node's checks of one delivery. */
  predicate DeliveryConsistent(w: World, d: Delivery) {
    && d.confidence <= 100
    && (d.fileId.None? ==> d.groupId.None? && d.method_ == Unmatched && d.confidence == 0)
    && (d.fileId.Some? ==>
          && d.fileId.value in w.files && d.groupId.Some?
          && Memberships(w.groups, d.fileId.value) == [d.groupId.value] && d.method_ != Unmatched)
  }

  function Refs(entries: seq<Entry>): multiset<string> {
    if entries == [] then multiset{} else Refs(entries[..|entries| - 1]) + multiset{entries[|entries| - 1].evidenceRef}
  }

  function DeliveredRefs(deliveries: seq<Delivery>, channel: Channel, expected: multiset<string>): multiset<string> {
    if deliveries == [] then multiset{}
    else
      var last := deliveries[|deliveries| - 1];
      DeliveredRefs(deliveries[..|deliveries| - 1], channel, expected)
      + if last.channel == channel && last.evidenceRef in expected then multiset{last.evidenceRef} else multiset{}
  }

  /** When every file is grouped, matching cannot raise. */
  lemma GroupedNeverRaises(w: World, entry: Entry)
    requires forall f <- w.files.Keys :: Memberships(w.groups, f) != []
    ensures !Ungrouped(w, entry)
  {
    forall m | IsMatch(w, entry, m) && m.fileId.Some? ensures Memberships(w.groups, m.fileId.value) != [] {
      var s: Signal :| Pinpoints(w, entry, s, m.fileId.value);
    }
  }

  /** The deliveries of a batch satisfy every check of the merge and validation nodes. */
  lemma {:induction false} DeliveriesPassChecks(w: World, entries: seq<Entry>, channel: Channel,
                                                deliveries: seq<Delivery>, expected: multiset<string>)
    requires |deliveries| == |entries| && forall i | 0 <= i < |entries| :: IsDelivery(w, entries[i], channel, deliveries[i])
    requires Refs(entries) <= expected
    ensures DeliveredRefs(deliveries, channel, expected) == Refs(entries)
    ensures forall d <- deliveries :: DeliveryConsistent(w, d)
  {
    if entries != [] {
      var n := |entries| - 1;
      assert Refs(entries[..n]) <= Refs(entries) && entries[n].evidenceRef in Refs(entries);
      DeliveriesPassChecks(w, entries[..n], channel, deliveries[..n], expected);
      assert IsDelivery(w, entries[n], channel, deliveries[n]);
      MatchIsConsistent(w, entries[n], channel, deliveries[n]);
      assert forall d :: d in deliveries <==> d in deliveries[..n] || d == deliveries[n];
    }
  }

  lemma MatchIsConsistent(w: World, entry: Entry, channel: Channel, d: Delivery)
    requires IsDelivery(w, entry, channel, d)
    ensures DeliveryConsistent(w, d)
  {
    if d.fileId.Some? {
      var s: Signal :| Pinpoints(w, entry, s, d.fileId.value) && d.method_ == MethodOf(s) && d.confidence == ConfidenceOf(s);
    }
  }

  // ----- What the signals are -----

  /** All files with the property are copies of the one known file. */
  ghost predicate OnlyCopiesOf(w: World, c: FileId, agrees: FileId -> bool) {
    && c in w.files && (exists f :: f in w.files && agrees(f))
    && forall f | f in w.files && agrees(f) :: (if w.files[f].duplicateOf.Some? then w.files[f].duplicateOf.value else f) == c
  }

  ghost predicate NoSingleFile(w: World, agrees: FileId -> bool) {
    forall c :: !OnlyCopiesOf(w, c, agrees)
  }

  function ByHash(w: World, entry: Entry): FileId -> bool {
    (f: FileId) => f in w.files && entry.sha != "" && w.files[f].sha == entry.sha
  }

  function ByContent(w: World, entry: Entry): FileId -> bool {
    (f: FileId) =>
      f in w.files && entry.digest != "" &&
      var original := if w.files[f].duplicateOf.Some? then w.files[f].duplicateOf.value else f;
      original in w.digests && w.digests[original] == entry.digest
  }

  function ByFileName(w: World, entry: Entry): FileId -> bool {
    (f: FileId) => f in w.files && w.files[f].name == entry.name
  }

  function ByStem(w: World, entry: Entry): FileId -> bool {
    (f: FileId) => f in w.files && w.files[f].stem == entry.stem
  }

  lemma PinpointMeans(w: World, entry: Entry, c: FileId)
    ensures Pinpoints(w, entry, Sha, c) <==> OnlyCopiesOf(w, c, ByHash(w, entry))
    ensures Pinpoints(w, entry, Digest, c) <==> OnlyCopiesOf(w, c, ByContent(w, entry))
    ensures Pinpoints(w, entry, Name, c) <==> OnlyCopiesOf(w, c, ByFileName(w, entry))
    ensures Pinpoints(w, entry, Stem, c) <==> OnlyCopiesOf(w, c, ByStem(w, entry))
  {
    assert forall f <- w.files.Keys :: Agrees(w, entry, Sha, f) <==> ByHash(w, entry)(f);
    assert forall f <- w.files.Keys :: Agrees(w, entry, Digest, f) <==> ByContent(w, entry)(f);
    assert forall f <- w.files.Keys :: Agrees(w, entry, Name, f) <==> ByFileName(w, entry)(f);
    assert forall f <- w.files.Keys :: Agrees(w, entry, Stem, f) <==> ByStem(w, entry)(f);
  }

  lemma UndecidedMeans(w: World, entry: Entry)
    ensures Undecided(w, entry, Sha) <==> NoSingleFile(w, ByHash(w, entry))
    ensures Undecided(w, entry, Digest) <==> NoSingleFile(w, ByContent(w, entry))
    ensures Undecided(w, entry, Name) <==> NoSingleFile(w, ByFileName(w, entry))
    ensures Undecided(w, entry, Stem) <==> NoSingleFile(w, ByStem(w, entry))
  {
    forall c: FileId
      ensures Pinpoints(w, entry, Sha, c) <==> OnlyCopiesOf(w, c, ByHash(w, entry))
      ensures Pinpoints(w, entry, Digest, c) <==> OnlyCopiesOf(w, c, ByContent(w, entry))
      ensures Pinpoints(w, entry, Name, c) <==> OnlyCopiesOf(w, c, ByFileName(w, entry))
      ensures Pinpoints(w, entry, Stem, c) <==> OnlyCopiesOf(w, c, ByStem(w, entry))
    {
      PinpointMeans(w, entry, c);
    }
  }

  /**
   * An equal hash decides with full confidence, whatever else agrees; only where
   * it leaves the file open does an equal text decide with 0.95, then an equal
   * name with 0.85, and last an equal stem with 0.70.  Otherwise nothing is matched.
   */
  lemma MatchExactly(w: World, entry: Entry, m: Match, c: FileId)
    requires IsMatch(w, entry, m)
    ensures OnlyCopiesOf(w, c, ByHash(w, entry)) ==> m == Match(Some(c), BySha, 100)
    ensures NoSingleFile(w, ByHash(w, entry)) && OnlyCopiesOf(w, c, ByContent(w, entry)) ==> m == Match(Some(c), ByDigest, 95)
    ensures NoSingleFile(w, ByHash(w, entry)) && NoSingleFile(w, ByContent(w, entry)) && OnlyCopiesOf(w, c, ByFileName(w, entry)) ==>
              m == Match(Some(c), ByName, 85)
    ensures NoSingleFile(w, ByHash(w, entry)) && NoSingleFile(w, ByContent(w, entry)) && NoSingleFile(w, ByFileName(w, entry)) ==>
              && (OnlyCopiesOf(w, c, ByStem(w, entry)) ==> m == Match(Some(c), ByName, 70))
              && (NoSingleFile(w, ByStem(w, entry)) ==> m == Match(None, Unmatched, 0))
  {
    PinpointMeans(w, entry, c);
    UndecidedMeans(w, entry);
    if OnlyCopiesOf(w, c, ByHash(w, entry)) {
      StrongestDecides(w, entry, m, Sha, c);
    } else if NoSingleFile(w, ByHash(w, entry)) {
      if OnlyCopiesOf(w, c, ByContent(w, entry)) {
        StrongestDecides(w, entry, m, Digest, c);
      } else if NoSingleFile(w, ByContent(w, entry)) {
        if OnlyCopiesOf(w, c, ByFileName(w, entry)) {
          StrongestDecides(w, entry, m, Name, c);
        } else if NoSingleFile(w, ByFileName(w, entry)) {
          if OnlyCopiesOf(w, c, ByStem(w, entry)) {
            StrongestDecides(w, entry, m, Stem, c);
          } else if NoSingleFile(w, ByStem(w, entry)) {
            NothingDecides(w, entry, m);
          }
        }
      }
    }
  }

  lemma StrongestDecides(w: World, entry: Entry, m: Match, s: Signal, c: FileId)
    requires IsMatch(w, entry, m) && Pinpoints(w, entry, s, c)
    requires forall t: Signal | Stronger(t, s) :: Undecided(w, entry, t)
    ensures m == Match(Some(c), MethodOf(s), ConfidenceOf(s))
  {
    var n := Match(Some(c), MethodOf(s), ConfidenceOf(s));
    assert IsMatch(w, entry, n);
    MatchIsUnique(w, entry, m, n);
  }

  lemma NothingDecides(w: World, entry: Entry, m: Match)
    requires IsMatch(w, entry, m) && forall s: Signal :: Undecided(w, entry, s)
    ensures m == Match(None, Unmatched, 0)
  {
    if m.fileId.Some? {
      MatchIsDecided(w, entry, m);
    }
  }

  /** The checks refuse a delivery that names an unknown or wrongly grouped file, an impossible confidence, or a match without a file. */
  lemma FaultyDeliveryIsRefused(w: World, d: Delivery)
    requires || d.confidence > 100
             || (d.fileId.None? && (d.groupId.Some? || d.method_ != Unmatched || d.confidence != 0))
             || (d.fileId.Some? && (d.fileId.value !in w.files || d.groupId.None? || d.method_ == Unmatched))
             || (d.fileId.Some? && d.groupId.Some? && Memberships(w.groups, d.fileId.value) != [d.groupId.value])
    ensures !DeliveryConsistent(w, d)
  {
  }
}
